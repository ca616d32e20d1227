/**
 * ICU status codes used by the preference reader, and the translation of a
 * failed platform locale query into one of them.
 */
module Status {

  /** The subset of ICU's UErrorCode that the preference reader can produce. */
  datatype UErrorCode =
    | UsingFallbackWarning   // U_USING_FALLBACK_WARNING
    | ZeroError              // U_ZERO_ERROR
    | IllegalArgumentError   // U_ILLEGAL_ARGUMENT_ERROR
    | InternalProgramError   // U_INTERNAL_PROGRAM_ERROR
    | MemoryAllocationError  // U_MEMORY_ALLOCATION_ERROR
    | BufferOverflowError    // U_BUFFER_OVERFLOW_ERROR
    | UnsupportedError       // U_UNSUPPORTED_ERROR
  {
    /** ICU's numeric value of the code: warnings are negative, errors positive. */
    function Value(): int {
      match this
      case UsingFallbackWarning => -128
      case ZeroError => 0
      case IllegalArgumentError => 1
      case InternalProgramError => 5
      case MemoryAllocationError => 7
      case BufferOverflowError => 15
      case UnsupportedError => 16
    }

    /** ICU's U_FAILURE: any code above U_ZERO_ERROR. */
    predicate IsFailure() {
      Value() > ZeroError.Value()
    }
  }

  /** The error a failed platform query leaves behind (what GetLastError reports). */
  datatype PlatformError =
    | InsufficientBuffer     // ERROR_INSUFFICIENT_BUFFER
    | InvalidFlags           // ERROR_INVALID_FLAGS
    | InvalidParameter       // ERROR_INVALID_PARAMETER
    | OtherPlatformError     // any other error code

  /**
   * getUErrorCodeFromLastError. A failed platform query is always a hard
   * failure: it never reads as success, as a warning, or as the "unsupported
   * field" code that the assembler absorbs.
   */
  function ErrorFromLastError(e: PlatformError): (r: UErrorCode)
    ensures r.IsFailure() && r != UnsupportedError
    ensures r == BufferOverflowError <==> e == InsufficientBuffer
    ensures r == IllegalArgumentError <==> e == InvalidFlags || e == InvalidParameter
    ensures r == InternalProgramError <==> e == OtherPlatformError
  {
    match e
    case InsufficientBuffer => BufferOverflowError
    case InvalidFlags => IllegalArgumentError
    case InvalidParameter => IllegalArgumentError
    case OtherPlatformError => InternalProgramError
  }
}
