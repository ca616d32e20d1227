/**
 * The size-query-then-copy convention toward the caller of the preference
 * reader (checkBufferCapacityAndCopy): with a size of 0 the caller learns
 * the size it needs, NUL terminator included; with too small a size nothing
 * is written and the call fails; otherwise the string and its NUL are copied.
 */
module CallerBuffer {
  import opened Wrappers
  import opened Status
  import opened LocaleText

  /** What a call returns, the status it leaves, and what it writes to the front of the buffer. */
  datatype Reply = Reply(result: int, status: UErrorCode, written: Option<string>)

  /** Units needed to hold `s` with its terminator (strlen + 1). */
  function NeededSize(s: CString): nat {
    |s| + 1
  }

  /**
   * The reply to a caller holding a buffer of `bufferSize` units, given the
   * status accumulated so far. Sizes are compared as signed numbers; the C
   * code compares them unsigned (see CopyAllowedAsWritten).
   */
  function Negotiate(s: CString, bufferSize: int, status: UErrorCode): (r: Reply)
    ensures r.written.Some? ==> r.written.value == s + "\0" && |r.written.value| <= bufferSize
    ensures r.written.Some? <==> bufferSize != 0 && NeededSize(s) <= bufferSize
    ensures r.result == -1 <==> bufferSize != 0 && NeededSize(s) > bufferSize
    ensures r.result != -1 ==> r.result == NeededSize(s) && r.status == status
    ensures r.result == -1 ==> r.status == BufferOverflowError
  {
    var needed := NeededSize(s);
    if bufferSize == 0 then Reply(needed, status, None)
    else if needed > bufferSize then Reply(-1, BufferOverflowError, None)
    else Reply(needed, status, Some(s + "\0"))
  }

  /** The buffer after a reply: the written units replace its front, the rest stays. */
  function Overwrite(buffer: seq<char>, written: Option<string>): (r: seq<char>)
    requires written.Some? ==> |written.value| <= |buffer|
    ensures |r| == |buffer|
  {
    match written
    case None => buffer
    case Some(w) => w + buffer[|w|..]
  }

  /**
   * A size query and a fill call agree: the size reported for bufferSize 0
   * is what a successful call with a large enough buffer returns, and such a
   * call writes exactly that many units.
   */
  lemma SizeQueryMatchesFill(s: CString, bufferSize: int, status: UErrorCode)
    requires bufferSize >= Negotiate(s, 0, status).result
    ensures Negotiate(s, bufferSize, status).result == Negotiate(s, 0, status).result
    ensures |Negotiate(s, bufferSize, status).written.value| == Negotiate(s, 0, status).result
  {
  }

  /**
   * checkBufferCapacityAndCopy. `status` is the status on entry; the copy is
   * strcpy, one unit at a time, followed by the terminator.
   */
  method CheckBufferCapacityAndCopy(uprefsString: CString, uprefsBuffer: array?<char>, bufferSize: int, status: UErrorCode)
    returns (result: int, newStatus: UErrorCode)
    requires uprefsBuffer != null || bufferSize == 0
    requires uprefsBuffer != null ==> bufferSize <= uprefsBuffer.Length
    modifies uprefsBuffer
    ensures result == Negotiate(uprefsString, bufferSize, status).result
    ensures newStatus == Negotiate(uprefsString, bufferSize, status).status
    ensures uprefsBuffer != null ==>
      uprefsBuffer[..] == Overwrite(old(uprefsBuffer[..]), Negotiate(uprefsString, bufferSize, status).written)
  {
    var neededBufferSize := |uprefsString| + 1;
    if bufferSize == 0 {
      return neededBufferSize, status;
    }
    if neededBufferSize > bufferSize {
      return -1, BufferOverflowError;
    }
    var i := 0;
    while i < |uprefsString|
      invariant 0 <= i <= |uprefsString|
      invariant uprefsBuffer[..i] == uprefsString[..i]
      invariant uprefsBuffer[i..] == old(uprefsBuffer[i..])
    {
      uprefsBuffer[i] := uprefsString[i];
      i := i + 1;
    }
    uprefsBuffer[i] := '\0';
    assert uprefsBuffer[..neededBufferSize] == uprefsString + "\0";
    assert uprefsBuffer[neededBufferSize..] == old(uprefsBuffer[neededBufferSize..]);
    assert uprefsBuffer[..] == uprefsBuffer[..neededBufferSize] + uprefsBuffer[neededBufferSize..];
    return neededBufferSize, status;
  }

  /** A 32-bit signed size converted to a 64-bit size_t, as the C comparison does. */
  function SizeTOf(bufferSize: int): (r: nat)
    ensures r < 0x1_0000_0000_0000_0000
    ensures 0 <= bufferSize < 0x1_0000_0000_0000_0000 ==> r == bufferSize
  {
    bufferSize % 0x1_0000_0000_0000_0000
  }

  /**
   * Line 327 as written: `neededBufferSize > bufferSize` compares a size_t
   * with an int32_t, so the signed size is converted to size_t first, and a
   * negative size reads as a huge one: the copy goes ahead.
   */
  function CopyAllowedAsWritten(neededBufferSize: nat, bufferSize: int): (allowed: bool)
    ensures 0 <= bufferSize < 0x1_0000_0000_0000_0000 ==> (allowed <==> neededBufferSize <= bufferSize)
    ensures -0x8000_0000 <= bufferSize < 0 && neededBufferSize < 0x8000_0000_0000_0000 ==> allowed
  {
    !(neededBufferSize > SizeTOf(bufferSize))
  }

  /**
   * With bufferSize -1, the check as written lets a two-unit copy ("a" and
   * its NUL) through, whereas the signed comparison rejects it and writes
   * nothing.
   */
  lemma NegativeSizeAsWritten()
    ensures CopyAllowedAsWritten(NeededSize("a"), -1)
    ensures Negotiate("a", -1, ZeroError) == Reply(-1, BufferOverflowError, None)
  {
  }
}
