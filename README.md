# uprefs: the Windows user's preferences as a BCP 47 tag

A Dafny model of ICU's Windows preference reader, `uprefs_getBCP47Tag`. The
function reads the current user's regional settings through the Windows NLS
locale API. These are the locale name, calendar, alternate sort order,
currency, first day of week, time format and measurement system. It turns
them into one BCP 47 language tag (RFC 5646) with a Unicode locale extension
(RFC 6067, UTS #35 section 3.6), for example
`en-US-u-ca-gregory-cu-usd-fw-sun-hc-h12-ms-ussystem`, and hands the tag to
the caller with the usual size-query-then-fill buffer convention.

The model has these modules:

- `Status`: the ICU status codes the component uses, and the mapping from
  the platform's last error to a status (`getUErrorCodeFromLastError`).
- `NlsMappings`: the four closed tables from NLS values to extension types
  (calendar CALID to `ca`, alternate sort name to `co`, first day to `fw`,
  measurement system to `ms`).
- `LocaleText`: NUL-free C strings, splitting a locale name such as
  `de-DE_phoneb` at its first `_`, and ASCII lower-casing for the currency.
- `HourCycle`: the scanner that finds the first unquoted `h` or `H` in a
  time format (`get12_or_24hourFormat`). It is an imperative loop, proved
  against a recursive specification and a declarative "first marker" one.
- `Resolvers`: the seven `..._impl` readers. Each platform query is
  represented by its answer: a value, a platform error, or a failed scratch
  allocation. Each reader yields `Ok(code)`, `Unsupported` or
  `Fatal(error)`.
- `CallerBuffer`: `checkBufferCapacityAndCopy` as a method over a
  `char` array, proved against a pure `Negotiate` function.
- `Uprefs`: `appendIfDataNotEmpty` and `uprefs_getBCP47Tag` as methods. The
  pure specification `PreferredTag` / `Call` is a fold over the six
  extension fields. The lemmas state the tag's shape, when the warning is
  raised, when the call fails and with which status, and how the size query
  and the fill agree.
- `Scenarios`: two whole-tag cases, typical United States settings and the
  same settings with an unknown calendar.

The platform and the allocator are not modelled as code. Their answers form the `Settings` value that the readers receive.
The locale name is queried twice in the C code, once for the language and
once for the sort order. So `Settings` holds two answers for it, and each of
the two queries can fail on its own.

## Model

| member | source | states |
|---|---|---|
| Status.ErrorFromLastError | icu/icu4c/source/common/uprefs.cpp:258-274 | a platform error always maps to a hard failure other than U_UNSUPPORTED_ERROR; BUFFER_OVERFLOW exactly for ERROR_INSUFFICIENT_BUFFER, ILLEGAL_ARGUMENT exactly for ERROR_INVALID_FLAGS or ERROR_INVALID_PARAMETER; U_INTERNAL_PROGRAM_ERROR exactly for every other error |
| NlsMappings.CalendarBcp47 | icu/icu4c/source/common/uprefs.cpp:54-92 | the calendar code is empty exactly for CALIDs outside the table; every Gregorian variant maps to "gregory" |
| NlsMappings.CalendarTable | icu/icu4c/source/common/uprefs.cpp:56-88 | each CALID of the table maps to its CLDR calendar (japanese, roc, dangi, islamic, buddhist, hebrew, persian, islamic-umalqura) |
| NlsMappings.CalendarMergesOnlyGregorian | icu/icu4c/source/common/uprefs.cpp:57-63 | two supported CALIDs share a code exactly when they are equal or both Gregorian |
| NlsMappings.SortingBcp47 | icu/icu4c/source/common/uprefs.cpp:109-135 | the collation code is empty exactly for sort names outside the five known ones |
| NlsMappings.SortingTable | icu/icu4c/source/common/uprefs.cpp:111-130 | phoneb, tradnl, stroke, radstr, pronun map to phonebk, trad, stroke, unihan, phonetic |
| NlsMappings.SortingInjective | icu/icu4c/source/common/uprefs.cpp:109-135 | no two known sort names share a collation code |
| NlsMappings.FirstDayBcp47 | icu/icu4c/source/common/uprefs.cpp:153-180 | the first-day code is empty exactly outside 0..6 |
| NlsMappings.FirstDayTable | icu/icu4c/source/common/uprefs.cpp:155-176 | day d of 0..6 maps to the d-th of mon..sun, and distinct days give distinct codes |
| NlsMappings.MeasureSystemBcp47 | icu/icu4c/source/common/uprefs.cpp:195-205 | the measurement code is empty exactly outside 0..1 |
| NlsMappings.MeasureSystemTable | icu/icu4c/source/common/uprefs.cpp:197-201 | 0 maps to metric and 1 to ussystem |
| LocaleText.FirstIndexOf | icu/icu4c/source/common/uprefs.cpp:406 | the search finds a character exactly when it occurs, and the position found is its first occurrence |
| LocaleText.LanguagePart | icu/icu4c/source/common/uprefs.cpp:355-360 | the language part is a `_`-free prefix of the name that ends at the name's first `_` or is the whole name |
| LocaleText.SortSuffix | icu/icu4c/source/common/uprefs.cpp:403-411 | there is a sort suffix exactly when the name contains `_` |
| LocaleText.SplitRoundTrip | icu/icu4c/source/common/uprefs.cpp:403-411 | language part, `_` and suffix put back together give the name; without `_` the language part is the name |
| LocaleText.SplitOfJoin | icu/icu4c/source/common/uprefs.cpp:403-411 | a `_`-free language, `_` and any rest split back into that language and that rest |
| LocaleText.SplitExample | icu/icu4c/source/common/uprefs.cpp:403-405 | "de-DE_phoneb" splits into "de-DE" and "phoneb" |
| LocaleText.ToLower | icu/icu4c/source/common/uprefs.cpp:455-456 | lower-casing keeps the length, maps A-Z to a-z and leaves every other character unchanged |
| LocaleText.ToLowerProperties | icu/icu4c/source/common/uprefs.cpp:455-456 | the result has no upper-case ASCII letter, stays NUL-free, and lower-casing it again changes nothing |
| LocaleText.ToLowerExample | icu/icu4c/source/common/uprefs.cpp:455-456 | "EUR" and "USD" become "eur" and "usd" |
| HourCycle.ScanFrom | icu/icu4c/source/common/uprefs.cpp:231-256 | the scanner answers only "h12" or "h23" |
| HourCycle.ScanFromCorrect | icu/icu4c/source/common/uprefs.cpp:231-256 | scanning from position i with the quote state there yields h12 when the first unquoted marker at or after i is `h`, and h23 when it is `H` or there is none |
| HourCycle.HourCycleSpec | icu/icu4c/source/common/uprefs.cpp:224-230 | the hour cycle is h12 exactly when some first unquoted marker exists and is `h`, and h23 exactly when not |
| HourCycle.NoMarkerMeansH23 | icu/icu4c/source/common/uprefs.cpp:254-255 | a format with no `h` or `H` outside quotes defaults to h23 |
| HourCycle.HourCycleExamples | icu/icu4c/source/common/uprefs.cpp:225-230 | "h:mm:ss tt" and "'Hours:' h:mm:ss" give h12; "H:mm:ss", "'Hours:' H:mm" and "mm:ss" give h23 |
| HourCycle.Get12Or24HourFormat | icu/icu4c/source/common/uprefs.cpp:231-256 | the loop returns the hour cycle of the format as the specification defines it |
| Resolvers.TextError | icu/icu4c/source/common/uprefs.cpp:338-353 | a failed string query is a hard failure; U_MEMORY_ALLOCATION_ERROR exactly when the scratch allocation failed; a failed platform query gives ErrorFromLastError of its platform error |
| Resolvers.AbortsIffFatal | icu/icu4c/source/common/uprefs.cpp:553 | an outcome aborts the tag exactly when it is a hard failure; its status is U_UNSUPPORTED_ERROR exactly when it is unsupported |
| Resolvers.ResolveLanguage | icu/icu4c/source/common/uprefs.cpp:335-367 | a successful locale query gives the `_`-free prefix of the name up to its first `_`; a failed one gives its hard failure |
| Resolvers.ResolveCalendar | icu/icu4c/source/common/uprefs.cpp:369-378 | unsupported exactly for a CALID outside the table; otherwise the table's non-empty code; a failed query gives the mapped platform error |
| Resolvers.ResolveSorting | icu/icu4c/source/common/uprefs.cpp:380-425 | an empty code with no status exactly when the name has no `_`; unsupported exactly when the suffix is unknown; otherwise the table's code for the suffix; a hard failure exactly when the locale query failed |
| Resolvers.SortingExample | icu/icu4c/source/common/uprefs.cpp:403-412 | "de-DE_phoneb" gives the collation "phonebk" |
| Resolvers.NoSortingExample | icu/icu4c/source/common/uprefs.cpp:408-409 | "en-US" gives an empty collation code and no status |
| Resolvers.ResolveCurrency | icu/icu4c/source/common/uprefs.cpp:427-460 | never unsupported; a non-empty symbol gives its lower-cased form; an empty symbol from a successful query gives U_INTERNAL_PROGRAM_ERROR |
| Resolvers.ResolveFirstDay | icu/icu4c/source/common/uprefs.cpp:462-471 | unsupported exactly outside 0..6; otherwise the table's code; a hard failure exactly when the query failed |
| Resolvers.ResolveHourCycle | icu/icu4c/source/common/uprefs.cpp:473-501 | never unsupported; a successful query gives the hour cycle of the time format, h12 or h23 |
| Resolvers.GetHourCycle | icu/icu4c/source/common/uprefs.cpp:473-501 | the reader that runs the scanner loop returns what ResolveHourCycle specifies; its internal-error branch is unreachable |
| Resolvers.ResolveMeasureSystem | icu/icu4c/source/common/uprefs.cpp:503-512 | unsupported exactly outside 0..1; otherwise the table's code; a hard failure exactly when the query failed |
| Resolvers.ResolversAbortOnlyOnFailure | icu/icu4c/source/common/uprefs.cpp:547-574 | each reader aborts exactly when its platform query failed (or, for the currency, returned an empty symbol) |
| Resolvers.LanguageTagAsWritten | icu/icu4c/source/common/uprefs.cpp:356-362 | as written, a name with `_` does not give its prefix before `_` |
| Resolvers.LanguageTagAsWrittenKeepsSuffix | icu/icu4c/source/common/uprefs.cpp:359 | for language + "_" + sort, the code as written keeps the whole name where the intended language tag is the language alone |
| CallerBuffer.Negotiate | icu/icu4c/source/common/uprefs.cpp:322-332 | size 0 returns strlen+1 and writes nothing; a size too small returns -1 with U_BUFFER_OVERFLOW_ERROR and writes nothing; otherwise the string and its NUL are written within the size and strlen+1 is returned with the status unchanged |
| CallerBuffer.SizeQueryMatchesFill | icu/icu4c/source/common/uprefs.cpp:319-321 | a fill with at least the size the query reported returns that size and writes exactly that many units |
| CallerBuffer.CheckBufferCapacityAndCopy | icu/icu4c/source/common/uprefs.cpp:322-332 | the copy returns Negotiate's result and status, and the array afterwards holds the written units followed by its old tail |
| CallerBuffer.SizeTOf | icu/icu4c/source/common/uprefs.cpp:327 | the conversion to size_t lands in 0..2^64-1 and keeps non-negative sizes |
| CallerBuffer.CopyAllowedAsWritten | icu/icu4c/source/common/uprefs.cpp:327 | as written, a non-negative size allows the copy exactly when the string fits, and every negative int32 size allows it for any needed size below 2^63 |
| CallerBuffer.NegativeSizeAsWritten | icu/icu4c/source/common/uprefs.cpp:327 | with bufferSize -1 the comparison as written lets a two-unit copy through, while Negotiate rejects it and writes nothing |
| Uprefs.PreferredTag | icu/icu4c/source/common/uprefs.cpp:547-580 | the reference definition of the tag: a failed tag carries a hard failure, never U_UNSUPPORTED_ERROR; a completed tag needs a successful locale query and starts with the language part followed by "-u" |
| Uprefs.Call | icu/icu4c/source/common/uprefs.cpp:542-582 | the reference definition of the whole call: a missing buffer with a non-zero size is rejected first, then the tag or its failure is negotiated with the buffer; a write happens only with a buffer, fits in its size and makes the result its length; U_USING_FALLBACK_WARNING only for a completed tag with the warning; a call returning a size never reports a failure |
| Uprefs.FirstAbortIsFirst | icu/icu4c/source/common/uprefs.cpp:552-574 | the abort found is the status of a field that aborts and before which no field aborts; none is found exactly when no field aborts |
| Uprefs.AbortSticks | icu/icu4c/source/common/uprefs.cpp:552-574 | once a field aborted, later fields do not change the reported status |
| Uprefs.SegmentPresence | icu/icu4c/source/common/uprefs.cpp:521-525 | a field's segment is present exactly when its outcome is a non-empty code, and is then its prefix followed by the code |
| Uprefs.TagShape | icu/icu4c/source/common/uprefs.cpp:547-575 | a tag is the language part, "-u", then the calendar, collation, currency, first-day, hour-cycle and measurement segments in that order |
| Uprefs.WarningIffUnsupported | icu/icu4c/source/common/uprefs.cpp:516-519 | the warning is raised exactly when the calendar, the sort order, the first day or the measurement system is unsupported |
| Uprefs.FailureIffFatal | icu/icu4c/source/common/uprefs.cpp:547-574 | the tag fails exactly when one of the seven queries fails or the currency symbol is empty, with the status of the first failure in the order language, calendar, sorting, currency, first day, hour cycle, measurement |
| Uprefs.NullBufferRejected | icu/icu4c/source/common/uprefs.cpp:542 | a missing buffer with a non-zero size is U_ILLEGAL_ARGUMENT_ERROR with -1, whatever the settings |
| Uprefs.SizeQueryConsistency | icu/icu4c/source/common/uprefs.h:16-18 | the size reported for bufferSize 0 is what a fill with a large enough buffer returns, and that fill writes the tag and its NUL |
| Uprefs.CallWritesOnlyOnSuccess | icu/icu4c/source/common/uprefs.h:19-23 | the buffer is written only by a successful call and within its size; a call that returns a size reports U_USING_FALLBACK_WARNING exactly when a field was dropped and U_ZERO_ERROR otherwise; a failed tag always returns -1 |
| Uprefs.CompletedText | icu/icu4c/source/common/uprefs.cpp:549-575 | when nothing aborts, the tag is the language, "-u" and each field's prefix and code (or nothing) appended in order |
| Uprefs.CompletedWarning | icu/icu4c/source/common/uprefs.cpp:577-580 | the tag's warning is whether one of the six statuses was U_UNSUPPORTED_ERROR |
| Uprefs.LanguageFailedCall | icu/icu4c/source/common/uprefs.cpp:547-548 | a failed language query ends the call with -1 and its own status, writing nothing |
| Uprefs.CalendarAbortsTag | icu/icu4c/source/common/uprefs.cpp:552-553 | a hard calendar failure after a good language fails the tag with the calendar's status |
| Uprefs.SortingAbortsTag | icu/icu4c/source/common/uprefs.cpp:556-557 | a hard sort-order failure after a good language and calendar fails the tag with its status |
| Uprefs.CurrencyAbortsTag | icu/icu4c/source/common/uprefs.cpp:560-562 | a hard currency failure after the fields before it passed fails the tag with its status |
| Uprefs.FirstDayAbortsTag | icu/icu4c/source/common/uprefs.cpp:565-566 | a hard first-day failure after the fields before it passed fails the tag with its status |
| Uprefs.HourCycleAbortsTag | icu/icu4c/source/common/uprefs.cpp:569-570 | a hard hour-cycle failure after the fields before it passed fails the tag with its status |
| Uprefs.MeasureSystemAbortsTag | icu/icu4c/source/common/uprefs.cpp:573-574 | a hard measurement failure after the fields before it passed fails the tag with its status |
| Uprefs.FailedTagCall | icu/icu4c/source/common/uprefs.cpp:553-574 | a failed tag ends the call with -1 and the tag's error, writing nothing |
| Uprefs.CompletedTag | icu/icu4c/source/common/uprefs.cpp:544-580 | when nothing aborts, the tag built by appending the language, "-u" and each field's piece, and the sticky warning, are the specified tag and warning |
| Uprefs.TagCall | icu/icu4c/source/common/uprefs.cpp:577-582 | a completed tag is handed to the buffer negotiation with U_USING_FALLBACK_WARNING as status when it carries the warning, U_ZERO_ERROR otherwise |
| Uprefs.AppendIfDataNotEmpty | icu/icu4c/source/common/uprefs.cpp:514-526 | the warning becomes set when the status is U_UNSUPPORTED_ERROR and is never cleared; prefix and code are appended exactly when the code is not empty |
| Uprefs.GetBCP47Tag | icu/icu4c/source/common/uprefs.cpp:540-585 | the method returns the result and status that Call specifies, and leaves the caller's array as Call's reply writes it |
| Scenarios.UnitedStatesFields | icu/icu4c/source/common/uprefs.cpp:335-512 | en-US, no sort suffix, USD, Sunday, "h:mm:ss tt" and U.S. units resolve to en-US, no collation, usd, sun, h12 and ussystem |
| Scenarios.UnitedStatesTag | icu/icu4c/source/common/uprefs.cpp:540-585 | en-US, Gregorian, no sort suffix, USD, Sunday, "h:mm:ss tt" and U.S. units give en-US-u-ca-gregory-cu-usd-fw-sun-hc-h12-ms-ussystem with no warning |
| Scenarios.UnknownCalendarTag | icu/icu4c/source/common/uprefs.cpp:552-554 | the same settings with an unknown CALID give the tag without its `ca` segment, with the warning |
| Scenarios.UnitedStatesSizeQuery | icu/icu4c/source/common/uprefs.cpp:324-326 | the size query for those settings returns 52 with U_ZERO_ERROR and writes nothing |

## Left out

- The platform calls (`GetLocaleInfoEx`, `GetLastError`, `GetLocaleInfoExWrapper`, `GetLocaleInfoAsString`, `GetLocaleInfoAsInt`, lines 276-317): replaced by the answers they give, in `Settings`. The two-call size protocol of the string queries is not modelled. A string query yields a value, a platform error, or a failed scratch allocation.
- Memory management (`ALLOCATEMEMORY`, `uprv_free`) and `CharString`'s growth are not modelled. An allocation failure appears only as the `NoMemory` answer of a string query.
- `WstrToUChar` and `wcstombs` (lines 214-222, 362): the wide-to-narrow conversion is the identity here, because strings are `seq<char>`. The overrun of the loop bound `i <= cch` and the writes into an empty `CharString`'s storage are C-level defects outside the model.
- The incoming `*status` is not an input. Every successful platform query resets it to U_ZERO_ERROR, so it never influences the result.
- Resolvers.GetHourCycle: a failed scratch allocation (lines 481-485) is modelled as a hard U_MEMORY_ALLOCATION_ERROR, because that is what the check at line 483 evidently means. The C code does not return there. Line 485 calls GetLocaleInfoAsString with the null buffer, and its size query (lines 293 and 285) overwrites the status. When that size query fails, the call reports the size query's platform error. When it succeeds, line 295 returns the size, the status is U_ZERO_ERROR, and line 492 scans a null pointer with `wcslen`, which is undefined behaviour. So the C code never reports U_MEMORY_ALLOCATION_ERROR on this path.
- Resolvers.ResolveSorting: lines 416 and 420 pass `uprv_free` the pointer moved past the `_` (line 411), not the start of the allocation. That is undefined behaviour; it is not modelled.
- Resolvers.ResolveCurrency: the reassignments `currency = ""` on failure (lines 432, 442, 451) only rebind a local pointer. They are not modelled, because every such path aborts the tag anyway.
- CallerBuffer.CheckBufferCapacityAndCopy: sizes are unbounded integers. The `int32_t` cast of the returned size and `int32_t` wrap-around of `bufferSize` are not modelled. The unsigned comparison at line 327 is shown separately (see Findings).
- Uprefs.GetBCP47Tag: `CharString::append` ignoring its input under a failed status is not modelled. No append happens under a failed status in this function.
- Idempotence of the whole call is not stated as a lemma: the model is a function of `Settings`, so two calls with equal settings are equal by construction.
- The CALID constants are the Windows SDK's values (CAL_GREGORIAN = 1 … CAL_UMALQURA = 23). The SDK header is not part of this model.
- The test header `uprefstest.h` and any validation of the tag against the BCP 47 grammar are not part of this model.

## Findings

| source | as written | input that shows it | evidently intended | confidence | as-written member | corrected member |
|---|---|---|---|---|---|---|
| icu/icu4c/source/common/uprefs.cpp:359 | `position = L"\0";` rebinds the local pointer instead of writing a terminator at the `_`, so the whole locale name, sort suffix included, becomes the language tag | locale name "de-DE_phoneb": lines 356-362 produce the language "de-DE_phoneb". The call then reaches the invalid free at line 420 (line 416 for an unknown suffix). Only if that free does not abort the process does it return, with a Gregorian calendar, a tag starting "de-DE_phoneb-u-ca-gregory-co-phonebk" | cut the name at its first `_` (the comment at line 355 says so), giving "de-DE" | not executed | Resolvers.LanguageTagAsWritten, Resolvers.LanguageTagAsWrittenKeepsSuffix | Resolvers.ResolveLanguage |
| icu/icu4c/source/common/uprefs.cpp:327 | `neededBufferSize > bufferSize` compares a `size_t` with an `int32_t`, so a negative size converts to a huge unsigned value and the copy goes ahead | bufferSize -1 with a non-null buffer: the check passes and `strcpy` writes the whole tag | reject any size smaller than the tag with U_BUFFER_OVERFLOW_ERROR | not executed | CallerBuffer.CopyAllowedAsWritten, CallerBuffer.NegativeSizeAsWritten | CallerBuffer.Negotiate |

The rest of the model uses the corrected members. `ResolveLanguage` cuts the
name at its first `_`, as the comment at line 355 intends, although line
359 as written does not. `Negotiate` compares sizes as signed numbers.
