/**
 * uprefs_getBCP47Tag: the user's preferred BCP 47 language tag (RFC 5646)
 * with a Unicode locale extension (RFC 6067, UTS #35 section 3.6), of the form
 *
 *   language "-u" ["-ca-" c] ["-co-" c] ["-cu-" c] ["-fw-" c] ["-hc-" c] ["-ms-" c]
 *
 * where a segment is present exactly when its resolver produced a code. A
 * hard failure of any resolver aborts the call; an unsupported setting only
 * drops its segment and turns the final status into U_USING_FALLBACK_WARNING.
 */
module Uprefs {
  import opened Wrappers
  import opened Status
  import opened LocaleText
  import opened Resolvers
  import opened CallerBuffer

  // The separators and field prefixes of the tag.
  const ExtensionStart: CString := "-u"
  const CalendarPrefix: CString := "-ca-"
  const CollationPrefix: CString := "-co-"
  const CurrencyPrefix: CString := "-cu-"
  const FirstDayPrefix: CString := "-fw-"
  const HourCyclePrefix: CString := "-hc-"
  const MeasurePrefix: CString := "-ms-"

  /** One optional segment of the extension: its prefix and its resolver's outcome. */
  type Field = (CString, Outcome)

  /** The six extension fields in the order the tag lists them. */
  function Fields(s: Settings): (fs: seq<Field>)
    ensures |fs| == 6
  {
    [(CalendarPrefix, ResolveCalendar(s.calendar)),
     (CollationPrefix, ResolveSorting(s.sortName)),
     (CurrencyPrefix, ResolveCurrency(s.currency)),
     (FirstDayPrefix, ResolveFirstDay(s.firstDay)),
     (HourCyclePrefix, ResolveHourCycle(s.timeFormat)),
     (MeasurePrefix, ResolveMeasureSystem(s.measure))]
  }

  /** What appendIfDataNotEmpty adds to the tag: prefix and code, or nothing for an empty code. */
  function Piece(prefix: CString, code: CString): CString {
    if code == "" then "" else Join(prefix, code)
  }

  /** A field's text in the tag. */
  function Segment(f: Field): CString {
    Piece(f.0, f.1.Code())
  }

  /** The segments of `fs`, in order. */
  function Segments(fs: seq<Field>): CString {
    if fs == [] then "" else Join(Segments(fs[..|fs| - 1]), Segment(fs[|fs| - 1]))
  }

  /** The status of the first field of `fs` that aborts, if any. */
  function FirstAbort(fs: seq<Field>): (r: Option<UErrorCode>)
    ensures r.Some? ==> r.value.IsFailure() && r.value != UnsupportedError
  {
    if fs == [] then None
    else if FirstAbort(fs[..|fs| - 1]).Some? then FirstAbort(fs[..|fs| - 1])
    else if fs[|fs| - 1].1.Aborts() then Some(fs[|fs| - 1].1.StatusCode())
    else None
  }

  /** Some field of `fs` is unsupported. */
  predicate AnyUnsupported(fs: seq<Field>) {
    exists i | 0 <= i < |fs| :: fs[i].1.Unsupported?
  }

  /** The tag with the flag that some field was dropped, or the failure that aborted it. */
  datatype TagOutcome = Tag(text: CString, warning: bool) | Failed(error: UErrorCode)

  /** The tag the current settings call for. */
  function PreferredTag(s: Settings): (r: TagOutcome)
    ensures r.Failed? ==> r.error.IsFailure() && r.error != UnsupportedError
    ensures r.Tag? ==> s.localeName.Text? && LanguagePart(s.localeName.value) + ExtensionStart <= r.text
  {
    var language := ResolveLanguage(s.localeName);
    if language.Aborts() then Failed(language.StatusCode())
    else
      var fs := Fields(s);
      match FirstAbort(fs)
      case Some(e) => Failed(e)
      case None => Tag(Join(Join(language.Code(), ExtensionStart), Segments(fs)), AnyUnsupported(fs))
  }

  /**
   * What uprefs_getBCP47Tag returns for a caller with (`hasBuffer`) or
   * without a buffer of `bufferSize` units: a missing buffer with a non-zero
   * size is rejected before any setting is read.
   */
  function Call(s: Settings, hasBuffer: bool, bufferSize: int): (r: Reply)
    ensures r.written.Some? ==> hasBuffer && r.result == |r.written.value| <= bufferSize
    ensures r.status == UsingFallbackWarning ==> PreferredTag(s).Tag? && PreferredTag(s).warning
    ensures r.result != -1 ==> !r.status.IsFailure()
  {
    if !hasBuffer && bufferSize != 0 then Reply(-1, IllegalArgumentError, None)
    else
      match PreferredTag(s)
      case Failed(e) => Reply(-1, e, None)
      case Tag(text, warning) => Negotiate(text, bufferSize, if warning then UsingFallbackWarning else ZeroError)
  }

  /** One step of the segment fold over a prefix of the fields. */
  lemma SegmentsStep(fs: seq<Field>, k: nat)
    requires k < |fs|
    ensures Segments(fs[..k + 1]) == Segments(fs[..k]) + Segment(fs[k])
  {
    assert fs[..k + 1][..k] == fs[..k];
  }

  /** One step of the first-abort search over a prefix of the fields. */
  lemma FirstAbortStep(fs: seq<Field>, k: nat)
    requires k < |fs|
    ensures FirstAbort(fs[..k + 1]) ==
      if FirstAbort(fs[..k]).Some? then FirstAbort(fs[..k])
      else if fs[k].1.Aborts() then Some(fs[k].1.StatusCode()) else None
  {
    assert fs[..k + 1][..k] == fs[..k];
  }

  /** Once a prefix has aborted, the whole sequence reports that same first abort. */
  lemma {:induction false} AbortSticks(fs: seq<Field>, j: nat)
    requires j <= |fs|
    requires FirstAbort(fs[..j]).Some?
    ensures FirstAbort(fs) == FirstAbort(fs[..j])
    decreases |fs| - j
  {
    if j == |fs| {
      assert fs[..j] == fs;
    } else {
      FirstAbortStep(fs, j);
      AbortSticks(fs, j + 1);
    }
  }

  /**
   * FirstAbort finds the first aborting field: None when no field aborts,
   * otherwise the status of a field that aborts and has no aborting field
   * before it.
   */
  lemma {:induction false} FirstAbortIsFirst(fs: seq<Field>)
    ensures FirstAbort(fs).None? <==> forall i | 0 <= i < |fs| :: !fs[i].1.Aborts()
    ensures FirstAbort(fs).Some? ==>
      exists k | 0 <= k < |fs| :: fs[k].1.Aborts() && FirstAbort(fs).value == fs[k].1.StatusCode()
        && forall j | 0 <= j < k :: !fs[j].1.Aborts()
  {
    if fs != [] {
      var n := |fs| - 1;
      var init := fs[..n];
      FirstAbortIsFirst(init);
      assert forall i | 0 <= i < n :: init[i] == fs[i];
      if FirstAbort(init).Some? {
        var k :| 0 <= k < |init| && init[k].1.Aborts() && FirstAbort(init).value == init[k].1.StatusCode()
          && forall j | 0 <= j < k :: !init[j].1.Aborts();
        assert fs[k].1.Aborts() && forall j | 0 <= j < k :: !fs[j].1.Aborts();
      } else if fs[n].1.Aborts() {
        assert forall j | 0 <= j < n :: !fs[j].1.Aborts();
      }
    }
  }

  /** The first two fields fold to their two segments, in order. */
  lemma TwoSegments(fs: seq<Field>)
    requires |fs| >= 2
    ensures Segments(fs[..2]) == Segment(fs[0]) + Segment(fs[1])
  {
    assert fs[..0] == [];
    SegmentsStep(fs, 0);
    SegmentsStep(fs, 1);
  }

  /** The first four fields fold to their four segments, in order. */
  lemma FourSegments(fs: seq<Field>)
    requires |fs| >= 4
    ensures Segments(fs[..4]) == Segment(fs[0]) + Segment(fs[1]) + Segment(fs[2]) + Segment(fs[3])
  {
    TwoSegments(fs);
    SegmentsStep(fs, 2);
    SegmentsStep(fs, 3);
  }

  /** Six fields fold to their six segments, in order. */
  lemma SixSegments(fs: seq<Field>)
    requires |fs| >= 6
    ensures Segments(fs[..6]) == Segment(fs[0]) + Segment(fs[1]) + Segment(fs[2])
      + Segment(fs[3]) + Segment(fs[4]) + Segment(fs[5])
  {
    FourSegments(fs);
    SegmentsStep(fs, 4);
    SegmentsStep(fs, 5);
  }

  /** A segment is present exactly when its resolver produced a non-empty code. */
  lemma SegmentPresence(f: Field)
    ensures Segment(f) != "" <==> f.1.Ok? && f.1.code != ""
    ensures Segment(f) != "" ==> Segment(f) == f.0 + f.1.code
  {
  }

  /**
   * The tag is the language, "-u", then the six segments in their fixed
   * order (see SegmentPresence for when each is present).
   */
  lemma TagShape(s: Settings)
    requires PreferredTag(s).Tag?
    ensures PreferredTag(s).text == LanguagePart(s.localeName.value) + ExtensionStart +
      ( Segment((CalendarPrefix, ResolveCalendar(s.calendar)))
      + Segment((CollationPrefix, ResolveSorting(s.sortName)))
      + Segment((CurrencyPrefix, ResolveCurrency(s.currency)))
      + Segment((FirstDayPrefix, ResolveFirstDay(s.firstDay)))
      + Segment((HourCyclePrefix, ResolveHourCycle(s.timeFormat)))
      + Segment((MeasurePrefix, ResolveMeasureSystem(s.measure))))
  {
    var fs := Fields(s);
    SixSegments(fs);
    assert fs[..6] == fs;
    assert PreferredTag(s).text == LanguagePart(s.localeName.value) + ExtensionStart + Segments(fs);
  }

  /** Some field of six is unsupported exactly when one of the six is. */
  lemma SixUnsupported(fs: seq<Field>)
    requires |fs| == 6
    ensures AnyUnsupported(fs) <==> (fs[0].1.Unsupported? || fs[1].1.Unsupported? || fs[2].1.Unsupported?
      || fs[3].1.Unsupported? || fs[4].1.Unsupported? || fs[5].1.Unsupported?)
  {
  }

  /** Six fields have no aborting field exactly when none of the six aborts. */
  lemma SixAborts(fs: seq<Field>)
    requires |fs| == 6
    ensures FirstAbort(fs).None? <==> (!fs[0].1.Aborts() && !fs[1].1.Aborts() && !fs[2].1.Aborts()
      && !fs[3].1.Aborts() && !fs[4].1.Aborts() && !fs[5].1.Aborts())
  {
    FirstAbortIsFirst(fs);
  }

  lemma AppendAssoc(a: string, b: string, c: string)
    ensures a + b + c == a + (b + c)
  {
  }

  /** The first field that aborts decides the failure of the whole sequence. */
  lemma AbortStep(fs: seq<Field>, k: nat)
    requires k < |fs|
    requires FirstAbort(fs[..k]).None? && fs[k].1.Aborts()
    ensures FirstAbort(fs) == Some(fs[k].1.StatusCode())
  {
    FirstAbortStep(fs, k);
    AbortSticks(fs, k + 1);
  }

  /**
   * A tag comes with the warning flag exactly when one of the four resolvers
   * that can be unsupported was; currency and hour cycle never are.
   */
  lemma WarningIffUnsupported(s: Settings)
    requires PreferredTag(s).Tag?
    ensures PreferredTag(s).warning <==>
      (ResolveCalendar(s.calendar).Unsupported? || ResolveSorting(s.sortName).Unsupported?
       || ResolveFirstDay(s.firstDay).Unsupported? || ResolveMeasureSystem(s.measure).Unsupported?)
  {
    SixUnsupported(Fields(s));
  }

  /**
   * The call fails exactly when a platform query fails, an allocation fails
   * or the currency symbol is empty; the reported error is the first in the
   * order language, calendar, sorting, currency, first day, hour cycle,
   * measurement.
   */
  lemma FailureIffFatal(s: Settings)
    ensures PreferredTag(s).Failed? <==>
      (!s.localeName.Text? || s.calendar.NumberFailed? || !s.sortName.Text? || !s.currency.Text?
       || s.currency.value == "" || s.firstDay.NumberFailed? || !s.timeFormat.Text? || s.measure.NumberFailed?)
    ensures !s.localeName.Text? ==> PreferredTag(s) == Failed(TextError(s.localeName))
    ensures s.localeName.Text? && PreferredTag(s).Failed? ==>
      exists k | 0 <= k < 6 :: Fields(s)[k].1.Aborts() && PreferredTag(s).error == Fields(s)[k].1.StatusCode()
        && forall j | 0 <= j < k :: !Fields(s)[j].1.Aborts()
  {
    var fs := Fields(s);
    FirstAbortIsFirst(fs);
    SixAborts(fs);
    ResolversAbortOnlyOnFailure(s);
  }

  /** A missing buffer with a non-zero size is an illegal argument, whatever the settings. */
  lemma NullBufferRejected(s: Settings, bufferSize: int)
    requires bufferSize != 0
    ensures Call(s, false, bufferSize) == Reply(-1, IllegalArgumentError, None)
  {
  }

  /**
   * The size query and the fill agree: for unchanged settings, the size
   * reported for bufferSize 0 is what a call with a large enough buffer
   * returns, and that call writes the tag and its NUL.
   */
  lemma SizeQueryConsistency(s: Settings, hasBuffer: bool, bufferSize: int)
    requires PreferredTag(s).Tag?
    requires bufferSize >= Call(s, hasBuffer, 0).result
    ensures Call(s, true, bufferSize).result == Call(s, hasBuffer, 0).result == |PreferredTag(s).text| + 1
    ensures Call(s, true, bufferSize).written == Some(PreferredTag(s).text + "\0")
  {
  }

  /**
   * The caller's buffer is written only by a successful call whose size
   * allows it, and only within that size; the status of a call that returns
   * a size is U_USING_FALLBACK_WARNING exactly when a field was dropped.
   */
  lemma CallWritesOnlyOnSuccess(s: Settings, hasBuffer: bool, bufferSize: int)
    ensures Call(s, hasBuffer, bufferSize).written.Some? ==>
      hasBuffer && PreferredTag(s).Tag? && 0 < |Call(s, hasBuffer, bufferSize).written.value| <= bufferSize
    ensures Call(s, hasBuffer, bufferSize).result != -1 ==>
      PreferredTag(s).Tag? &&
      (Call(s, hasBuffer, bufferSize).status == UsingFallbackWarning <==> PreferredTag(s).warning) &&
      (Call(s, hasBuffer, bufferSize).status == ZeroError <==> !PreferredTag(s).warning)
    ensures PreferredTag(s).Failed? ==> Call(s, hasBuffer, bufferSize).result == -1
  {
  }

  /** A failing language query ends the call with its status. */
  lemma LanguageFailedCall(s: Settings, hasBuffer: bool, bufferSize: int)
    requires hasBuffer || bufferSize == 0
    requires ResolveLanguage(s.localeName).StatusCode().IsFailure()
    ensures Call(s, hasBuffer, bufferSize) == Reply(-1, ResolveLanguage(s.localeName).StatusCode(), None)
  {
  }

  /** Six fields, none of which aborts, have no first abort; the first of them that aborts is. */
  lemma FieldPrefixes(fs: seq<Field>)
    requires |fs| == 6
    ensures !fs[0].1.Aborts() ==> FirstAbort(fs[..1]).None?
    ensures !fs[0].1.Aborts() && !fs[1].1.Aborts() ==> FirstAbort(fs[..2]).None?
    ensures !fs[0].1.Aborts() && !fs[1].1.Aborts() && !fs[2].1.Aborts() ==> FirstAbort(fs[..3]).None?
    ensures !fs[0].1.Aborts() && !fs[1].1.Aborts() && !fs[2].1.Aborts() && !fs[3].1.Aborts() ==>
      FirstAbort(fs[..4]).None?
    ensures (!fs[0].1.Aborts() && !fs[1].1.Aborts() && !fs[2].1.Aborts() && !fs[3].1.Aborts()
      && !fs[4].1.Aborts()) ==> FirstAbort(fs[..5]).None?
  {
    assert fs[..0] == [];
    FirstAbortStep(fs, 0);
    FirstAbortStep(fs, 1);
    FirstAbortStep(fs, 2);
    FirstAbortStep(fs, 3);
    FirstAbortStep(fs, 4);
  }

  /** The first field that aborts, after a language that did not, makes the tag fail with its status. */
  lemma FieldAbortsTag(s: Settings, k: nat)
    requires k < 6 && !ResolveLanguage(s.localeName).Aborts()
    requires FirstAbort(Fields(s)[..k]).None? && Fields(s)[k].1.Aborts()
    ensures PreferredTag(s) == Failed(Fields(s)[k].1.StatusCode())
  {
    AbortStep(Fields(s), k);
  }

  /** A failing Calendar query, after the fields before it passed, fails the tag. */
  lemma CalendarAbortsTag(s: Settings)
    requires !ResolveLanguage(s.localeName).Aborts()
    requires ResolveCalendar(s.calendar).Aborts()
    ensures PreferredTag(s) == Failed(ResolveCalendar(s.calendar).StatusCode())
  {
    var fs := Fields(s);
    assert fs[..0] == [];
    FieldAbortsTag(s, 0);
  }

  /** A failing Sorting query, after the fields before it passed, fails the tag. */
  lemma SortingAbortsTag(s: Settings)
    requires !ResolveLanguage(s.localeName).Aborts()
    requires !ResolveCalendar(s.calendar).Aborts()
    requires ResolveSorting(s.sortName).Aborts()
    ensures PreferredTag(s) == Failed(ResolveSorting(s.sortName).StatusCode())
  {
    var fs := Fields(s);
    FieldPrefixes(fs);
    FieldAbortsTag(s, 1);
  }

  /** A failing Currency query, after the fields before it passed, fails the tag. */
  lemma CurrencyAbortsTag(s: Settings)
    requires !ResolveLanguage(s.localeName).Aborts()
    requires !ResolveCalendar(s.calendar).Aborts() && !ResolveSorting(s.sortName).Aborts()
    requires ResolveCurrency(s.currency).Aborts()
    ensures PreferredTag(s) == Failed(ResolveCurrency(s.currency).StatusCode())
  {
    var fs := Fields(s);
    FieldPrefixes(fs);
    FieldAbortsTag(s, 2);
  }

  /** A failing FirstDay query, after the fields before it passed, fails the tag. */
  lemma FirstDayAbortsTag(s: Settings)
    requires !ResolveLanguage(s.localeName).Aborts()
    requires !ResolveCalendar(s.calendar).Aborts() && !ResolveSorting(s.sortName).Aborts() && !ResolveCurrency(s.currency).Aborts()
    requires ResolveFirstDay(s.firstDay).Aborts()
    ensures PreferredTag(s) == Failed(ResolveFirstDay(s.firstDay).StatusCode())
  {
    var fs := Fields(s);
    FieldPrefixes(fs);
    FieldAbortsTag(s, 3);
  }

  /** A failing HourCycle query, after the fields before it passed, fails the tag. */
  lemma HourCycleAbortsTag(s: Settings)
    requires !ResolveLanguage(s.localeName).Aborts()
    requires !ResolveCalendar(s.calendar).Aborts() && !ResolveSorting(s.sortName).Aborts() && !ResolveCurrency(s.currency).Aborts() && !ResolveFirstDay(s.firstDay).Aborts()
    requires ResolveHourCycle(s.timeFormat).Aborts()
    ensures PreferredTag(s) == Failed(ResolveHourCycle(s.timeFormat).StatusCode())
  {
    var fs := Fields(s);
    FieldPrefixes(fs);
    FieldAbortsTag(s, 4);
  }

  /** A failing MeasureSystem query, after the fields before it passed, fails the tag. */
  lemma MeasureSystemAbortsTag(s: Settings)
    requires !ResolveLanguage(s.localeName).Aborts()
    requires !ResolveCalendar(s.calendar).Aborts() && !ResolveSorting(s.sortName).Aborts() && !ResolveCurrency(s.currency).Aborts() && !ResolveFirstDay(s.firstDay).Aborts() && !ResolveHourCycle(s.timeFormat).Aborts()
    requires ResolveMeasureSystem(s.measure).Aborts()
    ensures PreferredTag(s) == Failed(ResolveMeasureSystem(s.measure).StatusCode())
  {
    var fs := Fields(s);
    FieldPrefixes(fs);
    FieldAbortsTag(s, 5);
  }

  /** A failed tag ends the call with its status and writes nothing. */
  lemma FailedTagCall(s: Settings, hasBuffer: bool, bufferSize: int)
    requires hasBuffer || bufferSize == 0
    requires PreferredTag(s).Failed?
    ensures Call(s, hasBuffer, bufferSize) == Reply(-1, PreferredTag(s).error, None)
  {
  }

  /** Appending six pieces one by one is appending their concatenation. */
  lemma AppendSix(a: string, p0: string, p1: string, p2: string, p3: string, p4: string, p5: string)
    ensures a + (p0 + p1 + p2 + p3 + p4 + p5) == a + p0 + p1 + p2 + p3 + p4 + p5
  {
    AppendAssoc(a, p0 + p1 + p2 + p3 + p4, p5);
    AppendAssoc(a, p0 + p1 + p2 + p3, p4);
    AppendAssoc(a, p0 + p1 + p2, p3);
    AppendAssoc(a, p0 + p1, p2);
    AppendAssoc(a, p0, p1);
  }

  /**
   * When no field aborts, the tag is the language, "-u" and the six pieces
   * appended in order, with the warning exactly when a field was unsupported.
   */
  lemma CompletedTag(s: Settings, tag: CString, warning: bool)
    requires !ResolveLanguage(s.localeName).Aborts()
    requires !ResolveCalendar(s.calendar).Aborts() && !ResolveSorting(s.sortName).Aborts()
      && !ResolveCurrency(s.currency).Aborts() && !ResolveFirstDay(s.firstDay).Aborts()
      && !ResolveHourCycle(s.timeFormat).Aborts() && !ResolveMeasureSystem(s.measure).Aborts()
    requires tag == Join(ResolveLanguage(s.localeName).Code(), ExtensionStart)
      + Piece(CalendarPrefix, ResolveCalendar(s.calendar).Code())
      + Piece(CollationPrefix, ResolveSorting(s.sortName).Code())
      + Piece(CurrencyPrefix, ResolveCurrency(s.currency).Code())
      + Piece(FirstDayPrefix, ResolveFirstDay(s.firstDay).Code())
      + Piece(HourCyclePrefix, ResolveHourCycle(s.timeFormat).Code())
      + Piece(MeasurePrefix, ResolveMeasureSystem(s.measure).Code())
    requires warning <==>
      (ResolveCalendar(s.calendar).StatusCode() == UnsupportedError
       || ResolveSorting(s.sortName).StatusCode() == UnsupportedError
       || ResolveCurrency(s.currency).StatusCode() == UnsupportedError
       || ResolveFirstDay(s.firstDay).StatusCode() == UnsupportedError
       || ResolveHourCycle(s.timeFormat).StatusCode() == UnsupportedError
       || ResolveMeasureSystem(s.measure).StatusCode() == UnsupportedError)
    ensures PreferredTag(s) == Tag(tag, warning)
  {
    CompletedText(s);
    CompletedWarning(s);
  }

  /** With no field aborting, the text is the language, "-u" and the six pieces appended in order. */
  lemma CompletedText(s: Settings)
    requires !ResolveLanguage(s.localeName).Aborts()
    requires !ResolveCalendar(s.calendar).Aborts() && !ResolveSorting(s.sortName).Aborts()
      && !ResolveCurrency(s.currency).Aborts() && !ResolveFirstDay(s.firstDay).Aborts()
      && !ResolveHourCycle(s.timeFormat).Aborts() && !ResolveMeasureSystem(s.measure).Aborts()
    ensures PreferredTag(s).Tag?
    ensures PreferredTag(s).text == Join(ResolveLanguage(s.localeName).Code(), ExtensionStart)
      + Piece(CalendarPrefix, ResolveCalendar(s.calendar).Code())
      + Piece(CollationPrefix, ResolveSorting(s.sortName).Code())
      + Piece(CurrencyPrefix, ResolveCurrency(s.currency).Code())
      + Piece(FirstDayPrefix, ResolveFirstDay(s.firstDay).Code())
      + Piece(HourCyclePrefix, ResolveHourCycle(s.timeFormat).Code())
      + Piece(MeasurePrefix, ResolveMeasureSystem(s.measure).Code())
  {
    SixAborts(Fields(s));
    TagShape(s);
    AppendSix(Join(ResolveLanguage(s.localeName).Code(), ExtensionStart),
      Piece(CalendarPrefix, ResolveCalendar(s.calendar).Code()),
      Piece(CollationPrefix, ResolveSorting(s.sortName).Code()),
      Piece(CurrencyPrefix, ResolveCurrency(s.currency).Code()),
      Piece(FirstDayPrefix, ResolveFirstDay(s.firstDay).Code()),
      Piece(HourCyclePrefix, ResolveHourCycle(s.timeFormat).Code()),
      Piece(MeasurePrefix, ResolveMeasureSystem(s.measure).Code()));
  }

  /** The warning of a tag is whether one of the six statuses was U_UNSUPPORTED_ERROR. */
  lemma CompletedWarning(s: Settings)
    requires PreferredTag(s).Tag?
    ensures PreferredTag(s).warning <==>
      (ResolveCalendar(s.calendar).StatusCode() == UnsupportedError
       || ResolveSorting(s.sortName).StatusCode() == UnsupportedError
       || ResolveCurrency(s.currency).StatusCode() == UnsupportedError
       || ResolveFirstDay(s.firstDay).StatusCode() == UnsupportedError
       || ResolveHourCycle(s.timeFormat).StatusCode() == UnsupportedError
       || ResolveMeasureSystem(s.measure).StatusCode() == UnsupportedError)
  {
    WarningIffUnsupported(s);
    AbortsIffFatal(ResolveCalendar(s.calendar));
    AbortsIffFatal(ResolveSorting(s.sortName));
    AbortsIffFatal(ResolveCurrency(s.currency));
    AbortsIffFatal(ResolveFirstDay(s.firstDay));
    AbortsIffFatal(ResolveHourCycle(s.timeFormat));
    AbortsIffFatal(ResolveMeasureSystem(s.measure));
  }

  /** A tag is negotiated with the caller's buffer, with the warning as its status. */
  lemma TagCall(s: Settings, hasBuffer: bool, bufferSize: int)
    requires hasBuffer || bufferSize == 0
    requires PreferredTag(s).Tag?
    ensures Call(s, hasBuffer, bufferSize) ==
      Negotiate(PreferredTag(s).text, bufferSize, if PreferredTag(s).warning then UsingFallbackWarning else ZeroError)
  {
  }

  /**
   * appendIfDataNotEmpty: records an unsupported status in the sticky
   * warning flag, and appends prefix and code when the code is not empty.
   */
  method AppendIfDataNotEmpty(dest: CString, firstData: CString, secondData: CString, warningGenerated: bool, status: UErrorCode)
    returns (newDest: CString, newWarning: bool)
    ensures newWarning <==> warningGenerated || status == UnsupportedError
    ensures newDest == dest + Piece(firstData, secondData)
  {
    newWarning := warningGenerated;
    if status == UnsupportedError {
      newWarning := true;
    }
    newDest := dest;
    if |secondData| != 0 {
      newDest := Join(newDest, firstData);
      newDest := Join(newDest, secondData);
    }
  }

  /**
   * uprefs_getBCP47Tag. The outcome of each resolver is checked in turn; the
   * first hard failure returns -1 with its status, and the tag grows by the
   * segments of the others before it is handed to the caller's buffer.
   */
  method GetBCP47Tag(settings: Settings, uprefsBuffer: array?<char>, bufferSize: int)
    returns (result: int, status: UErrorCode)
    requires uprefsBuffer != null ==> bufferSize <= uprefsBuffer.Length
    modifies uprefsBuffer
    ensures result == Call(settings, uprefsBuffer != null, bufferSize).result
    ensures status == Call(settings, uprefsBuffer != null, bufferSize).status
    ensures uprefsBuffer != null ==>
      uprefsBuffer[..] == Overwrite(old(uprefsBuffer[..]), Call(settings, uprefsBuffer != null, bufferSize).written)
  {
    if uprefsBuffer == null && bufferSize != 0 {
      return -1, IllegalArgumentError;
    }
    var languageTag := ResolveLanguage(settings.localeName);
    if languageTag.StatusCode().IsFailure() {
      LanguageFailedCall(settings, uprefsBuffer != null, bufferSize);
      return -1, languageTag.StatusCode();
    }
    var bcp47Tag := Join(languageTag.Code(), ExtensionStart);
    var warningGenerated := false;

    var calendar := ResolveCalendar(settings.calendar);
    if calendar.Aborts() {
      CalendarAbortsTag(settings);
      FailedTagCall(settings, uprefsBuffer != null, bufferSize);
      return -1, calendar.StatusCode();
    }
    bcp47Tag, warningGenerated := AppendIfDataNotEmpty(bcp47Tag, CalendarPrefix, calendar.Code(), warningGenerated, calendar.StatusCode());

    var sortingSystem := ResolveSorting(settings.sortName);
    if sortingSystem.Aborts() {
      SortingAbortsTag(settings);
      FailedTagCall(settings, uprefsBuffer != null, bufferSize);
      return -1, sortingSystem.StatusCode();
    }
    bcp47Tag, warningGenerated := AppendIfDataNotEmpty(bcp47Tag, CollationPrefix, sortingSystem.Code(), warningGenerated, sortingSystem.StatusCode());

    var currency := ResolveCurrency(settings.currency);
    if currency.Aborts() {
      CurrencyAbortsTag(settings);
      FailedTagCall(settings, uprefsBuffer != null, bufferSize);
      return -1, currency.StatusCode();
    }
    bcp47Tag, warningGenerated := AppendIfDataNotEmpty(bcp47Tag, CurrencyPrefix, currency.Code(), warningGenerated, currency.StatusCode());

    var firstDay := ResolveFirstDay(settings.firstDay);
    if firstDay.Aborts() {
      FirstDayAbortsTag(settings);
      FailedTagCall(settings, uprefsBuffer != null, bufferSize);
      return -1, firstDay.StatusCode();
    }
    bcp47Tag, warningGenerated := AppendIfDataNotEmpty(bcp47Tag, FirstDayPrefix, firstDay.Code(), warningGenerated, firstDay.StatusCode());

    var hourCycle := GetHourCycle(settings.timeFormat);
    if hourCycle.Aborts() {
      HourCycleAbortsTag(settings);
      FailedTagCall(settings, uprefsBuffer != null, bufferSize);
      return -1, hourCycle.StatusCode();
    }
    bcp47Tag, warningGenerated := AppendIfDataNotEmpty(bcp47Tag, HourCyclePrefix, hourCycle.Code(), warningGenerated, hourCycle.StatusCode());

    var measureSystem := ResolveMeasureSystem(settings.measure);
    if measureSystem.Aborts() {
      MeasureSystemAbortsTag(settings);
      FailedTagCall(settings, uprefsBuffer != null, bufferSize);
      return -1, measureSystem.StatusCode();
    }
    bcp47Tag, warningGenerated := AppendIfDataNotEmpty(bcp47Tag, MeasurePrefix, measureSystem.Code(), warningGenerated, measureSystem.StatusCode());
    CompletedTag(settings, bcp47Tag, warningGenerated);
    TagCall(settings, uprefsBuffer != null, bufferSize);

    status := measureSystem.StatusCode();
    if warningGenerated {
      status := UsingFallbackWarning;
    }
    result, status := CheckBufferCapacityAndCopy(bcp47Tag, uprefsBuffer, bufferSize, status);
  }
}
