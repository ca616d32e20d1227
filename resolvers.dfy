/**
 * The seven field resolvers of the preference reader. Each takes what the
 * platform answered for one user setting and turns it into a canonical code,
 * into "unsupported" (a value exists but has no CLDR counterpart), or into a
 * hard failure that aborts the whole tag.
 *
 * The platform's locale query (GetLocaleInfoEx and its two-call size
 * protocol) is replaced by the answers it gives: a number or a string, or the
 * error that GetLastError would report. Reading a string setting also
 * allocates a scratch buffer, which may fail.
 */
module Resolvers {
  import opened Status
  import opened LocaleText
  import opened NlsMappings
  import opened HourCycle

  /** The answer to a numeric query (LOCALE_I... with LOCALE_RETURN_NUMBER). */
  datatype NumberQuery = Number(value: int) | NumberFailed(error: PlatformError)

  /** The answer to a string query (LOCALE_S...). */
  datatype TextQuery = Text(value: CString) | TextFailed(error: PlatformError) | NoMemory

  /**
   * The current user's settings as the platform reports them, one answer per
   * query. The locale name is queried twice, once for the language and once
   * for the sort order, and each query can fail on its own.
   */
  datatype Settings = Settings(
    localeName: TextQuery,    // LOCALE_SNAME, e.g. "de-DE_phoneb"
    sortName: TextQuery,      // LOCALE_SNAME again, for the sort order
    calendar: NumberQuery,    // LOCALE_ICALENDARTYPE, a CALID
    currency: TextQuery,      // LOCALE_SINTLSYMBOL, e.g. "USD"
    firstDay: NumberQuery,    // LOCALE_IFIRSTDAYOFWEEK, 0 = Monday
    timeFormat: TextQuery,    // LOCALE_STIMEFORMAT, e.g. "h:mm:ss tt"
    measure: NumberQuery      // LOCALE_IMEASURE, 0 = metric
  )

  /** A status that aborts the whole tag: a failure other than "unsupported". */
  type FatalError = e: UErrorCode | e.IsFailure() && e != UnsupportedError witness InternalProgramError

  /**
   * What one resolver hands back. In the C code this is a string plus the
   * status it leaves: Ok(c) is (c, U_ZERO_ERROR), Unsupported is
   * ("", U_UNSUPPORTED_ERROR) and Fatal(e) is ("", e).
   */
  datatype Outcome = Ok(code: CString) | Unsupported | Fatal(error: FatalError)
  {
    /** The string the resolver returns. */
    function Code(): CString {
      if Ok? then code else ""
    }

    /** The status the resolver leaves behind. */
    function StatusCode(): UErrorCode {
      match this
      case Ok(_) => ZeroError
      case Unsupported => UnsupportedError
      case Fatal(e) => e
    }

    /** The assembler stops exactly at a failure other than "unsupported". */
    predicate Aborts() {
      StatusCode().IsFailure() && StatusCode() != UnsupportedError
    }
  }

  /** The status a failed string query leaves. */
  function TextError(q: TextQuery): (r: FatalError)
    requires !q.Text?
    ensures r == MemoryAllocationError <==> q.NoMemory?
    ensures q.TextFailed? ==> r == ErrorFromLastError(q.error)
  {
    if q.NoMemory? then MemoryAllocationError else ErrorFromLastError(q.error)
  }

  /** An outcome aborts the assembler exactly when it is Fatal. */
  lemma AbortsIffFatal(o: Outcome)
    ensures o.Aborts() <==> o.Fatal?
    ensures o.StatusCode() == UnsupportedError <==> o.Unsupported?
  {
  }

  /**
   * getLocaleBCP47Tag_impl: the language tag is the locale name up to its
   * first `_` (the `_` introduces an alternate sort order). The C code means
   * to cut the name there, but line 359 only moves a local pointer; see
   * LanguageTagAsWritten.
   */
  function ResolveLanguage(q: TextQuery): (r: Outcome)
    ensures r.Ok? <==> q.Text?
    ensures r.Ok? ==> '_' !in r.code && r.code <= q.value
    ensures r.Ok? && '_' in q.value ==> q.value[|r.code|] == '_'
    ensures r.Ok? && '_' !in q.value ==> r.code == q.value
    ensures !r.Ok? ==> r == Fatal(TextError(q))
  {
    match q
    case Text(name) => Ok(LanguagePart(name))
    case _ => Fatal(TextError(q))
  }

  /**
   * The language tag as lines 356-362 compute it: the assignment at line 359
   * rebinds `position` instead of writing a terminator into the name, so
   * the whole name, sort suffix included, is converted.
   */
  function LanguageTagAsWritten(name: CString): (r: CString)
    ensures '_' in name ==> r != LanguagePart(name)
  {
    name
  }

  /**
   * With a sort suffix, the name as written keeps the `_` and the suffix in
   * the tag's language ("de-DE_phoneb" instead of "de-DE").
   */
  lemma LanguageTagAsWrittenKeepsSuffix(language: CString, sort: CString)
    requires '_' !in language
    ensures LanguageTagAsWritten(language + "_" + sort) == language + "_" + sort
    ensures ResolveLanguage(Text(language + "_" + sort)) == Ok(language)
  {
    SplitOfJoin(language, sort);
  }

  /** getCalendarSystem_impl */
  function ResolveCalendar(q: NumberQuery): (r: Outcome)
    ensures r.Unsupported? <==> q.Number? && q.value !in SupportedCalids
    ensures r.Ok? <==> q.Number? && q.value in SupportedCalids
    ensures r.Ok? ==> r.code == CalendarBcp47(q.value) && r.code != ""
    ensures q.NumberFailed? ==> r == Fatal(ErrorFromLastError(q.error))
  {
    match q
    case NumberFailed(e) => Fatal(ErrorFromLastError(e))
    case Number(calendar) =>
      var code := CalendarBcp47(calendar);
      if code == "" then Unsupported else Ok(code)
  }

  /**
   * getSortingSystem_impl: no `_` in the locale name means no alternate sort
   * order, which is normal and yields an empty code without any status; a
   * suffix the table does not know is unsupported.
   */
  function ResolveSorting(q: TextQuery): (r: Outcome)
    ensures r == Ok("") <==> q.Text? && '_' !in q.value
    ensures r.Unsupported? <==> q.Text? && '_' in q.value && SortSuffix(q.value).value !in SupportedSortNames
    ensures r.Ok? && r.code != "" ==> q.Text? && '_' in q.value && r.code == SortingBcp47(SortSuffix(q.value).value)
    ensures r.Fatal? <==> !q.Text?
    ensures !q.Text? ==> r == Fatal(TextError(q))
  {
    match q
    case Text(name) =>
      (match SortSuffix(name)
       case None => Ok("")
       case Some(suffix) =>
         var code := SortingBcp47(suffix);
         if code == "" then Unsupported else Ok(code))
    case _ => Fatal(TextError(q))
  }

  /**
   * getCurrencyCode_impl: the international currency symbol, lower-cased. An
   * empty symbol from a successful query is an internal error; the currency
   * never counts as unsupported.
   */
  function ResolveCurrency(q: TextQuery): (r: Outcome)
    ensures !r.Unsupported?
    ensures r.Ok? <==> q.Text? && q.value != ""
    ensures r.Ok? ==> r.code == ToLower(q.value) && r.code != ""
    ensures q == Text("") ==> r == Fatal(InternalProgramError)
    ensures !q.Text? ==> r == Fatal(TextError(q))
  {
    match q
    case Text(symbol) =>
      if symbol == "" then Fatal(InternalProgramError)
      else
        ToLowerProperties(symbol);
        Ok(ToLower(symbol))
    case _ => Fatal(TextError(q))
  }

  /** getFirstDayOfWeek_impl */
  function ResolveFirstDay(q: NumberQuery): (r: Outcome)
    ensures r.Unsupported? <==> q.Number? && !(0 <= q.value <= 6)
    ensures r.Ok? ==> q.Number? && 0 <= q.value <= 6 && r.code == FirstDayBcp47(q.value) && r.code != ""
    ensures r.Fatal? <==> q.NumberFailed?
    ensures q.NumberFailed? ==> r == Fatal(ErrorFromLastError(q.error))
  {
    match q
    case NumberFailed(e) => Fatal(ErrorFromLastError(e))
    case Number(firstDay) =>
      var code := FirstDayBcp47(firstDay);
      if code == "" then Unsupported else Ok(code)
  }

  /**
   * getHourCycle_impl as a function: the hour cycle of the time format. It
   * is never empty, so it is never unsupported.
   */
  function ResolveHourCycle(q: TextQuery): (r: Outcome)
    ensures !r.Unsupported?
    ensures r.Ok? <==> q.Text?
    ensures r.Ok? ==> r.code == HourCycleOf(q.value) && (r.code == "h12" || r.code == "h23")
    ensures !q.Text? ==> r == Fatal(TextError(q))
  {
    match q
    case Text(format) => Ok(HourCycleOf(format))
    case _ => Fatal(TextError(q))
  }

  /**
   * getHourCycle_impl: reads the time format and runs the scanner. The
   * internal-error branch the C code keeps after the scan is unreachable,
   * because the scanner never returns an empty code.
   */
  method GetHourCycle(q: TextQuery) returns (r: Outcome)
    ensures r == ResolveHourCycle(q)
    ensures !r.Unsupported? && (r.Ok? ==> r.code == "h12" || r.code == "h23")
  {
    if !q.Text? {
      return Fatal(TextError(q));
    }
    var hourCycle := Get12Or24HourFormat(q.value);
    if |hourCycle| == 0 {
      assert false;
    }
    return Ok(hourCycle);
  }

  /** getMeasureSystem_impl */
  function ResolveMeasureSystem(q: NumberQuery): (r: Outcome)
    ensures r.Unsupported? <==> q.Number? && !(0 <= q.value <= 1)
    ensures r.Ok? ==> q.Number? && 0 <= q.value <= 1 && r.code == MeasureSystemBcp47(q.value) && r.code != ""
    ensures r.Fatal? <==> q.NumberFailed?
    ensures q.NumberFailed? ==> r == Fatal(ErrorFromLastError(q.error))
  {
    match q
    case NumberFailed(e) => Fatal(ErrorFromLastError(e))
    case Number(measureSystem) =>
      var code := MeasureSystemBcp47(measureSystem);
      if code == "" then Unsupported else Ok(code)
  }

  /** Every platform failure aborts; "unsupported" never does. */
  lemma ResolversAbortOnlyOnFailure(s: Settings)
    ensures ResolveLanguage(s.localeName).Aborts() <==> !s.localeName.Text?
    ensures ResolveCalendar(s.calendar).Aborts() <==> s.calendar.NumberFailed?
    ensures ResolveSorting(s.sortName).Aborts() <==> !s.sortName.Text?
    ensures ResolveCurrency(s.currency).Aborts() <==> !s.currency.Text? || s.currency.value == ""
    ensures ResolveFirstDay(s.firstDay).Aborts() <==> s.firstDay.NumberFailed?
    ensures ResolveHourCycle(s.timeFormat).Aborts() <==> !s.timeFormat.Text?
    ensures ResolveMeasureSystem(s.measure).Aborts() <==> s.measure.NumberFailed?
  {
  }

  /** The suffix "phoneb" of "de-DE_phoneb" resolves to the collation "phonebk". */
  lemma SortingExample()
    ensures ResolveSorting(Text("de-DE_phoneb")) == Ok("phonebk")
  {
    SplitExample();
  }

  /** A locale name without `_` has no alternate sort order and no status. */
  lemma NoSortingExample()
    ensures ResolveSorting(Text("en-US")) == Ok("")
  {
  }
}
