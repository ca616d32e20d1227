/**
 * Two whole-tag scenarios: typical United States settings, and the same
 * settings with a calendar the table does not know.
 */
module Scenarios {
  import opened Wrappers
  import opened Status
  import opened LocaleText
  import opened HourCycle
  import opened Resolvers
  import opened CallerBuffer
  import opened Uprefs

  /** en-US with the given CALID, no alternate sort, USD, Sunday first, a 12-hour format, U.S. units. */
  function UnitedStates(calendar: int): Settings {
    Settings(Text("en-US"), Text("en-US"), Number(calendar), Text("USD"), Number(6), Text("h:mm:ss tt"), Number(1))
  }

  /** What each resolver makes of the United States settings. */
  lemma UnitedStatesFields(calendar: int)
    ensures ResolveLanguage(UnitedStates(calendar).localeName) == Ok("en-US")
    ensures ResolveSorting(UnitedStates(calendar).sortName) == Ok("")
    ensures ResolveCurrency(UnitedStates(calendar).currency) == Ok("usd")
    ensures ResolveFirstDay(UnitedStates(calendar).firstDay) == Ok("sun")
    ensures ResolveHourCycle(UnitedStates(calendar).timeFormat) == Ok("h12")
    ensures ResolveMeasureSystem(UnitedStates(calendar).measure) == Ok("ussystem")
  {
    NoSortingExample();
    ToLowerExample();
    HourCycleExamples();
  }

  /**
   * Typical United States settings give "en-US-u-ca-gregory-cu-usd-fw-sun-hc-h12-ms-ussystem"
   * with no warning; there is no `co` segment because the name has no sort suffix.
   */
  lemma UnitedStatesTag()
    ensures PreferredTag(UnitedStates(1)).Tag?
    ensures PreferredTag(UnitedStates(1)).text == "en-US" + "-u" + ("-ca-" + "gregory") + ("-cu-" + "usd")
      + ("-fw-" + "sun") + ("-hc-" + "h12") + ("-ms-" + "ussystem")
    ensures !PreferredTag(UnitedStates(1)).warning
  {
    var s := UnitedStates(1);
    UnitedStatesFields(1);
    assert ResolveCalendar(s.calendar) == Ok("gregory");
    CompletedText(s);
    CompletedWarning(s);
    var t := "en-US" + "-u" + ("-ca-" + "gregory");
    assert t + "" == t;
  }

  /** An unknown calendar (CALID 13) drops the `ca` segment and raises the warning. */
  lemma UnknownCalendarTag()
    ensures PreferredTag(UnitedStates(13)).Tag?
    ensures PreferredTag(UnitedStates(13)).text == "en-US" + "-u" + ("-cu-" + "usd")
      + ("-fw-" + "sun") + ("-hc-" + "h12") + ("-ms-" + "ussystem")
    ensures PreferredTag(UnitedStates(13)).warning
  {
    var s := UnitedStates(13);
    UnitedStatesFields(13);
    assert ResolveCalendar(s.calendar) == Unsupported;
    CompletedText(s);
    CompletedWarning(s);
    var t := "en-US" + "-u";
    assert t + "" + "" == t;
  }

  /** Asking for the size of the United States tag gives 52 units: 51 characters and the NUL. */
  lemma UnitedStatesSizeQuery()
    ensures Call(UnitedStates(1), false, 0) == Reply(52, ZeroError, None)
  {
    UnitedStatesTag();
    TagCall(UnitedStates(1), false, 0);
  }
}
