/**
 * The four closed lookup tables from Windows NLS setting values to the type
 * values of Unicode locale extension keys (UTS #35, section 3.6): `ca`
 * (calendar), `co` (collation), `fw` (first day of week) and `ms`
 * (measurement system). An input the table does not know maps to the empty
 * string; that is an expected outcome, not a failure.
 */
module NlsMappings {

  // Calendar identifiers (CALID) as the Windows SDK defines them.
  const CAL_GREGORIAN: int := 1
  const CAL_GREGORIAN_US: int := 2
  const CAL_JAPAN: int := 3
  const CAL_TAIWAN: int := 4
  const CAL_KOREA: int := 5
  const CAL_HIJRI: int := 6
  const CAL_THAI: int := 7
  const CAL_HEBREW: int := 8
  const CAL_GREGORIAN_ME_FRENCH: int := 9
  const CAL_GREGORIAN_ARABIC: int := 10
  const CAL_GREGORIAN_XLIT_ENGLISH: int := 11
  const CAL_GREGORIAN_XLIT_FRENCH: int := 12
  const CAL_PERSIAN: int := 22
  const CAL_UMALQURA: int := 23

  /** The six Gregorian variants, which all map to "gregory". */
  const GregorianCalids: set<int> :=
    {CAL_GREGORIAN, CAL_GREGORIAN_US, CAL_GREGORIAN_ME_FRENCH, CAL_GREGORIAN_ARABIC,
     CAL_GREGORIAN_XLIT_ENGLISH, CAL_GREGORIAN_XLIT_FRENCH}

  /** Every CALID the calendar table knows. */
  const SupportedCalids: set<int> :=
    GregorianCalids +
    {CAL_JAPAN, CAL_TAIWAN, CAL_KOREA, CAL_HIJRI, CAL_THAI, CAL_HEBREW, CAL_PERSIAN, CAL_UMALQURA}

  /** Alternate sort names that Windows appends to a locale name after `_`. */
  const SupportedSortNames: set<string> := {"phoneb", "tradnl", "stroke", "radstr", "pronun"}

  /** getCalendarBCP47FromNLSType */
  function CalendarBcp47(calendar: int): (r: string)
    ensures r == "" <==> calendar !in SupportedCalids
    ensures calendar in GregorianCalids ==> r == "gregory"
  {
    if calendar in GregorianCalids then "gregory"
    else if calendar == CAL_JAPAN then "japanese"
    else if calendar == CAL_TAIWAN then "roc"
    else if calendar == CAL_KOREA then "dangi"
    else if calendar == CAL_HIJRI then "islamic"
    else if calendar == CAL_THAI then "buddhist"
    else if calendar == CAL_HEBREW then "hebrew"
    else if calendar == CAL_PERSIAN then "persian"
    else if calendar == CAL_UMALQURA then "islamic-umalqura"
    else ""
  }

  /** getSortingSystemBCP47FromNLSType */
  function SortingBcp47(sortingSystem: string): (r: string)
    ensures r == "" <==> sortingSystem !in SupportedSortNames
  {
    if sortingSystem == "phoneb" then "phonebk"        // phonebook order (German)
    else if sortingSystem == "tradnl" then "trad"      // traditional order (Spanish)
    else if sortingSystem == "stroke" then "stroke"    // stroke order for CJK
    else if sortingSystem == "radstr" then "unihan"    // radical-stroke order for CJK
    else if sortingSystem == "pronun" then "phonetic"  // order by pronunciation
    else ""
  }

  /** getFirstDayBCP47FromNLSType: NLS counts 0 = Monday .. 6 = Sunday. */
  function FirstDayBcp47(firstDay: int): (r: string)
    ensures r == "" <==> !(0 <= firstDay <= 6)
  {
    match firstDay
    case 0 => "mon"
    case 1 => "tue"
    case 2 => "wed"
    case 3 => "thu"
    case 4 => "fri"
    case 5 => "sat"
    case 6 => "sun"
    case _ => ""
  }

  /** getMeasureSystemBCP47FromNLSType: NLS uses 0 = metric, 1 = U.S. system. */
  function MeasureSystemBcp47(measureSystem: int): (r: string)
    ensures r == "" <==> !(0 <= measureSystem <= 1)
  {
    match measureSystem
    case 0 => "metric"
    case 1 => "ussystem"
    case _ => ""
  }

  /** The calendar table entry by entry. */
  lemma CalendarTable()
    ensures forall c | c in GregorianCalids :: CalendarBcp47(c) == "gregory"
    ensures CalendarBcp47(CAL_JAPAN) == "japanese"
    ensures CalendarBcp47(CAL_TAIWAN) == "roc"
    ensures CalendarBcp47(CAL_KOREA) == "dangi"
    ensures CalendarBcp47(CAL_HIJRI) == "islamic"
    ensures CalendarBcp47(CAL_THAI) == "buddhist"
    ensures CalendarBcp47(CAL_HEBREW) == "hebrew"
    ensures CalendarBcp47(CAL_PERSIAN) == "persian"
    ensures CalendarBcp47(CAL_UMALQURA) == "islamic-umalqura"
  {
  }

  /**
   * The calendar table merges only the Gregorian variants: two supported
   * CALIDs share a code exactly when both are Gregorian or they are equal.
   */
  lemma CalendarMergesOnlyGregorian(a: int, b: int)
    requires a in SupportedCalids && b in SupportedCalids
    ensures CalendarBcp47(a) == CalendarBcp47(b) <==> a == b || (a in GregorianCalids && b in GregorianCalids)
  {
  }

  /** The sort-name table entry by entry. */
  lemma SortingTable()
    ensures SortingBcp47("phoneb") == "phonebk"
    ensures SortingBcp47("tradnl") == "trad"
    ensures SortingBcp47("stroke") == "stroke"
    ensures SortingBcp47("radstr") == "unihan"
    ensures SortingBcp47("pronun") == "phonetic"
  {
  }

  /** No two alternate sort names share a collation code. */
  lemma SortingInjective(x: string, y: string)
    requires x in SupportedSortNames && y in SupportedSortNames
    ensures SortingBcp47(x) == SortingBcp47(y) ==> x == y
  {
  }

  /** Monday..Sunday in NLS order map to mon..sun, and no two days share a code. */
  lemma FirstDayTable(d: int, e: int)
    requires 0 <= d <= 6 && 0 <= e <= 6
    ensures FirstDayBcp47(d) == ["mon", "tue", "wed", "thu", "fri", "sat", "sun"][d]
    ensures FirstDayBcp47(d) == FirstDayBcp47(e) ==> d == e
  {
  }

  /** 0 maps to metric, 1 to ussystem. */
  lemma MeasureSystemTable()
    ensures MeasureSystemBcp47(0) == "metric"
    ensures MeasureSystemBcp47(1) == "ussystem"
  {
  }
}
