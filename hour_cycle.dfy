/**
 * The hour-cycle scan: an NLS short time format such as "h:mm:ss tt" names
 * the 12-hour clock with `h` and the 24-hour clock with `H`. Text between
 * single quotes is literal, so the `H` in "'Hours:' h:mm:ss" does not count.
 * The first unquoted marker decides; with none, the 24-hour clock is chosen.
 */
module HourCycle {
  import opened LocaleText

  predicate IsHourMarker(c: char) {
    c == 'h' || c == 'H'
  }

  /** Number of single quotes in `s`. */
  function QuoteCount(s: string): nat {
    if s == [] then 0
    else QuoteCount(s[..|s| - 1]) + (if s[|s| - 1] == '\'' then 1 else 0)
  }

  /**
   * Position `i` of `p` is outside quoted text when an even number of quotes
   * occurs in p[0..i] (a quote at `i` itself already counts).
   */
  predicate Unquoted(p: string, i: nat)
    requires i < |p|
  {
    QuoteCount(p[..i + 1]) % 2 == 0
  }

  /** No unquoted hour marker occurs before position `k`. */
  predicate NoMarkerBefore(p: string, k: nat)
    requires k <= |p|
  {
    forall j | 0 <= j < k :: Unquoted(p, j) ==> !IsHourMarker(p[j])
  }

  /** `i` holds the first unquoted hour marker of `p`. */
  predicate FirstMarkerAt(p: string, i: nat)
  {
    i < |p| && Unquoted(p, i) && IsHourMarker(p[i]) && NoMarkerBefore(p, i)
  }

  /**
   * The scan from position `i` with the quote state `escaped` it has reached
   * there; it yields one of the two CLDR hour cycles.
   */
  function ScanFrom(p: string, i: nat, escaped: bool): (r: string)
    requires i <= |p|
    ensures r == "h12" || r == "h23"
    decreases |p| - i
  {
    if i == |p| then "h23"
    else
      var e := if p[i] == '\'' then !escaped else escaped;
      if !e && p[i] == 'H' then "h23"
      else if !e && p[i] == 'h' then "h12"
      else ScanFrom(p, i + 1, e)
  }

  /** The CLDR hour cycle ("h12" or "h23") of an NLS time format. */
  function HourCycleOf(p: string): string {
    ScanFrom(p, 0, false)
  }

  lemma QuoteCountStep(p: string, i: nat)
    requires i < |p|
    ensures QuoteCount(p[..i + 1]) == QuoteCount(p[..i]) + (if p[i] == '\'' then 1 else 0)
  {
    assert p[..i + 1][..i] == p[..i];
  }

  /**
   * The scan is correct from every position it can reach: when it has seen
   * no unquoted marker before `i` and its state is the quote parity of
   * p[0..i), it returns "h12" exactly when the first unquoted marker is `h`.
   */
  lemma {:induction false} ScanFromCorrect(p: string, i: nat, escaped: bool)
    requires i <= |p|
    requires escaped <==> QuoteCount(p[..i]) % 2 == 1
    requires NoMarkerBefore(p, i)
    ensures ScanFrom(p, i, escaped) == "h12" <==> exists k: nat :: FirstMarkerAt(p, k) && p[k] == 'h'
    decreases |p| - i
  {
    if i == |p| {
      assert forall k: nat :: !FirstMarkerAt(p, k);
    } else {
      QuoteCountStep(p, i);
      var e := if p[i] == '\'' then !escaped else escaped;
      assert e <==> !Unquoted(p, i);
      if !e && IsHourMarker(p[i]) {
        assert FirstMarkerAt(p, i);
        assert forall k: nat :: FirstMarkerAt(p, k) ==> k == i;
      } else {
        assert NoMarkerBefore(p, i + 1);
        ScanFromCorrect(p, i + 1, e);
      }
    }
  }

  /**
   * The hour cycle is "h12" exactly when the first unquoted `h`/`H` is `h`;
   * otherwise (a first `H`, or no unquoted marker at all) it is "h23".
   */
  lemma HourCycleSpec(p: string)
    ensures HourCycleOf(p) == "h12" <==> exists k: nat :: FirstMarkerAt(p, k) && p[k] == 'h'
    ensures HourCycleOf(p) == "h23" <==> !exists k: nat :: FirstMarkerAt(p, k) && p[k] == 'h'
  {
    assert p[..0] == [];
    ScanFromCorrect(p, 0, false);
  }

  /** A format without any unquoted marker falls back to the 24-hour clock. */
  lemma NoMarkerMeansH23(p: string)
    requires NoMarkerBefore(p, |p|)
    ensures HourCycleOf(p) == "h23"
  {
    HourCycleSpec(p);
    assert forall k: nat :: !FirstMarkerAt(p, k);
  }

  /** The formats in the scanner's comment (lines 225-230), and the 24-hour and no-marker cases. */
  lemma HourCycleExamples()
    ensures HourCycleOf("h:mm:ss tt") == "h12"
    ensures HourCycleOf("H:mm:ss") == "h23"
    ensures HourCycleOf("'Hours:' h:mm:ss") == "h12"
    ensures HourCycleOf("'Hours:' H:mm") == "h23"
    ensures HourCycleOf("mm:ss") == "h23"
  {
    var p := "'Hours:' h:mm:ss";
    assert ScanFrom(p, 9, false) == "h12";
    assert ScanFrom(p, 1, true) == "h12";
    var q := "'Hours:' H:mm";
    assert ScanFrom(q, 9, false) == "h23";
    assert ScanFrom(q, 1, true) == "h23";
    var m := "mm:ss";
    assert ScanFrom(m, 3, false) == "h23";
  }

  /**
   * get12_or_24hourFormat: walks the format once, toggling the escaped flag
   * at every quote and returning at the first unquoted `H` or `h`.
   */
  method Get12Or24HourFormat(hourFormat: CString) returns (hourCycle: CString)
    ensures hourCycle == HourCycleOf(hourFormat)
    ensures hourCycle == "h12" || hourCycle == "h23"
  {
    var isInEscapedString := false;
    var i := 0;
    while i < |hourFormat|
      invariant 0 <= i <= |hourFormat|
      invariant ScanFrom(hourFormat, i, isInEscapedString) == HourCycleOf(hourFormat)
    {
      // toggle the flag inside a quoted portion
      if hourFormat[i] == '\'' {
        isInEscapedString := !isInEscapedString;
      }
      if !isInEscapedString {
        if hourFormat[i] == 'H' {
          return "h23";
        }
        if hourFormat[i] == 'h' {
          return "h12";
        }
      }
      i := i + 1;
    }
    // a 24-hour clock is the more common convention worldwide
    return "h23";
  }
}
