/**
 * Text helpers of the preference reader: NUL-terminated strings as the
 * platform hands them out, splitting an NLS locale name such as
 * "de-DE_phoneb" at its first `_`, and ASCII lower-casing.
 */
module LocaleText {
  import opened Wrappers

  /** A string as C sees it: it cannot contain the terminating NUL. */
  type CString = s: string | '\0' !in s

  /** Concatenation of C strings (the C code's CharString::append). */
  function Join(a: CString, b: CString): CString {
    a + b
  }

  /** Position of the first occurrence of `c` in `s` (wcsstr with a one-character needle). */
  function FirstIndexOf(s: string, c: char): (r: Option<nat>)
    ensures r.None? <==> c !in s
    ensures r.Some? ==> r.value < |s| && s[r.value] == c && c !in s[..r.value]
  {
    if s == [] then None
    else if s[0] == c then Some(0)
    else
      match FirstIndexOf(s[1..], c)
      case None => None
      case Some(k) =>
        assert s[..k + 1] == [s[0]] + s[1..][..k];
        Some(k + 1)
  }

  /**
   * The language part of an NLS locale name: everything before the first `_`
   * (the whole name when it has none).
   */
  function LanguagePart(name: CString): (r: CString)
    ensures '_' !in r
    ensures r <= name
    ensures r == name || name[|r|] == '_'
  {
    match FirstIndexOf(name, '_')
    case None => name
    case Some(k) =>
      assert forall x | x in name[..k] :: x in name;
      name[..k]
  }

  /** The alternate sort name: what follows the first `_`, if there is one. */
  function SortSuffix(name: CString): (r: Option<CString>)
    ensures r.None? <==> '_' !in name
  {
    match FirstIndexOf(name, '_')
    case None => None
    case Some(k) =>
      assert forall x | x in name[k + 1..] :: x in name;
      Some(name[k + 1..])
  }

  /** A name splits into its language part, `_`, and its sort suffix, and back. */
  lemma SplitRoundTrip(name: CString)
    ensures SortSuffix(name).None? ==> LanguagePart(name) == name
    ensures SortSuffix(name).Some? ==> LanguagePart(name) + "_" + SortSuffix(name).value == name
  {
    match FirstIndexOf(name, '_')
    case None =>
    case Some(k) =>
      assert name == name[..k] + [name[k]] + name[k + 1..];
  }

  /** Splitting is determined by the first `_`: lang + "_" + rest splits back into lang and rest. */
  lemma SplitOfJoin(lang: CString, rest: CString)
    requires '_' !in lang
    ensures LanguagePart(lang + "_" + rest) == lang
    ensures SortSuffix(lang + "_" + rest) == Some(rest)
  {
    var name: CString := lang + "_" + rest;
    assert name[|lang|] == '_';
    assert name[..|lang|] == lang;
    assert name[|lang| + 1..] == rest;
  }

  /** The example "de-DE_phoneb". */
  lemma SplitExample()
    ensures LanguagePart("de-DE_phoneb") == "de-DE"
    ensures SortSuffix("de-DE_phoneb") == Some("phoneb")
  {
    SplitOfJoin("de-DE", "phoneb");
    assert "de-DE" + "_" + "phoneb" == "de-DE_phoneb";
  }

  /** ASCII lower-casing of one character, as ICU's uprv_asciitolower. */
  function AsciiLower(c: char): char {
    if 'A' <= c <= 'Z' then (c as int + ('a' as int - 'A' as int)) as char else c
  }

  /**
   * T_CString_toLowerCase: upper-case ASCII letters become lower-case, every
   * other character is kept, nothing is added or dropped.
   */
  function ToLower(s: string): (r: string)
    ensures |r| == |s|
    ensures forall i | 0 <= i < |s| :: if 'A' <= s[i] <= 'Z' then 'a' <= r[i] <= 'z' && r[i] as int - s[i] as int == 32 else r[i] == s[i]
  {
    if s == [] then [] else [AsciiLower(s[0])] + ToLower(s[1..])
  }

  /** Lower-casing leaves no upper-case ASCII letter, keeps NUL-free text NUL-free, and is idempotent. */
  lemma ToLowerProperties(s: string)
    ensures forall i | 0 <= i < |s| :: !('A' <= ToLower(s)[i] <= 'Z')
    ensures '\0' !in s ==> '\0' !in ToLower(s)
    ensures ToLower(ToLower(s)) == ToLower(s)
  {
    var r := ToLower(s);
    assert forall i | 0 <= i < |s| :: ToLower(r)[i] == r[i];
    if '\0' in r {
      var i :| 0 <= i < |r| && r[i] == '\0';
      assert s[i] == '\0';
    }
  }

  /** Two currency codes are lower-cased. */
  lemma ToLowerExample()
    ensures ToLower("EUR") == "eur"
    ensures ToLower("USD") == "usd"
  {
  }
}
