/**
 * Character-level string operations shared by the Python server and the
 * JavaScript add-in: lower-casing, Python's str.strip(), JavaScript's
 * String.prototype.trim() and the decimal rendering of a natural number.
 */
module UnicodeText {

  /** The characters Python's str.isspace() accepts (and str.strip() removes). */
  predicate IsPyWhitespace(c: char) {
    ('\t' <= c <= '\r') || ('\U{1C}' <= c <= '\U{1F}') || c == ' ' || c == '\U{85}' || c == '\U{A0}'
    || c == '\U{1680}' || ('\U{2000}' <= c <= '\U{200A}') || c == '\U{2028}' || c == '\U{2029}'
    || c == '\U{202F}' || c == '\U{205F}' || c == '\U{3000}'
  }

  /** The white space and line terminators JavaScript's trim() removes. */
  predicate IsJsWhitespace(c: char) {
    ('\t' <= c <= '\r') || c == ' ' || c == '\U{A0}' || c == '\U{FEFF}'
    || c == '\U{1680}' || ('\U{2000}' <= c <= '\U{200A}') || c == '\U{2028}' || c == '\U{2029}'
    || c == '\U{202F}' || c == '\U{205F}' || c == '\U{3000}'
  }

  /** Drops the leading characters satisfying `ws`. */
  function TrimStart(s: string, ws: char -> bool): (r: string)
    ensures |r| <= |s| && r == s[|s| - |r|..]
    ensures r == [] || !ws(r[0])
    ensures forall k :: 0 <= k < |s| - |r| ==> ws(s[k])
  {
    if |s| == 0 || !ws(s[0]) then s else TrimStart(s[1..], ws)
  }

  /** Drops the trailing characters satisfying `ws`. */
  function TrimEnd(s: string, ws: char -> bool): (r: string)
    ensures |r| <= |s| && r == s[..|r|]
    ensures r == [] || !ws(r[|r| - 1])
    ensures forall k :: |r| <= k < |s| ==> ws(s[k])
  {
    if |s| == 0 || !ws(s[|s| - 1]) then s else TrimEnd(s[..|s| - 1], ws)
  }

  /** Removes the longest prefix and suffix of characters satisfying `ws`. */
  function TrimBy(s: string, ws: char -> bool): (r: string)
    ensures |r| <= |s|
    ensures r == [] || (!ws(r[0]) && !ws(r[|r| - 1]))
    ensures r == [] <==> forall k :: 0 <= k < |s| ==> ws(s[k])
    ensures (|s| == 0 || (!ws(s[0]) && !ws(s[|s| - 1]))) ==> r == s
  {
    var left := TrimStart(s, ws);
    var r := TrimEnd(left, ws);
    assert left == s[|s| - |left|..];
    r
  }

  /**
   * What trimming removes: the result is the piece of s that remains once its
   * longest prefix and suffix of characters satisfying `ws` are taken away.
   */
  lemma TrimByIsInfix(s: string, ws: char -> bool)
    ensures exists i :: TrimmedAt(s, ws, i, TrimBy(s, ws))
  {
    var left := TrimStart(s, ws);
    assert TrimBy(s, ws) == TrimEnd(left, ws);
    InfixOfSuffix(s, left, TrimEnd(left, ws), ws);
    assert TrimmedAt(s, ws, |s| - |left|, TrimBy(s, ws));
  }

  /** r is the piece of s at i, and only characters satisfying `ws` lie outside it. */
  predicate TrimmedAt(s: string, ws: char -> bool, i: int, r: string) {
    0 <= i <= |s| - |r| && r == s[i..i + |r|]
    && (forall k :: 0 <= k < i ==> ws(s[k]))
    && (forall k :: i + |r| <= k < |s| ==> ws(s[k]))
  }

  /** Trimming the end of a suffix leaves an infix with only `ws` outside it. */
  lemma InfixOfSuffix(s: string, left: string, r: string, ws: char -> bool)
    requires |left| <= |s| && left == s[|s| - |left|..]
    requires forall k :: 0 <= k < |s| - |left| ==> ws(s[k])
    requires |r| <= |left| && r == left[..|r|]
    requires forall k :: |r| <= k < |left| ==> ws(left[k])
    ensures TrimmedAt(s, ws, |s| - |left|, r)
  {
    var i := |s| - |left|;
    assert r == s[i..i + |r|];
    forall k | i + |r| <= k < |s| ensures ws(s[k]) {
      assert s[k] == left[k - i];
    }
  }

  /** Python's str.strip() with no argument. */
  function PyStrip(s: string): string {
    TrimBy(s, IsPyWhitespace)
  }

  /** JavaScript's String.prototype.trim(). */
  function JsTrim(s: string): string {
    TrimBy(s, IsJsWhitespace)
  }

  /**
   * The full lower-case mapping of one character, as Python's str.lower()
   * and JavaScript's toLowerCase() apply it: ASCII, the Latin-1 capitals,
   * capital I with dot above (two characters) and the Kelvin sign.
   */
  function LowerChar(c: char): (r: string)
    ensures |r| >= 1
  {
    if 'A' <= c <= 'Z' then [(c as int + 32) as char]
    else if ('\U{C0}' <= c <= '\U{DE}') && c != '\U{D7}' then [(c as int + 32) as char]
    else if c == '\U{130}' then ['i', '\U{307}']
    else if c == '\U{212A}' then ['k']
    else [c]
  }

  /** Lower-cases a string character by character. */
  function ToLower(s: string): (r: string)
    ensures |r| >= |s|
  {
    if |s| == 0 then [] else LowerChar(s[0]) + ToLower(s[1..])
  }

  /** The decimal digits of n, without sign or leading zeros (Python's str(n)). */
  function NatToDecimal(n: nat): (r: string)
    ensures |r| >= 1
    ensures forall i :: 0 <= i < |r| ==> '0' <= r[i] <= '9'
  {
    if n < 10 then [(48 + n) as char] else NatToDecimal(n / 10) + [(48 + n % 10) as char]
  }
}
