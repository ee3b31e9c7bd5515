/**
 * The JavaScript and Node string built-ins that the site relies on, stated over
 * `string` (= `seq<char>`):
 *  - `toUpperCase` / `toLowerCase`, restricted to the ASCII letters;
 *  - `charAt(0).toUpperCase() + slice(1)[.toLowerCase()]`, the two capitalisation rules;
 *  - `startsWith`, `trim` and the `\s` character class;
 *  - `split("/").pop()`;
 *  - Node's `path.extname` on a bare directory-entry name;
 *  - `String(n)` for a natural number.
 */
module JsText {

  // ---------------------------------------------------------------------------
  // ASCII case mapping

  predicate IsAsciiUpper(c: char) { 'A' <= c <= 'Z' }
  predicate IsAsciiLower(c: char) { 'a' <= c <= 'z' }

  /** `toUpperCase` on one character: ASCII letters only, everything else unchanged. */
  function UpperChar(c: char): (r: char)
    ensures !IsAsciiLower(r)
    ensures IsAsciiLower(c) <==> r != c
    ensures IsAsciiLower(c) ==> IsAsciiUpper(r) && r as int - 'A' as int == c as int - 'a' as int
  {
    if IsAsciiLower(c) then (c as int - 32) as char else c
  }

  /** `toLowerCase` on one character: ASCII letters only, everything else unchanged. */
  function LowerChar(c: char): (r: char)
    ensures !IsAsciiUpper(r)
    ensures IsAsciiUpper(c) <==> r != c
    ensures IsAsciiUpper(c) ==> IsAsciiLower(r) && r as int - 'a' as int == c as int - 'A' as int
  {
    if IsAsciiUpper(c) then (c as int + 32) as char else c
  }

  /** Two characters that differ at most in ASCII case have the same upper-case form. */
  lemma SameLowerSameUpper(a: char, b: char)
    requires LowerChar(a) == LowerChar(b)
    ensures UpperChar(a) == UpperChar(b)
  {
  }

  function ToLower(s: string): (r: string)
    ensures |r| == |s|
    ensures forall i :: 0 <= i < |s| ==> r[i] == LowerChar(s[i])
  {
    seq(|s|, i requires 0 <= i < |s| => LowerChar(s[i]))
  }

  /** A string without upper-case ASCII letters is its own lower-case form. */
  lemma ToLowerOfLower(s: string)
    requires forall i :: 0 <= i < |s| ==> !IsAsciiUpper(s[i])
    ensures ToLower(s) == s
  {
  }

  // ---------------------------------------------------------------------------
  // Capitalisation

  /**
   * `s.charAt(0).toUpperCase() + s.slice(1).toLowerCase()`: the first character
   * upper-cased, every later one lower-cased; the empty string stays empty.
   */
  function Capitalize(s: string): (r: string)
    ensures |r| == |s|
    ensures |s| > 0 ==> r[0] == UpperChar(s[0])
    ensures forall i :: 0 < i < |s| ==> r[i] == LowerChar(s[i])
  {
    if s == [] then [] else [UpperChar(s[0])] + ToLower(s[1..])
  }

  /** A string already in the form that `Capitalize` produces. */
  predicate IsCapitalized(s: string) {
    (|s| > 0 ==> !IsAsciiLower(s[0])) && forall i :: 0 < i < |s| ==> !IsAsciiUpper(s[i])
  }

  /** `Capitalize` leaves a string unchanged exactly when it is already capitalised. */
  lemma CapitalizeFixedPoints(s: string)
    ensures Capitalize(s) == s <==> IsCapitalized(s)
  {
    if IsCapitalized(s) {
      assert forall i :: 0 <= i < |s| ==> Capitalize(s)[i] == s[i];
    }
  }

  /** Every result of `Capitalize` is capitalised, so applying it twice is applying it once. */
  lemma CapitalizeIdempotent(s: string)
    ensures IsCapitalized(Capitalize(s))
    ensures Capitalize(Capitalize(s)) == Capitalize(s)
  {
    CapitalizeFixedPoints(Capitalize(s));
  }

  /** Two strings that differ only in ASCII case capitalise to the same string. */
  lemma CapitalizeIgnoresCase(a: string, b: string)
    requires ToLower(a) == ToLower(b)
    ensures Capitalize(a) == Capitalize(b)
  {
    if |a| > 0 {
      assert LowerChar(a[0]) == ToLower(a)[0] == ToLower(b)[0] == LowerChar(b[0]);
      SameLowerSameUpper(a[0], b[0]);
      assert forall i :: 0 <= i < |a| ==> Capitalize(a)[i] == Capitalize(b)[i] by {
        forall i | 0 < i < |a| ensures LowerChar(a[i]) == LowerChar(b[i]) {
          assert ToLower(a)[i] == ToLower(b)[i];
        }
      }
    }
  }

  /**
   * `s.charAt(0).toUpperCase() + s.slice(1)`: only the first character changes;
   * the rest keeps its case.
   */
  function UpperFirst(s: string): (r: string)
    ensures |r| == |s|
    ensures |s| > 0 ==> r[0] == UpperChar(s[0]) && r[1..] == s[1..]
  {
    if s == [] then [] else [UpperChar(s[0])] + s[1..]
  }

  // ---------------------------------------------------------------------------
  // Prefixes, suffixes and slices

  predicate StartsWith(s: string, prefix: string) {
    |prefix| <= |s| && s[..|prefix|] == prefix
  }

  predicate EndsWith(s: string, suffix: string) {
    |suffix| <= |s| && s[|s| - |suffix|..] == suffix
  }

  /** `s.slice(1)`: everything after the first character; empty for the empty string. */
  function SliceFromOne(s: string): (r: string)
    ensures |s| > 0 ==> [s[0]] + r == s
    ensures |s| == 0 ==> r == []
  {
    if s == [] then [] else s[1..]
  }

  // ---------------------------------------------------------------------------
  // Whitespace and trim

  /**
   * The ECMAScript WhiteSpace and LineTerminator characters: what the regular
   * expression class `\s` matches and what `String.prototype.trim` removes.
   */
  predicate IsWhitespace(c: char) {
    c == '\t' || c == '\n' || c == '\U{000B}' || c == '\U{000C}' || c == '\r' ||
    c == ' ' || c == '\U{00A0}' || c == '\U{1680}' ||
    ('\U{2000}' <= c <= '\U{200A}') ||
    c == '\U{2028}' || c == '\U{2029}' || c == '\U{202F}' || c == '\U{205F}' ||
    c == '\U{3000}' || c == '\U{FEFF}'
  }

  /** A string with nothing but whitespace in it (the empty string included). */
  predicate IsBlank(s: string) {
    forall i :: 0 <= i < |s| ==> IsWhitespace(s[i])
  }

  /** Drops the leading whitespace. */
  function TrimStart(s: string): (r: string)
    ensures |r| <= |s| && r == s[|s| - |r|..]
    ensures IsBlank(s[..|s| - |r|])
    ensures |r| > 0 ==> !IsWhitespace(r[0])
  {
    if s != [] && IsWhitespace(s[0]) then
      var t := TrimStart(s[1..]);
      assert s[1..][..|s| - 1 - |t|] == s[1..|s| - |t|];
      t
    else s
  }

  /** Drops the trailing whitespace. */
  function TrimEnd(s: string): (r: string)
    ensures |r| <= |s| && r == s[..|r|]
    ensures IsBlank(s[|r|..])
    ensures |r| > 0 ==> !IsWhitespace(r[|r| - 1])
  {
    if s != [] && IsWhitespace(s[|s| - 1]) then
      var t := TrimEnd(s[..|s| - 1]);
      assert s[..|s| - 1][|t|..] == s[|t|..|s| - 1];
      t
    else s
  }

  /**
   * `s.trim()`: the slice `s[i..j]` left after removing the whitespace at both
   * ends; everything removed is whitespace and the result neither starts nor ends
   * with whitespace.
   */
  function Trim(s: string): (r: string)
    ensures exists i, j :: 0 <= i <= j <= |s| && r == s[i..j] && IsBlank(s[..i]) && IsBlank(s[j..])
    ensures |r| > 0 ==> !IsWhitespace(r[0]) && !IsWhitespace(r[|r| - 1])
  {
    var t := TrimStart(s);
    var r := TrimEnd(t);
    var i := |s| - |t|;
    assert r == s[i..i + |r|];
    assert s[i + |r|..] == t[|r|..];
    r
  }

  /** The trimmed string is empty exactly when the string is all whitespace. */
  lemma TrimEmptyIffBlank(s: string)
    ensures Trim(s) == [] <==> IsBlank(s)
  {
    var r := Trim(s);
    var i, j :| 0 <= i <= j <= |s| && r == s[i..j] && IsBlank(s[..i]) && IsBlank(s[j..]);
    if r == [] {
      assert i == j;
      forall k | 0 <= k < |s| ensures IsWhitespace(s[k]) {
        if k < i { assert s[..i][k] == s[k]; } else { assert s[j..][k - j] == s[k]; }
      }
    }
  }

  // ---------------------------------------------------------------------------
  // Searching

  /** `s.lastIndexOf(c)`: the position of the last `c`, or -1 when there is none. */
  function LastIndexOf(s: string, c: char): (r: int)
    ensures -1 <= r < |s|
    ensures r >= 0 ==> s[r] == c
    ensures forall k :: r < k < |s| ==> s[k] != c
  {
    if s == [] then -1
    else if s[|s| - 1] == c then |s| - 1
    else LastIndexOf(s[..|s| - 1], c)
  }

  /**
   * `s.split("/").pop()`: the text after the last `/`, or the whole string when it
   * has no `/`.
   */
  function LastSegment(s: string): (r: string)
    ensures EndsWith(s, r) && '/' !in r
    ensures |r| < |s| ==> s[|s| - |r| - 1] == '/'
    ensures '/' !in s ==> r == s
  {
    var k := LastIndexOf(s, '/');
    s[k + 1..]
  }

  // ---------------------------------------------------------------------------
  // File-name extensions

  /**
   * Node's `path.extname` on a bare directory-entry name (one with no `/`): the
   * text from the last `.` on, except that there is no extension when the name has
   * no `.`, when its only candidate `.` is its first character (`.jpg`), or when the
   * name is `..`.
   */
  function ExtName(name: string): (ext: string)
    ensures ext == [] || (EndsWith(name, ext) && |ext| < |name| && ext[0] == '.' && '.' !in ext[1..])
    ensures '.' !in name ==> ext == []
  {
    var d := LastIndexOf(name, '.');
    if d <= 0 || name == ".." then []
    else name[d..]
  }

  /** A `.` after the first character, followed by at least one character and no other `.`, starts the extension. */
  lemma ExtNameAt(name: string, d: nat)
    requires 0 < d && d + 1 < |name| && name[d] == '.'
    requires forall k :: d < k < |name| ==> name[k] != '.'
    ensures ExtName(name) == name[d..]
  {
    assert LastIndexOf(name, '.') == d;
  }

  /** Lower-casing commutes with taking a suffix. */
  lemma ToLowerSuffix(s: string, d: nat)
    requires d <= |s|
    ensures ToLower(s[d..]) == ToLower(s)[d..]
  {
  }

  /** An extension as an allow-list holds it: a `.` followed by at least one character, none of them `.`. */
  predicate IsExtension(e: string) {
    |e| >= 2 && e[0] == '.' && forall k :: 0 < k < |e| ==> e[k] != '.'
  }

  lemma ExtNameMatchesIf(name: string, e: string)
    requires IsExtension(e) && |e| < |name| && EndsWith(ToLower(name), e)
    ensures ToLower(ExtName(name)) == e
  {
    var lower := ToLower(name);
    var d := |name| - |e|;
    assert lower[d..] == e;
    assert name[d] == '.' by { assert lower[d] == e[0]; }
    forall k | d < k < |name| ensures name[k] != '.' {
      assert lower[k] == e[k - d];
    }
    ExtNameAt(name, d);
    ToLowerSuffix(name, d);
  }

  lemma ExtNameMatchesOnlyIf(name: string, e: string)
    requires IsExtension(e) && ToLower(ExtName(name)) == e
    ensures |e| < |name| && EndsWith(ToLower(name), e)
  {
    var ext := ExtName(name);
    ToLowerSuffix(name, |name| - |ext|);
  }

  /**
   * For an extension that starts with `.` and has no other `.` (every entry of
   * an allow-list of extensions), the lower-cased `ExtName` is that extension
   * exactly when the lower-cased name ends with it and has something before it.
   */
  lemma ExtNameMatches(name: string, e: string)
    requires IsExtension(e)
    ensures ToLower(ExtName(name)) == e <==> |e| < |name| && EndsWith(ToLower(name), e)
  {
    if |e| < |name| && EndsWith(ToLower(name), e) {
      ExtNameMatchesIf(name, e);
    }
    if ToLower(ExtName(name)) == e {
      ExtNameMatchesOnlyIf(name, e);
    }
  }

  // ---------------------------------------------------------------------------
  // Decimal numerals

  predicate IsDigit(c: char) { '0' <= c <= '9' }

  function DigitChar(d: nat): (c: char)
    requires d < 10
    ensures IsDigit(c) && c as int - '0' as int == d
  {
    ('0' as int + d) as char
  }

  /** The value of a string of decimal digits, most significant first. */
  function DecimalValue(s: string): nat
    requires forall i :: 0 <= i < |s| ==> IsDigit(s[i])
  {
    if s == [] then 0
    else
      assert IsDigit(s[|s| - 1]);
      10 * DecimalValue(s[..|s| - 1]) + (s[|s| - 1] as int - '0' as int)
  }

  /** `String(n)` for a natural number: its decimal numeral, without leading zeros. */
  function NatToString(n: nat): (r: string)
    ensures |r| > 0 && forall i :: 0 <= i < |r| ==> IsDigit(r[i])
    ensures |r| > 1 ==> r[0] != '0'
  {
    if n < 10 then [DigitChar(n)] else NatToString(n / 10) + [DigitChar(n % 10)]
  }

  /** Reading back the numeral `String(n)` gives `n`. */
  lemma {:induction false} DecimalRoundTrip(n: nat)
    ensures DecimalValue(NatToString(n)) == n
  {
    var s := NatToString(n);
    if n >= 10 {
      DecimalRoundTrip(n / 10);
      assert s[..|s| - 1] == NatToString(n / 10);
    }
  }

  /** Different numbers have different numerals. */
  lemma NatToStringInjective(m: nat, n: nat)
    requires m != n
    ensures NatToString(m) != NatToString(n)
  {
    DecimalRoundTrip(m);
    DecimalRoundTrip(n);
  }
}
