/** String utilities the views share, stated over `seq<char>`:
    ECMAScript white space, ASCII case folding, substring search,
    decimal rendering of naturals, zero padding, joining, a code-point
    lexicographic order and the `\S+@\S+\.\S+` email test. */
module Text {

  // ----- white space (the set `String.prototype.trim` and `\s` use) -----

  /** ECMAScript WhiteSpace or LineTerminator code point. */
  predicate IsSpace(c: char) {
    var k := c as int;
    k == 0x09 || k == 0x0A || k == 0x0B || k == 0x0C || k == 0x0D || k == 0x20
    || k == 0xA0 || k == 0x1680 || (0x2000 <= k <= 0x200A) || k == 0x2028
    || k == 0x2029 || k == 0x202F || k == 0x205F || k == 0x3000 || k == 0xFEFF
  }

  /** `!s.trim()`: the string is empty once white space is trimmed. */
  predicate IsBlank(s: string) {
    forall i | 0 <= i < |s| :: IsSpace(s[i])
  }

  // ----- case folding -----

  function Lower(c: char): (d: char)
    ensures 'A' <= c <= 'Z' ==> d as int == c as int + 32
    ensures !('A' <= c <= 'Z') ==> d == c
  {
    if 'A' <= c <= 'Z' then (c as int + 32) as char else c
  }

  /** `s.toLowerCase()` restricted to ASCII letters. */
  function ToLower(s: string): (r: string)
    ensures |r| == |s|
    ensures forall i | 0 <= i < |s| :: r[i] == Lower(s[i])
  {
    seq(|s|, i requires 0 <= i < |s| => Lower(s[i]))
  }

  // ----- substring search -----

  /** `needle` occurs in `hay` starting at index `i`. */
  predicate OccursAt(hay: string, needle: string, i: nat) {
    i + |needle| <= |hay| && hay[i..i + |needle|] == needle
  }

  /** `hay.includes(needle)`. */
  predicate Includes(hay: string, needle: string) {
    exists i | 0 <= i <= |hay| :: OccursAt(hay, needle, i)
  }

  /** The empty string occurs in every string. */
  lemma IncludesEmpty(hay: string)
    ensures Includes(hay, "")
  {
    assert OccursAt(hay, "", 0);
  }

  /** A string occurs in itself. */
  lemma IncludesSelf(s: string)
    ensures Includes(s, s)
  {
    assert OccursAt(s, s, 0);
  }

  /** `hay.toLowerCase().includes(needle.toLowerCase())`. */
  predicate IncludesIgnoreCase(hay: string, needle: string) {
    Includes(ToLower(hay), ToLower(needle))
  }

  // ----- decimal rendering -----

  predicate IsDigit(c: char) {
    '0' <= c <= '9'
  }

  predicate AllDigits(s: string) {
    forall i | 0 <= i < |s| :: IsDigit(s[i])
  }

  function DigitChar(d: nat): (c: char)
    requires d < 10
    ensures IsDigit(c) && c as int - '0' as int == d
  {
    ('0' as int + d) as char
  }

  /** `n.toString()`: shortest decimal numeral of `n`. */
  function NatToString(n: nat): (r: string)
    ensures 1 <= |r|
    ensures AllDigits(r)
    ensures |r| > 1 ==> r[0] != '0'
    ensures n < 10 <==> |r| == 1
    ensures n < 100 ==> |r| <= 2
    decreases n
  {
    if n < 10 then [DigitChar(n)] else NatToString(n / 10) + [DigitChar(n % 10)]
  }

  /** The number a digit string denotes (leading zeros allowed). */
  function DigitsValue(s: string): nat
    requires AllDigits(s)
  {
    if s == [] then 0
    else 10 * DigitsValue(s[..|s| - 1]) + (s[|s| - 1] as int - '0' as int)
  }

  /** Reading back the rendered numeral gives the number. */
  lemma {:induction false} NatToStringRoundTrip(n: nat)
    ensures DigitsValue(NatToString(n)) == n
    decreases n
  {
    if n >= 10 {
      var r := NatToString(n);
      assert r[..|r| - 1] == NatToString(n / 10);
      NatToStringRoundTrip(n / 10);
    }
  }

  /** `s.padStart(2, '0')`. */
  function Pad2(s: string): (r: string)
    ensures |s| >= 2 ==> r == s
    ensures |s| < 2 ==> |r| == 2
    ensures |s| <= |r| && r[|r| - |s|..] == s
    ensures forall i | 0 <= i < |r| - |s| :: r[i] == '0'
  {
    if |s| >= 2 then s else seq(2 - |s|, _ => '0') + s
  }

  /** Leading zeros do not change the value of a digit string. */
  lemma {:induction false} LeadingZeroValue(s: string)
    requires AllDigits(s)
    ensures AllDigits("0" + s) && DigitsValue("0" + s) == DigitsValue(s)
    decreases |s|
  {
    if s != [] {
      var t := "0" + s;
      assert t[..|t| - 1] == "0" + s[..|s| - 1];
      LeadingZeroValue(s[..|s| - 1]);
    }
  }

  /** Two-digit, zero-padded rendering of a number below 100. */
  function TwoDigits(n: nat): (r: string)
    requires n < 100
    ensures |r| == 2 && AllDigits(r)
    ensures DigitsValue(r) == n
  {
    var d := NatToString(n);
    NatToStringRoundTrip(n);
    if |d| == 1 then
      LeadingZeroValue(d);
      assert Pad2(d) == "0" + d;
      Pad2(d)
    else
      Pad2(d)
  }

  // ----- joining -----

  /** `parts.join(sep)`. */
  function Join(parts: seq<string>, sep: string): (r: string)
    ensures parts == [] ==> r == ""
    ensures |parts| == 1 ==> r == parts[0]
  {
    if parts == [] then ""
    else if |parts| == 1 then parts[0]
    else parts[0] + sep + Join(parts[1..], sep)
  }

  // ----- lexicographic order (stand-in for localeCompare) -----

  /** Code-point lexicographic order: `a` sorts no later than `b`. */
  predicate LexLe(a: string, b: string) {
    if a == [] then true
    else if b == [] then false
    else if a[0] != b[0] then a[0] < b[0]
    else LexLe(a[1..], b[1..])
  }

  lemma {:induction false} LexLeTotal(a: string, b: string)
    ensures LexLe(a, b) || LexLe(b, a)
  {
    if a != [] && b != [] && a[0] == b[0] {
      LexLeTotal(a[1..], b[1..]);
    }
  }

  lemma {:induction false} LexLeTransitive(a: string, b: string, c: string)
    requires LexLe(a, b) && LexLe(b, c)
    ensures LexLe(a, c)
  {
    if a != [] && b != [] && c != [] && a[0] == b[0] && b[0] == c[0] {
      LexLeTransitive(a[1..], b[1..], c[1..]);
    }
  }

  // ----- the email test of the sign-up and sign-in forms -----

  predicate AllNonSpace(s: string) {
    forall i | 0 <= i < |s| :: !IsSpace(s[i])
  }

  /** The regular expression `\S+@\S+\.\S+` matches `s[a..e]`, with its
      '@' at `at` and its '.' at `dot`. */
  ghost predicate PatternAt(s: string, a: nat, at: nat, dot: nat, e: nat) {
    && a < at < dot < e <= |s|
    && AllNonSpace(s[a..at])
    && s[at] == '@'
    && at + 1 < dot && AllNonSpace(s[at + 1..dot])
    && s[dot] == '.'
    && dot + 1 < e && AllNonSpace(s[dot + 1..e])
  }

  /** `/\S+@\S+\.\S+/.test(s)` written as the regular expression reads:
      somewhere in `s`, a non-empty run of non-space characters, an '@',
      another non-empty run, a '.', and a third non-empty run. */
  ghost predicate EmailPatternMatches(s: string) {
    exists a: nat, at: nat, dot: nat, e: nat :: PatternAt(s, a, at, dot, e)
  }

  /** The shortest match around an '@' at `at` and a '.' at `dot`. */
  predicate EmailAt(s: string, at: nat, dot: nat) {
    && 0 < at && at + 1 < dot && dot + 1 < |s|
    && s[at] == '@' && s[dot] == '.'
    && !IsSpace(s[at - 1]) && !IsSpace(s[dot + 1])
    && AllNonSpace(s[at + 1..dot])
  }

  /** The same test with the outer runs shortened to one character each,
      which is how it is decided. */
  predicate LooksLikeEmail(s: string) {
    exists at, dot | 0 <= at < |s| && 0 <= dot < |s| :: EmailAt(s, at, dot)
  }

  /** The decided form agrees with the regular expression on every string. */
  lemma LooksLikeEmailIsPattern(s: string)
    ensures LooksLikeEmail(s) <==> EmailPatternMatches(s)
  {
    if LooksLikeEmail(s) {
      var at, dot :| 0 <= at < |s| && 0 <= dot < |s| && EmailAt(s, at, dot);
      assert s[at - 1..at] == [s[at - 1]];
      assert s[dot + 1..dot + 2] == [s[dot + 1]];
      assert PatternAt(s, at - 1, at, dot, dot + 2);
    }
    if EmailPatternMatches(s) {
      var a: nat, at: nat, dot: nat, e: nat :| PatternAt(s, a, at, dot, e);
      assert s[a..at][at - 1 - a] == s[at - 1];
      assert s[dot + 1..e][0] == s[dot + 1];
      assert EmailAt(s, at, dot);
    }
  }
}
