/**
 * The pieces of JavaScript's string and number semantics that the page
 * script relies on: the white-space class shared by `\s` in regular
 * expressions and by `String.prototype.trim`, the ASCII digit class `\d`,
 * the decimal text of a non-negative integer (`String(n)`), and the value
 * that `parseInt` reads from a string of decimal digits.
 */
module JsText {

  /** JavaScript white space and line terminators: the characters `\s` matches and `trim` strips. */
  predicate IsSpace(c: char) {
    c == '\t' || c == '\n' || c == '\U{0B}' || c == '\U{0C}' || c == '\r' || c == ' '
    || c == '\U{A0}' || c == '\U{1680}' || ('\U{2000}' <= c <= '\U{200A}')
    || c == '\U{2028}' || c == '\U{2029}' || c == '\U{202F}' || c == '\U{205F}'
    || c == '\U{3000}' || c == '\U{FEFF}'
  }

  predicate AllSpace(s: string) {
    forall k | 0 <= k < |s| :: IsSpace(s[k])
  }

  /** The regular-expression class `\d`: ASCII digits only. */
  predicate IsDigit(c: char) {
    '0' <= c <= '9'
  }

  predicate AllDigits(s: string) {
    forall k | 0 <= k < |s| :: IsDigit(s[k])
  }

  predicate NoDigits(s: string) {
    forall k | 0 <= k < |s| :: !IsDigit(s[k])
  }

  /** Index of the first non-space character of `s` at or after `i`, or `|s|` if there is none. */
  function SkipSpaceFrom(s: string, i: nat): (n: nat)
    requires i <= |s|
    ensures i <= n <= |s|
    ensures forall k | i <= k < n :: IsSpace(s[k])
    ensures n < |s| ==> !IsSpace(s[n])
    decreases |s| - i
  {
    if i < |s| && IsSpace(s[i]) then SkipSpaceFrom(s, i + 1) else i
  }

  /** Index just past the last non-space character of `s` before `j`, or 0 if there is none. */
  function SkipSpaceBack(s: string, j: nat): (n: nat)
    requires j <= |s|
    ensures n <= j
    ensures forall k | n <= k < j :: IsSpace(s[k])
    ensures n > 0 ==> !IsSpace(s[n - 1])
  {
    if j > 0 && IsSpace(s[j - 1]) then SkipSpaceBack(s, j - 1) else j
  }

  /** `r` is `s` less the white space before position `i` and after `i + |r|`. */
  ghost predicate Strips(s: string, i: nat, r: string) {
    i + |r| <= |s| && r == s[i..i + |r|]
    && (forall k | 0 <= k < i :: IsSpace(s[k]))
    && (forall k | i + |r| <= k < |s| :: IsSpace(s[k]))
  }

  /**
   * `s.trim()`: `s` with its white space removed at both ends. The result is
   * empty exactly when `s` is all white space; otherwise it is the slice of
   * `s` from its first to its last non-space character.
   */
  function Trim(s: string): (r: string)
    ensures |r| <= |s|
    ensures r == [] <==> AllSpace(s)
    ensures r != [] ==> !IsSpace(r[0]) && !IsSpace(r[|r| - 1])
    ensures exists i :: Strips(s, i, r)
  {
    var i := SkipSpaceFrom(s, 0);
    var j := SkipSpaceBack(s, |s|);
    if i == |s| then
      assert Strips(s, i, []);
      []
    else
      assert j > i;
      assert Strips(s, i, s[i..j]);
      s[i..j]
  }

  /** A string that neither starts nor ends with white space is its own trim. */
  lemma TrimUnpadded(s: string)
    requires s != [] && !IsSpace(s[0]) && !IsSpace(s[|s| - 1])
    ensures Trim(s) == s && !AllSpace(s)
  {
    assert SkipSpaceFrom(s, 0) == 0;
    assert SkipSpaceBack(s, |s|) == |s|;
  }

  /** Trimming a trimmed string changes nothing. */
  lemma TrimIdempotent(s: string)
    ensures Trim(Trim(s)) == Trim(s)
  {
    if Trim(s) != [] {
      TrimUnpadded(Trim(s));
    }
  }

  function DigitValue(c: char): (d: nat)
    requires IsDigit(c)
    ensures d < 10
  {
    (c as int - '0' as int) as nat
  }

  function DigitChar(d: nat): (c: char)
    requires d < 10
    ensures IsDigit(c) && DigitValue(c) == d
  {
    ('0' as int + d) as char
  }

  /**
   * The number `parseInt` reads from a non-empty string of decimal digits
   * (leading zeros allowed); it is zero exactly when every digit is '0'.
   */
  function DecimalValue(s: string): (v: nat)
    requires AllDigits(s)
    ensures v == 0 <==> forall k | 0 <= k < |s| :: s[k] == '0'
  {
    if s == [] then 0
    else
      var front := s[..|s| - 1];
      assert (forall k | 0 <= k < |s| :: s[k] == '0') <==>
        (forall k | 0 <= k < |front| :: front[k] == '0') && s[|s| - 1] == '0' by {
        assert forall k | 0 <= k < |front| :: front[k] == s[k];
      }
      10 * DecimalValue(front) + DigitValue(s[|s| - 1])
  }

  /** A digit string as `String(n)` writes one: no leading zero unless it is "0". */
  predicate Canonical(s: string) {
    s != [] && AllDigits(s) && (s[0] != '0' || s == "0")
  }

  /** `String(n)` for a non-negative integer `n`. */
  function NatToString(n: nat): (r: string)
    ensures Canonical(r)
  {
    if n < 10 then [DigitChar(n)] else NatToString(n / 10) + [DigitChar(n % 10)]
  }

  /** Reading back the text of a number gives the number. */
  lemma {:induction false} DecimalValueOfNatToString(n: nat)
    ensures DecimalValue(NatToString(n)) == n
  {
    if n >= 10 {
      var s := NatToString(n);
      assert s[..|s| - 1] == NatToString(n / 10);
      DecimalValueOfNatToString(n / 10);
    }
  }

  /** Writing out the value of a canonical digit string gives the string back. */
  lemma {:induction false} NatToStringOfDecimalValue(s: string)
    requires Canonical(s)
    ensures NatToString(DecimalValue(s)) == s
  {
    if |s| > 1 {
      var front := s[..|s| - 1];
      NatToStringOfDecimalValue(front);
      var v := DecimalValue(s);
      assert v / 10 == DecimalValue(front) && v % 10 == DigitValue(s[|s| - 1]);
      assert s == front + [s[|s| - 1]];
    }
  }
}
