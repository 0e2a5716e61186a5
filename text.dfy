/** String helpers with the behaviour of the JavaScript built-ins the ledger code relies on:
    `toLowerCase`, `trim`, `includes`, the `<=` comparison of strings, the decimal rendering
    of an integer and `parseFloat`. */
module Text {

  datatype Option<T> = None | Some(value: T)

  // ---------------------------------------------------------------- case and white space

  /** ASCII lower-casing of one character. */
  function LowerChar(c: char): char {
    if 'A' <= c <= 'Z' then (c as int + 32) as char else c
  }

  /** `s.toLowerCase()`, restricted to ASCII letters. */
  function Lower(s: string): (r: string)
    ensures |r| == |s|
    ensures forall i :: 0 <= i < |s| ==> r[i] == LowerChar(s[i])
  {
    seq(|s|, i requires 0 <= i < |s| => LowerChar(s[i]))
  }

  /** The ECMAScript WhiteSpace and LineTerminator characters, which `trim` and `parseFloat` skip. */
  predicate IsSpace(c: char) {
    c == ' ' || c == '\t' || c == '\n' || c == '\r' || c == '\U{000B}' || c == '\U{000C}'
    || c == '\U{00A0}' || c == '\U{1680}' || ('\U{2000}' <= c <= '\U{200A}')
    || c == '\U{2028}' || c == '\U{2029}' || c == '\U{202F}' || c == '\U{205F}'
    || c == '\U{3000}' || c == '\U{FEFF}'
  }

  function TrimStart(s: string): string {
    if |s| > 0 && IsSpace(s[0]) then TrimStart(s[1..]) else s
  }

  /** `TrimStart` drops leading white space only, up to the first other character. */
  lemma {:induction false} TrimStartSpec(s: string)
    ensures |TrimStart(s)| <= |s| && TrimStart(s) == s[|s| - |TrimStart(s)|..]
    ensures |TrimStart(s)| > 0 ==> !IsSpace(TrimStart(s)[0])
    ensures forall i :: 0 <= i < |s| - |TrimStart(s)| ==> IsSpace(s[i])
    decreases |s|
  {
    if |s| > 0 && IsSpace(s[0]) {
      TrimStartSpec(s[1..]);
    }
  }

  function TrimEnd(s: string): string {
    if |s| > 0 && IsSpace(s[|s| - 1]) then TrimEnd(s[..|s| - 1]) else s
  }

  /** `TrimEnd` drops trailing white space only, back to the last other character. */
  lemma {:induction false} TrimEndSpec(s: string)
    ensures |TrimEnd(s)| <= |s| && TrimEnd(s) == s[..|TrimEnd(s)|]
    ensures |TrimEnd(s)| > 0 ==> !IsSpace(TrimEnd(s)[|TrimEnd(s)| - 1])
    ensures forall i :: |TrimEnd(s)| <= i < |s| ==> IsSpace(s[i])
    decreases |s|
  {
    if |s| > 0 && IsSpace(s[|s| - 1]) {
      TrimEndSpec(s[..|s| - 1]);
    }
  }

  /** `s.trim()`. */
  function Trim(s: string): string {
    TrimEnd(TrimStart(s))
  }

  /** `Trim` gives the longest slice of `s` that neither starts nor ends with white space,
      obtained by dropping white space only. */
  lemma TrimSpec(s: string)
    ensures |Trim(s)| > 0 ==> !IsSpace(Trim(s)[0]) && !IsSpace(Trim(s)[|Trim(s)| - 1])
    ensures exists lo :: SliceWithin(s, Trim(s), lo)
  {
    var t := TrimStart(s);
    var r := TrimEnd(t);
    TrimStartSpec(s);
    TrimEndSpec(t);
    var lo := |s| - |t|;
    assert SliceWithin(s, r, lo);
  }

  /** `r` is the slice of `s` at `lo` and everything of `s` around it is white space. */
  predicate SliceWithin(s: string, r: string, lo: int) {
    0 <= lo <= |s| - |r| && r == s[lo..lo + |r|]
    && (forall i :: 0 <= i < lo ==> IsSpace(s[i]))
    && (forall i :: lo + |r| <= i < |s| ==> IsSpace(s[i]))
  }

  lemma LowerPreservesSpace(c: char)
    ensures IsSpace(LowerChar(c)) == IsSpace(c)
  {
  }

  lemma {:induction false} LowerTrimStart(s: string)
    ensures Lower(TrimStart(s)) == TrimStart(Lower(s))
    decreases |s|
  {
    if |s| > 0 {
      LowerPreservesSpace(s[0]);
      assert Lower(s)[1..] == Lower(s[1..]);
      if IsSpace(s[0]) {
        LowerTrimStart(s[1..]);
      }
    }
  }

  lemma {:induction false} LowerTrimEnd(s: string)
    ensures Lower(TrimEnd(s)) == TrimEnd(Lower(s))
    decreases |s|
  {
    if |s| > 0 {
      LowerPreservesSpace(s[|s| - 1]);
      assert Lower(s)[..|s| - 1] == Lower(s[..|s| - 1]);
      if IsSpace(s[|s| - 1]) {
        LowerTrimEnd(s[..|s| - 1]);
      }
    }
  }

  /** Lower-casing and trimming commute, so `s.trim().toLowerCase()` and
      `s.toLowerCase().trim()` are the same string. */
  lemma LowerTrimCommute(s: string)
    ensures Lower(Trim(s)) == Trim(Lower(s))
  {
    LowerTrimStart(s);
    LowerTrimEnd(TrimStart(s));
  }

  // ---------------------------------------------------------------- substring search

  predicate StartsWith(s: string, p: string) {
    |p| <= |s| && s[..|p|] == p
  }

  /** `s.includes(sub)`. */
  predicate Contains(s: string, sub: string)
    decreases |s|
  {
    StartsWith(s, sub) || (|s| > 0 && Contains(s[1..], sub))
  }

  // ---------------------------------------------------------------- string order

  /** JavaScript's `a <= b` on strings: lexicographic order on characters. */
  predicate LexLe(a: string, b: string)
    decreases |a|
  {
    |a| == 0 || (|b| > 0 && (a[0] < b[0] || (a[0] == b[0] && LexLe(a[1..], b[1..]))))
  }

  lemma {:induction false} LexLeTotal(a: string, b: string)
    ensures LexLe(a, b) || LexLe(b, a)
    decreases |a|
  {
    if |a| > 0 && |b| > 0 && a[0] == b[0] {
      LexLeTotal(a[1..], b[1..]);
    }
  }

  lemma {:induction false} LexLeTransitive(a: string, b: string, c: string)
    requires LexLe(a, b) && LexLe(b, c)
    ensures LexLe(a, c)
    decreases |a|
  {
    if |a| > 0 && a[0] == b[0] && b[0] == c[0] {
      LexLeTransitive(a[1..], b[1..], c[1..]);
    }
  }

  lemma {:induction false} LexLeAntisymmetric(a: string, b: string)
    requires LexLe(a, b) && LexLe(b, a)
    ensures a == b
    decreases |a|
  {
    if |a| > 0 {
      LexLeAntisymmetric(a[1..], b[1..]);
      assert a == [a[0]] + a[1..] && b == [b[0]] + b[1..];
    }
  }

  // ---------------------------------------------------------------- decimal rendering

  predicate IsDigit(c: char) {
    '0' <= c <= '9'
  }

  function DigitChar(d: nat): (c: char)
    requires d < 10
    ensures IsDigit(c)
  {
    ('0' as int + d) as char
  }

  /** The decimal rendering of a natural number, as template literals produce it. */
  function NatToString(n: nat): (r: string)
    ensures |r| > 0
    ensures forall i :: 0 <= i < |r| ==> IsDigit(r[i])
    ensures n >= 10 ==> |r| >= 2
    decreases n
  {
    if n < 10 then [DigitChar(n)] else NatToString(n / 10) + [DigitChar(n % 10)]
  }

  /** Distinct numbers render as distinct strings. */
  lemma {:induction false} NatToStringInjective(m: nat, n: nat)
    requires NatToString(m) == NatToString(n)
    ensures m == n
    decreases m
  {
    var r := NatToString(m);
    if m < 10 && n < 10 {
    } else if m >= 10 && n >= 10 {
      assert r[..|r| - 1] == NatToString(m / 10) == NatToString(n / 10);
      assert r[|r| - 1] == DigitChar(m % 10) == DigitChar(n % 10);
      NatToStringInjective(m / 10, n / 10);
    }
  }

  /** The signed decimal rendering of an integer. */
  function IntToString(i: int): (r: string)
    ensures |r| > 0
  {
    if i < 0 then "-" + NatToString(-i) else NatToString(i)
  }

  /** `String(x)` for a number: exact for integral values; a fraction is written with the
      digits of its decimal expansion, at most `fractionDigits` of them. */
  function NumberToString(x: real): (r: string)
    ensures |r| > 0
  {
    var whole := if x < 0.0 then -((-x).Floor) else x.Floor;
    var frac := if x < 0.0 then (-x) - ((-x).Floor as real) else x - (x.Floor as real);
    var sign := if x < 0.0 && whole == 0 && frac > 0.0 then "-" else "";
    if frac == 0.0 then IntToString(whole)
    else sign + IntToString(whole) + "." + FractionDigits(frac, fractionDigits)
  }

  const fractionDigits: nat := 20

  function FractionDigits(f: real, fuel: nat): string
    requires 0.0 <= f < 1.0
    decreases fuel
  {
    if f == 0.0 || fuel == 0 then ""
    else
      var d := (f * 10.0).Floor;
      assert 0 <= d < 10;
      [DigitChar(d)] + FractionDigits(f * 10.0 - d as real, fuel - 1)
  }

  // ---------------------------------------------------------------- parseFloat

  function DigitValue(c: char): nat
    requires IsDigit(c)
  {
    c as int - '0' as int
  }

  /** The number of leading decimal digits of `s`. */
  function LeadingDigits(s: string): (n: nat)
    ensures n <= |s|
    ensures forall i :: 0 <= i < n ==> IsDigit(s[i])
    ensures n < |s| ==> !IsDigit(s[n])
    decreases |s|
  {
    if |s| > 0 && IsDigit(s[0]) then 1 + LeadingDigits(s[1..]) else 0
  }

  function DigitsValue(ds: string): nat
    requires forall i :: 0 <= i < |ds| ==> IsDigit(ds[i])
    decreases |ds|
  {
    if |ds| == 0 then 0 else DigitsValue(ds[..|ds| - 1]) * 10 + DigitValue(ds[|ds| - 1])
  }

  function Pow10(k: nat): (p: nat)
    ensures p >= 1
  {
    if k == 0 then 1 else 10 * Pow10(k - 1)
  }

  /** `10^e` for a signed exponent. */
  function Scale(e: int): (r: real)
    ensures r > 0.0
  {
    if e >= 0 then Pow10(e) as real else 1.0 / Pow10(-e) as real
  }

  /** The exponent part `e[+-]digits` at the start of `s`, or 0 when there is none. */
  function LeadingExponent(s: string): int {
    if |s| > 0 && (s[0] == 'e' || s[0] == 'E') then
      var rest := s[1..];
      var neg := |rest| > 0 && rest[0] == '-';
      var digits := if |rest| > 0 && (rest[0] == '-' || rest[0] == '+') then rest[1..] else rest;
      var n := LeadingDigits(digits);
      if n == 0 then 0
      else if neg then -(DigitsValue(digits[..n]) as int)
      else DigitsValue(digits[..n]) as int
    else 0
  }

  /** The longest decimal literal at the start of `s` (sign, digits, fraction, exponent),
      or None when `s` does not start with one: `parseFloat` without its leading-space skip. */
  function ParseDecimalPrefix(s: string): Option<real> {
    var negative := |s| > 0 && s[0] == '-';
    var body := if |s| > 0 && (s[0] == '-' || s[0] == '+') then s[1..] else s;
    var n := LeadingDigits(body);
    var afterWhole := body[n..];
    var hasPoint := |afterWhole| > 0 && afterWhole[0] == '.';
    var fracPart := if hasPoint then afterWhole[1..][..LeadingDigits(afterWhole[1..])] else "";
    if n == 0 && |fracPart| == 0 then None
    else
      var consumed := n + (if hasPoint then 1 + |fracPart| else 0);
      var mantissa := DigitsValue(body[..n]) as real
                      + DigitsValue(fracPart) as real / Pow10(|fracPart|) as real;
      var magnitude := mantissa * Scale(LeadingExponent(body[consumed..]));
      Some(if negative then -magnitude else magnitude)
  }

  /** `parseFloat(s) || 0`: the parsed number, or 0 when `s` holds no number. */
  function ParseFloatOrZero(s: string): real {
    match ParseDecimalPrefix(TrimStart(s))
    case Some(v) => v
    case None => 0.0
  }

  /** A string of digits parses to its value. */
  lemma {:induction false} ParseDigits(s: string)
    requires |s| > 0 && forall i :: 0 <= i < |s| ==> IsDigit(s[i])
    ensures ParseFloatOrZero(s) == DigitsValue(s) as real
  {
    assert !IsSpace(s[0]);
    assert TrimStart(s) == s;
    assert LeadingDigits(s) == |s| by { LeadingDigitsAll(s); }
    assert s[..|s|] == s;
  }

  lemma {:induction false} LeadingDigitsAll(s: string)
    requires forall i :: 0 <= i < |s| ==> IsDigit(s[i])
    ensures LeadingDigits(s) == |s|
    decreases |s|
  {
    if |s| > 0 {
      LeadingDigitsAll(s[1..]);
    }
  }

  /** A string with no digit at all parses to 0. */
  lemma NoDigitsParseToZero(s: string)
    requires forall i :: 0 <= i < |s| ==> !IsDigit(s[i])
    ensures ParseFloatOrZero(s) == 0.0
  {
    var t := TrimStart(s);
    TrimStartSpec(s);
    var body := if |t| > 0 && (t[0] == '-' || t[0] == '+') then t[1..] else t;
    assert forall i :: 0 <= i < |body| ==> !IsDigit(body[i]);
    assert LeadingDigits(body) == 0;
    var afterWhole := body[0..];
    if |afterWhole| > 0 && afterWhole[0] == '.' {
      assert LeadingDigits(afterWhole[1..]) == 0;
    }
  }
}
