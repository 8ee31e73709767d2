/** Small pieces of the JavaScript runtime that the decision code leans on:
    an optional value (null / undefined), Math.round on non-negative
    quantities, the `\s` character class, decimal printing of integers
    (template strings such as `/modulo/${n}/aula/1`) and its inverse. */
module Common {

  datatype Option<T> = None | Some(value: T)

  /** A JavaScript string is falsy exactly when it is empty; a missing
      value is falsy too. `a || b` on optional strings. */
  function OrString(a: Option<string>, b: Option<string>): (r: Option<string>)
    ensures a.Some? && a.value != [] ==> r == a
    ensures (a.None? || a.value == []) ==> r == b
  {
    if a.Some? && a.value != [] then a else b
  }

  /** `a || b` on optional numbers: 0 and a missing value are falsy. */
  function OrInt(a: Option<int>, b: Option<int>): (r: Option<int>)
    ensures a.Some? && a.value != 0 ==> r == a
    ensures (a.None? || a.value == 0) ==> r == b
  {
    if a.Some? && a.value != 0 then a else b
  }

  /** Math.round(num / den) for num >= 0, den > 0: the integer nearest to
      num / den, halves rounded up, i.e. floor(num / den + 1/2). */
  function RoundRatio(num: nat, den: nat): (r: nat)
    requires den > 0
    ensures 2 * r * den <= 2 * num + den < 2 * (r + 1) * den
  {
    (2 * num + den) / (2 * den)
  }

  /** p is exactly c / n * 100 (for n > 0). */
  predicate IsPercentage(p: real, c: int, n: int)
  {
    p * (n as real) == 100.0 * (c as real)
  }

  /** `c / n * 100` on exact rationals, for n > 0: the share of c out of n
      as a percentage. It is 100 exactly when c == n and 0 exactly when
      c == 0, and it stays within 0..100 while c <= n. */
  function Percentage(c: nat, n: nat): (p: real)
    requires n > 0
    ensures IsPercentage(p, c, n)
    ensures c <= n ==> 0.0 <= p <= 100.0
    ensures p == 100.0 <==> c == n
    ensures p == 0.0 <==> c == 0
  {
    var q := (c as real) / (n as real);
    assert q * (n as real) == c as real;
    assert c <= n ==> q <= 1.0;
    q * 100.0
  }

  /** Math.round(x) on an exact rational x: floor(x + 1/2). */
  function RoundReal(x: real): (r: int)
    ensures r as real <= x + 0.5 < r as real + 1.0
  {
    (x + 0.5).Floor
  }

  /** The characters matched by the regular-expression class `\s`, which
      are also the ones parseInt skips: ECMAScript WhiteSpace and
      LineTerminator. */
  predicate IsJsSpace(c: char)
  {
    c == '\t' || c == '\n' || c == '\U{000B}' || c == '\U{000C}' || c == '\r' || c == ' '
    || c == '\U{00A0}' || c == '\U{1680}' || ('\U{2000}' <= c <= '\U{200A}')
    || c == '\U{2028}' || c == '\U{2029}' || c == '\U{202F}' || c == '\U{205F}'
    || c == '\U{3000}' || c == '\U{FEFF}'
  }

  predicate IsDigit(c: char)
  {
    '0' <= c <= '9'
  }

  function DigitValue(c: char): nat
    requires IsDigit(c)
  {
    (c as int) - ('0' as int)
  }

  function DigitChar(d: nat): (c: char)
    requires d < 10
    ensures IsDigit(c) && DigitValue(c) == d
  {
    ['0', '1', '2', '3', '4', '5', '6', '7', '8', '9'][d]
  }

  /** The value of a string of decimal digits (most significant first). */
  function DigitsValue(s: string): (v: nat)
    requires forall i :: 0 <= i < |s| ==> IsDigit(s[i])
  {
    if s == [] then 0
    else 10 * DigitsValue(s[..|s| - 1]) + DigitValue(s[|s| - 1])
  }

  /** Decimal notation of a natural number, as JavaScript prints it. */
  function NatToString(n: nat): (s: string)
    ensures s != []
    ensures forall i :: 0 <= i < |s| ==> IsDigit(s[i])
    ensures |s| > 1 ==> s[0] != '0'
    decreases n
  {
    if n < 10 then [DigitChar(n)] else NatToString(n / 10) + [DigitChar(n % 10)]
  }

  /** Printing then reading the digits gives the number back. */
  lemma {:induction false} NatToStringRoundTrip(n: nat)
    ensures DigitsValue(NatToString(n)) == n
    decreases n
  {
    if n >= 10 {
      var s := NatToString(n);
      assert s[..|s| - 1] == NatToString(n / 10);
      NatToStringRoundTrip(n / 10);
    }
  }

  /** Decimal notation of an integer, with a leading '-' when negative. */
  function IntToString(n: int): (s: string)
    ensures s != []
  {
    if n < 0 then "-" + NatToString(-n) else NatToString(n)
  }

  /** Distinct numbers print differently, so routes built from them differ. */
  lemma NatToStringInjective(a: nat, b: nat)
    requires NatToString(a) == NatToString(b)
    ensures a == b
  {
    NatToStringRoundTrip(a);
    NatToStringRoundTrip(b);
  }

  /** Cancelling a positive factor from a strict inequality, as the
      rounding bounds in RoundPercent need. */
  lemma MulStrictlyOrdered(a: int, b: int, n: int)
    requires n > 0 && a * n < b * n
    ensures a < b
  {
  }

  /** r is Math.round(c / n * 100): the exact percentage 100c/n lies in
      [r - 1/2, r + 1/2). */
  predicate IsRoundedPercent(r: int, c: int, n: int)
  {
    2 * r * n <= 200 * c + n < 2 * (r + 1) * n
  }

  lemma PercentIsRounded(c: nat, n: nat)
    requires n > 0
    ensures IsRoundedPercent(RoundRatio(100 * c, n), c, n)
  {
  }

  /** A rounded percentage of c out of n (c <= n < 200) lies in 0..100; it
      is 100 exactly when c == n and 0 exactly when c == 0. With 200 or more
      items, n - 1 out of n already rounds up to 100. */
  lemma RoundPercent(c: nat, n: nat)
    requires 0 < n < 200 && c <= n
    ensures RoundRatio(100 * c, n) <= 100
    ensures RoundRatio(100 * c, n) == 100 <==> c == n
    ensures RoundRatio(100 * c, n) == 0 <==> c == 0
  {
    var r := RoundRatio(100 * c, n);
    var x := 2 * r * n;
    assert 2 * (r + 1) * n == x + 2 * n;
    assert x <= 200 * c + n < x + 2 * n;
    assert x < 202 * n;
    MulStrictlyOrdered(2 * r, 202, n);
    if c == n {
      assert (2 * r + 2) * n == x + 2 * n;
      MulStrictlyOrdered(201, 2 * r + 2, n);
    } else {
      assert x < 200 * n;
      MulStrictlyOrdered(2 * r, 200, n);
    }
    if c == 0 {
      assert x < 2 * n;
      MulStrictlyOrdered(2 * r, 2, n);
    } else {
      assert x > 0;
    }
  }

  /** The string with its leading `\s` characters removed (String.trimStart). */
  function TrimStart(s: string): (t: string)
    ensures |t| <= |s| && t == s[|s| - |t|..]
    ensures t != [] ==> !IsJsSpace(t[0])
    ensures forall i :: 0 <= i < |s| - |t| ==> IsJsSpace(s[i])
  {
    if s != [] && IsJsSpace(s[0]) then TrimStart(s[1..]) else s
  }

  /** The length of the longest run of decimal digits that starts s. */
  function DigitRun(s: string): (n: nat)
    ensures n <= |s|
    ensures forall i :: 0 <= i < n ==> IsDigit(s[i])
    ensures n < |s| ==> !IsDigit(s[n])
  {
    if s != [] && IsDigit(s[0]) then 1 + DigitRun(s[1..]) else 0
  }

  /** parseInt(s, 10): skip leading white space, read an optional sign and
      the longest run of digits; no digit at all gives NaN (None). */
  function ParseInt(s: string): (r: Option<int>)
  {
    var t := TrimStart(s);
    var signed := t != [] && (t[0] == '-' || t[0] == '+');
    var u := if signed then t[1..] else t;
    var n := DigitRun(u);
    var v: int := if n == 0 then 0 else DigitsValue(u[..n]);
    if n == 0 then None
    else if signed && t[0] == '-' then Some(-v)
    else Some(v)
  }

  lemma {:induction false} DigitRunOfDigits(d: string, rest: string)
    requires forall i :: 0 <= i < |d| ==> IsDigit(d[i])
    requires rest == [] || !IsDigit(rest[0])
    ensures DigitRun(d + rest) == |d|
  {
    if d != [] {
      assert (d + rest)[1..] == d[1..] + rest;
      DigitRunOfDigits(d[1..], rest);
    } else {
      assert d + rest == rest;
    }
  }

  lemma ParseUnsignedPrinted(n: nat, rest: string)
    requires rest == [] || !IsDigit(rest[0])
    ensures ParseInt(NatToString(n) + rest) == Some(n)
  {
    var d := NatToString(n);
    var s := d + rest;
    assert s[0] == d[0] && IsDigit(d[0]);
    assert !IsJsSpace(s[0]) && s[0] != '-' && s[0] != '+';
    assert TrimStart(s) == s;
    DigitRunOfDigits(d, rest);
    assert DigitRun(s) == |d|;
    NatToStringRoundTrip(n);
    assert s[..|d|] == d;
    assert DigitsValue(s[..|d|]) == n;
  }

  lemma ParseNegativePrinted(n: nat, rest: string)
    requires n > 0
    requires rest == [] || !IsDigit(rest[0])
    ensures ParseInt("-" + NatToString(n) + rest).Some?
    ensures ParseInt("-" + NatToString(n) + rest).value == -(n as int)
  {
    var d := NatToString(n);
    var u := d + rest;
    var s := "-" + d + rest;
    assert s == ['-'] + u;
    assert s[0] == '-' && s[1..] == u;
    assert !IsJsSpace('-');
    assert TrimStart(s) == s;
    DigitRunOfDigits(d, rest);
    assert DigitRun(u) == |d|;
    NatToStringRoundTrip(n);
    assert u[..|d|] == d;
    assert DigitsValue(u[..|d|]) == n;
  }

  /** Reading back a printed integer, possibly followed by text that does
      not start with a digit ("3abc"), gives the integer. */
  lemma ParseIntPrinted(n: int, rest: string)
    requires rest == [] || !IsDigit(rest[0])
    ensures ParseInt(IntToString(n) + rest) == Some(n)
  {
    var s := IntToString(n) + rest;
    if n < 0 {
      var m: nat := -n;
      assert s == "-" + NatToString(m) + rest;
      ParseNegativePrinted(m, rest);
      var r := ParseInt(s);
      assert r.Some? && r.value == n;
    } else {
      ParseUnsignedPrinted(n, rest);
    }
  }

  /** parseInt gives NaN exactly when no digit follows the leading white
      space and the optional sign. */
  lemma ParseIntNoDigits(s: string)
    ensures ParseInt(s).None? <==>
      var t := TrimStart(s);
      var u := if t != [] && (t[0] == '-' || t[0] == '+') then t[1..] else t;
      u == [] || !IsDigit(u[0])
  {
  }

  /** Time is counted in milliseconds since the epoch, as Date.now(). */
  const Day: int := 24 * 60 * 60 * 1000
  const Week: int := 7 * Day
}
