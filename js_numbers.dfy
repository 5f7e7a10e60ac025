/** The JavaScript number operations the handlers use: `parseInt(s, 10)`, the `|| d`
    fallback on its result, printing an integer in a template string, and
    `Math.floor(Math.random() * n)`. Numbers are exact integers here: NaN is `None`,
    and -0 is 0 (both are falsy and compare the same way in every use below). */
module JsNumbers {
  import opened JsStrings

  datatype Option<T> = None | Some(value: T)

  predicate IsDigit(c: char) {
    '0' <= c <= '9'
  }

  predicate AllDigits(d: string) {
    forall i :: 0 <= i < |d| ==> IsDigit(d[i])
  }

  function DigitValue(c: char): nat
    requires IsDigit(c)
  {
    c as int - '0' as int
  }

  function DigitChar(n: nat): (c: char)
    requires n < 10
    ensures IsDigit(c) && DigitValue(c) == n
  {
    ('0' as int + n) as char
  }

  /** The length of the longest prefix of `s` made of decimal digits. */
  function DigitRun(s: string): (n: nat)
    ensures n <= |s|
    ensures AllDigits(s[..n])
    ensures n < |s| ==> !IsDigit(s[n])
  {
    if |s| > 0 && IsDigit(s[0]) then
      var k := DigitRun(s[1..]);
      assert s[..k + 1] == [s[0]] + s[1..][..k];
      k + 1
    else 0
  }

  /** The value of a string of decimal digits, most significant first. */
  function DigitsValue(d: string): nat
    requires AllDigits(d)
  {
    if d == [] then 0 else 10 * DigitsValue(d[..|d| - 1]) + DigitValue(d[|d| - 1])
  }

  /** The longest run of decimal digits at the start of `u`, read as a number; NaN
      (`None`) when `u` does not start with a digit. */
  function ParseDigits(u: string): (r: Option<int>)
    ensures r.None? <==> u == [] || !IsDigit(u[0])
    ensures r.Some? ==> r.value >= 0
  {
    var n := DigitRun(u);
    assert n > 0 ==> u[..n][0] == u[0];
    if n == 0 then None else Some(DigitsValue(u[..n]))
  }

  /** Whether a number starts at the beginning of `t`: a digit, or a sign and a digit. */
  predicate StartsNumber(t: string) {
    || (|t| > 0 && IsDigit(t[0]))
    || (|t| > 1 && (t[0] == '-' || t[0] == '+') && IsDigit(t[1]))
  }

  /** `parseInt(s, 10)`: skip leading whitespace, take an optional sign, then read the
      longest run of decimal digits. The result is NaN (`None`) exactly when no number
      starts after the whitespace, and it is negative only after a minus sign. */
  function ParseInt(s: string): (r: Option<int>)
    ensures r.None? <==> !StartsNumber(TrimStart(s))
    ensures r.Some? && r.value < 0 ==> TrimStart(s)[0] == '-'
  {
    ParseSigned(TrimStart(s))
  }

  /** `parseInt` once the leading whitespace is skipped: an optional sign, then digits. */
  function ParseSigned(t: string): (r: Option<int>)
    ensures r.None? <==> !StartsNumber(t)
    ensures r.Some? && r.value < 0 ==> t[0] == '-'
  {
    if |t| > 0 && t[0] == '-' then
      match ParseDigits(t[1..])
      case None => None
      case Some(v) => Some(-v)
    else if |t| > 0 && t[0] == '+' then ParseDigits(t[1..])
    else ParseDigits(t)
  }

  /** `parseInt(x, 10)` where `x` may be `undefined` (a missing argument): `undefined`
      is first turned into the string "undefined", which is NaN. */
  function ParseArg(x: Option<string>): (r: Option<int>)
    ensures x.None? ==> r.None?
    ensures x.Some? ==> r == ParseInt(x.value)
  {
    TrimStartKeeps("undefined");
    match x
    case None => ParseInt("undefined")
    case Some(s) => ParseInt(s)
  }

  /** `parseInt(...) || d`: NaN and zero, both falsy, fall back to `d`. */
  function OrElse(v: Option<int>, d: int): (r: int)
    ensures r == d || v == Some(r)
    ensures v.Some? && v.value != 0 ==> r == v.value
    ensures v == None || v == Some(0) ==> r == d
  {
    if v.Some? && v.value != 0 then v.value else d
  }

  /** Decimal digits of a natural number, as a template string prints it. */
  function NatString(n: nat): (s: string)
    ensures |s| >= 1 && AllDigits(s)
    ensures n == 0 <==> s == "0"
    ensures n > 0 ==> s[0] != '0'
  {
    if n < 10 then [DigitChar(n)] else NatString(n / 10) + [DigitChar(n % 10)]
  }

  /** An integer as a template string prints it: a minus sign exactly for negatives,
      then the decimal digits of the magnitude. */
  function IntString(n: int): (s: string)
    ensures |s| >= 1
    ensures s[0] == '-' <==> n < 0
    ensures AllDigits(if n < 0 then s[1..] else s)
    ensures n == 0 <==> s == "0"
    ensures n < 0 ==> |s| >= 2
    ensures n != 0 ==> s[if n < 0 then 1 else 0] != '0'
  {
    if n < 0 then "-" + NatString(-n) else NatString(n)
  }

  lemma {:induction false} NatStringValue(n: nat)
    ensures DigitsValue(NatString(n)) == n
  {
    if n >= 10 {
      var s := NatString(n);
      assert s[..|s| - 1] == NatString(n / 10);
      NatStringValue(n / 10);
    }
  }

  lemma {:induction false} DigitRunOf(d: string, rest: string)
    requires AllDigits(d)
    requires rest == [] || !IsDigit(rest[0])
    ensures DigitRun(d + rest) == |d|
    decreases |d|
  {
    if d == [] {
      assert d + rest == rest;
    } else {
      assert (d + rest)[0] == d[0];
      assert (d + rest)[1..] == d[1..] + rest;
      DigitRunOf(d[1..], rest);
    }
  }

  /** The digit run of `d + rest` is `d` when `rest` does not start with a digit. */
  lemma ParseDigitsStops(d: string, rest: string)
    requires |d| > 0 && AllDigits(d)
    requires rest == [] || !IsDigit(rest[0])
    ensures ParseDigits(d + rest) == Some(DigitsValue(d))
  {
    DigitRunOf(d, rest);
    assert (d + rest)[..|d|] == d;
  }

  lemma TrimStartKeeps(s: string)
    requires s != [] && !IsSpace(s[0])
    ensures TrimStart(s) == s
  {
  }

  /** Reading back what a template string prints: `parseInt(String(n), 10) == n`. */
  lemma ParseIntString(n: int)
    ensures ParseInt(IntString(n)) == Some(n)
  {
    if n < 0 {
      ParseIntStringNeg(n);
    } else {
      ParseIntStringNat(n);
    }
  }

  /** Helper for `ParseIntString`: the digits of a natural number read back. */
  lemma ParseDigitsNat(m: nat)
    ensures ParseDigits(NatString(m)) == Some(m)
  {
    var d := NatString(m);
    NatStringValue(m);
    ParseDigitsStops(d, []);
    assert d + [] == d;
  }

  /** Helper for `ParseIntString`, non-negative case. */
  lemma ParseIntStringNat(m: nat)
    ensures ParseInt(IntString(m)) == Some(m)
  {
    var d := NatString(m);
    ParseDigitsNat(m);
    assert IntString(m) == d;
    assert IsDigit(d[0]);
    TrimStartKeeps(d);
    assert d[0] != '-' && d[0] != '+';
  }

  /** Helper for `ParseIntString`, negative case. */
  lemma ParseIntStringNeg(n: int)
    requires n < 0
    ensures ParseInt(IntString(n)) == Some(n)
  {
    var m: nat := -n;
    var d := NatString(m);
    ParseDigitsNat(m);
    var s := "-" + d;
    assert s == IntString(n);
    TrimStartKeeps(s);
    assert s[0] == '-' && s[1..] == d;
    assert ParseSigned(s) == Some(n);
  }

  /** After the whitespace, `parseInt` reads an explicit sign and then the digits: a
      plus sign gives their value, a minus sign its negation. */
  lemma ParseSignedSign(u: string)
    ensures ParseSigned("+" + u) == ParseDigits(u)
    ensures ParseDigits(u).Some? ==> ParseSigned("-" + u) == Some(-ParseDigits(u).value)
  {
    assert ("+" + u)[0] == '+' && ("+" + u)[1..] == u;
    assert ("-" + u)[0] == '-' && ("-" + u)[1..] == u;
  }

  /** The same through the leading whitespace: `parseInt(w + '+' + u, 10)` reads the
      digits at the start of `u`. */
  lemma ParseIntPlus(w: string, u: string)
    requires AllSpace(w)
    ensures ParseInt(w + ("+" + u)) == ParseDigits(u)
  {
    ParseSignedSign(u);
    ParseIntAfterSpace(w, "+" + u);
  }

  /** `parseInt(w + '-' + u, 10)` negates the digits at the start of `u`. */
  lemma ParseIntMinus(w: string, u: string)
    requires AllSpace(w)
    requires ParseDigits(u).Some?
    ensures ParseInt(w + ("-" + u)) == Some(-ParseDigits(u).value)
  {
    MinusDigits(u, ParseDigits(u).value);
    ParseIntAfterSpace(w, "-" + u);
  }

  /** Helper for `ParseIntMinus`: a minus sign negates the digits' value. */
  lemma MinusDigits(u: string, v: int)
    requires ParseDigits(u) == Some(v)
    ensures ParseSigned("-" + u) == Some(-v)
  {
    ParseSignedSign(u);
  }

  /** After leading whitespace, a text that starts with a non-whitespace character is
      parsed as it stands. */
  lemma ParseIntAfterSpace(w: string, t: string)
    requires AllSpace(w)
    requires t != [] && !IsSpace(t[0])
    ensures ParseInt(w + t) == ParseSigned(t)
  {
    ParseIntSkipsSpace(w, t);
    TrimStartKeeps(t);
  }

  /** `parseInt` skips leading whitespace. */
  lemma ParseIntSkipsSpace(w: string, s: string)
    requires AllSpace(w)
    ensures ParseInt(w + s) == ParseInt(s)
  {
    TrimStartSkips(w, s);
  }

  /** `parseInt` stops at the first character that is not a digit: whatever follows the
      digits is ignored. */
  lemma ParseIntStopsAtNonDigit(d: string, rest: string)
    requires |d| > 0 && AllDigits(d)
    requires rest == [] || !IsDigit(rest[0])
    ensures ParseInt(d + rest) == Some(DigitsValue(d))
  {
    assert (d + rest)[0] == d[0];
    TrimStartKeeps(d + rest);
    ParseDigitsStops(d, rest);
  }

  /** A string without any decimal digit parses to NaN. */
  lemma ParseIntNoDigit(s: string)
    requires forall i :: 0 <= i < |s| ==> !IsDigit(s[i])
    ensures ParseInt(s) == None
  {
    var t := TrimStart(s);
    assert t == s[|s| - |t|..];
    assert |t| > 0 ==> t[0] == s[|s| - |t|];
    assert |t| > 1 ==> t[1] == s[|s| - |t| + 1];
    assert !StartsNumber(t);
  }

  lemma ParseSingleDigit(c: char)
    requires IsDigit(c)
    ensures ParseInt([c]) == Some(DigitValue(c))
  {
    var d := [c];
    assert d + [] == d;
    assert DigitsValue(d) == DigitValue(c) by {
      assert d[..0] == [];
    }
    ParseIntStopsAtNonDigit(d, []);
  }

  /** The value of `Math.random()`: a number in [0, 1). */
  type Draw = u: real | 0.0 <= u < 1.0

  /** `Math.floor(Math.random() * n)`: an index below `n`. */
  function RandomIndex(u: Draw, n: nat): (k: nat)
    requires n > 0
    ensures k < n
  {
    assert u * n as real < n as real;
    (u * n as real).Floor
  }

  /** Every index is reached by the draws in an interval of width 1/n, so the choice is
      uniform: `RandomIndex(u, n) == k` exactly when k/n <= u < (k+1)/n. */
  lemma RandomIndexUniform(u: Draw, n: nat, k: nat)
    requires n > 0
    ensures RandomIndex(u, n) == k <==> (k as real) / (n as real) <= u < ((k + 1) as real) / (n as real)
  {
    var m := n as real;
    var x := u * m;
    DivLeq(k as real, u, m);
    DivLeq((k + 1) as real, u, m);
    assert RandomIndex(u, n) == x.Floor;
  }

  /** Multiplying by a positive number keeps the order. */
  lemma DivLeq(a: real, b: real, m: real)
    requires m > 0.0
    ensures a / m <= b <==> a <= b * m
    ensures b < a / m <==> b * m < a
  {
    assert a / m * m == a;
    if a / m <= b {
      assert (b - a / m) * m >= 0.0;
    } else {
      assert (a / m - b) * m > 0.0;
    }
  }
}
