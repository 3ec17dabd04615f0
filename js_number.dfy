/**
 * The handful of JavaScript number operations the engine and the front end
 * rely on, stated over exact integers and reals: `Math.round`, `Math.min`,
 * `Math.max`, truncation by `parseInt`, the 32-bit `>>` operator, and the
 * decimal text produced by `toString` and read back by `parseInt`, and the
 * decimal literals that `parseFloat` and `Number` read from text.
 */
module JsNumber {
  import opened Wrappers

  /** `Math.round`: the nearest integer, halves rounded toward +infinity. */
  function Round(x: real): (r: int)
    ensures r as real - 0.5 <= x < r as real + 0.5
  {
    (x + 0.5).Floor
  }

  function Min(a: int, b: int): (r: int)
    ensures r <= a && r <= b && (r == a || r == b)
  {
    if a <= b then a else b
  }

  function Max(a: int, b: int): (r: int)
    ensures r >= a && r >= b && (r == a || r == b)
  {
    if a >= b then a else b
  }

  /** The integer part of `x`, toward zero (what `parseInt` keeps of a number). */
  function Trunc(x: real): (r: int)
    ensures 0.0 <= x ==> r as real <= x < r as real + 1.0
    ensures x < 0.0 ==> r as real - 1.0 < x <= r as real
  {
    if x >= 0.0 then x.Floor else -((-x).Floor)
  }

  function Pow2(n: nat): (r: nat)
    ensures r >= 1
  {
    if n == 0 then 1 else 2 * Pow2(n - 1)
  }

  lemma {:induction false} Pow2Add(a: nat, b: nat)
    ensures Pow2(a + b) == Pow2(a) * Pow2(b)
  {
    if a > 0 {
      Pow2Add(a - 1, b);
    }
  }

  const TWO_31: int := 0x8000_0000
  const TWO_32: int := 0x1_0000_0000

  /** ECMAScript ToInt32: wrap an integer into the signed 32-bit range. */
  function ToInt32(x: int): (r: int)
    ensures -TWO_31 <= r < TWO_31
    ensures -TWO_31 <= x < TWO_31 ==> r == x
  {
    if -TWO_31 <= x < TWO_31 then x else (x + TWO_31) % TWO_32 - TWO_31
  }

  lemma Pow2Of31()
    ensures Pow2(31) == TWO_31
  {
    assert Pow2(10) == 1024 && Pow2(1) == 2;
    Pow2Add(10, 21);
    Pow2Add(10, 11);
    Pow2Add(10, 1);
  }

  /** `x` halved `n` times, each time rounding down. */
  function Halve(x: int, n: nat): int
  {
    if n == 0 then x else Halve(x, n - 1) / 2
  }

  /**
   * `x >> s`: JavaScript converts `x` to a signed 32-bit integer, uses only
   * the low five bits of `s`, and shifts arithmetically (rounding down).
   */
  function ShiftRight(x: int, s: int): int
  {
    Halve(ToInt32(x), s % 32)
  }

  lemma MulMonotonic(a: int, b: int, c: int)
    requires a >= 0 && b <= c
    ensures a * b <= a * c
  {
    assert a * c - a * b == a * (c - b);
  }

  /** One more halving keeps the floor-division bounds, one power of two further. */
  lemma HalveStep(x: int, p: int, h: int, r: int)
    requires p >= 1 && p * h <= x < p * (h + 1)
    requires r == h / 2
    ensures (2 * p) * r <= x < (2 * p) * (r + 1)
  {
    assert 2 * r <= h <= 2 * r + 1;
    MulMonotonic(p, 2 * r, h);
    MulMonotonic(p, h + 1, 2 * r + 2);
    assert (2 * p) * r == p * (2 * r);
    assert (2 * p) * (r + 1) == p * (2 * r + 2);
  }

  /** Halving `n` times is floor division by `2^n`. */
  lemma {:induction false} HalveIsFloorDivision(x: int, n: nat)
    requires x >= 0
    ensures 0 <= Halve(x, n) <= x
    ensures Pow2(n) * Halve(x, n) <= x < Pow2(n) * (Halve(x, n) + 1)
  {
    if n > 0 {
      HalveIsFloorDivision(x, n - 1);
      HalveStep(x, Pow2(n - 1), Halve(x, n - 1), Halve(x, n));
    }
  }

  /** For a height that fits in 31 bits and a shift in 0..31, `>>` is floor division by `2^s`. */
  lemma ShiftRightIsFloorDivision(x: int, s: int)
    requires 0 <= x < TWO_31 && 0 <= s < 32
    ensures 0 <= ShiftRight(x, s) <= x
    ensures Pow2(s) * ShiftRight(x, s) <= x < Pow2(s) * (ShiftRight(x, s) + 1)
  {
    assert s % 32 == s;
    HalveIsFloorDivision(x, s);
  }

  // ----- decimal text -----

  predicate IsDigit(c: char) { '0' <= c <= '9' }

  function DigitChar(d: nat): (c: char)
    requires d < 10
    ensures IsDigit(c)
  {
    ['0', '1', '2', '3', '4', '5', '6', '7', '8', '9'][d]
  }

  function DigitValue(c: char): (d: nat)
    requires IsDigit(c)
    ensures d < 10
  {
    (c as int - '0' as int)
  }

  lemma DigitRoundTrip(d: nat)
    requires d < 10
    ensures DigitValue(DigitChar(d)) == d
  {
  }

  predicate AllDigits(s: string) { forall i :: 0 <= i < |s| ==> IsDigit(s[i]) }

  /** `toString` of a non-negative integer: its decimal digits, most significant first. */
  function NatToString(n: nat): (s: string)
    ensures |s| >= 1 && AllDigits(s)
  {
    if n < 10 then [DigitChar(n)] else NatToString(n / 10) + [DigitChar(n % 10)]
  }

  /** `toString` of an integer: a minus sign before the digits of a negative one. */
  function IntToString(i: int): (s: string)
    ensures |s| >= 1 && (IsDigit(s[0]) || s[0] == '-')
  {
    if i < 0 then "-" + NatToString(-i) else NatToString(i)
  }

  /** The value of a string of decimal digits. */
  function DigitsValue(s: string): nat
    requires AllDigits(s)
  {
    if s == [] then 0 else 10 * DigitsValue(s[..|s| - 1]) + DigitValue(s[|s| - 1])
  }

  lemma {:induction false} NatToStringValue(n: nat)
    ensures DigitsValue(NatToString(n)) == n
  {
    var s := NatToString(n);
    if n < 10 {
      DigitRoundTrip(n);
    } else {
      NatToStringValue(n / 10);
      DigitRoundTrip(n % 10);
      assert s[..|s| - 1] == NatToString(n / 10);
    }
  }

  /** The length of the longest prefix of `s` made of decimal digits. */
  function DigitPrefixLength(s: string): (k: nat)
    ensures k <= |s| && AllDigits(s[..k]) && (k == |s| || !IsDigit(s[k]))
  {
    if s == [] || !IsDigit(s[0]) then 0
    else
      var k := 1 + DigitPrefixLength(s[1..]);
      assert s[..k] == [s[0]] + s[1..][..k - 1];
      k
  }

  lemma {:induction false} DigitPrefixOfDigits(s: string)
    requires AllDigits(s)
    ensures DigitPrefixLength(s) == |s|
  {
    if s != [] {
      DigitPrefixOfDigits(s[1..]);
    }
  }

  /** Unsigned part of `parseInt`: the digits at the front, or NaN when there are none. */
  function ParseDigits(s: string): (r: Option<nat>)
  {
    var k := DigitPrefixLength(s);
    if k == 0 then None else Some(DigitsValue(s[..k]))
  }

  /**
   * `parseInt(s)` in base 10: leading white space is skipped, an optional
   * sign is read, then the longest run of digits; `None` stands for NaN.
   */
  function ParseInt(s: string): (r: Option<int>)
  {
    if s != [] && IsJsSpace(s[0]) then ParseInt(s[1..]) else ParseSigned(s)
  }

  /** `parseInt` after the leading white space: an optional sign, then the digits. */
  function ParseSigned(s: string): (r: Option<int>)
  {
    if s != [] && s[0] == '-' then
      (match ParseDigits(s[1..]) case Some(n) => Some(0 - n as int) case None => None)
    else if s != [] && s[0] == '+' then
      (match ParseDigits(s[1..]) case Some(n) => Some(n) case None => None)
    else
      (match ParseDigits(s) case Some(n) => Some(n) case None => None)
  }

  lemma ParseDigitsOfNatToString(n: nat)
    ensures ParseDigits(NatToString(n)) == Some(n)
  {
    var s := NatToString(n);
    DigitPrefixOfDigits(s);
    NatToStringValue(n);
    assert s[..|s|] == s;
  }

  lemma ParseSignedOfIntToString(i: int)
    ensures ParseSigned(IntToString(i)) == Some(i)
  {
    if i < 0 {
      var s := IntToString(i);
      assert s[0] == '-' && s[1..] == NatToString(-i);
      ParseDigitsOfNatToString(-i);
    } else {
      assert IsDigit(NatToString(i)[0]);
      ParseDigitsOfNatToString(i);
    }
  }

  /** `parseInt` reads back what `toString` wrote. */
  lemma ParseIntOfIntToString(i: int)
    ensures ParseInt(IntToString(i)) == Some(i)
  {
    assert !IsJsSpace(IntToString(i)[0]);
    ParseSignedOfIntToString(i);
  }

  /** Decimal text is injective: different integers print differently. */
  lemma IntToStringInjective(i: int, j: int)
    requires IntToString(i) == IntToString(j)
    ensures i == j
  {
    ParseIntOfIntToString(i);
    ParseIntOfIntToString(j);
  }

  // ----- number text: parseFloat and ToNumber -----

  /**
   * The characters that `parseInt`, `parseFloat` and `Number` skip around a
   * number: the white space and line terminators of ECMAScript.
   */
  predicate IsJsSpace(c: char)
  {
    || c == ' ' || c == '\t' || c == '\n' || c == '\r' || c == '\U{000B}' || c == '\U{000C}'
    || c == '\U{00A0}' || c == '\U{1680}' || '\U{2000}' <= c <= '\U{200A}'
    || c == '\U{2028}' || c == '\U{2029}' || c == '\U{202F}' || c == '\U{205F}'
    || c == '\U{3000}' || c == '\U{FEFF}'
  }

  /** `s` without its leading white space. */
  function TrimStart(s: string): (t: string)
    ensures |t| <= |s| && t == s[|s| - |t|..]
    ensures t == [] || !IsJsSpace(t[0])
  {
    if s != [] && IsJsSpace(s[0]) then TrimStart(s[1..]) else s
  }

  /** `s` without its trailing white space. */
  function TrimEnd(s: string): (t: string)
    ensures |t| <= |s| && t == s[..|t|]
    ensures t == [] || !IsJsSpace(t[|t| - 1])
  {
    if s != [] && IsJsSpace(s[|s| - 1]) then TrimEnd(s[..|s| - 1]) else s
  }

  /** Only white space is skipped in front. */
  lemma {:induction false} TrimStartSkipsSpace(s: string)
    ensures forall i :: 0 <= i < |s| - |TrimStart(s)| ==> IsJsSpace(s[i])
  {
    if s != [] && IsJsSpace(s[0]) {
      TrimStartSkipsSpace(s[1..]);
      forall i | 1 <= i < |s| - |TrimStart(s)| ensures IsJsSpace(s[i]) {
        assert s[i] == s[1..][i - 1];
      }
    }
  }

  /** Only white space is dropped at the end. */
  lemma {:induction false} TrimEndDropsSpace(s: string)
    ensures forall i :: |TrimEnd(s)| <= i < |s| ==> IsJsSpace(s[i])
  {
    if s != [] && IsJsSpace(s[|s| - 1]) {
      TrimEndDropsSpace(s[..|s| - 1]);
    }
  }

  function Pow10(n: nat): (r: nat)
    ensures r >= 1
  {
    if n == 0 then 1 else 10 * Pow10(n - 1)
  }

  /** `10^e` for a signed exponent. */
  function Scale10(e: int): real
  {
    if e >= 0 then Pow10(e) as real else 1.0 / Pow10(-e) as real
  }

  /** The length of an optional `+` or `-` at the front of `t`. */
  function SignLength(t: string): (k: nat)
    ensures k <= |t|
  {
    if t != [] && (t[0] == '+' || t[0] == '-') then 1 else 0
  }

  /** The exponent `e`/`E`, optional sign and digits at the front of `s`: its length and value. */
  function ExponentPart(s: string): (r: Option<(nat, int)>)
    ensures r.Some? ==> 2 <= r.value.0 <= |s|
  {
    if s == [] || (s[0] != 'e' && s[0] != 'E') then None
    else
      var j := 1 + SignLength(s[1..]);
      var k := DigitPrefixLength(s[j..]);
      if k == 0 then None
      else
        var m := DigitsValue(s[j..][..k]);
        Some((j + k, if j == 2 && s[1] == '-' then 0 - m as int else m as int))
  }

  /** The value of the digits after a decimal point. */
  function FractionValue(d: string): real
    requires AllDigits(d)
  {
    DigitsValue(d) as real / Pow10(|d|) as real
  }

  /** The digits after a decimal point at the front of `rest`: their count and value. */
  function FractionPart(rest: string): (f: (nat, real))
    ensures f.0 == DigitPrefixLength(rest)
  {
    var k2 := DigitPrefixLength(rest);
    (k2, FractionValue(rest[..k2]))
  }

  /**
   * The mantissa whose integer digits (`k1` of them, worth `ip`) are
   * followed by a `.` and the fraction `f`; at least one digit is needed in all.
   */
  function WithFraction(k1: nat, ip: real, f: (nat, real)): (r: Option<(nat, real)>)
    ensures r.Some? ==> r.value.0 == k1 + 1 + f.0
  {
    if k1 == 0 && f.0 == 0 then None else Some((k1 + 1 + f.0, ip + f.1))
  }

  /** Digits, then an optional `.` and digits, with at least one digit in all: its length and value. */
  function MantissaPart(s: string): (r: Option<(nat, real)>)
    ensures r.Some? ==> 1 <= r.value.0 <= |s|
  {
    var k1 := DigitPrefixLength(s);
    if k1 < |s| && s[k1] == '.' then WithFraction(k1, DigitsValue(s[..k1]) as real, FractionPart(s[k1 + 1..]))
    else if k1 == 0 then None
    else Some((k1, DigitsValue(s[..k1]) as real))
  }

  /** The exponent, if any, right after the mantissa at the front of `s`. */
  function ExponentAfter(s: string): (r: Option<(nat, int)>)
    ensures r.Some? ==> MantissaPart(s).Some? && MantissaPart(s).value.0 + r.value.0 <= |s|
  {
    if MantissaPart(s).None? then None else ExponentPart(s[MantissaPart(s).value.0..])
  }

  /** A mantissa and an optional exponent put together: the literal's length and value. */
  function Assemble(m: Option<(nat, real)>, e: Option<(nat, int)>): (r: Option<(nat, real)>)
    ensures r.Some? <==> m.Some?
    ensures r.Some? ==> r.value.0 == m.value.0 + (if e.Some? then e.value.0 else 0)
  {
    match m
    case None => None
    case Some((n, v)) =>
      match e
      case None => Some((n, v))
      case Some((k, x)) => Some((n + k, v * Scale10(x)))
  }

  /**
   * The longest unsigned decimal literal at the front of `s` (the mantissa,
   * then an optional exponent): its length and value.
   */
  function UnsignedDecimal(s: string): (r: Option<(nat, real)>)
    ensures r.Some? ==> 1 <= r.value.0 <= |s|
  {
    Assemble(MantissaPart(s), ExponentAfter(s))
  }

  /** A literal after its sign: the sign adds to the length and `-` negates the value. */
  function ApplySign(sign: string, u: Option<(nat, real)>): (r: Option<(nat, real)>)
    ensures r.Some? <==> u.Some?
    ensures r.Some? ==> r.value.0 == u.value.0 + |sign|
  {
    match u
    case None => None
    case Some((n, v)) => Some((n + |sign|, if sign == "-" then -v else v))
  }

  /** The longest decimal literal, with an optional sign, at the front of `s`. */
  function DecimalLiteral(s: string): (r: Option<(nat, real)>)
    ensures r.Some? ==> 1 <= r.value.0 <= |s|
  {
    var k := SignLength(s);
    ApplySign(s[..k], UnsignedDecimal(s[k..]))
  }

  /** The value of the longest decimal literal at the front of `t`, or NaN when there is none. */
  function LiteralValue(t: string): Option<real>
  {
    match DecimalLiteral(t)
    case Some((_, v)) => Some(v)
    case None => None
  }

  /** `parseFloat(s)`: leading white space is skipped, then the longest decimal literal is read; `None` stands for NaN. */
  function ParseFloatText(s: string): Option<real>
  {
    if s != [] && IsJsSpace(s[0]) then ParseFloatText(s[1..]) else LiteralValue(s)
  }

  /**
   * ToNumber of text with no white space in front: blank text is 0, and
   * otherwise the text without its trailing white space must be one decimal
   * literal.
   */
  function WholeLiteral(t: string): Option<real>
  {
    var u := TrimEnd(t);
    if u == [] then Some(0.0)
    else
      match DecimalLiteral(u)
      case Some((n, v)) => if n == |u| then Some(v) else None
      case None => None
  }

  /**
   * `Number(s)`, the ToNumber of text that `isNaN` applies: leading white
   * space is skipped and the rest must be blank or one literal; `None`
   * stands for NaN.
   */
  function TextToNumber(s: string): Option<real>
  {
    if s != [] && IsJsSpace(s[0]) then TextToNumber(s[1..]) else WholeLiteral(s)
  }

  lemma {:induction false} ParseFloatTrimmed(s: string)
    ensures ParseFloatText(s) == LiteralValue(TrimStart(s))
  {
    if s != [] && IsJsSpace(s[0]) {
      ParseFloatTrimmed(s[1..]);
    }
  }

  lemma {:induction false} NumberTrimmed(s: string)
    ensures TextToNumber(s) == WholeLiteral(TrimStart(s))
  {
    if s != [] && IsJsSpace(s[0]) {
      NumberTrimmed(s[1..]);
    }
  }

  /** What may follow a complete decimal literal without extending it. */
  predicate EndsLiteral(w: string)
  {
    w == [] || !(IsDigit(w[0]) || w[0] == '.' || w[0] == 'e' || w[0] == 'E')
  }

  lemma SliceOfAppend(x: string, w: string, n: nat)
    requires n <= |x|
    ensures (x + w)[n..] == x[n..] + w
  {
  }

  lemma {:induction false} DigitPrefixAppend(x: string, w: string)
    ensures DigitPrefixLength(x + w)
         == if DigitPrefixLength(x) < |x| then DigitPrefixLength(x) else |x| + DigitPrefixLength(w)
  {
    if x == [] {
      assert x + w == w;
    } else if IsDigit(x[0]) {
      assert (x + w)[1..] == x[1..] + w;
      DigitPrefixAppend(x[1..], w);
    }
  }

  lemma ExponentExtends(y: string, w: string)
    requires ExponentPart(y).Some? && ExponentPart(y).value.0 == |y| && EndsLiteral(w)
    ensures ExponentPart(y + w) == ExponentPart(y)
  {
    var j := 1 + SignLength(y[1..]);
    assert (y + w)[1..] == y[1..] + w;
    assert SignLength((y + w)[1..]) == SignLength(y[1..]);
    assert (y + w)[j..] == y[j..] + w;
    DigitPrefixAppend(y[j..], w);
    var k := DigitPrefixLength(y[j..]);
    assert (y[j..] + w)[..k] == y[j..][..k];
  }

  lemma FractionPartExtends(rest: string, w: string)
    requires DigitPrefixLength(rest) < |rest| || EndsLiteral(w)
    ensures FractionPart(rest + w) == FractionPart(rest)
  {
    DigitPrefixStays(rest, w);
  }

  /** A run of digits that is followed by something else, or by what cannot continue it, is not extended. */
  lemma DigitPrefixStays(x: string, w: string)
    requires DigitPrefixLength(x) < |x| || EndsLiteral(w)
    ensures DigitPrefixLength(x + w) == DigitPrefixLength(x)
    ensures (x + w)[..DigitPrefixLength(x)] == x[..DigitPrefixLength(x)]
  {
    var k := DigitPrefixLength(x);
    DigitPrefixAppend(x, w);
    if k == |x| && w != [] {
      assert !IsDigit(w[0]);
    }
    assert (x + w)[..k] == x[..k];
  }

  lemma MantissaExtends(x: string, w: string)
    requires MantissaPart(x).Some? && (MantissaPart(x).value.0 < |x| || EndsLiteral(w))
    ensures MantissaPart(x + w) == MantissaPart(x)
  {
    var k1 := DigitPrefixLength(x);
    DigitPrefixAppend(x, w);
    assert (x + w)[..k1] == x[..k1];
    if k1 < |x| {
      assert (x + w)[k1] == x[k1];
      if x[k1] == '.' {
        SliceOfAppend(x, w, k1 + 1);
        FractionPartExtends(x[k1 + 1..], w);
      }
    } else if w != [] {
      assert (x + w)[k1] == w[0];
    }
  }

  lemma ExponentAfterExtends(x: string, w: string)
    requires MantissaPart(x).Some? && EndsLiteral(w)
    requires MantissaPart(x).value.0 + (if ExponentAfter(x).Some? then ExponentAfter(x).value.0 else 0) == |x|
    ensures ExponentAfter(x + w) == ExponentAfter(x)
  {
    var n := MantissaPart(x).value.0;
    MantissaExtends(x, w);
    SliceOfAppend(x, w, n);
    if ExponentAfter(x).Some? {
      ExponentExtends(x[n..], w);
    } else {
      assert x[n..] + w == w;
    }
  }

  lemma UnsignedDecimalExtends(x: string, w: string)
    requires UnsignedDecimal(x).Some? && UnsignedDecimal(x).value.0 == |x| && EndsLiteral(w)
    ensures UnsignedDecimal(x + w) == UnsignedDecimal(x)
  {
    MantissaExtends(x, w);
    ExponentAfterExtends(x, w);
  }

  /**
   * `parseFloat` reads the longest literal: text after a complete decimal
   * literal (white space, a unit, a percent sign) does not change its value.
   */
  lemma DecimalLiteralExtends(x: string, w: string)
    requires DecimalLiteral(x).Some? && DecimalLiteral(x).value.0 == |x| && EndsLiteral(w)
    ensures DecimalLiteral(x + w) == DecimalLiteral(x)
  {
    var k := SignLength(x);
    assert SignLength(x + w) == k by {
      assert (x + w)[0] == x[0];
    }
    assert (x + w)[..k] == x[..k];
    assert (x + w)[k..] == x[k..] + w;
    UnsignedDecimalExtends(x[k..], w);
  }

  /** Trailing white space cannot extend a literal. */
  lemma TrimEndSplit(u: string)
    ensures u == TrimEnd(u) + u[|TrimEnd(u)|..]
    ensures EndsLiteral(u[|TrimEnd(u)|..])
  {
    var t := TrimEnd(u);
    var w := u[|t|..];
    TrimEndDropsSpace(u);
    if w != [] {
      assert w[0] == u[|t|];
      assert IsJsSpace(w[0]);
    }
  }

  /** Whatever `Number` reads from non-blank text, `parseFloat` reads too, with the same value. */
  lemma ParseFloatAgreesWithNumber(s: string)
    requires TextToNumber(s).Some? && TrimEnd(TrimStart(s)) != []
    ensures ParseFloatText(s) == TextToNumber(s)
  {
    ParseFloatTrimmed(s);
    NumberTrimmed(s);
    var u := TrimStart(s);
    var t := TrimEnd(u);
    TrimEndSplit(u);
    DecimalLiteralExtends(t, u[|t|..]);
  }

  /** A run of digits is a whole decimal literal worth its digits' value. */
  lemma DigitsLiteral(s: string)
    requires s != [] && AllDigits(s)
    ensures DecimalLiteral(s) == Some((|s|, DigitsValue(s) as real))
  {
    assert SignLength(s) == 0 && s[..0] == [] && s[0..] == s;
    assert MantissaPart(s) == Some((|s|, DigitsValue(s) as real)) by {
      DigitPrefixOfDigits(s);
      assert s[..|s|] == s;
    }
    assert ExponentAfter(s) == None by {
      assert s[|s|..] == [];
    }
  }


  lemma TrimEndOfDigit(s: string)
    requires s != [] && IsDigit(s[|s| - 1])
    ensures TrimEnd(s) == s
  {
  }

  /**
   * `parseFloat` reads a decimal numeral as its value, whatever follows it
   * that cannot continue a literal (a unit, a percent sign, white space).
   */
  lemma ParseFloatOfNatToString(n: nat, w: string)
    requires EndsLiteral(w)
    ensures ParseFloatText(NatToString(n) + w) == Some(n as real)
  {
    var s := NatToString(n);
    assert (s + w)[0] == s[0];
    DigitsLiteral(s);
    DecimalLiteralExtends(s, w);
    NatToStringValue(n);
  }

  /** `parseFloat` skips a white-space character at the front of text. */
  lemma ParseFloatSkipsSpace(c: char, s: string)
    requires IsJsSpace(c)
    ensures ParseFloatText([c] + s) == ParseFloatText(s)
  {
    assert ([c] + s)[1..] == s;
  }

  /** `Number` skips a white-space character at the front of text. */
  lemma NumberSkipsSpace(c: char, s: string)
    requires IsJsSpace(c)
    ensures TextToNumber([c] + s) == TextToNumber(s)
  {
    assert ([c] + s)[1..] == s;
  }

  /** `Number` reads a decimal numeral as its value, so `isNaN` is false for it. */
  lemma NumberOfNatToString(n: nat)
    ensures TextToNumber(NatToString(n)) == Some(n as real)
  {
    var s := NatToString(n);
    assert TextToNumber(s) == WholeLiteral(s) by {
      assert IsDigit(s[0]);
    }
    TrimEndOfDigit(s);
    DigitsLiteral(s);
    NatToStringValue(n);
  }
}
