/**
  Exact fixed-point numbers for the scores and counts the scripts read from text.

  Python reads them with `int(...)` and `float(...)`; the model reads the same decimal literals
  into an exact `Decimal` (an integer mantissa and a count of fractional digits), so that
  comparisons and one-decimal rounding need no floating point.
 */
module Numbers {
  import opened Results
  import opened Text

  function Pow10(n: nat): (r: nat)
    ensures r >= 1
  {
    if n == 0 then 1 else 10 * Pow10(n - 1)
  }

  lemma {:induction false} Pow10Add(a: nat, b: nat)
    ensures Pow10(a + b) == Pow10(a) * Pow10(b)
    decreases a
  {
    if a > 0 {
      Pow10Add(a - 1, b);
    }
  }

  function Abs(x: int): nat {
    if x < 0 then -x else x
  }

  /** `a // p` on naturals. */
  function Quot(a: nat, p: nat): nat
    requires p >= 1
  {
    a / p
  }

  /** `a % p` on naturals. */
  function Rem(a: nat, p: nat): nat
    requires p >= 1
  {
    a % p
  }

  /** The division identity, kept apart from the two functions so that it is in scope only where it is used. */
  lemma QuotRem(a: nat, p: nat)
    requires p >= 1
    ensures Rem(a, p) < p && a == Quot(a, p) * p + Rem(a, p)
  {
  }

  lemma MulAtLeast(t: int, m: int)
    requires t >= 1 && m > 0
    ensures t * m >= m
  {
    var u := t - 1;
    assert t * m == u * m + m;
    assert u * m >= 0;
  }

  /** Quotient and remainder are determined by the division identity. */
  /** Taking `m` off `n` takes one off the quotient and leaves the remainder. */
  lemma DivShift(n: int, m: int)
    requires m > 0 && n >= m
    ensures n / m == (n - m) / m + 1 && n % m == (n - m) % m
  {
    var q, r := (n - m) / m, (n - m) % m;
    assert n - m == q * m + r;
    assert n == (q + 1) * m + r;
    DivModUnique(n, m, q + 1, r);
  }

  lemma DivModUnique(n: int, m: int, k: int, r: int)
    requires m > 0 && 0 <= r < m && n == k * m + r
    ensures n / m == k && n % m == r
  {
    var q := n / m;
    var s := n % m;
    assert n == q * m + s;
    if q > k {
      assert (q - k) * m == r - s;
      MulAtLeast(q - k, m);
    } else if q < k {
      assert (k - q) * m == s - r;
      MulAtLeast(k - q, m);
    }
  }

  lemma CrossMultiply(x: real, px: real, y: real, py: real)
    requires px > 0.0 && py > 0.0
    ensures x / px < y / py <==> x * py < y * px
  {
    assert x / px * (px * py) == x * py;
    assert y / py * (px * py) == y * px;
  }

  lemma CastMul(a: int, b: int)
    ensures (a * b) as real == (a as real) * (b as real)
  {
  }

  lemma FracScale(m: real, p: real, q: real)
    requires p > 0.0 && q > 0.0
    ensures (m * q) / (p * q) == m / p
  {
  }

  lemma FracAdd(x: real, y: real, p: real)
    requires p > 0.0
    ensures x / p + y / p == (x + y) / p
  {
  }

  lemma FracMul(x: real, p: real, y: real, q: real)
    requires p > 0.0 && q > 0.0
    ensures (x / p) * (y / q) == (x * y) / (p * q)
  {
  }

  predicate IsDigit(c: char) {
    '0' <= c <= '9'
  }

  predicate AllDigits(s: string) {
    forall k | 0 <= k < |s| :: IsDigit(s[k])
  }

  function DigitValue(c: char): nat
    requires IsDigit(c)
  {
    (c as int) - ('0' as int)
  }

  function DigitChar(d: nat): (c: char)
    requires d < 10
    ensures IsDigit(c) && DigitValue(c) == d
  {
    (('0' as int) + d) as char
  }

  /** The number a string of decimal digits denotes. */
  function DigitsValue(s: string): nat
    requires AllDigits(s)
    decreases |s|
  {
    if s == [] then 0 else DigitsValue(s[..|s| - 1]) * 10 + DigitValue(s[|s| - 1])
  }

  lemma Distrib(x: int, p: int, y: int, d: int)
    ensures (x * p + y) * 10 + d == x * (p * 10) + (y * 10 + d)
  {
  }

  lemma AllDigitsAppend(a: string, b: string)
    requires AllDigits(a) && AllDigits(b)
    ensures AllDigits(a + b)
  {
    forall k | 0 <= k < |a + b|
      ensures IsDigit((a + b)[k])
    {
      if k < |a| {
        assert (a + b)[k] == a[k];
      } else {
        assert (a + b)[k] == b[k - |a|];
      }
    }
  }

  lemma {:induction false} DigitsValueAppend(a: string, b: string)
    requires AllDigits(a) && AllDigits(b)
    ensures AllDigits(a + b)
    ensures DigitsValue(a + b) == DigitsValue(a) * Pow10(|b|) + DigitsValue(b)
    decreases |b|
  {
    AllDigitsAppend(a, b);
    if b == [] {
      assert a + b == a;
    } else {
      var b' := b[..|b| - 1];
      assert (a + b)[..|a + b| - 1] == a + b';
      assert (a + b)[|a + b| - 1] == b[|b| - 1];
      DigitsValueAppend(a, b');
      assert b[..|b| - 1] == b';
      var x, p, y, d := DigitsValue(a), Pow10(|b'|), DigitsValue(b'), DigitValue(b[|b| - 1]);
      assert DigitsValue(a + b) == DigitsValue(a + b') * 10 + d;
      assert DigitsValue(a + b') == x * p + y;
      assert DigitsValue(b) == y * 10 + d;
      assert Pow10(|b|) == p * 10;
      Distrib(x, p, y, d);
    }
  }

  /** `str(n)` for a natural number. */
  function NatToString(n: nat): (s: string)
    ensures s != [] && AllDigits(s)
    decreases n
  {
    if n < 10 then [DigitChar(n)] else NatToString(n / 10) + [DigitChar(n % 10)]
  }

  lemma {:induction false} NatToStringValue(n: nat)
    ensures DigitsValue(NatToString(n)) == n
    decreases n
  {
    var s := NatToString(n);
    if n >= 10 {
      NatToStringValue(n / 10);
      assert s[..|s| - 1] == NatToString(n / 10);
    } else {
      assert s[..|s| - 1] == [];
    }
  }

  /** `n` written with exactly `width` digits (leading zeros kept, higher digits dropped). */
  function PadDigits(n: nat, width: nat): (s: string)
    ensures |s| == width && AllDigits(s)
    decreases width
  {
    if width == 0 then "" else PadDigits(n / 10, width - 1) + [DigitChar(n % 10)]
  }

  lemma {:induction false} PadDigitsValue(n: nat, width: nat)
    ensures DigitsValue(PadDigits(n, width)) == n % Pow10(width)
    decreases width
  {
    if width > 0 {
      var s := PadDigits(n, width);
      PadDigitsValue(n / 10, width - 1);
      assert s[..|s| - 1] == PadDigits(n / 10, width - 1);
      var p := Pow10(width - 1);
      var q := n / 10;
      var d := n % 10;
      var qq := Quot(q, p);
      var qr := Rem(q, p);
      QuotRem(q, p);
      assert q % p == qr by { DivModUnique(q, p, qq, qr); }
      StepMod(n, q, d, p, qq, qr);
      assert DigitsValue(s) == DigitsValue(PadDigits(n / 10, width - 1)) * 10 + d;
    }
  }

  lemma StepMod(n: int, q: int, d: int, p: int, qq: int, qr: int)
    requires p >= 1 && 0 <= d < 10 && 0 <= qr < p
    requires n == 10 * q + d && q == qq * p + qr
    ensures n % (10 * p) == qr * 10 + d
  {
    assert n == qq * (10 * p) + (10 * qr + d);
    DivModUnique(n, 10 * p, qq, 10 * qr + d);
  }

  /**
    Python's `int(s)` for base-ten text: surrounding whitespace, an optional sign, then one or
    more digits; anything else raises ValueError (`None`).
   */
  function ParseInt(s: string): (r: Option<int>)
  {
    ParseSignedInt(Strip(s))
  }

  /** `int()` of a text that has already been stripped. */
  function ParseSignedInt(t: string): (r: Option<int>)
  {
    var negative := t != [] && t[0] == '-';
    var body := if t != [] && (t[0] == '-' || t[0] == '+') then t[1..] else t;
    if body != [] && AllDigits(body) then
      Some(if negative then -(DigitsValue(body) as int) else DigitsValue(body))
    else None
  }

  /** `str(n)` for an integer. */
  function IntToString(n: int): (s: string)
    ensures s != []
  {
    if n < 0 then "-" + NatToString(-n) else NatToString(n)
  }

  lemma ParseNatText(n: nat)
    ensures ParseSignedInt(NatToString(n)) == Some(n)
  {
    var s := NatToString(n);
    NatToStringValue(n);
    assert IsDigit(s[0]);
  }

  lemma ParseNegatedNatText(n: nat)
    ensures ParseSignedInt("-" + NatToString(n)) == Some(-(n as int))
  {
    var s := "-" + NatToString(n);
    NatToStringValue(n);
    assert s[0] == '-' && s[1..] == NatToString(n);
  }

  /** `int()` reads back what `str()` writes, whitespace around it included. */
  lemma ParseIntOfString(n: int, w1: string, w2: string)
    requires AllSpace(w1) && AllSpace(w2)
    ensures ParseInt(w1 + IntToString(n) + w2) == Some(n)
  {
    IntStringFramed(n);
    StripFramed(w1, IntToString(n), w2);
    ParseSignedIntOfString(n);
  }

  /** `str()` of an integer starts and ends with a character that is not whitespace. */
  lemma IntStringFramed(n: int)
    ensures var s := IntToString(n); !IsSpace(s[0]) && !IsSpace(s[|s| - 1])
  {
    var u := NatToString(Abs(n));
    assert IsDigit(u[0]) && IsDigit(u[|u| - 1]);
    if n < 0 {
      assert IntToString(n) == "-" + u;
    }
  }

  /** Without whitespace around it, `int()` reads back what `str()` writes. */
  lemma ParseSignedIntOfString(n: int)
    ensures ParseSignedInt(IntToString(n)) == Some(n)
  {
    if n < 0 {
      ParseNegatedNatText(-n);
    } else {
      ParseNatText(n);
    }
  }

  /** A decimal number: `mantissa / 10^scale`. */
  datatype Decimal = Decimal(mantissa: int, scale: nat)

  ghost function Value(d: Decimal): real {
    (d.mantissa as real) / (Pow10(d.scale) as real)
  }

  /** `a < b` on the numbers the decimals denote. */
  predicate Less(a: Decimal, b: Decimal) {
    a.mantissa * Pow10(b.scale) < b.mantissa * Pow10(a.scale)
  }

  lemma LessIsValueLess(a: Decimal, b: Decimal)
    ensures Less(a, b) <==> Value(a) < Value(b)
  {
    var pa := Pow10(a.scale) as real;
    var pb := Pow10(b.scale) as real;
    CrossMultiply(a.mantissa as real, pa, b.mantissa as real, pb);
    CastMul(a.mantissa, Pow10(b.scale));
    CastMul(b.mantissa, Pow10(a.scale));
  }

  /** The sign of a decimal, as an integer comparison. */
  lemma SignOfValue(d: Decimal)
    ensures Value(d) > 0.0 <==> d.mantissa > 0
    ensures Value(d) == 0.0 <==> d.mantissa == 0
  {
  }

  /** `a + b` at the larger of the two scales. */
  function Add(a: Decimal, b: Decimal): Decimal {
    if a.scale <= b.scale then
      var k: nat := b.scale - a.scale;
      Decimal(a.mantissa * Pow10(k) + b.mantissa, b.scale)
    else
      var k: nat := a.scale - b.scale;
      Decimal(a.mantissa + b.mantissa * Pow10(k), a.scale)
  }

  /** The sum is exact. */
  lemma AddValue(a: Decimal, b: Decimal)
    ensures Value(Add(a, b)) == Value(a) + Value(b)
  {
    if a.scale <= b.scale {
      var k: nat := b.scale - a.scale;
      ScaleUp(a, k);
      SameScaleAdd(a.mantissa * Pow10(k), b.mantissa, b.scale);
    } else {
      var k: nat := a.scale - b.scale;
      ScaleUp(b, k);
      SameScaleAdd(a.mantissa, b.mantissa * Pow10(k), a.scale);
    }
  }

  lemma ScaleUp(d: Decimal, k: nat)
    ensures Value(Decimal(d.mantissa * Pow10(k), d.scale + k)) == Value(d)
  {
    Pow10Add(d.scale, k);
    ScaleFraction(d.mantissa, Pow10(d.scale), Pow10(k));
  }

  lemma ScaleFraction(m: int, p: nat, q: nat)
    requires p >= 1 && q >= 1
    ensures ((m * q) as real) / ((p * q) as real) == (m as real) / (p as real)
  {
    CastMul(m, q);
    CastMul(p, q);
    FracScale(m as real, p as real, q as real);
  }

  lemma SameScaleAdd(x: int, y: int, scale: nat)
    ensures Value(Decimal(x + y, scale)) == Value(Decimal(x, scale)) + Value(Decimal(y, scale))
  {
    FracAdd(x as real, y as real, Pow10(scale) as real);
  }

  /** `a * b`. */
  function Mul(a: Decimal, b: Decimal): Decimal {
    Decimal(a.mantissa * b.mantissa, a.scale + b.scale)
  }

  /** The product is exact. */
  lemma MulValue(a: Decimal, b: Decimal)
    ensures Value(Mul(a, b)) == Value(a) * Value(b)
  {
    var pa, pb := Pow10(a.scale) as real, Pow10(b.scale) as real;
    MulFraction(a, b);
    FracMul(a.mantissa as real, pa, b.mantissa as real, pb);
  }

  /** The value of the product as one fraction. */
  lemma MulFraction(a: Decimal, b: Decimal)
    ensures Value(Mul(a, b)) == ((a.mantissa as real) * (b.mantissa as real)) / ((Pow10(a.scale) as real) * (Pow10(b.scale) as real))
  {
    Pow10Add(a.scale, b.scale);
    CastMul(Pow10(a.scale), Pow10(b.scale));
    CastMul(a.mantissa, b.mantissa);
  }

  /**
    Python's `float(s)` restricted to decimal literals: surrounding whitespace, an optional sign,
    digits with at most one decimal point and at least one digit (`5`, `-12.33`, `5.`, `.5`).
   */
  function ParseDecimal(s: string): (r: Option<Decimal>)
  {
    ParseSignedDecimal(Strip(s))
  }

  /** `float()` of a text that has already been stripped. */
  function ParseSignedDecimal(t: string): (r: Option<Decimal>)
  {
    var negative := t != [] && t[0] == '-';
    var body := if t != [] && (t[0] == '-' || t[0] == '+') then t[1..] else t;
    match ParseUnsigned(body)
    case None => None
    case Some(u) => Some(if negative then Decimal(-u.mantissa, u.scale) else u)
  }

  /** The unsigned part of a decimal literal: digits, at most one point, at least one digit. */
  function ParseUnsigned(body: string): (r: Option<Decimal>)
    ensures r.Some? ==> r.value.mantissa >= 0
  {
    ParseParts(Split(body, '.'))
  }

  /** The pieces of the unsigned part around its points: one or two runs of digits. */
  function ParseParts(parts: seq<string>): (r: Option<Decimal>)
    requires |parts| >= 1
    ensures r.Some? ==> r.value.mantissa >= 0
  {
    if |parts| > 2 then None
    else
      var whole := parts[0];
      var fraction := if |parts| == 2 then parts[1] else "";
      if AllDigits(whole) && AllDigits(fraction) && |whole| + |fraction| > 0 then
        AllDigitsAppend(whole, fraction);
        Some(Decimal(DigitsValue(whole + fraction), |fraction|))
      else None
  }

  /** The decimal literal `str` would print for `d`, with exactly `d.scale` fractional digits. */
  function DecimalToString(d: Decimal): (s: string)
    ensures s != []
  {
    var u := UnsignedToString(Abs(d.mantissa), d.scale);
    if d.mantissa < 0 then "-" + u else u
  }

  /** `a / 10^scale` written out: the whole digits, then a point and `scale` fractional digits. */
  function UnsignedToString(a: nat, scale: nat): (s: string)
    ensures s != []
  {
    var p := Pow10(scale);
    NatToString(Quot(a, p)) + (if scale == 0 then "" else "." + PadDigits(Rem(a, p), scale))
  }

  lemma NoPointInDigits(s: string)
    requires AllDigits(s)
    ensures '.' !in s
  {
    forall k | 0 <= k < |s|
      ensures s[k] != '.'
    {
      assert IsDigit(s[k]);
    }
  }

  /** The unsigned part of a literal splits at its point into the whole digits and the fraction. */
  lemma SplitLiteral(whole: string, point: bool, fraction: string)
    requires AllDigits(whole) && AllDigits(fraction)
    ensures Split(whole + (if point then "." + fraction else ""), '.')
      == if point then [whole, fraction] else [whole]
  {
    NoPointInDigits(whole);
    if point {
      NoPointInDigits(fraction);
      assert whole + ("." + fraction) == whole + ['.'] + fraction;
      SplitAtSeparator(whole, fraction, '.');
      SplitNoSeparator(fraction, '.');
    } else {
      assert whole + "" == whole;
      SplitNoSeparator(whole, '.');
    }
  }

  /** The unsigned part of a literal reads its digits, whole and fraction together, as the mantissa. */
  lemma ParseUnsignedLiteral(whole: string, point: bool, fraction: string)
    requires whole != [] && AllDigits(whole) && AllDigits(fraction)
    requires point || fraction == []
    ensures AllDigits(whole + fraction)
    ensures ParseUnsigned(whole + (if point then "." + fraction else ""))
      == Some(Decimal(DigitsValue(whole + fraction), |fraction|))
  {
    AllDigitsAppend(whole, fraction);
    SplitLiteral(whole, point, fraction);
    if !point {
      assert whole + fraction == whole;
    }
  }

  /** Reading back a written-out unsigned decimal gives its digits and scale. */
  lemma ParseUnsignedOfString(a: nat, scale: nat)
    ensures ParseUnsigned(UnsignedToString(a, scale)) == Some(Decimal(a, scale))
  {
    var p := Pow10(scale);
    var whole := NatToString(Quot(a, p));
    var fraction := if scale == 0 then "" else PadDigits(Rem(a, p), scale);
    assert UnsignedToString(a, scale) == whole + (if scale != 0 then "." + fraction else "");
    ParseUnsignedLiteral(whole, scale != 0, fraction);
    DigitsValueAppend(whole, fraction);
    NatToStringValue(Quot(a, p));
    QuotRem(a, p);
    if scale == 0 {
      assert p == 1;
      assert whole + fraction == whole;
    } else {
      PadDigitsValue(Rem(a, p), scale);
      DivModUnique(Rem(a, p), p, 0, Rem(a, p));
    }
  }

  /** The written-out form starts with a digit and ends with one. */
  lemma UnsignedToStringEnds(a: nat, scale: nat)
    ensures var s := UnsignedToString(a, scale); IsDigit(s[0]) && IsDigit(s[|s| - 1])
  {
    var p := Pow10(scale);
    var whole := NatToString(Quot(a, p));
    var s := UnsignedToString(a, scale);
    assert s[0] == whole[0];
    if scale == 0 {
      assert s[|s| - 1] == whole[|whole| - 1];
    } else {
      var fraction := PadDigits(Rem(a, p), scale);
      assert s[|s| - 1] == fraction[|fraction| - 1];
    }
  }

  /** A stripped text that starts with a digit has no sign: `float()` reads it as it is. */
  lemma ParseUnsignedText(body: string, u: Decimal)
    requires body != [] && IsDigit(body[0])
    requires ParseUnsigned(body) == Some(u)
    ensures ParseSignedDecimal(body) == Some(u)
  {
  }

  /** A minus sign in front of such a text negates the mantissa. */
  lemma ParseNegatedText(body: string, u: Decimal)
    requires ParseUnsigned(body) == Some(u)
    ensures ParseSignedDecimal("-" + body) == Some(Decimal(-u.mantissa, u.scale))
  {
    var t := "-" + body;
    assert t[0] == '-' && t[1..] == body;
  }

  /** Whitespace around a text does not change what `float()` reads from it. */
  lemma ParseFramed(w1: string, t: string, w2: string)
    requires AllSpace(w1) && AllSpace(w2)
    requires t == [] || (!IsSpace(t[0]) && !IsSpace(t[|t| - 1]))
    ensures ParseDecimal(w1 + t + w2) == ParseSignedDecimal(t)
  {
    StripFramed(w1, t, w2);
  }

  /** Reading back a printed decimal gives the same decimal, whitespace around it included. */
  lemma ParseDecimalOfString(d: Decimal, w1: string, w2: string)
    requires AllSpace(w1) && AllSpace(w2)
    ensures ParseDecimal(w1 + DecimalToString(d) + w2) == Some(d)
  {
    var a := Abs(d.mantissa);
    var u := UnsignedToString(a, d.scale);
    var s := DecimalToString(d);
    UnsignedToStringEnds(a, d.scale);
    ParseUnsignedOfString(a, d.scale);
    if d.mantissa < 0 {
      assert s == "-" + u;
      assert s[|s| - 1] == u[|u| - 1];
      ParseNegatedText(u, Decimal(a, d.scale));
    } else {
      assert s == u;
      ParseUnsignedText(u, Decimal(a, d.scale));
    }
    ParseFramed(w1, s, w2);
  }

  /**
    `round(x, 1)` of Python 2, in tenths: the nearest multiple of one tenth, a tie going away
    from zero.
   */
  function Round1(d: Decimal): int {
    if d.scale == 0 then 10 * d.mantissa
    else
      var t: int := HalfUp(Abs(d.mantissa), Pow10(d.scale - 1));
      if d.mantissa < 0 then -t else t
  }

  /** `a / unit` rounded to the nearest whole number, a half rounded up. */
  function HalfUp(a: nat, unit: nat): nat
    requires unit >= 1
  {
    if 2 * Rem(a, unit) >= unit then Quot(a, unit) + 1 else Quot(a, unit)
  }

  lemma HalfUpNearest(a: nat, unit: nat)
    requires unit >= 1
    ensures 2 * Abs(a - HalfUp(a, unit) * unit) <= unit
    ensures 2 * Abs(a - HalfUp(a, unit) * unit) == unit ==> HalfUp(a, unit) * unit > a
  {
    var q := Quot(a, unit);
    QuotRem(a, unit);
    if 2 * Rem(a, unit) >= unit {
      assert HalfUp(a, unit) * unit == q * unit + unit;
    } else {
      assert HalfUp(a, unit) * unit == q * unit;
    }
  }

  /**
    `Round1(d)` tenths are within half a tenth of `d` (the distance is measured in units of the
    last digit of `d`), and on a tie they lie farther from zero than `d`.
   */
  lemma Round1Nearest(d: Decimal)
    ensures d.scale == 0 ==> Round1(d) == 10 * d.mantissa
    ensures d.scale >= 1 ==> 2 * Abs(d.mantissa - Round1(d) * Pow10(d.scale - 1)) <= Pow10(d.scale - 1)
    ensures d.scale >= 1 && 2 * Abs(d.mantissa - Round1(d) * Pow10(d.scale - 1)) == Pow10(d.scale - 1) ==>
              Abs(Round1(d) * Pow10(d.scale - 1)) > Abs(d.mantissa)
  {
    if d.scale >= 1 {
      RoundedNearest(d.mantissa, Pow10(d.scale - 1), Round1(d));
    }
  }

  /** `r` whole units, the signed rounding of `m` to units, are within half a unit of `m`, farther from zero on a tie. */
  lemma RoundedNearest(m: int, unit: nat, r: int)
    requires unit >= 1
    requires r == if m < 0 then -(HalfUp(Abs(m), unit) as int) else HalfUp(Abs(m), unit)
    ensures 2 * Abs(m - r * unit) <= unit
    ensures 2 * Abs(m - r * unit) == unit ==> Abs(r * unit) > Abs(m)
  {
    var p := HalfUp(Abs(m), unit) * unit;
    HalfUpNearest(Abs(m), unit);
    assert r * unit == (if m < 0 then -p else p);
    SignedNearest(m, p, r * unit, unit);
  }

  /** Nearness of a magnitude carries over to the signed value when the sign is put back. */
  lemma SignedNearest(m: int, p: int, r: int, unit: int)
    requires r == (if m < 0 then -p else p)
    requires 2 * Abs(Abs(m) - p) <= unit
    requires 2 * Abs(Abs(m) - p) == unit ==> p > Abs(m)
    ensures 2 * Abs(m - r) <= unit
    ensures 2 * Abs(m - r) == unit ==> Abs(r) > Abs(m)
  {
  }

  /** A fraction `num / den`; the model's stand-in for a floating-point mean or median. */
  datatype Fraction = Fraction(num: int, den: nat)
}
