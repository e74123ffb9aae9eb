/** Numbers read from a Modbus slave.

    The registers are put together from bytes, and a pattern of 32 or 64 bits is decoded bit by bit.  Floating-point
    values are reals here: the routine adds up powers of two, and up to rounding that is what it means.

    `Computed` is what the routine computes, `Ieee` is the value of section 3.4 of IEEE 754-2008, which infinities and
    non-numbers do not have.  The two agree exactly on the normal numbers.  On its way into the routine a pattern is
    an `int` first; the bits above the pattern that this brings in do no harm. */
module Float {
  import opened Wrappers

  /** 2 to the power of `n`. */
  function Pow(n: nat): (p: nat)
    ensures p > 0
  {
    if n == 0 then 1 else 2 * Pow(n - 1)
  }

  /** `pow(2.0, k)`. */
  function Pow2(k: int): (p: real)
    ensures p > 0.0
    decreases if k < 0 then -k else k
  {
    if k == 0 then 1.0 else if k > 0 then 2.0 * Pow2(k - 1) else Pow2(k + 1) / 2.0
  }

  lemma Pow2Step(k: int)
    ensures Pow2(k + 1) == 2.0 * Pow2(k)
  {
  }

  lemma {:induction false} Pow2Inverse(n: nat)
    ensures Pow2(0 - n) * Pow(n) as real == 1.0
    decreases n
  {
    if n > 0 {
      Pow2Inverse(n - 1);
      Pow2Step(0 - n);
      var x, y := Pow2(0 - n), Pow(n - 1) as real;
      assert Pow(n) as real == 2.0 * y;
      assert x * (2.0 * y) == (2.0 * x) * y;
    }
  }

  lemma {:induction false} Pow2Grows(j: int, k: int)
    requires j <= k
    ensures Pow2(j) <= Pow2(k)
    decreases k - j
  {
    if j < k {
      Pow2Grows(j, k - 1);
      Pow2Step(k - 1);
    }
  }

  // ---------------------------------------------------------------- the formats

  /** The binary interchange formats of section 3.4 of IEEE 754-2008. */
  datatype Format = Single | Double {
    function Mantissa(): nat { if Single? then 23 else 52 }
    function Exponent(): nat { if Single? then 8 else 11 }
    function Bias(): nat { if Single? then 127 else 1023 }
  }

  function Div(a: nat, p: nat): nat
    requires p > 0
  {
    a / p
  }

  function Mod(a: nat, p: nat): (r: nat)
    requires p > 0
    ensures r < p
  {
    a % p
  }

  /** `number >> n`. */
  function Shifted(number: nat, n: nat): nat {
    Div(number, Pow(n))
  }

  function ExponentField(f: Format, number: nat): nat {
    Mod(Shifted(number, f.Mantissa()), Pow(f.Exponent()))
  }

  function Fraction(f: Format, number: nat): nat {
    Mod(number, Pow(f.Mantissa()))
  }

  function Sign(f: Format, number: nat): nat {
    Shifted(number, f.Mantissa() + f.Exponent()) % 2
  }

  function Signed(sign: nat, x: real): real {
    if sign != 0 then -x else x
  }

  /** `1.t` times 2 to the power of `k`, `t` being a fraction of `m`. */
  function Magnitude(k: int, t: nat, m: nat): real
    requires m > 0
  {
    Pow2(k) * (1.0 + t as real / m as real)
  }

  /** The value that the standard gives to a pattern: none to infinities and NaNs. */
  function Ieee(f: Format, number: nat): Option<real> {
    var e, t, m := ExponentField(f, number), Fraction(f, number), Pow(f.Mantissa());
    if e == Pow(f.Exponent()) - 1 then None
    else if e == 0 then Some(Signed(Sign(f, number), Pow2(1 - f.Bias()) * (t as real / m as real)))
    else Some(Signed(Sign(f, number), Magnitude(e - f.Bias(), t, m)))
  }

  // ---------------------------------------------------------------- the routine

  /** The first `i` bits of the fraction. */
  function Leading(f: Format, number: nat, i: nat): nat
    requires i <= f.Mantissa()
  {
    Shifted(Fraction(f, number), f.Mantissa() - i)
  }

  lemma DivMod(a: nat, p: nat)
    requires p > 0
    ensures a == p * Div(a, p) + Mod(a, p)
  {
  }

  lemma NextMultiple(p: nat, x: nat, y: nat)
    requires x < y
    ensures p * x + p <= p * y
  {
    assert p * x + p == p * (x + 1);
    Scaled(p, x + 1, y);
  }

  lemma Scaled(p: nat, x: nat, y: nat)
    requires x <= y
    ensures p * x <= p * y
  {
  }

  /** Quotient and remainder are determined by what they make. */
  lemma Unique(p: nat, q: nat, r: nat, q1: nat, r1: nat)
    requires p * q + r == p * q1 + r1 && r < p && r1 < p
    ensures q == q1 && r == r1
  {
    if q < q1 {
      NextMultiple(p, q, q1);
    } else if q1 < q {
      NextMultiple(p, q1, q);
    }
  }

  lemma Quotient(t: nat, p: nat, q: nat, r: nat)
    requires p > 0 && t == p * q + r && r < p
    ensures Div(t, p) == q && Mod(t, p) == r
  {
    DivMod(t, p);
    hide Div, Mod;
    Unique(p, q, r, Div(t, p), Mod(t, p));
  }

  lemma HalfOf(t: nat, p: nat)
    requires p > 0
    ensures Div(t, p) == 2 * Div(t, 2 * p) + Div(t, p) % 2
  {
    hide Div, Mod;
    var q, r := Div(t, 2 * p), Mod(t, 2 * p);
    DivMod(t, 2 * p);
    assert t == p * (2 * q) + r by {
      Doubled(p, q);
    }
    if r < p {
      Quotient(t, p, 2 * q, r);
    } else {
      assert t == p * (2 * q + 1) + (r - p) by {
        OneMore(p, 2 * q);
      }
      Quotient(t, p, 2 * q + 1, r - p);
    }
  }

  lemma Doubled(p: nat, q: nat)
    ensures 2 * p * q == p * (2 * q)
  {
  }

  lemma OneMore(p: nat, q: nat)
    ensures p * (q + 1) == p * q + p
  {
  }

  /** The bits below bit `n` do not depend on what stands above. */
  lemma BitBelow(number: nat, n: nat, k: nat)
    requires k < n
    ensures Shifted(Mod(number, Pow(n)), k) % 2 == Shifted(number, k) % 2
  {
    hide Div, Mod;
    var p, h := Pow(k), Pow(n - k - 1);
    PowSum(k, n - k);
    assert Pow(n) == p * (2 * h);
    hide Pow;
    DivMod(number, Pow(n));
    BitUnder(number, p, h, Div(number, Pow(n)), Mod(number, Pow(n)));
  }

  lemma BitUnder(number: nat, p: nat, h: nat, q: nat, t: nat)
    requires p > 0 && number == p * (2 * h) * q + t
    ensures Div(t, p) % 2 == Div(number, p) % 2
  {
    hide Div, Mod;
    var a, r := Div(t, p), Mod(t, p);
    DivMod(t, p);
    Rearranged(p, h, q, a);
    var x := h * q;
    Quotient(number, p, 2 * x + a, r);
    EvenPlus(x, a);
  }

  lemma EvenPlus(x: nat, a: nat)
    ensures (2 * x + a) % 2 == a % 2
  {
  }

  lemma Rearranged(p: nat, h: nat, q: nat, a: nat)
    ensures p * (2 * h) * q + p * a == p * (2 * (h * q) + a)
  {
    assert p * (2 * h) * q == p * (2 * (h * q));
  }

  lemma {:induction false} PowSum(a: nat, b: nat)
    ensures Pow(a + b) == Pow(a) * Pow(b)
    decreases b
  {
    if b > 0 {
      PowSum(a, b - 1);
      assert Pow(a + b) == 2 * Pow(a + (b - 1)) && Pow(b) == 2 * Pow(b - 1);
      hide Pow;
      TwiceRight(Pow(a), Pow(b - 1));
    }
  }

  lemma TwiceRight(x: nat, y: nat)
    ensures x * (2 * y) == 2 * (x * y)
  {
  }

  lemma LeadingStep(f: Format, number: nat, i: nat)
    requires i < f.Mantissa()
    ensures Leading(f, number, i + 1) == 2 * Leading(f, number, i) + Shifted(number, f.Mantissa() - i - 1) % 2
  {
    var n := f.Mantissa();
    BitBelow(number, n, n - i - 1);
    HalfOf(Mod(number, Pow(n)), Pow(n - i - 1));
    assert Pow(n - i) == 2 * Pow(n - i - 1);
    hide Div, Mod, Pow;
  }

  /** One more bit of the fraction is added to the sum. */
  lemma TotalStep(f: Format, number: nat, i: nat, total: real)
    requires i < f.Mantissa() && total == Leading(f, number, i) as real * Pow2(0 - i)
    ensures total + (Shifted(number, f.Mantissa() - i - 1) % 2) as real * Pow2(0 - i - 1)
         == Leading(f, number, i + 1) as real * Pow2(0 - i - 1)
  {
    hide Leading, Shifted, Pow2, Div, Mod, Pow;
    LeadingStep(f, number, i);
    Pow2Step(0 - i - 1);
    var l, b := Leading(f, number, i), Shifted(number, f.Mantissa() - i - 1) % 2;
    BitAdded(total, l, b, Pow2(0 - i), Pow2(0 - i - 1));
  }

  lemma BitAdded(total: real, l: int, b: int, y: real, x: real)
    requires y == 2.0 * x && total == l as real * y
    ensures total + b as real * x == (2 * l + b) as real * x
  {
    assert (2 * l + b) as real == 2.0 * l as real + b as real;
    Distributes(l as real, b as real, x);
  }

  lemma Distributes(l: real, b: real, x: real)
    ensures (2.0 * l + b) * x == l * (2.0 * x) + b * x
  {
  }

  /** What the routine returns. */
  function Computed(f: Format, number: nat): real {
    Signed(Sign(f, number), Magnitude(ExponentField(f, number) - f.Bias(), Fraction(f, number), Pow(f.Mantissa())))
  }

  lemma TotalWhole(f: Format, number: nat)
    ensures Leading(f, number, f.Mantissa()) as real * Pow2(0 - f.Mantissa())
         == Fraction(f, number) as real / Pow(f.Mantissa()) as real
  {
    var n: int := f.Mantissa();
    assert Pow(0) == 1;
    Quotient(Fraction(f, number), 1, Fraction(f, number), 0);
    Pow2Inverse(n);
    hide Pow, Pow2, Div, Mod;
    var t, x, p := Fraction(f, number) as real, Pow2(0 - n), Pow(n) as real;
    DividedBy(t, x, p);
  }

  lemma DividedBy(t: real, x: real, p: real)
    requires p > 0.0 && x * p == 1.0
    ensures t * x == t / p
  {
    assert (t * x) * p == t * (x * p);
  }

  method ConvertNumberToFloat(number: nat, isDoublePrecision: bool) returns (value: real)
    requires number < 0x1_0000_0000_0000_0000
    ensures value == Computed(if isDoublePrecision then Double else Single, number)
  {
    hide Pow, Pow2, Leading, Sign, ExponentField, Fraction, Shifted;
    var f := if isDoublePrecision then Double else Single;
    var mantissaShift := f.Mantissa();
    var sign := Sign(f, number);
    var exponent := ExponentField(f, number) - f.Bias();
    var power, total := -1, 0.0;
    LeadingNone(f, number);
    for i := 0 to mantissaShift
      invariant power == 0 - i - 1
      invariant total == Leading(f, number, i) as real * Pow2(0 - i)
    {
      TotalStep(f, number, i, total);
      var bit := Shifted(number, mantissaShift - i - 1) % 2;
      total := total + bit as real * Pow2(power);
      power := power - 1;
    }
    TotalWhole(f, number);
    var m := Pow2(exponent) * (total + 1.0);
    value := if sign != 0 then -m else m;
  }

  lemma LeadingNone(f: Format, number: nat)
    ensures Leading(f, number, 0) == 0
  {
    Quotient(Fraction(f, number), Pow(f.Mantissa()), 0, Fraction(f, number));
  }

  // ---------------------------------------------------------------- what it computes

  /** The patterns of normal numbers: the exponent field is neither 0 nor all ones. */
  predicate Normal(f: Format, number: nat) {
    ExponentField(f, number) != 0 && ExponentField(f, number) != Pow(f.Exponent()) - 1
  }

  /** The routine computes the value of the standard exactly for the normal numbers: on zeros and subnormal numbers it
      computes another one, and infinities and NaNs, which have no value, it turns into finite numbers. */
  lemma ExactlyNormal(f: Format, number: nat)
    ensures Ieee(f, number) == Some(Computed(f, number)) <==> Normal(f, number)
  {
    ExponentPow(f);
    if ExponentField(f, number) == 0 {
      hide Pow, Pow2, Sign, ExponentField, Fraction;
      var t := Fraction(f, number) as real / Pow(f.Mantissa()) as real;
      FractionBelowOne(f, number);
      Pow2Step(0 - f.Bias());
      var x := Pow2(0 - f.Bias());
      assert x * (1.0 + t) > 2.0 * x * t by {
        assert x * (1.0 + t) - 2.0 * x * t == x * (1.0 - t);
        Positive(x, 1.0 - t);
      }
    }
  }

  lemma ExponentPow(f: Format)
    ensures Pow(f.Exponent()) - 1 > 0
  {
    assert Pow(f.Exponent()) == 2 * Pow(f.Exponent() - 1);
  }

  /** The input for an infinity: the standard gives it no value, the routine gives it 2 to the power 128. */
  lemma InfinityIsFinite()
    ensures Ieee(Single, 0x7F80_0000) == None
    ensures Computed(Single, 0x7F80_0000) == Pow2(128)
  {
    var number, m := 0x7F80_0000, Pow(23);
    PowSmall();
    assert number == m * 255 + 0;
    hide Div, Mod, Pow, Pow2;
    Quotient(number, m, 255, 0);
    Quotient(255, Pow(8), 0, 255);
    Quotient(number, Pow(31), 0, number);
    Quotient(0, 2, 0, 0);
  }

  lemma PowSmall()
    ensures Pow(8) == 0x100 && Pow(23) == 0x80_0000 && Pow(31) == 0x8000_0000
  {
    assert Pow(4) == 16;
    PowSum(4, 4);
    PowSum(8, 8);
    PowSum(16, 4);
    assert Pow(3) == 8;
    PowSum(20, 3);
    PowSum(23, 8);
  }

  lemma Positive(x: real, y: real)
    requires x > 0.0 && y > 0.0
    ensures x * y > 0.0
  {
  }

  lemma FractionBelowOne(f: Format, number: nat)
    ensures 0.0 <= Fraction(f, number) as real / Pow(f.Mantissa()) as real < 1.0
  {
    hide Fraction, Pow;
    var t, p := Fraction(f, number), Pow(f.Mantissa());
    FractionSmall(f, number);
    Below(t as real, p as real);
  }

  lemma Below(t: real, p: real)
    requires 0.0 <= t < p
    ensures 0.0 <= t / p < 1.0
  {
    var q := t / p;
    assert q * p == t;
  }

  /** A pattern without a sign is made of its exponent field and its fraction. */
  lemma Fields(f: Format, number: nat)
    requires number < Pow(f.Mantissa() + f.Exponent())
    ensures Sign(f, number) == 0
    ensures number == Pow(f.Mantissa()) * ExponentField(f, number) + Fraction(f, number)
  {
    hide Div, Mod, Pow;
    var m, x := Pow(f.Mantissa()), Pow(f.Exponent());
    PowSum(f.Mantissa(), f.Exponent());
    Quotient(number, Pow(f.Mantissa() + f.Exponent()), 0, number);
    DivMod(number, m);
    var q := Div(number, m);
    if q >= x {
      Scaled(m, x, q);
    }
    Quotient(q, x, 0, q);
  }

  lemma FieldsOrdered(f: Format, a: nat, b: nat)
    requires a < b < Pow(f.Mantissa() + f.Exponent())
    ensures Sign(f, a) == 0 && Sign(f, b) == 0
    ensures var ea, eb := ExponentField(f, a), ExponentField(f, b);
            ea < eb || (ea == eb && Fraction(f, a) < Fraction(f, b))
  {
    hide Sign, Pow, ExponentField, Fraction;
    Fields(f, a);
    Fields(f, b);
    FractionSmall(f, b);
    FieldOrder(a, b, Pow(f.Mantissa()), ExponentField(f, a), ExponentField(f, b), Fraction(f, a), Fraction(f, b));
  }

  /** On the patterns without a sign the value grows with the pattern. */
  lemma StrictlyIncreasing(f: Format, a: nat, b: nat)
    requires a < b < Pow(f.Mantissa() + f.Exponent())
    ensures Computed(f, a) < Computed(f, b)
  {
    hide Sign, Pow, Magnitude, ExponentField, Fraction;
    FieldsOrdered(f, a, b);
    FractionSmall(f, a);
    FractionSmall(f, b);
    Larger(Pow(f.Mantissa()), ExponentField(f, a) - f.Bias(), ExponentField(f, b) - f.Bias(), Fraction(f, a),
           Fraction(f, b));
  }

  lemma Larger(m: nat, j: int, k: int, s: nat, t: nat)
    requires s < m && t < m && (j < k || (j == k && s < t))
    ensures Magnitude(j, s, m) < Magnitude(k, t, m)
  {
    if j == k {
      hide Pow2;
      Monotone(Pow2(j), s as real, t as real, m as real);
    } else {
      Pow2Step(j);
      Pow2Grows(j + 1, k);
      hide Pow2;
      Below(s as real, m as real);
      Below(t as real, m as real);
      OctaveApart(Pow2(j), Pow2(k), s as real / m as real, t as real / m as real);
    }
  }

  lemma FractionSmall(f: Format, number: nat)
    ensures Fraction(f, number) < Pow(f.Mantissa())
  {
    hide Pow;
  }

  lemma FieldOrder(a: nat, b: nat, m: nat, ea: nat, eb: nat, ta: nat, tb: nat)
    requires a < b && a == m * ea + ta && b == m * eb + tb && tb < m
    ensures ea < eb || (ea == eb && ta < tb)
  {
    if eb < ea {
      NextMultiple(m, eb, ea);
    }
  }

  lemma Monotone(x: real, s: real, t: real, m: real)
    requires x > 0.0 && m > 0.0 && s < t
    ensures x * (1.0 + s / m) < x * (1.0 + t / m)
  {
    var a, b := s / m, t / m;
    assert a * m == s && b * m == t;
    Divided(s, t, m);
    Positive(x, b - a);
    assert x * (1.0 + b) - x * (1.0 + a) == x * (b - a);
  }

  lemma Divided(s: real, t: real, m: real)
    requires m > 0.0 && s < t
    ensures s / m < t / m
  {
  }

  lemma OctaveApart(x: real, y: real, s: real, t: real)
    requires x > 0.0 && y >= 2.0 * x && 0.0 <= s < 1.0 && 0.0 <= t
    ensures x * (1.0 + s) < y * (1.0 + t)
  {
    Positive(x, 1.0 - s);
    assert x * (1.0 + s) == 2.0 * x - x * (1.0 - s);
    assert y * (1.0 + t) >= y by {
      assert y * (1.0 + t) == y + y * t;
    }
  }

  // ---------------------------------------------------------------- from the registers

  type Byte = b: nat | b < 256

  const READ_HOLDING_REGISTER := 3
  const WRITE_SINGLE_REGISTER := 6

  datatype SlaveType = Analog | Ieee32 | Digital | OtherType

  /** A sum of shifted bytes as a C `int`, which wraps around at 32 bits. */
  function Int32(w: int): (r: int)
    ensures -0x8000_0000 <= r < 0x8000_0000
  {
    (w + 0x8000_0000) % 0x1_0000_0000 - 0x8000_0000
  }

  /** A `long` passed as an `unsigned long`. */
  function Unsigned64(i: int): nat
    requires -0x8000_0000_0000_0000 <= i < 0x8000_0000_0000_0000
  {
    if i < 0 then i + 0x1_0000_0000_0000_0000 else i
  }

  /** The bytes from `i` on as one number, the highest first. */
  function BigEndian(b: seq<Byte>): (w: nat)
    ensures |b| == 0 ==> w == 0
  {
    if b == [] then 0 else BigEndian(b[..|b| - 1]) * 256 + b[|b| - 1]
  }

  lemma BigEndianTwo(b: seq<Byte>)
    requires |b| == 2
    ensures BigEndian(b) == b[0] as int * 256 + b[1] as int < 0x10000
  {
    var c := b[..1];
    assert c[..0] == [] && c[0] == b[0];
    assert BigEndian(c) == BigEndian([]) * 256 + b[0];
  }

  lemma BigEndianFour(b: seq<Byte>)
    requires |b| == 4
    ensures BigEndian(b)
            == b[0] as int * 0x100_0000 + b[1] as int * 0x1_0000 + b[2] as int * 0x100 + b[3] as int < 0x1_0000_0000
  {
    var d := b[..3];
    var c := d[..2];
    assert c == b[..2];
    BigEndianTwo(c);
    assert BigEndian(d) == BigEndian(c) * 256 + d[2];
  }

  lemma PowValues()
    ensures Pow(8) == 256 && Pow(23) == 0x80_0000 && Pow(31) == 0x8000_0000
  {
    assert Pow(4) == 16;
    PowSum(4, 4);
    PowSum(8, 8);
    PowSum(16, 4);
    assert Pow(3) == 8;
    PowSum(20, 3);
    PowSum(23, 8);
  }

  /** What stands above the lowest 32 bits makes no difference, so the sign extension makes none. */
  lemma HighBitsIgnored(w: nat, k: nat)
    ensures Computed(Single, w + 0x1_0000_0000 * k) == Computed(Single, w)
  {
    PowValues();
    hide Pow, Magnitude, Div, Mod;
    LowFraction(w, k);
    LowExponent(w, k);
    LowSign(w, k);
  }

  lemma LowFraction(w: nat, k: nat)
    ensures Mod(w + 0x1_0000_0000 * k, 0x80_0000) == Mod(w, 0x80_0000)
  {
    hide Div, Mod;
    DivMod(w, 0x80_0000);
    Quotient(w + 0x1_0000_0000 * k, 0x80_0000, Div(w, 0x80_0000) + 512 * k, Mod(w, 0x80_0000));
  }

  lemma LowExponent(w: nat, k: nat)
    ensures Mod(Div(w + 0x1_0000_0000 * k, 0x80_0000), 256) == Mod(Div(w, 0x80_0000), 256)
  {
    assert Div(w + 0x1_0000_0000 * k, 0x80_0000) == Div(w, 0x80_0000) + 512 * k;
    hide Div;
  }

  lemma LowSign(w: nat, k: nat)
    ensures Div(w + 0x1_0000_0000 * k, 0x8000_0000) % 2 == Div(w, 0x8000_0000) % 2
  {
    assert Div(w + 0x1_0000_0000 * k, 0x8000_0000) == Div(w, 0x8000_0000) + 2 * k;
    hide Div;
  }

  lemma SignExtension(w: nat)
    requires w < 0x1_0000_0000
    ensures Computed(Single, Unsigned64(Int32(w))) == Computed(Single, w)
  {
    hide Computed;
    if w >= 0x8000_0000 {
      assert Unsigned64(Int32(w)) == w + 0x1_0000_0000 * 0xFFFF_FFFF;
      HighBitsIgnored(w, 0xFFFF_FFFF);
    }
  }

  /** What is reported for a slave, and what becomes its status. */
  datatype Response = Response(value: Option<real>, status: Option<real>)

  /** `process_response`; strings are left out, so a value stands for its text. */
  method ProcessResponse(kind: SlaveType, registerSize: nat, buffer: seq<Byte>) returns (r: Response)
    requires |buffer| >= 7
    ensures buffer[1] == READ_HOLDING_REGISTER && buffer[2] != registerSize * 2 ==> r == Response(None, None)
    ensures buffer[1] == READ_HOLDING_REGISTER && buffer[2] == registerSize * 2 ==>
      var w := if registerSize == 2 then BigEndian(buffer[3..7]) else BigEndian(buffer[3..5]);
      var x := match kind
               case Analog => Some(Int32(w) as real / 10.0)
               case Ieee32 => Some(Computed(Single, w))
               case Digital => Some(Int32(w) as real)
               case OtherType => None;
      r == Response(x, x)
    ensures buffer[1] == WRITE_SINGLE_REGISTER ==>
      var w := BigEndian(buffer[4..6]) as real;
      r == Response(match kind case Analog => Some(w / 10.0) case Digital => Some(w) case _ => None, None)
    ensures buffer[1] !in {READ_HOLDING_REGISTER, WRITE_SINGLE_REGISTER} ==> r == Response(None, None)
  {
    hide BigEndian, Computed;
    if buffer[1] == READ_HOLDING_REGISTER {
      if buffer[2] != registerSize * 2 {
        return Response(None, None);
      }
      var iVal := ReadRegisters(registerSize, buffer);
      var value: Option<real> := None;
      if kind == Analog {
        value := Some(iVal as real / 10.0);
      } else if kind == Ieee32 {
        var decoded := ConvertNumberToFloat(Unsigned64(iVal), false);
        value := Some(decoded);
      } else if kind == Digital {
        value := Some(iVal as real);
      }
      return Response(value, value);
    } else if buffer[1] == WRITE_SINGLE_REGISTER {
      BigEndianTwo(buffer[4..6]);
      var iVal := buffer[4] as int * 256 + buffer[5] as int;
      return Response(if kind == Analog then Some(iVal as real / 10.0)
                      else if kind == Digital then Some(iVal as real) else None, None);
    }
    return Response(None, None);
  }

  /** The registers as one `int`. */
  method ReadRegisters(registerSize: nat, buffer: seq<Byte>) returns (iVal: int)
    requires |buffer| >= 7
    ensures var w := if registerSize == 2 then BigEndian(buffer[3..7]) else BigEndian(buffer[3..5]);
            iVal == Int32(w) && Computed(Single, Unsigned64(iVal)) == Computed(Single, w)
  {
    hide BigEndian, Computed;
    var b3: int, b4: int, b5: int, b6: int := buffer[3], buffer[4], buffer[5], buffer[6];
    if registerSize == 2 {
      BigEndianFour(buffer[3..7]);
      SignExtension(BigEndian(buffer[3..7]));
      iVal := Int32(b3 * 0x100_0000 + b4 * 0x1_0000 + b5 * 0x100 + b6);
    } else {
      BigEndianTwo(buffer[3..5]);
      SignExtension(BigEndian(buffer[3..5]));
      iVal := b3 * 256 + b4;
    }
  }

  /** What a slave of type `ieee32` with two registers is taken to say is the number it sent, exactly when the number
      is a normal one. */
  lemma RegistersDecode(w: nat)
    requires w < 0x1_0000_0000
    ensures Ieee(Single, w) == Some(Computed(Single, Unsigned64(Int32(w)))) <==> Normal(Single, w)
  {
    hide Computed, Ieee, Normal;
    SignExtension(w);
    ExactlyNormal(Single, w);
  }
}
