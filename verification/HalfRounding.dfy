/** `HalfFloat.Half` is the rounding of IEEE 754-2019 from binary32 to binary16: to nearest with ties
    to even (section 4.3.1), or toward zero (section 4.3.2) when truncating. */
module HalfRounding {
  import opened Common
  import opened HalfFloat

  function Distance(a: nat, b: nat): nat {
    if a < b then b - a else a - b
  }

  /** h is a nearest half value to x, and the even one where two are equally near. Index 0x7C00 is 65536,
      the value next after the largest finite one when the exponent range is not limited. */
  ghost predicate NearestEven(x: nat, h: nat) {
    && h <= OVERFLOW
    && forall k: nat | k <= OVERFLOW ::
         && Distance(x, HalfMag(h)) <= Distance(x, HalfMag(k))
         && (Distance(x, HalfMag(h)) == Distance(x, HalfMag(k)) && h != k ==> h % 2 == 0)
  }

  /** h is the largest finite half value not above x. */
  ghost predicate TowardZero(x: nat, h: nat) {
    && h < OVERFLOW && HalfMag(h) <= x
    && forall k: nat | k < OVERFLOW && HalfMag(k) <= x :: HalfMag(k) <= HalfMag(h)
  }

  /** The unsigned binary32 pattern that stands for half value h: infinity from 65536 on. */
  predicate Denotes(pattern: nat, h: nat) {
    if h == OVERFLOW then pattern == INFINITY else h < OVERFLOW && pattern < INFINITY && Mag(pattern) == HalfMag(h)
  }

  /** Both formats by their fields, in units of 2^-149: exponent field e and fraction m stand for (1 + m/2^23) * 2^(e-127)
      and for (1 + m/2^10) * 2^(e-15), and with e = 0 for the subnormals m * 2^-149 and m * 2^-24. */
  lemma FieldsMean(e: nat, m: nat)
    ensures m < 0x80_0000 ==>
      Mag(e * 0x80_0000 + m) == if e == 0 then m else (0x80_0000 + m) * Pow2(e - 1)
    ensures m < 1024 ==>
      HalfMag(e * 1024 + m) == if e == 0 then m * Pow2(125) else (1024 + m) * Pow2(e + 124)
  {
    hide HalfMag, Pow2, Scale;
    if m < 0x80_0000 {
      ScaleAt(0x80_0000, e, m);
    }
    if m < 1024 {
      HalfFields(e, m);
    }
  }

  lemma ScaleAt(p: nat, e: nat, m: nat)
    requires m < p
    ensures Scale(p, e * p + m) == if e == 0 then m else (p + m) * Pow2(e - 1)
  {
    DivideBack(e, p, m);
    hide Pow2;
  }

  lemma HalfFields(e: nat, m: nat)
    requires m < 1024
    ensures HalfMag(e * 1024 + m) == if e == 0 then m * Pow2(125) else (1024 + m) * Pow2(e + 124)
  {
    hide Scale, Pow2;
    ScaleAt(1024, e, m);
    if e > 0 {
      Pow2Sum(e - 1, 125);
      Regroup2(1024 + m, Pow2(e - 1), Pow2(125));
    }
  }

  // ---------------------------------------------------------------- the half values as a grid

  lemma HalfMonotone(a: nat, b: nat)
    requires a < b
    ensures HalfMag(a) < HalfMag(b)
  {
    hide Scale;
    ScaleMonotone(1024, a, b);
    MulMonotone(Scale(1024, a) + 1, Scale(1024, b), HalfUlp());
    assert (Scale(1024, a) + 1) * HalfUlp() == HalfMag(a) + HalfUlp();
  }

  lemma MagMonotone(a: nat, b: nat)
    requires a < b
    ensures Mag(a) < Mag(b)
  {
    hide Scale;
    ScaleMonotone(EXPONENT, a, b);
  }

  lemma {:induction false} ScaleLinear(p: nat, b: nat, d: nat)
    requires IsPrecision(p) && b % p + d <= p
    ensures Scale(p, b + d) == Scale(p, b) + d * Gap(p, b)
    decreases d
  {
    hide Scale;
    if d > 0 {
      ScaleLinear(p, b, d - 1);
      SameBinade(p, b, d - 1);
      ScaleNext(p, b + d - 1);
      assert (d - 1) * Gap(p, b) + Gap(p, b) == d * Gap(p, b);
    }
  }

  lemma SameBinade(p: nat, b: nat, d: nat)
    requires IsPrecision(p) && b % p + d < p
    ensures (b + d) / p == b / p && Gap(p, b + d) == Gap(p, b)
  {
    if p == 1024 {
    }
  }

  /** Below the first binade the half values are the multiples of 2^-24. */
  lemma HalfSubnormal(h: nat)
    requires h <= 1024
    ensures HalfMag(h) == h * HalfUlp()
  {
    assert Scale(1024, 1024) == 1024 * Pow2(0);
    assert Scale(1024, h) == h;
  }

  /** The binary32 pattern of normal half value h. */
  function FloatOf(h: nat): nat {
    h * 0x2000 + 0x3800_0000
  }

  lemma MagFloatOf(h: nat)
    requires 0x400 <= h
    ensures Mag(FloatOf(h)) == HalfMag(h)
  {
    var e, m := h / 1024, h % 1024;
    var b := FloatOf(h);
    assert b / EXPONENT == e + 112 && b % EXPONENT == m * 8192;
    Pow2Ten();
    Pow2Sum(e + 111, 13);
    Pow2Sum(e - 1, 125);
    var u, v, w := Pow2(e + 111), Pow2(e - 1), HalfUlp();
    assert Mag(b) == (8192 * (1024 + m)) * u;
    assert u * 8192 == v * w;
    Regroup(1024 + m, u, v, w);
  }

  lemma Regroup(a: nat, u: nat, v: nat, w: nat)
    requires u * 8192 == v * w
    ensures (8192 * a) * u == a * v * w
  {
    assert (8192 * a) * u == a * (u * 8192);
    assert a * (v * w) == a * v * w;
  }

  // ---------------------------------------------------------------- rounding between two neighbours

  /** x lies in the interval from half value h to the next: which end each rule picks. */
  lemma BetweenNeighbours(x: nat, h: nat)
    requires h < OVERFLOW && HalfMag(h) <= x < HalfMag(h + 1)
    ensures
      var low, high := x - HalfMag(h), HalfMag(h + 1) - x;
      && (low < high || (low == high && h % 2 == 0) ==> NearestEven(x, h))
      && (low > high || (low == high && h % 2 != 0) ==> NearestEven(x, h + 1))
    ensures TowardZero(x, h)
  {
    hide HalfMag;
    forall k: nat | k <= OVERFLOW && k != h && k != h + 1
      ensures k < h ==> HalfMag(k) < HalfMag(h)
      ensures k > h + 1 ==> HalfMag(k) > HalfMag(h + 1)
    {
      if k < h {
        HalfMonotone(k, h);
      } else {
        HalfMonotone(h + 1, k);
      }
    }
  }

  lemma BeyondOverflow(x: nat)
    requires HalfMag(OVERFLOW) <= x
    ensures NearestEven(x, OVERFLOW)
  {
    hide HalfMag;
    forall k: nat | k < OVERFLOW ensures HalfMag(k) < HalfMag(OVERFLOW) {
      HalfMonotone(k, OVERFLOW);
    }
  }

  /** Where the subnormal half values end. */
  lemma SmallestNormal()
    ensures MinNormal() == 1024 * HalfUlp() == HalfMag(1024)
  {
    Pow2Ten();
    Pow2Sum(10, 125);
    HalfSubnormal(1024);
  }

  lemma TopBinade(u: nat)
    requires u == Pow2(153)
    ensures MaxHalf() == 4094 * u && TieOverflow() == 4095 * u
    ensures HalfMag(OVERFLOW - 1) == 4094 * u && HalfMag(OVERFLOW) == 4096 * u
  {
    hide Pow2;
    Pow2Sum(29, 125);
    Pow2Sum(30, 125);
    Pow2Double(153);
    Pow2Double(154);
    ScaleTop();
    assert 2047 * Pow2(29) * Pow2(125) == 2047 * (Pow2(29) * Pow2(125));
    assert 1024 * Pow2(30) * Pow2(125) == 1024 * (Pow2(30) * Pow2(125));
  }

  lemma Pow2Double(n: nat)
    ensures Pow2(n + 1) == 2 * Pow2(n)
  {
  }

  lemma ScaleTop()
    ensures Scale(1024, OVERFLOW - 1) == 2047 * Pow2(29) && Scale(1024, OVERFLOW) == 1024 * Pow2(30)
  {
    hide Pow2;
  }

  // ---------------------------------------------------------------- the normal range

  lemma NormalEnds()
    ensures Mag(FloatOf(0x400)) == MinNormal() && Mag(FloatOf(OVERFLOW)) == HalfMag(OVERFLOW)
  {
    hide Mag, HalfMag, FloatOf, MinNormal;
    SmallestNormal();
    MagFloatOf(0x400);
    MagFloatOf(OVERFLOW);
  }

  lemma NormalRange(b: nat)
    requires MinNormal() <= Mag(b) < HalfMag(OVERFLOW)
    ensures FloatOf(0x400) <= b < FloatOf(OVERFLOW)
  {
    hide Mag, HalfMag, MinNormal, FloatOf;
    NormalEnds();
    if b < FloatOf(0x400) {
      MagMonotone(b, FloatOf(0x400));
    }
    if b > FloatOf(OVERFLOW) {
      MagMonotone(FloatOf(OVERFLOW), b);
    }
  }

  /** A pattern in the normal range: its half value below, the part that is rounded off, and the unit. */
  lemma NormalNeighbours(b: nat) returns (h: nat, u: nat)
    requires MinNormal() <= Mag(b) < HalfMag(OVERFLOW)
    ensures 0x400 <= h < OVERFLOW && u > 0
    ensures b == FloatOf(h) + b % 0x2000
    ensures Mag(b) == HalfMag(h) + b % 0x2000 * u && HalfMag(h + 1) == HalfMag(h) + 0x2000 * u
  {
    NormalRange(b);
    hide Mag, HalfMag, MinNormal, Gap;
    h := (b - 0x3800_0000) / 0x2000;
    assert b == FloatOf(h) + b % 0x2000;
    u := Gap(EXPONENT, FloatOf(h));
    NormalLinear(h, b % 0x2000);
  }

  lemma NormalLinear(h: nat, c: nat)
    requires 0x400 <= h && c < 0x2000
    ensures Mag(FloatOf(h) + c) == HalfMag(h) + c * Gap(EXPONENT, FloatOf(h))
    ensures HalfMag(h + 1) == HalfMag(h) + 0x2000 * Gap(EXPONENT, FloatOf(h))
  {
    hide Scale, HalfMag, Gap;
    MagFloatOf(h);
    MagFloatOf(h + 1);
    ScaleLinear(EXPONENT, FloatOf(h), c);
    ScaleLinear(EXPONENT, FloatOf(h), 0x2000);
    assert FloatOf(h + 1) == FloatOf(h) + 0x2000;
  }

  /** Adding 0xFFF and the lowest kept bit before clearing rounds up exactly past the tie, or at it when odd. */
  lemma RoundNormalBits(bits: nat, h: nat, truncate: bool)
    requires bits < U32 && 0x400 <= h < OVERFLOW
    requires Magnitude(bits) == FloatOf(h) + Magnitude(bits) % 0x2000
    ensures
      var c := Magnitude(bits) % 0x2000;
      var up := !truncate && (c > 0x1000 || (c == 0x1000 && h % 2 != 0));
      RoundNormal(bits, truncate) == WithSign(FloatOf(if up then h + 1 else h), bits)
  {
    var c, q := Magnitude(bits) % 0x2000, h + 0x1_C000 + (if bits >= SIGN then 0x4_0000 else 0);
    SplitSign(bits);
    hide RoundNormal, Magnitude;
    assert bits == q * 0x2000 + c;
    SameParity(h, bits >= SIGN);
    ClearLowBits(q, c, truncate);
  }

  lemma SplitSign(bits: nat)
    requires bits < U32
    ensures bits == WithSign(Magnitude(bits), bits)
  {
  }

  lemma SameParity(h: nat, sign: bool)
    ensures (h + 0x1_C000 + (if sign then 0x4_0000 else 0)) % 2 == h % 2
  {
  }

  lemma ClearLowBits(q: nat, c: nat, truncate: bool)
    requires c < 0x2000 && q < 0x7_FFFF
    ensures
      var up := !truncate && (c > 0x1000 || (c == 0x1000 && q % 2 != 0));
      RoundNormal(q * 0x2000 + c, truncate) == (if up then q + 1 else q) * 0x2000
  {
    assert (q * 0x2000 + c) / 0x2000 == q;
  }

  lemma FloatOfDenotes(h: nat)
    requires 0x400 <= h < OVERFLOW
    ensures Denotes(FloatOf(h), h)
  {
    MagFloatOf(h);
    hide Mag, HalfMag;
  }

  // ---------------------------------------------------------------- the subnormal range

  lemma MagExact(r: nat)
    requires r <= 1024
    ensures ExactFloat(r) <= FloatOf(0x400) && Mag(ExactFloat(r)) == r * HalfUlp()
  {
    if r > 0 {
      LogBounds(r);
      Pow2Ten();
      LogMonotone(r, 10);
      var k := Log2(r);
      FractionBound(r, k);
      var f := Fraction(r, k);
      var b := (k + 103) * EXPONENT + f;
      assert b / EXPONENT == k + 103 && b % EXPONENT == f;
      Pow2Sum(23 - k, k + 102);
      Regroup2(r, Pow2(23 - k), Pow2(k + 102));
      if k == 10 {
        assert r == 1024;
      }
    }
  }

  lemma FractionBound(r: nat, k: nat)
    requires Pow2(k) <= r < 2 * Pow2(k) && k <= 10
    ensures Fraction(r, k) < EXPONENT
    ensures EXPONENT + Fraction(r, k) == r * Pow2(23 - k)
    ensures r == Pow2(k) ==> Fraction(r, k) == 0
  {
    hide Pow2;
    Pow2Ten();
    Pow2Sum(k, 23 - k);
    var v, w := Pow2(k), Pow2(23 - k);
    assert (r - v) * w == r * w - v * w;
    MulMonotone(r - v + 1, v, w);
    assert (r - v + 1) * w == (r - v) * w + w;
    assert w > 0;
  }

  lemma Regroup2(r: nat, v: nat, w: nat)
    ensures (r * v) * w == r * (v * w)
  {
  }

  // ---------------------------------------------------------------- the theorems

  lemma SubnormalNeighbours(x: nat)
    requires x < MinNormal()
    ensures Floor(x, HalfUlp()) < 1024
    ensures HalfMag(Floor(x, HalfUlp())) == x - Tail(x, HalfUlp())
    ensures HalfMag(Floor(x, HalfUlp()) + 1) == x - Tail(x, HalfUlp()) + HalfUlp()
  {
    hide Floor, Tail, HalfMag;
    SubnormalRange(x, true);
    HalfSubnormal(Floor(x, HalfUlp()));
    HalfSubnormal(Floor(x, HalfUlp()) + 1);
    assert (Floor(x, HalfUlp()) + 1) * HalfUlp() == Floor(x, HalfUlp()) * HalfUlp() + HalfUlp();
  }

  lemma SubnormalChoice(x: nat, truncate: bool)
    requires x < MinNormal()
    ensures if truncate then TowardZero(x, RoundSubnormal(x, truncate)) else NearestEven(x, RoundSubnormal(x, truncate))
  {
    hide Floor, Tail, HalfMag, HalfUlp, MinNormal, NearestEven, TowardZero;
    SubnormalNeighbours(x);
    BetweenNeighbours(x, Floor(x, HalfUlp()));
  }

  lemma RoundsSubnormal(bits: nat, truncate: bool) returns (h: nat)
    requires bits < U32 && Mag(Magnitude(bits)) < MinNormal()
    ensures h <= 1024 && Half(bits, truncate) == WithSign(ExactFloat(h), bits) && Denotes(ExactFloat(h), h)
    ensures if truncate then TowardZero(Mag(Magnitude(bits)), h) else NearestEven(Mag(Magnitude(bits)), h)
  {
    hide Mag, HalfMag, ExactFloat, RoundSubnormal, HalfUlp, NearestEven, TowardZero, MinNormal, MaxHalf, TieOverflow;
    var x := Mag(Magnitude(bits));
    SubnormalFinite(bits);
    SubnormalRange(x, truncate);
    SubnormalChoice(x, truncate);
    h := RoundSubnormal(x, truncate);
    HalfSubnormal(h);
    MagExact(h);
  }

  /** Half values of the subnormal range are below every other threshold of the function. */
  lemma SubnormalFinite(bits: nat)
    requires Mag(Magnitude(bits)) < MinNormal()
    ensures Finite(bits) && MinNormal() <= MaxHalf() <= TieOverflow()
  {
    SmallestNormal();
    TopBinade(Pow2(153));
    HalfMonotone(1024, OVERFLOW - 1);
    MagFloatOf(0x400);
    hide Mag, HalfMag, MinNormal, MaxHalf, TieOverflow;
    if !Finite(bits) {
      MagMonotone(FloatOf(0x400), Magnitude(bits));
    }
  }

  lemma NormalChoice(x: nat, low: nat, c: nat, u: nat)
    requires low < OVERFLOW && u > 0 && c < 0x2000
    requires x == HalfMag(low) + c * u && HalfMag(low + 1) == HalfMag(low) + 0x2000 * u
    ensures NearestEven(x, if c > 0x1000 || (c == 0x1000 && low % 2 != 0) then low + 1 else low)
    ensures TowardZero(x, low)
  {
    hide HalfMag, NearestEven, TowardZero;
    MulMonotone(0, c, u);
    MulMonotone(c + 1, 0x2000, u);
    assert (c + 1) * u == c * u + u;
    CompareTail(c, u);
    BetweenNeighbours(x, low);
  }

  /** The largest half value is rounded up only from 65520 on. */
  lemma NoCarryIntoOverflow(x: nat, c: nat, u: nat)
    requires HalfMag(OVERFLOW) == HalfMag(OVERFLOW - 1) + 0x2000 * u && x == HalfMag(OVERFLOW - 1) + c * u
    requires x < TieOverflow()
    ensures c < 0x1000
  {
    TopBinade(Pow2(153));
    hide HalfMag, TieOverflow, Pow2;
    assert 0x2000 * u == 2 * (0x1000 * u);
    if c >= 0x1000 {
      MulMonotone(0x1000, c, u);
    }
  }

  lemma RoundsNormal(bits: nat, truncate: bool) returns (h: nat)
    requires bits < U32 && Finite(bits) && MinNormal() <= Mag(Magnitude(bits))
    requires if truncate then Mag(Magnitude(bits)) <= MaxHalf() else Mag(Magnitude(bits)) < TieOverflow()
    ensures 0x400 <= h < OVERFLOW && Half(bits, truncate) == WithSign(FloatOf(h), bits) && Denotes(FloatOf(h), h)
    ensures if truncate then TowardZero(Mag(Magnitude(bits)), h) else NearestEven(Mag(Magnitude(bits)), h)
  {
    BelowOverflow();
    hide Mag, HalfMag, MinNormal, MaxHalf, TieOverflow, RoundNormal, FloatOf, NearestEven, TowardZero, Magnitude, WithSign;
    var x, c := Mag(Magnitude(bits)), Magnitude(bits) % 0x2000;
    var low, u := NormalNeighbours(Magnitude(bits));
    RoundNormalBits(bits, low, truncate);
    NormalChoice(x, low, c, u);
    var up := !truncate && (c > 0x1000 || (c == 0x1000 && low % 2 != 0));
    h := if up then low + 1 else low;
    if up && low == OVERFLOW - 1 {
      NoCarryIntoOverflow(x, c, u);
    }
    FloatOfDenotes(h);
  }

  lemma BelowOverflow()
    ensures MaxHalf() < TieOverflow() < HalfMag(OVERFLOW)
  {
    TopBinade(Pow2(153));
  }

  lemma CompareTail(c: nat, u: nat)
    requires u > 0 && c < 0x2000
    ensures c * u < 0x2000 * u - c * u <==> c < 0x1000
    ensures c * u == 0x2000 * u - c * u <==> c == 0x1000
  {
    if c < 0x1000 {
      MulMonotone(2 * c + 1, 0x2000, u);
      assert (2 * c + 1) * u == 2 * (c * u) + u;
    } else if c > 0x1000 {
      MulMonotone(0x2001, 2 * c, u);
      assert 0x2001 * u == 0x2000 * u + u;
    }
  }

  /** Round to nearest, ties to even, over all finite binary32 patterns and all three regimes. */
  lemma HalfRoundsToNearestEven(bits: nat)
    requires bits < U32 && Finite(bits)
    ensures exists h: nat, pattern: nat ::
      NearestEven(Mag(Magnitude(bits)), h) && Denotes(pattern, h) && Half(bits, false) == WithSign(pattern, bits)
  {
    var x := Mag(Magnitude(bits));
    if x < MinNormal() {
      var h := RoundsSubnormal(bits, false);
      assert NearestEven(x, h) && Denotes(ExactFloat(h), h);
    } else if x < TieOverflow() {
      var h := RoundsNormal(bits, false);
      assert NearestEven(x, h) && Denotes(FloatOf(h), h);
    } else {
      OverflowsToInfinity(x);
      assert NearestEven(x, OVERFLOW) && Denotes(INFINITY, OVERFLOW);
    }
  }

  lemma OverflowsToInfinity(x: nat)
    requires TieOverflow() <= x
    ensures NearestEven(x, OVERFLOW)
  {
    TopBinade(Pow2(153));
    hide HalfMag, TieOverflow, MaxHalf, Pow2;
    if x < HalfMag(OVERFLOW) {
      BetweenNeighbours(x, OVERFLOW - 1);
    } else {
      BeyondOverflow(x);
    }
  }

  /** Round toward zero: the largest half value not above the magnitude, 65504 at most. */
  lemma HalfRoundsTowardZero(bits: nat)
    requires bits < U32 && Finite(bits)
    ensures exists h: nat, pattern: nat ::
      TowardZero(Mag(Magnitude(bits)), h) && Denotes(pattern, h) && Half(bits, true) == WithSign(pattern, bits)
  {
    var x := Mag(Magnitude(bits));
    if x < MinNormal() {
      var h := RoundsSubnormal(bits, true);
      assert TowardZero(x, h) && Denotes(ExactFloat(h), h);
    } else if x <= MaxHalf() {
      var h := RoundsNormal(bits, true);
      assert TowardZero(x, h) && Denotes(FloatOf(h), h);
    } else {
      TruncatesToLargest(x);
      FloatOfDenotes(OVERFLOW - 1);
      assert FloatOf(OVERFLOW - 1) == MAX_HALF_BITS;
      assert TowardZero(x, OVERFLOW - 1) && Denotes(MAX_HALF_BITS, OVERFLOW - 1);
    }
  }

  lemma TruncatesToLargest(x: nat)
    requires MaxHalf() < x
    ensures TowardZero(x, OVERFLOW - 1)
  {
    TopBinade(Pow2(153));
    hide HalfMag, MaxHalf, Pow2;
    forall k: nat | k < OVERFLOW - 1 ensures HalfMag(k) < HalfMag(OVERFLOW - 1) {
      HalfMonotone(k, OVERFLOW - 1);
    }
  }

  // ---------------------------------------------------------------- idempotence

  lemma FloorOfMultiple(h: nat, u: nat)
    requires u > 0
    ensures Floor(h * u, u) == h && Tail(h * u, u) == 0
  {
    var q := Floor(h * u, u);
    assert (q + 1) * u == q * u + u && (h + 1) * u == h * u + u;
    hide Floor;
    if q < h {
      MulMonotone(q + 1, h, u);
    } else if q > h {
      MulMonotone(h + 1, q, u);
    }
  }

  lemma RoundExact(h: nat, truncate: bool)
    requires h < 1024
    ensures h * HalfUlp() < MinNormal() && RoundSubnormal(h * HalfUlp(), truncate) == h
  {
    SmallestNormal();
    hide Floor, Tail, HalfUlp, MinNormal;
    UlpPositive();
    MulMonotone(h + 1, 1024, HalfUlp());
    assert (h + 1) * HalfUlp() == h * HalfUlp() + HalfUlp();
    FloorOfMultiple(h, HalfUlp());
  }

  lemma UlpPositive()
    ensures HalfUlp() > 0
  {
  }

  lemma SubnormalFixed(bits: nat, h: nat, truncate: bool)
    requires bits < U32 && h < 1024 && Magnitude(bits) == ExactFloat(h)
    ensures Half(bits, truncate) == WithSign(ExactFloat(h), bits)
  {
    hide Mag, HalfMag, ExactFloat, HalfUlp, MinNormal, MaxHalf, TieOverflow, RoundSubnormal, Magnitude, WithSign;
    MagExact(h);
    RoundExact(h, truncate);
    SubnormalFinite(bits);
  }

  lemma NormalFixed(bits: nat, h: nat, truncate: bool)
    requires bits < U32 && 0x400 <= h < OVERFLOW && Magnitude(bits) == FloatOf(h)
    ensures Half(bits, truncate) == WithSign(FloatOf(h), bits)
  {
    hide Mag, HalfMag, MinNormal, MaxHalf, TieOverflow, RoundNormal, FloatOf, Magnitude, WithSign;
    NormalBounds(h);
    FloatOfBounds(h);
    RoundNormalBits(bits, h, truncate);
  }

  lemma FloatOfBounds(h: nat)
    requires h < OVERFLOW
    ensures FloatOf(h) % 0x2000 == 0 && FloatOf(h) < INFINITY
  {
  }

  lemma NormalBounds(h: nat)
    requires 0x400 <= h < OVERFLOW
    ensures MinNormal() <= Mag(FloatOf(h)) <= MaxHalf() < TieOverflow()
  {
    hide Mag, HalfMag, MinNormal, MaxHalf, TieOverflow, Pow2, FloatOf;
    SmallestNormal();
    TopBinade(Pow2(153));
    MagFloatOf(h);
    if h > 0x400 {
      HalfMonotone(0x400, h);
    }
    if h < OVERFLOW - 1 {
      HalfMonotone(h, OVERFLOW - 1);
    }
    assert Pow2(153) > 0;
  }

  lemma ExactTop()
    ensures ExactFloat(1024) == FloatOf(0x400)
  {
    LogTop();
    Pow2Ten();
    FractionBound(1024, 10);
  }

  lemma LogTop()
    ensures Log2(1024) == 10
  {
    assert Log2(1) == 0 && Log2(2) == 1 && Log2(4) == 2 && Log2(8) == 3 && Log2(16) == 4 && Log2(32) == 5;
    assert Log2(64) == 6 && Log2(128) == 7 && Log2(256) == 8 && Log2(512) == 9;
  }

  /** A binary32 pattern that stands for a half value, and infinity, are left alone in either mode. */
  lemma HalfIdempotent(bits: nat, first: bool, second: bool)
    requires bits < U32
    ensures Half(bits, first) < U32
    ensures Half(Half(bits, first), second) == Half(bits, first)
  {
    hide Mag, HalfMag, ExactFloat, MinNormal, MaxHalf, TieOverflow, RoundSubnormal, RoundNormal, NearestEven, TowardZero;
    var x, r := Mag(Magnitude(bits)), Half(bits, first);
    if !Finite(bits) {
    } else if x >= TieOverflow() && !first {
    } else if x > MaxHalf() && first {
      NormalFixed(r, OVERFLOW - 1, second);
    } else if x < MinNormal() {
      var h := RoundsSubnormal(bits, first);
      MagExact(h);
      if h < 1024 {
        SubnormalFixed(r, h, second);
      } else {
        ExactTop();
        NormalFixed(r, 0x400, second);
      }
    } else {
      var h := RoundsNormal(bits, first);
      NormalFixed(r, h, second);
    }
  }

  // ---------------------------------------------------------------- monotonicity

  /** Nearest-even indices are ordered like the values they round, hence unique. */
  lemma NearestOrdered(x: nat, y: nat, h: nat, k: nat)
    requires x <= y && NearestEven(x, h) && NearestEven(y, k)
    ensures h <= k
  {
    hide HalfMag;
    assert Distance(x, HalfMag(h)) <= Distance(x, HalfMag(k));
    assert Distance(y, HalfMag(k)) <= Distance(y, HalfMag(h));
    assert k + 1 <= OVERFLOW ==> Distance(x, HalfMag(h)) <= Distance(x, HalfMag(k + 1));
    if k < h {
      HalfMonotone(k, h);
      HalfMonotone(k, k + 1);
      if k + 1 < h {
        HalfMonotone(k + 1, h);
      }
    }
  }

  lemma TowardZeroOrdered(x: nat, y: nat, h: nat, k: nat)
    requires x <= y && TowardZero(x, h) && TowardZero(y, k)
    ensures h <= k
  {
    if k < h {
      HalfMonotone(k, h);
    }
  }

  lemma DenotesOrdered(h: nat, k: nat, p: nat, q: nat)
    requires h <= k && Denotes(p, h) && Denotes(q, k)
    ensures Mag(p) <= Mag(q) <= Mag(INFINITY) && p <= INFINITY && q <= INFINITY
  {
    hide Mag, HalfMag;
    if h < k < OVERFLOW {
      HalfMonotone(h, k);
    }
    if p < INFINITY {
      MagMonotone(p, INFINITY);
    }
    if q < INFINITY {
      MagMonotone(q, INFINITY);
    }
  }

  predicate NotNaN(bits: nat) {
    Magnitude(bits) <= INFINITY
  }

  /** The signed value, infinities beyond all finite ones. */
  function Value(bits: nat): int {
    var magnitude: int := Mag(Magnitude(bits));
    if bits >= SIGN then -magnitude else magnitude
  }

  /** The rounded magnitude depends on the magnitude only, and keeps the order of magnitudes. */
  lemma MagnitudesOrdered(a: nat, b: nat, truncate: bool)
    requires a < U32 && b < U32 && NotNaN(a) && NotNaN(b)
    requires Mag(Magnitude(a)) <= Mag(Magnitude(b))
    ensures Half(a, truncate) < U32 && Half(b, truncate) < U32
    ensures (Half(a, truncate) >= SIGN <==> a >= SIGN) && (Half(b, truncate) >= SIGN <==> b >= SIGN)
    ensures Mag(Magnitude(Half(a, truncate))) <= Mag(Magnitude(Half(b, truncate)))
  {
    hide Half, Mag, HalfMag, NearestEven, TowardZero, Denotes;
    var x, y := Mag(Magnitude(a)), Mag(Magnitude(b));
    InfiniteStays(a, truncate);
    InfiniteStays(b, truncate);
    if Finite(a) && Finite(b) {
      var h, p := RoundedTo(a, truncate);
      var k, q := RoundedTo(b, truncate);
      if truncate {
        TowardZeroOrdered(x, y, h, k);
      } else {
        NearestOrdered(x, y, h, k);
      }
      DenotesOrdered(h, k, p, q);
    } else if Finite(a) {
      var h, p := RoundedTo(a, truncate);
      DenotesOrdered(h, h, p, p);
    } else if Finite(b) {
      MagMonotone(Magnitude(b), INFINITY);
      assert false;
    }
  }

  lemma InfiniteStays(bits: nat, truncate: bool)
    requires bits < U32
    ensures !Finite(bits) ==> Half(bits, truncate) == bits
  {
  }

  lemma RoundedTo(bits: nat, truncate: bool) returns (h: nat, pattern: nat)
    requires bits < U32 && Finite(bits)
    ensures if truncate then TowardZero(Mag(Magnitude(bits)), h) else NearestEven(Mag(Magnitude(bits)), h)
    ensures Denotes(pattern, h) && Half(bits, truncate) == WithSign(pattern, bits)
    ensures pattern <= INFINITY
  {
    hide Half, Mag, HalfMag, NearestEven, TowardZero;
    if truncate {
      HalfRoundsTowardZero(bits);
      h, pattern :| TowardZero(Mag(Magnitude(bits)), h) && Denotes(pattern, h) && Half(bits, true) == WithSign(pattern, bits);
    } else {
      HalfRoundsToNearestEven(bits);
      h, pattern :| NearestEven(Mag(Magnitude(bits)), h) && Denotes(pattern, h) && Half(bits, false) == WithSign(pattern, bits);
    }
  }

  /** Rounding in either mode never reverses the order of two values, signs and infinities included. */
  lemma HalfIsMonotone(a: nat, b: nat, truncate: bool)
    requires a < U32 && b < U32 && NotNaN(a) && NotNaN(b) && Value(a) <= Value(b)
    ensures Half(a, truncate) < U32 && Half(b, truncate) < U32
    ensures Value(Half(a, truncate)) <= Value(Half(b, truncate))
  {
    hide Half, Mag;
    if a < SIGN && b < SIGN {
      MagnitudesOrdered(a, b, truncate);
    } else if a >= SIGN && b >= SIGN {
      MagnitudesOrdered(b, a, truncate);
    } else {
      MagnitudesOrdered(a, a, truncate);
      MagnitudesOrdered(b, b, truncate);
      if a < SIGN {
        MagnitudesOrdered(a, b, truncate);
        MagnitudesOrdered(b, a, truncate);
        ZeroStays(a, truncate);
        ZeroStays(b, truncate);
      }
    }
  }

  lemma ZeroPattern()
    ensures Mag(0) == 0 && ExactFloat(0) == 0
  {
  }

  lemma SignedZero(bits: nat)
    ensures Magnitude(WithSign(0, bits)) == 0 && WithSign(0, bits) < U32
  {
  }

  lemma ZeroStays(bits: nat, truncate: bool)
    requires bits < U32 && Mag(Magnitude(bits)) == 0
    ensures Half(bits, truncate) < U32 && Mag(Magnitude(Half(bits, truncate))) == 0
  {
    hide Half, Mag, ExactFloat, Magnitude, WithSign;
    ZeroPattern();
    SignedZero(bits);
    if Magnitude(bits) > 0 {
      MagMonotone(0, Magnitude(bits));
    }
    SubnormalFixed(bits, 0, truncate);
  }
}
