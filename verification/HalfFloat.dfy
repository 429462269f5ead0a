/** The binary16 rounding that the GPU oracle performs on binary32 values (gpu_validation.cpp),
    on bit patterns. Magnitudes are measured in units of 2^-149, the smallest binary32 subnormal,
    so every finite binary32 and binary16 magnitude is a natural number. */
module HalfFloat {
  import opened Common

  const SIGN := 0x8000_0000
  const INFINITY := 0x7F80_0000
  const MAX_HALF_BITS := 0x477F_E000   // 65504
  const EXPONENT := 0x80_0000

  /** The magnitude of the b-th value of a format with precision bits p: subnormals, then binades. */
  function Scale(p: nat, b: nat): nat
    requires p > 0
  {
    if b / p == 0 then b % p else (p + b % p) * Pow2(b / p - 1)
  }

  /** The magnitude of a finite binary32 pattern without its sign. */
  function Mag(b: nat): nat {
    Scale(EXPONENT, b)
  }

  /** The magnitude of the h-th binary16 value; 0x7C00 stands for 65536, where overflow begins. */
  function HalfMag(h: nat): nat {
    Scale(1024, h) * Pow2(125)
  }

  const OVERFLOW := 0x7C00

  function TieOverflow(): nat { 4095 * Pow2(153) }      // 65520
  function MaxHalf(): nat { 2047 * Pow2(154) }          // 65504
  function MinNormal(): nat { Pow2(135) }               // 2^-14
  function HalfUlp(): nat { Pow2(125) }                 // 2^-24

  // ---------------------------------------------------------------- the source's function

  /** floor(log2 r). */
  function Log2(r: nat): nat
    requires r > 0
  {
    if r == 1 then 0 else 1 + Log2(r / 2)
  }

  lemma {:induction false} LogBounds(r: nat)
    requires r > 0
    ensures Pow2(Log2(r)) <= r < 2 * Pow2(Log2(r))
  {
    if r > 1 {
      LogBounds(r / 2);
    }
  }

  lemma {:induction false} LogMonotone(r: nat, k: nat)
    requires 0 < r <= Pow2(k)
    ensures Log2(r) <= k
  {
    if r > 1 && k > 0 {
      LogMonotone(r / 2, k - 1);
    }
  }

  lemma Pow2Ten()
    ensures Pow2(10) == 1024 && Pow2(13) == 8192 && Pow2(23) == EXPONENT
  {
    assert Pow2(2) == 4 && Pow2(3) == 8 && Pow2(5) == 32;
    Pow2Sum(5, 5);
    Pow2Sum(10, 3);
    Pow2Sum(13, 10);
  }

  /** The fraction field of r * 2^-24, whose leading bit is 2^k. */
  function Fraction(r: nat, k: nat): nat
    requires Pow2(k) <= r && k <= 10
  {
    MulMonotone(0, r - Pow2(k), Pow2(23 - k));
    (r - Pow2(k)) * Pow2(23 - k)
  }

  /** The binary32 pattern of r * 2^-24, exactly. */
  function ExactFloat(r: nat): nat
    requires r <= 1024
  {
    if r == 0 then 0
    else
      LogBounds(r);
      Pow2Ten();
      LogMonotone(r, 10);
      (Log2(r) + 103) * EXPONENT + Fraction(r, Log2(r))
  }

  function WithSign(magnitude: nat, bits: nat): nat {
    magnitude + if bits >= SIGN then SIGN else 0
  }

  function Magnitude(bits: nat): nat {
    bits % SIGN
  }

  predicate Finite(bits: nat) {
    Magnitude(bits) < INFINITY
  }

  /** Half: the value of a binary32 pattern after rounding to binary16, as a binary32 pattern. */
  function Half(bits: nat, truncate: bool): nat
    requires bits < U32
  {
    var x := Mag(Magnitude(bits));
    if !Finite(bits) then bits
    else if x >= TieOverflow() && !truncate then WithSign(INFINITY, bits)
    else if x > MaxHalf() && truncate then WithSign(MAX_HALF_BITS, bits)
    else if x < MinNormal() then
      var rounded := RoundSubnormal(x, truncate);
      SubnormalRange(x, truncate);
      WithSign(ExactFloat(rounded), bits)
    else
      RoundNormal(bits, truncate)
  }

  /** floor(x / u), and what is left. */
  function Floor(x: nat, u: nat): (q: nat)
    requires u > 0
    ensures q * u <= x < q * u + u
  {
    x / u
  }

  function Tail(x: nat, u: nat): (t: nat)
    requires u > 0
    ensures t < u && x == Floor(x, u) * u + t
  {
    x - Floor(x, u) * u
  }

  /** floor, then up when the tail is above one half, or exactly one half over an odd quotient. */
  function RoundSubnormal(x: nat, truncate: bool): nat {
    var rounded, tail := Floor(x, HalfUlp()), Tail(x, HalfUlp());
    if !truncate && (2 * tail > HalfUlp() || (2 * tail == HalfUlp() && rounded % 2 != 0)) then rounded + 1 else rounded
  }

  /** bits += 0xFFF + ((bits >> 13) & 1) unless truncating, then the low 13 bits are cleared. */
  function RoundNormal(bits: nat, truncate: bool): nat {
    var raised := if truncate then bits else (bits + 0xFFF + bits / 0x2000 % 2) % U32;
    raised - raised % 0x2000
  }

  lemma SubnormalRange(x: nat, truncate: bool)
    requires x < MinNormal()
    ensures Floor(x, HalfUlp()) < 1024 && RoundSubnormal(x, truncate) <= 1024
  {
    hide Floor, Tail;
    Pow2Ten();
    Pow2Sum(10, 125);
    if Floor(x, HalfUlp()) >= 1024 {
      MulMonotone(1024, Floor(x, HalfUlp()), HalfUlp());
    }
  }

  // ---------------------------------------------------------------- both formats are strictly increasing

  /** The distance to the next value of the format. */
  function Gap(p: nat, b: nat): (r: nat)
    requires p > 0
    ensures r > 0
  {
    if b / p == 0 then 1 else Pow2(b / p - 1)
  }

  predicate IsPrecision(p: nat) {
    p == 1024 || p == EXPONENT
  }

  lemma DivStep(b: nat, p: nat)
    requires IsPrecision(p)
    ensures b % p < p - 1 ==> (b + 1) / p == b / p && (b + 1) % p == b % p + 1
    ensures b % p == p - 1 ==> (b + 1) / p == b / p + 1 && (b + 1) % p == 0
  {
    if p == 1024 {
    }
  }

  lemma ScaleNext(p: nat, b: nat)
    requires IsPrecision(p)
    ensures Scale(p, b + 1) == Scale(p, b) + Gap(p, b)
  {
    DivStep(b, p);
    var e, m := b / p, b % p;
    if e > 0 {
      var u := Pow2(e - 1);
      assert (p + m + 1) * u == (p + m) * u + u;
      if m == p - 1 {
        assert p * (2 * u) == (p + m + 1) * u;
      }
    }
  }

  lemma {:induction false} ScaleMonotone(p: nat, a: nat, b: nat)
    requires IsPrecision(p) && a <= b
    ensures Scale(p, a) + (b - a) <= Scale(p, b)
    decreases b - a
  {
    hide Scale;
    if a < b {
      ScaleMonotone(p, a, b - 1);
      ScaleNext(p, b - 1);
    }
  }
}
