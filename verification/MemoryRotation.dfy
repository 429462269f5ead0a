/** The rotated read of the bandwidth shader against the validator's oracle (memory_bandwidth.comp,
    gpu_validation.cpp, gpu_benchmark.cpp). Floats are reals: rounding is not the point. */
module MemoryRotation {
  import opened Common
  import opened GpuRing

  const LOADS := 16

  /** What the validator accepts: whole workgroups, 32-bit counts, an offset of whole invocations. */
  predicate Sized(count: Word, offset: Word) {
    0 < count && count % 1024 == 0 && offset < count && offset % 16 == 0
  }

  /** The shader's base, in 32-bit unsigned arithmetic. */
  function Base(count: Word, offset: Word, index: Word): Word {
    var base := (index * 16 % U32 + offset) % U32;
    if base >= count then base - count else base
  }

  /** The oracle's base, in 64 bits. */
  function OracleBase(count: Word, offset: Word, index: Word): Word
    requires count > 0
  {
    (index * 16 + offset) % U64 % count
  }

  lemma OneSubtraction(x: nat, count: nat)
    requires x < 2 * count
    ensures x % count == if x >= count then x - count else x
  {
    if x >= count {
      assert x == count * 1 + (x - count);
      assert x / count == 1;
    }
  }

  /** Everything counted in invocations. */
  lemma Units(count: Word, offset: Word)
    requires Sized(count, offset)
    ensures count == 16 * (count / 16) && offset == 16 * (offset / 16) && offset / 16 < count / 16
  {
    var q := count / 1024;
    assert count == 1024 * q;
    assert count / 16 == 64 * q;
    hide Sized;
    var o := offset / 16;
    assert offset == 16 * o;
  }

  lemma SumBound(count: Word, offset: Word, index: Word)
    requires Sized(count, offset) && index < count / 16
    ensures index * 16 <= count - 16 && index * 16 + offset < 2 * count
  {
  }

  /** The base without modulos: the sum overflows once at most, and is cut at most once more. */
  lemma BaseCases(count: Word, offset: Word, index: Word)
    requires Sized(count, offset) && index < count / 16
    ensures var x := index * 16 + offset;
      var cut := if x >= U32 then x - U32 else x;
      Base(count, offset, index) == if cut >= count then cut - count else cut
  {
    SumBound(count, offset, index);
    hide Sized;
    OneSubtraction(index * 16 + offset, U32);
    assert index * 16 % U32 == index * 16;
  }

  lemma OracleCases(count: Word, offset: Word, index: Word)
    requires Sized(count, offset) && index < count / 16
    ensures count > 0
    ensures var x := index * 16 + offset;
      OracleBase(count, offset, index) == if x >= count then x - count else x
  {
    SumBound(count, offset, index);
    OneSubtraction(index * 16 + offset, count);
    hide Sized;
    assert (index * 16 + offset) % U64 == index * 16 + offset;
  }

  /** The single conditional subtraction is the modulo exactly while the sum stays in 32 bits. */
  lemma BaseIsModuloExactly(count: Word, offset: Word, index: Word)
    requires Sized(count, offset) && index < count / 16
    ensures Base(count, offset, index) == OracleBase(count, offset, index) <==> index * 16 + offset < U32
  {
    SumBound(count, offset, index);
    BaseCases(count, offset, index);
    OracleCases(count, offset, index);
    hide Base, OracleBase, Sized;
  }

  /** Overflow or not, an invocation reads sixteen elements inside the buffer, aligned. */
  lemma LoadsInRange(count: Word, offset: Word, index: Word)
    requires Sized(count, offset) && index < count / 16
    ensures Base(count, offset, index) % 16 == 0 && Base(count, offset, index) + LOADS <= count
  {
    Units(count, offset);
    BaseCases(count, offset, index);
    hide Base, Sized;
    var x, m := index + offset / 16, count / 16;
    var cut := if x >= 0x1000_0000 then x - 0x1000_0000 else x;
    var j := if cut >= m then cut - m else cut;
    assert Base(count, offset, index) == 16 * j;
    Aligned(j, m);
  }

  /** A base below the count that is a whole number of invocations leaves room for one. */
  lemma Aligned(j: nat, m: nat)
    requires j < m
    ensures 16 * j % 16 == 0 && 16 * j + LOADS <= 16 * m
  {
    DivideBack(j, 16, 0);
    assert j * 16 + 0 == 16 * j;
  }

  /** Invocation index loads element e. */
  predicate LoadedBy(count: Word, offset: Word, index: Word, e: nat) {
    index < count / 16 && Base(count, offset, index) <= e < Base(count, offset, index) + LOADS
  }

  /** The invocation meant to load element e. */
  function ReaderOf(count: Word, offset: Word, e: nat): Word
    requires Sized(count, offset) && e < count
  {
    (if e / 16 * 16 >= offset then e / 16 * 16 - offset else e / 16 * 16 + count - offset) / 16
  }

  /** Every element has its reader, and only that one, when no sum overflows. */
  lemma LoadedOnce(count: Word, offset: Word, index: Word, e: nat)
    requires Sized(count, offset) && e < count && count - 16 + offset < U32
    ensures LoadedBy(count, offset, index, e) <==> index == ReaderOf(count, offset, e)
  {
    hide Base;
    ReaderBase(count, offset, e);
    LoadsInRange(count, offset, ReaderOf(count, offset, e));
    if index < count / 16 {
      PlainBase(count, offset, index);
      PlainBase(count, offset, ReaderOf(count, offset, e));
      LoadsInRange(count, offset, index);
      SameBlock(Base(count, offset, index), e);
    }
  }

  lemma SameBlock(base: nat, e: nat)
    requires base % 16 == 0
    ensures base <= e < base + LOADS <==> base == e / 16 * 16
  {
  }

  lemma ReaderBase(count: Word, offset: Word, e: nat)
    requires Sized(count, offset) && e < count && count - 16 + offset < U32
    ensures ReaderOf(count, offset, e) < count / 16
    ensures Base(count, offset, ReaderOf(count, offset, e)) == e / 16 * 16
  {
    Units(count, offset);
    hide Base, Sized;
    var block, o, m := e / 16, offset / 16, count / 16;
    var reader := if block >= o then block - o else block + m - o;
    ReaderIs(count, offset, e);
    PlainBase(count, offset, reader);
  }

  lemma ReaderIs(count: Word, offset: Word, e: nat)
    requires Sized(count, offset) && e < count
    ensures ReaderOf(count, offset, e) ==
      if e / 16 >= offset / 16 then e / 16 - offset / 16 else e / 16 + count / 16 - offset / 16
  {
    Units(count, offset);
  }

  lemma PlainBase(count: Word, offset: Word, index: Word)
    requires Sized(count, offset) && index < count / 16 && count - 16 + offset < U32
    ensures Base(count, offset, index) ==
      if index * 16 + offset >= count then index * 16 + offset - count else index * 16 + offset
  {
    SumBound(count, offset, index);
    BaseCases(count, offset, index);
    hide Base, Sized;
  }

  lemma LoadsFirst(count: Word, offset: Word, index: Word)
    requires Sized(count, offset) && index < count / 16
    requires index * 16 + offset == count || index * 16 + offset == U32
    ensures LoadedBy(count, offset, index, 0)
  {
    BaseCases(count, offset, index);
    hide Base, Sized;
  }

  /** Otherwise the first element is loaded twice in a dispatch: by the invocation whose sum is the count,
      and by the one whose sum is 2 to the 32. */
  lemma FirstLoadedTwice(count: Word, offset: Word) returns (i: Word, j: Word)
    requires Sized(count, offset) && count - 16 + offset >= U32
    ensures LoadedBy(count, offset, i, 0) && LoadedBy(count, offset, j, 0) && i != j
  {
    Units(count, offset);
    hide LoadedBy, Sized;
    i, j := count / 16 - offset / 16, 0x1000_0000 - offset / 16;
    LoadsFirst(count, offset, i);
    LoadsFirst(count, offset, j);
  }

  ghost predicate LoadsEachOnce(count: Word, offset: Word) {
    forall e: nat, i: Word, j: Word | e < count ::
      (LoadedBy(count, offset, i, e) && LoadedBy(count, offset, j, e) ==> i == j)
  }

  predicate HasReader(count: Word, offset: Word, e: nat) {
    exists i: Word :: LoadedBy(count, offset, i, e)
  }

  ghost predicate LoadsAll(count: Word, offset: Word) {
    forall e: nat | e < count :: HasReader(count, offset, e)
  }

  /** One dispatch loads each element exactly once if and only if its largest sum stays in 32 bits. */
  lemma ExactlyOnceExactly(count: Word, offset: Word)
    requires Sized(count, offset)
    ensures LoadsAll(count, offset) && LoadsEachOnce(count, offset) <==> count - 16 + offset < U32
  {
    hide LoadedBy, Sized;
    Nonempty(count, offset);
    if count - 16 + offset < U32 {
      forall e: nat, i: Word, j: Word | e < count && LoadedBy(count, offset, i, e) && LoadedBy(count, offset, j, e)
        ensures i == j
      {
        LoadedOnce(count, offset, i, e);
        LoadedOnce(count, offset, j, e);
      }
      forall e: nat | e < count ensures HasReader(count, offset, e) {
        LoadedOnce(count, offset, ReaderOf(count, offset, e), e);
      }
    } else {
      var i, j := FirstLoadedTwice(count, offset);
    }
  }

  lemma Nonempty(count: Word, offset: Word)
    requires Sized(count, offset)
    ensures count > 0
  {
  }

  /** The offsets a batch uses: quarters of the input, all of them valid, and none near overflow for the
      buffers the engine allocates (at most 256 MiB). */
  lemma BatchOffsetsAreExact(bytes: nat, ring: Word, repetition: Word)
    requires 0 < bytes <= 256 * 1024 * 1024 && bytes % 16384 == 0
    ensures Sized(bytes / 16, Turn(bytes / 16, ring, repetition))
    ensures LoadsAll(bytes / 16, Turn(bytes / 16, ring, repetition))
    ensures LoadsEachOnce(bytes / 16, Turn(bytes / 16, ring, repetition))
  {
    var count, offset := bytes / 16, Turn(bytes / 16, ring, repetition);
    QuarterTurns(count, ring, repetition);
    assert Sized(count, offset) && count - 16 + offset < U32;
    ExactlyOnceExactly(count, offset);
  }

  lemma QuarterTurns(count: Word, ring: Word, repetition: Word)
    requires count % 1024 == 0 && 0 < count
    ensures Turn(count, ring, repetition) % 16 == 0 && Turn(count, ring, repetition) <= 3 * (count / 4) < count
  {
    var q := count / 1024;
    assert count / 4 == 256 * q;
    var k := (ring + repetition) % U32 % 4;
    Quarters(k, q);
  }

  lemma Quarters(k: nat, q: nat)
    requires k < 4
    ensures k * (256 * q) % 16 == 0 && k * (256 * q) <= 3 * (256 * q)
  {
    assert k == 0 || k == 1 || k == 2 || k == 3;
  }

  /** The offset handed to the validator after a batch, cut to 32 bits. */
  function ValidatorOffset(bytes: nat, ring: Word, repetitions: Word): Word
    requires 0 < repetitions
  {
    (ring + repetitions - 1) % U32 % 4 * (bytes / 16 / 4) % U32
  }

  /** It is the one the last dispatch of the batch used. */
  lemma OracleChecksLastDispatch(bytes: nat, ring: Word, repetitions: Word)
    requires 0 < repetitions && bytes / 16 < U32
    ensures ValidatorOffset(bytes, ring, repetitions) == Turn(bytes / 16, ring, repetitions - 1)
  {
    var t := Turn(bytes / 16, ring, repetitions - 1);
    assert t < U32;
  }

  // ---------------------------------------------------------------- shader and oracle

  /** Four lanes of the element at position e of the input words. */
  function Lane(input: seq<real>, e: nat, lane: nat): real
    requires lane < 4 && 4 * e + lane < |input|
  {
    input[4 * e + lane]
  }

  function LaneSum(input: seq<real>, base: nat, lane: nat, n: nat): real
    requires lane < 4 && 4 * (base + n) <= |input|
  {
    if n == 0 then 0.0 else LaneSum(input, base, lane, n - 1) + Lane(input, base + n - 1, lane)
  }

  /** The value an invocation is to deliver for the sixteen elements from base on. */
  function Output(input: seq<real>, base: nat): real
    requires 4 * (base + LOADS) <= |input|
  {
    0.25 * (LaneSum(input, base, 0, LOADS) + LaneSum(input, base, 1, LOADS)
            + LaneSum(input, base, 2, LOADS) + LaneSum(input, base, 3, LOADS))
  }

  function Total(words: seq<real>): real {
    if words == [] then 0.0 else Total(words[..|words| - 1]) + words[|words| - 1]
  }

  lemma TotalNext(words: seq<real>, a: nat, b: nat)
    requires a <= b < |words|
    ensures Total(words[a..b + 1]) == Total(words[a..b]) + words[b]
  {
    assert words[a..b + 1][..b - a] == words[a..b];
  }

  lemma {:induction false} LanesTotal(input: seq<real>, base: nat, n: nat)
    requires 4 * (base + n) <= |input|
    ensures LaneSum(input, base, 0, n) + LaneSum(input, base, 1, n) + LaneSum(input, base, 2, n) + LaneSum(input, base, 3, n)
      == Total(input[4 * base..4 * (base + n)])
    decreases n
  {
    if n == 0 {
      assert input[4 * base..4 * base] == [];
    } else {
      LanesTotal(input, base, n - 1);
      var p := 4 * (base + n - 1);
      TotalNext(input, 4 * base, p);
      TotalNext(input, 4 * base, p + 1);
      TotalNext(input, 4 * base, p + 2);
      TotalNext(input, 4 * base, p + 3);
      hide Total;
    }
  }

  /** What an invocation delivers is a quarter of the sum of the 64 words from its base on, whichever way the lanes
      are added up. */
  lemma OutputIsQuarterSum(input: seq<real>, base: nat)
    requires 4 * (base + LOADS) <= |input|
    ensures Output(input, base) == Total(input[4 * base..4 * base + 64]) / 4.0
  {
    LanesTotal(input, base, LOADS);
    hide LaneSum, Total;
  }

  predicate Invoked(input: seq<real>, count: Word, offset: Word, index: Word) {
    Sized(count, offset) && |input| == 4 * count && index < count / 16
  }

  function ShaderOutput(input: seq<real>, count: Word, offset: Word, index: Word): real
    requires Invoked(input, count, offset, index)
  {
    LoadsInRange(count, offset, index);
    Output(input, Base(count, offset, index))
  }

  function OracleOutput(input: seq<real>, count: Word, offset: Word, index: Word): real
    requires Invoked(input, count, offset, index)
  {
    OracleInRange(count, offset, index);
    Output(input, OracleBase(count, offset, index))
  }

  lemma OracleInRange(count: Word, offset: Word, index: Word)
    requires Sized(count, offset) && index < count / 16
    ensures OracleBase(count, offset, index) + LOADS <= count
  {
    Units(count, offset);
    OracleCases(count, offset, index);
    hide OracleBase, Sized;
    var x, m := index + offset / 16, count / 16;
    var j := if x >= m then x - m else x;
    assert OracleBase(count, offset, index) == 16 * j;
    Aligned(j, m);
  }

  lemma OraclePlain(count: Word, offset: Word, index: Word)
    requires Sized(count, offset) && index < count / 16
    ensures count > 0 && OracleBase(count, offset, index) == (16 * index + offset) % count
  {
    assert (index * 16 + offset) % U64 == index * 16 + offset;
  }

  /** Shader and oracle agree on every invocation of every batch the engine records. */
  lemma ShaderMatchesOracle(input: seq<real>, bytes: nat, ring: Word, repetition: Word, index: Word)
    requires 0 < bytes <= 256 * 1024 * 1024 && bytes % 16384 == 0
    requires |input| == bytes / 4 && index < bytes / 256
    ensures Invoked(input, bytes / 16, Turn(bytes / 16, ring, repetition), index)
    ensures ShaderOutput(input, bytes / 16, Turn(bytes / 16, ring, repetition), index) ==
            OracleOutput(input, bytes / 16, Turn(bytes / 16, ring, repetition), index)
  {
    hide LaneSum, Turn;
    var count, q := bytes / 16, bytes / 16384;
    assert bytes == 16384 * q;
    assert count == 1024 * q && bytes / 4 == 4096 * q && bytes / 256 == 64 * q && count / 16 == 64 * q;
    QuarterTurns(count, ring, repetition);
    AgreeAt(input, count, Turn(count, ring, repetition), index);
  }

  /** After a batch the validator expects of every invocation exactly what the batch's last dispatch, which is
      the one that wrote the output last, delivers. */
  lemma ValidatorMatchesLastDispatch(input: seq<real>, bytes: nat, ring: Word, repetitions: Word, index: Word)
    requires 0 < bytes <= 256 * 1024 * 1024 && bytes % 16384 == 0 && 0 < repetitions
    requires |input| == bytes / 4 && index < bytes / 256
    ensures Invoked(input, bytes / 16, ValidatorOffset(bytes, ring, repetitions), index)
    ensures Invoked(input, bytes / 16, Turn(bytes / 16, ring, repetitions - 1), index)
    ensures ShaderOutput(input, bytes / 16, Turn(bytes / 16, ring, repetitions - 1), index) ==
            OracleOutput(input, bytes / 16, ValidatorOffset(bytes, ring, repetitions), index)
  {
    OracleChecksLastDispatch(bytes, ring, repetitions);
    hide ValidatorOffset, Turn, Invoked, ShaderOutput, OracleOutput;
    ShaderMatchesOracle(input, bytes, ring, repetitions - 1, index);
  }

  lemma AgreeAt(input: seq<real>, count: Word, offset: Word, index: Word)
    requires Invoked(input, count, offset, index) && index * 16 + offset < U32
    ensures ShaderOutput(input, count, offset, index) == OracleOutput(input, count, offset, index)
  {
    hide LaneSum, Base, OracleBase;
    BaseIsModuloExactly(count, offset, index);
  }

  datatype Vec4 = Vec4(x: real, y: real, z: real, w: real)

  /** One invocation of the shader: sixteen vector loads, then the dot product with a quarter each. */
  method Shade(input: seq<real>, count: Word, offset: Word, index: Word) returns (output: real)
    requires Invoked(input, count, offset, index)
    ensures output == ShaderOutput(input, count, offset, index)
    ensures var first := 4 * Base(count, offset, index);
      first + 64 <= |input| && output == Total(input[first..first + 64]) / 4.0
  {
    LoadsInRange(count, offset, index);
    OutputIsQuarterSum(input, Base(count, offset, index));
    var base := (index * 16 % U32 + offset) % U32;
    if base >= count {
      base := base - count;
    }
    output := SumVectors(input, base);
  }

  method SumVectors(input: seq<real>, base: nat) returns (output: real)
    requires 4 * (base + LOADS) <= |input|
    ensures output == Output(input, base)
  {
    var sum := Vec4(0.0, 0.0, 0.0, 0.0);
    for item := 0 to LOADS
      invariant sum == Vec4(LaneSum(input, base, 0, item), LaneSum(input, base, 1, item),
                            LaneSum(input, base, 2, item), LaneSum(input, base, 3, item))
    {
      var e := base + item;
      sum := Vec4(sum.x + Lane(input, e, 0), sum.y + Lane(input, e, 1), sum.z + Lane(input, e, 2), sum.w + Lane(input, e, 3));
    }
    output := sum.x * 0.25 + sum.y * 0.25 + sum.z * 0.25 + sum.w * 0.25;
  }

  /** ReferenceMemory: the oracle's value for one invocation, lane by lane. */
  method Reference(input: seq<real>, count: Word, offset: Word, index: Word) returns (output: real)
    requires Invoked(input, count, offset, index)
    ensures output == OracleOutput(input, count, offset, index)
    ensures var first := 4 * ((16 * index + offset) % count);
      first + 64 <= |input| && output == Total(input[first..first + 64]) / 4.0
  {
    OracleInRange(count, offset, index);
    OraclePlain(count, offset, index);
    OutputIsQuarterSum(input, OracleBase(count, offset, index));
    output := SumLanes(input, (index * 16 + offset) % U64 % count);
  }

  method SumLanes(input: seq<real>, base: nat) returns (output: real)
    requires 4 * (base + LOADS) <= |input|
    ensures output == Output(input, base)
  {
    var sums := [0.0, 0.0, 0.0, 0.0];
    for item := 0 to LOADS
      invariant |sums| == 4 && forall l | 0 <= l < 4 :: sums[l] == LaneSum(input, base, l, item)
    {
      for lane := 0 to 4
        invariant |sums| == 4
        invariant forall l | 0 <= l < 4 :: sums[l] == LaneSum(input, base, l, if l < lane then item + 1 else item)
      {
        sums := sums[lane := sums[lane] + Lane(input, base + item, lane)];
      }
    }
    output := ((sums[0] * 0.25 + sums[1] * 0.25) + sums[2] * 0.25) + sums[3] * 0.25;
  }
}
