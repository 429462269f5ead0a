/** The GPU output ring: which region each dispatch of a batch writes, where the barriers fall, and the
    mask of written regions the validator relies on (gpu_validation.cpp, gpu_benchmark.cpp). */
module GpuRing {
  import opened Common

  type Word = w: int | 0 <= w < 0x1_0000_0000

  const REGIONS := 16
  const INVOCATIONS := 0x1_0000

  /** GpuOutputRegion, in 32-bit unsigned arithmetic. */
  function Region(ring: Word, repetition: Word): (region: nat)
    ensures region < REGIONS
  {
    (ring * 7 % U32 + repetition) % U32 % REGIONS
  }

  /** Wrapping is harmless: 16 divides the word size. Equal regions are a multiple of 16 repetitions apart. */
  lemma RegionIs(ring: Word, repetition: Word)
    ensures Region(ring, repetition) == (7 * ring + repetition) % 16
  {
    var a, b := ring * 7 / U32, (ring * 7 % U32 + repetition) / U32;
    var cut := (ring * 7 % U32 + repetition) % U32;
    assert ring * 7 == a * U32 + ring * 7 % U32;
    assert ring * 7 % U32 + repetition == b * U32 + cut;
    assert cut == 16 * (cut / 16) + cut % 16;
    DivideBack(cut / 16 + (a + b) * 0x1000_0000, 16, cut % 16);
  }

  lemma SameRegion(ring: Word, r: Word, s: Word)
    ensures Region(ring, r) == Region(ring, s) <==> (r - s) % 16 == 0
  {
    RegionIs(ring, r);
    RegionIs(ring, s);
    hide Region;
  }

  // ---------------------------------------------------------------- one batch

  datatype Command = Dispatch(first: Word, second: Word) | Barrier

  /** The push constants of one repetition. */
  function Push(memory: bool, elements: Word, ring: Word, repetition: Word): Command {
    if memory then Dispatch(elements, Turn(elements, ring, repetition))
    else Dispatch(Region(ring, repetition) * INVOCATIONS, 0)
  }

  /** Quarter of the input a memory dispatch starts at. */
  function Turn(elements: Word, ring: Word, repetition: Word): Word {
    (ring + repetition) % U32 % 4 * (elements / 4)
  }

  /** The repetition that command p belongs to, or that follows it when it is a barrier. */
  function RepetitionAt(memory: bool, p: nat): nat {
    if memory then (p + 1) / 2 else p / 17 * 16 + p % 17
  }

  /** Command p of a batch: a barrier closes each lap. */
  function At(memory: bool, elements: Word, ring: Word, p: nat): Command
    requires RepetitionAt(memory, p) < U32
  {
    if (if memory then p % 2 == 1 else p % 17 == 16) then Barrier
    else Push(memory, elements, ring, RepetitionAt(memory, p))
  }

  /** Commands in a batch of n dispatches, none of them a trailing barrier. */
  function Size(memory: bool, n: nat): nat {
    if n == 0 then 0 else if memory then 2 * n - 1 else n + (n - 1) / 16
  }

  predicate IsBatch(memory: bool, elements: Word, ring: Word, n: nat, commands: seq<Command>) {
    && |commands| == Size(memory, n)
    && forall p | 0 <= p < |commands| :: RepetitionAt(memory, p) < U32 && commands[p] == At(memory, elements, ring, p)
  }

  /** The recording loop of ExecuteBatch. */
  method RecordBatch(memory: bool, elements: Word, ring: Word, repetitions: Word) returns (commands: seq<Command>)
    ensures IsBatch(memory, elements, ring, repetitions, commands)
  {
    hide Region, Turn;
    commands := [];
    var repetition := 0;
    while repetition < repetitions
      invariant repetition <= repetitions
      invariant |commands| ==
        if repetition == repetitions then Size(memory, repetitions)
        else if memory then 2 * repetition else repetition + repetition / 16
      invariant forall p | 0 <= p < |commands| ::
        RepetitionAt(memory, p) < U32 && commands[p] == At(memory, elements, ring, p)
    {
      if memory {
        var quarter := elements / 4;
        commands := commands + [Dispatch(elements, Quarter(ring, repetition, quarter))];
        assert Quarter(ring, repetition, quarter) == Turn(elements, ring, repetition) by { TurnIs(elements, ring, repetition); }
      } else {
        commands := commands + [Dispatch(Region(ring, repetition) * INVOCATIONS, 0)];
      }
      var more := repetition + 1 < repetitions;
      if more && (memory || (repetition + 1) % REGIONS == 0) {
        commands := commands + [Barrier];
      }
      repetition := repetition + 1;
    }
  }

  function Quarter(ring: Word, repetition: Word, quarter: Word): Word
    requires quarter < 0x4000_0000
  {
    (ring + repetition) % U32 % 4 * quarter
  }

  lemma TurnIs(elements: Word, ring: Word, repetition: Word)
    ensures Quarter(ring, repetition, elements / 4) == Turn(elements, ring, repetition)
  {
  }

  /** The r-th dispatch of a batch, written out, and where it stands: in the memory test each reads from the next
      quarter of the input, with a barrier after it; otherwise each writes the next region of the ring, with a barrier
      after every sixteen. */
  lemma DispatchesExactly(memory: bool, elements: Word, ring: Word, n: nat, commands: seq<Command>, r: nat)
    requires IsBatch(memory, elements, ring, n, commands) && r < n <= U32
    ensures
      if memory then
        && |commands| == 2 * n - 1
        && commands[2 * r] == Dispatch(elements, (ring + r) % 4 * (elements / 4))
        && (r + 1 < n ==> commands[2 * r + 1] == Barrier)
      else
        var p := r / 16 * 17 + r % 16;
        && |commands| == n + (n - 1) / 16 && p < |commands|
        && commands[p] == Dispatch((7 * ring + r) % 16 * 65536, 0)
        && (r % 16 == 15 && r + 1 < n ==> p + 1 < |commands| && commands[p + 1] == Barrier)
  {
    if memory {
      assert RepetitionAt(true, 2 * r) == r;
      QuarterIs(ring, r);
    } else {
      var p := r / 16 * 17 + r % 16;
      hide Region, At;
      DispatchInLap(elements, ring, r / 16, r % 16);
      assert r / 16 * 16 + r % 16 == r && r / 16 * 17 + r % 16 == p;
      RegionIs(ring, r);
      if r % 16 == 15 && r + 1 < n {
        FenceAt(elements, ring, r / 16);
      }
    }
  }

  /** Wrapping is harmless for the quarters too. */
  lemma QuarterIs(ring: Word, r: Word)
    ensures (ring + r) % U32 % 4 == (ring + r) % 4
  {
    var cut, wraps := (ring + r) % U32, (ring + r) / U32;
    assert ring + r == wraps * U32 + cut;
    DivideBack(cut / 4 + wraps * 0x4000_0000, 4, cut % 4);
  }

  /** Two dispatches write over each other: always in the memory test, in the same region otherwise. */
  predicate Collide(memory: bool, a: Command, b: Command) {
    a.Dispatch? && b.Dispatch? && (memory || a.first == b.first)
  }

  /** No write-after-write hazard: whatever collides has a barrier in between. */
  lemma CollisionsAreFenced(memory: bool, elements: Word, ring: Word, n: nat, commands: seq<Command>, p: nat, q: nat)
    requires IsBatch(memory, elements, ring, n, commands) && p < q < |commands|
    requires Collide(memory, commands[p], commands[q])
    ensures exists b | p < b < q :: commands[b] == Barrier
  {
    hide Region, Turn;
    if memory {
      assert commands[p + 1] == Barrier;
    } else {
      ComputeFence(elements, ring, p, q);
      hide At;
      var b := p / 17 * 17 + 16;
      FenceAt(elements, ring, p / 17);
      assert commands[b] == Barrier;
    }
  }

  lemma FenceAt(elements: Word, ring: Word, k: nat)
    requires RepetitionAt(false, k * 17 + 16) < U32
    ensures At(false, elements, ring, k * 17 + 16) == Barrier
  {
  }

  lemma ComputeFence(elements: Word, ring: Word, p: nat, q: nat)
    requires p < q && RepetitionAt(false, p) < U32 && RepetitionAt(false, q) < U32
    requires Collide(false, At(false, elements, ring, p), At(false, elements, ring, q))
    ensures p < p / 17 * 17 + 16 < q
  {
    hide Region, Turn;
    SameRegion(ring, RepetitionAt(false, p), RepetitionAt(false, q));
    LapAhead(p, q);
  }

  lemma LapAhead(p: nat, q: nat)
    requires p < q && p % 17 != 16 && q % 17 != 16
    requires (p / 17 * 16 + p % 17 - (q / 17 * 16 + q % 17)) % 16 == 0
    ensures p < p / 17 * 17 + 16 < q
  {
  }

  /** No barrier of a compute batch is early: the sixteen dispatches before it have used every region. */
  lemma LapsUseEveryRegion(elements: Word, ring: Word, n: nat, commands: seq<Command>, b: nat, region: nat)
    requires IsBatch(false, elements, ring, n, commands) && b < |commands| && commands[b] == Barrier && region < 16
    ensures exists p | Max(0, b - 16) <= p < b :: commands[p] == Dispatch(region * INVOCATIONS, 0)
  {
    BarrierEndsLap(elements, ring, b);
    hide Region, At, RepetitionAt;
    var lap := b / 17;
    var k := (region - (7 * ring + lap * 16)) % 16;
    Residue(7 * ring + lap * 16, region);
    DispatchInLap(elements, ring, lap, k);
    var p := lap * 17 + k;
    assert RepetitionAt(false, p) < U32;
    RegionIs(ring, lap * 16 + k);
    assert commands[p] == Dispatch(region * INVOCATIONS, 0);
  }

  lemma BarrierEndsLap(elements: Word, ring: Word, b: nat)
    requires RepetitionAt(false, b) < U32 && At(false, elements, ring, b) == Barrier
    ensures b == b / 17 * 17 + 16
  {
  }

  lemma DispatchInLap(elements: Word, ring: Word, lap: nat, k: nat)
    requires k < 16
    ensures RepetitionAt(false, lap * 17 + k) == lap * 16 + k
    ensures lap * 16 + k < U32 ==>
      At(false, elements, ring, lap * 17 + k) == Dispatch(Region(ring, lap * 16 + k) * INVOCATIONS, 0)
  {
    hide Region;
    DivideBack(lap, 17, k);
  }

  lemma Residue(base: int, region: nat)
    requires region < 16
    ensures (base + (region - base) % 16) % 16 == region
  {
  }

  // ---------------------------------------------------------------- written regions

  /** 1U << region, written out. */
  function Bit(region: nat): bv32
    requires region < 16
  {
    if region == 0 then 0x1 else if region == 1 then 0x2 else if region == 2 then 0x4 else if region == 3 then 0x8
    else if region == 4 then 0x10 else if region == 5 then 0x20 else if region == 6 then 0x40
    else if region == 7 then 0x80 else if region == 8 then 0x100 else if region == 9 then 0x200
    else if region == 10 then 0x400 else if region == 11 then 0x800 else if region == 12 then 0x1000
    else if region == 13 then 0x2000 else if region == 14 then 0x4000 else 0x8000
  }

  // The two operators by name, so that proofs can leave the bits alone.
  function And(x: bv32, y: bv32): bv32 {
    x & y
  }

  function Or(x: bv32, y: bv32): bv32 {
    x | y
  }

  predicate Has(mask: bv32, bits: bv32) {
    And(mask, bits) != 0
  }

  predicate InMask(mask: bv32, region: nat)
    requires region < 16
  {
    Has(mask, Bit(region))
  }

  /** What the validator demands of a mask besides being set somewhere. */
  predicate OnlyRegions(mask: bv32) {
    !Has(mask, !0xFFFF)
  }

  lemma OrIsZero(x: bv32, y: bv32)
    ensures Or(x, y) == 0 <==> x == 0 && y == 0
  {
  }

  lemma OrHas(x: bv32, y: bv32, b: bv32)
    ensures Has(Or(x, y), b) <==> Has(x, b) || Has(y, b)
  {
    hide And, Or;
    assert And(Or(x, y), b) == Or(And(x, b), And(y, b)) by { Distribute(x, y, b); }
    OrIsZero(And(x, b), And(y, b));
  }

  lemma Distribute(x: bv32, y: bv32, b: bv32)
    ensures And(Or(x, y), b) == Or(And(x, b), And(y, b))
  {
  }

  lemma InOr(x: bv32, y: bv32, region: nat)
    requires region < 16
    ensures InMask(Or(x, y), region) <==> InMask(x, region) || InMask(y, region)
  {
    hide Bit, Has, Or;
    OrHas(x, y, Bit(region));
  }

  lemma OrOnly(x: bv32, y: bv32)
    ensures OnlyRegions(Or(x, y)) <==> OnlyRegions(x) && OnlyRegions(y)
  {
    hide Has, Or;
    OrHas(x, y, !0xFFFF);
  }

  lemma InBit(a: nat, region: nat)
    requires a < 16 && region < 16
    ensures InMask(Bit(a), region) <==> a == region
    ensures OnlyRegions(Bit(a))
  {
  }

  lemma InZero(region: nat)
    requires region < 16
    ensures !InMask(0, region) && OnlyRegions(0)
  {
  }

  predicate Hits(ring: Word, n: Word, region: nat) {
    exists r: Word | 0 <= r < n :: Region(ring, r) == region
  }

  /** GpuWrittenRegions: only the first lap is looked at. */
  method WrittenRegions(ring: Word, repetitions: Word) returns (mask: bv32)
    ensures forall region: nat | region < 16 :: InMask(mask, region) <==> Hits(ring, repetitions, region)
    ensures OnlyRegions(mask)
  {
    hide Bit, Or, InMask, OnlyRegions, Region;
    mask := 0;
    var index := 0;
    var n := if repetitions < REGIONS then repetitions else REGIONS;
    InZero(0);
    forall region: nat | region < 16 ensures !InMask(mask, region) {
      InZero(region);
    }
    while index < n
      invariant index <= n && OnlyRegions(mask)
      invariant forall region: nat | region < 16 :: InMask(mask, region) <==> Hits(ring, index, region)
    {
      var bit := Bit(Region(ring, index));
      var next := Or(mask, bit);
      InBit(Region(ring, index), 0);
      forall region: nat | region < 16 ensures InMask(next, region) <==> Hits(ring, index + 1, region) {
        InOr(mask, bit, region);
        InBit(Region(ring, index), region);
        HitsNext(ring, index, region);
      }
      OrOnly(mask, bit);
      mask := next;
      index := index + 1;
    }
    forall region: nat | region < 16 ensures Hits(ring, n, region) <==> Hits(ring, repetitions, region) {
      FirstLapSuffices(ring, repetitions, region);
    }
  }

  lemma HitsNext(ring: Word, n: Word, region: nat)
    requires n + 1 < U32
    ensures Hits(ring, n + 1, region) <==> Hits(ring, n, region) || Region(ring, n) == region
  {
    hide Region;
  }

  /** A repetition past the first sixteen hits what one of them hits. */
  lemma FirstLapSuffices(ring: Word, repetitions: Word, region: nat)
    ensures Hits(ring, if repetitions < REGIONS then repetitions else REGIONS, region) <==> Hits(ring, repetitions, region)
  {
    hide Region;
    if Hits(ring, repetitions, region) {
      var r: Word :| 0 <= r < repetitions && Region(ring, r) == region;
      SameRegion(ring, r, r % 16);
      assert Region(ring, r % 16) == region;
    }
  }

  /** What the dispatches of a list of commands write. */
  predicate Wrote(commands: seq<Command>, region: nat) {
    exists p | 0 <= p < |commands| :: commands[p].Dispatch? && commands[p].first == region * INVOCATIONS
  }

  lemma BatchWrites(elements: Word, ring: Word, n: Word, commands: seq<Command>, region: nat)
    requires IsBatch(false, elements, ring, n, commands) && region < 16
    ensures Wrote(commands, region) <==> Hits(ring, n, region)
  {
    hide Region;
    if Wrote(commands, region) {
      var p :| 0 <= p < |commands| && commands[p].Dispatch? && commands[p].first == region * INVOCATIONS;
      var r := p / 17 * 16 + p % 17;
      assert commands[p] == Push(false, elements, ring, r);
      assert Region(ring, r) == region;
    }
    if Hits(ring, n, region) {
      var r: Word :| 0 <= r < n && Region(ring, r) == region;
      var p := r / 16 * 17 + r % 16;
      assert p < |commands| && p / 17 * 16 + p % 17 == r && p % 17 != 16;
      assert commands[p] == Push(false, elements, ring, r);
    }
  }

  lemma WroteMore(log: seq<Command>, commands: seq<Command>, region: nat)
    ensures Wrote(log + commands, region) <==> Wrote(log, region) || Wrote(commands, region)
  {
    var all := log + commands;
    if Wrote(log, region) {
      var p :| 0 <= p < |log| && log[p].Dispatch? && log[p].first == region * INVOCATIONS;
      assert all[p] == log[p];
    }
    if Wrote(commands, region) {
      var p :| 0 <= p < |commands| && commands[p].Dispatch? && commands[p].first == region * INVOCATIONS;
      assert all[|log| + p] == commands[p];
    }
  }

  /** The measuring loop of RunTest after the sink was cleared, for as many batches as the clock and the
      stop flag allow. The log is everything executed since then. */
  method Measure(ring0: Word, repetitions: Word, batches: nat)
    returns (mask: bv32, ghost log: seq<Command>, ring: Word)
    ensures forall region: nat | region < 16 :: InMask(mask, region) <==> Wrote(log, region)
    ensures OnlyRegions(mask)
    ensures repetitions > 0 && batches > 0 ==> mask != 0
    ensures ring == (ring0 + batches) % U32
  {
    hide InMask, OnlyRegions, Or, Bit, Wrote, Hits, IsBatch;
    mask, log, ring := 0, [], ring0;
    InZero(0);
    forall region: nat | region < 16 ensures !InMask(mask, region) && !Wrote(log, region) {
      InZero(region);
      NothingWritten(region);
    }
    var batch := 0;
    while batch < batches
      invariant batch <= batches && ring == (ring0 + batch) % U32 && OnlyRegions(mask)
      invariant forall region: nat | region < 16 :: InMask(mask, region) <==> Wrote(log, region)
      invariant repetitions > 0 && batch > 0 ==> mask != 0
    {
      var commands := RecordBatch(false, 0, ring, repetitions);
      var written := WrittenRegions(ring, repetitions);
      var next := Or(mask, written);
      forall region: nat | region < 16 ensures InMask(next, region) <==> Wrote(log + commands, region) {
        InOr(mask, written, region);
        BatchWrites(0, ring, repetitions, commands, region);
        WroteMore(log, commands, region);
      }
      if repetitions > 0 {
        FirstIsHit(ring, repetitions);
        InZero(Region(ring, 0));
        OrIsZero(mask, written);
      }
      OrOnly(mask, written);
      log := log + commands;
      mask := next;
      ring := (ring + 1) % U32;
      batch := batch + 1;
    }
  }

  lemma NothingWritten(region: nat)
    ensures !Wrote([], region)
  {
  }

  lemma FirstIsHit(ring: Word, n: Word)
    requires n > 0
    ensures Hits(ring, n, Region(ring, 0))
  {
  }

  /** One lap covers the ring; so do sixteen consecutive batches, however short. */
  lemma LapCovers(ring: Word, n: Word, region: nat)
    requires n >= 16 && region < 16
    ensures Hits(ring, n, region)
  {
    hide Region;
    var r: Word := (region - 7 * ring) % 16;
    RegionIs(ring, r);
    Residue(7 * ring, region);
    assert Region(ring, r) == region;
  }

  /** The b-th batch from here writes a region. */
  predicate BatchHits(ring: Word, b: nat, n: Word, region: nat) {
    Hits((ring + b) % U32, n, region)
  }

  lemma SixteenBatchesCover(ring: Word, n: Word, region: nat)
    requires n > 0 && region < 16
    ensures exists b: nat | b < 16 :: BatchHits(ring, b, n, region)
  {
    hide Region, Hits;
    var b := (7 * region - ring) % 16;
    var next: Word := (ring + b) % U32;
    RegionIs(next, 0);
    StartRegion(ring, b, region);
    FirstIsHit(next, n);
    assert BatchHits(ring, b, n, region);
  }

  /** Seven is its own inverse modulo 16. */
  lemma StartRegion(ring: Word, b: nat, region: nat)
    requires b < 16 && region < 16 && b == (7 * region - ring) % 16
    ensures 7 * ((ring + b) % U32) % 16 == region
  {
    var x := 7 * region - ring;
    var t, c := x / 16, (ring + b) / U32;
    assert x == 16 * t + b;
    assert (ring + b) % U32 == ring + b - c * U32;
    Sixteens(region, 3 * region - 7 * t - c * 0x7000_0000);
  }

  lemma Sixteens(region: nat, k: int)
    requires region < 16
    ensures (region + 16 * k) % 16 == region
  {
  }
}
