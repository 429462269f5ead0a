/** The memory benchmark: choosing and allocating the buffer, the workers' slices of it, the attempts at a
    stable set of CPUs, and the final measurement (memory_engine.cpp, memory_timing.h). */
module MemoryEngine {
  import opened Common

  const TARGET := 0x1000_0000   // 256 MiB
  const MINIMUM := 0x200_0000   // 32 MiB
  const ALIGNMENT := 128

  function RoundDown(value: nat, alignment: nat): (r: nat)
    requires alignment > 0
    ensures r <= value && value - r < alignment
  {
    value - value % alignment
  }

  // ---------------------------------------------------------------- buffer

  /** What the available memory allows, none known standing for no limit. */
  function Target(available: nat): (r: nat)
    ensures MINIMUM <= r <= TARGET
  {
    Max(if available > 0 then Min(TARGET, available / 8) else TARGET, MINIMUM)
  }

  function Granularity(threads: nat): (r: nat)
    ensures r >= ALIGNMENT
  {
    Max(ALIGNMENT, threads * ALIGNMENT * 2)
  }

  function ChooseBufferBytes(available: nat, threads: nat): nat {
    RoundDown(Target(available), Granularity(threads))
  }

  /** The choice is the largest whole number of granules, 256 bytes for each thread, within an eighth of the
      available memory, that eighth kept between 32 and 256 MiB and an unknown amount standing for no limit. */
  lemma ChoiceIsLargest(available: nat, threads: nat, k: nat)
    ensures
      var granule := if threads == 0 then 128 else 256 * threads;
      var limit := if available == 0 || available >= 8 * 0x1000_0000 then 0x1000_0000
                   else if available < 8 * 0x200_0000 then 0x200_0000
                   else available / 8;
      && ChooseBufferBytes(available, threads) % granule == 0
      && (k * granule <= limit <==> k * granule <= ChooseBufferBytes(available, threads))
  {
    LargestMultiple(Target(available), Granularity(threads), k);
    TargetIs(available);
    hide Target;
    assert threads > 0 ==> threads * ALIGNMENT * 2 == 256 * threads;
  }

  lemma TargetIs(available: nat)
    ensures Target(available) ==
      if available == 0 || available >= 8 * 0x1000_0000 then 0x1000_0000
      else if available < 8 * 0x200_0000 then 0x200_0000
      else available / 8
  {
  }

  lemma LargestMultiple(target: nat, g: nat, k: nat)
    requires g > 0
    ensures RoundDown(target, g) % g == 0
    ensures k * g <= target <==> k * g <= RoundDown(target, g)
  {
    var q := target / g;
    assert target == g * q + target % g && RoundDown(target, g) == g * q;
    assert (q + 1) * g == g * q + g;
    if k <= q {
      MulMonotone(k, q, g);
    } else {
      MulMonotone(q + 1, k, g);
    }
    DivideBack(q, g, 0);
  }

  /** The first multiple of g from the minimum on. */
  function FirstWhole(g: nat): nat
    requires g > 0
  {
    if MINIMUM % g == 0 then MINIMUM else MINIMUM - MINIMUM % g + g
  }

  lemma RoundedBelow(target: nat, g: nat, minimum: nat)
    requires g > 0 && target >= minimum
    ensures RoundDown(target, g) < minimum <==> minimum % g != 0 && target < minimum - minimum % g + g
  {
    var a, b := target / g, minimum / g;
    assert target == g * a + target % g && minimum == g * b + minimum % g;
    assert (a + 1) * g == g * a + g && (b + 1) * g == g * b + g;
    if a < b {
      MulMonotone(a + 1, b, g);
    } else if a > b {
      MulMonotone(b + 1, a, g);
    }
  }

  /** Rounding takes the size below the minimum, where the allocation does not even try, exactly when no
      whole number of thread granules fits between the minimum and the target. */
  lemma ChoiceTooSmallExactly(available: nat, threads: nat)
    ensures ChooseBufferBytes(available, threads) < MINIMUM <==> Target(available) < FirstWhole(Granularity(threads))
  {
    RoundedBelow(Target(available), Granularity(threads), MINIMUM);
  }

  /** With six threads and 256 MiB available the choice is refused unseen. */
  lemma SixThreadsAreRefused(grants: nat -> bool)
    ensures ChooseBufferBytes(0x1000_0000, 6) < MINIMUM
    ensures !Attempted(ChooseBufferBytes(0x1000_0000, 6), 0)
  {
  }

  /** The request of the k-th try: rounded to the alignment, then halved from try to try. */
  function Request(bytes: nat, k: nat): nat {
    RoundDown(if k == 0 then bytes else Request(bytes, k - 1) / 2, ALIGNMENT)
  }

  /** The k-th try is made, as far as sizes go. */
  predicate Attempted(bytes: nat, k: nat) {
    (if k == 0 then bytes else Request(bytes, k - 1) / 2) >= MINIMUM
  }

  /** The allocation from the k-th try on. */
  function Granted(value: nat, grants: nat -> bool, k: nat): Option<nat>
    decreases value
  {
    if value < MINIMUM then None
    else if grants(k) then Some(RoundDown(value, ALIGNMENT))
    else Granted(RoundDown(value, ALIGNMENT) / 2, grants, k + 1)
  }

  /** Rounding down and halving by turns is dividing at once: the k-th try asks for the whole alignment units of the
      2^k-th part, and is made exactly if that is at least 32 MiB. */
  lemma {:induction false} RequestIs(bytes: nat, k: nat)
    ensures Request(bytes, k) == bytes / 128 / Pow2(k) * 128
    ensures Attempted(bytes, k) <==> bytes / 128 / Pow2(k) * 128 >= 0x200_0000
    decreases k
  {
    if k == 0 {
      WholeUnits(bytes);
    } else {
      RequestIs(bytes, k - 1);
      var m, p := bytes / 128 / Pow2(k - 1), Pow2(k - 1);
      HalfAgain(bytes / 128, p);
      assert Pow2(k) == 2 * p;
      hide Pow2, RoundDown;
      assert Request(bytes, k) == RoundDown(Request(bytes, k - 1) / 2, ALIGNMENT);
      HalvedUnits(m);
    }
  }

  lemma WholeUnits(bytes: nat)
    ensures RoundDown(bytes, ALIGNMENT) == bytes / 128 * 128
    ensures bytes >= MINIMUM <==> bytes / 128 * 128 >= 0x200_0000
  {
  }

  lemma HalvedUnits(m: nat)
    ensures RoundDown(m * 128 / 2, ALIGNMENT) == m / 2 * 128
    ensures m * 128 / 2 >= MINIMUM <==> m / 2 * 128 >= 0x200_0000
  {
    var h, r := m / 2, m % 2;
    assert m * 128 / 2 == h * 128 + 64 * r;
    DivideBack(h, 128, 64 * r);
    WholeUnits(h * 128 + 64 * r);
  }

  lemma HalfAgain(v: nat, p: nat)
    requires p > 0
    ensures v / (2 * p) == v / p / 2
  {
    var a, b := v / p, v % p;
    var q := a / 2;
    assert v == p * a + b;
    if a % 2 == 0 {
      assert a == 2 * q;
      assert p * (2 * q) == q * (2 * p);
      DivideBack(q, 2 * p, b);
    } else {
      assert a == 2 * q + 1;
      assert p * (2 * q + 1) == q * (2 * p) + p;
      DivideBack(q, 2 * p, p + b);
    }
  }

  /** How an allocation of this many bytes goes: after so many refused tries a part of it is granted, or what is left
      to try is below 32 MiB. */
  ghost predicate Allocates(bytes: nat, grants: nat -> bool, granted: Option<nat>, tries: nat) {
    && (forall k | 0 <= k < tries :: bytes / 128 / Pow2(k) * 128 >= 0x200_0000 && !grants(k))
    && match granted
       case Some(size) => grants(tries) && size == bytes / 128 / Pow2(tries) * 128 >= 0x200_0000
       case None => bytes / 128 / Pow2(tries) * 128 < 0x200_0000
  }

  /** AllocateBuffer: halve until a request is granted or falls below the minimum. */
  method AllocateBuffer(bytes: nat, grants: nat -> bool) returns (granted: Option<nat>, ghost tries: nat)
    ensures granted == Granted(bytes, grants, 0)
    ensures Allocates(bytes, grants, granted, tries)
    ensures granted.Some? ==> granted.value <= bytes && granted.value % ALIGNMENT == 0
  {
    granted, tries := HalveAndTry(bytes, grants);
    forall k: nat ensures Request(bytes, k) == bytes / 128 / Pow2(k) * 128
      && (Attempted(bytes, k) <==> bytes / 128 / Pow2(k) * 128 >= 0x200_0000)
    {
      RequestIs(bytes, k);
    }
  }

  method HalveAndTry(bytes: nat, grants: nat -> bool) returns (granted: Option<nat>, ghost tries: nat)
    ensures granted == Granted(bytes, grants, 0)
    ensures granted.Some? ==> grants(tries) && granted.value == Request(bytes, tries) && Attempted(bytes, tries)
    ensures granted.Some? ==> MINIMUM <= granted.value <= bytes && granted.value % ALIGNMENT == 0
    ensures granted.None? ==> !Attempted(bytes, tries)
    ensures forall k | 0 <= k < tries :: Attempted(bytes, k) && !grants(k)
  {
    var requested := bytes;
    var k := 0;
    while requested >= MINIMUM
      invariant requested == if k == 0 then bytes else Request(bytes, k - 1) / 2
      invariant requested <= bytes && Granted(requested, grants, k) == Granted(bytes, grants, 0)
      invariant forall i | 0 <= i < k :: Attempted(bytes, i) && !grants(i)
      decreases requested
    {
      requested := RoundDown(requested, ALIGNMENT);
      if grants(k) {
        KeepsMinimum(if k == 0 then bytes else Request(bytes, k - 1) / 2);
        return Some(requested), k;
      }
      requested := requested / 2;
      k := k + 1;
    }
    return None, k;
  }

  lemma KeepsMinimum(value: nat)
    requires value >= MINIMUM
    ensures RoundDown(value, ALIGNMENT) >= MINIMUM && RoundDown(value, ALIGNMENT) % ALIGNMENT == 0
  {
  }

  /** Four tries at most: from 256 MiB down to 32. */
  lemma FourTries(bytes: nat)
    requires bytes <= TARGET
    ensures !Attempted(bytes, 4)
  {
    assert Request(bytes, 0) <= TARGET;
    assert Request(bytes, 1) <= TARGET / 2;
    assert Request(bytes, 2) <= TARGET / 4;
    assert Request(bytes, 3) <= TARGET / 8;
  }

  // ---------------------------------------------------------------- slices

  datatype Test = Read | Write | Copy

  /** A stretch of the buffer. */
  datatype Slice = Slice(begin: nat, end: nat)

  function ActiveBytes(test: Test, bytes: nat): nat {
    if test == Copy then bytes / 2 else bytes
  }

  function RegionBytes(test: Test, bytes: nat, threads: nat): nat
    requires threads > 0
  {
    RoundDown(ActiveBytes(test, bytes) / threads, ALIGNMENT)
  }

  function SourceOf(test: Test, bytes: nat, threads: nat, index: nat): Slice
    requires threads > 0
  {
    var region := RegionBytes(test, bytes, threads);
    Slice(index * region, index * region + region)
  }

  function DestinationOf(test: Test, bytes: nat, threads: nat, index: nat): Slice
    requires threads > 0
  {
    var region := RegionBytes(test, bytes, threads);
    var begin := (if test == Copy then ActiveBytes(test, bytes) else 0) + index * region;
    Slice(begin, begin + region)
  }

  predicate Apart(a: Slice, b: Slice) {
    a.end <= b.begin || b.end <= a.begin
  }

  predicate Inside(s: Slice, begin: nat, end: nat) {
    begin <= s.begin && s.end <= end
  }

  lemma SlicesOf(region: nat, threads: nat, active: nat, i: nat, j: nat)
    requires threads > 0 && region <= active / threads && i < j < threads
    ensures i * region + region <= j * region && j * region + region <= active
  {
    MulMonotone(i + 1, j, region);
    MulMonotone(j + 1, threads, region);
    MulMonotone(region, active / threads, threads);
    assert (i + 1) * region == i * region + region;
    assert (j + 1) * region == j * region + region;
    assert active == threads * (active / threads) + active % threads;
  }

  lemma SliceInside(region: nat, threads: nat, active: nat, i: nat)
    requires threads > 0 && region <= active / threads && i < threads
    ensures i * region + region <= active
  {
    MulMonotone(i + 1, threads, region);
    MulMonotone(region, active / threads, threads);
    assert (i + 1) * region == i * region + region;
    assert active == threads * (active / threads) + active % threads;
  }

  /** What a worker reads and writes lies in the buffer, and nobody else writes there; for a copy the whole
      source half lies apart from every destination. */
  lemma WorkersDoNotInterfere(test: Test, bytes: nat, threads: nat, i: nat, j: nat)
    requires threads > 0 && i < threads && j < threads
    ensures Inside(SourceOf(test, bytes, threads, i), 0, ActiveBytes(test, bytes))
    ensures Inside(DestinationOf(test, bytes, threads, i), if test == Copy then ActiveBytes(test, bytes) else 0, bytes)
    ensures i != j ==> Apart(SourceOf(test, bytes, threads, i), SourceOf(test, bytes, threads, j))
    ensures i != j ==> Apart(DestinationOf(test, bytes, threads, i), DestinationOf(test, bytes, threads, j))
    ensures test == Copy ==> Apart(SourceOf(test, bytes, threads, i), DestinationOf(test, bytes, threads, j))
    ensures test != Copy ==> SourceOf(test, bytes, threads, i) == DestinationOf(test, bytes, threads, i)
  {
    var region, active := RegionBytes(test, bytes, threads), ActiveBytes(test, bytes);
    hide RegionBytes;
    assert region <= active / threads by { RegionBound(test, bytes, threads); }
    SliceInside(region, threads, active, i);
    SliceInside(region, threads, active, j);
    if i < j {
      SlicesOf(region, threads, active, i, j);
    } else if j < i {
      SlicesOf(region, threads, active, j, i);
    }
  }

  lemma RegionBound(test: Test, bytes: nat, threads: nat)
    requires threads > 0
    ensures RegionBytes(test, bytes, threads) <= ActiveBytes(test, bytes) / threads
  {
  }

  /** A worker's slice is the largest whole number of alignment units such that all workers' slices fit. */
  lemma SliceIsLargest(test: Test, bytes: nat, threads: nat, size: nat)
    requires threads > 0 && size % 128 == 0
    ensures RegionBytes(test, bytes, threads) % 128 == 0
    ensures size * threads <= (if test == Copy then bytes / 2 else bytes) <==> size <= RegionBytes(test, bytes, threads)
  {
    assert ActiveBytes(test, bytes) == if test == Copy then bytes / 2 else bytes;
    var active := ActiveBytes(test, bytes);
    RoundedShare(active / threads, size);
    LargestShare(active, threads, size);
    hide RoundDown, ActiveBytes;
  }

  lemma RoundedShare(share: nat, size: nat)
    requires size % 128 == 0
    ensures RoundDown(share, 128) % 128 == 0
    ensures size <= share <==> size <= RoundDown(share, 128)
  {
    assert size == size / 128 * 128;
    LargestMultiple(share, 128, size / 128);
    hide RoundDown;
  }

  lemma LargestShare(active: nat, threads: nat, size: nat)
    requires threads > 0
    ensures size * threads <= active <==> size <= active / threads
  {
    var share, rest := active / threads, active % threads;
    assert active == threads * share + rest;
    assert (share + 1) * threads == threads * share + threads;
    if size <= share {
      MulMonotone(size, share, threads);
    } else {
      MulMonotone(share + 1, size, threads);
    }
  }

  /** The slices leave less than an alignment unit a worker, and a worker's share, unused. */
  lemma LittleIsUnused(test: Test, bytes: nat, threads: nat)
    requires threads > 0
    ensures ActiveBytes(test, bytes) - threads * RegionBytes(test, bytes, threads) < threads * ALIGNMENT
  {
    var active := ActiveBytes(test, bytes);
    var share, region := active / threads, RegionBytes(test, bytes, threads);
    assert active == threads * share + active % threads;
    assert share - region <= ALIGNMENT - 1;
    MulMonotone(share - region, ALIGNMENT - 1, threads);
    assert threads * share - threads * region == (share - region) * threads;
    assert (ALIGNMENT - 1) * threads == threads * ALIGNMENT - threads;
  }

  // ---------------------------------------------------------------- measurement

  /** A worker's own record: bytes of its completed passes, and when the last one completed. */
  datatype Completion = Completion(bytes: nat, at: nat)

  datatype Measurement = Measurement(bytes: nat, elapsed: nat, gbps: real)

  function PassBytes(test: Test, region: nat): nat {
    if test == Copy then 2 * region else region
  }

  /** A worker's measuring loop, given when its passes completed. */
  method MeasurePasses(passes: seq<nat>, perPass: nat) returns (c: Completion)
    ensures c == CompletionOf(passes, perPass)
  {
    c := Completion(0, 0);
    for i := 0 to |passes|
      invariant c == CompletionOf(passes[..i], perPass)
    {
      WrapProduct(i, perPass);
      c := Completion((c.bytes + perPass) % U64, passes[i]);
    }
    assert passes[..|passes|] == passes;
  }

  function CompletionOf(passes: seq<nat>, perPass: nat): Completion {
    Completion(|passes| * perPass % U64, if passes == [] then 0 else passes[|passes| - 1])
  }

  lemma WrapProduct(i: nat, perPass: nat)
    ensures (i * perPass % U64 + perPass) % U64 == (i + 1) * perPass % U64
  {
    assert (i + 1) * perPass == i * perPass + perPass;
    WrapSum(i * perPass, perPass);
  }

  lemma WrapSum(a: nat, b: nat)
    ensures (a % U64 + b) % U64 == (a + b) % U64
  {
    assert a + b == U64 * (a / U64) + (a % U64 + b);
  }

  function SumBytes(workers: seq<Completion>): nat {
    if workers == [] then 0 else SumBytes(workers[..|workers| - 1]) + workers[|workers| - 1].bytes
  }

  function FinishedAt(start: nat, workers: seq<Completion>): (r: nat)
    ensures r >= start
  {
    if workers == [] then start
    else
      var last := workers[|workers| - 1];
      if last.bytes == 0 then FinishedAt(start, workers[..|workers| - 1])
      else Max(FinishedAt(start, workers[..|workers| - 1]), last.at)
  }

  function SummaryOf(start: nat, workers: seq<Completion>): Measurement {
    var bytes, elapsed := SumBytes(workers) % U64, FinishedAt(start, workers) - start;
    Measurement(bytes, elapsed, if elapsed > 0 then bytes as real / elapsed as real else 0.0)
  }

  /** SummarizeMemoryMeasurement. */
  method Summarize(start: nat, workers: seq<Completion>) returns (m: Measurement)
    ensures m == SummaryOf(start, workers)
  {
    var bytes, finishedAt := 0, start;
    for i := 0 to |workers|
      invariant bytes == SumBytes(workers[..i]) % U64 && finishedAt == FinishedAt(start, workers[..i])
    {
      assert workers[..i + 1][..i] == workers[..i];
      WrapSum(SumBytes(workers[..i]), workers[i].bytes);
      if workers[i].bytes != 0 {
        bytes := (bytes + workers[i].bytes) % U64;
        finishedAt := Max(finishedAt, workers[i].at);
      }
    }
    assert workers[..|workers|] == workers;
    var elapsed := finishedAt - start;
    m := Measurement(bytes, elapsed, if elapsed > 0 then bytes as real / elapsed as real else 0.0);
  }

  /** Completion times of all passes of an attempt, worker by worker: none before the start, in order, and
      in all fewer bytes than 64 bits hold. */
  predicate PassesOk(start: nat, passes: seq<seq<nat>>, perPass: nat) {
    && perPass > 0
    && TotalPasses(passes) * perPass < U64
    && (forall w, i | 0 <= w < |passes| && 0 <= i < |passes[w]| :: start <= passes[w][i])
    && (forall w, i, j | 0 <= w < |passes| && 0 <= i < j < |passes[w]| :: passes[w][i] <= passes[w][j])
  }

  function TotalPasses(passes: seq<seq<nat>>): nat {
    if passes == [] then 0 else TotalPasses(passes[..|passes| - 1]) + |passes[|passes| - 1]|
  }

  function Completions(passes: seq<seq<nat>>, perPass: nat): seq<Completion> {
    seq(|passes|, w requires 0 <= w < |passes| => CompletionOf(passes[w], perPass))
  }

  /** The summary of an attempt counts each completed pass once, and its interval is the shortest that
      holds them all: it reaches from the start to the last completion. */
  predicate CoversPasses(start: nat, passes: seq<seq<nat>>, perPass: nat, bytes: nat, end: nat) {
    && bytes == TotalPasses(passes) * perPass
    && (forall w, i | 0 <= w < |passes| && 0 <= i < |passes[w]| :: passes[w][i] <= end)
    && (end == start || exists w, i | 0 <= w < |passes| && 0 <= i < |passes[w]| :: passes[w][i] == end)
  }

  lemma PassesOkPrefix(start: nat, passes: seq<seq<nat>>, perPass: nat)
    requires PassesOk(start, passes, perPass) && passes != []
    ensures PassesOk(start, passes[..|passes| - 1], perPass) && |passes[|passes| - 1]| * perPass < U64
  {
    var before, last := passes[..|passes| - 1], passes[|passes| - 1];
    MulMonotone(TotalPasses(before), TotalPasses(passes), perPass);
    MulMonotone(|last|, TotalPasses(passes), perPass);
  }

  lemma {:induction false} SummaryCovers(start: nat, passes: seq<seq<nat>>, perPass: nat)
    requires PassesOk(start, passes, perPass)
    ensures CoversPasses(start, passes, perPass, SumBytes(Completions(passes, perPass)),
                         FinishedAt(start, Completions(passes, perPass)))
    decreases |passes|
  {
    hide CoversPasses, PassesOk, CompletionOf, TotalPasses;
    if passes == [] {
      NoWorkers(start, perPass);
    } else {
      var before, last := passes[..|passes| - 1], passes[|passes| - 1];
      PassesOkPrefix(start, passes, perPass);
      SummaryCovers(start, before, perPass);
      var all := Completions(passes, perPass);
      assert all[..|all| - 1] == Completions(before, perPass);
      assert before + [last] == passes;
      OneMoreWorker(start, before, last, perPass, SumBytes(Completions(before, perPass)),
                    FinishedAt(start, Completions(before, perPass)));
    }
  }

  lemma NoWorkers(start: nat, perPass: nat)
    ensures CoversPasses(start, [], perPass, 0, start)
  {
  }

  lemma OneMoreWorker(start: nat, before: seq<seq<nat>>, last: seq<nat>, perPass: nat, bytes: nat, end: nat)
    requires PassesOk(start, before + [last], perPass) && |last| * perPass < U64
    requires CoversPasses(start, before, perPass, bytes, end)
    ensures CoversPasses(start, before + [last], perPass, bytes + CompletionOf(last, perPass).bytes,
                         if last == [] then end else Max(end, last[|last| - 1]))
    ensures CompletionOf(last, perPass).bytes == 0 <==> last == []
    ensures last != [] ==> CompletionOf(last, perPass).at == last[|last| - 1]
  {
    OneMoreSum(before, last, perPass);
    hide TotalPasses;
    var passes := before + [last];
    assert passes[..|before|] == before && passes[|before|] == last;
    if last != [] {
      assert passes[|before|][|last| - 1] == last[|last| - 1];
      forall w, i | 0 <= w < |passes| && 0 <= i < |passes[w]| ensures passes[w][i] <= Max(end, last[|last| - 1]) {
        if w < |before| {
          assert before[w][i] <= end;
        } else {
          assert passes[|before|][i] <= passes[|before|][|last| - 1];
        }
      }
    }
    if end != start {
      var w, i :| 0 <= w < |before| && 0 <= i < |before[w]| && before[w][i] == end;
      assert passes[w][i] == end;
    }
  }

  lemma OneMoreSum(before: seq<seq<nat>>, last: seq<nat>, perPass: nat)
    requires perPass > 0 && |last| * perPass < U64
    ensures TotalPasses(before + [last]) * perPass == TotalPasses(before) * perPass + CompletionOf(last, perPass).bytes
    ensures CompletionOf(last, perPass).bytes == 0 <==> last == []
  {
    assert (before + [last])[..|before|] == before;
    assert (TotalPasses(before) + |last|) * perPass == TotalPasses(before) * perPass + |last| * perPass;
    if last != [] {
      MulMonotone(1, |last|, perPass);
    }
  }

  // ---------------------------------------------------------------- attempts

  const ATTEMPTS := 3

  /** What happens outside the program in one attempt: the memory available and granted; which CPUs are
      present when topology is read again after warm-up, or that it cannot be read; whether a thread cannot be
      created; whether a stop has come by then and by the end; when the measurement starts and when each
      worker's passes complete. */
  datatype Attempt = Attempt(
    available: nat, grants: nat -> bool, refreshed: Option<seq<nat>>, creationFailed: bool, stoppedEarly: bool, stopped: bool,
    start: nat, passes: seq<seq<nat>>)

  datatype End = Completed | Cancelled | ThreadsFailed | NoMemory | NoCpu

  datatype Report = Report(cpus: seq<nat>, end: End, attempts: nat, unstable: bool, measured: Measurement)

  const NOTHING := Measurement(0, 0, 0.0)

  /** The slice size an attempt works with, if it has CPUs and memory to work with at all. */
  datatype Setup = Lacking(end: End) | Region(bytes: nat)

  function SetupOf(test: Test, a: Attempt, cpus: seq<nat>): Setup {
    if cpus == [] then Lacking(NoCpu)
    else
      match Granted(ChooseBufferBytes(a.available, |cpus|), a.grants, 0)
      case None => Lacking(NoMemory)
      case Some(bytes) =>
        var region := RegionBytes(test, bytes, |cpus|);
        if region == 0 then Lacking(NoMemory) else Region(region)
  }

  /** A failed creation requests the stop itself. */
  predicate Checks(a: Attempt) {
    !a.creationFailed && !a.stoppedEarly
  }

  predicate PreparesAgain(test: Test, a: Attempt, cpus: seq<nat>, attempt: nat) {
    SetupOf(test, a, cpus).Region? && Checks(a) && a.refreshed.Some? && a.refreshed.value != cpus && attempt < 2
  }

  predicate Unstable(a: Attempt, cpus: seq<nat>) {
    Checks(a) && (a.refreshed.None? || a.refreshed.value != cpus)
  }

  /** The checks an attempt starts with. */
  method Prepare(test: Test, a: Attempt, cpus: seq<nat>) returns (setup: Setup)
    ensures setup == SetupOf(test, a, cpus)
  {
    hide ChooseBufferBytes, Granted, RoundDown, Allocates;
    if cpus == [] {
      return Lacking(NoCpu);
    }
    var bytes := ChooseBufferBytes(a.available, |cpus|);
    var granted, _ := AllocateBuffer(bytes, a.grants);
    match granted {
      case None => return Lacking(NoMemory);
      case Some(bytes) =>
        var active := if test == Copy then bytes / 2 else bytes;
        var region := RoundDown(active / |cpus|, ALIGNMENT);
        setup := if region == 0 then Lacking(NoMemory) else Region(region);
    }
  }

  /** Run: up to three attempts, each on the CPUs the last reading showed, until one is measured. */
  method Run(test: Test, cpus0: seq<nat>, attempts: nat -> Attempt) returns (r: Report, ghost history: seq<seq<nat>>)
    ensures 0 < r.attempts <= ATTEMPTS
    ensures IsHistory(test, cpus0, attempts, history) && |history| == r.attempts
    ensures MeasuredBy(test, attempts(r.attempts - 1), history[r.attempts - 1], r.attempts - 1, r)
    ensures r.cpus == history[r.attempts - 1] && Retried(attempts, history)
    ensures Concludes(attempts(r.attempts - 1), r)
  {
    r, history := RunAttempts(test, cpus0, attempts);
    SetupEnds(test, attempts(r.attempts - 1), history[r.attempts - 1]);
    hide SetupOf, SummaryOf;
  }

  /** An attempt is made again only if all its threads were created, nobody had asked for a stop after the warm-up,
      and the CPUs read then were others: those of the next attempt. */
  ghost predicate Retried(attempts: nat -> Attempt, history: seq<seq<nat>>) {
    forall k | 0 <= k < |history| - 1 ::
      !attempts(k).creationFailed && !attempts(k).stoppedEarly && attempts(k).refreshed == Some(history[k + 1])
      && history[k + 1] != history[k]
  }

  /** How the attempt that was the last is reported: it had no CPU or no memory; or a thread could not be created;
      or somebody asked for a stop by then; or it is complete, and then the CPUs had not changed, could not be read,
      or had changed for the third time. */
  predicate Concludes(a: Attempt, r: Report) {
    && (r.end == NoCpu <==> r.cpus == [])
    && (r.end == NoCpu || r.end == NoMemory ==> !r.unstable && r.measured == Measurement(0, 0, 0.0))
    && (r.end != NoCpu && r.end != NoMemory ==>
          && (r.end == ThreadsFailed <==> a.creationFailed)
          && (r.end == Cancelled <==> !a.creationFailed && (a.stoppedEarly || a.stopped))
          && (r.unstable <==> !a.creationFailed && !a.stoppedEarly && a.refreshed != Some(r.cpus))
          && (r.unstable && a.refreshed.Some? ==> r.attempts == 3))
  }

  method RunAttempts(test: Test, cpus0: seq<nat>, attempts: nat -> Attempt)
    returns (r: Report, ghost history: seq<seq<nat>>)
    ensures 0 < r.attempts <= ATTEMPTS
    ensures IsHistory(test, cpus0, attempts, history) && |history| == r.attempts
    ensures MeasuredBy(test, attempts(r.attempts - 1), history[r.attempts - 1], r.attempts - 1, r)
  {
    hide SetupOf, SummaryOf;
    var cpus := cpus0;
    history := [cpus];
    var attempt := 0;
    while attempt < ATTEMPTS
      invariant attempt < ATTEMPTS && |history| == attempt + 1 && history[attempt] == cpus
      invariant IsHistory(test, cpus0, attempts, history)
      decreases ATTEMPTS - attempt
    {
      var a := attempts(attempt);
      var setup := Prepare(test, a, cpus);
      if setup.Lacking? {
        return Report(cpus, setup.end, attempt + 1, false, NOTHING), history;
      }
      var unstable := false;
      if !a.creationFailed && !a.stoppedEarly {
        match a.refreshed {
          case None => unstable := true;
          case Some(refreshed) =>
            if refreshed != cpus && attempt < 2 {
              cpus := refreshed;
              history := history + [cpus];
              attempt := attempt + 1;
              continue;
            }
            unstable := refreshed != cpus;
        }
      }
      var measured := Measure(a, PassBytes(test, setup.bytes));
      var end :=
        if a.creationFailed then ThreadsFailed else if a.stoppedEarly || a.stopped then Cancelled else Completed;
      return Report(cpus, end, attempt + 1, unstable, measured), history;
    }
  }

  /** The workers' loops and, after the joins, the summary. */
  method Measure(a: Attempt, perPass: nat) returns (measured: Measurement)
    ensures measured == SummaryOf(a.start, Completions(a.passes, perPass))
  {
    var completions: seq<Completion> := [];
    for w := 0 to |a.passes|
      invariant completions == Completions(a.passes[..w], perPass)
    {
      assert a.passes[..w + 1] == a.passes[..w] + [a.passes[w]];
      var c := MeasurePasses(a.passes[w], perPass);
      completions := completions + [c];
    }
    assert a.passes[..|a.passes|] == a.passes;
    measured := Summarize(a.start, completions);
  }

  /** The CPUs of each attempt: the first as read at the start, every other as read after the warm-up of the
      one before, which had found them changed. */
  ghost predicate IsHistory(test: Test, cpus0: seq<nat>, attempts: nat -> Attempt, history: seq<seq<nat>>) {
    && history != [] && history[0] == cpus0
    && forall k | 0 <= k < |history| - 1 ::
         PreparesAgain(test, attempts(k), history[k], k) && attempts(k).refreshed == Some(history[k + 1])
  }

  /** What is reported about the attempt that was the last. */
  ghost predicate MeasuredBy(test: Test, a: Attempt, cpus: seq<nat>, attempt: nat, r: Report) {
    && !PreparesAgain(test, a, cpus, attempt) && r.cpus == cpus
    && match SetupOf(test, a, cpus)
       case Lacking(end) => r.end == end && r.measured == NOTHING && !r.unstable
       case Region(bytes) =>
         && r.unstable == Unstable(a, cpus)
         && r.measured == SummaryOf(a.start, Completions(a.passes, PassBytes(test, bytes)))
         && r.end == if a.creationFailed then ThreadsFailed
                     else if a.stoppedEarly || a.stopped then Cancelled else Completed
  }

  /** A run that completes on stable CPUs was measured on exactly those its own warm-up ended with; an
      unstable one could not read them, or saw them change a third time. */
  lemma StableMeansUnchanged(
    test: Test, cpus0: seq<nat>, attempts: nat -> Attempt, r: Report, history: seq<seq<nat>>)
    requires 0 < r.attempts <= ATTEMPTS && IsHistory(test, cpus0, attempts, history) && |history| == r.attempts
    requires MeasuredBy(test, attempts(r.attempts - 1), history[r.attempts - 1], r.attempts - 1, r)
    requires r.end == Completed
    ensures !r.unstable <==> attempts(r.attempts - 1).refreshed == Some(r.cpus)
    ensures r.unstable && attempts(r.attempts - 1).refreshed.Some? ==>
      r.attempts == ATTEMPTS && history[0] != history[1] && history[1] != history[2]
  {
    SetupEnds(test, attempts(r.attempts - 1), history[r.attempts - 1]);
    hide SetupOf, SummaryOf;
  }

  lemma SetupEnds(test: Test, a: Attempt, cpus: seq<nat>)
    ensures SetupOf(test, a, cpus).Lacking? ==> SetupOf(test, a, cpus).end == if cpus == [] then NoCpu else NoMemory
    ensures cpus == [] ==> SetupOf(test, a, cpus).Lacking?
    ensures SetupOf(test, a, cpus).Region? ==> SetupOf(test, a, cpus).bytes > 0
  {
  }

  /** The report counts exactly the passes of the attempt that was measured, over the shortest interval from
      its start that holds them; each pass counts its slice once, or twice for a copy, which reads one and writes one. */
  lemma ReportCoversLastAttempt(test: Test, a: Attempt, cpus: seq<nat>, attempt: nat, r: Report)
    requires MeasuredBy(test, a, cpus, attempt, r) && SetupOf(test, a, cpus).Region?
    requires PassesOk(a.start, a.passes, PassBytes(test, SetupOf(test, a, cpus).bytes))
    ensures
      var slice := SetupOf(test, a, cpus).bytes;
      && (test == Copy ==> r.measured.bytes == 2 * (TotalPasses(a.passes) * slice))
      && (test != Copy ==> r.measured.bytes == TotalPasses(a.passes) * slice)
    ensures CoversPasses(a.start, a.passes, PassBytes(test, SetupOf(test, a, cpus).bytes),
                         r.measured.bytes, a.start + r.measured.elapsed)
    ensures r.measured.elapsed > 0 ==> r.measured.gbps * r.measured.elapsed as real == r.measured.bytes as real
  {
    hide CoversPasses, PassesOk, SummaryOf, PreparesAgain, Unstable, SetupOf, TotalPasses;
    var slice := SetupOf(test, a, cpus).bytes;
    SummaryFits(a.start, a.passes, PassBytes(test, slice));
    CoveredBytes(a.start, a.passes, PassBytes(test, slice), r.measured.bytes, a.start + r.measured.elapsed);
    assert TotalPasses(a.passes) * (2 * slice) == 2 * (TotalPasses(a.passes) * slice);
  }

  lemma CoveredBytes(start: nat, passes: seq<seq<nat>>, perPass: nat, bytes: nat, end: nat)
    requires CoversPasses(start, passes, perPass, bytes, end)
    ensures bytes == TotalPasses(passes) * perPass
  {
  }

  lemma SummaryFits(start: nat, passes: seq<seq<nat>>, perPass: nat)
    requires PassesOk(start, passes, perPass)
    ensures var m := SummaryOf(start, Completions(passes, perPass));
      && CoversPasses(start, passes, perPass, m.bytes, start + m.elapsed)
      && (m.elapsed > 0 ==> m.gbps * m.elapsed as real == m.bytes as real)
  {
    hide CoversPasses, PassesOk, Completions, SumBytes, FinishedAt, SummaryOf;
    SummaryCovers(start, passes, perPass);
    var workers := Completions(passes, perPass);
    BytesFit(start, passes, perPass, SumBytes(workers), FinishedAt(start, workers));
    SummaryParts(start, workers);
  }

  lemma BytesFit(start: nat, passes: seq<seq<nat>>, perPass: nat, bytes: nat, end: nat)
    requires PassesOk(start, passes, perPass) && CoversPasses(start, passes, perPass, bytes, end)
    ensures bytes < U64
  {
    hide TotalPasses;
  }

  lemma SummaryParts(start: nat, workers: seq<Completion>)
    requires SumBytes(workers) < U64
    ensures var m := SummaryOf(start, workers);
      && m.bytes == SumBytes(workers) && start + m.elapsed == FinishedAt(start, workers)
      && (m.elapsed > 0 ==> m.gbps * m.elapsed as real == m.bytes as real)
  {
    hide SumBytes, FinishedAt;
    var m := SummaryOf(start, workers);
    if m.elapsed > 0 {
      Quotient(m.bytes as real, m.elapsed as real);
    }
  }

  lemma Quotient(b: real, e: real)
    requires e > 0.0
    ensures b / e * e == b
  {
  }
}
