/** Preparing the storage test's file: opening, filling with a restart by unsigned wraparound, and the
    lists of random offsets (storage_engine.cpp). */
module StorageFile {
  import opened Common

  const MIB := 0x10_0000
  const RANDOM_BLOCK := 4096
  const RANDOM_THREADS := 4

  // ---------------------------------------------------------------- filling

  /** What a write of one block comes back with: all of it, a refusal that direct I/O may explain, or less. */
  datatype Written = All | Unsupported | Failed

  /** The kernel's answers, turn by turn, and whether a stop was requested by then. */
  datatype Kernel = Kernel(stop: nat -> bool, write: nat -> Written)

  datatype Outcome = Prepared | Stopped | OpenFailed | IoFailed

  /** n turns in a row went well. */
  ghost predicate AllGood(kernel: Kernel, from: nat, n: nat) {
    forall t | from <= t < from + n :: Good(kernel, t)
  }

  ghost predicate Good(kernel: Kernel, t: nat) {
    !kernel.stop(t) && kernel.write(t) == All
  }

  /** Direct I/O gives up at turn t, and the file can be usable again without it. */
  ghost predicate FallsBack(kernel: Kernel, direct: bool, reopens: bool, t: nat) {
    direct && reopens && !kernel.stop(t) && kernel.write(t) == Unsupported
  }

  /** One pass over n blocks goes well, or direct I/O gives up on the way and a second pass goes well. */
  ghost predicate FillsUp(kernel: Kernel, direct: bool, reopens: bool, n: nat) {
    || AllGood(kernel, 0, n)
    || exists t | 0 <= t < n ::
         FallsBack(kernel, direct, reopens, t) && AllGood(kernel, 0, t) && AllGood(kernel, t + 1, n)
  }

  /** offset += block, in 64-bit unsigned arithmetic. */
  function Advance(offset: nat): nat {
    (offset + MIB) % U64
  }

  /** Minus one block wraps around to zero at the next step. */
  lemma RestartsAtZero()
    ensures Advance((0 - MIB) % U64) == 0
  {
  }

  lemma AdvancesByBlock(offset: nat)
    requires offset + MIB < U64
    ensures Advance(offset) == offset + MIB
  {
  }

  /** Exactly the blocks below an offset are stored, all by one descriptor. */
  ghost predicate StoredTo(stored: map<nat, nat>, descriptor: nat, offset: nat) {
    forall o: nat :: (o in stored <==> o < offset && o % MIB == 0) && (o in stored ==> stored[o] == descriptor)
  }

  lemma StoreBlock(stored: map<nat, nat>, descriptor: nat, offset: nat)
    requires StoredTo(stored, descriptor, offset) && offset % MIB == 0
    ensures StoredTo(stored[offset := descriptor], descriptor, offset + MIB)
  {
  }

  lemma NothingStored(descriptor: nat)
    ensures StoredTo(map[], descriptor, 0)
  {
  }

  class RawFile {
    const size: nat
    var direct: bool
    var alignment: nat
    // The descriptor in use, counted by open calls, and which descriptor wrote which block since the
    // file was last truncated.
    ghost var descriptor: nat
    ghost var stored: map<nat, nat>

    constructor (mib: nat)
      ensures size == mib * MIB && stored == map[] && !direct
    {
      size, direct, alignment, descriptor, stored := mib * MIB, false, 4096, 0, map[];
    }

    /** open with O_TRUNC: a new descriptor, an empty file. */
    method OpenTruncated()
      modifies this
      ensures descriptor == old(descriptor) + 1 && stored == map[]
      ensures direct == old(direct) && alignment == old(alignment)
    {
      descriptor, stored := descriptor + 1, map[];
    }

    /** Direct I/O if the kernel offers it and its alignment fits the random block, buffered otherwise. */
    method Open(directOpens: bool, memoryAlign: nat, offsetAlign: nat, plainOpens: bool) returns (ok: bool)
      modifies this
      ensures ok <==> (directOpens && memoryAlign <= RANDOM_BLOCK && offsetAlign <= RANDOM_BLOCK) || plainOpens
      ensures ok ==> (direct <==> directOpens && memoryAlign <= RANDOM_BLOCK && offsetAlign <= RANDOM_BLOCK)
      ensures ok ==> alignment == RANDOM_BLOCK && stored == map[] && descriptor > old(descriptor)
    {
      var usable := false;
      if directOpens {
        OpenTruncated();
        // Anything above the random block is refused, a power of two or not.
        alignment := Max(4096, Max(memoryAlign, offsetAlign));
        if !(alignment == 0 || alignment > RANDOM_BLOCK || RANDOM_BLOCK % alignment != 0) {
          direct := true;
          usable := true;
        }
      }
      if !usable {
        if plainOpens {
          OpenTruncated();
        }
        usable := plainOpens;
        alignment := 4096;
        direct := false;
      }
      return usable;
    }

    /** Every block holds the pattern, written through the descriptor in use. */
    ghost predicate Filled()
      reads this
    {
      StoredTo(stored, descriptor, size)
    }

    /** The fill loop. offset is a 64-bit unsigned counter; a restart sets it one block below zero. */
    method Fill(kernel: Kernel, reopens: bool) returns (outcome: Outcome, turn: nat)
      requires stored == map[] && size % MIB == 0 && size + MIB < U64
      modifies this
      ensures outcome == Prepared <==> FillsUp(kernel, old(direct), reopens, size / MIB)
      ensures outcome == Prepared ==> Filled()
      ensures descriptor <= old(descriptor) + 1
      ensures descriptor != old(descriptor) ==> old(direct) && !direct
      ensures descriptor == old(descriptor) && outcome != OpenFailed ==> direct == old(direct)
      ensures turn <= 2 * (size / MIB)
      ensures outcome == Stopped ==> kernel.stop(turn)
      ensures outcome == OpenFailed ==>
        old(direct) && !reopens && !kernel.stop(turn) && kernel.write(turn) == Unsupported && AllGood(kernel, 0, turn)
      ensures outcome == IoFailed ==>
        !kernel.stop(turn) && kernel.write(turn) != All && (kernel.write(turn) == Unsupported ==> !direct)
    {
      hide AllGood, FillsUp, StoredTo, Advance;
      var offset: nat := 0;
      turn := 0;
      ghost var start, done, n := 0, 0, size / MIB;
      assert size == n * MIB;
      NothingYet(kernel, 0);
      NothingStored(descriptor);
      while offset < size
        invariant offset == done * MIB && done <= n && turn == start + done
        invariant StoredTo(stored, descriptor, offset)
        invariant AllGood(kernel, start, done)
        invariant start == 0 ==> direct == old(direct) && descriptor == old(descriptor)
        invariant start > 0 ==> !direct && descriptor == old(descriptor) + 1
        invariant start > 0 ==> start <= n && FallsBack(kernel, old(direct), reopens, start - 1)
        invariant start > 0 ==> AllGood(kernel, 0, start - 1)
        decreases direct, n - done
      {
        if kernel.stop(turn) {
          NoFillUp(kernel, old(direct), reopens, n, start, done);
          return Stopped, turn;
        }
        if kernel.write(turn) != All {
          if direct && kernel.write(turn) == Unsupported {
            direct, alignment := false, 4096;
            if !reopens {
              NoFillUp(kernel, old(direct), reopens, n, start, done);
              return OpenFailed, turn;
            }
            OpenTruncated();
            offset := (0 - MIB) % U64;
            RestartsAtZero();
            start, done := turn + 1, 0;
            NothingYet(kernel, start);
            NothingStored(descriptor);
          } else {
            NoFillUp(kernel, old(direct), reopens, n, start, done);
            return IoFailed, turn;
          }
        } else {
          StoreBlock(stored, descriptor, offset);
          AdvancesByBlock(offset);
          stored := stored[offset := descriptor];
          OneMore(kernel, start, done);
          done := done + 1;
        }
        offset := Advance(offset);
        turn := turn + 1;
      }
      WholePass(kernel, old(direct), reopens, n, start);
      return Prepared, turn;
    }
  }

  lemma NothingYet(kernel: Kernel, from: nat)
    ensures AllGood(kernel, from, 0)
  {
  }

  lemma OneMore(kernel: Kernel, from: nat, n: nat)
    requires AllGood(kernel, from, n) && !kernel.stop(from + n) && kernel.write(from + n) == All
    ensures AllGood(kernel, from, n + 1)
  {
  }

  lemma WholePass(kernel: Kernel, direct: bool, reopens: bool, n: nat, start: nat)
    requires AllGood(kernel, start, n)
    requires start > 0 ==>
      start <= n && FallsBack(kernel, direct, reopens, start - 1) && AllGood(kernel, 0, start - 1)
    ensures FillsUp(kernel, direct, reopens, n)
  {
    hide AllGood, FallsBack;
  }

  /** A turn that neither succeeds nor falls back ends all hope, on the first pass or the second. */
  lemma NoFillUp(kernel: Kernel, direct: bool, reopens: bool, n: nat, start: nat, k: nat)
    requires AllGood(kernel, start, k) && k < n && !Good(kernel, start + k)
    requires start == 0 ==> !FallsBack(kernel, direct, reopens, k)
    requires start > 0 ==>
      start <= n && FallsBack(kernel, direct, reopens, start - 1) && AllGood(kernel, 0, start - 1)
    ensures !FillsUp(kernel, direct, reopens, n)
  {
    var first := if start == 0 then k else start - 1;
    assert !Good(kernel, first);
    assert !AllGood(kernel, 0, n);
    forall t: nat | t < n && FallsBack(kernel, direct, reopens, t) && AllGood(kernel, 0, t)
      ensures !AllGood(kernel, t + 1, n)
    {
      assert !Good(kernel, t);
      assert t == first;
    }
  }

  // ---------------------------------------------------------------- random offsets

  /** A shuffle of n positions. */
  ghost predicate IsOrder(order: seq<nat>, n: nat) {
    && |order| == n && (forall i | 0 <= i < n :: order[i] < n)
    && (forall i, j | 0 <= i < j < n :: order[i] != order[j])
  }

  function Down(a: nat): nat {
    a / RANDOM_BLOCK * RANDOM_BLOCK
  }

  /** The random blocks of a region, as they lie. */
  function Blocks(begin: nat, end: nat): (blocks: seq<nat>)
    ensures |blocks| == if end > begin then (end - begin) / RANDOM_BLOCK else 0
    ensures forall i | 0 <= i < |blocks| :: blocks[i] == begin + i * RANDOM_BLOCK
  {
    seq(if end > begin then (end - begin) / RANDOM_BLOCK else 0, i requires i >= 0 => begin + i * RANDOM_BLOCK)
  }

  /** The region a list is made for; an end of zero, or one past the file, means the end of the file. */
  function RegionEnd(fileSize: nat, end: nat): nat {
    Down(if end == 0 || end > fileSize then fileSize else end)
  }

  /** MakeRandomOffsets, shuffled in any order. */
  method MakeRandomOffsets(fileSize: nat, begin0: nat, end0: nat, order: seq<nat>) returns (offsets: seq<nat>)
    requires fileSize < U64 - RANDOM_BLOCK
    requires IsOrder(order, |Blocks(Down(begin0), RegionEnd(fileSize, end0))|)
    ensures |offsets| == |order|
    ensures forall i | 0 <= i < |order| :: offsets[i] == Blocks(Down(begin0), RegionEnd(fileSize, end0))[order[i]]
    ensures ListsBlocks(offsets, begin0, if end0 == 0 || end0 > fileSize then fileSize else end0)
  {
    offsets := ListAndShuffle(fileSize, begin0, end0, order);
    ListedBlocks(offsets, fileSize, begin0, end0, order);
  }

  /** The list holds each whole block between begin, rounded down to a block, and end once, and nothing else. */
  ghost predicate ListsBlocks(offsets: seq<nat>, begin: nat, end: nat) {
    && (forall o: nat :: o in offsets <==> o % 4096 == 0 && begin < o + 4096 <= end)
    && (forall i, j | 0 <= i < j < |offsets| :: offsets[i] != offsets[j])
  }

  method ListAndShuffle(fileSize: nat, begin0: nat, end0: nat, order: seq<nat>) returns (offsets: seq<nat>)
    requires fileSize < U64 - RANDOM_BLOCK
    requires IsOrder(order, |Blocks(Down(begin0), RegionEnd(fileSize, end0))|)
    ensures |offsets| == |order|
    ensures forall i | 0 <= i < |order| :: offsets[i] == Blocks(Down(begin0), RegionEnd(fileSize, end0))[order[i]]
  {
    var end := if end0 == 0 || end0 > fileSize then fileSize else end0;
    var begin := begin0 / RANDOM_BLOCK * RANDOM_BLOCK;
    end := end / RANDOM_BLOCK * RANDOM_BLOCK;
    var listed: seq<nat> := [];
    var offset := begin;
    while offset + RANDOM_BLOCK <= end
      invariant offset == begin + |listed| * RANDOM_BLOCK
      invariant |listed| <= |Blocks(begin, end)|
      invariant listed == Blocks(begin, end)[..|listed|]
    {
      listed := listed + [offset];
      offset := offset + RANDOM_BLOCK;
    }
    assert listed == Blocks(begin, end);
    offsets := seq(|order|, i requires 0 <= i < |order| && |listed| == |order| && IsOrder(order, |order|) => listed[order[i]]);
  }

  predicate InRegion(o: nat, begin: nat, end: nat) {
    begin <= o < end && o % RANDOM_BLOCK == 0
  }

  /** The shuffled list of a region. */
  ghost predicate IsList(offsets: seq<nat>, begin: nat, end: nat, order: seq<nat>) {
    && IsOrder(order, |Blocks(begin, end)|) && |offsets| == |order|
    && (forall i | 0 <= i < |order| :: offsets[i] == Blocks(begin, end)[order[i]])
  }

  ghost predicate IsInjection(places: seq<nat>, m: nat) {
    && (forall i | 0 <= i < |places| :: places[i] < m)
    && (forall i, j | 0 <= i < j < |places| :: places[i] != places[j])
  }

  lemma {:induction false} Pigeonhole(places: seq<nat>, m: nat)
    requires IsInjection(places, m)
    ensures |places| <= m
    decreases m
  {
    if places != [] {
      assert places[0] < m;
      var p := 0;
      while p < |places| && places[p] != m - 1
        invariant p <= |places| && forall i | 0 <= i < p :: places[i] != m - 1
      {
        p := p + 1;
      }
      Pigeonhole(if p < |places| then places[..p] + places[p + 1..] else places, m - 1);
    }
  }

  lemma OrderIsOnto(order: seq<nat>, n: nat, k: nat)
    requires IsOrder(order, n) && k < n
    ensures k in order
  {
    if k !in order {
      var closed := seq(n, i requires 0 <= i < n => if order[i] > k then order[i] - 1 else order[i]);
      assert forall i | 0 <= i < n :: order[i] != k;
      Pigeonhole(closed, n - 1);
    }
  }

  /** A list names each block of its region exactly once, in whatever order, and nothing else. */
  lemma EachBlockOnce(offsets: seq<nat>, begin: nat, end: nat, order: seq<nat>, o: nat)
    requires IsList(offsets, begin, end, order) && begin % RANDOM_BLOCK == 0 && end % RANDOM_BLOCK == 0
    ensures o in offsets <==> InRegion(o, begin, end)
    ensures forall i, j | 0 <= i < j < |offsets| :: offsets[i] != offsets[j]
  {
    var blocks := Blocks(begin, end);
    if InRegion(o, begin, end) {
      var k := (o - begin) / RANDOM_BLOCK;
      assert blocks[k] == o;
      OrderIsOnto(order, |blocks|, k);
      var i :| 0 <= i < |order| && order[i] == k;
      assert offsets[i] == o;
    }
    if o in offsets {
      var i :| 0 <= i < |offsets| && offsets[i] == o;
      assert o == begin + order[i] * RANDOM_BLOCK;
    }
  }

  lemma DownIs(a: nat)
    ensures Down(a) % 4096 == 0 && Down(a) <= a < Down(a) + 4096
  {
  }

  lemma WholeBlocks(begin: nat, end: nat, o: nat)
    ensures InRegion(o, Down(begin), Down(end)) <==> o % 4096 == 0 && begin < o + 4096 <= end
  {
    DownIs(begin);
    DownIs(end);
    hide Down;
    if o % 4096 == 0 {
      MultiplesApart(o, Down(begin));
      MultiplesApart(o, Down(end));
    }
  }

  lemma MultiplesApart(a: nat, b: nat)
    requires a % 4096 == 0 && b % 4096 == 0
    ensures a < b <==> a + 4096 <= b
  {
    assert a == 4096 * (a / 4096) && b == 4096 * (b / 4096);
  }

  lemma ListedBlocks(offsets: seq<nat>, fileSize: nat, begin: nat, end: nat, order: seq<nat>)
    requires IsList(offsets, Down(begin), RegionEnd(fileSize, end), order)
    ensures ListsBlocks(offsets, begin, if end == 0 || end > fileSize then fileSize else end)
  {
    var last := if end == 0 || end > fileSize then fileSize else end;
    DownIs(begin);
    DownIs(last);
    hide Down, InRegion, IsOrder, Blocks;
    assert RegionEnd(fileSize, end) == Down(last);
    forall o: nat ensures o in offsets <==> o % 4096 == 0 && begin < o + 4096 <= last {
      EachBlockOnce(offsets, Down(begin), Down(last), order, o);
      WholeBlocks(begin, last, o);
    }
    EachBlockOnce(offsets, Down(begin), Down(last), order, 0);
  }

  /** The region of one of the four synchronous workers. */
  function WorkerBegin(fileSize: nat, worker: nat): nat {
    fileSize / RANDOM_THREADS * worker
  }

  function WorkerEnd(fileSize: nat, worker: nat): nat {
    if worker + 1 == RANDOM_THREADS then fileSize else fileSize / RANDOM_THREADS * (worker + 1)
  }

  /** The worker whose quarter an offset lies in. */
  function OwnerOf(fileSize: nat, o: nat): nat {
    var quarter := fileSize / RANDOM_THREADS;
    if o < quarter then 0 else if o < 2 * quarter then 1 else if o < 3 * quarter then 2 else 3
  }

  lemma QuartersAreAligned(fileSize: nat)
    requires fileSize % MIB == 0
    ensures fileSize == 4 * (fileSize / RANDOM_THREADS) && fileSize / RANDOM_THREADS % RANDOM_BLOCK == 0
  {
    var m := fileSize / MIB;
    assert fileSize == 4 * (64 * m * RANDOM_BLOCK);
  }

  lemma DownKeeps(k: nat)
    ensures Down(k * RANDOM_BLOCK) == k * RANDOM_BLOCK
  {
  }

  /** The workers' regions need no rounding, and every block lies in the region of exactly one worker. */
  lemma WorkersSplitTheFile(fileSize: nat, o: nat, worker: nat)
    requires fileSize % MIB == 0 && fileSize > 0 && worker < RANDOM_THREADS
    ensures Down(WorkerBegin(fileSize, worker)) == WorkerBegin(fileSize, worker)
    ensures RegionEnd(fileSize, WorkerEnd(fileSize, worker)) == WorkerEnd(fileSize, worker)
    ensures InRegion(o, WorkerBegin(fileSize, worker), WorkerEnd(fileSize, worker)) <==>
      InRegion(o, 0, fileSize) && worker == OwnerOf(fileSize, o)
  {
    QuartersAreAligned(fileSize);
    var quarter := fileSize / RANDOM_THREADS;
    var k := quarter / RANDOM_BLOCK;
    hide Down;
    DownKeeps(worker * k);
    DownKeeps((worker + 1) * k);
    DownKeeps(4 * k);
    assert worker == 0 || worker == 1 || worker == 2 || worker == 3;
  }
}
