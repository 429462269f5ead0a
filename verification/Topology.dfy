/** Performance groups, the preferred single CPU and candidate selection (topology.cpp). */
module CpuTopology {
  import opened Common

  type Word = w: int | 0 <= w < 0x1_0000_0000

  datatype CpuInfo = CpuInfo(logicalCpu: Word, online: bool, allowed: bool, clusterId: int, policyId: int,
                             maxFrequencyKhz: Word, capacity: Word, performanceGroup: nat)

  /** The quality bits this file touches, and the rest of the word. */
  datatype Quality = Quality(singleCpuInferred: bool, singleCpuUnknown: bool, groupsInferred: bool,
                             topologyTruncated: bool, rest: nat)

  datatype RankSource = ByCapacity | ByFrequency | UnknownRank

  datatype GroupSource = ByCluster | ByPolicy | ByRank

  const MAXIMUM_GROUPS := 16

  // ---------------------------------------------------------------- ranks and identities

  predicate AllHaveCapacity(cpus: seq<CpuInfo>) {
    forall i | 0 <= i < |cpus| :: cpus[i].capacity > 0
  }

  predicate AllHaveFrequency(cpus: seq<CpuInfo>) {
    forall i | 0 <= i < |cpus| :: cpus[i].maxFrequencyKhz > 0
  }

  function CommonRankSource(cpus: seq<CpuInfo>): RankSource {
    if cpus == [] then UnknownRank
    else if AllHaveCapacity(cpus) then ByCapacity
    else if AllHaveFrequency(cpus) then ByFrequency
    else UnknownRank
  }

  /** Capacity in the high word, frequency in the low word. */
  function Rank(cpu: CpuInfo, source: RankSource): nat {
    match source
    case ByCapacity => cpu.capacity * U32 + cpu.maxFrequencyKhz
    case ByFrequency => cpu.maxFrequencyKhz
    case UnknownRank => 0
  }

  /** The same 64 bits read as a signed number. */
  function Signed64(v: nat): int {
    if v < 0x8000_0000_0000_0000 then v else v - U64
  }

  function Identity(cpu: CpuInfo, groups: GroupSource, ranks: RankSource): int {
    match groups
    case ByCluster => cpu.clusterId
    case ByPolicy => cpu.policyId
    case ByRank => Signed64(Rank(cpu, ranks))
  }

  function ClusterIds(cpus: seq<CpuInfo>): set<int> {
    set i | 0 <= i < |cpus| && cpus[i].clusterId >= 0 :: cpus[i].clusterId
  }

  function PolicyIds(cpus: seq<CpuInfo>): set<int> {
    set i | 0 <= i < |cpus| && cpus[i].policyId >= 0 :: cpus[i].policyId
  }

  predicate ClustersComplete(cpus: seq<CpuInfo>) {
    (ClusterIds(cpus) != {} || PolicyIds(cpus) != {}) && forall i | 0 <= i < |cpus| :: cpus[i].clusterId >= 0
  }

  predicate PoliciesComplete(cpus: seq<CpuInfo>) {
    (ClusterIds(cpus) != {} || PolicyIds(cpus) != {}) && forall i | 0 <= i < |cpus| :: cpus[i].policyId >= 0
  }

  predicate DistinctRanks(cpus: seq<CpuInfo>, ranks: RankSource) {
    exists i, j | 0 <= i < |cpus| && 0 <= j < |cpus| :: Rank(cpus[i], ranks) != Rank(cpus[j], ranks)
  }

  /** Reported clusters or frequency policies when they tell CPUs apart, or when ranks do not. */
  function ChooseGroups(cpus: seq<CpuInfo>): GroupSource {
    var ranks := CommonRankSource(cpus);
    if ClustersComplete(cpus) && |ClusterIds(cpus)| > 1 then ByCluster
    else if PoliciesComplete(cpus) && |PolicyIds(cpus)| > 1 then ByPolicy
    else if ClustersComplete(cpus) && !DistinctRanks(cpus, ranks) then ByCluster
    else if PoliciesComplete(cpus) && !DistinctRanks(cpus, ranks) then ByPolicy
    else ByRank
  }

  // ---------------------------------------------------------------- group numbers, declared by counting

  function IdentityOf(cpus: seq<CpuInfo>, i: nat): int
    requires i < |cpus|
  {
    Identity(cpus[i], ChooseGroups(cpus), CommonRankSource(cpus))
  }

  function RankOf(cpus: seq<CpuInfo>, i: nat): nat
    requires i < |cpus|
  {
    Rank(cpus[i], CommonRankSource(cpus))
  }

  function Identities(cpus: seq<CpuInfo>): set<int> {
    set i | 0 <= i < |cpus| :: IdentityOf(cpus, i)
  }

  /** The highest rank among the CPUs of one identity, looking at the first n CPUs. */
  function MaxRank(cpus: seq<CpuInfo>, id: int, n: nat): nat
    requires n <= |cpus|
  {
    if n == 0 then 0
    else if IdentityOf(cpus, n - 1) == id then Max(MaxRank(cpus, id, n - 1), RankOf(cpus, n - 1))
    else MaxRank(cpus, id, n - 1)
  }

  /** Group a comes before group b: lower maximum rank, or the same and a smaller identity. */
  predicate Before(key: map<int, nat>, a: int, b: int)
    requires a in key && b in key
  {
    key[a] < key[b] || (key[a] == key[b] && a < b)
  }

  function GroupKeys(cpus: seq<CpuInfo>): map<int, nat> {
    map id | id in Identities(cpus) :: MaxRank(cpus, id, |cpus|)
  }

  /** The identities that come before a given one. */
  function Earlier(key: map<int, nat>, id: int): set<int>
    requires id in key
  {
    set a | a in key && Before(key, a, id)
  }

  /** The declared group number: how many groups come before, with everything from the sixteenth folded into one. */
  function GroupNumber(key: map<int, nat>, id: int): nat
    requires id in key
  {
    Min(|Earlier(key, id)|, MAXIMUM_GROUPS - 1)
  }

  lemma EarlierGrows(key: map<int, nat>, a: int, b: int)
    requires a in key && b in key && Before(key, a, b)
    ensures Earlier(key, a) < Earlier(key, b) && |Earlier(key, a)| < |Earlier(key, b)|
  {
    assert a in Earlier(key, b) && a !in Earlier(key, a);
    assert Earlier(key, a) + {a} <= Earlier(key, b);
    SubsetSize(Earlier(key, a) + {a}, Earlier(key, b));
  }

  lemma {:induction false} SubsetSize(a: set<int>, b: set<int>)
    requires a <= b
    ensures |a| <= |b|
  {
    if a != {} {
      var x := Pick(a);
      SubsetSize(a - {x}, b - {x});
    }
  }

  lemma EarlierBound(key: map<int, nat>, id: int)
    requires id in key
    ensures |Earlier(key, id)| < |key|
  {
    assert id !in Earlier(key, id);
    SubsetSize(Earlier(key, id) + {id}, key.Keys);
    assert |key.Keys| == |key|;
  }

  /** Groups are ordered like their keys, and distinct below the fold. */
  lemma GroupsFollowKeys(key: map<int, nat>, a: int, b: int)
    requires a in key && b in key
    ensures Before(key, a, b) ==> GroupNumber(key, a) <= GroupNumber(key, b)
    ensures GroupNumber(key, a) < GroupNumber(key, b) ==> Before(key, a, b)
    ensures a != b && GroupNumber(key, a) == GroupNumber(key, b) ==> GroupNumber(key, a) == MAXIMUM_GROUPS - 1
  {
    if Before(key, a, b) {
      EarlierGrows(key, a, b);
    } else if a != b {
      EarlierGrows(key, b, a);
    }
  }

  lemma {:induction false} LatestExists(key: map<int, nat>, ids: set<int>) returns (last: int)
    requires ids != {} && ids <= key.Keys
    ensures last in ids && forall a | a in ids && a != last :: Before(key, a, last)
  {
    var x := Pick(ids);
    var rest := ids - {x};
    assert forall a | a in ids :: a == x || a in rest;
    if rest == {} {
      last := x;
    } else {
      var y := LatestExists(key, rest);
      last := if Before(key, x, y) then y else x;
    }
  }

  /** Every number below the count of groups is the position of some identity. */
  lemma {:induction false} PositionTaken(key: map<int, nat>, ids: set<int>, g: nat) returns (id: int)
    requires ids <= key.Keys && g < |ids|
    ensures id in ids && |set a | a in ids && Before(key, a, id)| == g
    decreases |ids|
  {
    var last := LatestExists(key, ids);
    var rest := ids - {last};
    if g == |ids| - 1 {
      id := last;
      assert (set a | a in ids && Before(key, a, last)) == rest;
    } else {
      id := PositionTaken(key, rest, g);
      assert (set a | a in ids && Before(key, a, id)) == (set a | a in rest && Before(key, a, id)) by {
        assert !Before(key, last, id);
      }
    }
  }

  lemma GroupsCover(key: map<int, nat>, g: nat)
    requires g < Min(|key|, MAXIMUM_GROUPS)
    ensures exists id | id in key :: GroupNumber(key, id) == g
  {
    assert |key.Keys| == |key|;
    var id := PositionTaken(key, key.Keys, g);
    assert Earlier(key, id) == set a | a in key.Keys && Before(key, a, id);
    assert GroupNumber(key, id) == g;
  }

  lemma GroupsBounded(key: map<int, nat>, id: int)
    requires id in key
    ensures GroupNumber(key, id) < Min(|key|, MAXIMUM_GROUPS)
  {
    EarlierBound(key, id);
  }

  // ---------------------------------------------------------------- the preferred CPU

  datatype Best = Best(preferred: int, rank: nat, available: bool)

  function Signed32(v: Word): int {
    if v < 0x8000_0000 then v else v - U32
  }

  predicate Available(cpu: CpuInfo) {
    cpu.online && cpu.allowed
  }

  /** One turn of the selection loop. */
  function Consider(best: Best, cpu: CpuInfo, source: RankSource): Best {
    var rank, available := Rank(cpu, source), Available(cpu);
    var tieBetter := rank == best.rank
                     && ((source == UnknownRank && available && !best.available)
                         || ((source != UnknownRank || available == best.available)
                             && cpu.logicalCpu < best.preferred % U32));
    if best.preferred < 0 || rank > best.rank || tieBetter then Best(Signed32(cpu.logicalCpu), rank, available) else best
  }

  function BestOf(cpus: seq<CpuInfo>, source: RankSource): Best {
    if cpus == [] then Best(-1, 0, false) else Consider(BestOf(cpus[..|cpus| - 1], source), cpus[|cpus| - 1], source)
  }

  /** a is at least as good a choice as b: by rank then id when ranks are evidence, else by availability then id. */
  predicate AsGood(a: CpuInfo, b: CpuInfo, source: RankSource) {
    if source == UnknownRank then
      (Available(a) && !Available(b)) || (Available(a) == Available(b) && a.logicalCpu <= b.logicalCpu)
    else
      Rank(a, source) > Rank(b, source) || (Rank(a, source) == Rank(b, source) && a.logicalCpu <= b.logicalCpu)
  }

  /** p is the id of a CPU as good as every other; no CPU, no preference. */
  predicate IsPreferred(cpus: seq<CpuInfo>, source: RankSource, p: int) {
    if cpus == [] then p == -1
    else exists i | 0 <= i < |cpus| ::
      cpus[i].logicalCpu == p && forall j | 0 <= j < |cpus| :: AsGood(cpus[i], cpus[j], source)
  }

  predicate Fits(cpu: CpuInfo) {
    cpu.logicalCpu < 0x8000_0000
  }

  /** No other CPU is a better choice than the k-th. */
  predicate IsBestAt(cpus: seq<CpuInfo>, source: RankSource, k: nat) {
    k < |cpus| && forall j | 0 <= j < |cpus| :: AsGood(cpus[k], cpus[j], source)
  }

  /** The best choice has an id that fits the signed field it is stored in; all best choices have one id. */
  predicate BestFits(cpus: seq<CpuInfo>, source: RankSource) {
    exists k | 0 <= k < |cpus| :: IsBestAt(cpus, source, k) && Fits(cpus[k])
  }

  function Chosen(cpu: CpuInfo, source: RankSource): Best {
    Best(Signed32(cpu.logicalCpu), Rank(cpu, source), Available(cpu))
  }

  /** A turn keeps a choice that fits and is not worse than the next CPU, whatever that one's id. */
  lemma ConsiderKeeps(a: CpuInfo, b: CpuInfo, source: RankSource)
    requires Fits(a) && AsGood(a, b, source)
    ensures Consider(Chosen(a, source), b, source) == Chosen(a, source)
  {
    hide Rank;
    UnknownRanksZero(a, source);
    UnknownRanksZero(b, source);
  }

  /** A turn takes a CPU that is better than a choice that fits. */
  lemma ConsiderTakes(a: CpuInfo, b: CpuInfo, source: RankSource)
    requires Fits(a) && !AsGood(a, b, source)
    ensures Consider(Chosen(a, source), b, source) == Chosen(b, source)
  {
    hide Rank;
    UnknownRanksZero(a, source);
    UnknownRanksZero(b, source);
  }

  /** A choice that does not fit is stored as a negative number, and lost to any CPU that comes next. */
  lemma ConsiderForgets(best: Best, b: CpuInfo, source: RankSource)
    requires best.preferred < 0
    ensures Consider(best, b, source) == Chosen(b, source)
  {
  }

  lemma AsGoodTransitive(a: CpuInfo, b: CpuInfo, c: CpuInfo, source: RankSource)
    requires AsGood(a, b, source) && AsGood(b, c, source)
    ensures AsGood(a, c, source)
  {
    hide Rank;
  }

  lemma AsGoodTotal(a: CpuInfo, b: CpuInfo, source: RankSource)
    ensures AsGood(a, a, source) && (AsGood(a, b, source) || AsGood(b, a, source))
    ensures AsGood(a, b, source) && AsGood(b, a, source) ==> a.logicalCpu == b.logicalCpu
  {
    hide Rank;
  }

  /** The loop's choice is always one of the CPUs seen. */
  lemma {:induction false} ChoiceSeen(cpus: seq<CpuInfo>, source: RankSource) returns (k: nat)
    requires cpus != []
    ensures k < |cpus| && BestOf(cpus, source) == Chosen(cpus[k], source)
  {
    hide AsGood, Rank;
    var last := |cpus| - 1;
    k := last;
    if last == 0 {
      ConsiderForgets(BestOf(cpus[..last], source), cpus[last], source);
    } else {
      hide Consider, Chosen;
      var before := ChoiceSeen(cpus[..last], source);
      ChoiceTurn(cpus[before], cpus[last], source);
      if BestOf(cpus, source) == Chosen(cpus[before], source) {
        k := before;
      }
    }
  }

  lemma ChoiceTurn(a: CpuInfo, b: CpuInfo, source: RankSource)
    ensures var best := Consider(Chosen(a, source), b, source); best == Chosen(a, source) || best == Chosen(b, source)
    ensures !Fits(a) ==> Consider(Chosen(a, source), b, source) == Chosen(b, source)
  {
    hide AsGood, Rank, Consider;
    if !Fits(a) {
      ConsiderForgets(Chosen(a, source), b, source);
    } else if AsGood(a, b, source) {
      ConsiderKeeps(a, b, source);
    } else {
      ConsiderTakes(a, b, source);
    }
  }

  /** Once the loop has passed a CPU that fits and is as good as all, it holds such a CPU. */
  lemma {:induction false} BestIsHeld(cpus: seq<CpuInfo>, source: RankSource, best: nat, n: nat) returns (k: nat)
    requires IsBestAt(cpus, source, best) && Fits(cpus[best]) && best < n <= |cpus|
    ensures IsBestAt(cpus, source, k) && Fits(cpus[k]) && BestOf(cpus[..n], source) == Chosen(cpus[k], source)
    decreases n
  {
    hide AsGood, Rank, Consider, Chosen;
    var last := n - 1;
    assert cpus[..n][..last] == cpus[..last] && cpus[..n][last] == cpus[last];
    if best < last {
      k := BestIsHeld(cpus, source, best, last);
      ConsiderKeeps(cpus[k], cpus[last], source);
    } else if last == 0 {
      k := last;
      ConsiderForgets(BestOf([], source), cpus[last], source);
    } else {
      var before := ChoiceSeen(cpus[..last], source);
      k := ArrivalHeld(cpus, source, before, last);
    }
  }

  /** The turn that meets the best CPU takes it, or already held one as good. */
  lemma ArrivalHeld(cpus: seq<CpuInfo>, source: RankSource, before: nat, last: nat) returns (k: nat)
    requires IsBestAt(cpus, source, last) && Fits(cpus[last]) && before < |cpus|
    ensures IsBestAt(cpus, source, k) && Fits(cpus[k])
    ensures Consider(Chosen(cpus[before], source), cpus[last], source) == Chosen(cpus[k], source)
  {
    hide AsGood, Rank, Consider, Chosen;
    k := last;
    if Fits(cpus[before]) && AsGood(cpus[before], cpus[last], source) {
      k := before;
      ConsiderKeeps(cpus[before], cpus[last], source);
      forall j | 0 <= j < |cpus| ensures AsGood(cpus[before], cpus[j], source) {
        AsGoodTransitive(cpus[before], cpus[last], cpus[j], source);
      }
    } else if Fits(cpus[before]) {
      ConsiderTakes(cpus[before], cpus[last], source);
    } else {
      ChoiceTurn(cpus[before], cpus[last], source);
    }
  }

  /** The loop chooses the preferred CPU if and only if the best choice has an id below 2^31, or there is no
      CPU at all; ids of 2^31 or more among the others do no harm. */
  lemma PreferredExactly(cpus: seq<CpuInfo>, source: RankSource)
    ensures IsPreferred(cpus, source, BestOf(cpus, source).preferred) <==> cpus == [] || BestFits(cpus, source)
  {
    hide AsGood, Rank, Consider;
    if cpus != [] {
      var seen := ChoiceSeen(cpus, source);
      var p := BestOf(cpus, source).preferred;
      if BestFits(cpus, source) {
        var best: nat :| IsBestAt(cpus, source, best) && Fits(cpus[best]);
        assert cpus[..|cpus|] == cpus;
        var k := BestIsHeld(cpus, source, best, |cpus|);
        assert cpus[k].logicalCpu == p;
      }
      if IsPreferred(cpus, source, p) {
        var i :| 0 <= i < |cpus| && cpus[i].logicalCpu == p && forall j | 0 <= j < |cpus| :: AsGood(cpus[i], cpus[j], source);
        assert IsBestAt(cpus, source, i) && Fits(cpus[i]);
      }
    }
  }

  /** In particular the choice is the preferred CPU when every id fits. */
  lemma BestIsPreferred(cpus: seq<CpuInfo>, source: RankSource)
    requires forall i | 0 <= i < |cpus| :: Fits(cpus[i])
    ensures IsPreferred(cpus, source, BestOf(cpus, source).preferred)
  {
    hide AsGood, Rank, Consider, IsPreferred;
    PreferredExactly(cpus, source);
    if cpus != [] {
      var k := BestExists(cpus, source);
      assert IsBestAt(cpus, source, k) && Fits(cpus[k]);
    }
  }

  lemma {:induction false} BestExists(cpus: seq<CpuInfo>, source: RankSource) returns (k: nat)
    requires cpus != []
    ensures IsBestAt(cpus, source, k)
    decreases |cpus|
  {
    hide AsGood;
    var last := |cpus| - 1;
    if last == 0 {
      k := 0;
      AsGoodTotal(cpus[0], cpus[0], source);
    } else {
      var init := cpus[..last];
      var before := BestExists(init, source);
      AsGoodTotal(cpus[before], cpus[last], source);
      AsGoodTotal(cpus[last], cpus[last], source);
      k := if AsGood(cpus[before], cpus[last], source) then before else last;
      forall j | 0 <= j < |cpus| ensures AsGood(cpus[k], cpus[j], source) {
        if j < last {
          assert AsGood(init[before], init[j], source);
          if k == last {
            AsGoodTransitive(cpus[last], cpus[before], cpus[j], source);
          }
        }
      }
    }
  }

  lemma UnknownRanksZero(cpu: CpuInfo, source: RankSource)
    ensures source == UnknownRank ==> Rank(cpu, source) == 0
  {
  }

  predicate OneId(cpus: seq<CpuInfo>) {
    forall i, j | 0 <= i < |cpus| && 0 <= j < |cpus| :: cpus[i].logicalCpu == cpus[j].logicalCpu
  }

  /** Both orders enumerate the same CPUs. */
  predicate SameCpus(a: seq<CpuInfo>, b: seq<CpuInfo>) {
    multiset(a) == multiset(b)
  }

  function PreferredOf(cpus: seq<CpuInfo>): int {
    BestOf(cpus, CommonRankSource(cpus)).preferred
  }

  /** The choice depends on which CPUs there are, not on their order, when the best one's id fits. */
  lemma PreferredIgnoresOrder(a: seq<CpuInfo>, b: seq<CpuInfo>)
    requires SameCpus(a, b) && (a == [] || BestFits(a, CommonRankSource(a)))
    ensures CommonRankSource(a) == CommonRankSource(b) && PreferredOf(a) == PreferredOf(b)
  {
    SameMembers(a, b);
    SameMembers(b, a);
    assert |multiset(a)| == |a| && |multiset(b)| == |b|;
    SameSource(a, b);
    var source := CommonRankSource(a);
    hide AsGood, Rank, BestOf, CommonRankSource, IsBestAt, BestFits, IsPreferred;
    if a != [] {
      SameBestFits(a, b, source);
      PreferredExactly(a, source);
      PreferredExactly(b, source);
      var i, j := PreferredEnd(a, source), PreferredEnd(b, source);
      assert a[i] in a && b[j] in b;
      OneAnswer(a, b, source, i, j);
    }
  }

  lemma SameBestFits(a: seq<CpuInfo>, b: seq<CpuInfo>, source: RankSource)
    requires BestFits(a, source) && (forall c | c in a :: c in b) && (forall c | c in b :: c in a)
    ensures BestFits(b, source)
  {
    hide AsGood;
    var i :| 0 <= i < |a| && IsBestAt(a, source, i) && Fits(a[i]);
    assert a[i] in b;
    var k :| 0 <= k < |b| && b[k] == a[i];
    forall l | 0 <= l < |b| ensures AsGood(b[k], b[l], source) {
      assert b[l] in a;
      var m :| 0 <= m < |a| && a[m] == b[l];
      assert AsGood(a[i], a[m], source);
    }
    assert IsBestAt(b, source, k);
  }

  /** The index the choice names. */
  ghost function PreferredEnd(cpus: seq<CpuInfo>, source: RankSource): (i: nat)
    requires cpus != [] && IsPreferred(cpus, source, BestOf(cpus, source).preferred)
    ensures i < |cpus| && IsBestAt(cpus, source, i) && cpus[i].logicalCpu == BestOf(cpus, source).preferred
  {
    var i :| 0 <= i < |cpus| && cpus[i].logicalCpu == BestOf(cpus, source).preferred &&
      forall j | 0 <= j < |cpus| :: AsGood(cpus[i], cpus[j], source);
    i
  }

  lemma OneAnswer(a: seq<CpuInfo>, b: seq<CpuInfo>, source: RankSource, i: nat, j: nat)
    requires IsBestAt(a, source, i) && IsBestAt(b, source, j) && a[i] in b && b[j] in a
    ensures a[i].logicalCpu == b[j].logicalCpu
  {
    hide AsGood;
    var k :| 0 <= k < |b| && b[k] == a[i];
    var l :| 0 <= l < |a| && a[l] == b[j];
    assert AsGood(a[i], a[l], source) && AsGood(b[j], b[k], source);
    AsGoodTotal(a[i], b[j], source);
  }

  /** The CPUs with the last two exchanged for given ones. */
  function Ending(rest: seq<CpuInfo>, x: CpuInfo, y: CpuInfo): seq<CpuInfo> {
    rest + [x] + [y]
  }

  /** If the best id does not fit, the CPU after it is chosen, whatever it is. */
  lemma BestThenOther(rest: seq<CpuInfo>, best: CpuInfo, other: CpuInfo, source: RankSource)
    requires !Fits(best) && (forall c | c in rest :: AsGood(best, c, source) && (!AsGood(c, best, source) || !Fits(c)))
    ensures BestOf(Ending(rest, best, other), source) == Chosen(other, source)
    ensures BestOf(rest + [best], source) == Chosen(best, source)
  {
    hide AsGood, Rank, Consider, Chosen;
    var first := rest + [best];
    assert first[..|rest|] == rest && Ending(rest, best, other)[..|first|] == first;
    if rest == [] {
      ConsiderForgets(BestOf(rest, source), best, source);
    } else {
      var k := ChoiceSeen(rest, source);
      assert rest[k] in rest;
      if Fits(rest[k]) {
        ConsiderTakes(rest[k], best, source);
      } else {
        ChoiceTurn(rest[k], best, source);
      }
    }
    ChoiceTurn(best, other, source);
  }

  lemma PutLast(a: seq<CpuInfo>, x: CpuInfo, b: seq<CpuInfo>, y: CpuInfo, c: seq<CpuInfo>)
    ensures SameCpus(a + [x] + b + [y] + c, Ending(a + b + c, x, y))
    ensures SameCpus(a + [x] + b + [y] + c, Ending(a + b + c, y, x))
  {
  }

  /** Removing two elements and putting them last, in either order, keeps the CPUs. */
  lemma TakeTwo(cpus: seq<CpuInfo>, i: nat, j: nat) returns (rest: seq<CpuInfo>)
    requires i < |cpus| && j < |cpus| && i != j
    ensures SameCpus(cpus, Ending(rest, cpus[i], cpus[j])) && SameCpus(cpus, Ending(rest, cpus[j], cpus[i]))
    ensures forall c | c in rest :: c in cpus
  {
    var low, high := if i < j then i else j, if i < j then j else i;
    var a, b, c := cpus[..low], cpus[low + 1..high], cpus[high + 1..];
    hide SameCpus, Ending;
    rest := a + b + c;
    assert cpus == a + [cpus[low]] + b + [cpus[high]] + c;
    PutLast(a, cpus[low], b, cpus[high], c);
  }

  /** Exactly when the order of enumeration cannot matter: no CPU, a best choice whose id fits, or a single id
      throughout. In every other case some other order of the same CPUs is answered differently. */
  lemma OrderIrrelevantExactly(cpus: seq<CpuInfo>)
    ensures (forall b, c | SameCpus(cpus, b) && SameCpus(cpus, c) :: PreferredOf(b) == PreferredOf(c)) <==>
      cpus == [] || BestFits(cpus, CommonRankSource(cpus)) || OneId(cpus)
  {
    hide AsGood, Rank, BestOf, CommonRankSource;
    var source := CommonRankSource(cpus);
    if cpus == [] || BestFits(cpus, source) {
      forall b, c | SameCpus(cpus, b) && SameCpus(cpus, c) ensures PreferredOf(b) == PreferredOf(c) {
        PreferredIgnoresOrder(cpus, b);
        PreferredIgnoresOrder(cpus, c);
      }
    } else if OneId(cpus) {
      forall b | SameCpus(cpus, b) ensures PreferredOf(b) == Signed32(cpus[0].logicalCpu) {
        SameMembers(b, cpus);
        assert |multiset(cpus)| == |cpus| && |multiset(b)| == |b|;
        var k := ChoiceSeen(b, CommonRankSource(b));
        assert b[k] in cpus;
      }
    } else {
      var best := BestExists(cpus, source);
      var other := OtherId(cpus, best);
      TwoAnswers(cpus, best, other);
    }
  }

  lemma OtherId(cpus: seq<CpuInfo>, k: nat) returns (other: nat)
    requires k < |cpus| && !OneId(cpus)
    ensures other < |cpus| && cpus[other].logicalCpu != cpus[k].logicalCpu
  {
    var i, j :| 0 <= i < |cpus| && 0 <= j < |cpus| && cpus[i].logicalCpu != cpus[j].logicalCpu;
    other := if cpus[i].logicalCpu != cpus[k].logicalCpu then i else j;
  }

  lemma TwoAnswers(cpus: seq<CpuInfo>, best: nat, other: nat)
    requires IsBestAt(cpus, CommonRankSource(cpus), best) && !BestFits(cpus, CommonRankSource(cpus))
    requires other < |cpus| && cpus[other].logicalCpu != cpus[best].logicalCpu
    ensures exists b, c | SameCpus(cpus, b) && SameCpus(cpus, c) :: PreferredOf(b) != PreferredOf(c)
  {
    hide AsGood, Rank, BestOf, CommonRankSource;
    var source := CommonRankSource(cpus);
    var x, y := cpus[best], cpus[other];
    var rest := TakeTwo(cpus, best, other);
    assert !Fits(x);
    forall c | c in rest + [y] ensures AsGood(x, c, source) && (!AsGood(c, x, source) || !Fits(c)) {
      assert c in cpus;
      var l :| 0 <= l < |cpus| && cpus[l] == c;
      assert AsGood(x, cpus[l], source);
      AsGoodTotal(x, c, source);
    }
    var b, c := Ending(rest, x, y), Ending(rest, y, x);
    SameMembers(cpus, b);
    SameMembers(b, cpus);
    SameMembers(cpus, c);
    SameMembers(c, cpus);
    SameSource(cpus, b);
    SameSource(cpus, c);
    BestThenOther(rest, x, y, source);
    BestThenOther(rest + [y], x, y, source);
    assert BestOf(b, source) == Chosen(y, source) && BestOf(c, source) == Chosen(x, source);
    assert PreferredOf(b) != PreferredOf(c);
  }

  lemma SameMembers(a: seq<CpuInfo>, b: seq<CpuInfo>)
    requires multiset(a) == multiset(b)
    ensures forall c | c in a :: c in b
  {
    forall c | c in a ensures c in b {
      assert c in multiset(a);
    }
  }

  lemma SameSource(a: seq<CpuInfo>, b: seq<CpuInfo>)
    requires (forall c | c in a :: c in b) && (forall c | c in b :: c in a)
    ensures CommonRankSource(a) == CommonRankSource(b)
  {
    if a != [] {
      assert a[0] in b;
    }
    if b != [] {
      assert b[0] in a;
    }
    assert AllHaveCapacity(a) <==> AllHaveCapacity(b) by {
      CapacityMembers(a);
      CapacityMembers(b);
    }
    assert AllHaveFrequency(a) <==> AllHaveFrequency(b) by {
      FrequencyMembers(a);
      FrequencyMembers(b);
    }
  }

  lemma CapacityMembers(a: seq<CpuInfo>)
    ensures AllHaveCapacity(a) <==> forall c | c in a :: c.capacity > 0
  {
  }

  lemma FrequencyMembers(a: seq<CpuInfo>)
    ensures AllHaveFrequency(a) <==> forall c | c in a :: c.maxFrequencyKhz > 0
  {
  }

  /** Two CPUs on which the choice fails: the better one has the id 2^31, is stored as a negative number, and
      is replaced by the other when that comes next. */
  lemma HugeIdsDefeatTheChoice()
    ensures
      var huge := CpuInfo(0x8000_0000, true, true, -1, -1, 1, 9, 0);
      var small := CpuInfo(0, true, true, -1, -1, 1, 1, 0);
      && BestOf([huge, small], ByCapacity).preferred == 0
      && BestOf([small, huge], ByCapacity).preferred == -0x8000_0000
      && !IsPreferred([huge, small], ByCapacity, 0) && !IsPreferred([small, huge], ByCapacity, -0x8000_0000)
  {
    var huge := CpuInfo(0x8000_0000, true, true, -1, -1, 1, 9, 0);
    var small := CpuInfo(0, true, true, -1, -1, 1, 1, 0);
    assert [huge, small][..1] == [huge] && [small, huge][..1] == [small];
    assert BestOf([], ByCapacity) == Best(-1, 0, false);
    assert BestOf([huge], ByCapacity) == Consider(Best(-1, 0, false), huge, ByCapacity);
    assert BestOf([small], ByCapacity) == Consider(Best(-1, 0, false), small, ByCapacity);
  }

  // ---------------------------------------------------------------- assigning groups in place

  class Topology {
    var cpus: seq<CpuInfo>
    var performanceGroupCount: nat
    var preferredSingleCpu: int
    var quality: Quality

    constructor (cpus: seq<CpuInfo>)
      ensures this.cpus == cpus && quality == Quality(false, false, false, false, 0)
      ensures preferredSingleCpu == -1 && performanceGroupCount == 0
    {
      this.cpus := cpus;
      performanceGroupCount, preferredSingleCpu := 0, -1;
      quality := Quality(false, false, false, false, 0);
    }
  }

  /** The bits after assignment: three are recomputed, truncation is only ever added, the rest is kept. */
  function QualityAfter(cpus: seq<CpuInfo>, quality: Quality): Quality {
    var ranks := CommonRankSource(cpus);
    Quality(ranks == ByFrequency, ranks == UnknownRank, ChooseGroups(cpus) == ByRank,
            quality.topologyTruncated || |GroupKeys(cpus)| > MAXIMUM_GROUPS, quality.rest)
  }

  lemma KeysAre(cpus: seq<CpuInfo>, i: nat)
    requires i < |cpus|
    ensures IdentityOf(cpus, i) in GroupKeys(cpus)
  {
    assert IdentityOf(cpus, i) in Identities(cpus);
  }

  /** The map of maximum ranks, one CPU at a time. */
  method CollectGroupRanks(cpus: seq<CpuInfo>, groups: GroupSource, ranks: RankSource) returns (key: map<int, nat>)
    requires groups == ChooseGroups(cpus) && ranks == CommonRankSource(cpus)
    ensures key == GroupKeys(cpus)
  {
    hide CommonRankSource, ChooseGroups, Rank, Identity;
    key := map[];
    for n := 0 to |cpus|
      invariant key.Keys == set i | 0 <= i < n :: IdentityOf(cpus, i)
      invariant forall id | id in key :: key[id] == MaxRank(cpus, id, n)
      invariant forall id | id !in key :: MaxRank(cpus, id, n) == 0
    {
      var identity, rank := Identity(cpus[n], groups, ranks), Rank(cpus[n], ranks);
      assert identity == IdentityOf(cpus, n) && rank == RankOf(cpus, n);
      if identity in key {
        key := key[identity := Max(key[identity], rank)];
      } else {
        key := key[identity := rank];
      }
    }
  }

  function Elements(s: seq<int>): set<int> {
    set x | x in s
  }

  predicate StrictlyOrdered(key: map<int, nat>, ids: seq<int>) {
    (forall i | 0 <= i < |ids| :: ids[i] in key)
    && forall i, j | 0 <= i < j < |ids| :: Before(key, ids[i], ids[j])
  }

  /** The groups of a map sorted by (maximum rank, identity). */
  method OrderGroups(key: map<int, nat>) returns (ordered: seq<int>)
    ensures StrictlyOrdered(key, ordered) && Elements(ordered) == key.Keys
  {
    ordered := [];
    var left := key.Keys;
    while left != {}
      invariant left <= key.Keys && StrictlyOrdered(key, ordered)
      invariant Elements(ordered) == key.Keys - left
      decreases |left|
    {
      var id := PickMember(left);
      ordered := InsertGroup(key, ordered, id);
      left := left - {id};
    }
  }

  method InsertGroup(key: map<int, nat>, ordered: seq<int>, id: int) returns (r: seq<int>)
    requires StrictlyOrdered(key, ordered) && id in key && id !in ordered
    ensures StrictlyOrdered(key, r)
    ensures Elements(r) == Elements(ordered) + {id}
  {
    var at := 0;
    while at < |ordered| && Before(key, ordered[at], id)
      invariant at <= |ordered|
      invariant forall i | 0 <= i < at :: Before(key, ordered[i], id)
    {
      at := at + 1;
    }
    r := ordered[..at] + [id] + ordered[at..];
    assert forall x :: x in r <==> x in ordered || x == id;
  }

  lemma PositionIsNumber(key: map<int, nat>, ordered: seq<int>, k: nat)
    requires StrictlyOrdered(key, ordered) && Elements(ordered) == key.Keys && k < |ordered|
    ensures |Earlier(key, ordered[k])| == k
  {
    var prefix := Elements(ordered[..k]);
    forall a | a in key
      ensures a in prefix <==> Before(key, a, ordered[k])
    {
      assert a in Elements(ordered);
      var i :| 0 <= i < |ordered| && ordered[i] == a;
      if i < k {
        assert ordered[..k][i] == a;
      }
    }
    assert Earlier(key, ordered[k]) == prefix;
    StrictSize(key, ordered, k);
  }

  lemma OrderedSize(key: map<int, nat>, ordered: seq<int>)
    requires StrictlyOrdered(key, ordered) && Elements(ordered) == key.Keys
    ensures |ordered| == |key|
  {
    StrictSize(key, ordered, |ordered|);
    assert ordered[..|ordered|] == ordered;
    assert |key.Keys| == |key|;
  }

  lemma {:induction false} StrictSize(key: map<int, nat>, ordered: seq<int>, k: nat)
    requires StrictlyOrdered(key, ordered) && k <= |ordered|
    ensures |Elements(ordered[..k])| == k
    decreases k
  {
    hide Elements, Before;
    if k == 0 {
      NoElements(ordered[..0]);
    } else {
      StrictSize(key, ordered, k - 1);
      NotYetElement(key, ordered, k - 1);
      ElementsNext(ordered, k - 1);
    }
  }

  lemma NotYetElement(key: map<int, nat>, ordered: seq<int>, k: nat)
    requires StrictlyOrdered(key, ordered) && k < |ordered|
    ensures ordered[k] !in Elements(ordered[..k])
  {
  }

  lemma ElementsNext(s: seq<int>, k: nat)
    requires k < |s|
    ensures Elements(s[..k + 1]) == Elements(s[..k]) + {s[k]}
  {
    assert s[..k + 1] == s[..k] + [s[k]];
  }

  /** The number of each group: its position, folded at the last one. */
  method AssignNumbers(key: map<int, nat>, ordered: seq<int>) returns (numbers: map<int, nat>)
    requires StrictlyOrdered(key, ordered) && Elements(ordered) == key.Keys
    ensures numbers.Keys == key.Keys
    ensures forall id | id in key :: numbers[id] == GroupNumber(key, id)
  {
    hide Elements, Before, Earlier;
    numbers := map[];
    assert Elements(ordered[..0]) == {} by { NoElements(ordered[..0]); }
    for index := 0 to |ordered|
      invariant numbers.Keys == Elements(ordered[..index])
      invariant forall id | id in numbers :: id in key && numbers[id] == GroupNumber(key, id)
    {
      PositionIsNumber(key, ordered, index);
      ElementsNext(ordered, index);
      numbers := numbers[ordered[index] := Min(index, MAXIMUM_GROUPS - 1)];
    }
    assert ordered[..|ordered|] == ordered;
  }

  lemma NoElements(s: seq<int>)
    requires s == []
    ensures Elements(s) == {}
  {
  }

  /** The first n CPUs carry their group numbers, everything else is as before. */
  predicate Numbered(before: seq<CpuInfo>, after: seq<CpuInfo>, key: map<int, nat>, n: nat) {
    && |after| == |before|
    && (forall i | 0 <= i < |before| && i < n ::
          IdentityOf(before, i) in key
          && after[i] == before[i].(performanceGroup := GroupNumber(key, IdentityOf(before, i))))
    && (forall i | n <= i < |before| :: after[i] == before[i])
  }

  /** The last loop: number each CPU and keep the best so far. */
  method NumberAndChoose(topology: Topology, key: map<int, nat>, numbers: map<int, nat>, groups: GroupSource, ranks: RankSource)
    requires groups == ChooseGroups(topology.cpus) && ranks == CommonRankSource(topology.cpus)
    requires key == GroupKeys(topology.cpus) && numbers.Keys == key.Keys
    requires forall id | id in key :: numbers[id] == GroupNumber(key, id)
    modifies topology`cpus, topology`preferredSingleCpu
    ensures Numbered(old(topology.cpus), topology.cpus, key, |old(topology.cpus)|)
    ensures topology.preferredSingleCpu == BestOf(old(topology.cpus), ranks).preferred
  {
    hide CommonRankSource, ChooseGroups, Rank, Identity, GroupNumber, GroupKeys, MaxRank, Consider;
    var cpus := topology.cpus;
    var best := Best(-1, 0, false);
    for n := 0 to |cpus|
      invariant Numbered(cpus, topology.cpus, key, n)
      invariant best == BestOf(cpus[..n], ranks)
    {
      KeysAre(cpus, n);
      var identity := Identity(cpus[n], groups, ranks);
      assert identity == IdentityOf(cpus, n);
      if identity in numbers {
        topology.cpus := topology.cpus[n := topology.cpus[n].(performanceGroup := numbers[identity])];
      }
      assert cpus[..n + 1][..n] == cpus[..n];
      best := Consider(best, cpus[n], ranks);
    }
    assert cpus[..|cpus|] == cpus;
    topology.preferredSingleCpu := best.preferred;
  }

  method RecomputeFlags(topology: Topology, groups: GroupSource, ranks: RankSource)
    modifies topology`quality
    ensures topology.quality == old(topology.quality).(singleCpuInferred := ranks == ByFrequency,
      singleCpuUnknown := ranks == UnknownRank, groupsInferred := groups == ByRank)
  {
    var quality := topology.quality.(singleCpuInferred := false, singleCpuUnknown := false, groupsInferred := false);
    if ranks == ByFrequency {
      quality := quality.(singleCpuInferred := true);
    }
    if ranks == UnknownRank {
      quality := quality.(singleCpuUnknown := true);
    }
    if groups == ByRank {
      quality := quality.(groupsInferred := true);
    }
    topology.quality := quality;
  }

  /** Ranks the groups, numbers the CPUs and chooses the preferred one. */
  method GroupAndChoose(topology: Topology, groups: GroupSource, ranks: RankSource)
    requires groups == ChooseGroups(topology.cpus) && ranks == CommonRankSource(topology.cpus)
    modifies topology
    ensures Numbered(old(topology.cpus), topology.cpus, GroupKeys(old(topology.cpus)), |old(topology.cpus)|)
    ensures topology.performanceGroupCount == Min(|GroupKeys(old(topology.cpus))|, MAXIMUM_GROUPS)
    ensures topology.quality == old(topology.quality).(
      topologyTruncated := old(topology.quality).topologyTruncated || |GroupKeys(old(topology.cpus))| > MAXIMUM_GROUPS)
    ensures topology.preferredSingleCpu == BestOf(old(topology.cpus), ranks).preferred
  {
    hide CommonRankSource, ChooseGroups, GroupNumber, GroupKeys, Numbered, BestOf, StrictlyOrdered, Elements;
    var key := CollectGroupRanks(topology.cpus, groups, ranks);
    var ordered := OrderGroups(key);
    OrderedSize(key, ordered);
    if |ordered| > MAXIMUM_GROUPS {
      topology.quality := topology.quality.(topologyTruncated := true);
    }
    topology.performanceGroupCount := Min(|ordered|, MAXIMUM_GROUPS);
    var numbers := AssignNumbers(key, ordered);
    NumberAndChoose(topology, key, numbers, groups, ranks);
  }

  /** Recomputes every group number, the group count, the flags and the preferred CPU; changes nothing else. */
  method AssignPerformanceGroups(topology: Topology?)
    modifies topology
    ensures topology != null ==>
      var cpus := old(topology.cpus);
      && Prefers(cpus, topology.preferredSingleCpu)
      && exists folded ::
           && Grouped(cpus, topology.cpus, topology.performanceGroupCount, folded, topology.quality.groupsInferred)
           && Flagged(cpus, old(topology.quality), topology.quality, folded)
    ensures topology != null ==>
      var cpus := old(topology.cpus);
      && Numbered(cpus, topology.cpus, GroupKeys(cpus), |cpus|)
      && topology.preferredSingleCpu == PreferredOf(cpus)
  {
    if topology == null {
      return;
    }
    hide CommonRankSource, ChooseGroups, GroupKeys, Numbered, BestOf, Grouped, Flagged, Prefers;
    ghost var before, quality := topology.cpus, topology.quality;
    var ranks, groups := CommonRankSource(topology.cpus), ChooseGroups(topology.cpus);
    RecomputeFlags(topology, groups, ranks);
    GroupAndChoose(topology, groups, ranks);
    AssignedIsGrouped(before, topology.cpus);
    FlagsAre(before, quality);
    ChoicePrefers(before);
  }

  // ---------------------------------------------------------------- what the assignment means, field by field

  /** a ranks above b: by capacity, then by frequency, when every CPU reports a capacity; by frequency alone when
      only frequencies are complete; no CPU ranks above another when neither is. */
  predicate Above(cpus: seq<CpuInfo>, a: CpuInfo, b: CpuInfo) {
    if forall i | 0 <= i < |cpus| :: cpus[i].capacity > 0 then
      a.capacity > b.capacity || (a.capacity == b.capacity && a.maxFrequencyKhz > b.maxFrequencyKhz)
    else
      (forall i | 0 <= i < |cpus| :: cpus[i].maxFrequencyKhz > 0) && a.maxFrequencyKhz > b.maxFrequencyKhz
  }

  /** Capacities, or frequencies, are complete. */
  predicate Evidence(cpus: seq<CpuInfo>) {
    || (forall i | 0 <= i < |cpus| :: cpus[i].capacity > 0)
    || (forall i | 0 <= i < |cpus| :: cpus[i].maxFrequencyKhz > 0)
  }

  /** a is as good a single CPU as b: with evidence not ranked below it, and of equal ones the smaller id; without
      evidence available if b is, and of equally available ones the smaller id. */
  predicate Preferable(cpus: seq<CpuInfo>, a: CpuInfo, b: CpuInfo) {
    if Evidence(cpus) then Above(cpus, a, b) || (!Above(cpus, b, a) && a.logicalCpu <= b.logicalCpu)
    else
      var here, there := a.online && a.allowed, b.online && b.allowed;
      (here && !there) || (here == there && a.logicalCpu <= b.logicalCpu)
  }

  lemma AboveIsRank(cpus: seq<CpuInfo>, a: CpuInfo, b: CpuInfo)
    requires cpus != []
    ensures Above(cpus, a, b) <==> Rank(a, CommonRankSource(cpus)) > Rank(b, CommonRankSource(cpus))
    ensures Evidence(cpus) <==> CommonRankSource(cpus) != UnknownRank
  {
  }

  lemma PreferableIsAsGood(cpus: seq<CpuInfo>, a: CpuInfo, b: CpuInfo)
    requires cpus != []
    ensures Preferable(cpus, a, b) <==> AsGood(a, b, CommonRankSource(cpus))
  {
    AboveIsRank(cpus, a, b);
    AboveIsRank(cpus, b, a);
    hide Above, Evidence, Rank, CommonRankSource;
  }

  /** The preferred CPU of a topology. */
  predicate Prefers(cpus: seq<CpuInfo>, preferred: int) {
    && (cpus == [] ==> preferred == -1)
    && forall i | 0 <= i < |cpus| && cpus[i].logicalCpu < 0x8000_0000 ::
         (forall j | 0 <= j < |cpus| :: Preferable(cpus, cpus[i], cpus[j])) ==> preferred == cpus[i].logicalCpu
  }

  lemma ChoicePrefers(cpus: seq<CpuInfo>)
    ensures Prefers(cpus, PreferredOf(cpus))
  {
    var source := CommonRankSource(cpus);
    hide AsGood, Rank, Preferable, CommonRankSource;
    if cpus == [] {
      assert BestOf(cpus, source) == Best(-1, 0, false);
    }
    hide BestOf;
    forall i | 0 <= i < |cpus| && cpus[i].logicalCpu < 0x8000_0000
               && forall j | 0 <= j < |cpus| :: Preferable(cpus, cpus[i], cpus[j])
      ensures PreferredOf(cpus) == cpus[i].logicalCpu
    {
      forall j | 0 <= j < |cpus| ensures AsGood(cpus[i], cpus[j], source) {
        PreferableIsAsGood(cpus, cpus[i], cpus[j]);
      }
      assert IsBestAt(cpus, source, i) && Fits(cpus[i]);
      PreferredExactly(cpus, source);
      OneAnswer(cpus, cpus, source, i, PreferredEnd(cpus, source));
    }
  }

  function Values(cpus: seq<CpuInfo>, key: CpuInfo -> int): set<int> {
    set i | 0 <= i < |cpus| :: key(cpus[i])
  }

  /** Some CPU with the key of j ranks above all CPUs with the key of i. */
  predicate Weaker(cpus: seq<CpuInfo>, key: CpuInfo -> int, i: nat, j: nat)
    requires i < |cpus| && j < |cpus|
  {
    exists l | 0 <= l < |cpus| && key(cpus[l]) == key(cpus[j]) ::
      forall k | 0 <= k < |cpus| && key(cpus[k]) == key(cpus[i]) :: Above(cpus, cpus[l], cpus[k])
  }

  predicate Precedes(cpus: seq<CpuInfo>, key: CpuInfo -> int, i: nat, j: nat)
    requires i < |cpus| && j < |cpus|
  {
    Weaker(cpus, key, i, j) || (!Weaker(cpus, key, j, i) && key(cpus[i]) < key(cpus[j]))
  }

  predicate Taken(cpus: seq<CpuInfo>, g: nat) {
    exists i | 0 <= i < |cpus| :: cpus[i].performanceGroup == g
  }

  /** Only the number is new, and it is one of the groups. */
  predicate Placed(before: CpuInfo, after: CpuInfo, count: nat) {
    after == before.(performanceGroup := after.performanceGroup) && after.performanceGroup < count
  }

  predicate Related(before: seq<CpuInfo>, after: seq<CpuInfo>, key: CpuInfo -> int, i: nat, j: nat)
    requires |before| == |after| && i < |before| && j < |before|
  {
    var a, b := after[i].performanceGroup, after[j].performanceGroup;
    && (key(before[i]) == key(before[j]) ==> a == b)
    && (key(before[i]) != key(before[j]) && a == b ==> a == 15)
    && (Precedes(before, key, i, j) ==> a <= b)
  }

  /** after is before with groups by a key: the number of groups is that of the keys, cut at sixteen; every number
      is taken; equal keys share a group, and different ones only the last of the sixteen; weaker groups come first,
      and equally strong ones in the order of their keys. */
  predicate GroupedBy(before: seq<CpuInfo>, after: seq<CpuInfo>, count: nat, folded: bool, key: CpuInfo -> int) {
    && |after| == |before| && (folded <==> |Values(before, key)| > 16)
    && count == (if |Values(before, key)| > 16 then 16 else |Values(before, key)|)
    && (forall i | 0 <= i < |before| :: Placed(before[i], after[i], count))
    && (forall g | 0 <= g < count :: Taken(after, g))
    && (forall i, j | 0 <= i < |before| && 0 <= j < |before| :: Related(before, after, key, i, j))
  }

  function ClusterOf(cpu: CpuInfo): int { cpu.clusterId }

  function PolicyOf(cpu: CpuInfo): int { cpu.policyId }

  /** Every CPU has a key, which is never negative. */
  predicate AllKnown(cpus: seq<CpuInfo>, key: CpuInfo -> int) {
    cpus != [] && forall i | 0 <= i < |cpus| :: key(cpus[i]) >= 0
  }

  predicate Differ(cpus: seq<CpuInfo>, key: CpuInfo -> int) {
    exists i, j | 0 <= i < |cpus| && 0 <= j < |cpus| :: key(cpus[i]) != key(cpus[j])
  }

  predicate AllEqual(cpus: seq<CpuInfo>) {
    forall i, j | 0 <= i < |cpus| && 0 <= j < |cpus| :: !Above(cpus, cpus[i], cpus[j])
  }

  /** Reported clusters are the groups when they are complete and tell CPUs apart, else frequency policies under
      the same condition; else either of the two that is complete when no CPU ranks above another; otherwise groups
      are inferred from the ranks. */
  predicate Grouped(before: seq<CpuInfo>, after: seq<CpuInfo>, count: nat, folded: bool, inferred: bool) {
    var clusters, policies := AllKnown(before, ClusterOf), AllKnown(before, PolicyOf);
    if clusters && Differ(before, ClusterOf) then GroupedBy(before, after, count, folded, ClusterOf) && !inferred
    else if policies && Differ(before, PolicyOf) then GroupedBy(before, after, count, folded, PolicyOf) && !inferred
    else if clusters && AllEqual(before) then GroupedBy(before, after, count, folded, ClusterOf) && !inferred
    else if policies && AllEqual(before) then GroupedBy(before, after, count, folded, PolicyOf) && !inferred
    else GroupedBy(before, after, count, folded, RankKey(before)) && inferred
  }

  function RankKey(cpus: seq<CpuInfo>): CpuInfo -> int {
    (cpu: CpuInfo) => Rank(cpu, CommonRankSource(cpus))
  }

  /** The recomputed flags. */
  predicate Flagged(cpus: seq<CpuInfo>, old': Quality, q: Quality, folded: bool) {
    var capacities := cpus != [] && forall i | 0 <= i < |cpus| :: cpus[i].capacity > 0;
    var frequencies := cpus != [] && forall i | 0 <= i < |cpus| :: cpus[i].maxFrequencyKhz > 0;
    && (q.singleCpuInferred <==> !capacities && frequencies)
    && (q.singleCpuUnknown <==> !capacities && !frequencies)
    && (q.topologyTruncated <==> old'.topologyTruncated || folded)
    && q.rest == old'.rest
  }

  // The proof: the key tells CPUs apart as the identity used by the assignment does, and orders equally strong
  // groups alike.

  lemma {:induction false} MaxRankIs(cpus: seq<CpuInfo>, id: int, n: nat)
    requires n <= |cpus|
    ensures forall k | 0 <= k < n && IdentityOf(cpus, k) == id :: RankOf(cpus, k) <= MaxRank(cpus, id, n)
    ensures MaxRank(cpus, id, n) > 0 ==>
      exists k | 0 <= k < n && IdentityOf(cpus, k) == id :: RankOf(cpus, k) == MaxRank(cpus, id, n)
  {
    hide IdentityOf, RankOf;
    if n > 0 {
      MaxRankIs(cpus, id, n - 1);
    }
  }

  /** The highest rank in the group of a CPU. */
  function Strength(cpus: seq<CpuInfo>, i: nat): nat
    requires i < |cpus|
  {
    MaxRank(cpus, IdentityOf(cpus, i), |cpus|)
  }

  predicate Agree(cpus: seq<CpuInfo>, key: CpuInfo -> int) {
    && (forall i, j | 0 <= i < |cpus| && 0 <= j < |cpus| ::
          key(cpus[i]) == key(cpus[j]) <==> IdentityOf(cpus, i) == IdentityOf(cpus, j))
    && (forall i, j | 0 <= i < |cpus| && 0 <= j < |cpus| && Strength(cpus, i) == Strength(cpus, j) ::
          key(cpus[i]) < key(cpus[j]) ==> IdentityOf(cpus, i) < IdentityOf(cpus, j))
  }

  lemma AboveIsRankOf(cpus: seq<CpuInfo>, l: nat, k: nat)
    requires l < |cpus| && k < |cpus|
    ensures Above(cpus, cpus[l], cpus[k]) <==> RankOf(cpus, l) > RankOf(cpus, k)
  {
    AboveIsRank(cpus, cpus[l], cpus[k]);
  }

  lemma WeakerIsStrength(cpus: seq<CpuInfo>, key: CpuInfo -> int, i: nat, j: nat)
    requires Agree(cpus, key) && i < |cpus| && j < |cpus|
    ensures Weaker(cpus, key, i, j) <==> Strength(cpus, i) < Strength(cpus, j)
  {
    hide Above, IdentityOf, RankOf, MaxRank;
    forall l, k | 0 <= l < |cpus| && 0 <= k < |cpus|
      ensures Above(cpus, cpus[l], cpus[k]) <==> RankOf(cpus, l) > RankOf(cpus, k)
    {
      AboveIsRankOf(cpus, l, k);
    }
    MaxRankIs(cpus, IdentityOf(cpus, i), |cpus|);
    MaxRankIs(cpus, IdentityOf(cpus, j), |cpus|);
    if Strength(cpus, i) < Strength(cpus, j) {
      var l :| 0 <= l < |cpus| && IdentityOf(cpus, l) == IdentityOf(cpus, j) && RankOf(cpus, l) == Strength(cpus, j);
      assert key(cpus[l]) == key(cpus[j]);
    }
  }

  lemma {:induction false} SameSizes(a: seq<int>, b: seq<int>)
    requires |a| == |b| && forall i, j | 0 <= i < |a| && 0 <= j < |a| :: a[i] == a[j] <==> b[i] == b[j]
    ensures |Elements(a)| == |Elements(b)|
    decreases |a|
  {
    if a == [] {
      NoElements(a);
      NoElements(b);
    } else {
      var n := |a| - 1;
      SameSizes(a[..n], b[..n]);
      ElementsNext(a, n);
      ElementsNext(b, n);
      assert a[..n + 1] == a && b[..n + 1] == b;
      assert a[n] in a[..n] <==> b[n] in b[..n] by { SameNovelty(a, b, n); }
    }
  }

  lemma SameNovelty(a: seq<int>, b: seq<int>, n: nat)
    requires |a| == |b| && n < |a| && forall i, j | 0 <= i < |a| && 0 <= j < |a| :: a[i] == a[j] <==> b[i] == b[j]
    ensures a[n] in a[..n] <==> b[n] in b[..n]
  {
    if a[n] in a[..n] {
      var i :| 0 <= i < n && a[..n][i] == a[n];
      assert a[i] == a[n] && b[..n][i] == b[i];
    }
    if b[n] in b[..n] {
      var i :| 0 <= i < n && b[..n][i] == b[n];
      assert b[i] == b[n] && a[..n][i] == a[i];
    }
  }

  lemma ValuesSize(cpus: seq<CpuInfo>, key: CpuInfo -> int)
    requires Agree(cpus, key)
    ensures |Values(cpus, key)| == |GroupKeys(cpus)|
  {
    hide IdentityOf, MaxRank, Strength;
    var a := seq(|cpus|, i requires 0 <= i < |cpus| => key(cpus[i]));
    var b := seq(|cpus|, i requires 0 <= i < |cpus| => IdentityOf(cpus, i));
    SameSizes(a, b);
    assert forall i | 0 <= i < |cpus| :: key(cpus[i]) == a[i] && IdentityOf(cpus, i) == b[i];
    assert Values(cpus, key) == Elements(a);
    assert Identities(cpus) == Elements(b);
    assert GroupKeys(cpus).Keys == Identities(cpus);
    assert |GroupKeys(cpus).Keys| == |GroupKeys(cpus)|;
  }

  lemma NumberOf(before: seq<CpuInfo>, after: seq<CpuInfo>, i: nat)
    requires Numbered(before, after, GroupKeys(before), |before|) && i < |before|
    ensures IdentityOf(before, i) in GroupKeys(before)
    ensures after[i] == before[i].(performanceGroup := GroupNumber(GroupKeys(before), IdentityOf(before, i)))
    ensures GroupKeys(before)[IdentityOf(before, i)] == Strength(before, i)
  {
    hide IdentityOf, MaxRank, GroupNumber;
  }

  lemma AgreeAt(cpus: seq<CpuInfo>, key: CpuInfo -> int, i: nat, j: nat)
    requires Agree(cpus, key) && i < |cpus| && j < |cpus|
    ensures key(cpus[i]) == key(cpus[j]) <==> IdentityOf(cpus, i) == IdentityOf(cpus, j)
    ensures Precedes(cpus, key, i, j) ==>
      Strength(cpus, i) < Strength(cpus, j)
      || (Strength(cpus, i) == Strength(cpus, j) && IdentityOf(cpus, i) < IdentityOf(cpus, j))
  {
    WeakerIsStrength(cpus, key, i, j);
    WeakerIsStrength(cpus, key, j, i);
    hide IdentityOf, Strength, Weaker;
  }

  lemma PairGrouped(before: seq<CpuInfo>, after: seq<CpuInfo>, key: CpuInfo -> int, i: nat, j: nat)
    requires Numbered(before, after, GroupKeys(before), |before|) && Agree(before, key) && i < |before| && j < |before|
    ensures Related(before, after, key, i, j)
  {
    AgreeAt(before, key, i, j);
    NumberOf(before, after, i);
    NumberOf(before, after, j);
    hide IdentityOf, Strength, Precedes, GroupNumber, GroupKeys, Numbered, Agree;
    GroupsFollowKeys(GroupKeys(before), IdentityOf(before, i), IdentityOf(before, j));
  }

  lemma NumberedIsGrouped(before: seq<CpuInfo>, after: seq<CpuInfo>, key: CpuInfo -> int)
    requires Numbered(before, after, GroupKeys(before), |before|) && Agree(before, key)
    ensures GroupedBy(before, after, Min(|GroupKeys(before)|, MAXIMUM_GROUPS), |GroupKeys(before)| > MAXIMUM_GROUPS, key)
  {
    ValuesSize(before, key);
    hide IdentityOf, Strength, Precedes, GroupNumber, GroupKeys, Agree, Values, Numbered;
    assert |after| == |before| by { SameLength(before, after); }
    var count := Min(|GroupKeys(before)|, MAXIMUM_GROUPS);
    forall g | 0 <= g < count ensures Taken(after, g) {
      NumberTaken(before, after, g);
    }
    forall i | 0 <= i < |before| ensures Placed(before[i], after[i], count) {
      NumberOf(before, after, i);
      GroupsInRange(before, i);
    }
    forall i, j | 0 <= i < |before| && 0 <= j < |before| ensures Related(before, after, key, i, j) {
      PairGrouped(before, after, key, i, j);
    }
    hide Placed, Taken, Related;
  }

  lemma TwoValues(s: set<int>, a: int, b: int)
    requires a in s && b in s
    ensures |s| > 1 || a == b
  {
    if a != b {
      SubsetSize({a, b}, s);
    }
  }

  lemma OneValue(s: set<int>)
    requires |s| > 1
    ensures exists a, b | a in s && b in s :: a != b
  {
    var a := Pick(s);
    if s <= {a} {
      SubsetSize(s, {a});
    }
    var b := Pick(s - {a});
    assert a in s && b in s && a != b;
  }

  lemma ClustersAre(cpus: seq<CpuInfo>)
    ensures ClustersComplete(cpus) <==> AllKnown(cpus, ClusterOf)
    ensures AllKnown(cpus, ClusterOf) ==> (|ClusterIds(cpus)| > 1 <==> Differ(cpus, ClusterOf))
  {
    if cpus != [] && cpus[0].clusterId >= 0 {
      assert cpus[0].clusterId in ClusterIds(cpus);
    }
    if AllKnown(cpus, ClusterOf) {
      if Differ(cpus, ClusterOf) {
        var i, j :| 0 <= i < |cpus| && 0 <= j < |cpus| && ClusterOf(cpus[i]) != ClusterOf(cpus[j]);
        assert ClusterOf(cpus[i]) >= 0 && ClusterOf(cpus[j]) >= 0;
        TwoValues(ClusterIds(cpus), cpus[i].clusterId, cpus[j].clusterId);
      }
      if |ClusterIds(cpus)| > 1 {
        OneValue(ClusterIds(cpus));
      }
    }
  }

  lemma PoliciesAre(cpus: seq<CpuInfo>)
    ensures PoliciesComplete(cpus) <==> AllKnown(cpus, PolicyOf)
    ensures AllKnown(cpus, PolicyOf) ==> (|PolicyIds(cpus)| > 1 <==> Differ(cpus, PolicyOf))
  {
    if cpus != [] && cpus[0].policyId >= 0 {
      assert cpus[0].policyId in PolicyIds(cpus);
    }
    if AllKnown(cpus, PolicyOf) {
      if Differ(cpus, PolicyOf) {
        var i, j :| 0 <= i < |cpus| && 0 <= j < |cpus| && PolicyOf(cpus[i]) != PolicyOf(cpus[j]);
        assert PolicyOf(cpus[i]) >= 0 && PolicyOf(cpus[j]) >= 0;
        TwoValues(PolicyIds(cpus), cpus[i].policyId, cpus[j].policyId);
      }
      if |PolicyIds(cpus)| > 1 {
        OneValue(PolicyIds(cpus));
      }
    }
  }

  lemma EqualRanks(cpus: seq<CpuInfo>)
    requires cpus != []
    ensures AllEqual(cpus) <==> !DistinctRanks(cpus, CommonRankSource(cpus))
  {
    var source := CommonRankSource(cpus);
    hide Above, Rank, CommonRankSource;
    forall i, j | 0 <= i < |cpus| && 0 <= j < |cpus|
      ensures Above(cpus, cpus[i], cpus[j]) <==> Rank(cpus[i], source) > Rank(cpus[j], source)
    {
      AboveIsRank(cpus, cpus[i], cpus[j]);
    }
    if DistinctRanks(cpus, source) {
      var i, j :| 0 <= i < |cpus| && 0 <= j < |cpus| && Rank(cpus[i], source) != Rank(cpus[j], source);
      assert Above(cpus, cpus[i], cpus[j]) || Above(cpus, cpus[j], cpus[i]);
    }
  }

  lemma RankBound(cpu: CpuInfo, source: RankSource)
    ensures Rank(cpu, source) < U64
  {
  }

  lemma RanksAgree(cpus: seq<CpuInfo>)
    requires ChooseGroups(cpus) == ByRank
    ensures Agree(cpus, RankKey(cpus))
  {
    hide Rank, CommonRankSource, MaxRank, ChooseGroups;
    var key := RankKey(cpus);
    forall i, j | 0 <= i < |cpus| && 0 <= j < |cpus|
      ensures key(cpus[i]) == key(cpus[j]) <==> IdentityOf(cpus, i) == IdentityOf(cpus, j)
    {
      RankBound(cpus[i], CommonRankSource(cpus));
      RankBound(cpus[j], CommonRankSource(cpus));
    }
    forall i | 0 <= i < |cpus| ensures Strength(cpus, i) == key(cpus[i]) {
      MaxRankIs(cpus, IdentityOf(cpus, i), |cpus|);
    }
  }

  /** The source of the groups, in terms of the reports themselves. */
  lemma ChosenKey(cpus: seq<CpuInfo>) returns (key: CpuInfo -> int)
    ensures Agree(cpus, key)
    ensures
      var clusters, policies := AllKnown(cpus, ClusterOf), AllKnown(cpus, PolicyOf);
      if (clusters && Differ(cpus, ClusterOf)) then key == ClusterOf && ChooseGroups(cpus) != ByRank
      else if policies && Differ(cpus, PolicyOf) then key == PolicyOf && ChooseGroups(cpus) != ByRank
      else if clusters && AllEqual(cpus) then key == ClusterOf && ChooseGroups(cpus) != ByRank
      else if policies && AllEqual(cpus) then key == PolicyOf && ChooseGroups(cpus) != ByRank
      else key == RankKey(cpus) && ChooseGroups(cpus) == ByRank
  {
    ClustersAre(cpus);
    PoliciesAre(cpus);
    if cpus != [] {
      EqualRanks(cpus);
    }
    match ChooseGroups(cpus)
    case ByCluster =>
      key := ClusterOf;
    case ByPolicy =>
      key := PolicyOf;
    case ByRank =>
      RanksAgree(cpus);
      key := RankKey(cpus);
  }

  lemma FlagsAre(before: seq<CpuInfo>, quality: Quality)
    ensures Flagged(before, quality, QualityAfter(before, quality), |GroupKeys(before)| > MAXIMUM_GROUPS)
    ensures QualityAfter(before, quality).groupsInferred <==> ChooseGroups(before) == ByRank
  {
    hide ChooseGroups, GroupKeys;
  }

  /** What `Numbered` says, without the choices the numbers were made by. */
  lemma AssignedIsGrouped(before: seq<CpuInfo>, after: seq<CpuInfo>)
    requires Numbered(before, after, GroupKeys(before), |before|)
    ensures Grouped(before, after, Min(|GroupKeys(before)|, MAXIMUM_GROUPS), |GroupKeys(before)| > MAXIMUM_GROUPS,
                    ChooseGroups(before) == ByRank)
  {
    var key := ChosenKey(before);
    NumberedIsGrouped(before, after, key);
    hide GroupedBy, AllKnown, Differ, AllEqual, ChooseGroups, GroupKeys, Numbered, RankKey, Agree;
  }

  lemma SameLength(before: seq<CpuInfo>, after: seq<CpuInfo>)
    requires Numbered(before, after, GroupKeys(before), |before|)
    ensures |after| == |before|
  {
  }

  lemma NumberTaken(before: seq<CpuInfo>, after: seq<CpuInfo>, g: nat)
    requires Numbered(before, after, GroupKeys(before), |before|) && g < Min(|GroupKeys(before)|, MAXIMUM_GROUPS)
    ensures Taken(after, g)
  {
    SameLength(before, after);
    GroupsHaveNoGaps(before, g);
    hide IdentityOf, GroupNumber, GroupKeys, Numbered;
    var i :| 0 <= i < |before| && IdentityOf(before, i) in GroupKeys(before)
      && GroupNumber(GroupKeys(before), IdentityOf(before, i)) == g;
    NumberOf(before, after, i);
  }

  /** Every CPU's group number is below the count. */
  lemma GroupsInRange(cpus: seq<CpuInfo>, i: nat)
    requires i < |cpus|
    ensures IdentityOf(cpus, i) in GroupKeys(cpus)
    ensures GroupNumber(GroupKeys(cpus), IdentityOf(cpus, i)) < Min(|GroupKeys(cpus)|, MAXIMUM_GROUPS)
  {
    hide GroupNumber, GroupKeys, IdentityOf;
    KeysAre(cpus, i);
    GroupsBounded(GroupKeys(cpus), IdentityOf(cpus, i));
  }

  /** Every number below the count belongs to some CPU. */
  lemma GroupsHaveNoGaps(cpus: seq<CpuInfo>, g: nat)
    requires g < Min(|GroupKeys(cpus)|, MAXIMUM_GROUPS)
    ensures exists i | 0 <= i < |cpus| ::
      IdentityOf(cpus, i) in GroupKeys(cpus) && GroupNumber(GroupKeys(cpus), IdentityOf(cpus, i)) == g
  {
    hide GroupNumber, MaxRank, IdentityOf;
    var key := GroupKeys(cpus);
    GroupsCover(key, g);
    var id :| id in key && GroupNumber(key, id) == g;
    assert id in Identities(cpus);
    var i :| 0 <= i < |cpus| && IdentityOf(cpus, i) == id;
  }

  // ---------------------------------------------------------------- selecting CPUs for threads

  /** The comparator: higher rank first, then lower id. */
  predicate SortsFirst(a: CpuInfo, b: CpuInfo, source: RankSource) {
    Rank(a, source) > Rank(b, source) || (Rank(a, source) == Rank(b, source) && a.logicalCpu <= b.logicalCpu)
  }

  predicate SortedCpus(s: seq<CpuInfo>, source: RankSource) {
    forall i, j | 0 <= i < j < |s| :: SortsFirst(s[i], s[j], source)
  }

  function Candidates(cpus: seq<CpuInfo>, includeAll: bool): seq<CpuInfo> {
    if cpus == [] then []
    else
      var init, last := cpus[..|cpus| - 1], cpus[|cpus| - 1];
      Candidates(init, includeAll) + if includeAll || Available(last) then [last] else []
  }

  function Ids(s: seq<CpuInfo>): seq<Word> {
    seq(|s|, i requires 0 <= i < |s| => s[i].logicalCpu)
  }

  /** Any arrangement a sort may produce, cut to the requested number, 0 meaning all. */
  ghost predicate IsSelection(cpus: seq<CpuInfo>, requested: nat, includeAll: bool, out: seq<Word>) {
    exists s: seq<CpuInfo> ::
      multiset(s) == multiset(Candidates(cpus, includeAll)) && SortedCpus(s, CommonRankSource(cpus))
      && out == Cut(Ids(s), requested)
  }

  function Cut(ids: seq<Word>, requested: nat): seq<Word> {
    if requested != 0 && requested < |ids| then ids[..requested] else ids
  }

  lemma SortsFirstTotal(a: CpuInfo, b: CpuInfo, source: RankSource)
    ensures SortsFirst(a, b, source) || SortsFirst(b, a, source)
  {
    hide Rank;
  }

  lemma SortsFirstTransitive(a: CpuInfo, b: CpuInfo, c: CpuInfo, source: RankSource)
    requires SortsFirst(a, b, source) && SortsFirst(b, c, source)
    ensures SortsFirst(a, c, source)
  {
    hide Rank;
  }

  lemma InsertedSorted(sorted: seq<CpuInfo>, at: nat, cpu: CpuInfo, source: RankSource)
    requires SortedCpus(sorted, source) && at <= |sorted|
    requires forall i | 0 <= i < at :: SortsFirst(sorted[i], cpu, source)
    requires at < |sorted| ==> !SortsFirst(sorted[at], cpu, source)
    ensures SortedCpus(sorted[..at] + [cpu] + sorted[at..], source)
  {
    hide SortsFirst;
    forall i | at <= i < |sorted| ensures SortsFirst(cpu, sorted[i], source) {
      SortsFirstTotal(sorted[at], cpu, source);
      if i > at {
        SortsFirstTransitive(cpu, sorted[at], sorted[i], source);
      }
    }
  }

  method InsertCpu(sorted: seq<CpuInfo>, cpu: CpuInfo, source: RankSource) returns (r: seq<CpuInfo>)
    requires SortedCpus(sorted, source)
    ensures SortedCpus(r, source) && multiset(r) == multiset(sorted) + multiset{cpu}
  {
    hide SortsFirst;
    var at := 0;
    while at < |sorted| && SortsFirst(sorted[at], cpu, source)
      invariant at <= |sorted|
      invariant forall i | 0 <= i < at :: SortsFirst(sorted[i], cpu, source)
    {
      at := at + 1;
    }
    r := sorted[..at] + [cpu] + sorted[at..];
    InsertedSorted(sorted, at, cpu, source);
    assert sorted == sorted[..at] + sorted[at..];
  }

  /** s has each CPU that is present, or available, as asked, as often as it was enumerated. */
  ghost predicate HasCandidates(cpus: seq<CpuInfo>, includeAll: bool, s: seq<CpuInfo>) {
    forall c :: multiset(s)[c] == if includeAll || (c.online && c.allowed) then multiset(cpus)[c] else 0
  }

  /** Best first, by rank and then by id. */
  predicate BestFirst(cpus: seq<CpuInfo>, s: seq<CpuInfo>) {
    forall i, j | 0 <= i < j < |s| ::
      Above(cpus, s[i], s[j]) || (!Above(cpus, s[j], s[i]) && s[i].logicalCpu <= s[j].logicalCpu)
  }

  /** The ids of the candidates, best first, cut to the requested number, 0 meaning all. */
  ghost predicate Selects(cpus: seq<CpuInfo>, requested: nat, includeAll: bool, out: seq<Word>) {
    exists s: seq<CpuInfo> | HasCandidates(cpus, includeAll, s) && BestFirst(cpus, s) ::
      && |out| == (if requested != 0 && requested < |s| then requested else |s|)
      && forall i | 0 <= i < |out| :: out[i] == s[i].logicalCpu
  }

  lemma {:induction false} CandidateCounts(cpus: seq<CpuInfo>, includeAll: bool, c: CpuInfo)
    ensures multiset(Candidates(cpus, includeAll))[c] ==
      if includeAll || (c.online && c.allowed) then multiset(cpus)[c] else 0
  {
    if cpus != [] {
      CandidateCounts(cpus[..|cpus| - 1], includeAll, c);
      assert cpus == cpus[..|cpus| - 1] + [cpus[|cpus| - 1]];
    }
  }

  lemma CandidatesMean(cpus: seq<CpuInfo>, includeAll: bool, s: seq<CpuInfo>)
    requires multiset(s) == multiset(Candidates(cpus, includeAll))
    ensures HasCandidates(cpus, includeAll, s)
    ensures s != [] ==> cpus != []
  {
    hide Candidates;
    forall c ensures multiset(s)[c] == if includeAll || (c.online && c.allowed) then multiset(cpus)[c] else 0 {
      CandidateCounts(cpus, includeAll, c);
    }
    if s != [] {
      assert s[0] in multiset(s);
      assert s[0] in multiset(cpus);
    }
  }

  lemma SortedMeans(cpus: seq<CpuInfo>, s: seq<CpuInfo>)
    requires SortedCpus(s, CommonRankSource(cpus)) && (s != [] ==> cpus != [])
    ensures BestFirst(cpus, s)
  {
    hide Above, Rank, CommonRankSource;
    forall i, j | 0 <= i < j < |s|
      ensures Above(cpus, s[i], s[j]) || (!Above(cpus, s[j], s[i]) && s[i].logicalCpu <= s[j].logicalCpu)
    {
      AboveIsRank(cpus, s[i], s[j]);
      AboveIsRank(cpus, s[j], s[i]);
    }
  }

  lemma SelectionMeans(cpus: seq<CpuInfo>, requested: nat, includeAll: bool, out: seq<Word>)
    requires IsSelection(cpus, requested, includeAll, out)
    ensures Selects(cpus, requested, includeAll, out)
  {
    hide HasCandidates, BestFirst, SortedCpus, Candidates, CommonRankSource;
    var s: seq<CpuInfo> :| multiset(s) == multiset(Candidates(cpus, includeAll)) && SortedCpus(s, CommonRankSource(cpus))
      && out == Cut(Ids(s), requested);
    CandidatesMean(cpus, includeAll, s);
    SortedMeans(cpus, s);
  }

  method SelectCpuCandidates(cpus: seq<CpuInfo>, requested: nat, includeAll: bool) returns (selected: seq<Word>)
    ensures IsSelection(cpus, requested, includeAll, selected) && Selects(cpus, requested, includeAll, selected)
  {
    hide CommonRankSource, SortsFirst, Available, Selects;
    var source := CommonRankSource(cpus);
    var sorted: seq<CpuInfo> := [];
    for n := 0 to |cpus|
      invariant SortedCpus(sorted, source) && multiset(sorted) == multiset(Candidates(cpus[..n], includeAll))
    {
      assert cpus[..n + 1][..n] == cpus[..n];
      if includeAll || Available(cpus[n]) {
        sorted := InsertCpu(sorted, cpus[n], source);
      }
    }
    assert cpus[..|cpus|] == cpus;
    selected := Cut(Ids(sorted), requested);
    SelectionMeans(cpus, requested, includeAll, selected);
  }

  // ---------------------------------------------------------------- which selection that is

  /** The key the comparator looks at. */
  function Key(c: CpuInfo, source: RankSource): (nat, Word) {
    (Rank(c, source), c.logicalCpu)
  }

  function KeysOf(s: seq<CpuInfo>, source: RankSource): seq<(nat, Word)> {
    seq(|s|, i requires 0 <= i < |s| => Key(s[i], source))
  }

  predicate KeyFirst(a: (nat, Word), b: (nat, Word)) {
    a.0 > b.0 || (a.0 == b.0 && a.1 <= b.1)
  }

  predicate SortedKeys(s: seq<(nat, Word)>) {
    forall i, j | 0 <= i < j < |s| :: KeyFirst(s[i], s[j])
  }

  lemma HeadsAgree(a: seq<(nat, Word)>, b: seq<(nat, Word)>)
    requires SortedKeys(a) && SortedKeys(b) && multiset(a) == multiset(b) && a != [] && b != []
    ensures a[0] == b[0]
  {
    assert a[0] in multiset(b) && b[0] in multiset(a);
    var i :| 0 <= i < |b| && b[i] == a[0];
    var j :| 0 <= j < |a| && a[j] == b[0];
  }

  lemma {:induction false} SortedKeysUnique(a: seq<(nat, Word)>, b: seq<(nat, Word)>)
    requires SortedKeys(a) && SortedKeys(b) && multiset(a) == multiset(b)
    ensures a == b
    decreases |a|
  {
    assert |multiset(a)| == |a| && |multiset(b)| == |b|;
    if a != [] {
      HeadsAgree(a, b);
      assert SortedKeys(a[1..]) && SortedKeys(b[1..]);
      hide SortedKeys;
      assert a == [a[0]] + a[1..] && b == [b[0]] + b[1..];
      assert multiset(a[1..]) == multiset(a) - multiset{a[0]};
      assert multiset(b[1..]) == multiset(b) - multiset{b[0]};
      SortedKeysUnique(a[1..], b[1..]);
    }
  }

  lemma KeysOfAppend(a: seq<CpuInfo>, b: seq<CpuInfo>, source: RankSource)
    ensures KeysOf(a + b, source) == KeysOf(a, source) + KeysOf(b, source)
  {
    hide Key;
  }

  /** Taking one element out takes its key out. */
  lemma KeysWithout(b: seq<CpuInfo>, k: nat, source: RankSource)
    requires k < |b|
    ensures multiset(b[..k] + b[k + 1..]) == multiset(b) - multiset{b[k]}
    ensures multiset(KeysOf(b, source)) == multiset(KeysOf(b[..k] + b[k + 1..], source)) + multiset{Key(b[k], source)}
  {
    hide Key;
    assert b == b[..k] + ([b[k]] + b[k + 1..]);
    KeysOfAppend(b[..k], [b[k]] + b[k + 1..], source);
    KeysOfAppend([b[k]], b[k + 1..], source);
    KeysOfAppend(b[..k], b[k + 1..], source);
    assert KeysOf([b[k]], source) == [Key(b[k], source)];
  }

  lemma {:induction false} SameKeys(a: seq<CpuInfo>, b: seq<CpuInfo>, source: RankSource)
    requires multiset(a) == multiset(b)
    ensures multiset(KeysOf(a, source)) == multiset(KeysOf(b, source))
    decreases |a|
  {
    hide Key, KeysOf;
    assert |multiset(a)| == |a| && |multiset(b)| == |b|;
    if a != [] {
      assert a[0] in multiset(b);
      var k :| 0 <= k < |b| && b[k] == a[0];
      KeysWithout(a, 0, source);
      KeysWithout(b, k, source);
      assert |a[..0] + a[1..]| < |a|;
      SameKeys(a[..0] + a[1..], b[..k] + b[k + 1..], source);
    } else {
      assert b == [];
    }
  }

  /** The sort is not stable, and need not be: every sorted arrangement has the same ids. */
  lemma ArrangementsAgree(a: seq<CpuInfo>, b: seq<CpuInfo>, source: RankSource)
    requires multiset(a) == multiset(b) && SortedCpus(a, source) && SortedCpus(b, source)
    ensures Ids(a) == Ids(b)
  {
    SameKeys(a, b, source);
    KeysSorted(a, source);
    KeysSorted(b, source);
    SortedKeysUnique(KeysOf(a, source), KeysOf(b, source));
    hide Rank;
    assert |KeysOf(a, source)| == |a| && |KeysOf(b, source)| == |b|;
    forall i | 0 <= i < |a| ensures a[i].logicalCpu == b[i].logicalCpu {
      assert KeysOf(a, source)[i] == KeysOf(b, source)[i];
    }
  }

  lemma KeysSorted(s: seq<CpuInfo>, source: RankSource)
    requires SortedCpus(s, source)
    ensures SortedKeys(KeysOf(s, source))
  {
    hide Rank;
  }

  /** Asking for fewer threads takes a prefix of what asking for all of them takes. */
  lemma SelectionIsPrefix(cpus: seq<CpuInfo>, k: nat, includeAll: bool, some: seq<Word>, all: seq<Word>)
    requires IsSelection(cpus, k, includeAll, some) && IsSelection(cpus, 0, includeAll, all)
    ensures some == Cut(all, k)
  {
    hide CommonRankSource, SortsFirst;
    var source, candidates := CommonRankSource(cpus), Candidates(cpus, includeAll);
    var s: seq<CpuInfo> :| multiset(s) == multiset(candidates) && SortedCpus(s, source) && some == Cut(Ids(s), k);
    var t: seq<CpuInfo> :| multiset(t) == multiset(candidates) && SortedCpus(t, source) && all == Cut(Ids(t), 0);
    ArrangementsAgree(s, t, source);
  }

  lemma {:induction false} AllAreCandidates(cpus: seq<CpuInfo>)
    ensures Candidates(cpus, true) == cpus
  {
    if cpus != [] {
      AllAreCandidates(cpus[..|cpus| - 1]);
    }
  }

  /** With complete rank evidence, one thread on any present CPU gets the best CPU, which is the preferred one
      if and only if its id fits. */
  lemma PreferredIsOneThreadSelection(cpus: seq<CpuInfo>, one: seq<Word>)
    requires CommonRankSource(cpus) != UnknownRank && IsSelection(cpus, 1, true, one)
    ensures cpus != [] && |one| == 1
    ensures one[0] == PreferredOf(cpus) <==> BestFits(cpus, CommonRankSource(cpus))
  {
    var source := CommonRankSource(cpus);
    AllAreCandidates(cpus);
    var s: seq<CpuInfo> :| multiset(s) == multiset(Candidates(cpus, true)) && SortedCpus(s, source) && one == Cut(Ids(s), 1);
    assert |multiset(s)| == |s| && |multiset(cpus)| == |cpus|;
    SameMembers(s, cpus);
    SameMembers(cpus, s);
    var k := FirstIsBest(cpus, s, source);
    PreferredExactly(cpus, source);
    hide Rank, BestOf, CommonRankSource, SortedCpus, AsGood;
    if BestFits(cpus, source) {
      OneAnswer(cpus, cpus, source, k, PreferredEnd(cpus, source));
    }
    if one[0] == PreferredOf(cpus) {
      assert IsPreferred(cpus, source, PreferredOf(cpus));
    }
  }

  lemma FirstIsBest(cpus: seq<CpuInfo>, s: seq<CpuInfo>, source: RankSource) returns (k: nat)
    requires s != [] && SortedCpus(s, source) && source != UnknownRank
    requires (forall c | c in s :: c in cpus) && (forall c | c in cpus :: c in s)
    ensures IsBestAt(cpus, source, k) && cpus[k] == s[0]
  {
    hide Rank;
    assert s[0] in cpus;
    k :| 0 <= k < |cpus| && cpus[k] == s[0];
    forall j | 0 <= j < |cpus| ensures AsGood(cpus[k], cpus[j], source) {
      assert cpus[j] in s;
      var i :| 0 <= i < |s| && s[i] == cpus[j];
      assert i > 0 ==> SortsFirst(s[0], s[i], source);
    }
  }
}
