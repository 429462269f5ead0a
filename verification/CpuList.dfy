/** The kernel CPU-list parser (topology.cpp, ParseCpuList). */
module CpuList {
  import opened Common
  import opened DecimalText

  type Word = w: int | 0 <= w < 0x1_0000_0000

  /** A range as read: both ends cut to 32 bits. */
  datatype Range = Range(first: Word, last: Word)

  /** The ranges read up to where reading stopped, and whether it stopped at a number beyond 64 bits. */
  datatype Reading = Reading(ranges: seq<Range>, overflow: bool)

  datatype Outcome =
    | Cpus(cpus: seq<Word>)
    | OutOfRange  // std::stoul throws
    | Endless     // a range's loop is never left

  // ---------------------------------------------------------------- what is read

  predicate IsSeparator(c: char) {
    c == ',' || c == ' ' || '\t' <= c <= '\r'
  }

  function SkipSeparators(s: string): (r: string)
    ensures |r| <= |s| && (r == "" || !IsSeparator(r[0]))
  {
    if s != "" && IsSeparator(s[0]) then SkipSeparators(s[1..]) else s
  }

  function Cut32(v: nat): Word {
    v % U32
  }

  function Cons(r: Range, reading: Reading): Reading {
    Reading([r] + reading.ranges, reading.overflow)
  }

  /** One number, or two joined by a dash; anything else ends the list, an unfinished range included. */
  datatype Entry = NoEntry | HugeNumber | Entry(range: Range, rest: string)

  function NextEntry(s: string): (e: Entry)
    ensures e.Entry? ==> |e.rest| < |s|
  {
    var t := SkipSeparators(s);
    var k := DigitRun(t);
    if k == 0 then NoEntry
    else if NumberOf(t[..k]) >= U64 then HugeNumber
    else if k < |t| && t[k] == '-' then UpTo(Cut32(NumberOf(t[..k])), t[k + 1..])
    else Entry(Range(Cut32(NumberOf(t[..k])), Cut32(NumberOf(t[..k]))), t[k..])
  }

  /** What follows the dash. */
  function UpTo(first: Word, u: string): (e: Entry)
    ensures e.Entry? ==> |e.rest| < |u|
  {
    var l := DigitRun(u);
    if l == 0 then NoEntry
    else if NumberOf(u[..l]) >= U64 then HugeNumber
    else Entry(Range(first, Cut32(NumberOf(u[..l]))), u[l..])
  }

  function Read(s: string): Reading
    decreases |s|
  {
    match NextEntry(s)
    case NoEntry => Reading([], false)
    case HugeNumber => Reading([], true)
    case Entry(range, rest) => Cons(range, Read(rest))
  }

  // ---------------------------------------------------------------- what is returned

  predicate Admitted(r: Range) {
    r.first <= r.last && r.last - r.first < 4096
  }

  /** cpu lies in one of the admitted ranges. */
  predicate Covered(ranges: seq<Range>, cpu: int) {
    exists i | 0 <= i < |ranges| :: Admitted(ranges[i]) && ranges[i].first <= cpu <= ranges[i].last
  }

  /** The 32-bit loop counter of a range after k turns. */
  function Counter(r: Range, k: nat): Word {
    (r.first + k) % U32
  }

  /** The loop condition fails for the first time after k turns. */
  ghost predicate LeavesAfter(r: Range, k: nat) {
    Counter(r, k) > r.last && forall j | 0 <= j < k :: Counter(r, j) <= r.last
  }

  ghost predicate LoopEnds(r: Range) {
    exists k: nat :: Counter(r, k) > r.last
  }

  /** The loop over one of the ranges is entered and never left. */
  ghost predicate NeverEnds(ranges: seq<Range>) {
    exists i | 0 <= i < |ranges| :: Admitted(ranges[i]) && !LoopEnds(ranges[i])
  }

  lemma CounterWraps(r: Range, k: nat)
    ensures Counter(r, k) == Counter(r, k % U32)
    ensures k < U32 ==> Counter(r, k) == if r.first + k < U32 then r.first + k else r.first + k - U32
  {
    var q := (r.first + k % U32) / U32;
    assert r.first + k == (k / U32 + q) * U32 + (r.first + k % U32) % U32;
    DivideBack(k / U32 + q, U32, (r.first + k % U32) % U32);
  }

  /** The counter exceeds the last id at some time if and only if that id is not the largest there is; it does
      so first after one turn for each id of the range. */
  lemma LoopEndsExactly(r: Range)
    requires r.first <= r.last
    ensures LoopEnds(r) <==> r.last < U32 - 1
    ensures LoopEnds(r) ==> LeavesAfter(r, r.last - r.first + 1)
    ensures forall k | 0 <= k <= r.last - r.first :: Counter(r, k) == r.first + k
  {
    if r.last < U32 - 1 {
      CounterWraps(r, r.last - r.first + 1);
    }
    forall k | 0 <= k <= r.last - r.first ensures Counter(r, k) == r.first + k {
      CounterWraps(r, k);
    }
  }

  /** A counter that has gone all the way round without leaving never does. */
  lemma FullCircle(r: Range)
    requires forall j | 0 <= j < U32 :: Counter(r, j) <= r.last
    ensures !LoopEnds(r)
  {
    forall k: nat ensures Counter(r, k) <= r.last {
      CounterWraps(r, k);
    }
  }

  predicate Ascending(s: seq<Word>) {
    forall i, j | 0 <= i < j < |s| :: s[i] < s[j]
  }

  /** The outcome for what was read: endless, an exception, or exactly the covered ids in ascending order. */
  ghost predicate Yields(reading: Reading, outcome: Outcome) {
    match outcome
    case Endless => NeverEnds(reading.ranges)
    case OutOfRange => !NeverEnds(reading.ranges) && reading.overflow
    case Cpus(cpus) =>
      !NeverEnds(reading.ranges) && !reading.overflow && Ascending(cpus) && Holds(cpus, reading.ranges)
  }

  ghost predicate Holds(cpus: seq<Word>, ranges: seq<Range>) {
    forall cpu: Word :: cpu in cpus <==> Covered(ranges, cpu)
  }

  /** The outcome is determined. */
  lemma YieldsUnique(reading: Reading, a: Outcome, b: Outcome)
    requires Yields(reading, a) && Yields(reading, b)
    ensures a == b
  {
    hide NeverEnds;
    if a.Cpus? {
      AscendingUnique(a.cpus, b.cpus);
    }
  }

  lemma {:induction false} AscendingUnique(a: seq<Word>, b: seq<Word>)
    requires Ascending(a) && Ascending(b) && forall cpu: Word :: cpu in a <==> cpu in b
    ensures a == b
    decreases |a|
  {
    assert b != [] ==> b[0] in a;
    if a != [] {
      assert a[0] in b;
      assert a[0] == b[0];
      forall cpu: Word ensures cpu in a[1..] <==> cpu in b[1..] {
        assert cpu in a <==> cpu == a[0] || cpu in a[1..];
        assert cpu in b <==> cpu == b[0] || cpu in b[1..];
      }
      AscendingUnique(a[1..], b[1..]);
    }
  }

  // ---------------------------------------------------------------- the parser

  method SkipFrom(value: string, position: nat) returns (p: nat)
    requires position <= |value|
    ensures position <= p <= |value| && value[p..] == SkipSeparators(value[position..])
  {
    p := position;
    while p < |value| && IsSeparator(value[p])
      invariant position <= p <= |value|
      invariant SkipSeparators(value[p..]) == SkipSeparators(value[position..])
    {
      assert value[p..][1..] == value[p + 1..];
      p := p + 1;
    }
  }

  method DigitsFrom(value: string, position: nat) returns (end: nat)
    requires position <= |value|
    ensures position <= end <= |value| && end - position == DigitRun(value[position..])
    ensures value[position..end] == value[position..][..DigitRun(value[position..])]
  {
    end := position;
    while end < |value| && IsDigit(value[end])
      invariant position <= end <= |value|
      invariant end - position + DigitRun(value[end..]) == DigitRun(value[position..])
    {
      assert value[end..][1..] == value[end + 1..];
      end := end + 1;
    }
  }

  /** The loop with its 32-bit counter, watched for as many turns as the counter has values: it has left by
      then, having pushed each id of the range once, or never leaves. */
  method PushRange(cpus: seq<Word>, r: Range) returns (left: bool, pushed: seq<Word>)
    requires Admitted(r)
    ensures left <==> LoopEnds(r)
    ensures left ==> pushed == cpus + Ids(r)
  {
    hide LeavesAfter, LoopEnds;
    LoopEndsExactly(r);
    pushed := cpus;
    var cpu, turn := r.first, 0;
    assert cpu == Counter(r, 0) by { CounterWraps(r, 0); }
    while cpu <= r.last && turn < U32
      invariant turn <= U32 && cpu == Counter(r, turn)
      invariant forall j | 0 <= j < turn :: Counter(r, j) <= r.last
      invariant pushed == cpus + Counted(r, turn)
      decreases U32 - turn
    {
      CountedNext(cpus, r, turn);
      CounterNext(r, turn);
      pushed := pushed + [cpu];
      cpu := (cpu + 1) % U32;
      turn := turn + 1;
    }
    left := cpu > r.last;
    if left {
      LeftOnce(r, turn);
    } else {
      FullCircle(r);
    }
  }

  function Counted(r: Range, k: nat): seq<Word> {
    seq(k, j requires 0 <= j < k => Counter(r, j))
  }

  /** The ids of a range, in order. */
  function Ids(r: Range): seq<Word>
    requires r.first <= r.last
  {
    seq(r.last - r.first + 1, j requires 0 <= j <= r.last - r.first => r.first + j)
  }

  lemma CountedNext(cpus: seq<Word>, r: Range, k: nat)
    ensures cpus + Counted(r, k) + [Counter(r, k)] == cpus + Counted(r, k + 1)
  {
  }

  lemma CounterNext(r: Range, k: nat)
    ensures Counter(r, k + 1) == (Counter(r, k) + 1) % U32
  {
    assert (r.first + k + 1) == U32 * ((r.first + k) / U32) + ((r.first + k) % U32 + 1);
  }

  lemma LeftOnce(r: Range, k: nat)
    requires r.first <= r.last && LeavesAfter(r, k)
    ensures LoopEnds(r) && Counted(r, k) == Ids(r)
  {
    LoopEndsExactly(r);
    hide Counter;
    var n := r.last - r.first + 1;
    assert LeavesAfter(r, n);
    assert k == n;
  }

  lemma InsertHolds(before: seq<Word>, cpu: Word, after: seq<Word>, c: Word)
    ensures c in before + [cpu] + after <==> c in before + after || c == cpu
  {
  }

  lemma InsertAscends(sorted: seq<Word>, at: nat, cpu: Word)
    requires Ascending(sorted) && at <= |sorted|
    requires (forall i | 0 <= i < at :: sorted[i] < cpu) && (at < |sorted| ==> cpu < sorted[at])
    ensures Ascending(sorted[..at] + [cpu] + sorted[at..])
  {
    var r := sorted[..at] + [cpu] + sorted[at..];
    forall i, j | 0 <= i < j < |r| ensures r[i] < r[j] {
      assert r[i] == if i < at then sorted[i] else if i == at then cpu else sorted[i - 1];
      assert r[j] == if j < at then sorted[j] else if j == at then cpu else sorted[j - 1];
    }
  }

  method Insert(sorted: seq<Word>, cpu: Word) returns (r: seq<Word>)
    requires Ascending(sorted)
    ensures Ascending(r) && forall c: Word :: c in r <==> c in sorted || c == cpu
  {
    hide Ascending;
    var at := 0;
    while at < |sorted| && sorted[at] < cpu
      invariant at <= |sorted| && forall i | 0 <= i < at :: sorted[i] < cpu
    {
      at := at + 1;
    }
    if at < |sorted| && sorted[at] == cpu {
      r := sorted;
    } else {
      r := sorted[..at] + [cpu] + sorted[at..];
      assert sorted[..at] + sorted[at..] == sorted;
      InsertAscends(sorted, at, cpu);
      forall c: Word ensures c in r <==> c in sorted || c == cpu {
        InsertHolds(sorted[..at], cpu, sorted[at..], c);
      }
    }
  }

  /** sort, then unique and erase. */
  method SortUnique(cpus: seq<Word>) returns (r: seq<Word>)
    ensures Ascending(r) && forall c: Word :: c in r <==> c in cpus
  {
    r := [];
    for i := 0 to |cpus|
      invariant Ascending(r) && forall c: Word :: c in r <==> c in cpus[..i]
    {
      assert cpus[..i + 1] == cpus[..i] + [cpus[i]];
      r := Insert(r, cpus[i]);
    }
    assert cpus[..|cpus|] == cpus;
  }

  function After(done: seq<Range>, reading: Reading): Reading {
    Reading(done + reading.ranges, reading.overflow)
  }

  lemma AfterCons(done: seq<Range>, r: Range, reading: Reading)
    ensures After(done, Cons(r, reading)) == After(done + [r], reading)
  {
    assert done + ([r] + reading.ranges) == done + [r] + reading.ranges;
  }

  lemma CoveredSnoc(done: seq<Range>, r: Range, cpu: int)
    ensures Covered(done + [r], cpu) <==> Covered(done, cpu) || (Admitted(r) && r.first <= cpu <= r.last)
  {
    var all := done + [r];
    if Covered(done, cpu) {
      var i :| 0 <= i < |done| && Admitted(done[i]) && done[i].first <= cpu <= done[i].last;
      assert all[i] == done[i];
    }
    if Admitted(r) && r.first <= cpu <= r.last {
      assert all[|done|] == r;
    }
  }

  lemma EndlessSnoc(done: seq<Range>, r: Range)
    ensures NeverEnds(done + [r]) <==> NeverEnds(done) || (Admitted(r) && !LoopEnds(r))
  {
    hide LoopEnds;
    var all := done + [r];
    if NeverEnds(done) {
      var i :| 0 <= i < |done| && Admitted(done[i]) && !LoopEnds(done[i]);
      assert all[i] == done[i];
    }
    if Admitted(r) && !LoopEnds(r) {
      assert all[|done|] == r;
    }
  }

  lemma EndlessPrefix(done: seq<Range>, rest: seq<Range>)
    requires NeverEnds(done)
    ensures NeverEnds(done + rest)
  {
    hide LoopEnds;
    var i :| 0 <= i < |done| && Admitted(done[i]) && !LoopEnds(done[i]);
    assert (done + rest)[i] == done[i];
  }

  lemma InIds(r: Range, cpu: Word)
    requires r.first <= r.last
    ensures cpu in Ids(r) <==> r.first <= cpu <= r.last
  {
    if r.first <= cpu <= r.last {
      assert Ids(r)[cpu - r.first] == cpu;
    }
  }

  /** Adds one range to the ids, if it is in order and not too wide; not ok when its loop is never left. */
  method AddRange(cpus: seq<Word>, ghost done: seq<Range>, r: Range) returns (ok: bool, pushed: seq<Word>)
    requires Holds(cpus, done) && !NeverEnds(done)
    ensures ok == !NeverEnds(done + [r])
    ensures ok ==> Holds(pushed, done + [r])
  {
    hide NeverEnds, LoopEnds, Covered, Ids;
    EndlessSnoc(done, r);
    forall cpu: Word ensures Covered(done + [r], cpu) <==> Covered(done, cpu) || (Admitted(r) && r.first <= cpu <= r.last) {
      CoveredSnoc(done, r, cpu);
    }
    pushed := cpus;
    ok := true;
    if r.last >= r.first && r.last - r.first < 4096 {
      ok, pushed := PushRange(cpus, r);
      forall cpu: Word ensures cpu in Ids(r) <==> r.first <= cpu <= r.last {
        InIds(r, cpu);
      }
    }
  }

  /** The next entry, by the position where it ends. */
  datatype Stop = NoMore | TooBig | Found(range: Range, end: nat)

  /** Reads one entry from a position. */
  method ReadOne(value: string, position: nat) returns (stop: Stop)
    requires position <= |value|
    ensures match stop
      case NoMore => NextEntry(value[position..]) == NoEntry
      case TooBig => NextEntry(value[position..]) == HugeNumber
      case Found(r, end) => position < end <= |value| && NextEntry(value[position..]) == Entry(r, value[end..])
  {
    hide DigitRun, NumberOf, SkipSeparators;
    var p := SkipFrom(value, position);
    ghost var t := value[p..];
    var end := DigitsFrom(value, p);
    if end == p {
      return NoMore;
    }
    if NumberOf(value[p..end]) >= U64 {
      return TooBig;
    }
    var first := Cut32(NumberOf(value[p..end]));
    assert end < |value| ==> value[end] == t[end - p];
    if end < |value| && value[end] == '-' {
      var q := end + 1;
      assert t[end - p + 1..] == value[q..];
      end := DigitsFrom(value, q);
      if end == q {
        return NoMore;
      }
      if NumberOf(value[q..end]) >= U64 {
        return TooBig;
      }
      assert value[q..][end - q..] == value[end..];
      return Found(Range(first, Cut32(NumberOf(value[q..end]))), end);
    }
    assert t[end - p..] == value[end..];
    return Found(Range(first, first), end);
  }

  method ParseCpuList(value: string) returns (outcome: Outcome)
    ensures Yields(Read(value), outcome)
  {
    hide NextEntry, NeverEnds, Holds, Ascending;
    var cpus: seq<Word> := [];
    ghost var done: seq<Range> := [];
    var position := 0;
    assert Holds(cpus, done) && !NeverEnds(done) by { NothingDone(); }
    assert value[0..] == value && After(done, Read(value)) == Read(value);
    while position < |value|
      invariant position <= |value|
      invariant Read(value) == After(done, Read(value[position..]))
      invariant Holds(cpus, done) && !NeverEnds(done)
    {
      var stop := ReadOne(value, position);
      assert done + [] == done;
      match stop {
        case NoMore =>
          break;
        case TooBig =>
          return OutOfRange;
        case Found(r, end) =>
          AfterCons(done, r, Read(value[end..]));
          var ok;
          ok, cpus := AddRange(cpus, done, r);
          if !ok {
            EndlessPrefix(done + [r], Read(value[end..]).ranges);
            return Endless;
          }
          done := done + [r];
          position := end;
      }
    }
    if position == |value| {
      ReadNothing(value[position..]);
    }
    assert done + [] == done;
    var sorted := SortUnique(cpus);
    assert Holds(sorted, done) by { HoldsSame(cpus, sorted, done); }
    return Cpus(sorted);
  }

  lemma NothingDone()
    ensures Holds([], []) && !NeverEnds([])
  {
  }

  lemma ReadNothing(s: string)
    requires s == ""
    ensures Read(s) == Reading([], false)
  {
  }

  lemma HoldsSame(a: seq<Word>, b: seq<Word>, ranges: seq<Range>)
    requires Holds(a, ranges) && forall c: Word :: c in b <==> c in a
    ensures Holds(b, ranges)
  {
  }

  // ---------------------------------------------------------------- the kernel's own format reads back

  /** "first-last", or just the number when they agree. */
  function PrintRange(r: Range): string {
    if r.first == r.last then Decimal(r.first) else Decimal(r.first) + "-" + Decimal(r.last)
  }

  /** Comma between ranges, and whatever line end follows. */
  function PrintRanges(ranges: seq<Range>, tail: string): string {
    if ranges == [] then tail
    else PrintRange(ranges[0]) + (if |ranges| > 1 then "," else "") + PrintRanges(ranges[1..], tail)
  }

  predicate AllSeparators(s: string) {
    forall i | 0 <= i < |s| :: IsSeparator(s[i])
  }

  lemma {:induction false} SkipAll(s: string)
    requires AllSeparators(s)
    ensures SkipSeparators(s) == ""
    decreases |s|
  {
    if s != "" {
      SkipAll(s[1..]);
    }
  }

  lemma ReadTail(tail: string)
    requires AllSeparators(tail)
    ensures Read(tail) == Reading([], false)
  {
    SkipAll(tail);
  }

  lemma ReadComma(s: string)
    ensures Read("," + s) == Read(s)
  {
    assert ("," + s)[1..] == s;
  }

  lemma UpToAt(first: Word, u: string, l: nat)
    requires DigitRun(u) == l > 0 && NumberOf(u[..l]) < U32
    ensures UpTo(first, u) == Entry(Range(first, NumberOf(u[..l])), u[l..])
  {
    hide NumberOf, DigitRun, Cut32, AllDigits;
    Cut32Keeps(NumberOf(u[..l]));
  }

  lemma Cut32Keeps(v: nat)
    requires v < U32
    ensures Cut32(v) == v && v < U64
  {
  }

  /** A text that starts with a number and a dash, in terms of the length of the number. */
  lemma DashAt(t: string, k: nat)
    requires SkipSeparators(t) == t && DigitRun(t) == k > 0 && k < |t| && t[k] == '-' && NumberOf(t[..k]) < U32
    ensures NextEntry(t) == UpTo(NumberOf(t[..k]), t[k + 1..])
  {
    hide NumberOf, DigitRun, SkipSeparators, UpTo, Cut32, AllDigits;
    Cut32Keeps(NumberOf(t[..k]));
  }

  lemma SingleAt(t: string, k: nat)
    requires SkipSeparators(t) == t && DigitRun(t) == k > 0 && (k < |t| ==> t[k] != '-') && NumberOf(t[..k]) < U32
    ensures NextEntry(t) == Entry(Range(NumberOf(t[..k]), NumberOf(t[..k])), t[k..])
  {
    hide NumberOf, DigitRun, SkipSeparators, Cut32, AllDigits;
    Cut32Keeps(NumberOf(t[..k]));
  }

  lemma LeadingNumber(a: string, x: string)
    requires AllDigits(a) && a != "" && NoDigitNext(x)
    ensures SkipSeparators(a + x) == a + x && DigitRun(a + x) == |a| && (a + x)[..|a|] == a && (a + x)[|a|..] == x
  {
    hide DigitRun;
    RunIs(a, x);
    assert (a + x)[0] == a[0];
  }

  lemma ReadPair(a: string, b: string, rest: string)
    requires AllDigits(a) && a != "" && NumberOf(a) < U32 && AllDigits(b) && b != "" && NumberOf(b) < U32
    requires NoDigitNext(rest)
    ensures Read(a + ("-" + (b + rest))) == Cons(Range(NumberOf(a), NumberOf(b)), Read(rest))
  {
    hide NumberOf, DigitRun, SkipSeparators, NextEntry, UpTo, AllDigits;
    var u := b + rest;
    var t := a + ("-" + u);
    LeadingNumber(a, "-" + u);
    LeadingNumber(b, rest);
    assert t[|a| + 1..] == u;
    DashAt(t, |a|);
    UpToAt(NumberOf(a), u, |b|);
  }

  lemma ReadSingle(a: string, rest: string)
    requires AllDigits(a) && a != "" && NumberOf(a) < U32
    requires NoDigitNext(rest) && (rest == "" || rest[0] != '-')
    ensures Read(a + rest) == Cons(Range(NumberOf(a), NumberOf(a)), Read(rest))
  {
    hide NumberOf, DigitRun, SkipSeparators, NextEntry, AllDigits;
    LeadingNumber(a, rest);
    var t := a + rest;
    assert |a| < |t| ==> t[|a|] == rest[0];
    SingleAt(t, |a|);
  }

  /** A printed range is read back, whatever follows it that is neither a digit nor a dash. */
  lemma ReadPrinted(r: Range, rest: string)
    requires NoDigitNext(rest) && (rest == "" || rest[0] != '-')
    ensures Read(PrintRange(r) + rest) == Cons(r, Read(rest))
  {
    hide Decimal, NumberOf, Read, AllDigits;
    DecimalIsCanonical(r.first);
    DecimalIsCanonical(r.last);
    var a, b := Decimal(r.first), Decimal(r.last);
    if r.first == r.last {
      ReadSingle(a, rest);
    } else {
      ReadPair(a, b, rest);
      assert PrintRange(r) + rest == a + ("-" + (b + rest));
    }
  }

  /** Any list of ranges printed in the kernel's format is read back exactly. */
  lemma {:induction false} PrintThenRead(ranges: seq<Range>, tail: string)
    requires AllSeparators(tail)
    ensures Read(PrintRanges(ranges, tail)) == Reading(ranges, false)
    decreases |ranges|
  {
    hide Read, PrintRange;
    if ranges == [] {
      ReadTail(tail);
    } else {
      var printed := PrintRanges(ranges[1..], tail);
      PrintThenRead(ranges[1..], tail);
      assert [ranges[0]] + ranges[1..] == ranges;
      if |ranges| > 1 {
        ReadComma(printed);
        ReadPrinted(ranges[0], "," + printed);
        assert PrintRange(ranges[0]) + "," + printed == PrintRange(ranges[0]) + ("," + printed);
      } else {
        assert printed == tail;
        ReadPrinted(ranges[0], tail);
        assert PrintRange(ranges[0]) + "" + printed == PrintRange(ranges[0]) + printed;
      }
    }
  }

  /** A range is admitted and its loop never left exactly when it ends at the largest id. */
  lemma EndlessRange(r: Range)
    ensures Admitted(r) && !LoopEnds(r) <==> U32 - 4096 <= r.first && r.last == U32 - 1
  {
    if r.first <= r.last {
      LoopEndsExactly(r);
    }
    hide LoopEnds;
  }

  /** A printed list, of any ranges: the loop over one of them is never left if and only if a range of at most
      4096 ids ends at the largest id; otherwise the list yields exactly the ids of the ranges in order and at
      most 4096 wide. */
  lemma PrintedListExactly(ranges: seq<Range>, tail: string, outcome: Outcome)
    requires AllSeparators(tail) && Yields(Read(PrintRanges(ranges, tail)), outcome)
    ensures outcome.Endless? <==>
      exists i | 0 <= i < |ranges| :: U32 - 4096 <= ranges[i].first && ranges[i].last == U32 - 1
    ensures !outcome.Endless? ==> outcome.Cpus? && Ascending(outcome.cpus) && Holds(outcome.cpus, ranges)
  {
    PrintThenRead(ranges, tail);
    hide Read, PrintRanges, Holds, Ascending, LoopEnds, Admitted;
    forall i | 0 <= i < |ranges|
      ensures Admitted(ranges[i]) && !LoopEnds(ranges[i]) <==>
        U32 - 4096 <= ranges[i].first && ranges[i].last == U32 - 1
    {
      EndlessRange(ranges[i]);
    }
  }

  /** Round trip: below the top id and 4096 ids wide at most, a printed list yields exactly its ids. */
  lemma PrintedListYields(ranges: seq<Range>, tail: string, outcome: Outcome)
    requires AllSeparators(tail) && Yields(Read(PrintRanges(ranges, tail)), outcome)
    requires forall i | 0 <= i < |ranges| :: Admitted(ranges[i]) && ranges[i].last < U32 - 1
    ensures outcome.Cpus? && Ascending(outcome.cpus)
    ensures forall cpu: Word :: cpu in outcome.cpus <==>
      exists i | 0 <= i < |ranges| :: ranges[i].first <= cpu <= ranges[i].last
  {
    PrintedListExactly(ranges, tail, outcome);
    hide Read, PrintRanges, Yields;
    forall cpu: Word
      ensures Covered(ranges, cpu) <==> exists i | 0 <= i < |ranges| :: ranges[i].first <= cpu <= ranges[i].last
    {
    }
  }

  /** The shortest list that never ends: its one range is read, and after no number of turns has the counter
      passed the end. */
  lemma TopIdIsEndless(outcome: Outcome)
    requires Yields(Read("4294967295"), outcome)
    ensures Read("4294967295").ranges == [Range(U32 - 1, U32 - 1)]
    ensures outcome.Endless? && !LoopEnds(Range(U32 - 1, U32 - 1))
  {
    var r := Range(U32 - 1, U32 - 1);
    TopIsPrinted();
    PrintThenRead([r], "");
    assert PrintRanges([r], "") == PrintRange(r) + "" + "";
    assert PrintRange(r) + "" + "" == "4294967295";
    EndlessRange(r);
    hide LoopEnds, Read;
    assert Read("4294967295").ranges[0] == r;
  }

  lemma TopIsPrinted()
    ensures Decimal(U32 - 1) == "4294967295"
  {
    assert Decimal(42) == "42" && Decimal(429) == "429" && Decimal(4294) == "4294" && Decimal(42949) == "42949";
    assert Decimal(429496) == "429496" && Decimal(4294967) == "4294967" && Decimal(42949672) == "42949672";
    assert Decimal(429496729) == "429496729";
  }
}
