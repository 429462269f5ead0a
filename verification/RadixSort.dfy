/** The four-pass least-significant-digit radix sort that serves as the oracle for the sorting
    workload (cpu_application_workload.cpp), its counting passes done in place on two arrays. */
module RadixSort {
  import opened Common

  // ---------------------------------------------------------------- one pass, as a function

  /** The byte of v whose lowest bit has weight unit: (v >> shift) & 255 with unit = 2^shift. */
  function Digit(v: nat, unit: nat): (d: nat)
    requires unit > 0
    ensures d < 256
  {
    v / unit % 256
  }

  /** The subsequence of elements whose digit is d, in order. */
  function Select(s: seq<nat>, unit: nat, d: nat): seq<nat>
    requires unit > 0
  {
    if s == [] then []
    else if Digit(s[|s| - 1], unit) == d then Select(s[..|s| - 1], unit, d) + [s[|s| - 1]]
    else Select(s[..|s| - 1], unit, d)
  }

  /** All elements whose digit is below d, buckets in order and each bucket in input order. */
  function Gather(s: seq<nat>, unit: nat, d: nat): seq<nat>
    requires unit > 0
  {
    if d == 0 then [] else Gather(s, unit, d - 1) + Select(s, unit, d - 1)
  }

  function Pass(s: seq<nat>, unit: nat): seq<nat>
    requires unit > 0
  {
    Gather(s, unit, 256)
  }

  /** Where a pass puts the element at i: after all smaller digits and all earlier equal ones. */
  function Destination(s: seq<nat>, unit: nat, i: nat): nat
    requires unit > 0 && i < |s|
  {
    |Gather(s, unit, Digit(s[i], unit))| + |Select(s[..i], unit, Digit(s[i], unit))|
  }

  lemma {:induction false} SelectPrefix(s: seq<nat>, unit: nat, d: nat, i: nat)
    requires unit > 0 && i <= |s|
    ensures Select(s[..i], unit, d) <= Select(s, unit, d)
    decreases |s|
  {
    hide Digit;
    if i < |s| {
      SelectPrefix(s[..|s| - 1], unit, d, i);
      assert s[..|s| - 1][..i] == s[..i];
    } else {
      assert s[..i] == s;
    }
  }

  lemma SelectNext(s: seq<nat>, unit: nat, d: nat, i: nat)
    requires unit > 0 && i < |s|
    ensures Select(s[..i + 1], unit, d)
      == Select(s[..i], unit, d) + if Digit(s[i], unit) == d then [s[i]] else []
  {
    hide Digit;
    assert s[..i + 1][..i] == s[..i];
  }

  lemma {:induction false} GatherGrows(s: seq<nat>, unit: nat, low: nat, high: nat)
    requires unit > 0 && low <= high
    ensures Gather(s, unit, low) <= Gather(s, unit, high)
    decreases high
  {
    hide Digit;
    if low < high {
      GatherGrows(s, unit, low, high - 1);
    }
  }

  /** The slot of each write: in range, inside the bucket of the element's digit. */
  lemma DestinationInBucket(s: seq<nat>, unit: nat, i: nat)
    requires unit > 0 && i < |s|
    ensures |Gather(s, unit, Digit(s[i], unit))| <= Destination(s, unit, i)
      < |Gather(s, unit, Digit(s[i], unit) + 1)| <= |Pass(s, unit)|
    ensures Pass(s, unit)[Destination(s, unit, i)] == s[i]
  {
    hide Digit;
    var d := Digit(s[i], unit);
    SelectNext(s, unit, d, i);
    SelectPrefix(s, unit, d, i + 1);
    GatherGrows(s, unit, d + 1, 256);
    assert Select(s, unit, d)[|Select(s[..i], unit, d)|] == s[i];
  }

  /** No slot is written twice. */
  lemma DestinationInjective(s: seq<nat>, unit: nat, i: nat, j: nat)
    requires unit > 0 && i < j < |s|
    ensures Destination(s, unit, i) != Destination(s, unit, j)
    ensures Digit(s[i], unit) == Digit(s[j], unit) ==> Destination(s, unit, i) < Destination(s, unit, j)
    ensures Digit(s[i], unit) < Digit(s[j], unit) ==> Destination(s, unit, i) < Destination(s, unit, j)
  {
    hide Digit, Select;
    var d, e := Digit(s[i], unit), Digit(s[j], unit);
    DestinationInBucket(s, unit, i);
    DestinationInBucket(s, unit, j);
    if d < e {
      GatherGrows(s, unit, d + 1, e);
    } else if e < d {
      GatherGrows(s, unit, e + 1, d);
    } else {
      SelectNext(s, unit, d, i);
      SelectPrefix(s[..j], unit, d, i + 1);
      assert s[..j][..i + 1] == s[..i + 1];
    }
  }

  lemma {:induction false} SelectCounts(s: seq<nat>, unit: nat, d: nat, v: nat)
    requires unit > 0
    ensures multiset(Select(s, unit, d))[v] == if Digit(v, unit) == d then multiset(s)[v] else 0
  {
    hide Digit;
    if s != [] {
      SelectCounts(s[..|s| - 1], unit, d, v);
      assert s == s[..|s| - 1] + [s[|s| - 1]];
    }
  }

  lemma {:induction false} GatherCounts(s: seq<nat>, unit: nat, d: nat, v: nat)
    requires unit > 0
    ensures multiset(Gather(s, unit, d))[v] == if Digit(v, unit) < d then multiset(s)[v] else 0
  {
    hide Digit, Select;
    if d > 0 {
      GatherCounts(s, unit, d - 1, v);
      SelectCounts(s, unit, d - 1, v);
    }
  }

  /** A pass permutes. */
  lemma PassPermutes(s: seq<nat>, unit: nat)
    requires unit > 0
    ensures multiset(Pass(s, unit)) == multiset(s) && |Pass(s, unit)| == |s|
  {
    hide Digit;
    forall v ensures multiset(Pass(s, unit))[v] == multiset(s)[v] {
      GatherCounts(s, unit, 256, v);
    }
    assert multiset(Pass(s, unit)) == multiset(s);
    assert |multiset(Pass(s, unit))| == |Pass(s, unit)| && |multiset(s)| == |s|;
  }

  // ---------------------------------------------------------------- sorted by the low digits

  predicate SortedModulo(s: seq<nat>, m: nat)
    requires m > 0
  {
    forall i, j | 0 <= i < j < |s| :: s[i] % m <= s[j] % m
  }

  predicate Sorted(s: seq<nat>) {
    forall i, j | 0 <= i < j < |s| :: s[i] <= s[j]
  }

  lemma {:induction false} SelectKeepsOrder(s: seq<nat>, unit: nat, d: nat)
    requires unit > 0 && SortedModulo(s, unit)
    ensures SortedModulo(Select(s, unit, d), unit)
    ensures forall i | 0 <= i < |Select(s, unit, d)| ::
              Digit(Select(s, unit, d)[i], unit) == d && Select(s, unit, d)[i] in s
  {
    hide Digit;
    if s != [] {
      SelectKeepsOrder(s[..|s| - 1], unit, d);
    }
  }

  /** The four values of 1 << shift. */
  predicate IsUnit(unit: nat) {
    unit == 1 || unit == 0x100 || unit == 0x1_0000 || unit == 0x100_0000
  }

  /** The digit decides first, the lower digits decide among equal digits. */
  lemma DigitDecides(a: nat, b: nat, unit: nat)
    requires IsUnit(unit)
    requires Digit(a, unit) < Digit(b, unit) || (Digit(a, unit) == Digit(b, unit) && a % unit <= b % unit)
    ensures a % (256 * unit) <= b % (256 * unit)
  {
    SplitModulo(a, unit);
    SplitModulo(b, unit);
    hide Digit;
    if unit == 1 {
    } else if unit == 0x100 {
    } else if unit == 0x1_0000 {
    }
  }

  /** The low part of a number: its next digit, then what is below. */
  lemma SplitTwo(v: nat)
    ensures v % 0x1_0000 == v / 0x100 % 256 * 0x100 + v % 0x100
  {
    var a, low := v / 0x100, v % 0x100;
    DivideBack(a / 256, 0x1_0000, a % 256 * 0x100 + low);
  }

  lemma SplitThree(v: nat)
    ensures v % 0x100_0000 == v / 0x1_0000 % 256 * 0x1_0000 + v % 0x1_0000
  {
    var a, low := v / 0x1_0000, v % 0x1_0000;
    DivideBack(a / 256, 0x100_0000, a % 256 * 0x1_0000 + low);
  }

  lemma SplitFour(v: nat)
    ensures v % 0x1_0000_0000 == v / 0x100_0000 % 256 * 0x100_0000 + v % 0x100_0000
  {
    var a, low := v / 0x100_0000, v % 0x100_0000;
    DivideBack(a / 256, 0x1_0000_0000, a % 256 * 0x100_0000 + low);
  }

  lemma SplitModulo(v: nat, unit: nat)
    requires IsUnit(unit)
    ensures v % (256 * unit) == Digit(v, unit) * unit + v % unit
  {
    if unit == 1 {
    } else if unit == 0x100 {
      SplitTwo(v);
    } else if unit == 0x1_0000 {
      SplitThree(v);
    } else {
      SplitFour(v);
    }
  }

  lemma {:induction false} GatherSorts(s: seq<nat>, unit: nat, d: nat)
    requires IsUnit(unit) && d <= 256 && SortedModulo(s, unit)
    ensures SortedModulo(Gather(s, unit, d), 256 * unit)
    ensures forall i | 0 <= i < |Gather(s, unit, d)| :: Digit(Gather(s, unit, d)[i], unit) < d
  {
    hide Digit, Select;
    if d > 0 {
      GatherSorts(s, unit, d - 1);
      SelectKeepsOrder(s, unit, d - 1);
      var low, top := Gather(s, unit, d - 1), Select(s, unit, d - 1);
      var all := low + top;
      forall i, j | 0 <= i < j < |all|
        ensures all[i] % (256 * unit) <= all[j] % (256 * unit)
      {
        if j >= |low| {
          DigitDecides(all[i], all[j], unit);
        }
      }
    }
  }

  /** Each pass extends the sorted low digits by one: the step of the radix sort. */
  lemma PassSorts(s: seq<nat>, unit: nat)
    requires IsUnit(unit) && SortedModulo(s, unit)
    ensures SortedModulo(Pass(s, unit), 256 * unit)
  {
    GatherSorts(s, unit, 256);
  }

  /** Stability: elements with the same digit keep their order. */
  lemma PassIsStable(s: seq<nat>, unit: nat, d: nat)
    requires unit > 0 && d < 256
    ensures Select(Pass(s, unit), unit, d) == Select(s, unit, d)
  {
    GatherStable(s, unit, 256, d);
  }

  lemma {:induction false} SelectAppend(a: seq<nat>, b: seq<nat>, unit: nat, d: nat)
    requires unit > 0
    ensures Select(a + b, unit, d) == Select(a, unit, d) + Select(b, unit, d)
    decreases |b|
  {
    hide Digit;
    if b == [] {
      assert a + b == a;
    } else {
      assert (a + b)[..|a + b| - 1] == a + b[..|b| - 1];
      SelectAppend(a, b[..|b| - 1], unit, d);
    }
  }

  lemma {:induction false} SelectTwice(s: seq<nat>, unit: nat, d: nat, e: nat)
    requires unit > 0
    ensures Select(Select(s, unit, e), unit, d) == if d == e then Select(s, unit, d) else []
  {
    hide Digit;
    if s != [] {
      var init, last := s[..|s| - 1], s[|s| - 1];
      SelectTwice(init, unit, d, e);
      if Digit(last, unit) == e {
        SelectAppend(Select(init, unit, e), [last], unit, d);
        assert [last][..0] == [];
        assert Select([last], unit, d) == if d == e then [last] else [];
      }
    }
  }

  lemma SelectNothing(unit: nat, d: nat)
    requires unit > 0
    ensures Select([], unit, d) == []
  {
  }

  lemma {:induction false} GatherStable(s: seq<nat>, unit: nat, n: nat, d: nat)
    requires unit > 0
    ensures Select(Gather(s, unit, n), unit, d) == if d < n then Select(s, unit, d) else []
  {
    hide Digit, Select;
    SelectNothing(unit, d);
    if n > 0 {
      GatherStable(s, unit, n - 1, d);
      SelectTwice(s, unit, d, n - 1);
      SelectAppend(Gather(s, unit, n - 1), Select(s, unit, n - 1), unit, d);
      assert Select(s, unit, d) + [] == Select(s, unit, d);
    }
  }

  // ---------------------------------------------------------------- the whole sort

  lemma HeadsAgree(a: seq<nat>, b: seq<nat>)
    requires Sorted(a) && Sorted(b) && multiset(a) == multiset(b) && a != [] && b != []
    ensures a[0] == b[0]
  {
    assert a[0] in multiset(b) && b[0] in multiset(a);
    var i :| 0 <= i < |b| && b[i] == a[0];
    var j :| 0 <= j < |a| && a[j] == b[0];
  }

  /** There is only one sorted permutation. */
  lemma {:induction false} SortedIsUnique(a: seq<nat>, b: seq<nat>)
    requires Sorted(a) && Sorted(b) && multiset(a) == multiset(b)
    ensures a == b
    decreases |a|
  {
    assert |multiset(a)| == |a| && |multiset(b)| == |b|;
    if a != [] {
      HeadsAgree(a, b);
      assert Sorted(a[1..]) && Sorted(b[1..]);
      hide Sorted;
      assert a == [a[0]] + a[1..] && b == [b[0]] + b[1..];
      assert multiset(a[1..]) == multiset(a) - multiset{a[0]};
      assert multiset(b[1..]) == multiset(b) - multiset{b[0]};
      SortedIsUnique(a[1..], b[1..]);
    }
  }

  predicate IsWord(v: nat) {
    v < U32
  }

  predicate AllWords(s: seq<nat>) {
    forall i | 0 <= i < |s| :: IsWord(s[i])
  }

  lemma {:induction false} SelectOrigin(s: seq<nat>, unit: nat, d: nat, m: nat) returns (i: nat)
    requires unit > 0 && m < |Select(s, unit, d)|
    ensures i < |s| && Digit(s[i], unit) == d && |Select(s[..i], unit, d)| == m
    decreases |s|
  {
    hide Digit;
    var last := |s| - 1;
    if m < |Select(s[..last], unit, d)| {
      i := SelectOrigin(s[..last], unit, d, m);
      assert s[..last][..i] == s[..i];
    } else {
      i := last;
    }
  }

  lemma {:induction false} GatherOrigin(s: seq<nat>, unit: nat, n: nat, k: nat) returns (i: nat)
    requires unit > 0 && k < |Gather(s, unit, n)|
    ensures i < |s| && Destination(s, unit, i) == k
  {
    hide Digit, Select;
    if k < |Gather(s, unit, n - 1)| {
      i := GatherOrigin(s, unit, n - 1, k);
    } else {
      i := SelectOrigin(s, unit, n - 1, k - |Gather(s, unit, n - 1)|);
    }
  }

  /** Every slot is written: with `DestinationInjective`, each is hit exactly once. */
  lemma DestinationOnto(s: seq<nat>, unit: nat, k: nat) returns (i: nat)
    requires unit > 0 && k < |s|
    ensures i < |s| && Destination(s, unit, i) == k
  {
    PassPermutes(s, unit);
    i := GatherOrigin(s, unit, 256, k);
  }

  method CountingPass(values: array<nat>, scratch: array<nat>, unit: nat)
    requires IsUnit(unit) && values != scratch && values.Length == scratch.Length
    modifies scratch
    ensures scratch[..] == Pass(values[..], unit)
  {
    hide Digit, Select, Gather, Destination, IsUnit;
    ghost var s := values[..];
    assert unit > 0 by { UnitPositive(unit); }
    var positions := CountDigits(values, unit);
    StartOffsets(s, positions, unit);
    forall j | 0 <= j < |s| ensures Destination(s, unit, j) < |s| {
      DestinationInBucket(s, unit, j);
      PassPermutes(s, unit);
    }
    for i := 0 to values.Length
      invariant values[..] == s
      invariant forall b | 0 <= b < 256 :: positions[b] == |Gather(s, unit, b)| + |Select(s[..i], unit, b)|
      invariant forall j | 0 <= j < i :: scratch[Destination(s, unit, j)] == s[j]
    {
      var d := Digit(values[i], unit);
      DestinationIs(s, unit, i);
      scratch[positions[d]] := values[i];
      forall j | 0 <= j < i ensures Destination(s, unit, j) != Destination(s, unit, i) {
        DestinationInjective(s, unit, j, i);
      }
      positions[d] := positions[d] + 1;
      forall b | 0 <= b < 256 ensures positions[b] == |Gather(s, unit, b)| + |Select(s[..i + 1], unit, b)| {
        SelectNext(s, unit, b, i);
      }
    }
    PassPermutes(s, unit);
    forall k | 0 <= k < |s| ensures scratch[k] == Pass(s, unit)[k] {
      var i := DestinationOnto(s, unit, k);
      DestinationInBucket(s, unit, i);
    }
  }

  lemma UnitPositive(unit: nat)
    requires IsUnit(unit)
    ensures unit > 0
  {
  }

  lemma DestinationIs(s: seq<nat>, unit: nat, i: nat)
    requires unit > 0 && i < |s|
    ensures Destination(s, unit, i) == |Gather(s, unit, Digit(s[i], unit))| + |Select(s[..i], unit, Digit(s[i], unit))|
  {
  }

  lemma GatherNothing(s: seq<nat>, unit: nat)
    requires unit > 0
    ensures Gather(s, unit, 0) == []
  {
  }

  lemma GatherNext(s: seq<nat>, unit: nat, d: nat)
    requires unit > 0
    ensures |Gather(s, unit, d + 1)| == |Gather(s, unit, d)| + |Select(s, unit, d)|
  {
  }

  /** How many elements carry each digit. */
  method CountDigits(values: array<nat>, unit: nat) returns (positions: array<nat>)
    requires unit > 0
    ensures fresh(positions) && positions.Length == 256
    ensures forall b | 0 <= b < 256 :: positions[b] == |Select(values[..], unit, b)|
  {
    hide Digit, Select;
    ghost var s := values[..];
    positions := new nat[256](_ => 0);
    forall b: nat ensures Select(s[..0], unit, b) == [] { SelectNothing(unit, b); }
    for i := 0 to values.Length
      invariant forall b | 0 <= b < 256 :: positions[b] == |Select(s[..i], unit, b)|
    {
      var d := Digit(values[i], unit);
      positions[d] := positions[d] + 1;
      forall b | 0 <= b < 256 ensures positions[b] == |Select(s[..i + 1], unit, b)| {
        SelectNext(s, unit, b, i);
      }
    }
    assert s[..|s|] == s;
  }

  /** Turns counts into the start of each bucket, in place. */
  method StartOffsets(ghost s: seq<nat>, positions: array<nat>, unit: nat)
    requires unit > 0 && positions.Length == 256
    requires forall b | 0 <= b < 256 :: positions[b] == |Select(s, unit, b)|
    modifies positions
    ensures forall b | 0 <= b < 256 :: positions[b] == |Gather(s, unit, b)| + |Select(s[..0], unit, b)|
  {
    hide Digit, Select, Gather;
    forall b: nat ensures Select(s[..0], unit, b) == [] { SelectNothing(unit, b); }
    assert |Gather(s, unit, 0)| == 0 by { GatherNothing(s, unit); }
    var offset := 0;
    for d := 0 to 256
      invariant offset == |Gather(s, unit, d)|
      invariant forall b | 0 <= b < d :: positions[b] == |Gather(s, unit, b)|
      invariant forall b | d <= b < 256 :: positions[b] == |Select(s, unit, b)|
    {
      GatherNext(s, unit, d);
      var count := positions[d];
      positions[d] := offset;
      offset := offset + count;
    }
  }

  function Unit(pass: nat): (r: nat)
    requires pass <= 4
    ensures r > 0
  {
    if pass == 0 then 1 else 256 * Unit(pass - 1)
  }

  /** Four passes over two buffers that change roles after each pass. */
  method ReferenceSort(input: seq<nat>) returns (sorted: seq<nat>)
    requires AllWords(input)
    ensures Sorted(sorted) && multiset(sorted) == multiset(input)
  {
    hide Pass;
    var values := new nat[|input|](i requires 0 <= i < |input| => input[i]);
    var scratch := new nat[|input|];
    assert values[..] == input;
    var unit := 1;
    for pass := 0 to 4
      invariant fresh(values) && fresh(scratch) && values != scratch
      invariant values.Length == scratch.Length == |input|
      invariant unit == Unit(pass)
      invariant SortedModulo(values[..], unit)
      invariant multiset(values[..]) == multiset(input)
    {
      ghost var before := values[..];
      UnitIsUnit(pass);
      CountingPass(values, scratch, unit);
      PassSorts(before, unit);
      PassPermutes(before, unit);
      values, scratch := scratch, values;
      unit := unit * 256;
    }
    sorted := values[..];
    UnitIsUnit(3);
    LowWordIsAll(sorted, input);
  }

  lemma UnitIsUnit(pass: nat)
    requires pass < 4
    ensures IsUnit(Unit(pass))
    ensures pass == 3 ==> Unit(4) == U32
  {
    assert Unit(0) == 1 && Unit(1) == 0x100 && Unit(2) == 0x1_0000 && Unit(3) == 0x100_0000;
  }

  lemma LowWordIsAll(sorted: seq<nat>, input: seq<nat>)
    requires AllWords(input) && multiset(sorted) == multiset(input) && SortedModulo(sorted, U32)
    ensures Sorted(sorted)
  {
    forall i | 0 <= i < |sorted| ensures sorted[i] < U32 {
      assert sorted[i] in multiset(input);
    }
  }

  /** The oracle decides exactly: an output is accepted iff it is the sorted permutation of the keys. */
  lemma OracleDecidesSorting(keys: seq<nat>, output: seq<nat>, reference: seq<nat>)
    requires Sorted(reference) && multiset(reference) == multiset(keys)
    ensures output == reference <==> Sorted(output) && multiset(output) == multiset(keys)
  {
    if Sorted(output) && multiset(output) == multiset(keys) {
      SortedIsUnique(output, reference);
    }
  }
}
