/** The CPU benchmark's score: three windows cut out of the measurement, their median, and the peak
    (engine.cpp). Scores are reals. */
module ScoreWindows {
  import opened Common

  const WINDOWS := 3

  // ---------------------------------------------------------------- totals

  /** What one worker has published. */
  datatype Counter = Counter(work: nat, elapsed: nat)

  datatype Totals = Totals(work: nat, elapsed: nat)

  function SumWork(contexts: seq<Counter>): nat {
    if contexts == [] then 0 else SumWork(contexts[..|contexts| - 1]) + contexts[|contexts| - 1].work
  }

  function MaxElapsed(contexts: seq<Counter>): nat {
    if contexts == [] then 0 else Max(MaxElapsed(contexts[..|contexts| - 1]), contexts[|contexts| - 1].elapsed)
  }

  function TotalsOf(contexts: seq<Counter>): Totals {
    Totals(SumWork(contexts) % U64, MaxElapsed(contexts))
  }

  lemma {:induction false} LongestElapsed(contexts: seq<Counter>)
    ensures forall i | 0 <= i < |contexts| :: contexts[i].elapsed <= MaxElapsed(contexts)
    ensures MaxElapsed(contexts) == 0 || exists i | 0 <= i < |contexts| :: contexts[i].elapsed == MaxElapsed(contexts)
  {
    if contexts != [] {
      LongestElapsed(contexts[..|contexts| - 1]);
    }
  }

  method ReadTotals(contexts: seq<Counter>) returns (totals: Totals)
    ensures totals == TotalsOf(contexts) && totals.work == SumWork(contexts) % U64
    ensures forall i | 0 <= i < |contexts| :: contexts[i].elapsed <= totals.elapsed
    ensures totals.elapsed == 0 || exists i | 0 <= i < |contexts| :: contexts[i].elapsed == totals.elapsed
  {
    LongestElapsed(contexts);
    totals := Totals(0, 0);
    for i := 0 to |contexts|
      invariant totals == TotalsOf(contexts[..i])
    {
      assert contexts[..i + 1][..i] == contexts[..i];
      WrapSum(SumWork(contexts[..i]), contexts[i].work);
      totals := Totals((totals.work + contexts[i].work) % U64, Max(totals.elapsed, contexts[i].elapsed));
    }
    assert contexts[..|contexts|] == contexts;
  }

  lemma WrapSum(a: nat, b: nat)
    ensures (a % U64 + b) % U64 == (a + b) % U64
  {
    assert a + b == U64 * (a / U64) + (a % U64 + b);
  }

  /** Workers only ever add work. */
  predicate Grown(a: seq<Counter>, b: seq<Counter>) {
    |a| == |b| && forall i | 0 <= i < |a| :: a[i].work <= b[i].work
  }

  lemma {:induction false} WorkGrows(a: seq<Counter>, b: seq<Counter>)
    requires Grown(a, b)
    ensures SumWork(a) <= SumWork(b)
    decreases |a|
  {
    if a != [] {
      WorkGrows(a[..|a| - 1], b[..|b| - 1]);
    }
  }

  // ---------------------------------------------------------------- windows

  datatype Window = Window(work: nat, elapsed: nat)

  /** One turn of the coordinator's loop: the time since the start, and what the workers had published. */
  datatype Sample = Sample(elapsed: nat, contexts: seq<Counter>)

  /** Where the last window ended, and the windows so far. */
  datatype Cut = Cut(work: nat, elapsed: nat, windows: seq<Window>)

  function Minus(a: nat, b: nat): nat {
    (a - b) % U64
  }

  predicate PastBoundary(elapsed: nat, duration: nat, boundary: nat) {
    elapsed >= duration * boundary / WINDOWS
  }

  function Extend(c: Cut, sample: Sample, duration: nat): Cut {
    var work := TotalsOf(sample.contexts).work;
    var boundary := |c.windows| + 1;
    if boundary < WINDOWS && PastBoundary(sample.elapsed, duration, boundary) then
      Cut(work, sample.elapsed, c.windows + [Window(Minus(work, c.work), Minus(sample.elapsed, c.elapsed))])
    else c
  }

  function Cutting(samples: seq<Sample>, duration: nat): Cut {
    if samples == [] then Cut(0, 0, [])
    else Extend(Cutting(samples[..|samples| - 1], duration), samples[|samples| - 1], duration)
  }

  predicate FinalCounts(c: Cut, final: Totals) {
    final.elapsed > c.elapsed && final.work >= c.work
  }

  /** All windows of a run, the last one up to the workers' own end. */
  function WindowsOf(c: Cut, final: Totals): seq<Window> {
    if FinalCounts(c, final) then c.windows + [Window(final.work - c.work, final.elapsed - c.elapsed)] else c.windows
  }

  /** Readings of one run: the clock and the counters never go back, and the sum stays in 64 bits. */
  predicate Observed(samples: seq<Sample>, final: seq<Counter>) {
    && SumWork(final) < U64
    && (forall i | 0 <= i < |samples| :: samples[i].elapsed < U64)
    && (forall i, j | 0 <= i < j < |samples| :: samples[i].elapsed <= samples[j].elapsed)
    && (forall i, j | 0 <= i < j < |samples| :: Grown(samples[i].contexts, samples[j].contexts))
    && (forall i | 0 <= i < |samples| :: Grown(samples[i].contexts, final))
  }

  lemma ObservedPrefix(samples: seq<Sample>, final: seq<Counter>)
    requires Observed(samples, final) && samples != []
    ensures Observed(samples[..|samples| - 1], samples[|samples| - 1].contexts)
    ensures Observed(samples[..|samples| - 1], final)
  {
    WorkGrows(samples[|samples| - 1].contexts, final);
  }

  function Works(windows: seq<Window>): nat {
    if windows == [] then 0 else Works(windows[..|windows| - 1]) + windows[|windows| - 1].work
  }

  function Lengths(windows: seq<Window>): nat {
    if windows == [] then 0 else Lengths(windows[..|windows| - 1]) + windows[|windows| - 1].elapsed
  }

  lemma SumsSnoc(windows: seq<Window>, w: Window)
    ensures Works(windows + [w]) == Works(windows) + w.work
    ensures Lengths(windows + [w]) == Lengths(windows) + w.elapsed
  {
    assert (windows + [w])[..|windows|] == windows;
  }

  /** Where cutting stands: the windows sum up to the last cut, which no later reading undercuts. */
  predicate Telescoped(c: Cut, samples: seq<Sample>, final: seq<Counter>) {
    && Works(c.windows) == c.work && Lengths(c.windows) == c.elapsed && |c.windows| < WINDOWS
    && c.work <= SumWork(final)
    && (if samples == [] then c.elapsed == 0 else c.elapsed <= samples[|samples| - 1].elapsed)
  }

  lemma {:induction false} Telescope(samples: seq<Sample>, duration: nat, final: seq<Counter>)
    requires Observed(samples, final)
    ensures Telescoped(Cutting(samples, duration), samples, final)
    decreases |samples|
  {
    hide Observed;
    if samples != [] {
      var before, sample := samples[..|samples| - 1], samples[|samples| - 1];
      ObservedPrefix(samples, final);
      LastSample(samples, final);
      Telescope(before, duration, sample.contexts);
      ExtendTelescopes(Cutting(before, duration), sample, duration, final);
    }
  }

  lemma LastSample(samples: seq<Sample>, final: seq<Counter>)
    requires Observed(samples, final) && samples != []
    ensures samples[|samples| - 1].elapsed < U64 && Grown(samples[|samples| - 1].contexts, final) && SumWork(final) < U64
    ensures |samples| > 1 ==> samples[..|samples| - 1][|samples| - 2].elapsed <= samples[|samples| - 1].elapsed
  {
  }

  lemma ExtendTelescopes(c: Cut, sample: Sample, duration: nat, final: seq<Counter>)
    requires Works(c.windows) == c.work && Lengths(c.windows) == c.elapsed && |c.windows| < WINDOWS
    requires c.work <= SumWork(sample.contexts) && c.elapsed <= sample.elapsed < U64
    requires Grown(sample.contexts, final) && SumWork(final) < U64
    ensures Telescoped(Extend(c, sample, duration), [sample], final)
  {
    WorkGrows(sample.contexts, final);
    hide Works, Lengths, SumWork, PastBoundary, Minus;
    var work := SumWork(sample.contexts);
    assert TotalsOf(sample.contexts).work == work;
    MinusPlain(work, c.work);
    MinusPlain(sample.elapsed, c.elapsed);
    SumsSnoc(c.windows, Window(work - c.work, sample.elapsed - c.elapsed));
  }

  lemma MinusPlain(a: nat, b: nat)
    requires b <= a < U64
    ensures Minus(a, b) == a - b
  {
  }

  /** The windows of a run whose final window counts add up to exactly the run's totals. */
  lemma WindowsAddUp(samples: seq<Sample>, duration: nat, final: seq<Counter>)
    requires Observed(samples, final)
    ensures FinalCounts(Cutting(samples, duration), TotalsOf(final)) <==>
            MaxElapsed(final) > Cutting(samples, duration).elapsed
    ensures var windows := WindowsOf(Cutting(samples, duration), TotalsOf(final));
      FinalCounts(Cutting(samples, duration), TotalsOf(final)) ==>
        Works(windows) == SumWork(final) && Lengths(windows) == MaxElapsed(final)
  {
    Telescope(samples, duration, final);
    PlainTotals(samples, final);
    hide Cutting, Observed, TotalsOf;
    var c, t := Cutting(samples, duration), TotalsOf(final);
    if FinalCounts(c, t) {
      SumsSnoc(c.windows, Window(t.work - c.work, t.elapsed - c.elapsed));
    }
  }

  /** Two samples in a row, past a third and past two thirds of the requested time. */
  predicate TwoCuts(samples: seq<Sample>, duration: nat) {
    exists i, j | 0 <= i < j < |samples| ::
      PastBoundary(samples[i].elapsed, duration, 1) && PastBoundary(samples[j].elapsed, duration, 2)
  }

  predicate OneCut(samples: seq<Sample>, duration: nat) {
    exists i | 0 <= i < |samples| :: PastBoundary(samples[i].elapsed, duration, 1)
  }

  lemma OneCutSnoc(samples: seq<Sample>, duration: nat)
    requires samples != []
    ensures OneCut(samples, duration) <==>
      OneCut(samples[..|samples| - 1], duration) || PastBoundary(samples[|samples| - 1].elapsed, duration, 1)
  {
    hide PastBoundary;
    var before := samples[..|samples| - 1];
    if OneCut(before, duration) {
      var i :| 0 <= i < |before| && PastBoundary(before[i].elapsed, duration, 1);
      assert samples[i] == before[i];
    }
    if OneCut(samples, duration) {
      var i :| 0 <= i < |samples| && PastBoundary(samples[i].elapsed, duration, 1);
      assert i < |before| ==> before[i] == samples[i];
    }
  }

  lemma TwoCutsSnoc(samples: seq<Sample>, duration: nat)
    requires samples != []
    ensures TwoCuts(samples, duration) <==>
      TwoCuts(samples[..|samples| - 1], duration) ||
      (OneCut(samples[..|samples| - 1], duration) && PastBoundary(samples[|samples| - 1].elapsed, duration, 2))
  {
    hide PastBoundary;
    var before := samples[..|samples| - 1];
    if TwoCuts(before, duration) {
      var i, j :| 0 <= i < j < |before|
        && PastBoundary(before[i].elapsed, duration, 1) && PastBoundary(before[j].elapsed, duration, 2);
      assert samples[i] == before[i] && samples[j] == before[j];
    }
    if OneCut(before, duration) && PastBoundary(samples[|samples| - 1].elapsed, duration, 2) {
      var i :| 0 <= i < |before| && PastBoundary(before[i].elapsed, duration, 1);
      assert samples[i] == before[i];
    }
    if TwoCuts(samples, duration) {
      var i, j :| 0 <= i < j < |samples|
        && PastBoundary(samples[i].elapsed, duration, 1) && PastBoundary(samples[j].elapsed, duration, 2);
      assert before[i] == samples[i] && (j < |before| ==> before[j] == samples[j]);
    }
  }

  /** How many windows the loop cuts, in terms of the samples alone. */
  lemma {:induction false} CutsExactly(samples: seq<Sample>, duration: nat)
    ensures |Cutting(samples, duration).windows| ==
      if TwoCuts(samples, duration) then 2 else if OneCut(samples, duration) then 1 else 0
    decreases |samples|
  {
    hide PastBoundary, TwoCuts, OneCut;
    if samples == [] {
      NoCuts(samples, duration);
    } else {
      CutsExactly(samples[..|samples| - 1], duration);
      OneCutSnoc(samples, duration);
      TwoCutsSnoc(samples, duration);
    }
  }

  lemma NoCuts(samples: seq<Sample>, duration: nat)
    requires samples == []
    ensures !TwoCuts(samples, duration) && !OneCut(samples, duration)
  {
  }

  /** The first sample from a place on that is not before a time, or the end of the samples. */
  predicate IsFirst(samples: seq<Sample>, from: nat, time: nat, i: nat) {
    && from <= i <= |samples| && (forall k | from <= k < i :: samples[k].elapsed < time)
    && (i < |samples| ==> samples[i].elapsed >= time)
  }

  function WorkAt(samples: seq<Sample>, i: nat): nat
    requires i < |samples|
  {
    SumWork(samples[i].contexts)
  }

  /** What has been cut, when the first two cuts fall on samples i and j. */
  predicate CutAt(samples: seq<Sample>, c: Cut, i: nat, j: nat)
    requires i <= |samples| && j <= |samples|
  {
    if i == |samples| then c == Cut(0, 0, [])
    else
      var first := Window(WorkAt(samples, i), samples[i].elapsed);
      if j == |samples| then c == Cut(first.work, first.elapsed, [first])
      else
        && WorkAt(samples, j) >= first.work && samples[j].elapsed >= first.elapsed
        && c == Cut(WorkAt(samples, j), samples[j].elapsed,
                    [first, Window(WorkAt(samples, j) - first.work, samples[j].elapsed - first.elapsed)])
  }

  /** The loop cuts at the first sample from a third of the requested time on, and at the first one after that from
      two thirds on. */
  lemma {:induction false} CutsAt(samples: seq<Sample>, duration: nat, final: seq<Counter>) returns (i: nat, j: nat)
    requires Observed(samples, final)
    ensures IsFirst(samples, 0, duration / 3, i)
    ensures IsFirst(samples, if i < |samples| then i + 1 else i, 2 * duration / 3, j)
    ensures CutAt(samples, Cutting(samples, duration), i, j)
    decreases |samples|
  {
    if samples == [] {
      i, j := 0, 0;
    } else {
      var before, last := samples[..|samples| - 1], |samples| - 1;
      ObservedPrefix(samples, final);
      i, j := CutsAt(before, duration, samples[last].contexts);
      PlainSample(samples, final, last);
      CuttingNext(samples, duration);
      Boundaries(samples[last].elapsed, duration);
      if i < last {
        WorkGrows(samples[i].contexts, samples[last].contexts);
        LaterSample(samples, final, i);
      }
      hide Cutting, Observed, PastBoundary, IsFirst, CutAt, Extend;
      NextFirst(samples, 0, duration / 3, i);
      if i == last {
        FirstOfNone(before, 2 * duration / 3, j);
        FirstIsLast(before, i);
        FirstCut(samples, duration, Cutting(before, duration));
        i := if samples[last].elapsed >= duration / 3 then last else last + 1;
        j := last + 1;
        NoneLeft(samples, 2 * duration / 3);
      } else {
        NextFirst(samples, i + 1, 2 * duration / 3, j);
        SecondCut(samples, duration, Cutting(before, duration), i, j);
        if j == last {
          j := if samples[last].elapsed >= 2 * duration / 3 then last else last + 1;
        }
      }
    }
  }

  lemma NextFirst(samples: seq<Sample>, from: nat, time: nat, i: nat)
    requires samples != [] && IsFirst(samples[..|samples| - 1], from, time, i)
    ensures IsFirst(samples, from, time, if i == |samples| - 1 && samples[i].elapsed < time then |samples| else i)
  {
    assert forall k | 0 <= k < |samples| - 1 :: samples[..|samples| - 1][k] == samples[k];
  }

  lemma FirstOfNone(samples: seq<Sample>, time: nat, j: nat)
    requires IsFirst(samples, |samples|, time, j)
    ensures j == |samples|
  {
  }

  lemma FirstIsLast(samples: seq<Sample>, i: nat)
    requires i == |samples| && i <= |samples|
    ensures forall c, j: nat | j <= |samples| && CutAt(samples, c, i, j) :: c == Cut(0, 0, [])
  {
  }

  lemma NoneLeft(samples: seq<Sample>, time: nat)
    ensures IsFirst(samples, |samples|, time, |samples|)
  {
  }

  lemma LaterSample(samples: seq<Sample>, final: seq<Counter>, i: nat)
    requires Observed(samples, final) && i < |samples| - 1
    ensures samples[i].elapsed <= samples[|samples| - 1].elapsed
  {
  }

  lemma Boundaries(elapsed: nat, duration: nat)
    ensures PastBoundary(elapsed, duration, 1) <==> elapsed >= duration / 3
    ensures PastBoundary(elapsed, duration, 2) <==> elapsed >= 2 * duration / 3
  {
  }

  predicate PlainLast(samples: seq<Sample>)
    requires samples != []
  {
    var last := |samples| - 1;
    && TotalsOf(samples[last].contexts).work == WorkAt(samples, last) < U64 && samples[last].elapsed < U64
  }

  lemma FirstCut(samples: seq<Sample>, duration: nat, c: Cut)
    requires samples != [] && PlainLast(samples) && c == Cut(0, 0, [])
    requires PastBoundary(samples[|samples| - 1].elapsed, duration, 1) <==> samples[|samples| - 1].elapsed >= duration / 3
    ensures CutAt(samples, Extend(c, samples[|samples| - 1], duration),
                  if samples[|samples| - 1].elapsed >= duration / 3 then |samples| - 1 else |samples|, |samples|)
  {
    hide PastBoundary, WorkAt, TotalsOf;
    MinusPlain(WorkAt(samples, |samples| - 1), 0);
    MinusPlain(samples[|samples| - 1].elapsed, 0);
  }

  lemma SecondCut(samples: seq<Sample>, duration: nat, c: Cut, i: nat, j: nat)
    requires samples != [] && PlainLast(samples) && i < |samples| - 1 && j <= |samples| - 1
    requires CutAt(samples[..|samples| - 1], c, i, j)
    requires WorkAt(samples, i) <= WorkAt(samples, |samples| - 1) && samples[i].elapsed <= samples[|samples| - 1].elapsed
    requires PastBoundary(samples[|samples| - 1].elapsed, duration, 2) <==> samples[|samples| - 1].elapsed >= 2 * duration / 3
    ensures CutAt(samples, Extend(c, samples[|samples| - 1], duration), i,
                  if j == |samples| - 1 && samples[|samples| - 1].elapsed < 2 * duration / 3 then |samples| else j)
  {
    hide PastBoundary, TotalsOf, SumWork;
    MinusPlain(WorkAt(samples, |samples| - 1), WorkAt(samples, i));
    MinusPlain(samples[|samples| - 1].elapsed, samples[i].elapsed);
  }

  lemma CuttingNext(samples: seq<Sample>, duration: nat)
    requires samples != []
    ensures Cutting(samples, duration)
      == Extend(Cutting(samples[..|samples| - 1], duration), samples[|samples| - 1], duration)
  {
  }

  lemma PlainSample(samples: seq<Sample>, final: seq<Counter>, i: nat)
    requires Observed(samples, final) && i < |samples|
    ensures TotalsOf(samples[i].contexts).work == WorkAt(samples, i) < U64 && samples[i].elapsed < U64
  {
    WorkGrows(samples[i].contexts, final);
  }

  /** The stretch of a run from one reading to another. */
  function Stretch(work0: nat, elapsed0: nat, work1: nat, elapsed1: nat): Window
    requires work0 <= work1 && elapsed0 <= elapsed1
  {
    Window(work1 - work0, elapsed1 - elapsed0)
  }

  /** All windows of a run from its readings: from the start to the first sample past a third of the time, on to the
      first one after it past two thirds, and on to the end, which makes a window if it is later than the last cut. */
  lemma WindowsExactly(samples: seq<Sample>, duration: nat, final: seq<Counter>) returns (i: nat, j: nat)
    requires Observed(samples, final)
    ensures IsFirst(samples, 0, duration / 3, i)
    ensures IsFirst(samples, if i < |samples| then i + 1 else i, 2 * duration / 3, j)
    ensures
      var windows, end, work := WindowsOf(Cutting(samples, duration), TotalsOf(final)), MaxElapsed(final), SumWork(final);
      if i == |samples| then
        windows == if end > 0 then [Stretch(0, 0, work, end)] else []
      else
        var work1, end1 := SumWork(samples[i].contexts), samples[i].elapsed;
        work1 <= work && windows[..1] == [Stretch(0, 0, work1, end1)] &&
        if j == |samples| then
          windows[1..] == if end > end1 then [Stretch(work1, end1, work, end)] else []
        else
          var work2, end2 := SumWork(samples[j].contexts), samples[j].elapsed;
          && work1 <= work2 <= work && end1 <= end2
          && windows[1..] == [Stretch(work1, end1, work2, end2)] + if end > end2 then [Stretch(work2, end2, work, end)] else []
  {
    i, j := CutsAt(samples, duration, final);
    WindowsAddUp(samples, duration, final);
    PlainTotals(samples, final);
    if i < |samples| {
      WorkGrows(samples[i].contexts, final);
    }
    if j < |samples| {
      WorkGrows(samples[j].contexts, final);
    }
    hide Cutting, Observed, SumWork, MaxElapsed, IsFirst, FinalCounts;
    LastWindow(Cutting(samples, duration), TotalsOf(final));
    hide WindowsOf, TotalsOf;
    CutWindows(samples, Cutting(samples, duration), i, j);
    hide CutAt;
  }

  /** The windows before the last one. */
  lemma CutWindows(samples: seq<Sample>, c: Cut, i: nat, j: nat)
    requires i <= |samples| && j <= |samples| && CutAt(samples, c, i, j)
    ensures i == |samples| ==> c == Cut(0, 0, [])
    ensures i < |samples| && j == |samples| ==>
      c == Cut(SumWork(samples[i].contexts), samples[i].elapsed, [Stretch(0, 0, SumWork(samples[i].contexts), samples[i].elapsed)])
    ensures i < |samples| && j < |samples| ==>
      var work1, end1, work2, end2 := SumWork(samples[i].contexts), samples[i].elapsed, SumWork(samples[j].contexts), samples[j].elapsed;
      && work1 <= work2 && end1 <= end2
      && c == Cut(work2, end2, [Stretch(0, 0, work1, end1), Stretch(work1, end1, work2, end2)])
  {
    hide SumWork;
  }

  lemma LastWindow(c: Cut, final: Totals)
    requires FinalCounts(c, final) <==> final.elapsed > c.elapsed
    requires c.work <= final.work
    ensures WindowsOf(c, final) ==
      c.windows + if final.elapsed > c.elapsed then [Stretch(c.work, c.elapsed, final.work, final.elapsed)] else []
  {
  }

  // ---------------------------------------------------------------- scores

  /** Thousands of work units a second. */
  function ScoreFrom(work: nat, elapsed: nat): real {
    if elapsed == 0 then 0.0 else work as real / (elapsed as real / 1000000000.0) / 1000.0
  }

  /** A score compares with a rate the way its work compares with rate times time. */
  lemma ScoreCompares(work: nat, elapsed: nat, rate: real)
    requires elapsed > 0
    ensures ScoreFrom(work, elapsed) >= rate <==> work as real * 1000000.0 >= rate * elapsed as real
    ensures ScoreFrom(work, elapsed) <= rate <==> work as real * 1000000.0 <= rate * elapsed as real
  {
    var w, e, score := work as real, elapsed as real, ScoreFrom(work, elapsed);
    assert e > 0.0;
    ScoreTimesTime(w, e);
    ScaleOrder(score, rate, e);
  }

  lemma ScoreTimesTime(w: real, e: real)
    requires e > 0.0
    ensures w / (e / 1000000000.0) / 1000.0 * e == w * 1000000.0
  {
    var s := e / 1000000000.0;
    assert e == s * 1000000000.0;
    assert w / s * s == w;
    assert w / s / 1000.0 * (s * 1000000000.0) == w / s * s * 1000000.0;
  }

  lemma ScaleOrder(a: real, b: real, e: real)
    requires e > 0.0
    ensures a >= b <==> a * e >= b * e
    ensures a <= b <==> a * e <= b * e
  {
    assert a * e - b * e == (a - b) * e;
  }

  function Scores(windows: seq<Window>): seq<real> {
    seq(|windows|, i requires 0 <= i < |windows| => ScoreFrom(windows[i].work, windows[i].elapsed))
  }

  /** No window has done work in no time. */
  predicate AllTimed(windows: seq<Window>) {
    forall i | 0 <= i < |windows| :: windows[i].elapsed == 0 ==> windows[i].work == 0
  }

  lemma {:induction false} RatesBound(windows: seq<Window>, low: real, high: real)
    requires AllTimed(windows)
    requires forall i | 0 <= i < |windows| :: low <= ScoreFrom(windows[i].work, windows[i].elapsed) <= high
    ensures low * Lengths(windows) as real <= Works(windows) as real * 1000000.0 <= high * Lengths(windows) as real
    decreases |windows|
  {
    hide ScoreFrom;
    if windows != [] {
      var before, last := windows[..|windows| - 1], windows[|windows| - 1];
      RatesBound(before, low, high);
      hide Works, Lengths;
      RatesStep(Works(before), Lengths(before), last, low, high);
    }
  }

  lemma RatesStep(work: nat, elapsed: nat, last: Window, low: real, high: real)
    requires low * elapsed as real <= work as real * 1000000.0 <= high * elapsed as real
    requires (last.elapsed == 0 ==> last.work == 0) && low <= ScoreFrom(last.work, last.elapsed) <= high
    ensures low * (elapsed + last.elapsed) as real <= (work + last.work) as real * 1000000.0
    ensures (work + last.work) as real * 1000000.0 <= high * (elapsed + last.elapsed) as real
  {
    hide ScoreFrom;
    if last.elapsed > 0 {
      ScoreCompares(last.work, last.elapsed, low);
      ScoreCompares(last.work, last.elapsed, high);
    }
    Split(low, elapsed, last.elapsed);
    Split(high, elapsed, last.elapsed);
    assert (work + last.work) as real == work as real + last.work as real;
  }

  lemma Split(rate: real, a: nat, b: nat)
    ensures rate * (a + b) as real == rate * a as real + rate * b as real
  {
    assert (a + b) as real == a as real + b as real;
  }

  /** Whole-run throughput lies between any bounds on the window scores, in particular between the smallest
      and the largest of them. */
  lemma ThroughputBetweenWindows(samples: seq<Sample>, duration: nat, final: seq<Counter>, low: real, high: real)
    requires Observed(samples, final) && FinalCounts(Cutting(samples, duration), TotalsOf(final))
    requires AllTimed(WindowsOf(Cutting(samples, duration), TotalsOf(final)))
    requires forall score | score in Scores(WindowsOf(Cutting(samples, duration), TotalsOf(final))) :: low <= score <= high
    ensures low <= ScoreFrom(SumWork(final), MaxElapsed(final)) <= high
  {
    WindowsAddUp(samples, duration, final);
    hide Cutting, ScoreFrom, SumWork, MaxElapsed, Observed, Works, Lengths, Scores;
    RateBetween(WindowsOf(Cutting(samples, duration), TotalsOf(final)), low, high);
  }

  /** Work done in no time scores nothing, so with it the throughput can exceed every window's score. */
  lemma TimelessWorkIsLost()
    ensures var windows := [Window(0, 1), Window(5, 0)];
      Scores(windows) == [0.0, 0.0] && ScoreFrom(Works(windows), Lengths(windows)) > 0.0
  {
    var windows := [Window(0, 1), Window(5, 0)];
    SumsSnoc([], Window(0, 1));
    SumsSnoc([Window(0, 1)], Window(5, 0));
    assert [] + [Window(0, 1)] == [Window(0, 1)] && [Window(0, 1)] + [Window(5, 0)] == windows;
    assert Works(windows) == 5 && Lengths(windows) == 1;
  }

  /** The rate over all windows together lies between bounds on their own rates. */
  lemma RateBetween(windows: seq<Window>, low: real, high: real)
    requires AllTimed(windows) && Lengths(windows) > 0
    requires forall score | score in Scores(windows) :: low <= score <= high
    ensures low <= ScoreFrom(Works(windows), Lengths(windows)) <= high
  {
    hide ScoreFrom, Works, Lengths, AllTimed;
    forall i | 0 <= i < |windows| ensures low <= ScoreFrom(windows[i].work, windows[i].elapsed) <= high {
      assert Scores(windows)[i] in Scores(windows);
    }
    RatesBound(windows, low, high);
    ScoreCompares(Works(windows), Lengths(windows), low);
    ScoreCompares(Works(windows), Lengths(windows), high);
  }

  // ---------------------------------------------------------------- what is published

  datatype Published = Published(elapsed: nat, work: nat, score: real, variation: real, peak: real)

  predicate Sorted(s: seq<real>) {
    forall i, j | 0 <= i < j < |s| :: s[i] <= s[j]
  }

  /** peak is the largest of the values, or zero. */
  predicate IsPeak(peak: real, values: seq<real>) {
    (peak == 0.0 || peak in values) && peak >= 0.0 && forall v | v in values :: v <= peak
  }

  /** std::sort on the few window scores. */
  method Sort(values: seq<real>) returns (r: seq<real>)
    ensures Sorted(r) && multiset(r) == multiset(values) && |r| == |values|
  {
    r := [];
    for i := 0 to |values|
      invariant Sorted(r) && multiset(r) == multiset(values[..i]) && |r| == i
    {
      assert values[..i + 1] == values[..i] + [values[i]];
      r := Insert(r, values[i]);
    }
    assert values[..|values|] == values;
  }

  lemma InsertedSorted(s: seq<real>, at: nat, v: real)
    requires Sorted(s) && at <= |s|
    requires (forall i | 0 <= i < at :: s[i] <= v) && (at < |s| ==> v < s[at])
    ensures Sorted(s[..at] + [v] + s[at..])
  {
    var r := s[..at] + [v] + s[at..];
    forall i, j | 0 <= i < j < |r| ensures r[i] <= r[j] {
      assert r[i] == if i < at then s[i] else if i == at then v else s[i - 1];
      assert r[j] == if j < at then s[j] else if j == at then v else s[j - 1];
    }
  }

  method Insert(s: seq<real>, v: real) returns (r: seq<real>)
    requires Sorted(s)
    ensures Sorted(r) && multiset(r) == multiset(s) + multiset{v} && |r| == |s| + 1
  {
    hide Sorted;
    var at := 0;
    while at < |s| && s[at] <= v
      invariant at <= |s| && forall i | 0 <= i < at :: s[i] <= v
    {
      at := at + 1;
    }
    InsertedSorted(s, at, v);
    r := s[..at] + [v] + s[at..];
    assert s == s[..at] + s[at..];
  }

  lemma PeakGrows(peak: real, values: seq<real>, v: real)
    requires IsPeak(peak, values)
    ensures IsPeak(if peak >= v then peak else v, values + [v])
  {
    forall w | w in values + [v] ensures w in values || w == v {
    }
    assert (values + [v])[|values|] == v;
    assert forall w | w in values :: w in values + [v];
  }

  function MaxReal(a: real, b: real): real {
    if a >= b then a else b
  }

  /** The run's own windows, and for a cancelled or short run the whole run as one more value. */
  ghost function PeakValues(c: Cut, final: Totals, stopped: bool): seq<real> {
    var scores := Scores(WindowsOf(c, final));
    if stopped || |scores| < WINDOWS then scores + [ScoreFrom(final.work, final.elapsed)] else scores
  }

  /** What a run publishes at its end, given its windows. */
  ghost predicate Publishes(c: Cut, final: Totals, stopped: bool, p: Published) {
    var scores := Scores(WindowsOf(c, final));
    && p.elapsed == final.elapsed && p.work == final.work
    && IsPeak(p.peak, PeakValues(c, final, stopped))
    && if stopped || |scores| < WINDOWS then p.score == ScoreFrom(final.work, final.elapsed) && p.variation == 0.0
       else IsMedian(scores, p)
  }

  /** The score is the middle one of the sorted window scores, the variation their spread around it. */
  ghost predicate IsMedian(scores: seq<real>, p: Published) {
    exists s: seq<real> | Sorted(s) && multiset(s) == multiset(scores) && |s| == |scores| > 0 :: MiddleOf(s, p)
  }

  predicate MiddleOf(s: seq<real>, p: Published)
    requires |s| > 0
  {
    p.score == s[|s| / 2] && p.variation == if p.score > 0.0 then (s[|s| - 1] - s[0]) / p.score else 0.0
  }

  lemma ScoresSnoc(windows: seq<Window>, w: Window)
    ensures Scores(windows + [w]) == Scores(windows) + [ScoreFrom(w.work, w.elapsed)]
  {
  }

  /** The measuring loop and the finalisation of Impl::Run. */
  method Measure(samples: seq<Sample>, duration: nat, final: seq<Counter>, stopped: bool) returns (p: Published)
    ensures Publishes(Cutting(samples, duration), TotalsOf(final), stopped, p)
  {
    hide ScoreFrom, IsPeak, TotalsOf, Minus;
    var boundary := 1;
    var previousWork, previousElapsed := 0, 0;
    var scores: seq<real> := [];
    var peak := 0.0;
    assert IsPeak(peak, scores) by { NoPeak(); }
    assert samples[..0] == [];
    for i := 0 to |samples|
      invariant Cutting(samples[..i], duration).work == previousWork
      invariant Cutting(samples[..i], duration).elapsed == previousElapsed
      invariant Scores(Cutting(samples[..i], duration).windows) == scores
      invariant |scores| == boundary - 1 && IsPeak(peak, scores)
    {
      assert samples[..i + 1][..i] == samples[..i];
      var live := samples[i].elapsed;
      var totals := ReadTotals(samples[i].contexts);
      if boundary < WINDOWS && live >= duration * boundary / WINDOWS {
        var work, elapsed := Minus(totals.work, previousWork), Minus(live, previousElapsed);
        ScoresSnoc(Cutting(samples[..i], duration).windows, Window(work, elapsed));
        var score := ScoreFrom(work, elapsed);
        PeakGrows(peak, scores, score);
        scores := scores + [score];
        peak := MaxReal(peak, score);
        previousWork, previousElapsed := totals.work, live;
        boundary := boundary + 1;
      }
    }
    assert samples[..|samples|] == samples;
    var totals := ReadTotals(final);
    p := Finalize(Cutting(samples, duration), previousWork, previousElapsed, scores, peak, totals, stopped);
  }

  lemma NoPeak()
    ensures IsPeak(0.0, [])
  {
  }

  method Finalize(ghost c: Cut, previousWork: nat, previousElapsed: nat, scores0: seq<real>, peak0: real,
                  totals: Totals, stopped: bool)
    returns (p: Published)
    requires c.work == previousWork && c.elapsed == previousElapsed && Scores(c.windows) == scores0 && IsPeak(peak0, scores0)
    ensures Publishes(c, totals, stopped, p)
  {
    hide ScoreFrom, IsPeak;
    var scores, peak := scores0, peak0;
    if totals.elapsed > previousElapsed && totals.work >= previousWork {
      var score := ScoreFrom(totals.work - previousWork, totals.elapsed - previousElapsed);
      ScoresSnoc(c.windows, Window(totals.work - previousWork, totals.elapsed - previousElapsed));
      PeakGrows(peak, scores, score);
      scores := scores + [score];
      peak := MaxReal(peak, score);
    }
    assert Scores(WindowsOf(c, totals)) == scores;
    var whole := ScoreFrom(totals.work, totals.elapsed);
    PeakGrows(peak, scores, whole);
    if stopped {
      peak := MaxReal(peak, whole);
      return Published(totals.elapsed, totals.work, whole, 0.0, peak);
    }
    var score, variation := whole, 0.0;
    if |scores| >= WINDOWS {
      var sorted := Sort(scores);
      score := sorted[|sorted| / 2];
      if score > 0.0 {
        variation := (sorted[|sorted| - 1] - sorted[0]) / score;
      }
      p := Published(totals.elapsed, totals.work, score, variation, peak);
      assert MiddleOf(sorted, p);
    } else {
      peak := MaxReal(peak, score);
      p := Published(totals.elapsed, totals.work, score, variation, peak);
    }
  }

  lemma InPermutation(s: seq<real>, t: seq<real>, i: nat)
    requires multiset(s) == multiset(t) && i < |s|
    ensures s[i] in t
  {
    assert s[i] in multiset(s);
  }

  /** Whatever the run was like, and whether it completed or was cancelled: the peak is not below the score. */
  lemma PeakNotBelowScore(c: Cut, final: Totals, stopped: bool, p: Published)
    requires Publishes(c, final, stopped, p)
    ensures p.peak >= p.score
  {
    hide ScoreFrom;
    var scores := Scores(WindowsOf(c, final));
    if stopped || |scores| < WINDOWS {
      assert PeakValues(c, final, stopped)[|scores|] == p.score;
      assert p.score in PeakValues(c, final, stopped);
    } else {
      MedianIsAScore(scores, p);
    }
  }

  /** Only a completed run whose samples allow two cuts, and whose workers end after the second of them, is
      scored by the median; the median then lies between the smallest and largest of its three windows. */
  lemma MedianExactly(samples: seq<Sample>, duration: nat, final: seq<Counter>)
    requires Observed(samples, final)
    ensures |Scores(WindowsOf(Cutting(samples, duration), TotalsOf(final)))| == WINDOWS <==>
      TwoCuts(samples, duration) && MaxElapsed(final) > Cutting(samples, duration).elapsed
  {
    CutsExactly(samples, duration);
    WindowsAddUp(samples, duration, final);
    hide TwoCuts, Cutting;
  }

  /** A completed three-window run is scored within the spread of its windows, as its throughput is. */
  lemma ScoreAndThroughputAgree(
    samples: seq<Sample>, duration: nat, final: seq<Counter>, p: Published, low: real, high: real)
    requires Observed(samples, final) && Publishes(Cutting(samples, duration), TotalsOf(final), false, p)
    requires TwoCuts(samples, duration) && MaxElapsed(final) > Cutting(samples, duration).elapsed
    requires AllTimed(WindowsOf(Cutting(samples, duration), TotalsOf(final)))
    requires forall score | score in Scores(WindowsOf(Cutting(samples, duration), TotalsOf(final))) :: low <= score <= high
    ensures low <= p.score <= high && low <= ScoreFrom(p.work, p.elapsed) <= high
  {
    PlainTotals(samples, final);
    MedianExactly(samples, duration, final);
    WindowsAddUp(samples, duration, final);
    hide FinalCounts, TotalsOf, TwoCuts, Cutting, ScoreFrom, SumWork, MaxElapsed, Observed;
    hide AllTimed, WindowsOf, Scores, Publishes;
    ThroughputBetweenWindows(samples, duration, final, low, high);
    PublishedMedian(Cutting(samples, duration), TotalsOf(final), p);
  }

  lemma SortedThree(s: seq<real>, scores: seq<real>)
    requires Sorted(s) && |s| == 3 && multiset(s) == multiset(scores)
    ensures multiset(scores) == multiset{s[0], s[1], s[2]} && s[0] <= s[1] <= s[2]
  {
    assert s == [s[0], s[1], s[2]];
  }

  /** A completed run of three windows scores the middle one, and its variation is the spread of the other two
      relative to it. */
  lemma ScoreIsMedian(samples: seq<Sample>, duration: nat, final: seq<Counter>, p: Published) returns (low: real, high: real)
    requires Observed(samples, final) && Publishes(Cutting(samples, duration), TotalsOf(final), false, p)
    requires TwoCuts(samples, duration) && MaxElapsed(final) > Cutting(samples, duration).elapsed
    ensures multiset(Scores(WindowsOf(Cutting(samples, duration), TotalsOf(final)))) == multiset{low, p.score, high}
    ensures low <= p.score <= high
    ensures if p.score > 0.0 then p.variation * p.score == high - low else p.variation == 0.0
  {
    MedianExactly(samples, duration, final);
    hide Cutting, ScoreFrom, Observed, WindowsOf, TwoCuts, TotalsOf;
    var scores := Scores(WindowsOf(Cutting(samples, duration), TotalsOf(final)));
    low, high := MiddleOfThree(scores, p);
  }

  lemma MiddleOfThree(scores: seq<real>, p: Published) returns (low: real, high: real)
    requires IsMedian(scores, p) && |scores| == 3
    ensures multiset(scores) == multiset{low, p.score, high} && low <= p.score <= high
    ensures if p.score > 0.0 then p.variation * p.score == high - low else p.variation == 0.0
  {
    hide MiddleOf, Sorted;
    var s: seq<real> :| Sorted(s) && multiset(s) == multiset(scores) && |s| == |scores| > 0 && MiddleOf(s, p);
    SortedThree(s, scores);
    SpreadOfThree(s, p);
    low, high := s[0], s[2];
  }

  lemma SpreadOfThree(s: seq<real>, p: Published)
    requires |s| == 3 && MiddleOf(s, p)
    ensures p.score == s[1]
    ensures if p.score > 0.0 then p.variation * p.score == s[2] - s[0] else p.variation == 0.0
  {
    if p.score > 0.0 {
      TimesQuotient(s[2] - s[0], p.score);
    }
  }

  lemma TimesQuotient(a: real, b: real)
    requires b > 0.0
    ensures a / b * b == a
  {
  }

  lemma PlainTotals(samples: seq<Sample>, final: seq<Counter>)
    requires Observed(samples, final)
    ensures TotalsOf(final) == Totals(SumWork(final), MaxElapsed(final))
  {
  }

  lemma PublishedMedian(c: Cut, final: Totals, p: Published)
    requires Publishes(c, final, false, p) && |Scores(WindowsOf(c, final))| == WINDOWS
    ensures p.score in Scores(WindowsOf(c, final)) && p.work == final.work && p.elapsed == final.elapsed
  {
    hide ScoreFrom, IsPeak, IsMedian, WindowsOf;
    MedianIsAScore(Scores(WindowsOf(c, final)), p);
  }

  lemma MedianIsAScore(scores: seq<real>, p: Published)
    requires IsMedian(scores, p)
    ensures p.score in scores
  {
    var s: seq<real> :| Sorted(s) && multiset(s) == multiset(scores) && |s| == |scores| > 0 && MiddleOf(s, p);
    InPermutation(s, scores, |s| / 2);
  }
}
