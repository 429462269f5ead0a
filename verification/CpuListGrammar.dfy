/** What `CpuList.Read` makes of any text, stated without a scanner: the text is spelled out as numbers and pairs of
    numbers, then something that ends the list. Each text has exactly one such reading. */
module CpuListGrammar {
  import opened Common
  import opened DecimalText
  import opened CpuList

  /** One entry as written: what separates it from the one before, its digits, and those after a dash. */
  datatype Spelling = Spelling(gap: string, first: string, second: Option<string>)

  /** A comma or white space. */
  predicate IsGap(s: string) {
    forall i | 0 <= i < |s| :: s[i] == ',' || s[i] == ' ' || 9 <= s[i] as int <= 13
  }

  /** Digits of a number that fits 64 bits; leading zeros are allowed. */
  predicate IsNumber(s: string) {
    s != "" && AllDigits(s) && NumberOf(s) < 0x1_0000_0000_0000_0000
  }

  predicate IsHuge(s: string) {
    AllDigits(s) && NumberOf(s) >= 0x1_0000_0000_0000_0000
  }

  predicate Spelled(x: Spelling) {
    IsGap(x.gap) && IsNumber(x.first) && (x.second.Some? ==> IsNumber(x.second.value))
  }

  function Spell(x: Spelling): string {
    match x.second
    case None => x.gap + x.first
    case Some(second) => x.gap + (x.first + ("-" + second))
  }

  function SpellAll(xs: seq<Spelling>): string {
    if xs == [] then "" else Spell(xs[0]) + SpellAll(xs[1..])
  }

  /** The entry ends where its digits end, and is no pair unless it is spelled as one. */
  predicate EndsBefore(x: Spelling, rest: string) {
    rest == "" || (!IsDigit(rest[0]) && (x.second.None? ==> rest[0] != '-'))
  }

  predicate Written(xs: seq<Spelling>, tail: string) {
    xs != [] ==> Spelled(xs[0]) && EndsBefore(xs[0], SpellAll(xs[1..]) + tail) && Written(xs[1..], tail)
  }

  /** Both ends cut to 32 bits. */
  function RangeOf(x: Spelling): Range
    requires Spelled(x)
  {
    Range(NumberOf(x.first) % 0x1_0000_0000,
          NumberOf(if x.second.Some? then x.second.value else x.first) % 0x1_0000_0000)
  }

  predicate AllSpelled(xs: seq<Spelling>) {
    forall i | 0 <= i < |xs| :: Spelled(xs[i])
  }

  function RangesOf(xs: seq<Spelling>): seq<Range>
    requires AllSpelled(xs)
  {
    if xs == [] then [] else [RangeOf(xs[0])] + RangesOf(xs[1..])
  }

  /** No further entry: something else than a digit, or a pair without its second number. */
  ghost predicate Stops(tail: string) {
    || (exists gap, rest :: tail == gap + rest && IsGap(gap) && Foreign(rest))
    || (exists gap, first, rest ::
          tail == gap + (first + ("-" + rest)) && IsGap(gap) && IsNumber(first) && NoDigitNext(rest))
  }

  /** Neither a digit nor a separator comes next. */
  predicate Foreign(s: string) {
    s == "" || (!IsDigit(s[0]) && !IsGap([s[0]]))
  }

  /** A number beyond 64 bits, alone or as either half of a pair. */
  ghost predicate Overflows(tail: string) {
    || (exists gap, first, rest ::
          tail == gap + (first + rest) && IsGap(gap) && IsHuge(first) && NoDigitNext(rest))
    || (exists gap, first, second, rest ::
          tail == gap + (first + ("-" + (second + rest))) && IsGap(gap) && IsNumber(first) && IsHuge(second)
          && NoDigitNext(rest))
  }

  /** The text reads as these ranges and then overflows, or not. */
  ghost predicate ReadsAs(s: string, ranges: seq<Range>, overflow: bool) {
    exists xs, tail ::
      && s == SpellAll(xs) + tail && Written(xs, tail) && AllSpelled(xs) && RangesOf(xs) == ranges
      && if overflow then Overflows(tail) else Stops(tail)
  }

  // ---------------------------------------------------------------- each entry

  lemma {:induction false} SkipGap(gap: string, s: string)
    requires IsGap(gap) && (s == "" || !IsSeparator(s[0]))
    ensures SkipSeparators(gap + s) == s
    decreases |gap|
  {
    if gap == "" {
      assert gap + s == s;
    } else {
      assert (gap + s)[0] == gap[0] && (gap + s)[1..] == gap[1..] + s;
      SkipGap(gap[1..], s);
    }
  }

  lemma {:induction false} SkipSplit(s: string) returns (gap: string)
    ensures IsGap(gap) && s == gap + SkipSeparators(s)
    decreases |s|
  {
    if s != "" && IsSeparator(s[0]) {
      var rest := SkipSplit(s[1..]);
      gap := [s[0]] + rest;
    } else {
      gap := "";
    }
  }

  /** The digits a text starts with. */
  lemma LeadingDigits(a: string, x: string)
    requires AllDigits(a) && a != "" && NoDigitNext(x)
    ensures DigitRun(a + x) == |a| && (a + x)[..|a|] == a && (a + x)[|a|..] == x && !IsSeparator((a + x)[0])
  {
    hide DigitRun;
    RunIs(a, x);
    assert (a + x)[0] == a[0];
  }

  lemma HugeIsText(s: string)
    requires IsHuge(s)
    ensures s != ""
  {
    if s == "" {
      NumberOfNothing(s);
    }
  }

  /** After a gap and a number the next entry is decided by what follows. */
  lemma AfterNumber(gap: string, first: string, x: string)
    requires IsGap(gap) && AllDigits(first) && first != "" && NoDigitNext(x)
    ensures NextEntry(gap + (first + x)) ==
      if NumberOf(first) >= U64 then HugeNumber
      else if x != "" && x[0] == '-' then UpTo(Cut32(NumberOf(first)), x[1..])
      else Entry(Range(Cut32(NumberOf(first)), Cut32(NumberOf(first))), x)
  {
    hide NumberOf, DigitRun, SkipSeparators, UpTo, Cut32, IsGap;
    var t := first + x;
    LeadingDigits(first, x);
    SkipGap(gap, t);
    assert |first| < |t| ==> t[|first|] == x[0] && t[|first| + 1..] == x[1..];
  }

  lemma SecondNumber(first: Word, second: string, rest: string)
    requires AllDigits(second) && second != "" && NoDigitNext(rest)
    ensures UpTo(first, second + rest) ==
      if NumberOf(second) >= U64 then HugeNumber else Entry(Range(first, Cut32(NumberOf(second))), rest)
  {
    hide NumberOf, DigitRun, Cut32;
    LeadingDigits(second, rest);
  }

  lemma NextIsSpelled(x: Spelling, rest: string)
    requires Spelled(x) && EndsBefore(x, rest)
    ensures NextEntry(Spell(x) + rest) == Entry(RangeOf(x), rest)
  {
    hide NumberOf, DigitRun, NextEntry, UpTo, IsGap, AllDigits;
    match x.second
    case None =>
      assert Spell(x) + rest == x.gap + (x.first + rest);
      AfterNumber(x.gap, x.first, rest);
    case Some(second) =>
      var dash := "-" + (second + rest);
      assert Spell(x) + rest == x.gap + (x.first + dash);
      AfterNumber(x.gap, x.first, dash);
      assert dash[1..] == second + rest;
      SecondNumber(Cut32(NumberOf(x.first)), second, rest);
  }

  lemma StopIsNoEntry(tail: string)
    requires Stops(tail)
    ensures NextEntry(tail) == NoEntry
  {
    hide NumberOf, IsGap, AllDigits;
    if gap, rest :| tail == gap + rest && IsGap(gap) && Foreign(rest) {
      ForeignSkips(gap, rest);
    } else {
      var gap, first, rest :| tail == gap + (first + ("-" + rest)) && IsGap(gap) && IsNumber(first) && NoDigitNext(rest);
      var dash := "-" + rest;
      hide NextEntry;
      AfterNumber(gap, first, dash);
      assert dash[1..] == rest;
      assert UpTo(Cut32(NumberOf(first)), rest) == NoEntry;
    }
  }

  lemma ForeignSkips(gap: string, rest: string)
    requires IsGap(gap) && Foreign(rest)
    ensures SkipSeparators(gap + rest) == rest && DigitRun(rest) == 0
  {
    if rest != "" {
      assert [rest[0]][0] == rest[0];
    }
    SkipGap(gap, rest);
  }

  lemma OverflowIsHuge(tail: string)
    requires Overflows(tail)
    ensures NextEntry(tail) == HugeNumber
  {
    hide NumberOf, IsGap, AllDigits, NextEntry, UpTo;
    if gap, first, rest :| tail == gap + (first + rest) && IsGap(gap) && IsHuge(first) && NoDigitNext(rest) {
      HugeIsText(first);
      AfterNumber(gap, first, rest);
    } else {
      var gap, first, second, rest :|
        tail == gap + (first + ("-" + (second + rest))) && IsGap(gap) && IsNumber(first) && IsHuge(second)
        && NoDigitNext(rest);
      var dash := "-" + (second + rest);
      HugeIsText(second);
      AfterNumber(gap, first, dash);
      assert dash[1..] == second + rest;
      SecondNumber(Cut32(NumberOf(first)), second, rest);
    }
  }

  // ---------------------------------------------------------------- from the scan to the spelling

  /** A text is a gap, the digits that follow it, and the rest. */
  lemma Parts(s: string) returns (gap: string, digits: string, rest: string)
    ensures s == gap + (digits + rest) && IsGap(gap) && AllDigits(digits) && NoDigitNext(rest)
    ensures digits == "" ==> Foreign(rest)
  {
    gap := SkipSplit(s);
    var t := SkipSeparators(s);
    var k := DigitRun(t);
    digits, rest := t[..k], t[k..];
    assert t == digits + rest;
    if digits == "" && rest != "" {
      assert rest[0] == t[0];
      assert [rest[0]][0] == rest[0];
    }
  }

  lemma NoDigits(gap: string, rest: string)
    requires IsGap(gap) && Foreign(rest)
    ensures NextEntry(gap + ("" + rest)) == NoEntry && Stops(gap + ("" + rest))
  {
    ForeignSkips(gap, rest);
    assert "" + rest == rest;
    hide NumberOf;
    assert Stops(gap + rest);
  }

  /** What the next entry, or its absence, says of the text. */
  lemma NextMeans(s: string) returns (x: Spelling)
    ensures match NextEntry(s)
      case NoEntry => Stops(s)
      case HugeNumber => Overflows(s)
      case Entry(range, rest) => s == Spell(x) + rest && Spelled(x) && RangeOf(x) == range && EndsBefore(x, rest)
  {
    var gap, digits, rest := Parts(s);
    x := Spelling(gap, digits, None);
    if digits == "" {
      NoDigits(gap, rest);
    } else {
      hide NumberOf, DigitRun, NextEntry, UpTo, IsGap, AllDigits, Stops, Overflows;
      AfterNumber(gap, digits, rest);
      if NumberOf(digits) >= U64 {
        OverflowAlone(gap, digits, rest);
      } else if rest != "" && rest[0] == '-' {
        x := PairMeans(s, gap, digits, rest);
      } else {
        assert s == Spell(x) + rest;
      }
    }
  }

  lemma OverflowAlone(gap: string, digits: string, rest: string)
    requires IsGap(gap) && IsHuge(digits) && NoDigitNext(rest)
    ensures Overflows(gap + (digits + rest))
  {
    hide IsHuge, IsGap, NoDigitNext;
  }

  lemma OverflowInPair(gap: string, first: string, second: string, rest: string)
    requires IsGap(gap) && IsNumber(first) && IsHuge(second) && NoDigitNext(rest)
    ensures Overflows(gap + (first + ("-" + (second + rest))))
  {
    hide IsHuge, IsGap, NoDigitNext, IsNumber;
  }

  lemma StopInPair(gap: string, first: string, rest: string)
    requires IsGap(gap) && IsNumber(first) && NoDigitNext(rest)
    ensures Stops(gap + (first + ("-" + rest)))
  {
    hide IsGap, NoDigitNext, IsNumber;
  }

  lemma PairMeans(s: string, gap: string, first: string, dash: string) returns (x: Spelling)
    requires s == gap + (first + dash) && IsGap(gap) && IsNumber(first)
    requires dash != "" && dash[0] == '-' && NextEntry(s) == UpTo(Cut32(NumberOf(first)), dash[1..])
    ensures match NextEntry(s)
      case NoEntry => Stops(s)
      case HugeNumber => Overflows(s)
      case Entry(range, rest) => s == Spell(x) + rest && Spelled(x) && RangeOf(x) == range && EndsBefore(x, rest)
  {
    var u := dash[1..];
    var l := DigitRun(u);
    var second, rest := u[..l], u[l..];
    assert u == second + rest && dash == "-" + u;
    x := Spelling(gap, first, Some(second));
    if l == 0 {
      StopInPair(gap, first, u);
    } else {
      hide NumberOf, DigitRun, NextEntry, UpTo, IsGap, AllDigits, Stops, Overflows;
      SecondNumber(Cut32(NumberOf(first)), second, rest);
      if NumberOf(second) >= U64 {
        OverflowInPair(gap, first, second, rest);
      } else {
        assert s == Spell(x) + rest;
      }
    }
  }

  // ---------------------------------------------------------------- the whole text

  lemma ReadsNothing(tail: string, overflow: bool)
    requires if overflow then Overflows(tail) else Stops(tail)
    ensures ReadsAs(tail, [], overflow)
  {
    var none: seq<Spelling> := [];
    assert SpellAll(none) + tail == tail;
    assert Written(none, tail) && AllSpelled(none) && RangesOf(none) == [];
    hide Overflows, Stops;
  }

  lemma ReadsOneMore(x: Spelling, rest: string, ranges: seq<Range>, overflow: bool)
    requires Spelled(x) && EndsBefore(x, rest) && ReadsAs(rest, ranges, overflow)
    ensures ReadsAs(Spell(x) + rest, [RangeOf(x)] + ranges, overflow)
  {
    hide Spelled, EndsBefore, RangeOf, Overflows, Stops, Spell;
    var xs, tail :| rest == SpellAll(xs) + tail && Written(xs, tail) && AllSpelled(xs) && RangesOf(xs) == ranges
      && if overflow then Overflows(tail) else Stops(tail);
    var all := [x] + xs;
    assert all[0] == x && all[1..] == xs;
    assert SpellAll(all) + tail == Spell(x) + rest;
    assert Written(all, tail) && AllSpelled(all);
    assert RangesOf(all) == [RangeOf(x)] + ranges;
  }

  lemma {:induction false} ReadSound(s: string)
    ensures ReadsAs(s, Read(s).ranges, Read(s).overflow)
    decreases |s|
  {
    var x := NextMeans(s);
    hide NextEntry, Stops, Overflows, ReadsAs, Spell, Spelled, EndsBefore, RangeOf;
    match NextEntry(s)
    case NoEntry => ReadsNothing(s, false);
    case HugeNumber => ReadsNothing(s, true);
    case Entry(range, rest) =>
      ReadSound(rest);
      ReadsOneMore(x, rest, Read(rest).ranges, Read(rest).overflow);
  }

  lemma {:induction false} ReadComplete(xs: seq<Spelling>, tail: string, overflow: bool)
    requires Written(xs, tail) && AllSpelled(xs) && if overflow then Overflows(tail) else Stops(tail)
    ensures Read(SpellAll(xs) + tail) == Reading(RangesOf(xs), overflow)
    decreases |xs|
  {
    hide NextEntry, Stops, Overflows, Spell, Spelled, EndsBefore, RangeOf;
    if xs == [] {
      assert SpellAll(xs) + tail == tail;
      if overflow {
        OverflowIsHuge(tail);
      } else {
        StopIsNoEntry(tail);
      }
    } else {
      var rest := SpellAll(xs[1..]) + tail;
      assert SpellAll(xs) + tail == Spell(xs[0]) + rest;
      NextIsSpelled(xs[0], rest);
      ReadComplete(xs[1..], tail, overflow);
    }
  }

  /** Any text, both ways: it is read as a list of ranges, up to an overflow or not, if and only if it spells them. */
  lemma ReadExactly(s: string, ranges: seq<Range>, overflow: bool)
    ensures Read(s) == Reading(ranges, overflow) <==> ReadsAs(s, ranges, overflow)
  {
    ReadSound(s);
    hide Read, Stops, Overflows, Written, AllSpelled;
    if ReadsAs(s, ranges, overflow) {
      var xs, tail :| s == SpellAll(xs) + tail && Written(xs, tail) && AllSpelled(xs) && RangesOf(xs) == ranges
        && if overflow then Overflows(tail) else Stops(tail);
      ReadComplete(xs, tail, overflow);
    }
  }
}
