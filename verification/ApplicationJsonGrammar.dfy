/** The language of `ApplicationJson`, stated without a parser: the tokens of a list of records,
    laid out with arbitrary whitespace around them. The cursor functions are shown to accept
    exactly this language and to read each text in exactly one way. */
module ApplicationJsonGrammar {
  import opened Common
  import opened ApplicationJson
  import opened DecimalText

  // ---------------------------------------------------------------- layout

  predicate AllGaps(gaps: seq<string>) {
    forall i | 0 <= i < |gaps| :: AllSpace(gaps[i])
  }

  /** Each token preceded by its gap. */
  function Lay(gaps: seq<string>, tokens: seq<string>): string
    requires |gaps| == |tokens|
  {
    if tokens == [] then "" else gaps[0] + tokens[0] + Lay(gaps[1..], tokens[1..])
  }

  /** s is the tokens laid out in some way, followed by rest. */
  ghost predicate Laid(tokens: seq<string>, s: string, rest: string) {
    exists gaps: seq<string> :: |gaps| == |tokens| && AllGaps(gaps) && s == Lay(gaps, tokens) + rest
  }

  function BoolText(b: bool): string {
    if b then "true" else "false"
  }

  function Quote(name: string): string {
    "\"" + name + "\""
  }

  function IdTokens(n: nat): seq<string> { ["{", "\"id\"", ":", Decimal(n)] }

  function ValueTokens(n: nat): seq<string> { [",", "\"value\"", ":", Decimal(n)] }

  function ActiveTokens(b: bool): seq<string> { [",", "\"active\"", ":", BoolText(b)] }

  function NameTokens(name: string): seq<string> { [",", "\"name\"", ":", Quote(name)] }

  function RecordTokens(r: Record): seq<string> {
    IdTokens(r.id) + (ValueTokens(r.value) + (ActiveTokens(r.active) + (NameTokens(r.name) + ["}"])))
  }

  function RecordsTokens(rs: seq<Record>): seq<string>
    requires rs != []
  {
    if |rs| == 1 then RecordTokens(rs[0]) else RecordTokens(rs[0]) + ([","] + RecordsTokens(rs[1..]))
  }

  function DocumentTokens(rs: seq<Record>): seq<string> {
    if rs == [] then ["["] + ["]"] else ["["] + (RecordsTokens(rs) + ["]"])
  }

  /** The document language: tokens of a list of records, gaps between them, and trailing whitespace. */
  ghost predicate IsRendering(s: string, rs: seq<Record>) {
    exists tail: string :: AllSpace(tail) && Laid(DocumentTokens(rs), s, tail)
  }

  // ---------------------------------------------------------------- laying out in pieces

  lemma {:induction false} LayAppend(g1: seq<string>, t1: seq<string>, g2: seq<string>, t2: seq<string>)
    requires |g1| == |t1| && |g2| == |t2|
    ensures Lay(g1 + g2, t1 + t2) == Lay(g1, t1) + Lay(g2, t2)
    decreases |t1|
  {
    if t1 == [] {
      assert g1 + g2 == g2 && t1 + t2 == t2;
    } else {
      assert (g1 + g2)[1..] == g1[1..] + g2;
      assert (t1 + t2)[1..] == t1[1..] + t2;
      LayAppend(g1[1..], t1[1..], g2, t2);
      assert g1[0] + t1[0] + (Lay(g1[1..], t1[1..]) + Lay(g2, t2)) == Lay(g1, t1) + Lay(g2, t2);
    }
  }

  lemma Associate(a: string, b: string, c: string)
    ensures (a + b) + c == a + (b + c)
  {
  }

  lemma LaidJoin(t1: seq<string>, t2: seq<string>, s: string, middle: string, rest: string)
    requires Laid(t1, s, middle) && Laid(t2, middle, rest)
    ensures Laid(t1 + t2, s, rest)
  {
    hide Lay, AllSpace;
    var g1: seq<string> :| |g1| == |t1| && AllGaps(g1) && s == Lay(g1, t1) + middle;
    var g2: seq<string> :| |g2| == |t2| && AllGaps(g2) && middle == Lay(g2, t2) + rest;
    LayAppend(g1, t1, g2, t2);
    Associate(Lay(g1, t1), Lay(g2, t2), rest);
    var g := g1 + g2;
    assert |g| == |t1 + t2| && AllGaps(g) && s == Lay(g, t1 + t2) + rest;
  }

  lemma LaidSplit(t1: seq<string>, t2: seq<string>, s: string, rest: string) returns (middle: string)
    requires Laid(t1 + t2, s, rest)
    ensures Laid(t1, s, middle) && Laid(t2, middle, rest)
  {
    hide Lay, AllSpace;
    var g: seq<string> :| |g| == |t1 + t2| && AllGaps(g) && s == Lay(g, t1 + t2) + rest;
    var g1, g2 := g[..|t1|], g[|t1|..];
    assert g == g1 + g2;
    LayAppend(g1, t1, g2, t2);
    Associate(Lay(g1, t1), Lay(g2, t2), rest);
    middle := Lay(g2, t2) + rest;
    assert |g1| == |t1| && AllGaps(g1) && s == Lay(g1, t1) + middle;
    assert |g2| == |t2| && AllGaps(g2) && middle == Lay(g2, t2) + rest;
  }

  lemma LaidOne(token: string, s: string, rest: string, gap: string)
    requires AllSpace(gap) && s == gap + token + rest
    ensures Laid([token], s, rest)
  {
    assert Lay([gap], [token]) == gap + token + Lay([], []);
    assert Lay([gap], [token]) == gap + token;
    assert AllGaps([gap]);
  }

  lemma LaidGap(token: string, s: string, rest: string) returns (gap: string)
    requires Laid([token], s, rest)
    ensures AllSpace(gap) && s == gap + token + rest
  {
    var g: seq<string> :| |g| == 1 && AllGaps(g) && s == Lay(g, [token]) + rest;
    gap := g[0];
    assert Lay(g, [token]) == gap + token + Lay([], []);
    assert Lay(g, [token]) == gap + token;
  }

  // ---------------------------------------------------------------- each cursor function is exact

  lemma {:induction false} SkipGap(gap: string, s: string)
    requires AllSpace(gap) && (s == "" || !IsSpace(s[0]))
    ensures SkipSpace(gap + s) == s
    decreases |gap|
  {
    if gap == "" {
      assert gap + s == s;
    } else {
      assert (gap + s)[1..] == gap[1..] + s;
      SkipGap(gap[1..], s);
    }
  }

  lemma {:induction false} GapBefore(s: string) returns (gap: string)
    ensures AllSpace(gap) && s == gap + SkipSpace(s)
    ensures SkipSpace(s) == "" || !IsSpace(SkipSpace(s)[0])
  {
    if s != "" && IsSpace(s[0]) {
      var rest := GapBefore(s[1..]);
      gap := [s[0]] + rest;
      hide IsSpace;
      assert gap + SkipSpace(s[1..]) == [s[0]] + (rest + SkipSpace(s[1..]));
    } else {
      gap := "";
    }
  }

  predicate StartsDark(token: string) {
    token != "" && !IsSpace(token[0])
  }

  lemma LaidSkips(token: string, s: string, rest: string)
    requires StartsDark(token)
    ensures Laid([token], s, rest) <==> SkipSpace(s) == token + rest
  {
    if Laid([token], s, rest) {
      var gap := LaidGap(token, s, rest);
      assert gap + token + rest == gap + (token + rest);
      SkipGap(gap, token + rest);
    }
    if SkipSpace(s) == token + rest {
      var gap := GapBefore(s);
      assert gap + (token + rest) == gap + token + rest;
      LaidOne(token, s, rest, gap);
    }
  }

  lemma TokenExact(token: string, s: string, rest: string)
    requires StartsDark(token)
    ensures TokenAt(s, token) == Some(rest) <==> Laid([token], s, rest)
  {
    hide SkipSpace, Laid;
    LaidSkips(token, s, rest);
    var t := SkipSpace(s);
    if token <= t {
      assert t == token + t[|token|..];
    }
    assert (token + rest)[|token|..] == rest;
  }

  lemma KeyExact(separator: string, key: string, s: string, rest: string)
    requires StartsDark(separator) && StartsDark(key)
    ensures KeyAt(s, separator, key) == Some(rest) <==> Laid([separator, key, ":"], s, rest)
  {
    hide TokenAt, Laid;
    assert [separator, key, ":"] == [separator] + ([key] + [":"]);
    if Laid([separator, key, ":"], s, rest) {
      var t := LaidSplit([separator], [key] + [":"], s, rest);
      var u := LaidSplit([key], [":"], t, rest);
      TokenExact(separator, s, t);
      TokenExact(key, t, u);
      TokenExact(":", u, rest);
    }
    if KeyAt(s, separator, key) == Some(rest) {
      var t := TokenAt(s, separator).value;
      var u := TokenAt(t, key).value;
      TokenExact(separator, s, t);
      TokenExact(key, t, u);
      TokenExact(":", u, rest);
      LaidJoin([key], [":"], t, u, rest);
      LaidJoin([separator], [key] + [":"], s, t, rest);
    }
  }

  lemma BoolExact(s: string, b: bool, rest: string)
    ensures BoolAt(s) == Some((b, rest)) <==> Laid([BoolText(b)], s, rest)
  {
    hide SkipSpace, Laid;
    LaidSkips(BoolText(b), s, rest);
    TokenExact(BoolText(b), s, rest);
    assert "true"[0] == 't' && "false"[0] == 'f';
    assert TokenAt(s, "true").None? || TokenAt(s, "false").None?;
  }

  lemma DecimalDark(n: nat)
    ensures StartsDark(Decimal(n))
  {
    DecimalIsCanonical(n);
    assert IsDigit(Decimal(n)[0]);
  }

  /** Exactly the canonical decimals up to 2^64 - 1 are read, each as its value. */
  lemma NumberExact(s: string, n: nat, rest: string)
    ensures NumberAt(s) == Some((n, rest)) <==> n < U64 && Laid([Decimal(n)], s, rest) && NoDigitNext(rest)
  {
    hide SkipSpace, Laid, Decimal, NumberOf;
    DecimalDark(n);
    DecimalIsCanonical(n);
    LaidSkips(Decimal(n), s, rest);
    var t := SkipSpace(s);
    if n < U64 && t == Decimal(n) + rest && NoDigitNext(rest) {
      RunIs(Decimal(n), rest);
      assert t[..DigitRun(t)] == Decimal(n);
      assert t[DigitRun(t)..] == rest;
    }
    if NumberAt(s) == Some((n, rest)) {
      CanonicalIsDecimal(t[..DigitRun(t)]);
      assert t == t[..DigitRun(t)] + rest;
    }
  }

  lemma {:induction false} QuotedExact(s: string, name: string, rest: string)
    ensures QuotedAt(s) == Some((name, rest)) <==> IsName(name) && s == name + "\"" + rest
    decreases |s|
  {
    if s != "" && s[0] != '"' && IsNameChar(s[0]) && name != "" {
      QuotedExact(s[1..], name[1..], rest);
      assert name == [name[0]] + name[1..];
      assert (name + "\"" + rest)[1..] == name[1..] + "\"" + rest;
    }
    if name == "" {
      assert name + "\"" + rest == "\"" + rest;
    }
  }

  lemma NameExact(s: string, name: string, rest: string)
    ensures NameAt(s) == Some((name, rest)) <==> IsName(name) && Laid([Quote(name)], s, rest)
  {
    hide SkipSpace, Laid, QuotedAt;
    LaidSkips(Quote(name), s, rest);
    var t := SkipSpace(s);
    if t != "" {
      QuotedExact(t[1..], name, rest);
      assert t == [t[0]] + t[1..];
    }
    assert Quote(name) + rest == "\"" + (name + "\"" + rest);
    assert (Quote(name) + rest)[1..] == name + "\"" + rest;
  }

  lemma NumberFieldExact(separator: string, key: string, s: string, n: nat, rest: string)
    requires StartsDark(separator) && StartsDark(key)
    ensures NumberFieldAt(s, separator, key) == Some((n, rest))
      <==> n < U64 && Laid([separator, key, ":", Decimal(n)], s, rest) && NoDigitNext(rest)
  {
    hide KeyAt, NumberAt, Laid, Decimal, NoDigitNext;
    var key3 := [separator, key, ":"];
    assert [separator, key, ":", Decimal(n)] == key3 + [Decimal(n)];
    if NumberFieldAt(s, separator, key) == Some((n, rest)) {
      var t := KeyAt(s, separator, key).value;
      KeyExact(separator, key, s, t);
      NumberExact(t, n, rest);
      LaidJoin(key3, [Decimal(n)], s, t, rest);
    }
    if n < U64 && Laid(key3 + [Decimal(n)], s, rest) && NoDigitNext(rest) {
      var t := LaidSplit(key3, [Decimal(n)], s, rest);
      KeyExact(separator, key, s, t);
      NumberExact(t, n, rest);
    }
  }

  lemma BoolFieldExact(separator: string, key: string, s: string, b: bool, rest: string)
    requires StartsDark(separator) && StartsDark(key)
    ensures BoolFieldAt(s, separator, key) == Some((b, rest)) <==> Laid([separator, key, ":", BoolText(b)], s, rest)
  {
    hide KeyAt, BoolAt, Laid, BoolText;
    var key3 := [separator, key, ":"];
    assert [separator, key, ":", BoolText(b)] == key3 + [BoolText(b)];
    if BoolFieldAt(s, separator, key) == Some((b, rest)) {
      var t := KeyAt(s, separator, key).value;
      KeyExact(separator, key, s, t);
      BoolExact(t, b, rest);
      LaidJoin(key3, [BoolText(b)], s, t, rest);
    }
    if Laid(key3 + [BoolText(b)], s, rest) {
      var t := LaidSplit(key3, [BoolText(b)], s, rest);
      KeyExact(separator, key, s, t);
      BoolExact(t, b, rest);
    }
  }

  lemma NameFieldExact(separator: string, key: string, s: string, name: string, rest: string)
    requires StartsDark(separator) && StartsDark(key)
    ensures NameFieldAt(s, separator, key) == Some((name, rest))
      <==> IsName(name) && Laid([separator, key, ":", Quote(name)], s, rest)
  {
    hide KeyAt, NameAt, Laid, Quote, IsName;
    var key3 := [separator, key, ":"];
    assert [separator, key, ":", Quote(name)] == key3 + [Quote(name)];
    if NameFieldAt(s, separator, key) == Some((name, rest)) {
      var t := KeyAt(s, separator, key).value;
      KeyExact(separator, key, s, t);
      NameExact(t, name, rest);
      LaidJoin(key3, [Quote(name)], s, t, rest);
    }
    if IsName(name) && Laid(key3 + [Quote(name)], s, rest) {
      var t := LaidSplit(key3, [Quote(name)], s, rest);
      KeyExact(separator, key, s, t);
      NameExact(t, name, rest);
    }
  }

  /** A separator that is no digit cannot be mistaken for the end of a number. */
  lemma LaidStartsNoDigit(tokens: seq<string>, s: string, rest: string)
    requires tokens != [] && StartsDark(tokens[0]) && !IsDigit(tokens[0][0])
    requires Laid(tokens, s, rest)
    ensures NoDigitNext(s)
  {
    hide Laid;
    assert tokens == [tokens[0]] + tokens[1..];
    var t := LaidSplit([tokens[0]], tokens[1..], s, rest);
    LaidSkips(tokens[0], s, t);
  }

  // ---------------------------------------------------------------- records and documents

  lemma RecordSound(s: string, r: Record, rest: string)
    requires RecordAt(s) == Some((r, rest))
    ensures ValidRecord(r) && Laid(RecordTokens(r), s, rest)
  {
    hide NumberFieldAt, BoolFieldAt, NameFieldAt, TokenAt, Laid, Decimal, BoolText, Quote, IsName;
    var t := NumberFieldAt(s, "{", "\"id\"").value.1;
    var u := NumberFieldAt(t, ",", "\"value\"").value.1;
    var v := BoolFieldAt(u, ",", "\"active\"").value.1;
    var w := NameFieldAt(v, ",", "\"name\"").value.1;
    NumberFieldExact("{", "\"id\"", s, r.id, t);
    NumberFieldExact(",", "\"value\"", t, r.value, u);
    BoolFieldExact(",", "\"active\"", u, r.active, v);
    NameFieldExact(",", "\"name\"", v, r.name, w);
    TokenExact("}", w, rest);
    LaidJoin(NameTokens(r.name), ["}"], v, w, rest);
    LaidJoin(ActiveTokens(r.active), NameTokens(r.name) + ["}"], u, v, rest);
    LaidJoin(ValueTokens(r.value), ActiveTokens(r.active) + (NameTokens(r.name) + ["}"]), t, u, rest);
    LaidJoin(IdTokens(r.id), ValueTokens(r.value) + (ActiveTokens(r.active) + (NameTokens(r.name) + ["}"])), s, t, rest);
  }

  lemma RecordComplete(s: string, r: Record, rest: string)
    requires ValidRecord(r) && Laid(RecordTokens(r), s, rest)
    ensures RecordAt(s) == Some((r, rest))
  {
    hide NumberFieldAt, BoolFieldAt, NameFieldAt, TokenAt, Laid, Decimal, BoolText, Quote, IsName;
    var t := LaidSplit(IdTokens(r.id), ValueTokens(r.value) + (ActiveTokens(r.active) + (NameTokens(r.name) + ["}"])), s, rest);
    var u := LaidSplit(ValueTokens(r.value), ActiveTokens(r.active) + (NameTokens(r.name) + ["}"]), t, rest);
    var v := LaidSplit(ActiveTokens(r.active), NameTokens(r.name) + ["}"], u, rest);
    var w := LaidSplit(NameTokens(r.name), ["}"], v, rest);
    LaidStartsNoDigit(ValueTokens(r.value), t, u);
    LaidStartsNoDigit(ActiveTokens(r.active), u, v);
    NumberFieldExact("{", "\"id\"", s, r.id, t);
    NumberFieldExact(",", "\"value\"", t, r.value, u);
    BoolFieldExact(",", "\"active\"", u, r.active, v);
    NameFieldExact(",", "\"name\"", v, r.name, w);
    TokenExact("}", w, rest);
  }

  lemma {:induction false} RecordsSound(s: string, rs: seq<Record>, rest: string)
    requires RecordsAt(s) == Some((rs, rest))
    ensures rs != [] && ValidRecords(rs) && Laid(RecordsTokens(rs), s, rest) && TokenAt(rest, ",").None?
    decreases |s|
  {
    hide RecordAt, TokenAt, Laid, ValidRecord, RecordTokens;
    var (first, t) := RecordAt(s).value;
    RecordSound(s, first, t);
    if TokenAt(t, ",").Some? {
      var u := TokenAt(t, ",").value;
      var (others, v) := RecordsAt(u).value;
      RecordsSound(u, others, rest);
      assert rs[1..] == others;
      TokenExact(",", t, u);
      LaidJoin([","], RecordsTokens(others), t, u, rest);
      LaidJoin(RecordTokens(first), [","] + RecordsTokens(others), s, t, rest);
    }
  }

  lemma {:induction false} RecordsComplete(s: string, rs: seq<Record>, rest: string)
    requires rs != [] && ValidRecords(rs) && Laid(RecordsTokens(rs), s, rest) && TokenAt(rest, ",").None?
    ensures RecordsAt(s) == Some((rs, rest))
    decreases |rs|
  {
    hide RecordAt, TokenAt, Laid, ValidRecord, RecordTokens;
    if |rs| == 1 {
      RecordComplete(s, rs[0], rest);
      assert rs == [rs[0]];
    } else {
      var others := rs[1..];
      var t := LaidSplit(RecordTokens(rs[0]), [","] + RecordsTokens(others), s, rest);
      var u := LaidSplit([","], RecordsTokens(others), t, rest);
      RecordComplete(s, rs[0], t);
      TokenExact(",", t, u);
      RecordsComplete(u, others, rest);
      assert rs == [rs[0]] + others;
    }
  }

  lemma ClosedExact(s: string)
    ensures ClosedAt(s) <==> exists tail: string :: AllSpace(tail) && Laid(["]"], s, tail)
  {
    hide TokenAt, SkipSpace, Laid;
    if ClosedAt(s) {
      var t := TokenAt(s, "]").value;
      TokenExact("]", s, t);
      var gap := GapBefore(t);
      assert gap + "" == gap;
      assert AllSpace(t);
    }
    forall tail: string | AllSpace(tail) && Laid(["]"], s, tail)
      ensures ClosedAt(s)
    {
      TokenExact("]", s, tail);
      SkipGap(tail, "");
      assert tail + "" == tail;
    }
  }

  lemma OneTokenNext(a: string, b: string, s: string)
    requires a != "" && b != "" && a[0] != b[0]
    ensures TokenAt(s, a).None? || TokenAt(s, b).None?
  {
    hide SkipSpace;
  }

  /** The first token of a list of records is a brace. */
  lemma RecordsOpen(s: string, rs: seq<Record>, rest: string)
    requires rs != [] && Laid(RecordsTokens(rs), s, rest)
    ensures TokenAt(s, "{").Some?
  {
    hide TokenAt, Laid, Decimal, BoolText, Quote;
    var tokens := RecordsTokens(rs);
    assert tokens[0] == "{";
    assert tokens == ["{"] + tokens[1..];
    var t := LaidSplit(["{"], tokens[1..], s, rest);
    TokenExact("{", s, t);
  }

  /** Soundness: whatever the parser accepts is a rendering of the records it returns. */
  lemma DocumentSound(s: string, rs: seq<Record>)
    requires DocumentAt(s) == Some(rs)
    ensures ValidRecords(rs) && IsRendering(s, rs)
  {
    hide TokenAt, Laid, RecordsAt, ClosedAt, ValidRecord, RecordsTokens, AllSpace;
    var t := TokenAt(s, "[").value;
    TokenExact("[", s, t);
    var u := if TokenAt(t, "]").Some? then t else RecordsAt(t).value.1;
    ClosedExact(u);
    var tail: string :| AllSpace(tail) && Laid(["]"], u, tail);
    if TokenAt(t, "]").Some? {
      LaidJoin(["["], ["]"], s, t, tail);
    } else {
      RecordsSound(t, rs, u);
      LaidJoin(RecordsTokens(rs), ["]"], t, u, tail);
      LaidJoin(["["], RecordsTokens(rs) + ["]"], s, t, tail);
    }
  }

  /** Completeness: every rendering of every list of valid records is accepted and read back. */
  lemma DocumentComplete(s: string, rs: seq<Record>)
    requires ValidRecords(rs) && IsRendering(s, rs)
    ensures DocumentAt(s) == Some(rs)
  {
    hide TokenAt, Laid, RecordsAt, ClosedAt, ValidRecord, RecordsTokens, AllSpace;
    var tail: string :| AllSpace(tail) && Laid(DocumentTokens(rs), s, tail);
    if rs == [] {
      var t := LaidSplit(["["], ["]"], s, tail);
      TokenExact("[", s, t);
      TokenExact("]", t, tail);
      ClosedExact(t);
    } else {
      var t := LaidSplit(["["], RecordsTokens(rs) + ["]"], s, tail);
      var u := LaidSplit(RecordsTokens(rs), ["]"], t, tail);
      TokenExact("[", s, t);
      TokenExact("]", u, tail);
      ClosedExact(u);
      OneTokenNext("]", ",", u);
      RecordsComplete(t, rs, u);
      RecordsOpen(t, rs, u);
      OneTokenNext("]", "{", t);
    }
  }

  /** The parser accepts exactly the language, and each text renders at most one list of records. */
  lemma DocumentExact(s: string, rs: seq<Record>)
    ensures DocumentAt(s) == Some(rs) <==> ValidRecords(rs) && IsRendering(s, rs)
  {
    if DocumentAt(s) == Some(rs) {
      DocumentSound(s, rs);
    }
    if ValidRecords(rs) && IsRendering(s, rs) {
      DocumentComplete(s, rs);
    }
  }
}
