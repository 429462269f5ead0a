/** The deterministic JSON corpus of the workload, its reference summary, and why one
    misread character of a name cannot go unnoticed. */
module JsonCorpus {
  import opened Common
  import opened DecimalText
  import opened ApplicationJson
  import opened ApplicationJsonGrammar

  // ---------------------------------------------------------------- printing a list of records

  function PrintRecord(r: Record): string {
    ("{\"id\":" + Decimal(r.id))
    + ((",\"value\":" + Decimal(r.value))
    + ((",\"active\":" + BoolText(r.active))
    + ((",\"name\":" + Quote(r.name)) + "}")))
  }

  /** The records printed so far, a comma and a newline between them. */
  function PrintBody(rs: seq<Record>): string {
    if rs == [] then ""
    else PrintBody(rs[..|rs| - 1]) + (if |rs| > 1 then ",\n" else "") + PrintRecord(rs[|rs| - 1])
  }

  function PrintDocument(rs: seq<Record>): string {
    "[" + PrintBody(rs) + "]"
  }

  function Flat(tokens: seq<string>): string {
    if tokens == [] then "" else tokens[0] + Flat(tokens[1..])
  }

  lemma {:induction false} FlatIsLaid(tokens: seq<string>, rest: string)
    ensures Laid(tokens, Flat(tokens) + rest, rest)
  {
    hide Laid;
    if tokens == [] {
      assert Laid([], "" + rest, rest) by {
        LaidNothing(rest);
      }
    } else {
      FlatIsLaid(tokens[1..], rest);
      assert "" + tokens[0] + (Flat(tokens[1..]) + rest) == Flat(tokens) + rest;
      LaidOne(tokens[0], Flat(tokens) + rest, Flat(tokens[1..]) + rest, "");
      LaidJoin([tokens[0]], tokens[1..], Flat(tokens) + rest, Flat(tokens[1..]) + rest, rest);
      assert [tokens[0]] + tokens[1..] == tokens;
    }
  }

  lemma LaidNothing(rest: string)
    ensures Laid([], rest, rest)
  {
    var none: seq<string> := [];
    assert Lay(none, []) == "" && "" + rest == rest;
    assert |none| == 0 && AllGaps(none) && rest == Lay(none, []) + rest;
  }

  lemma {:induction false} FlatAppend(a: seq<string>, b: seq<string>)
    ensures Flat(a + b) == Flat(a) + Flat(b)
    decreases |a|
  {
    if a == [] {
      assert a + b == b;
    } else {
      assert (a + b)[1..] == a[1..] + b;
      FlatAppend(a[1..], b);
    }
  }

  lemma FlatFour(a: string, b: string, c: string, d: string)
    ensures Flat([a, b, c, d]) == a + b + c + d
  {
    FlatOne(d);
    assert [c, d][1..] == [d] && [b, c, d][1..] == [c, d] && [a, b, c, d][1..] == [b, c, d];
    assert Flat([c, d]) == c + d;
    assert Flat([b, c, d]) == b + (c + d);
    assert Flat([a, b, c, d]) == a + (b + (c + d));
  }

  lemma FlatField(separator: string, key: string, value: string)
    ensures Flat([separator, key, ":", value]) == (separator + key + ":") + value
  {
    FlatFour(separator, key, ":", value);
  }

  lemma PrintedTokens(r: Record)
    ensures RecordTokens(r) != [] && Flat(RecordTokens(r)) == PrintRecord(r)
  {
    hide Decimal, Flat, BoolText, Quote;
    var nameAndEnd := NameTokens(r.name) + ["}"];
    FlatAppend(NameTokens(r.name), ["}"]);
    FlatAppend(ActiveTokens(r.active), nameAndEnd);
    FlatAppend(ValueTokens(r.value), ActiveTokens(r.active) + nameAndEnd);
    FlatAppend(IdTokens(r.id), ValueTokens(r.value) + (ActiveTokens(r.active) + nameAndEnd));
    FlatField("{", "\"id\"", Decimal(r.id));
    FlatField(",", "\"value\"", Decimal(r.value));
    FlatField(",", "\"active\"", BoolText(r.active));
    FlatField(",", "\"name\"", Quote(r.name));
    FlatOne("}");
    assert "{" + "\"id\"" + ":" == "{\"id\":";
    assert "," + "\"value\"" + ":" == ",\"value\":";
    assert "," + "\"active\"" + ":" == ",\"active\":";
    assert "," + "\"name\"" + ":" == ",\"name\":";
  }

  lemma FlatOne(token: string)
    ensures Flat([token]) == token
  {
  }

  lemma {:induction false} RecordsTokensSnoc(rs: seq<Record>, r: Record)
    requires rs != []
    ensures RecordsTokens(rs + [r]) == RecordsTokens(rs) + ([","] + RecordTokens(r))
  {
    hide RecordTokens;
    if |rs| == 1 {
      assert (rs + [r])[1..] == [r];
    } else {
      assert (rs + [r])[1..] == rs[1..] + [r];
      RecordsTokensSnoc(rs[1..], r);
    }
  }

  lemma {:induction false} BodyIsLaid(rs: seq<Record>, rest: string)
    requires rs != []
    ensures Laid(RecordsTokens(rs), PrintBody(rs) + rest, rest)
    decreases |rs|
  {
    hide Laid, RecordTokens, PrintRecord;
    var init, r := rs[..|rs| - 1], rs[|rs| - 1];
    PrintedTokens(r);
    FlatIsLaid(RecordTokens(r), rest);
    if init == [] {
      assert PrintBody(rs) + rest == PrintRecord(r) + rest;
    } else {
      assert rs == init + [r];
      var last := PrintRecord(r) + rest;
      var gapped := "\n" + last;
      LaidAfterNewline(RecordTokens(r), last, rest);
      assert "" + "," + gapped == "," + gapped;
      LaidOne(",", "," + gapped, gapped, "");
      LaidJoin([","], RecordTokens(r), "," + gapped, gapped, rest);
      BodyIsLaid(init, "," + gapped);
      assert PrintBody(rs) + rest == PrintBody(init) + ("," + gapped);
      LaidJoin(RecordsTokens(init), [","] + RecordTokens(r), PrintBody(rs) + rest, "," + gapped, rest);
      RecordsTokensSnoc(init, r);
    }
  }

  lemma LaidAfterNewline(tokens: seq<string>, s: string, rest: string)
    requires tokens != [] && Laid(tokens, s, rest)
    ensures Laid(tokens, "\n" + s, rest)
  {
    hide Laid;
    assert tokens == [tokens[0]] + tokens[1..];
    var t := LaidSplit([tokens[0]], tokens[1..], s, rest);
    var gap := LaidGap(tokens[0], s, t);
    assert "\n" + (gap + tokens[0] + t) == ("\n" + gap) + tokens[0] + t;
    LaidOne(tokens[0], "\n" + s, t, "\n" + gap);
    LaidJoin([tokens[0]], tokens[1..], "\n" + s, t, rest);
  }

  /** Round trip: printing any list of valid records and parsing the text returns the list. */
  lemma PrintThenParse(rs: seq<Record>)
    requires ValidRecords(rs)
    ensures DocumentAt(PrintDocument(rs)) == Some(rs)
  {
    hide Laid, RecordsTokens, PrintRecord, ValidRecord;
    var body := PrintBody(rs) + "]";
    assert Laid(["]"], "]", "") by {
      assert "" + "]" + "" == "]";
      LaidOne("]", "]", "", "");
    }
    assert PrintDocument(rs) == "" + "[" + body;
    LaidOne("[", PrintDocument(rs), body, "");
    if rs == [] {
      assert body == "]";
      LaidJoin(["["], ["]"], PrintDocument(rs), "]", "");
    } else {
      BodyIsLaid(rs, "]");
      LaidJoin(RecordsTokens(rs), ["]"], body, "]", "");
      LaidJoin(["["], RecordsTokens(rs) + ["]"], PrintDocument(rs), body, "");
    }
    assert AllSpace("");
    DocumentComplete(PrintDocument(rs), rs);
  }

  // ---------------------------------------------------------------- the corpus

  function NextRandom(state: bv32): bv32 {
    var a := state ^ (state << 13);
    var b := a ^ (a >> 17);
    b ^ (b << 5)
  }

  const SEED: bv32 := 0x7241_5049

  /** The generator after k draws. */
  function RandomAfter(k: nat): bv32 {
    if k == 0 then SEED else NextRandom(RandomAfter(k - 1))
  }

  function RowValue(random: bv32): (v: nat)
    ensures v < 1000000
  {
    random as nat % 1000000
  }

  function CorpusName(row: nat): string {
    "record-" + Decimal(row) + "-sample"
  }

  function CorpusRecord(row: nat): Record {
    Record(row, RowValue(RandomAfter(row + 1)), row % 3 != 0, CorpusName(row))
  }

  function Corpus(rows: nat): seq<Record> {
    if rows == 0 then [] else Corpus(rows - 1) + [CorpusRecord(rows - 1)]
  }

  lemma CorpusRecordValid(row: nat)
    requires row < U32
    ensures ValidRecord(CorpusRecord(row))
  {
    DecimalIsCanonical(row);
    assert IsName(Decimal(row)) by {
      forall i | 0 <= i < |Decimal(row)| ensures IsNameChar(Decimal(row)[i]) {
        assert IsDigit(Decimal(row)[i]);
      }
    }
    assert IsName("record-") && IsName("-sample");
  }

  lemma {:induction false} CorpusValid(rows: nat)
    requires rows <= U32
    ensures ValidRecords(Corpus(rows))
  {
    hide CorpusRecord, ValidRecord;
    if rows > 0 {
      CorpusValid(rows - 1);
      CorpusRecordValid(rows - 1);
    }
  }

  /** Builds the text and, row by row beside it, the summary the parser must reproduce. */
  method BuildJsonCorpus(rows: nat) returns (json: string, reference: Summary)
    requires rows <= U32
    ensures json == PrintDocument(Corpus(rows))
    ensures reference == Fold(Corpus(rows)) && Summarizes(reference, Corpus(rows))
    ensures DocumentAt(json) == Some(Corpus(rows))
  {
    hide Summarizes, PrintRecord, PrintBody, Corpus, Hash, DocumentAt, NextRandom, RandomAfter, RowValue, CorpusName;
    CorpusStart();
    var random := SEED;
    json, reference := "[", EMPTY_SUMMARY;
    for row := 0 to rows
      invariant random == RandomAfter(row)
      invariant json == "[" + PrintBody(Corpus(row))
      invariant reference == Fold(Corpus(row))
    {
      RandomStep(row);
      random := NextRandom(random);
      var value, active, name := RowValue(random), row % 3 != 0, CorpusName(row);
      if row != 0 {
        json := json + ",\n";
      }
      Bracketed(PrintBody(Corpus(row)), if row != 0 then ",\n" else "", PrintRecord(CorpusRecord(row)));
      json := json + PrintRecord(Record(row, value, active, name));
      reference := Summary((reference.rows + 1) % U64, (reference.idSum + row) % U64,
                           (reference.valueSum + value) % U64,
                           (reference.activeCount + if active then 1 else 0) % U64,
                           Hash(reference.nameHash, name));
      CorpusStep(row);
    }
    json := json + "]";
    CorpusValid(rows);
    FoldSummarizes(Corpus(rows));
    PrintThenParse(Corpus(rows));
  }

  lemma CorpusStart()
    ensures PrintBody(Corpus(0)) == "" && Fold(Corpus(0)) == EMPTY_SUMMARY && RandomAfter(0) == SEED
  {
  }

  lemma RandomStep(k: nat)
    ensures RandomAfter(k + 1) == NextRandom(RandomAfter(k))
  {
  }

  lemma Bracketed(body: string, separator: string, record: string)
    ensures "[" + body + separator + record == "[" + (body + separator + record)
    ensures "[" + body + "" == "[" + body
  {
  }

  lemma CorpusStep(row: nat)
    ensures PrintBody(Corpus(row + 1))
      == PrintBody(Corpus(row)) + (if row != 0 then ",\n" else "") + PrintRecord(CorpusRecord(row))
    ensures Fold(Corpus(row + 1)) == AddRecord(Fold(Corpus(row)), CorpusRecord(row))
  {
    hide PrintRecord, AddRecord, CorpusRecord;
    CorpusLength(row);
    assert Corpus(row + 1)[..row] == Corpus(row) && Corpus(row + 1)[row] == CorpusRecord(row);
  }

  lemma {:induction false} CorpusLength(rows: nat)
    ensures |Corpus(rows)| == rows
  {
    if rows > 0 {
      CorpusLength(rows - 1);
    }
  }

  function Triangle(n: nat): nat {
    n * (n - 1) / 2
  }

  lemma TriangleNext(n: nat)
    ensures Triangle(n + 1) == Triangle(n) + n
  {
    assert (n + 1) * n == n * (n - 1) + 2 * n;
  }

  lemma {:induction false} CorpusSums(rows: nat)
    ensures SumOfIds(Corpus(rows)) == Triangle(rows)
    ensures |Actives(Corpus(rows))| == rows - (rows + 2) / 3
    ensures SumOfValues(Corpus(rows)) <= rows * 999999
  {
    if rows == 0 {
      assert Actives(Corpus(0)) == {};
    } else {
      CorpusSums(rows - 1);
      var r := CorpusRecord(rows - 1);
      TotalsSnoc(Corpus(rows - 1), r);
      ActivesSnoc(Corpus(rows - 1), r);
      TriangleNext(rows - 1);
      hide Triangle, SumOfIds, SumOfValues, Actives, RandomAfter;
    }
  }

  /** What the whole corpus must add up to: every row once, two rows in three active, no sum wrapped. */
  lemma CorpusTotals(rows: nat, s: Summary)
    requires rows < U32 && Summarizes(s, Corpus(rows))
    ensures s.rows == rows && 2 * s.idSum == rows * (rows - 1) && s.activeCount == rows - (rows + 2) / 3
    ensures s.valueSum == SumOfValues(Corpus(rows)) <= rows * 999999
  {
    CorpusLength(rows);
    CorpusSums(rows);
    TriangleBound(rows);
    hide Triangle, SumOfIds, SumOfValues, Actives, AllNames, Hash, Corpus;
    SmallWrap(Triangle(rows));
    SmallWrap(SumOfValues(Corpus(rows)));
    SmallWrap(rows);
    SmallWrap(|Actives(Corpus(rows))|);
  }

  lemma SmallWrap(v: nat)
    requires v < U64
    ensures v % U64 == v
  {
  }

  lemma TriangleBound(n: nat)
    requires n < U32
    ensures Triangle(n) < U64 && 2 * Triangle(n) == n * (n - 1)
  {
    EvenProduct(n);
    if n > 0 {
      MulMonotone(n - 1, U32, n);
      MulMonotone(n, U32, U32);
    }
  }

  lemma {:induction false} EvenProduct(n: nat)
    ensures n * (n - 1) % 2 == 0
  {
    if n > 0 {
      EvenProduct(n - 1);
      assert n * (n - 1) == (n - 1) * (n - 2) + 2 * (n - 1);
    }
  }

  /** The generator never gets stuck at zero. */
  lemma {:induction false} NeverZero(k: nat)
    ensures RandomAfter(k) != 0
  {
    if k > 0 {
      NeverZero(k - 1);
      OnlyZeroGivesZero(RandomAfter(k - 1));
    }
  }

  lemma OnlyZeroGivesZero(state: bv32)
    ensures NextRandom(state) == 0 ==> state == 0
  {
    var a := state ^ (state << 13);
    var b := a ^ (a >> 17);
    assert b ^ (b << 5) == 0 ==> b == 0;
    assert b == 0 ==> a == 0;
    assert a == 0 ==> state == 0;
  }

  /** The first draws. */
  lemma FirstDraws()
    ensures RandomAfter(1) == 0x5143_D1CD && RandomAfter(2) == 0x4436_EA70
  {
    assert RandomAfter(0) == SEED;
    assert RandomAfter(1) == NextRandom(SEED);
    assert RandomAfter(2) == NextRandom(0x5143_D1CD);
  }

  // ---------------------------------------------------------------- what the name hash detects

  /** Xor is exclusive-or, bit by bit. */
  lemma {:induction false} XorBitwise(a: nat, b: nat, k: nat)
    ensures Xor(a, b) / Pow2(k) % 2 == (a / Pow2(k) + b / Pow2(k)) % 2
    decreases k
  {
    hide Xor, Pow2;
    Pow2Steps(k);
    if k == 0 {
      XorParity(a, b);
    } else {
      var p := Pow2(k - 1);
      XorBitwise(a / 2, b / 2, k - 1);
      XorHalf(a, b);
      HalfFirst(a, p);
      HalfFirst(b, p);
      HalfFirst(Xor(a, b), p);
    }
  }

  lemma Pow2Steps(k: nat)
    ensures Pow2(0) == 1 && (k > 0 ==> Pow2(k) == 2 * Pow2(k - 1))
  {
  }

  lemma XorParity(a: nat, b: nat)
    ensures Xor(a, b) % 2 == (a + b) % 2
  {
  }

  lemma XorHalf(a: nat, b: nat)
    ensures Xor(a, b) / 2 == Xor(a / 2, b / 2)
  {
    if a == 0 || b == 0 {
      assert Xor(0, b / 2) == b / 2;
      assert Xor(a / 2, 0) == a / 2;
    }
  }

  lemma HalfFirst(a: nat, p: nat)
    requires p > 0
    ensures a / (2 * p) == a / 2 / p
  {
    var q, r := a / 2 / p, a / 2 % p;
    assert a / 2 == p * q + r && a == 2 * (a / 2) + a % 2;
    assert a == q * (2 * p) + (2 * r + a % 2);
    DivideBack(q, 2 * p, 2 * r + a % 2);
  }

  /** The published value of the 64-bit FNV-1a hash of a single letter. */
  lemma HashOfLetter()
    ensures Hash(FNV_OFFSET, "a") == 0xAF63_DC4C_8601_EC8C
  {
    LetterXor();
    hide Xor, Hash;
    HashOne(FNV_OFFSET, 'a');
  }

  lemma LetterXor()
    ensures Xor(FNV_OFFSET, 'a' as nat) == 14695981039346656068
  {
    assert Xor(114812351869895750, 0) == 114812351869895750;
    assert Xor(229624703739791500, 1) == 229624703739791501;
    assert Xor(459249407479583001, 3) == 459249407479583002;
    assert Xor(918498814959166002, 6) == 918498814959166004;
    assert Xor(1836997629918332004, 12) == 1836997629918332008;
    assert Xor(3673995259836664009, 24) == 3673995259836664017;
    assert Xor(7347990519673328018, 48) == 7347990519673328034;
    assert Xor(FNV_OFFSET, 97) == 14695981039346656068;
  }

  lemma {:induction false} XorInverse(a: nat, b: nat)
    ensures Xor(Xor(a, b), b) == a
    decreases a + b
  {
    if a > 0 && b > 0 {
      XorInverse(a / 2, b / 2);
      var x := Xor(a, b);
      assert x / 2 == Xor(a / 2, b / 2) && x % 2 == (if a % 2 == b % 2 then 0 else 1);
    } else if a == 0 {
      XorSelf(b);
    }
  }

  lemma {:induction false} XorSelf(a: nat)
    ensures Xor(a, a) == 0
  {
    if a > 0 {
      XorSelf(a / 2);
    }
  }

  lemma {:induction false} XorCommutes(a: nat, b: nat)
    ensures Xor(a, b) == Xor(b, a)
    decreases a + b
  {
    if a > 0 && b > 0 {
      XorCommutes(a / 2, b / 2);
    }
  }

  lemma {:induction false} XorBound(a: nat, b: nat, bits: nat)
    requires a < Pow2(bits) && b < Pow2(bits)
    ensures Xor(a, b) < Pow2(bits)
    decreases bits
  {
    if a > 0 && b > 0 {
      XorBound(a / 2, b / 2, bits - 1);
    }
  }

  const FNV_INVERSE := 14886173955864302971
  const FNV_QUOTIENT := 887285111055

  /** The FNV prime is odd, so multiplying by it loses nothing modulo 2^64. */
  lemma TimesPrimeInjective(a: nat, b: nat)
    requires a < U64 && b < U64
    requires a * FNV_PRIME % U64 == b * FNV_PRIME % U64
    ensures a == b
  {
    var k := a * FNV_PRIME / U64 - b * FNV_PRIME / U64;
    SameMultiple(a - b, k);
  }

  lemma SameMultiple(d: int, k: int)
    requires -U64 < d < U64 && d * FNV_PRIME == k * U64
    ensures d == 0
  {
    assert FNV_PRIME * FNV_INVERSE == 1 + FNV_QUOTIENT * U64;
    var t := FNV_INVERSE * k - FNV_QUOTIENT * d;
    assert d == U64 * t;
  }

  /** One step separates different hashes, and separates different characters. */
  lemma HashStepInjective(h1: nat, c1: char, h2: nat, c2: char)
    requires h1 < U64 && h2 < U64 && HashStep(h1, c1) == HashStep(h2, c2)
    ensures c1 == c2 ==> h1 == h2
    ensures h1 == h2 ==> c1 == c2
  {
    hide Xor;
    Pow2Small();
    XorBound(h1, c1 as nat, 64);
    XorBound(h2, c2 as nat, 64);
    TimesPrimeInjective(Xor(h1, c1 as nat), Xor(h2, c2 as nat));
    XorInverse(h1, c1 as nat);
    XorInverse(h2, c2 as nat);
    XorCommutes(h1, c1 as nat);
    XorCommutes(h2, c2 as nat);
    XorInverse(c1 as nat, h1);
    XorInverse(c2 as nat, h2);
  }

  lemma {:induction false} HashTail(h1: nat, h2: nat, tail: string)
    requires h1 < U64 && h2 < U64 && Hash(h1, tail) == Hash(h2, tail)
    ensures h1 == h2
    decreases |tail|
  {
    hide HashStep;
    if tail != "" {
      HashStepBound(h1, tail[0]);
      HashStepBound(h2, tail[0]);
      HashTail(HashStep(h1, tail[0]), HashStep(h2, tail[0]), tail[1..]);
      HashStepInjective(h1, tail[0], h2, tail[0]);
    }
  }

  lemma HashStepBound(h: nat, c: char)
    ensures HashStep(h, c) < U64
  {
  }

  lemma {:induction false} HashBound(h: nat, text: string)
    requires h < U64
    ensures Hash(h, text) < U64
    decreases |text|
  {
    hide HashStep;
    if text != "" {
      HashStepBound(h, text[0]);
      HashBound(HashStep(h, text[0]), text[1..]);
    }
  }

  /** Replacing any one character of the hashed text by another changes the hash. */
  lemma OneCharacterIsNoticed(h: nat, before: string, c1: char, c2: char, after: string)
    requires h < U64 && c1 != c2
    ensures Hash(h, before + [c1] + after) != Hash(h, before + [c2] + after)
  {
    hide HashStep;
    if Hash(h, before + [c1] + after) == Hash(h, before + [c2] + after) {
      var middle := Hash(h, before);
      HashBound(h, before);
      HashAppend(h, before + [c1], after);
      HashAppend(h, before + [c2], after);
      HashAppend(h, before, [c1]);
      HashAppend(h, before, [c2]);
      HashOne(middle, c1);
      HashOne(middle, c2);
      HashTail(HashStep(middle, c1), HashStep(middle, c2), after);
      HashStepInjective(middle, c1, middle, c2);
    }
  }

  lemma HashOne(h: nat, c: char)
    ensures Hash(h, [c]) == HashStep(h, c) < U64
  {
    assert [c][1..] == "";
  }
}
