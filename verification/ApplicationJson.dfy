/** The fixed-schema JSON record parser of the CPU application workload (cpu_application_workload.cpp).

    `Cursor` and `ParseApplicationJson` advance a position in place, as the source does. They are proved
    against the functions `TokenAt` .. `DocumentAt` on the text that is left. */
module ApplicationJson {
  import opened Common
  import opened DecimalText

  const FNV_OFFSET := 14695981039346656037
  const FNV_PRIME := 1099511628211

  datatype Record = Record(id: nat, value: nat, active: bool, name: string)

  datatype Summary = Summary(rows: nat, idSum: nat, valueSum: nat, activeCount: nat, nameHash: nat)

  const EMPTY_SUMMARY := Summary(0, 0, 0, 0, FNV_OFFSET)

  /** The object a caller passes to receive the summary. */
  class SummaryCell {
    var value: Summary

    constructor ()
      ensures value == EMPTY_SUMMARY
    {
      value := EMPTY_SUMMARY;
    }
  }

  // ---------------------------------------------------------------- characters and numbers

  predicate IsSpace(c: char) {
    c == ' ' || c == '\n' || c == '\r' || c == '\t'
  }

  predicate IsNameChar(c: char) {
    32 <= c as int < 127 && c != '"' && c != '\\'
  }

  predicate AllSpace(s: string) {
    forall i | 0 <= i < |s| :: IsSpace(s[i])
  }

  predicate IsName(s: string) {
    forall i | 0 <= i < |s| :: IsNameChar(s[i])
  }

  predicate ValidRecord(r: Record) {
    r.id < U64 && r.value < U64 && IsName(r.name)
  }

  predicate ValidRecords(rs: seq<Record>) {
    forall i | 0 <= i < |rs| :: ValidRecord(rs[i])
  }

  // ---------------------------------------------------------------- FNV-1a over the names

  function Xor(a: nat, b: nat): nat {
    if a == 0 then b
    else if b == 0 then a
    else 2 * Xor(a / 2, b / 2) + (if a % 2 == b % 2 then 0 else 1)
  }

  function HashStep(hash: nat, c: char): nat {
    Xor(hash, c as nat) * FNV_PRIME % U64
  }

  /** FNV-1a over a text, first character first. */
  function Hash(hash: nat, text: string): nat
    decreases |text|
  {
    if text == "" then hash else Hash(HashStep(hash, text[0]), text[1..])
  }

  lemma {:induction false} HashAppend(hash: nat, a: string, b: string)
    ensures Hash(hash, a + b) == Hash(Hash(hash, a), b)
    decreases |a|
  {
    if a == "" {
      assert a + b == b;
    } else {
      assert (a + b)[1..] == a[1..] + b;
      HashAppend(HashStep(hash, a[0]), a[1..], b);
    }
  }

  method ComputeHash(hash: nat, text: string) returns (r: nat)
    ensures r == Hash(hash, text)
  {
    r := hash;
    for i := 0 to |text|
      invariant r == Hash(hash, text[..i])
    {
      assert text[..i + 1] == text[..i] + [text[i]];
      HashAppend(hash, text[..i], [text[i]]);
      assert Hash(r, [text[i]]) == HashStep(r, text[i]);
      r := HashStep(r, text[i]);
    }
    assert text[..|text|] == text;
  }

  // ---------------------------------------------------------------- the fold

  function AddRecord(s: Summary, r: Record): Summary {
    Summary((s.rows + 1) % U64, (s.idSum + r.id) % U64, (s.valueSum + r.value) % U64,
            (s.activeCount + if r.active then 1 else 0) % U64, Hash(s.nameHash, r.name))
  }

  function Fold(rs: seq<Record>): Summary {
    if rs == [] then EMPTY_SUMMARY else AddRecord(Fold(rs[..|rs| - 1]), rs[|rs| - 1])
  }

  /** The totals of a list of records, each over one field alone. */
  function SumOfIds(rs: seq<Record>): nat {
    if rs == [] then 0 else rs[0].id + SumOfIds(rs[1..])
  }

  function SumOfValues(rs: seq<Record>): nat {
    if rs == [] then 0 else rs[0].value + SumOfValues(rs[1..])
  }

  function Actives(rs: seq<Record>): set<nat> {
    set i | 0 <= i < |rs| && rs[i].active
  }

  function AllNames(rs: seq<Record>): string {
    if rs == [] then "" else rs[0].name + AllNames(rs[1..])
  }

  /** What a summary says about the records it was made from, counters and sums wrapping at 2^64. */
  predicate Summarizes(s: Summary, rs: seq<Record>) {
    && s.rows == |rs| % U64
    && s.idSum == SumOfIds(rs) % U64
    && s.valueSum == SumOfValues(rs) % U64
    && s.activeCount == |Actives(rs)| % U64
    && s.nameHash == Hash(FNV_OFFSET, AllNames(rs))
  }

  lemma {:induction false} TotalsSnoc(rs: seq<Record>, r: Record)
    ensures SumOfIds(rs + [r]) == SumOfIds(rs) + r.id
    ensures SumOfValues(rs + [r]) == SumOfValues(rs) + r.value
    ensures AllNames(rs + [r]) == AllNames(rs) + r.name
    decreases |rs|
  {
    if rs == [] {
      assert [r][1..] == [];
    } else {
      assert (rs + [r])[1..] == rs[1..] + [r];
      TotalsSnoc(rs[1..], r);
    }
  }

  lemma ActivesSnoc(rs: seq<Record>, r: Record)
    ensures |Actives(rs + [r])| == |Actives(rs)| + if r.active then 1 else 0
  {
    assert Actives(rs + [r]) == Actives(rs) + if r.active then {|rs|} else {};
  }

  lemma WrapAdd(a: nat, b: nat)
    ensures (a % U64 + b) % U64 == (a + b) % U64
  {
    assert a + b == U64 * (a / U64) + (a % U64 + b);
  }

  /** The running summary of any list of records is its totals, field by field. */
  lemma {:induction false} FoldSummarizes(rs: seq<Record>)
    ensures Summarizes(Fold(rs), rs)
    decreases |rs|
  {
    hide Hash;
    if rs == [] {
      assert Hash(FNV_OFFSET, "") == FNV_OFFSET by { HashNothing(FNV_OFFSET); }
    } else {
      var init, r := rs[..|rs| - 1], rs[|rs| - 1];
      assert rs == init + [r];
      FoldSummarizes(init);
      TotalsSnoc(init, r);
      ActivesSnoc(init, r);
      WrapAdd(|init|, 1);
      WrapAdd(SumOfIds(init), r.id);
      WrapAdd(SumOfValues(init), r.value);
      WrapAdd(|Actives(init)|, if r.active then 1 else 0);
      HashAppend(FNV_OFFSET, AllNames(init), r.name);
      hide SumOfIds, SumOfValues, Actives, AllNames;
    }
  }

  lemma HashNothing(hash: nat)
    ensures Hash(hash, "") == hash
  {
  }

  // ---------------------------------------------------------------- what the cursor does, on the text left

  function SkipSpace(s: string): string
    ensures |SkipSpace(s)| <= |s|
  {
    if s != "" && IsSpace(s[0]) then SkipSpace(s[1..]) else s
  }

  function TokenAt(s: string, token: string): (r: Option<string>)
    ensures r.Some? ==> |r.value| + |token| <= |s|
  {
    var t := SkipSpace(s);
    if token <= t then Some(t[|token|..]) else None
  }

  function NumberAt(s: string): (r: Option<(nat, string)>)
    ensures r.Some? ==> |r.value.1| < |s|
  {
    var t := SkipSpace(s);
    var digits := t[..DigitRun(t)];
    if digits != "" && NoLeadingZero(digits) && NumberOf(digits) < U64
    then Some((NumberOf(digits), t[|digits|..]))
    else None
  }

  /** The characters up to the closing quote, and the text after it. */
  function QuotedAt(s: string): (r: Option<(string, string)>)
    ensures r.Some? ==> |r.value.1| < |s|
  {
    if s == "" then None
    else if s[0] == '"' then Some(("", s[1..]))
    else if !IsNameChar(s[0]) then None
    else match QuotedAt(s[1..])
      case None => None
      case Some((name, rest)) => Some(([s[0]] + name, rest))
  }

  function NameAt(s: string): (r: Option<(string, string)>)
    ensures r.Some? ==> |r.value.1| < |s|
  {
    match TokenAt(s, "\"")
    case None => None
    case Some(t) => QuotedAt(t)
  }

  /** Three tokens: a separator, a quoted key and a colon. */
  function KeyAt(s: string, separator: string, key: string): (r: Option<string>)
    ensures r.Some? ==> |r.value| <= |s|
  {
    match TokenAt(s, separator)
    case None => None
    case Some(t) =>
      match TokenAt(t, key)
      case None => None
      case Some(u) => TokenAt(u, ":")
  }

  function BoolAt(s: string): (r: Option<(bool, string)>)
    ensures r.Some? ==> |r.value.1| <= |s|
  {
    match TokenAt(s, "true")
    case Some(t) => Some((true, t))
    case None =>
      match TokenAt(s, "false")
      case Some(t) => Some((false, t))
      case None => None
  }

  function NumberFieldAt(s: string, separator: string, key: string): (r: Option<(nat, string)>)
    ensures r.Some? ==> |r.value.1| < |s|
  {
    match KeyAt(s, separator, key)
    case None => None
    case Some(t) => NumberAt(t)
  }

  function BoolFieldAt(s: string, separator: string, key: string): (r: Option<(bool, string)>)
    ensures r.Some? ==> |r.value.1| <= |s|
  {
    match KeyAt(s, separator, key)
    case None => None
    case Some(t) => BoolAt(t)
  }

  function NameFieldAt(s: string, separator: string, key: string): (r: Option<(string, string)>)
    ensures r.Some? ==> |r.value.1| <= |s|
  {
    match KeyAt(s, separator, key)
    case None => None
    case Some(t) => NameAt(t)
  }

  function RecordAt(s: string): (r: Option<(Record, string)>)
    ensures r.Some? ==> |r.value.1| < |s|
  {
    match NumberFieldAt(s, "{", "\"id\"")
    case None => None
    case Some((id, t)) =>
      match NumberFieldAt(t, ",", "\"value\"")
      case None => None
      case Some((value, u)) =>
        match BoolFieldAt(u, ",", "\"active\"")
        case None => None
        case Some((active, v)) =>
          match NameFieldAt(v, ",", "\"name\"")
          case None => None
          case Some((name, w)) =>
            match TokenAt(w, "}")
            case None => None
            case Some(x) => Some((Record(id, value, active, name), x))
  }

  function RecordsAt(s: string): (r: Option<(seq<Record>, string)>)
    decreases |s|
  {
    match RecordAt(s)
    case None => None
    case Some((first, t)) =>
      match TokenAt(t, ",")
      case None => Some(([first], t))
      case Some(u) =>
        match RecordsAt(u)
        case None => None
        case Some((rest, v)) => Some(([first] + rest, v))
  }

  function ClosedAt(s: string): bool {
    match TokenAt(s, "]")
    case None => false
    case Some(t) => SkipSpace(t) == ""
  }

  /** The whole document: the records when it is accepted. */
  function DocumentAt(s: string): Option<seq<Record>> {
    match TokenAt(s, "[")
    case None => None
    case Some(t) =>
      if TokenAt(t, "]").Some? then
        if ClosedAt(t) then Some([]) else None
      else
        match RecordsAt(t)
        case None => None
        case Some((rs, u)) => if ClosedAt(u) then Some(rs) else None
  }

  /** The text opens with an empty array, whatever follows it. */
  predicate OpensEmpty(s: string) {
    TokenAt(s, "[").Some? && TokenAt(TokenAt(s, "[").value, "]").Some?
  }

  // ---------------------------------------------------------------- the cursor

  lemma {:induction false} SkipSpaceTwice(s: string)
    ensures SkipSpace(SkipSpace(s)) == SkipSpace(s)
  {
    if s != "" && IsSpace(s[0]) {
      SkipSpaceTwice(s[1..]);
    }
  }

  /** What is quoted, given that the first k characters belong to the name. */
  ghost function QuotedFrom(t: string, k: nat): Option<(string, string)>
    requires k <= |t|
  {
    match QuotedAt(t[k..])
    case None => None
    case Some((name, rest)) => Some((t[..k] + name, rest))
  }

  lemma QuotedFromStart(t: string)
    ensures QuotedFrom(t, 0) == QuotedAt(t)
  {
    assert t[0..] == t;
    if QuotedAt(t).Some? {
      assert t[..0] + QuotedAt(t).value.0 == QuotedAt(t).value.0;
    }
  }

  lemma QuotedStep(t: string, k: nat)
    requires k < |t| && t[k] != '"'
    ensures QuotedFrom(t, k) == if IsNameChar(t[k]) then QuotedFrom(t, k + 1) else None
  {
    assert t[k..][1..] == t[k + 1..];
    if IsNameChar(t[k]) && QuotedAt(t[k + 1..]).Some? {
      var name := QuotedAt(t[k + 1..]).value.0;
      assert t[..k] + ([t[k]] + name) == t[..k + 1] + name;
    }
  }

  lemma QuotedStop(t: string, k: nat)
    requires k <= |t| && (k == |t| || t[k] == '"')
    ensures QuotedFrom(t, k) == if k == |t| then None else Some((t[..k], t[k + 1..]))
  {
    if k < |t| {
      assert t[k..][1..] == t[k + 1..];
      assert t[..k] + "" == t[..k];
    }
  }

  lemma TokenAfterSpace(s: string, token: string)
    ensures TokenAt(SkipSpace(s), token) == TokenAt(s, token)
  {
    SkipSpaceTwice(s);
  }

  class Cursor {
    const input: string
    var at: nat

    ghost predicate Valid()
      reads this
    {
      at <= |input|
    }

    ghost function Rest(): string
      requires Valid()
      reads this
    {
      input[at..]
    }

    constructor (text: string)
      ensures Valid() && Rest() == text && input == text
    {
      input := text;
      at := 0;
    }

    method Space()
      requires Valid()
      modifies this
      ensures Valid() && Rest() == SkipSpace(old(Rest()))
    {
      while at < |input| && IsSpace(input[at])
        invariant Valid() && SkipSpace(Rest()) == SkipSpace(old(Rest()))
      {
        assert Rest()[1..] == input[at + 1..];
        at := at + 1;
      }
    }

    method Token(token: string) returns (ok: bool)
      requires Valid()
      modifies this
      ensures Valid()
      ensures ok == TokenAt(old(Rest()), token).Some?
      ensures Rest() == if ok then TokenAt(old(Rest()), token).value else SkipSpace(old(Rest()))
    {
      Space();
      if at + |token| > |input| || input[at..at + |token|] != token {
        return false;
      }
      assert token == Rest()[..|token|];
      assert Rest()[|token|..] == input[at + |token|..];
      at := at + |token|;
      return true;
    }

    method Number() returns (ok: bool, value: nat)
      requires Valid()
      modifies this
      ensures Valid()
      ensures ok == NumberAt(old(Rest())).Some?
      ensures ok ==> NumberAt(old(Rest())) == Some((value, Rest()))
    {
      hide SkipSpace, DigitRun, NumberOf;
      Space();
      ghost var text := Rest();
      ghost var run := DigitRun(text);
      var start := at;
      value := 0;
      NumberOfNothing(text[..0]);
      while at < |input| && IsDigit(input[at])
        invariant start <= at <= |input| && at - start <= run
        invariant value < U64 && value == NumberOf(text[..at - start])
      {
        assert text[at - start] == input[at];
        DigitStep(text, at - start);
        var digit := ValueOf(input[at]);
        at := at + 1;
        if value > (U64 - 1 - digit) / 10 {
          OverflowStays(text, at - start);
          return false, value;
        }
        value := value * 10 + digit;
      }
      assert at < |input| ==> !IsDigit(text[at - start]);
      if at - start < run {
        DigitStep(text, at - start);
      }
      assert text[run..] == input[at..];
      ok := at != start && !(at - start > 1 && input[start] == '0');
    }

    method Name(hash: nat) returns (ok: bool, result: nat)
      requires Valid()
      modifies this
      ensures Valid()
      ensures ok == NameAt(old(Rest())).Some?
      ensures ok ==> NameAt(old(Rest())).value.1 == Rest()
      ensures result == if ok then Hash(hash, NameAt(old(Rest())).value.0) else hash
    {
      hide TokenAt, QuotedAt, QuotedFrom, Hash;
      result := hash;
      ok := Token("\"");
      if !ok {
        return;
      }
      ghost var text := Rest();
      var start := at;
      QuotedFromStart(text);
      while at < |input| && input[at] != '"'
        invariant start <= at <= |input|
        invariant QuotedAt(text) == QuotedFrom(text, at - start)
      {
        assert input[at] == text[at - start];
        QuotedStep(text, at - start);
        at := at + 1;
        if !IsNameChar(input[at - 1]) {
          return false, hash;
        }
      }
      QuotedStop(text, at - start);
      if at == |input| {
        return false, hash;
      }
      assert input[start..at] == text[..at - start];
      result := ComputeHash(hash, input[start..at]);
      at := at + 1;
      assert input[at..] == text[at - start..];
    }

    method End() returns (ok: bool)
      requires Valid()
      modifies this
      ensures Valid()
      ensures ok == (SkipSpace(old(Rest())) == "")
    {
      Space();
      ok := at == |input|;
    }
  }


  method ReadKey(cursor: Cursor, separator: string, key: string) returns (ok: bool)
    requires cursor.Valid()
    modifies cursor
    ensures cursor.Valid()
    ensures ok == KeyAt(old(cursor.Rest()), separator, key).Some?
    ensures ok ==> KeyAt(old(cursor.Rest()), separator, key) == Some(cursor.Rest())
  {
    ok := cursor.Token(separator);
    if ok {
      ok := cursor.Token(key);
    }
    if ok {
      ok := cursor.Token(":");
    }
  }

  method ReadNumberField(cursor: Cursor, separator: string, key: string) returns (ok: bool, value: nat)
    requires cursor.Valid()
    modifies cursor
    ensures cursor.Valid()
    ensures ok == NumberFieldAt(old(cursor.Rest()), separator, key).Some?
    ensures ok ==> NumberFieldAt(old(cursor.Rest()), separator, key) == Some((value, cursor.Rest()))
  {
    value := 0;
    ok := ReadKey(cursor, separator, key);
    if ok {
      ok, value := cursor.Number();
    }
  }

  method ReadBool(cursor: Cursor) returns (ok: bool, value: bool)
    requires cursor.Valid()
    modifies cursor
    ensures cursor.Valid()
    ensures ok == BoolAt(old(cursor.Rest())).Some?
    ensures ok ==> BoolAt(old(cursor.Rest())) == Some((value, cursor.Rest()))
  {
    value := cursor.Token("true");
    ok := true;
    if !value {
      SkipSpaceTwice(old(cursor.Rest()));
      ok := cursor.Token("false");
    }
  }

  method ReadBoolField(cursor: Cursor, separator: string, key: string) returns (ok: bool, value: bool)
    requires cursor.Valid()
    modifies cursor
    ensures cursor.Valid()
    ensures ok == BoolFieldAt(old(cursor.Rest()), separator, key).Some?
    ensures ok ==> BoolFieldAt(old(cursor.Rest()), separator, key) == Some((value, cursor.Rest()))
  {
    value := false;
    ok := ReadKey(cursor, separator, key);
    if ok {
      ok, value := ReadBool(cursor);
    }
  }

  method ReadNameField(cursor: Cursor, separator: string, key: string, hash: nat)
    returns (ok: bool, result: nat, ghost name: string)
    requires cursor.Valid()
    modifies cursor
    ensures cursor.Valid()
    ensures ok == NameFieldAt(old(cursor.Rest()), separator, key).Some?
    ensures ok ==> NameFieldAt(old(cursor.Rest()), separator, key) == Some((name, cursor.Rest()))
    ensures ok ==> result == Hash(hash, name)
  {
    result, name := hash, "";
    ok := ReadKey(cursor, separator, key);
    if ok {
      ghost var quoted := NameAt(cursor.Rest());
      ok, result := cursor.Name(hash);
      if ok {
        name := quoted.value.0;
      }
    }
  }

  /** Reads one record, folding it into the running summary. */
  method ReadRecord(cursor: Cursor, summary: Summary) returns (ok: bool, result: Summary, ghost record: Record)
    requires cursor.Valid()
    modifies cursor
    ensures cursor.Valid()
    ensures ok == RecordAt(old(cursor.Rest())).Some?
    ensures ok ==> RecordAt(old(cursor.Rest())) == Some((record, cursor.Rest()))
    ensures ok ==> result == AddRecord(summary, record)
  {
    hide NumberFieldAt, BoolFieldAt, NameFieldAt, TokenAt, Hash;
    result, record := summary, Record(0, 0, false, "");
    var id, value, active, hash;
    ghost var name;
    ok, id := ReadNumberField(cursor, "{", "\"id\"");
    if !ok { return; }
    ok, value := ReadNumberField(cursor, ",", "\"value\"");
    if !ok { return; }
    ok, active := ReadBoolField(cursor, ",", "\"active\"");
    if !ok { return; }
    ok, hash, name := ReadNameField(cursor, ",", "\"name\"", summary.nameHash);
    if !ok { return; }
    ok := cursor.Token("}");
    record := Record(id, value, active, name);
    result := Summary((summary.rows + 1) % U64, (summary.idSum + id) % U64, (summary.valueSum + value) % U64,
                      (summary.activeCount + if active then 1 else 0) % U64, hash);
  }

  /** What the records are, given the ones already read and the text after them. */
  ghost function RecordsFrom(done: seq<Record>, s: string): Option<(seq<Record>, string)> {
    match RecordsAt(s)
    case None => None
    case Some((rs, rest)) => Some((done + rs, rest))
  }

  lemma RecordsFromStart(s: string)
    ensures RecordsFrom([], s) == RecordsAt(s)
  {
    if RecordsAt(s).Some? {
      assert [] + RecordsAt(s).value.0 == RecordsAt(s).value.0;
    }
  }

  lemma RecordsStep(done: seq<Record>, s: string)
    ensures RecordAt(s).None? ==> RecordsFrom(done, s).None?
    ensures RecordAt(s).Some? ==>
      var (r, t) := RecordAt(s).value;
      RecordsFrom(done, s) ==
        if TokenAt(t, ",").Some? then RecordsFrom(done + [r], TokenAt(t, ",").value) else Some((done + [r], t))
  {
    hide RecordAt, TokenAt;
    if RecordAt(s).Some? {
      var (r, t) := RecordAt(s).value;
      if TokenAt(t, ",").Some? {
        var u := TokenAt(t, ",").value;
        if RecordsAt(u).Some? {
          assert done + ([r] + RecordsAt(u).value.0) == done + [r] + RecordsAt(u).value.0;
        }
      }
    }
  }

  lemma FoldStep(done: seq<Record>, r: Record)
    ensures Fold(done + [r]) == AddRecord(Fold(done), r)
  {
    assert (done + [r])[..|done|] == done;
  }

  /** Reads the records up to the first one no comma follows. */
  method ReadRecords(cursor: Cursor) returns (ok: bool, parsed: Summary, ghost records: seq<Record>)
    requires cursor.Valid()
    modifies cursor
    ensures cursor.Valid()
    ensures ok == RecordsAt(old(cursor.Rest())).Some?
    ensures ok ==> RecordsAt(old(cursor.Rest())).value.0 == records
    ensures ok ==> cursor.Rest() == SkipSpace(RecordsAt(old(cursor.Rest())).value.1)
    ensures ok ==> parsed == Fold(records)
  {
    hide RecordAt, RecordsAt, RecordsFrom, AddRecord, TokenAt, SkipSpace;
    parsed, records := EMPTY_SUMMARY, [];
    ghost var text := cursor.Rest();
    RecordsFromStart(text);
    var more := true;
    while more
      invariant cursor.Valid()
      invariant parsed == Fold(records)
      invariant more ==> RecordsAt(text) == RecordsFrom(records, cursor.Rest())
      invariant !more ==> RecordsAt(text).Some? && RecordsAt(text).value.0 == records
      invariant !more ==> cursor.Rest() == SkipSpace(RecordsAt(text).value.1)
      decreases more, |cursor.Rest()|
    {
      RecordsStep(records, cursor.Rest());
      ghost var record;
      ok, parsed, record := ReadRecord(cursor, parsed);
      if !ok {
        return;
      }
      FoldStep(records, record);
      records := records + [record];
      more := cursor.Token(",");
    }
    ok := true;
  }

  lemma FoldNothing()
    ensures Fold([]) == EMPTY_SUMMARY
  {
  }

  /** The closing bracket, and nothing but whitespace after it. */
  method ReadClose(cursor: Cursor) returns (ok: bool)
    requires cursor.Valid()
    modifies cursor
    ensures cursor.Valid() && ok == ClosedAt(old(cursor.Rest()))
  {
    hide TokenAt, SkipSpace;
    ok := cursor.Token("]");
    if ok {
      ok := cursor.End();
    }
  }

  lemma ClosedAfterSpace(s: string)
    ensures ClosedAt(SkipSpace(s)) == ClosedAt(s)
  {
    hide TokenAt, SkipSpace;
    TokenAfterSpace(s, "]");
  }

  /** What is left after the opening bracket: at least one record, and the end of the document. */
  method ReadFilled(cursor: Cursor) returns (ok: bool, parsed: Summary)
    requires cursor.Valid()
    modifies cursor
    ensures cursor.Valid()
    ensures var r := RecordsAt(old(cursor.Rest()));
      ok == (r.Some? && ClosedAt(r.value.1)) && (ok ==> parsed == Fold(r.value.0))
  {
    hide RecordsAt, ClosedAt, SkipSpace, Fold;
    ghost var text := cursor.Rest();
    ghost var records;
    ok, parsed, records := ReadRecords(cursor);
    if ok {
      ClosedAfterSpace(RecordsAt(text).value.1);
      ok := ReadClose(cursor);
    }
  }

  /** On success the cell receives the fold. On failure it keeps its value, except that a text
      opening with an empty array has already overwritten it by the time the trailing garbage is seen. */
  method ParseApplicationJson(input: string, result: SummaryCell?) returns (ok: bool)
    modifies result
    ensures ok == (result != null && DocumentAt(input).Some?)
    ensures ok ==> result.value == Fold(DocumentAt(input).value)
    ensures ok ==> Summarizes(result.value, DocumentAt(input).value)
    ensures result != null && !ok ==> result.value == if OpensEmpty(input) then EMPTY_SUMMARY else old(result.value)
  {
    hide RecordsAt, TokenAt, SkipSpace, Fold, Summarizes;
    if result == null {
      return false;
    }
    FoldNothing();
    var cursor := new Cursor(input);
    ok := cursor.Token("[");
    if !ok {
      return;
    }
    ghost var text := cursor.Rest();
    var empty := cursor.Token("]");
    if empty {
      result.value := EMPTY_SUMMARY;
      ok := cursor.End();
      FoldSummarizes([]);
      return;
    }
    RecordsAfterSpace(text);
    var parsed;
    ok, parsed := ReadFilled(cursor);
    if ok {
      result.value := parsed;
      FoldSummarizes(DocumentAt(input).value);
    }
  }

  lemma RecordsAfterSpace(s: string)
    ensures RecordsAt(SkipSpace(s)) == RecordsAt(s)
  {
    hide SkipSpace, TokenAt;
    TokenAfterSpace(s, "{");
    assert KeyAt(SkipSpace(s), "{", "\"id\"") == KeyAt(s, "{", "\"id\"");
    assert RecordAt(SkipSpace(s)) == RecordAt(s);
  }
}
