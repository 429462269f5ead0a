/** One worker's workload: its corpus, the timed batch and the validation after it
    (cpu_application_workload.cpp, CpuApplicationWorkload). */
module ApplicationWorkload {
  import opened Common
  import opened ApplicationJson
  import opened JsonCorpus
  import opened RadixSort
  import opened Sobel

  datatype Test = Sort | Json | Filter

  /** The sort's keys: the generator's words, with both ends of the range and a duplicate put in. */
  ghost predicate AreKeys(keys: seq<nat>) {
    && |keys| >= 4 && keys[0] == 0 && keys[1] == 0xFFFF_FFFF && keys[2] == keys[3]
    && forall i | 3 <= i < |keys| :: keys[i] == RandomAfter(i + 1) as nat
  }

  /** The image: a slope with the generator's three lowest bits on top, a draw for each pixel in row order. */
  ghost predicate IsSlope(image: seq<Byte>, side: nat) {
    && |image| == side * side
    && forall x, y | 0 <= x < side && 0 <= y < side ::
         PixelAt(image, side, side, x, y) == (3 * x + 5 * y + (RandomAfter(y * side + x + 1) & 7) as nat) % 256
  }

  /** The same with pixels numbered. */
  function Pixel(side: nat, i: nat): Byte
    requires side > 0
  {
    (3 * (i % side) + 5 * (i / side) + (RandomAfter(i + 1) & 7) as nat) % 256
  }

  method GenerateKeys(count: nat) returns (keys: seq<nat>)
    requires count >= 4
    ensures |keys| == count && AllWords(keys) && AreKeys(keys)
  {
    hide NextRandom, RandomAfter;
    CorpusStart();
    var random := SEED;
    keys := [];
    for i := 0 to count
      invariant |keys| == i && random == RandomAfter(i)
      invariant forall k | 0 <= k < i :: keys[k] == RandomAfter(k + 1) as nat
    {
      RandomStep(i);
      random := NextRandom(random);
      keys := keys + [random as nat];
    }
    keys := keys[0 := 0][1 := U32 - 1];
    keys := keys[2 := keys[3]];
  }

  method GenerateImage(side: nat) returns (image: array<Byte>)
    ensures fresh(image) && image.Length == side * side && IsSlope(image[..], side)
  {
    hide NextRandom, RandomAfter, IsSlope, Pixel;
    CorpusStart();
    var random := SEED;
    image := new Byte[side * side](_ => 0);
    for y := 0 to side
      invariant 0 <= y * side <= image.Length && random == RandomAfter(y * side)
      invariant forall i | 0 <= i < y * side :: image[i] == Pixel(side, i)
    {
      RowInside(side, side, y);
      ghost var row := y * side;
      for x := 0 to side
        invariant random == RandomAfter(row + x) && forall i | 0 <= i < row + x :: image[i] == Pixel(side, i)
      {
        RandomStep(row + x);
        random := NextRandom(random);
        PixelInRow(side, y, x, random);
        image[y * side + x] := (3 * x + 5 * y + (random & 7) as nat) % 256;
      }
    }
    SlopeByPixels(image[..], side);
  }

  lemma SlopeByPixels(image: seq<Byte>, side: nat)
    requires |image| == side * side && (side > 0 ==> forall i | 0 <= i < side * side :: image[i] == Pixel(side, i))
    ensures IsSlope(image, side)
  {
    hide NextRandom, RandomAfter;
    forall x, y | 0 <= x < side && 0 <= y < side
      ensures PixelAt(image, side, side, x, y) == (3 * x + 5 * y + (RandomAfter(y * side + x + 1) & 7) as nat) % 256
    {
      RowInside(side, side, y);
      PlaceInRow(side, y, x);
      assert image[y * side + x] == Pixel(side, y * side + x);
    }
  }

  lemma PixelInRow(side: nat, y: nat, x: nat, random: bv32)
    requires x < side && random == RandomAfter(y * side + x + 1)
    ensures Pixel(side, y * side + x) == (3 * x + 5 * y + (random & 7) as nat) % 256
  {
    hide RandomAfter;
    PlaceInRow(side, y, x);
  }

  lemma PlaceInRow(side: nat, y: nat, x: nat)
    requires x < side
    ensures (y * side + x) % side == x && (y * side + x) / side == y
  {
    DivideBack(y, side, x);
  }

  /** std::sort on the keys. */
  method StdSort(keys: seq<nat>) returns (r: seq<nat>)
    ensures Sorted(r) && multiset(r) == multiset(keys)
  {
    r := [];
    for i := 0 to |keys|
      invariant Sorted(r) && multiset(r) == multiset(keys[..i])
    {
      assert keys[..i + 1] == keys[..i] + [keys[i]];
      r := InsertKey(r, keys[i]);
    }
    assert keys[..|keys|] == keys;
  }

  method InsertKey(s: seq<nat>, key: nat) returns (r: seq<nat>)
    requires Sorted(s)
    ensures Sorted(r) && multiset(r) == multiset(s) + multiset{key}
  {
    hide Sorted;
    var at := 0;
    while at < |s| && s[at] <= key
      invariant at <= |s| && forall i | 0 <= i < at :: s[i] <= key
    {
      at := at + 1;
    }
    InsertedSorted(s, at, key);
    r := s[..at] + [key] + s[at..];
    assert s == s[..at] + s[at..];
  }

  lemma InsertedSorted(s: seq<nat>, at: nat, key: nat)
    requires Sorted(s) && at <= |s|
    requires (forall i | 0 <= i < at :: s[i] <= key) && (at < |s| ==> key < s[at])
    ensures Sorted(s[..at] + [key] + s[at..])
  {
    var r := s[..at] + [key] + s[at..];
    forall i, j | 0 <= i < j < |r| ensures r[i] <= r[j] {
      assert r[i] == if i < at then s[i] else if i == at then key else s[i - 1];
      assert r[j] == if j < at then s[j] else if j == at then key else s[j - 1];
    }
  }

  class Workload {
    const test: Test
    const keys: seq<nat>
    const referenceKeys: seq<nat>
    var sorted: seq<nat>
    const rows: nat
    const json: string
    const referenceJson: Summary
    const parsed: SummaryCell
    var parseValid: bool
    const side: nat
    const image: array<Byte>
    const filtered: array<Byte>
    const referenceImage: seq<Byte>

    /** Inputs and references of one worker; sizes beyond those of the chosen test are not used. */
    constructor (test: Test, count: nat, rows: nat, side: nat)
      requires count >= 4 && rows <= U32 && 3 <= side <= 65536
      ensures Valid() && this.test == test && fresh(parsed) && fresh(image) && fresh(filtered)
      ensures |keys| == count && AreKeys(keys)
      ensures json == PrintDocument(Corpus(rows)) && this.rows == rows
      ensures this.side == side && IsSlope(image[..], side)
      ensures test != Filter ==> !Validates()
    {
      hide PrintDocument, Corpus, Fold, DocumentAt, SobelImage, Pixel, Sorted, AllWords, IsFiltered, IsSlope;
      this.test, this.rows, this.side := test, rows, side;
      var generated := GenerateKeys(count);
      keys := generated;
      var reference := ReferenceSort(generated);
      referenceKeys, sorted := reference, seq(count, _ => 0);
      var text, summary := BuildJsonCorpus(rows);
      json, referenceJson, parseValid := text, summary, false;
      parsed := new SummaryCell();
      var picture := GenerateImage(side);
      var expected := ReferenceSobel(picture, side);
      image, referenceImage := picture, expected[..];
      filtered := new Byte[side * side](_ => 0);
      new;
      assert 0xFFFF_FFFF in multiset(keys) && forall k | k in sorted :: k == 0;
      assert 0xFFFF_FFFF in multiset(referenceKeys);
    }

    ghost predicate Valid()
      reads this, image
    {
      && Sorted(referenceKeys) && multiset(referenceKeys) == multiset(keys)
      && DocumentAt(json) == Some(Corpus(rows)) && Summarizes(referenceJson, Corpus(rows))
      && side >= 3 && image != filtered && image.Length == filtered.Length == side * side
      && IsFiltered(referenceImage, image[..], side, side)
    }

    function UnitsPerBatch(): nat {
      match test
      case Sort => |keys|
      case Json => |json|
      case Filter => image.Length
    }

    /** One pass over the unchanged input, which leaves an output that validates. */
    method RunBatch() returns (units: nat)
      requires Valid()
      modifies this, parsed, filtered
      ensures Valid() && image[..] == old(image[..])
      ensures Validates()
      ensures test == Sort ==> units == |keys|
      ensures test == Json ==> units == |json|
      ensures test == Filter ==> units == side * side
      ensures test != Sort ==> sorted == old(sorted)
      ensures test != Json ==> parseValid == old(parseValid) && parsed.value == old(parsed.value)
      ensures test != Filter ==> filtered[..] == old(filtered[..])
    {
      hide Corpus, Fold, DocumentAt, SobelImage, Sorted, Summarizes, IsFiltered;
      match test {
        case Sort =>
          sorted := keys;
          sorted := StdSort(sorted);
          OracleDecidesSorting(keys, sorted, referenceKeys);
        case Json =>
          parseValid := ParseApplicationJson(json, parsed);
          OneSummary(parsed.value, referenceJson, Corpus(rows));
        case Filter =>
          var ok := ApplicationSobel(image, side, side, filtered);
          OneImage(filtered[..], referenceImage, image[..], side);
      }
      units := UnitsPerBatch();
    }

    predicate Validates()
      reads this, parsed, filtered
    {
      match test
      case Sort => sorted == referenceKeys
      case Json => parseValid && parsed.value == referenceJson
      case Filter => filtered[..] == referenceImage
    }

    /** What the output is meant to be, without the references. */
    ghost predicate Correct()
      requires Valid()
      reads this, parsed, image, filtered
    {
      match test
      case Sort => Sorted(sorted) && multiset(sorted) == multiset(keys)
      case Json => parseValid && Summarizes(parsed.value, Corpus(rows))
      case Filter => IsFiltered(filtered[..], image[..], side, side)
    }

    /** Validation accepts exactly the correct outputs. */
    lemma ValidatesExactlyTheCorrect()
      requires Valid()
      ensures Validates() <==> Correct()
    {
      hide Corpus, Fold, DocumentAt, Sorted, Summarizes, IsFiltered;
      match test {
        case Sort =>
          OracleDecidesSorting(keys, sorted, referenceKeys);
        case Json =>
          if Summarizes(parsed.value, Corpus(rows)) {
            OneSummary(parsed.value, referenceJson, Corpus(rows));
          }
        case Filter =>
          if IsFiltered(filtered[..], image[..], side, side) {
            OneImage(filtered[..], referenceImage, image[..], side);
          }
      }
    }
  }

  lemma OneSummary(a: Summary, b: Summary, rs: seq<Record>)
    requires Summarizes(a, rs) && Summarizes(b, rs)
    ensures a == b
  {
  }

  lemma OneImage(a: seq<Byte>, b: seq<Byte>, image: seq<Byte>, side: nat)
    requires |image| == side * side && IsFiltered(a, image, side, side) && IsFiltered(b, image, side, side)
    ensures a == b
  {
    FilteredExactly(a, image, side, side);
    FilteredExactly(b, image, side, side);
  }
}
