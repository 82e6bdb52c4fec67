/**
  The inverted index: for every q-gram, the list of the IDs of the records
  it occurs in, one entry per occurrence. Records are numbered 1, 2, ... in
  the order of the lines they come from.
 */
module Index {
  import opened Text
  import opened Qgrams
  import opened Lists

  type InvertedLists = map<string, seq<int>>

  /** The posting list of `g`; a q-gram without an entry has the empty list. */
  function PostingList(lists: InvertedLists, g: string): seq<int> {
    if g in lists then lists[g] else []
  }

  /** One q-gram occurrence in record `id`: an empty q-gram is skipped, otherwise `id` is appended to its list. */
  function Insert(lists: InvertedLists, id: int, g: string): InvertedLists {
    if |g| > 0 then lists[g := PostingList(lists, g) + [id]] else lists
  }

  /** All q-gram occurrences of one record, in order. */
  function AddRecord(lists: InvertedLists, id: int, grams: seq<string>): (r: InvertedLists)
    ensures lists.Keys <= r.Keys
    ensures forall g :: g in lists ==> lists[g] <= r[g]
    decreases |grams|
  {
    if grams == [] then lists
    else Insert(AddRecord(lists, id, grams[..|grams| - 1]), id, grams[|grams| - 1])
  }

  function RecordQgrams(line: string, q: nat): seq<string> {
    QgramsOf(Normalize(line), q)
  }

  /** The lists after reading `lines` on top of `lists`; the IDs start again at 1. */
  function Extend(lists: InvertedLists, lines: seq<string>, q: nat): (r: InvertedLists)
    ensures lists.Keys <= r.Keys
    ensures forall g :: g in lists ==> lists[g] <= r[g]
    decreases |lines|
  {
    if lines == [] then lists
    else AddRecord(Extend(lists, lines[..|lines| - 1], q), |lines|, RecordQgrams(lines[|lines| - 1], q))
  }

  /** The index built from `lines` by a fresh QgramIndex. */
  function BuildIndex(lines: seq<string>, q: nat): InvertedLists {
    Extend(map[], lines, q)
  }

  /** How often `g` occurs among a record's q-grams; empty q-grams are never indexed. */
  function Occurrences(line: string, q: nat, g: string): nat {
    if |g| > 0 then multiset(RecordQgrams(line, q))[g] else 0
  }

  /** How often `g` occurs in each record, in record order. */
  function OccurrenceCounts(lines: seq<string>, q: nat, g: string): (c: seq<nat>)
    ensures |c| == |lines| && forall r :: 0 <= r < |lines| ==> c[r] == Occurrences(lines[r], q, g)
    decreases |lines|
  {
    if lines == [] then []
    else OccurrenceCounts(lines[..|lines| - 1], q, g) + [Occurrences(lines[|lines| - 1], q, g)]
  }

  /** Reference definition of a posting list: each record's ID, in record order, once per occurrence of `g` in it. */
  function ExpectedPostings(lines: seq<string>, q: nat, g: string): seq<int> {
    Expand(OccurrenceCounts(lines, q, g))
  }

  lemma {:induction false} AddRecordPostings(lists: InvertedLists, id: int, grams: seq<string>, g: string)
    ensures PostingList(AddRecord(lists, id, grams), g)
         == PostingList(lists, g) + Repeat(id, if |g| > 0 then multiset(grams)[g] else 0)
    decreases |grams|
  {
    if grams != [] {
      var init, last := grams[..|grams| - 1], grams[|grams| - 1];
      AddRecordPostings(lists, id, init, g);
      CountSnoc(init, last, g);
      assert grams == init + [last];
      var n := if |g| > 0 then multiset(init)[g] else 0;
      if |last| > 0 && last == g {
        assert Repeat(id, n) + [id] == Repeat(id, n + 1);
        AppendAssociative(PostingList(lists, g), Repeat(id, n), [id]);
      }
    }
  }

  /** Appending a q-gram adds one to its own count and leaves the other counts alone. */
  lemma CountSnoc(grams: seq<string>, last: string, g: string)
    ensures multiset(grams + [last])[g] == multiset(grams)[g] + if last == g then 1 else 0
  {
    assert multiset(grams + [last]) == multiset(grams) + multiset{last};
  }

  lemma {:induction false} AddRecordKeys(lists: InvertedLists, id: int, grams: seq<string>, g: string)
    ensures g in AddRecord(lists, id, grams) <==> g in lists || (|g| > 0 && g in grams)
    decreases |grams|
  {
    if grams != [] {
      var init, last := grams[..|grams| - 1], grams[|grams| - 1];
      assert grams == init + [last];
      AddRecordKeys(lists, id, init, g);
    }
  }

  lemma {:induction false} ExtendPostings(lists: InvertedLists, lines: seq<string>, q: nat, g: string)
    ensures PostingList(Extend(lists, lines, q), g) == PostingList(lists, g) + ExpectedPostings(lines, q, g)
    decreases |lines|
  {
    if lines != [] {
      var n := |lines|;
      var init := lines[..n - 1];
      var tail := Repeat(n, Occurrences(lines[n - 1], q, g));
      ExtendPostings(lists, init, q, g);
      ExtendSnoc(lists, lines, q, g);
      ExpectedPostingsSnoc(lines, q, g);
      AppendAssociative(PostingList(lists, g), ExpectedPostings(init, q, g), tail);
    }
  }

  /** Reading one more line appends the new record's ID to g's list once per occurrence of g in it. */
  lemma ExtendSnoc(lists: InvertedLists, lines: seq<string>, q: nat, g: string)
    requires lines != []
    ensures PostingList(Extend(lists, lines, q), g)
         == PostingList(Extend(lists, lines[..|lines| - 1], q), g) + Repeat(|lines|, Occurrences(lines[|lines| - 1], q, g))
  {
    AddRecordPostings(Extend(lists, lines[..|lines| - 1], q), |lines|, RecordQgrams(lines[|lines| - 1], q), g);
  }

  lemma {:induction false} ExtendKeys(lists: InvertedLists, lines: seq<string>, q: nat, g: string)
    ensures g in Extend(lists, lines, q) <==> g in lists || ExpectedPostings(lines, q, g) != []
    decreases |lines|
  {
    if lines != [] {
      var n := |lines|;
      var init := lines[..n - 1];
      var grams := RecordQgrams(lines[n - 1], q);
      ExtendKeys(lists, init, q, g);
      AddRecordKeys(Extend(lists, init, q), n, grams, g);
      ExpectedPostingsSnoc(lines, q, g);
      if |g| > 0 && g in grams {
        assert multiset(grams)[g] > 0;
      }
    }
  }

  /** The reference list of some lines is that of all but the last, followed by the last record's ID once per occurrence. */
  lemma ExpectedPostingsSnoc(lines: seq<string>, q: nat, g: string)
    requires lines != []
    ensures ExpectedPostings(lines, q, g)
         == ExpectedPostings(lines[..|lines| - 1], q, g) + Repeat(|lines|, Occurrences(lines[|lines| - 1], q, g))
  {
    var init := lines[..|lines| - 1];
    var k := Occurrences(lines[|lines| - 1], q, g);
    assert OccurrenceCounts(lines, q, g) == OccurrenceCounts(init, q, g) + [k];
    ExpandSnoc(OccurrenceCounts(init, q, g), k);
  }

  lemma ExpectedPostingsSorted(lines: seq<string>, q: nat, g: string)
    ensures Sorted(ExpectedPostings(lines, q, g))
    ensures forall x :: x in ExpectedPostings(lines, q, g) ==> 1 <= x <= |lines|
  {
    ExpandSorted(OccurrenceCounts(lines, q, g));
  }

  lemma ExpectedPostingsCount(lines: seq<string>, q: nat, g: string, r: int)
    ensures multiset(ExpectedPostings(lines, q, g))[r]
         == if 1 <= r <= |lines| then Occurrences(lines[r - 1], q, g) else 0
  {
    ExpandCount(OccurrenceCounts(lines, q, g), r);
  }

  lemma ExpectedPostingsNonEmpty(lines: seq<string>, q: nat, g: string)
    ensures ExpectedPostings(lines, q, g) != [] <==> exists r :: 0 <= r < |lines| && Occurrences(lines[r], q, g) > 0
  {
    var counts := OccurrenceCounts(lines, q, g);
    ExpandNonEmpty(counts);
    if exists r :: 0 <= r < |lines| && Occurrences(lines[r], q, g) > 0 {
      var r :| 0 <= r < |lines| && Occurrences(lines[r], q, g) > 0;
      assert counts[r] > 0;
    }
  }

  /** A built posting list is exactly the reference list. */
  lemma BuildIndexPostings(lines: seq<string>, q: nat, g: string)
    ensures PostingList(BuildIndex(lines, q), g) == ExpectedPostings(lines, q, g)
  {
    ExtendPostings(map[], lines, q, g);
  }

  /** Every posting list of a built index is in non-decreasing order and holds only IDs 1..N. */
  lemma BuildIndexSorted(lines: seq<string>, q: nat, g: string)
    requires g in BuildIndex(lines, q)
    ensures Sorted(BuildIndex(lines, q)[g])
    ensures forall x :: x in BuildIndex(lines, q)[g] ==> 1 <= x <= |lines|
  {
    BuildIndexPostings(lines, q, g);
    ExpectedPostingsSorted(lines, q, g);
  }

  /** Record r occurs in the list of g exactly as often as g occurs among r's q-grams: no deduplication. */
  lemma BuildIndexCounts(lines: seq<string>, q: nat, g: string, r: int)
    requires 1 <= r <= |lines| && |g| > 0
    ensures multiset(PostingList(BuildIndex(lines, q), g))[r] == multiset(RecordQgrams(lines[r - 1], q))[g]
  {
    BuildIndexPostings(lines, q, g);
    ExpectedPostingsCount(lines, q, g, r);
  }

  /** A q-gram has a (non-empty) list exactly when it is non-empty and occurs in some record. */
  lemma BuildIndexKeys(lines: seq<string>, q: nat, g: string)
    ensures g in BuildIndex(lines, q) <==> |g| > 0 && exists r :: 0 <= r < |lines| && g in RecordQgrams(lines[r], q)
    ensures g in BuildIndex(lines, q) ==> BuildIndex(lines, q)[g] != []
  {
    ExtendPostings(map[], lines, q, g);
    ExtendKeys(map[], lines, q, g);
    ExpectedPostingsNonEmpty(lines, q, g);
    if |g| > 0 && exists r :: 0 <= r < |lines| && g in RecordQgrams(lines[r], q) {
      var r :| 0 <= r < |lines| && g in RecordQgrams(lines[r], q);
      assert Occurrences(lines[r], q, g) > 0;
    }
  }

  /** The lists after the first record of the source's documented example, "bana". */
  lemma AddRecordBana()
    ensures AddRecord(map[], 1, ["$$b", "$ba", "ban", "ana", "na$", "a$$"]) == map["$$b" := [1], "$ba" := [1], "ban" := [1], "ana" := [1], "na$" := [1], "a$$" := [1]]
  {
    var grams := ["$$b", "$ba", "ban", "ana", "na$", "a$$"];
    assert grams[..0] == [];
    assert grams[..1][..0] == grams[..0];
    assert PostingList(map[], "$$b") + [1] == [1];
    assert AddRecord(map[], 1, grams[..1]) == map["$$b" := [1]];
    assert grams[..2][..1] == grams[..1];
    assert PostingList(map["$$b" := [1]], "$ba") + [1] == [1];
    assert AddRecord(map[], 1, grams[..2]) == map["$$b" := [1], "$ba" := [1]];
    assert grams[..3][..2] == grams[..2];
    assert PostingList(map["$$b" := [1], "$ba" := [1]], "ban") + [1] == [1];
    assert AddRecord(map[], 1, grams[..3]) == map["$$b" := [1], "$ba" := [1], "ban" := [1]];
    assert grams[..4][..3] == grams[..3];
    assert PostingList(map["$$b" := [1], "$ba" := [1], "ban" := [1]], "ana") + [1] == [1];
    assert AddRecord(map[], 1, grams[..4]) == map["$$b" := [1], "$ba" := [1], "ban" := [1], "ana" := [1]];
    assert grams[..5][..4] == grams[..4];
    assert PostingList(map["$$b" := [1], "$ba" := [1], "ban" := [1], "ana" := [1]], "na$") + [1] == [1];
    assert AddRecord(map[], 1, grams[..5]) == map["$$b" := [1], "$ba" := [1], "ban" := [1], "ana" := [1], "na$" := [1]];
    assert grams[..6][..5] == grams[..5];
    assert PostingList(map["$$b" := [1], "$ba" := [1], "ban" := [1], "ana" := [1], "na$" := [1]], "a$$") + [1] == [1];
    assert AddRecord(map[], 1, grams[..6]) == map["$$b" := [1], "$ba" := [1], "ban" := [1], "ana" := [1], "na$" := [1], "a$$" := [1]];
    assert grams[..6] == grams;
  }

  /** The first three q-grams of record 2, "ana". */
  lemma AddRecordAnaHead(grams: seq<string>)
    requires grams == ["$$a", "$an", "ana", "na$", "a$$"]
    ensures AddRecord(map["$$b" := [1], "$ba" := [1], "ban" := [1], "ana" := [1], "na$" := [1], "a$$" := [1]], 2, grams[..3]) == map["$$b" := [1], "$ba" := [1], "ban" := [1], "ana" := [1, 2], "na$" := [1], "a$$" := [1], "$$a" := [2], "$an" := [2]]
  {
    assert grams[..0] == [];
    assert grams[..1][..0] == grams[..0];
    assert PostingList(map["$$b" := [1], "$ba" := [1], "ban" := [1], "ana" := [1], "na$" := [1], "a$$" := [1]], "$$a") + [2] == [2];
    assert AddRecord(map["$$b" := [1], "$ba" := [1], "ban" := [1], "ana" := [1], "na$" := [1], "a$$" := [1]], 2, grams[..1]) == map["$$b" := [1], "$ba" := [1], "ban" := [1], "ana" := [1], "na$" := [1], "a$$" := [1], "$$a" := [2]];
    assert grams[..2][..1] == grams[..1];
    assert PostingList(map["$$b" := [1], "$ba" := [1], "ban" := [1], "ana" := [1], "na$" := [1], "a$$" := [1], "$$a" := [2]], "$an") + [2] == [2];
    assert AddRecord(map["$$b" := [1], "$ba" := [1], "ban" := [1], "ana" := [1], "na$" := [1], "a$$" := [1]], 2, grams[..2]) == map["$$b" := [1], "$ba" := [1], "ban" := [1], "ana" := [1], "na$" := [1], "a$$" := [1], "$$a" := [2], "$an" := [2]];
    assert grams[..3][..2] == grams[..2];
    assert PostingList(map["$$b" := [1], "$ba" := [1], "ban" := [1], "ana" := [1], "na$" := [1], "a$$" := [1], "$$a" := [2], "$an" := [2]], "ana") + [2] == [1, 2];
  }

  lemma AddRecordAnaMiddle(grams: seq<string>)
    requires grams == ["$$a", "$an", "ana", "na$", "a$$"]
    ensures AddRecord(map["$$b" := [1], "$ba" := [1], "ban" := [1], "ana" := [1], "na$" := [1], "a$$" := [1]], 2, grams[..4]) == map["$$b" := [1], "$ba" := [1], "ban" := [1], "ana" := [1, 2], "na$" := [1, 2], "a$$" := [1], "$$a" := [2], "$an" := [2]]
  {
    AddRecordAnaHead(grams);
    assert grams[..4][..3] == grams[..3];
    assert PostingList(map["$$b" := [1], "$ba" := [1], "ban" := [1], "ana" := [1, 2], "na$" := [1], "a$$" := [1], "$$a" := [2], "$an" := [2]], "na$") + [2] == [1, 2];
  }

  /** The lists after the second record of the example, "ana". */
  lemma AddRecordAna()
    ensures AddRecord(map["$$b" := [1], "$ba" := [1], "ban" := [1], "ana" := [1], "na$" := [1], "a$$" := [1]], 2, ["$$a", "$an", "ana", "na$", "a$$"]) == map["$$b" := [1], "$ba" := [1], "ban" := [1], "ana" := [1, 2], "na$" := [1, 2], "a$$" := [1, 2], "$$a" := [2], "$an" := [2]]
  {
    var grams := ["$$a", "$an", "ana", "na$", "a$$"];
    AddRecordAnaMiddle(grams);
    assert grams[..5][..4] == grams[..4];
    assert PostingList(map["$$b" := [1], "$ba" := [1], "ban" := [1], "ana" := [1, 2], "na$" := [1, 2], "a$$" := [1], "$$a" := [2], "$an" := [2]], "a$$") + [2] == [1, 2];
    assert AddRecord(map["$$b" := [1], "$ba" := [1], "ban" := [1], "ana" := [1], "na$" := [1], "a$$" := [1]], 2, grams[..5]) == map["$$b" := [1], "$ba" := [1], "ban" := [1], "ana" := [1, 2], "na$" := [1, 2], "a$$" := [1, 2], "$$a" := [2], "$an" := [2]];
    assert grams[..5] == grams;
  }

  /** The example of the source's documentation: a file holding the records "bana" and "ana". */
  lemma BuildIndexBanaAna()
    ensures BuildIndex(["bana\n", "ana\n"], 3) == map["$$b" := [1], "$ba" := [1], "ban" := [1], "ana" := [1, 2], "na$" := [1, 2], "a$$" := [1, 2], "$$a" := [2], "$an" := [2]]
  {
    var lines := ["bana\n", "ana\n"];
    assert Normalize(lines[0]) == "bana";
    assert Normalize(lines[1]) == "ana";
    QgramsBana();
    var padded := Padded("ana", 3);
    assert padded == "$$ana$$";
    var grams := QgramsOf("ana", 3);
    assert grams[0] == padded[0..3] == "$$a";
    assert grams[1] == padded[1..4] == "$an";
    assert grams[2] == padded[2..5] == "ana";
    assert grams[3] == padded[3..6] == "na$";
    assert grams[4] == padded[4..7] == "a$$";
    assert grams == ["$$a", "$an", "ana", "na$", "a$$"];
    var first := lines[..1];
    assert first[..0] == [];
    assert RecordQgrams(first[0], 3) == QgramsOf("bana", 3);
    AddRecordBana();
    AddRecordAna();
    assert Extend(map[], first, 3) == map["$$b" := [1], "$ba" := [1], "ban" := [1], "ana" := [1], "na$" := [1], "a$$" := [1]];
    assert RecordQgrams(lines[1], 3) == grams;
  }

  class QgramIndex {
    var invertedLists: InvertedLists
    const q: nat

    /** An empty index for q-grams of length q. */
    constructor (q: nat)
      ensures this.q == q && invertedLists == map[]
    {
      this.q := q;
      invertedLists := map[];
    }

    /** The q-grams of `record`, collected window by window. */
    method Qgrams(record: string) returns (grams: seq<string>)
      ensures grams == QgramsOf(record, q)
    {
      grams := [];
      var pad := Padding(q);
      var padded := pad + record + pad;
      var i := 0;
      while i < |padded| - q + 1
        invariant 0 <= i <= |padded| - q + 1
        invariant grams == QgramsOf(record, q)[..i]
      {
        grams := grams + [padded[i..i + q]];
        i := i + 1;
      }
    }

    /** Reads one record per line, numbering the records 1, 2, ... and appending each ID to the lists of its q-grams. */
    method ReadFromLines(lines: seq<string>)
      modifies this
      ensures invertedLists == Extend(old(invertedLists), lines, q)
    {
      var recordId := 0;
      while recordId < |lines|
        invariant 0 <= recordId <= |lines|
        invariant invertedLists == Extend(old(invertedLists), lines[..recordId], q)
      {
        recordId := recordId + 1;
        var record := Normalize(lines[recordId - 1]);
        var grams := Qgrams(record);
        AddQgrams(recordId, grams);
        ghost var done := lines[..recordId];
        assert done[..recordId - 1] == lines[..recordId - 1];
        assert Extend(old(invertedLists), done, q)
            == AddRecord(Extend(old(invertedLists), done[..recordId - 1], q), recordId, RecordQgrams(done[recordId - 1], q));
      }
      assert lines[..recordId] == lines;
    }

    /** The inner loop of ReadFromLines: appends `recordId` to the list of each non-empty q-gram, creating missing lists. */
    method AddQgrams(recordId: int, grams: seq<string>)
      modifies this
      ensures invertedLists == AddRecord(old(invertedLists), recordId, grams)
    {
      var k := 0;
      while k < |grams|
        invariant 0 <= k <= |grams|
        invariant invertedLists == AddRecord(old(invertedLists), recordId, grams[..k])
      {
        ghost var current := invertedLists;
        var qgram := grams[k];
        if |qgram| > 0 {
          if qgram !in invertedLists {
            invertedLists := invertedLists[qgram := []];
          }
          assert invertedLists[qgram] == PostingList(current, qgram);
          invertedLists := invertedLists[qgram := invertedLists[qgram] + [recordId]];
          assert invertedLists == current[qgram := PostingList(current, qgram) + [recordId]];
        }
        assert grams[..k + 1][..k] == grams[..k];
        k := k + 1;
      }
      assert grams[..k] == grams;
    }
  }
}
