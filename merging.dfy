/**
  Merging the posting lists of a query's q-grams into (record ID, count)
  pairs: the lists are merged two at a time into one running list, whose
  equal IDs are then counted.
 */
module Merging {
  import opened Lists

  /** A record ID with the number of its occurrences across the merged lists. */
  type Pair = (int, nat)

  /** One two-list merge step: repeatedly take the smaller head; on a tie the head of `b` goes first. */
  function MergeSpec(a: seq<int>, b: seq<int>): seq<int>
    decreases |a| + |b|
  {
    if a == [] then b
    else if b == [] then a
    else if a[0] < b[0] then [a[0]] + MergeSpec(a[1..], b)
    else [b[0]] + MergeSpec(a, b[1..])
  }

  /** A merge step loses and invents nothing: the result is a permutation of a ++ b. */
  lemma {:induction false} MergeSpecPermutation(a: seq<int>, b: seq<int>)
    ensures multiset(MergeSpec(a, b)) == multiset(a + b)
    decreases |a| + |b|, 1
  {
    if a == [] {
      assert a + b == b;
    } else if b == [] {
      assert a + b == a;
    } else if a[0] < b[0] {
      MergeSpecPermutationA(a, b);
    } else {
      MergeSpecPermutationB(a, b);
    }
  }

  lemma {:induction false} MergeSpecPermutationA(a: seq<int>, b: seq<int>)
    requires a != [] && b != [] && a[0] < b[0]
    ensures multiset(MergeSpec(a, b)) == multiset(a + b)
    decreases |a| + |b|, 0
  {
    MergeSpecPermutation(a[1..], b);
    assert a + b == [a[0]] + (a[1..] + b);
  }

  lemma {:induction false} MergeSpecPermutationB(a: seq<int>, b: seq<int>)
    requires a != [] && b != [] && a[0] >= b[0]
    ensures multiset(MergeSpec(a, b)) == multiset(a + b)
    decreases |a| + |b|, 0
  {
    MergeSpecPermutation(a, b[1..]);
    assert b == [b[0]] + b[1..];
    assert multiset(a + b) == multiset(a) + multiset(b);
  }

  /** A common lower bound of both inputs is a lower bound of every element of a merge step's result. */
  lemma MergeSpecLowerBound(a: seq<int>, b: seq<int>, lo: int)
    requires forall i :: 0 <= i < |a| ==> lo <= a[i]
    requires forall i :: 0 <= i < |b| ==> lo <= b[i]
    ensures forall i :: 0 <= i < |MergeSpec(a, b)| ==> lo <= MergeSpec(a, b)[i]
  {
    MergeSpecPermutation(a, b);
    forall i | 0 <= i < |MergeSpec(a, b)| ensures lo <= MergeSpec(a, b)[i] {
      var x := MergeSpec(a, b)[i];
      assert x in multiset(MergeSpec(a, b));
      assert x in a + b;
    }
  }

  /** Merging two sorted lists gives a sorted list. */
  lemma {:induction false} MergeSpecSorted(a: seq<int>, b: seq<int>)
    requires Sorted(a) && Sorted(b)
    ensures Sorted(MergeSpec(a, b))
    decreases |a| + |b|
  {
    if a != [] && b != [] {
      var head, rest, tailA, tailB :=
        if a[0] < b[0] then a[0] else b[0],
        if a[0] < b[0] then MergeSpec(a[1..], b) else MergeSpec(a, b[1..]),
        if a[0] < b[0] then a[1..] else a,
        if a[0] < b[0] then b else b[1..];
      MergeSpecSorted(tailA, tailB);
      MergeSpecLowerBound(tailA, tailB, head);
      assert MergeSpec(a, b) == [head] + rest;
    }
  }

  /** The two-list merge of the source: cursors i and j advance while the smaller head is appended, then the rest is copied. */
  method MergeTwo(l1: seq<int>, l2: seq<int>) returns (merged: seq<int>)
    ensures merged == MergeSpec(l1, l2)
    ensures multiset(merged) == multiset(l1 + l2) && |merged| == |l1| + |l2|
    ensures Sorted(l1) && Sorted(l2) ==> Sorted(merged)
  {
    merged := [];
    var i, j := 0, 0;
    while i < |l1| && j < |l2|
      invariant 0 <= i <= |l1| && 0 <= j <= |l2|
      invariant merged + MergeSpec(l1[i..], l2[j..]) == MergeSpec(l1, l2)
    {
      ghost var rest := MergeSpec(l1[i..], l2[j..]);
      MergeSpecAt(l1, l2, i, j);
      if l1[i] < l2[j] {
        AppendAssociative(merged, [l1[i]], MergeSpec(l1[i + 1..], l2[j..]));
        merged := merged + [l1[i]];
        i := i + 1;
      } else {
        AppendAssociative(merged, [l2[j]], MergeSpec(l1[i..], l2[j + 1..]));
        merged := merged + [l2[j]];
        j := j + 1;
      }
    }
    MergeSpecRest(l1, l2, i, j);
    if i < |l1| {
      merged := merged + l1[i..];
    }
    if j < |l2| {
      merged := merged + l2[j..];
    }
    MergeSpecFacts(l1, l2);
  }

  /** One step of MergeTwo's loop, at cursors i and j. */
  lemma MergeSpecAt(a: seq<int>, b: seq<int>, i: nat, j: nat)
    requires i < |a| && j < |b|
    ensures MergeSpec(a[i..], b[j..])
         == if a[i] < b[j] then [a[i]] + MergeSpec(a[i + 1..], b[j..]) else [b[j]] + MergeSpec(a[i..], b[j + 1..])
  {
    assert a[i..][1..] == a[i + 1..];
    assert b[j..][1..] == b[j + 1..];
  }

  /** Once one cursor is at the end, the rest of the merge is what is left of the two lists. */
  lemma MergeSpecRest(a: seq<int>, b: seq<int>, i: nat, j: nat)
    requires i <= |a| && j <= |b| && (i == |a| || j == |b|)
    ensures MergeSpec(a[i..], b[j..]) == (if i < |a| then a[i..] else []) + (if j < |b| then b[j..] else [])
  {
    if i == |a| {
      assert a[i..] == [];
    } else {
      assert b[j..] == [];
    }
  }

  /** What a merge step keeps: the elements with their multiplicities and, for sorted inputs, the order. */
  lemma MergeSpecFacts(a: seq<int>, b: seq<int>)
    ensures multiset(MergeSpec(a, b)) == multiset(a + b) && |MergeSpec(a, b)| == |a| + |b|
    ensures Sorted(a) && Sorted(b) ==> Sorted(MergeSpec(a, b))
  {
    MergeSpecPermutation(a, b);
    assert |MergeSpec(a, b)| == |multiset(MergeSpec(a, b))|;
    if Sorted(a) && Sorted(b) {
      MergeSpecSorted(a, b);
    }
  }

  /** All lists one after the other. */
  function Flatten(lists: seq<seq<int>>): seq<int>
    decreases |lists|
  {
    if lists == [] then [] else Flatten(lists[..|lists| - 1]) + lists[|lists| - 1]
  }

  /** The running list after merging every list in turn into it, starting from the empty list. */
  function FoldMerge(lists: seq<seq<int>>): seq<int>
    decreases |lists|
  {
    if lists == [] then [] else MergeSpec(FoldMerge(lists[..|lists| - 1]), lists[|lists| - 1])
  }

  lemma {:induction false} FoldMergePermutation(lists: seq<seq<int>>)
    ensures multiset(FoldMerge(lists)) == multiset(Flatten(lists))
    decreases |lists|
  {
    if lists != [] {
      var init := lists[..|lists| - 1];
      FoldMergePermutation(init);
      MergeSpecPermutation(FoldMerge(init), lists[|lists| - 1]);
    }
  }

  lemma {:induction false} FoldMergeSorted(lists: seq<seq<int>>)
    requires forall k :: 0 <= k < |lists| ==> Sorted(lists[k])
    ensures Sorted(FoldMerge(lists))
    decreases |lists|
  {
    if lists != [] {
      var init := lists[..|lists| - 1];
      assert forall k :: 0 <= k < |init| ==> init[k] == lists[k];
      FoldMergeSorted(init);
      MergeSpecSorted(FoldMerge(init), lists[|lists| - 1]);
    }
  }

  /** The IDs that have a pair. */
  function Ids(pairs: seq<Pair>): set<int> {
    set k | 0 <= k < |pairs| :: pairs[k].0
  }

  predicate StrictlyAscending(pairs: seq<Pair>) {
    forall i, j :: 0 <= i < j < |pairs| ==> pairs[i].0 < pairs[j].0
  }

  predicate PositiveCounts(pairs: seq<Pair>) {
    forall k :: 0 <= k < |pairs| ==> pairs[k].1 > 0
  }

  /** The total count recorded for `y`. */
  function CountOf(pairs: seq<Pair>, y: int): nat {
    if pairs == [] then 0
    else (if pairs[0].0 == y then pairs[0].1 else 0) + CountOf(pairs[1..], y)
  }

  /** Counting one more occurrence of `x` in a list of pairs kept in ascending order of ID. */
  function Bump(pairs: seq<Pair>, x: int): (r: seq<Pair>)
    ensures |pairs| <= |r| <= |pairs| + 1
  {
    if pairs == [] then [(x, 1)]
    else if x < pairs[0].0 then [(x, 1)] + pairs
    else if x == pairs[0].0 then [(x, pairs[0].1 + 1)] + pairs[1..]
    else [pairs[0]] + Bump(pairs[1..], x)
  }

  /** sorted(Counter(xs).most_common()): the (ID, count) pairs of `xs` in ascending order of ID. */
  function Tally(xs: seq<int>): (r: seq<Pair>)
    ensures |r| <= |xs|
    ensures r == [] <==> xs == []
    decreases |xs|
  {
    if xs == [] then [] else Bump(Tally(xs[..|xs| - 1]), xs[|xs| - 1])
  }

  lemma {:induction false} IdsTail(pairs: seq<Pair>)
    requires pairs != []
    ensures Ids(pairs) == {pairs[0].0} + Ids(pairs[1..])
  {
    forall y | y in Ids(pairs) ensures y in {pairs[0].0} + Ids(pairs[1..]) {
      var k :| 0 <= k < |pairs| && pairs[k].0 == y;
      if k > 0 {
        assert pairs[1..][k - 1] == pairs[k];
      }
    }
    forall y | y in Ids(pairs[1..]) ensures y in Ids(pairs) {
      var k :| 0 <= k < |pairs[1..]| && pairs[1..][k].0 == y;
      assert pairs[k + 1].0 == y;
    }
  }

  lemma {:induction false} CountOfAbsent(pairs: seq<Pair>, y: int)
    requires y !in Ids(pairs)
    ensures CountOf(pairs, y) == 0
    decreases |pairs|
  {
    if pairs != [] {
      IdsTail(pairs);
      CountOfAbsent(pairs[1..], y);
    }
  }

  /** With unique IDs, the count recorded for an ID is the count in its one pair. */
  lemma {:induction false} CountOfAt(pairs: seq<Pair>, k: nat)
    requires StrictlyAscending(pairs) && k < |pairs|
    ensures CountOf(pairs, pairs[k].0) == pairs[k].1
    decreases |pairs|
  {
    var rest := pairs[1..];
    if k == 0 {
      assert pairs[0].0 !in Ids(rest);
      CountOfAbsent(rest, pairs[0].0);
    } else {
      assert rest[k - 1] == pairs[k];
      CountOfAt(rest, k - 1);
    }
  }

  lemma {:induction false} BumpIds(pairs: seq<Pair>, x: int)
    ensures Ids(Bump(pairs, x)) == Ids(pairs) + {x}
    decreases |pairs|
  {
    var r := Bump(pairs, x);
    IdsTail(r);
    if pairs == [] {
      assert r[1..] == [];
    } else {
      IdsTail(pairs);
      if x < pairs[0].0 {
        assert r[1..] == pairs;
      } else if x == pairs[0].0 {
        assert r[1..] == pairs[1..];
      } else {
        BumpIds(pairs[1..], x);
        assert r[1..] == Bump(pairs[1..], x);
      }
    }
  }

  /** Counting an ID above `lo` in pairs whose IDs are all above `lo` keeps every ID above `lo`. */
  lemma {:induction false} BumpAbove(pairs: seq<Pair>, x: int, lo: int)
    requires lo < x && forall k :: 0 <= k < |pairs| ==> lo < pairs[k].0
    ensures forall k :: 0 <= k < |Bump(pairs, x)| ==> lo < Bump(pairs, x)[k].0
    decreases |pairs|
  {
    if pairs != [] && x > pairs[0].0 {
      BumpAbove(pairs[1..], x, lo);
      assert Bump(pairs, x) == [pairs[0]] + Bump(pairs[1..], x);
    }
  }

  lemma {:induction false} BumpAscending(pairs: seq<Pair>, x: int)
    requires StrictlyAscending(pairs) && PositiveCounts(pairs)
    ensures StrictlyAscending(Bump(pairs, x)) && PositiveCounts(Bump(pairs, x))
    decreases |pairs|
  {
    if pairs != [] && x > pairs[0].0 {
      var rest := pairs[1..];
      var tail := Bump(rest, x);
      BumpAscending(rest, x);
      BumpAbove(rest, x, pairs[0].0);
      assert Bump(pairs, x) == [pairs[0]] + tail;
    }
  }

  lemma {:induction false} BumpCountOf(pairs: seq<Pair>, x: int, y: int)
    ensures CountOf(Bump(pairs, x), y) == CountOf(pairs, y) + (if y == x then 1 else 0)
    decreases |pairs|
  {
    var r := Bump(pairs, x);
    if pairs == [] {
      assert r[1..] == [];
    } else if x < pairs[0].0 {
      assert r[1..] == pairs;
    } else if x == pairs[0].0 {
      assert r[1..] == pairs[1..];
    } else {
      BumpCountOf(pairs[1..], x, y);
      assert r[1..] == Bump(pairs[1..], x);
    }
  }

  /** The pairs of `xs` are in strictly ascending order of ID, count every occurrence, and name exactly the IDs of `xs`. */
  lemma {:induction false} TallyCounts(xs: seq<int>)
    ensures StrictlyAscending(Tally(xs)) && PositiveCounts(Tally(xs))
    ensures Ids(Tally(xs)) == set x | x in xs
    ensures forall y :: CountOf(Tally(xs), y) == multiset(xs)[y]
    decreases |xs|
  {
    if xs != [] {
      var init, last := xs[..|xs| - 1], xs[|xs| - 1];
      assert xs == init + [last];
      TallyCounts(init);
      BumpAscending(Tally(init), last);
      BumpIds(Tally(init), last);
      forall y ensures CountOf(Tally(xs), y) == multiset(xs)[y] {
        BumpCountOf(Tally(init), last, y);
      }
    } else {
      assert Tally(xs) == [];
    }
  }

  /** Each pair of Tally(xs) holds the number of occurrences of its ID in `xs`. */
  lemma TallyPairs(xs: seq<int>)
    ensures StrictlyAscending(Tally(xs))
    ensures forall k :: 0 <= k < |Tally(xs)| ==> 0 < Tally(xs)[k].1 == multiset(xs)[Tally(xs)[k].0]
    ensures Ids(Tally(xs)) == set x | x in xs
  {
    TallyCounts(xs);
    forall k | 0 <= k < |Tally(xs)| ensures Tally(xs)[k].1 == multiset(xs)[Tally(xs)[k].0] {
      CountOfAt(Tally(xs), k);
    }
  }

  /** Pairs in strictly ascending order of ID with positive counts are determined by their counts. */
  lemma {:induction false} AscendingPairsUnique(a: seq<Pair>, b: seq<Pair>)
    requires StrictlyAscending(a) && PositiveCounts(a)
    requires StrictlyAscending(b) && PositiveCounts(b)
    requires forall y :: CountOf(a, y) == CountOf(b, y)
    ensures a == b
    decreases |a|
  {
    if a != [] {
      CountOfAt(a, 0);
      CountOfHead(b, a[0].0);
      assert b != [] && b[0].0 <= a[0].0;
      CountOfAt(b, 0);
      CountOfHead(a, b[0].0);
      assert a[0] == b[0];
      var a', b' := a[1..], b[1..];
      forall y ensures CountOf(a', y) == CountOf(b', y) {
        assert CountOf(a, y) == (if a[0].0 == y then a[0].1 else 0) + CountOf(a', y);
        assert CountOf(b, y) == (if b[0].0 == y then b[0].1 else 0) + CountOf(b', y);
      }
      assert StrictlyAscending(a') && PositiveCounts(a') by {
        forall i, j | 0 <= i < j < |a'| ensures a'[i].0 < a'[j].0 {
          assert a'[i] == a[i + 1] && a'[j] == a[j + 1];
        }
        forall k | 0 <= k < |a'| ensures a'[k].1 > 0 {
          assert a'[k] == a[k + 1];
        }
      }
      assert StrictlyAscending(b') && PositiveCounts(b') by {
        forall i, j | 0 <= i < j < |b'| ensures b'[i].0 < b'[j].0 {
          assert b'[i] == b[i + 1] && b'[j] == b[j + 1];
        }
        forall k | 0 <= k < |b'| ensures b'[k].1 > 0 {
          assert b'[k] == b[k + 1];
        }
      }
      AscendingPairsUnique(a', b');
      assert a == [a[0]] + a' && b == [b[0]] + b';
    } else if b != [] {
      CountOfAt(b, 0);
    }
  }

  /** An ID with a positive count is at or above the first ID of ascending pairs. */
  lemma {:induction false} CountOfHead(pairs: seq<Pair>, y: int)
    requires StrictlyAscending(pairs) && CountOf(pairs, y) > 0
    ensures pairs != [] && pairs[0].0 <= y
  {
    if pairs != [] && y < pairs[0].0 {
      assert y !in Ids(pairs);
      CountOfAbsent(pairs, y);
    }
  }

  /** Tally only depends on the multiset of its argument. */
  lemma TallyMultiset(xs: seq<int>, ys: seq<int>)
    requires multiset(xs) == multiset(ys)
    ensures Tally(xs) == Tally(ys)
  {
    TallyCounts(xs);
    TallyCounts(ys);
    AscendingPairsUnique(Tally(xs), Tally(ys));
  }

  /**
    The merge of the source, over the lists it is given: every list is merged
    into the running list in turn, and the result is counted.
   */
  method Merge(lists: seq<seq<int>>) returns (pairs: seq<Pair>)
    ensures pairs == Tally(FoldMerge(lists))
    ensures StrictlyAscending(pairs)
    ensures forall k :: 0 <= k < |pairs| ==> 0 < pairs[k].1 == multiset(Flatten(lists))[pairs[k].0]
    ensures Ids(pairs) == set x | x in Flatten(lists)
  {
    var mergedList := [];
    var n := 0;
    while n < |lists|
      invariant 0 <= n <= |lists|
      invariant mergedList == FoldMerge(lists[..n])
    {
      var l1 := mergedList;
      mergedList := MergeTwo(l1, lists[n]);
      assert lists[..n + 1][..n] == lists[..n];
      n := n + 1;
    }
    assert lists[..n] == lists;
    pairs := Tally(mergedList);
    FoldTallyCounts(lists);
  }

  /** Counting the fold of `lists` gives each ID of the lists once, ascending, with its total number of occurrences. */
  lemma FoldTallyCounts(lists: seq<seq<int>>)
    ensures StrictlyAscending(Tally(FoldMerge(lists)))
    ensures forall k :: 0 <= k < |Tally(FoldMerge(lists))| ==>
      0 < Tally(FoldMerge(lists))[k].1 == multiset(Flatten(lists))[Tally(FoldMerge(lists))[k].0]
    ensures Ids(Tally(FoldMerge(lists))) == set x | x in Flatten(lists)
  {
    var merged := FoldMerge(lists);
    TallyPairs(merged);
    FoldMergePermutation(lists);
    assert (set x | x in merged) == set x | x in Flatten(lists) by {
      forall x ensures x in merged <==> x in Flatten(lists) {
        assert x in merged <==> x in multiset(merged);
        assert x in Flatten(lists) <==> x in multiset(Flatten(lists));
      }
    }
  }

  lemma FirstMergeExample()
    ensures MergeSpec([1, 2, 3], [2, 3, 4]) == [1, 2, 2, 3, 3, 4]
  {
    assert MergeSpec([3], [4]) == [3, 4];
    assert MergeSpec([3], [3, 4]) == [3, 3, 4];
    assert MergeSpec([2, 3], [3, 4]) == [2, 3, 3, 4];
    assert MergeSpec([2, 3], [2, 3, 4]) == [2, 2, 3, 3, 4];
  }

  /** The last six steps of SecondMergeExample. */
  lemma SecondMergeTail()
    ensures MergeSpec([3, 3, 4], [3, 4, 5]) == [3, 3, 3, 4, 4, 5]
  {
    assert MergeSpec([4], [5]) == [4, 5];
    assert MergeSpec([4], [4, 5]) == [4, 4, 5];
    assert MergeSpec([3, 4], [4, 5]) == [3, 4, 4, 5];
    assert MergeSpec([3, 3, 4], [4, 5]) == [3, 3, 4, 4, 5];
  }

  lemma SecondMergeExample()
    ensures MergeSpec([1, 2, 2, 3, 3, 4], [3, 4, 5]) == [1, 2, 2, 3, 3, 3, 4, 4, 5]
  {
    SecondMergeTail();
    assert MergeSpec([2, 3, 3, 4], [3, 4, 5]) == [2, 3, 3, 3, 4, 4, 5];
    assert MergeSpec([2, 2, 3, 3, 4], [3, 4, 5]) == [2, 2, 3, 3, 3, 4, 4, 5];
  }

  lemma FoldMergeExample()
    ensures FoldMerge([[1, 2, 3], [2, 3, 4], [3, 4, 5]]) == [1, 2, 2, 3, 3, 3, 4, 4, 5]
  {
    var lists: seq<seq<int>> := [[1, 2, 3], [2, 3, 4], [3, 4, 5]];
    assert lists[..1][..0] == [];
    assert lists[..2][..1] == lists[..1];
    assert lists[..3][..2] == lists[..2];
    assert lists[..3] == lists;
    FirstMergeExample();
    SecondMergeExample();
    assert FoldMerge(lists[..1]) == [1, 2, 3];
    assert FoldMerge(lists[..2]) == [1, 2, 2, 3, 3, 4];
  }

  /** The first five steps of TallyExample. */
  lemma TallyExampleHead(xs: seq<int>)
    requires xs == [1, 2, 2, 3, 3, 3, 4, 4, 5]
    ensures Tally(xs[..5]) == [(1, 1), (2, 2), (3, 2)]
  {
    assert xs[..0] == [];
    assert forall k :: 1 <= k <= 5 ==> xs[..k][..k - 1] == xs[..k - 1];
    assert Tally(xs[..1]) == [(1, 1)];
    assert [(1, 1)][1..] == [];
    assert Tally(xs[..2]) == [(1, 1), (2, 1)];
    assert [(1, 1), (2, 1)][1..] == [(2, 1)];
    assert [(2, 1)][1..] == [];
    assert Tally(xs[..3]) == [(1, 1), (2, 2)];
    assert [(1, 1), (2, 2)][1..] == [(2, 2)];
    assert [(2, 2)][1..] == [];
    assert Tally(xs[..4]) == [(1, 1), (2, 2), (3, 1)];
    assert [(1, 1), (2, 2), (3, 1)][1..] == [(2, 2), (3, 1)];
    assert [(2, 2), (3, 1)][1..] == [(3, 1)];
    assert [(3, 1)][1..] == [];
  }

  /** Steps six and seven of TallyExample. */
  lemma TallyExampleMiddle(xs: seq<int>)
    requires xs == [1, 2, 2, 3, 3, 3, 4, 4, 5]
    ensures Tally(xs[..7]) == [(1, 1), (2, 2), (3, 3), (4, 1)]
  {
    TallyExampleHead(xs);
    assert forall k :: 6 <= k <= 7 ==> xs[..k][..k - 1] == xs[..k - 1];
    assert [(1, 1), (2, 2), (3, 2)][1..] == [(2, 2), (3, 2)];
    assert [(2, 2), (3, 2)][1..] == [(3, 2)];
    assert [(3, 2)][1..] == [];
    assert Tally(xs[..6]) == [(1, 1), (2, 2), (3, 3)];
    assert [(1, 1), (2, 2), (3, 3)][1..] == [(2, 2), (3, 3)];
    assert [(2, 2), (3, 3)][1..] == [(3, 3)];
    assert [(3, 3)][1..] == [];
    assert Bump([(3, 3)], 4) == [(3, 3), (4, 1)];
    assert Bump([(2, 2), (3, 3)], 4) == [(2, 2), (3, 3), (4, 1)];
    assert Bump([(1, 1), (2, 2), (3, 3)], 4) == [(1, 1), (2, 2), (3, 3), (4, 1)];
  }

  /** Step eight of TallyExample. */
  lemma TallyExampleEighth(xs: seq<int>)
    requires xs == [1, 2, 2, 3, 3, 3, 4, 4, 5]
    ensures Tally(xs[..8]) == [(1, 1), (2, 2), (3, 3), (4, 2)]
  {
    TallyExampleMiddle(xs);
    assert xs[..8][..7] == xs[..7];
    assert [(1, 1), (2, 2), (3, 3), (4, 1)][1..] == [(2, 2), (3, 3), (4, 1)];
    assert [(2, 2), (3, 3), (4, 1)][1..] == [(3, 3), (4, 1)];
    assert [(3, 3), (4, 1)][1..] == [(4, 1)];
    assert [(4, 1)][1..] == [];
    assert Bump([(4, 1)], 4) == [(4, 2)];
    assert Bump([(3, 3), (4, 1)], 4) == [(3, 3), (4, 2)];
    assert Bump([(2, 2), (3, 3), (4, 1)], 4) == [(2, 2), (3, 3), (4, 2)];
  }

  lemma TallyExample()
    ensures Tally([1, 2, 2, 3, 3, 3, 4, 4, 5]) == [(1, 1), (2, 2), (3, 3), (4, 2), (5, 1)]
  {
    var xs: seq<int> := [1, 2, 2, 3, 3, 3, 4, 4, 5];
    TallyExampleEighth(xs);
    assert xs[..9][..8] == xs[..8];
    assert [(1, 1), (2, 2), (3, 3), (4, 2)][1..] == [(2, 2), (3, 3), (4, 2)];
    assert [(2, 2), (3, 3), (4, 2)][1..] == [(3, 3), (4, 2)];
    assert [(3, 3), (4, 2)][1..] == [(4, 2)];
    assert [(4, 2)][1..] == [];
    assert Bump([(4, 2)], 5) == [(4, 2), (5, 1)];
    assert Bump([(3, 3), (4, 2)], 5) == [(3, 3), (4, 2), (5, 1)];
    assert Bump([(2, 2), (3, 3), (4, 2)], 5) == [(2, 2), (3, 3), (4, 2), (5, 1)];
    assert Tally(xs[..9]) == [(1, 1), (2, 2), (3, 3), (4, 2), (5, 1)];
    assert xs[..9] == xs;
  }

  /** The example of the source's documentation. */
  lemma MergeExample()
    ensures Tally(FoldMerge([[1, 2, 3], [2, 3, 4], [3, 4, 5]])) == [(1, 1), (2, 2), (3, 3), (4, 2), (5, 1)]
  {
    FoldMergeExample();
    TallyExample();
  }

  /**
    The merge as the source writes it: the loop runs over the posting lists
    of the module-level index `qi` (`globalLists`, in the dictionary's order)
    and never reads its own argument.
   */
  function MergeAsWritten(lists: seq<seq<int>>, globalLists: seq<seq<int>>): (r: seq<Pair>)
    ensures StrictlyAscending(r)
    ensures forall k :: 0 <= k < |r| ==> 0 < r[k].1 == multiset(Flatten(globalLists))[r[k].0]
    ensures Ids(r) == set x | x in Flatten(globalLists)
  {
    FoldTallyCounts(globalLists);
    Tally(FoldMerge(globalLists))
  }

  /** With no q-gram indexed globally, the documented example merges to nothing instead of its documented result. */
  lemma MergeAsWrittenExample()
    ensures MergeAsWritten([[1, 2, 3], [2, 3, 4], [3, 4, 5]], []) == []
    ensures MergeAsWritten([[1, 2, 3], [2, 3, 4], [3, 4, 5]], [])
         != Tally(FoldMerge([[1, 2, 3], [2, 3, 4], [3, 4, 5]]))
  {
    var empty: seq<seq<int>> := [];
    assert FoldMerge(empty) == [];
    MergeExample();
  }
}
