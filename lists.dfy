/** Small facts about sequences of record IDs shared by the index and the merge. */
module Lists {

  /** Non-decreasing order, the order of every posting list. */
  predicate Sorted(xs: seq<int>) {
    forall i, j :: 0 <= i < j < |xs| ==> xs[i] <= xs[j]
  }

  /** `n` copies of `x`. */
  function Repeat(x: int, n: nat): (r: seq<int>)
    ensures |r| == n
    ensures forall i :: 0 <= i < n ==> r[i] == x
  {
    seq(n, _ => x)
  }

  lemma RepeatCount(x: int, n: nat)
    ensures multiset(Repeat(x, n))[x] == n
    ensures forall y :: y != x ==> multiset(Repeat(x, n))[y] == 0
  {
    if n > 0 {
      RepeatCount(x, n - 1);
      assert Repeat(x, n) == Repeat(x, n - 1) + [x];
    }
  }

  /** Appending copies of an ID above every ID of a sorted list keeps it sorted. */
  lemma AppendRepeatSorted(front: seq<int>, n: int, k: nat, lo: int)
    requires lo <= n && Sorted(front) && forall x :: x in front ==> lo <= x < n
    ensures Sorted(front + Repeat(n, k))
    ensures forall x :: x in front + Repeat(n, k) ==> lo <= x <= n
  {
    var all := front + Repeat(n, k);
    forall i, j | 0 <= i < j < |all| ensures all[i] <= all[j] {
      if i < |front| {
        assert front[i] in front;
      }
    }
  }

  /** Appending k copies of n adds k to the count of n and leaves every other count alone. */
  lemma AppendRepeatCount(front: seq<int>, n: int, k: nat, r: int)
    ensures multiset(front + Repeat(n, k))[r] == multiset(front)[r] + (if r == n then k else 0)
  {
    RepeatCount(n, k);
  }

  /** Each position i (counting from 1) written counts[i - 1] times, positions in increasing order. */
  function Expand(counts: seq<nat>): seq<int>
    decreases |counts|
  {
    if counts == [] then []
    else Expand(counts[..|counts| - 1]) + Repeat(|counts|, counts[|counts| - 1])
  }

  lemma {:induction false} ExpandSorted(counts: seq<nat>)
    ensures Sorted(Expand(counts))
    ensures forall x :: x in Expand(counts) ==> 1 <= x <= |counts|
    decreases |counts|
  {
    if counts != [] {
      var n := |counts|;
      ExpandSorted(counts[..n - 1]);
      AppendRepeatSorted(Expand(counts[..n - 1]), n, counts[n - 1], 1);
    }
  }

  lemma {:induction false} ExpandCount(counts: seq<nat>, r: int)
    ensures multiset(Expand(counts))[r] == if 1 <= r <= |counts| then counts[r - 1] else 0
    decreases |counts|
  {
    if counts != [] {
      var n := |counts|;
      ExpandCount(counts[..n - 1], r);
      AppendRepeatCount(Expand(counts[..n - 1]), n, counts[n - 1], r);
    }
  }

  lemma {:induction false} ExpandNonEmpty(counts: seq<nat>)
    ensures Expand(counts) != [] <==> exists r :: 0 <= r < |counts| && counts[r] > 0
    decreases |counts|
  {
    if counts != [] {
      var n := |counts|;
      var init := counts[..n - 1];
      ExpandNonEmpty(init);
      assert |Expand(counts)| == |Expand(init)| + counts[n - 1];
      if exists r :: 0 <= r < n && counts[r] > 0 {
        var r :| 0 <= r < n && counts[r] > 0;
        if r < n - 1 {
          assert init[r] > 0;
        }
      }
    }
  }

  lemma ExpandSnoc(counts: seq<nat>, c: nat)
    ensures Expand(counts + [c]) == Expand(counts) + Repeat(|counts| + 1, c)
  {
    assert (counts + [c])[..|counts|] == counts;
  }

  lemma AppendAssociative(a: seq<int>, b: seq<int>, c: seq<int>)
    ensures (a + b) + c == a + (b + c)
  {
  }
}
