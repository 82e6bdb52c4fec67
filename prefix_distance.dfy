/**
  Prefix edit distance: PED(p, s) is the smallest edit distance between p
  and any prefix of s (unit-cost insertions, deletions and substitutions).
 */
module PrefixDistance {

  function Min(a: int, b: int): int {
    if a <= b then a else b
  }

  function Min3(a: int, b: int, c: int): int {
    Min(Min(a, b), c)
  }

  function Cost(x: char, y: char): nat {
    if x == y then 0 else 1
  }

  /**
    The edit distance between a[..i] and b[..j], by recursion on the last
    characters: delete the last of a[..i], insert the last of b[..j], or
    substitute (free when they are equal).
   */
  function Dist(a: string, b: string, i: nat, j: nat): nat
    requires i <= |a| && j <= |b|
    decreases i + j
  {
    if i == 0 then j
    else if j == 0 then i
    else Min3(Dist(a, b, i - 1, j) + 1,
              Dist(a, b, i, j - 1) + 1,
              Dist(a, b, i - 1, j - 1) + Cost(a[i - 1], b[j - 1]))
  }

  /** Levenshtein distance between a and b. */
  function EditDistance(a: string, b: string): nat {
    Dist(a, b, |a|, |b|)
  }

  /** Dist only looks at a[..i] and b[..j]. */
  lemma {:induction false} DistAgree(a: string, b: string, a': string, b': string, i: nat, j: nat)
    requires i <= |a| && j <= |b| && i <= |a'| && j <= |b'|
    requires a[..i] == a'[..i] && b[..j] == b'[..j]
    ensures Dist(a, b, i, j) == Dist(a', b', i, j)
    decreases i + j
  {
    if i > 0 && j > 0 {
      assert a[i - 1] == a[..i][i - 1] == a'[i - 1];
      assert b[j - 1] == b[..j][j - 1] == b'[j - 1];
      assert a[..i - 1] == a[..i][..i - 1] && a'[..i - 1] == a'[..i][..i - 1];
      assert b[..j - 1] == b[..j][..j - 1] && b'[..j - 1] == b'[..j][..j - 1];
      DistAgree(a, b, a', b', i - 1, j);
      DistAgree(a, b, a', b', i, j - 1);
      DistAgree(a, b, a', b', i - 1, j - 1);
    }
  }

  /** Entry (i, j) of the table is the edit distance between the prefixes a[..i] and b[..j]. */
  lemma DistPrefixes(a: string, b: string, i: nat, j: nat)
    requires i <= |a| && j <= |b|
    ensures Dist(a, b, i, j) == EditDistance(a[..i], b[..j])
  {
    DistAgree(a, b, a[..i], b[..j], i, j);
  }

  /** The smallest of Dist(p, s, |p|, j) over j = 0, ..., k: the best match among the prefixes s[..0], ..., s[..k]. */
  function PrefixMin(p: string, s: string, k: nat): (d: nat)
    requires k <= |s|
    ensures forall j :: 0 <= j <= k ==> d <= Dist(p, s, |p|, j)
    ensures exists j :: 0 <= j <= k && d == Dist(p, s, |p|, j)
  {
    if k == 0 then Dist(p, s, |p|, 0)
    else Min(PrefixMin(p, s, k - 1), Dist(p, s, |p|, k))
  }

  /** PED(p, s). */
  function Ped(p: string, s: string): nat {
    PrefixMin(p, s, |s|)
  }

  /** PED(p, s) is the smallest edit distance between p and a prefix of s, and some prefix attains it. */
  lemma PedIsMinimum(p: string, s: string)
    ensures forall j :: 0 <= j <= |s| ==> Ped(p, s) <= EditDistance(p, s[..j])
    ensures exists j :: 0 <= j <= |s| && Ped(p, s) == EditDistance(p, s[..j])
  {
    assert p[..|p|] == p;
    forall j | 0 <= j <= |s| ensures Dist(p, s, |p|, j) == EditDistance(p, s[..j]) {
      DistPrefixes(p, s, |p|, j);
    }
    var k :| 0 <= k <= |s| && Ped(p, s) == Dist(p, s, |p|, k);
    assert Ped(p, s) == EditDistance(p, s[..k]);
  }

  lemma {:induction false} DistSelf(a: string, i: nat)
    requires i <= |a|
    ensures Dist(a, a, i, i) == 0
  {
    if i > 0 {
      DistSelf(a, i - 1);
    }
  }

  /** Distance 0 between prefixes means they are equal. */
  lemma {:induction false} DistZero(a: string, b: string, i: nat, j: nat)
    requires i <= |a| && j <= |b| && Dist(a, b, i, j) == 0
    ensures i == j && a[..i] == b[..j]
    decreases i + j
  {
    if i > 0 && j > 0 {
      DistZero(a, b, i - 1, j - 1);
      assert a[..i] == a[..i - 1] + [a[i - 1]];
      assert b[..j] == b[..j - 1] + [b[j - 1]];
    }
  }

  /** PED is 0 exactly when p is a prefix of s. */
  lemma PedZero(p: string, s: string)
    ensures Ped(p, s) == 0 <==> p <= s
  {
    assert p[..|p|] == p;
    if Ped(p, s) == 0 {
      var j :| 0 <= j <= |s| && 0 == Dist(p, s, |p|, j);
      DistZero(p, s, |p|, j);
    }
    if p <= s {
      DistSelf(p, |p|);
      DistAgree(p, p, p, s, |p|, |p|);
    }
  }

  /** Matching the empty prefix costs |p|, so PED never exceeds |p|. */
  lemma PedAtMostLength(p: string, s: string)
    ensures Ped(p, s) <= |p|
  {
    assert Dist(p, s, |p|, 0) == |p|;
  }

  /** The whole of s is one of its prefixes. */
  lemma PedAtMostEditDistance(p: string, s: string)
    ensures Ped(p, s) <= EditDistance(p, s)
  {
  }

  /** Row r of the table holds the edit distances between p[..r] and the prefixes of s. */
  ghost predicate RowFilled(table: array2<nat>, p: string, s: string, r: nat)
    requires table.Length0 == |p| + 1 && table.Length1 == |s| + 1 && r <= |p|
    reads table
  {
    forall j {:trigger table[r, j]} :: 0 <= j <= |s| ==> table[r, j] == Dist(p, s, r, j)
  }

  /** Fills row i of the table, left to right, from row i - 1. */
  method FillRow(table: array2<nat>, p: string, s: string, i: nat)
    requires table.Length0 == |p| + 1 && table.Length1 == |s| + 1 && i <= |p|
    requires i > 0 ==> RowFilled(table, p, s, i - 1)
    modifies table
    ensures RowFilled(table, p, s, i)
    ensures forall r, j :: 0 <= r < table.Length0 && r != i && 0 <= j < table.Length1 ==> table[r, j] == old(table[r, j])
  {
    for j := 0 to |s| + 1
      invariant forall j' {:trigger table[i, j']} :: 0 <= j' < j ==> table[i, j'] == Dist(p, s, i, j')
      invariant forall r, j' :: 0 <= r < table.Length0 && r != i && 0 <= j' < table.Length1 ==> table[r, j'] == old(table[r, j'])
      invariant i > 0 ==> RowFilled(table, p, s, i - 1)
    {
      if i == 0 {
        table[i, j] := j;
      } else if j == 0 {
        table[i, j] := i;
      } else {
        var up, left, diagonal := table[i - 1, j], table[i, j - 1], table[i - 1, j - 1];
        assert up == Dist(p, s, i - 1, j) && diagonal == Dist(p, s, i - 1, j - 1);
        table[i, j] := Min3(up + 1, left + 1, diagonal + Cost(p[i - 1], s[j - 1]));
      }
      assert table[i, j] == Dist(p, s, i, j);
    }
  }

  /**
    PED by dynamic programming over the (|p| + 1) x (|s| + 1) edit-distance
    table: entry (i, j) is the distance between p[..i] and s[..j], and the
    answer is the smallest entry of the last row.
   */
  method ComputePed(p: string, s: string) returns (d: nat)
    ensures d == Ped(p, s)
  {
    var n, m := |p|, |s|;
    var table := new nat[n + 1, m + 1];
    for i := 0 to n + 1
      invariant i > 0 ==> RowFilled(table, p, s, i - 1)
    {
      FillRow(table, p, s, i);
    }
    d := LastRowMin(table, p, s);
  }

  /** The smallest entry of the filled last row of the table. */
  method LastRowMin(table: array2<nat>, p: string, s: string) returns (d: nat)
    requires table.Length0 == |p| + 1 && table.Length1 == |s| + 1
    requires RowFilled(table, p, s, |p|)
    ensures d == Ped(p, s)
  {
    var n := |p|;
    d := table[n, 0];
    for j := 1 to |s| + 1
      invariant d == PrefixMin(p, s, j - 1)
    {
      if table[n, j] < d {
        d := table[n, j];
      }
    }
  }

  /*
    Checking a table row by row. A candidate row is checked against the
    recurrence on its own (a computation on concrete numbers), and the
    lemmas below turn a checked row into facts about Dist. RowIs and RowMin
    are the sequence forms of RowFilled and PrefixMin: they describe a row
    given as a value, where those two describe a row of the array or of Dist.
   */

  /** Entries 0, ..., k of `row` are the edit distances between p[..i] and s[..0], ..., s[..k]. */
  ghost predicate RowIs(p: string, s: string, i: nat, row: seq<int>, k: nat)
    requires i <= |p| && |row| == |s| + 1 && k <= |s|
  {
    Dist(p, s, i, k) == row[k] && (k == 0 || RowIs(p, s, i, row, k - 1))
  }

  /** Entries 0, ..., k of `row` are what the recurrence makes of the row `prev` above it and the character c of p. */
  predicate Recurrence(prev: seq<int>, row: seq<int>, c: char, s: string, k: nat)
    requires |prev| == |row| == |s| + 1 && k <= |s|
  {
    if k == 0 then row[0] == prev[0] + 1
    else Recurrence(prev, row, c, s, k - 1) && row[k] == Min3(prev[k] + 1, row[k - 1] + 1, prev[k - 1] + Cost(c, s[k - 1]))
  }

  /** Entries 0, ..., k of `row` count up from 0. */
  predicate Counting(row: seq<int>, k: nat)
    requires k < |row|
  {
    row[k] == k && (k == 0 || Counting(row, k - 1))
  }

  /** The smallest of row[0], ..., row[k]. */
  function RowMin(row: seq<int>, k: nat): int
    requires k < |row|
  {
    if k == 0 then row[0] else Min(RowMin(row, k - 1), row[k])
  }

  lemma {:induction false} RowIsAt(p: string, s: string, i: nat, row: seq<int>, k: nat, j: nat)
    requires i <= |p| && |row| == |s| + 1 && j <= k <= |s| && RowIs(p, s, i, row, k)
    ensures Dist(p, s, i, j) == row[j]
  {
    if j < k {
      RowIsAt(p, s, i, row, k - 1, j);
    }
  }

  /** The recurrence of Dist at (i, j), with the predecessors i0 = i - 1 and j0 = j - 1 named. */
  lemma DistStep(a: string, b: string, i0: nat, i: nat, j0: nat, j: nat)
    requires i == i0 + 1 <= |a| && j == j0 + 1 <= |b|
    ensures Dist(a, b, i, j) == Min3(Dist(a, b, i0, j) + 1, Dist(a, b, i, j0) + 1, Dist(a, b, i0, j0) + Cost(a[i0], b[j0]))
  {
    assert i - 1 == i0 && j - 1 == j0;
  }

  /** Row 0 of the table counts up from 0. */
  lemma {:induction false} FirstRow(p: string, s: string, row: seq<int>, k: nat)
    requires |row| == |s| + 1 && k <= |s| && Counting(row, k)
    ensures RowIs(p, s, 0, row, k)
  {
    if k > 0 {
      FirstRow(p, s, row, k - 1);
    }
  }

  /** A row that follows the recurrence from a correct row i0 is row i0 + 1. */
  lemma {:induction false} NextRow(p: string, s: string, i0: nat, i: nat, prev: seq<int>, row: seq<int>, c: char, k: nat)
    requires i == i0 + 1 <= |p| && c == p[i0] && |prev| == |row| == |s| + 1 && k <= |s|
    requires RowIs(p, s, i0, prev, |s|) && Recurrence(prev, row, c, s, k)
    ensures RowIs(p, s, i, row, k)
  {
    if k == 0 {
      RowIsAt(p, s, i0, prev, |s|, 0);
    } else {
      NextRow(p, s, i0, i, prev, row, c, k - 1);
      NextRowEntry(p, s, i0, i, prev, row, c, k);
    }
  }

  /** One entry of NextRow: entry k is right once the entries before it are. */
  lemma NextRowEntry(p: string, s: string, i0: nat, i: nat, prev: seq<int>, row: seq<int>, c: char, k: nat)
    requires i == i0 + 1 <= |p| && c == p[i0] && |prev| == |row| == |s| + 1 && 0 < k <= |s|
    requires RowIs(p, s, i0, prev, |s|) && Recurrence(prev, row, c, s, k) && RowIs(p, s, i, row, k - 1)
    ensures Dist(p, s, i, k) == row[k]
  {
    RowIsAt(p, s, i0, prev, |s|, k);
    RowIsAt(p, s, i0, prev, |s|, k - 1);
    DistStep(p, s, i0, i, k - 1, k);
  }

  /** Given the last row (row i == |p|), PED is its smallest entry. */
  lemma {:induction false} PedFromLastRow(p: string, s: string, i: nat, row: seq<int>, k: nat)
    requires i == |p| && |row| == |s| + 1 && k <= |s| && RowIs(p, s, i, row, |s|)
    ensures PrefixMin(p, s, k) == RowMin(row, k)
  {
    RowIsAt(p, s, i, row, |s|, k);
    if k > 0 {
      PedFromLastRow(p, s, i, row, k - 1);
    }
  }

  /** Row 1 of the example's table follows from row 0. */
  lemma ExampleRow1()
    ensures Recurrence([0, 1, 2, 3, 4, 5, 6, 7, 8, 9, 10, 11, 12, 13, 14], [1, 0, 1, 2, 3, 4, 5, 6, 7, 8, 9, 10, 11, 12, 13], 's', "schwarzenegger", 14)
  {
    assert Recurrence([0, 1, 2, 3, 4, 5, 6, 7, 8, 9, 10, 11, 12, 13, 14], [1, 0, 1, 2, 3, 4, 5, 6, 7, 8, 9, 10, 11, 12, 13], 's', "schwarzenegger", 4);
    assert Recurrence([0, 1, 2, 3, 4, 5, 6, 7, 8, 9, 10, 11, 12, 13, 14], [1, 0, 1, 2, 3, 4, 5, 6, 7, 8, 9, 10, 11, 12, 13], 's', "schwarzenegger", 9);
  }

  /** Row 2 of the example's table follows from row 1. */
  lemma ExampleRow2()
    ensures Recurrence([1, 0, 1, 2, 3, 4, 5, 6, 7, 8, 9, 10, 11, 12, 13], [2, 1, 1, 1, 2, 3, 4, 5, 6, 7, 8, 9, 10, 11, 12], 'h', "schwarzenegger", 14)
  {
    assert Recurrence([1, 0, 1, 2, 3, 4, 5, 6, 7, 8, 9, 10, 11, 12, 13], [2, 1, 1, 1, 2, 3, 4, 5, 6, 7, 8, 9, 10, 11, 12], 'h', "schwarzenegger", 4);
    assert Recurrence([1, 0, 1, 2, 3, 4, 5, 6, 7, 8, 9, 10, 11, 12, 13], [2, 1, 1, 1, 2, 3, 4, 5, 6, 7, 8, 9, 10, 11, 12], 'h', "schwarzenegger", 9);
  }

  /** Row 3 of the example's table follows from row 2. */
  lemma ExampleRow3()
    ensures Recurrence([2, 1, 1, 1, 2, 3, 4, 5, 6, 7, 8, 9, 10, 11, 12], [3, 2, 2, 2, 1, 2, 3, 4, 5, 6, 7, 8, 9, 10, 11], 'w', "schwarzenegger", 14)
  {
    assert Recurrence([2, 1, 1, 1, 2, 3, 4, 5, 6, 7, 8, 9, 10, 11, 12], [3, 2, 2, 2, 1, 2, 3, 4, 5, 6, 7, 8, 9, 10, 11], 'w', "schwarzenegger", 4);
    assert Recurrence([2, 1, 1, 1, 2, 3, 4, 5, 6, 7, 8, 9, 10, 11, 12], [3, 2, 2, 2, 1, 2, 3, 4, 5, 6, 7, 8, 9, 10, 11], 'w', "schwarzenegger", 9);
  }

  /** Row 4 of the example's table follows from row 3. */
  lemma ExampleRow4()
    ensures Recurrence([3, 2, 2, 2, 1, 2, 3, 4, 5, 6, 7, 8, 9, 10, 11], [4, 3, 3, 3, 2, 1, 2, 3, 4, 5, 6, 7, 8, 9, 10], 'a', "schwarzenegger", 14)
  {
    assert Recurrence([3, 2, 2, 2, 1, 2, 3, 4, 5, 6, 7, 8, 9, 10, 11], [4, 3, 3, 3, 2, 1, 2, 3, 4, 5, 6, 7, 8, 9, 10], 'a', "schwarzenegger", 4);
    assert Recurrence([3, 2, 2, 2, 1, 2, 3, 4, 5, 6, 7, 8, 9, 10, 11], [4, 3, 3, 3, 2, 1, 2, 3, 4, 5, 6, 7, 8, 9, 10], 'a', "schwarzenegger", 9);
  }

  /** Row 5 of the example's table follows from row 4. */
  lemma ExampleRow5()
    ensures Recurrence([4, 3, 3, 3, 2, 1, 2, 3, 4, 5, 6, 7, 8, 9, 10], [5, 4, 4, 4, 3, 2, 1, 2, 3, 4, 5, 6, 7, 8, 9], 'r', "schwarzenegger", 14)
  {
    assert Recurrence([4, 3, 3, 3, 2, 1, 2, 3, 4, 5, 6, 7, 8, 9, 10], [5, 4, 4, 4, 3, 2, 1, 2, 3, 4, 5, 6, 7, 8, 9], 'r', "schwarzenegger", 4);
    assert Recurrence([4, 3, 3, 3, 2, 1, 2, 3, 4, 5, 6, 7, 8, 9, 10], [5, 4, 4, 4, 3, 2, 1, 2, 3, 4, 5, 6, 7, 8, 9], 'r', "schwarzenegger", 9);
  }

  /** Row 6 of the example's table follows from row 5. */
  lemma ExampleRow6()
    ensures Recurrence([5, 4, 4, 4, 3, 2, 1, 2, 3, 4, 5, 6, 7, 8, 9], [6, 5, 5, 5, 4, 3, 2, 2, 3, 4, 5, 6, 7, 8, 9], 't', "schwarzenegger", 14)
  {
    assert Recurrence([5, 4, 4, 4, 3, 2, 1, 2, 3, 4, 5, 6, 7, 8, 9], [6, 5, 5, 5, 4, 3, 2, 2, 3, 4, 5, 6, 7, 8, 9], 't', "schwarzenegger", 4);
    assert Recurrence([5, 4, 4, 4, 3, 2, 1, 2, 3, 4, 5, 6, 7, 8, 9], [6, 5, 5, 5, 4, 3, 2, 2, 3, 4, 5, 6, 7, 8, 9], 't', "schwarzenegger", 9);
  }

  /** Row 7 of the example's table follows from row 6. */
  lemma ExampleRow7()
    ensures Recurrence([6, 5, 5, 5, 4, 3, 2, 2, 3, 4, 5, 6, 7, 8, 9], [7, 6, 6, 6, 5, 4, 3, 2, 3, 4, 5, 6, 7, 8, 9], 'z', "schwarzenegger", 14)
  {
    assert Recurrence([6, 5, 5, 5, 4, 3, 2, 2, 3, 4, 5, 6, 7, 8, 9], [7, 6, 6, 6, 5, 4, 3, 2, 3, 4, 5, 6, 7, 8, 9], 'z', "schwarzenegger", 4);
    assert Recurrence([6, 5, 5, 5, 4, 3, 2, 2, 3, 4, 5, 6, 7, 8, 9], [7, 6, 6, 6, 5, 4, 3, 2, 3, 4, 5, 6, 7, 8, 9], 'z', "schwarzenegger", 9);
  }

  /**
    p is spelled "shwartz". The table lemmas below take such a p rather than
    the string literal, so that the solver sees seven separate characters
    instead of unfolding the literal in every row check.
   */
  predicate SpelledShwartz(p: string) {
    |p| == 7 && p[0] == 's' && p[1] == 'h' && p[2] == 'w' && p[3] == 'a' && p[4] == 'r' && p[5] == 't' && p[6] == 'z'
  }

  lemma ExampleTable0(p: string)
    requires SpelledShwartz(p)
    ensures RowIs(p, "schwarzenegger", 0, [0, 1, 2, 3, 4, 5, 6, 7, 8, 9, 10, 11, 12, 13, 14], 14)
  {
    assert Counting([0, 1, 2, 3, 4, 5, 6, 7, 8, 9, 10, 11, 12, 13, 14], 4);
    assert Counting([0, 1, 2, 3, 4, 5, 6, 7, 8, 9, 10, 11, 12, 13, 14], 9);
    assert Counting([0, 1, 2, 3, 4, 5, 6, 7, 8, 9, 10, 11, 12, 13, 14], 14);
    FirstRow(p, "schwarzenegger", [0, 1, 2, 3, 4, 5, 6, 7, 8, 9, 10, 11, 12, 13, 14], 14);
  }

  lemma ExampleTable1(p: string)
    requires SpelledShwartz(p)
    ensures RowIs(p, "schwarzenegger", 1, [1, 0, 1, 2, 3, 4, 5, 6, 7, 8, 9, 10, 11, 12, 13], 14)
  {
    ExampleTable0(p);
    ExampleRow1();
    NextRow(p, "schwarzenegger", 0, 1, [0, 1, 2, 3, 4, 5, 6, 7, 8, 9, 10, 11, 12, 13, 14], [1, 0, 1, 2, 3, 4, 5, 6, 7, 8, 9, 10, 11, 12, 13], 's', 14);
  }

  lemma ExampleTable2(p: string)
    requires SpelledShwartz(p)
    ensures RowIs(p, "schwarzenegger", 2, [2, 1, 1, 1, 2, 3, 4, 5, 6, 7, 8, 9, 10, 11, 12], 14)
  {
    ExampleTable1(p);
    ExampleRow2();
    NextRow(p, "schwarzenegger", 1, 2, [1, 0, 1, 2, 3, 4, 5, 6, 7, 8, 9, 10, 11, 12, 13], [2, 1, 1, 1, 2, 3, 4, 5, 6, 7, 8, 9, 10, 11, 12], 'h', 14);
  }

  lemma ExampleTable3(p: string)
    requires SpelledShwartz(p)
    ensures RowIs(p, "schwarzenegger", 3, [3, 2, 2, 2, 1, 2, 3, 4, 5, 6, 7, 8, 9, 10, 11], 14)
  {
    ExampleTable2(p);
    ExampleRow3();
    NextRow(p, "schwarzenegger", 2, 3, [2, 1, 1, 1, 2, 3, 4, 5, 6, 7, 8, 9, 10, 11, 12], [3, 2, 2, 2, 1, 2, 3, 4, 5, 6, 7, 8, 9, 10, 11], 'w', 14);
  }

  lemma ExampleTable4(p: string)
    requires SpelledShwartz(p)
    ensures RowIs(p, "schwarzenegger", 4, [4, 3, 3, 3, 2, 1, 2, 3, 4, 5, 6, 7, 8, 9, 10], 14)
  {
    ExampleTable3(p);
    ExampleRow4();
    NextRow(p, "schwarzenegger", 3, 4, [3, 2, 2, 2, 1, 2, 3, 4, 5, 6, 7, 8, 9, 10, 11], [4, 3, 3, 3, 2, 1, 2, 3, 4, 5, 6, 7, 8, 9, 10], 'a', 14);
  }

  lemma ExampleTable5(p: string)
    requires SpelledShwartz(p)
    ensures RowIs(p, "schwarzenegger", 5, [5, 4, 4, 4, 3, 2, 1, 2, 3, 4, 5, 6, 7, 8, 9], 14)
  {
    ExampleTable4(p);
    ExampleRow5();
    NextRow(p, "schwarzenegger", 4, 5, [4, 3, 3, 3, 2, 1, 2, 3, 4, 5, 6, 7, 8, 9, 10], [5, 4, 4, 4, 3, 2, 1, 2, 3, 4, 5, 6, 7, 8, 9], 'r', 14);
  }

  lemma ExampleTable6(p: string)
    requires SpelledShwartz(p)
    ensures RowIs(p, "schwarzenegger", 6, [6, 5, 5, 5, 4, 3, 2, 2, 3, 4, 5, 6, 7, 8, 9], 14)
  {
    ExampleTable5(p);
    ExampleRow6();
    NextRow(p, "schwarzenegger", 5, 6, [5, 4, 4, 4, 3, 2, 1, 2, 3, 4, 5, 6, 7, 8, 9], [6, 5, 5, 5, 4, 3, 2, 2, 3, 4, 5, 6, 7, 8, 9], 't', 14);
  }

  lemma ExampleTable7(p: string)
    requires SpelledShwartz(p)
    ensures RowIs(p, "schwarzenegger", 7, [7, 6, 6, 6, 5, 4, 3, 2, 3, 4, 5, 6, 7, 8, 9], 14)
  {
    ExampleTable6(p);
    ExampleRow7();
    NextRow(p, "schwarzenegger", 6, 7, [6, 5, 5, 5, 4, 3, 2, 2, 3, 4, 5, 6, 7, 8, 9], [7, 6, 6, 6, 5, 4, 3, 2, 3, 4, 5, 6, 7, 8, 9], 'z', 14);
  }

  /** The smallest entry of the last row of the example's table. */
  lemma ExampleLastRowMin()
    ensures RowMin([7, 6, 6, 6, 5, 4, 3, 2, 3, 4, 5, 6, 7, 8, 9], 14) == 2
  {
    assert RowMin([7, 6, 6, 6, 5, 4, 3, 2, 3, 4, 5, 6, 7, 8, 9], 4) == 5;
    assert RowMin([7, 6, 6, 6, 5, 4, 3, 2, 3, 4, 5, 6, 7, 8, 9], 9) == 2;
  }

  /** The table of the example, for p spelled "shwartz". */
  lemma PedExample(p: string)
    requires SpelledShwartz(p)
    ensures Ped(p, "schwarzenegger") == 2
  {
    ExampleTable7(p);
    ExampleLastRowMin();
    PedFromLastRow(p, "schwarzenegger", 7, [7, 6, 6, 6, 5, 4, 3, 2, 3, 4, 5, 6, 7, 8, 9], 14);
  }

  /** The example of the source's documentation: PED("shwartz", "schwarzenegger") = 2. */
  lemma PedShwartz()
    ensures Ped("shwartz", "schwarzenegger") == 2
  {
    assert SpelledShwartz("shwartz");
    PedExample("shwartz");
  }

  /** The body of the source: a constant that happens to match its own example. */
  function ComputePedAsWritten(p: string, s: string): (r: nat)
    ensures r == 2
    ensures p <= s ==> r != Ped(p, s)
  {
    PedZero(p, s);
    2
  }

  /** "a" is a prefix of "a", so its PED is 0, but the body returns 2. */
  lemma ComputePedAsWrittenExample()
    ensures ComputePedAsWritten("a", "a") == 2 && Ped("a", "a") == 0
  {
    PedZero("a", "a");
  }
}
