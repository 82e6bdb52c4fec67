/**
  The q-grams of a record: the string is padded on both sides with q - 1
  copies of the sentinel '$', and every window of length q is taken, from
  left to right.
 */
module Qgrams {

  const Sentinel: char := '$'

  /** "$" * (q - 1); a non-positive repeat count gives the empty string. */
  function Padding(q: nat): string {
    seq(if q == 0 then 0 else q - 1, _ => Sentinel)
  }

  function Padded(s: string, q: nat): string {
    Padding(q) + s + Padding(q)
  }

  /** The q-grams of `s`, window by window; q == 0 gives |s| + 1 empty windows. */
  function QgramsOf(s: string, q: nat): (grams: seq<string>)
    ensures |grams| == if q == 0 then |s| + 1 else |s| + q - 1
    ensures forall i :: 0 <= i < |grams| ==> |grams[i]| == q
  {
    var padded := Padded(s, q);
    seq(|padded| - q + 1, i requires 0 <= i <= |padded| - q => padded[i..i + q])
  }

  /** The first q-gram starts with the whole padding and the last one ends with it. */
  lemma QgramsPadding(s: string, q: nat)
    requires q >= 2
    ensures QgramsOf(s, q)[0][..q - 1] == Padding(q)
    ensures QgramsOf(s, q)[|s| + q - 2][1..] == Padding(q)
  {
    var padded := Padded(s, q);
    assert QgramsOf(s, q)[0] == padded[0..q];
    assert QgramsOf(s, q)[|s| + q - 2] == padded[|s| + q - 2..|s| + 2 * q - 2];
  }

  /** Consecutive q-grams overlap in q - 1 characters. */
  lemma QgramsOverlap(s: string, q: nat, i: nat)
    requires q >= 1 && i + 1 < |QgramsOf(s, q)|
    ensures QgramsOf(s, q)[i][1..] == QgramsOf(s, q)[i + 1][..q - 1]
  {
  }

  /** The string the q-grams came from, read back: the first q-gram and then the last character of each later one. */
  function Reassemble(grams: seq<string>, q: nat): (t: string)
    requires q >= 1 && |grams| > 0
    requires forall i :: 0 <= i < |grams| ==> |grams[i]| == q
    ensures |t| == |grams| + q - 1
  {
    grams[0] + seq(|grams| - 1, i requires 0 <= i < |grams| - 1 => grams[i + 1][q - 1])
  }

  function Unpad(t: string, q: nat): string
    requires q >= 1 && |t| >= 2 * (q - 1)
  {
    t[q - 1..|t| - (q - 1)]
  }

  /** The q-grams determine the record: reassembling them and removing the padding gives the record back. */
  lemma QgramsRoundTrip(s: string, q: nat)
    requires q >= 1 && |s| + q >= 2
    ensures Reassemble(QgramsOf(s, q), q) == Padded(s, q)
    ensures Unpad(Reassemble(QgramsOf(s, q), q), q) == s
  {
    var grams := QgramsOf(s, q);
    var padded := Padded(s, q);
    var t := Reassemble(grams, q);
    assert |t| == |padded|;
    forall k | 0 <= k < |t| ensures t[k] == padded[k] {
      if k >= q {
        assert t[k] == grams[k - q + 1][q - 1];
      }
    }
    assert t == padded;
    assert padded[q - 1..|padded| - (q - 1)] == s;
  }

  /** The example of the source's documentation. */
  lemma QgramsBana()
    ensures QgramsOf("bana", 3) == ["$$b", "$ba", "ban", "ana", "na$", "a$$"]
  {
    var padded := Padded("bana", 3);
    assert padded == "$$bana$$";
    var grams := QgramsOf("bana", 3);
    assert grams[0] == padded[0..3] == "$$b";
    assert grams[1] == padded[1..4] == "$ba";
    assert grams[2] == padded[2..5] == "ban";
    assert grams[3] == padded[3..6] == "ana";
    assert grams[4] == padded[4..7] == "na$";
    assert grams[5] == padded[5..8] == "a$$";
  }
}
