/**
  Normalisation of a record line: every run of non-word characters is
  deleted and what remains is lower-cased. Word characters are the ASCII
  ones, [A-Za-z0-9_].
 */
module Text {

  predicate IsWordChar(c: char) {
    'a' <= c <= 'z' || 'A' <= c <= 'Z' || '0' <= c <= '9' || c == '_'
  }

  predicate IsUpper(c: char) {
    'A' <= c <= 'Z'
  }

  const UpperLetters: string := "ABCDEFGHIJKLMNOPQRSTUVWXYZ"
  const LowerLetters: string := "abcdefghijklmnopqrstuvwxyz"

  /** The lower-case form of an ASCII character; every other character is left as it is. */
  function Lower(c: char): (d: char)
    ensures forall k :: 0 <= k < 26 && c == UpperLetters[k] ==> d == LowerLetters[k]
    ensures !IsUpper(d)
    ensures IsWordChar(d) <==> IsWordChar(c)
    ensures !IsUpper(c) ==> d == c
  {
    if IsUpper(c) then (c as int - 'A' as int + 'a' as int) as char else c
  }

  /** A string already in normal form: only word characters, none upper-case. */
  predicate IsNormal(s: string) {
    forall i :: 0 <= i < |s| ==> IsWordChar(s[i]) && !IsUpper(s[i])
  }

  /** Deletes the non-word characters of `s` and lower-cases the rest, keeping their order. */
  function Normalize(s: string): (r: string)
    ensures IsNormal(r)
    ensures |r| <= |s|
  {
    if s == [] then []
    else (if IsWordChar(s[0]) then [Lower(s[0])] else []) + Normalize(s[1..])
  }

  /** Normalisation works character by character: it distributes over concatenation. */
  lemma {:induction false} NormalizeAppend(a: string, b: string)
    ensures Normalize(a + b) == Normalize(a) + Normalize(b)
  {
    if a == [] {
      assert a + b == b;
    } else {
      assert (a + b)[1..] == a[1..] + b;
      NormalizeAppend(a[1..], b);
    }
  }

  /** Together with NormalizeAppend, pins down Normalize on every string. */
  lemma NormalizeChar(c: char)
    ensures IsWordChar(c) ==> Normalize([c]) == [Lower(c)]
    ensures !IsWordChar(c) ==> Normalize([c]) == []
  {
    assert [c][1..] == [];
  }

  /** A string is left unchanged exactly when it is already in normal form. */
  lemma {:induction false} NormalizeFixedPoint(s: string)
    ensures Normalize(s) == s <==> IsNormal(s)
  {
    if s != [] {
      NormalizeFixedPoint(s[1..]);
      if IsNormal(s) {
        assert IsNormal(s[1..]) by {
          forall i | 0 <= i < |s[1..]| ensures IsWordChar(s[1..][i]) && !IsUpper(s[1..][i]) {
            assert s[1..][i] == s[i + 1];
          }
        }
      }
    }
  }

  /** Normalising twice is the same as normalising once. */
  lemma NormalizeIdempotent(s: string)
    ensures Normalize(Normalize(s)) == Normalize(s)
  {
    NormalizeFixedPoint(Normalize(s));
  }
}
