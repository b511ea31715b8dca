/** The random reorderings of the source (`[...xs].sort(() => Math.random() - 0.5)`)
    made deterministic: a sequence of choices `c` picks, step by step, which of the
    remaining elements comes next. A choice is read modulo the number of elements
    left and a missing choice reads as 0, so every choice sequence is admissible
    and every permutation is reachable. */
module Reorder {
  import opened Types

  /** `s.filter((_, i) => i !== j)`: the element at `j` is dropped and the
      others keep their order. */
  function RemoveAt<T>(s: seq<T>, j: nat): (r: seq<T>)
    requires j < |s|
    ensures |r| == |s| - 1
    ensures forall k :: 0 <= k < j ==> r[k] == s[k]
    ensures forall k :: j <= k < |r| ==> r[k] == s[k + 1]
  {
    s[..j] + s[j+1..]
  }

  /** The index the next choice selects among `n` remaining elements. */
  function Choice(c: seq<nat>, n: nat): (j: nat)
    requires n > 0
    ensures j < n
  {
    (if c == [] then 0 else c[0]) % n
  }

  function Shuffle<T>(s: seq<T>, c: seq<nat>): (r: seq<T>)
    ensures multiset(r) == multiset(s)
    decreases |s|
  {
    if s == [] then []
    else
      var j := Choice(c, |s|);
      assert s == s[..j] + [s[j]] + s[j+1..];
      [s[j]] + Shuffle(RemoveAt(s, j), if c == [] then [] else c[1..])
  }

  /** A permutation has the same length as what it permutes. */
  lemma ShuffleLength<T>(s: seq<T>, c: seq<nat>)
    ensures |Shuffle(s, c)| == |s|
  {
    assert |multiset(Shuffle(s, c))| == |multiset(s)|;
  }

  /** In a duplicate-free sequence every element occurs once. */
  lemma {:induction false} DistinctOccursOnce<T>(s: seq<T>, x: T)
    requires Distinct(s)
    ensures multiset(s)[x] <= 1
  {
    if s != [] {
      assert s == [s[0]] + s[1..];
      DistinctOccursOnce(s[1..], x);
      assert s[0] !in s[1..];
    }
  }

  /** Reordering keeps a sequence duplicate-free. */
  lemma PermutationKeepsDistinct<T>(a: seq<T>, b: seq<T>)
    requires multiset(a) == multiset(b)
    requires Distinct(a)
    ensures Distinct(b)
  {
    forall i, j | 0 <= i < j < |b|
      ensures b[i] != b[j]
    {
      if b[i] == b[j] {
        var x := b[i];
        assert b == b[..i] + [x] + b[i+1..j] + [x] + b[j+1..];
        assert multiset(b)[x] >= 2;
        DistinctOccursOnce(a, x);
        assert false;
      }
    }
  }

  /** Shuffling a duplicate-free sequence and taking a prefix yields no repeated
      element, and every element comes from the original. */
  lemma ShufflePrefixDistinct<T>(s: seq<T>, c: seq<nat>, k: nat)
    requires Distinct(s)
    requires k <= |s|
    ensures |Shuffle(s, c)| == |s|
    ensures Distinct(Shuffle(s, c)[..k])
    ensures multiset(Shuffle(s, c)[..k]) <= multiset(s)
  {
    var r := Shuffle(s, c);
    ShuffleLength(s, c);
    PermutationKeepsDistinct(s, r);
    assert r == r[..k] + r[k..];
  }
}
