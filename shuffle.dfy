/** The Fisher-Yates shuffle of `src/App.jsx`. The random draw of an
    index between 0 and `i` (line 10) is replaced by a caller-supplied
    choice sequence: at the step for position `i` the loop swaps `i` with
    `c[i]`, and the random source promises `0 <= c[i] <= i`. */
module FisherYates {
  import opened Seqs

  /** `c` supplies a legal draw for every position below `n`. Entries past
      `n` are unconstrained, so one sequence long enough for the whole deck
      serves every shuffle of the game. */
  predicate ValidChoices(c: seq<nat>, n: nat) {
    n <= |c| && forall i :: 0 <= i < n ==> c[i] <= i
  }

  /** The outcome of the loop when the steps for positions `i - 1` down
      to `1` remain to be done on `s`. `Shuffled(s, c, |s|)` is the whole
      shuffle. */
  function Shuffled<T>(s: seq<T>, c: seq<nat>, i: nat): (r: seq<T>)
    requires i <= |s| && ValidChoices(c, |s|)
    ensures |r| == |s|
    decreases i
  {
    if i <= 1 then s else Shuffled(Swap(s, i - 1, c[i - 1]), c, i - 1)
  }

  /** The shuffle is a permutation of its input. */
  lemma {:induction false} ShuffledPermutes<T>(s: seq<T>, c: seq<nat>, i: nat)
    requires i <= |s| && ValidChoices(c, |s|)
    ensures multiset(Shuffled(s, c, i)) == multiset(s)
    decreases i
  {
    if i > 1 {
      SwapPermutes(s, i - 1, c[i - 1]);
      ShuffledPermutes(Swap(s, i - 1, c[i - 1]), c, i - 1);
    }
  }

  /** Shuffling with the same draws commutes with mapping: shuffling the
      ids (or icons, or flags) of a deck gives the ids of the shuffled deck. */
  lemma {:induction false} ShuffledMap<T, U>(f: T -> U, s: seq<T>, c: seq<nat>, i: nat)
    requires i <= |s| && ValidChoices(c, |s|)
    ensures Shuffled(Map(f, s), c, i) == Map(f, Shuffled(s, c, i))
    decreases i
  {
    if i > 1 {
      SwapMap(f, s, i - 1, c[i - 1]);
      ShuffledMap(f, Swap(s, i - 1, c[i - 1]), c, i - 1);
    }
  }

  /** A shuffle of a sequence without repetitions has none. */
  lemma {:induction false} ShuffledKeepsDistinct<T>(s: seq<T>, c: seq<nat>, i: nat)
    requires i <= |s| && ValidChoices(c, |s|)
    requires Distinct(s)
    ensures Distinct(Shuffled(s, c, i))
    decreases i
  {
    if i > 1 {
      SwapKeepsDistinct(s, i - 1, c[i - 1]);
      ShuffledKeepsDistinct(Swap(s, i - 1, c[i - 1]), c, i - 1);
    }
  }

  /** `shuffle`: copies the input (line 8), so the caller's
      sequence is untouched, then swaps in place from the last position
      down to position 1. The result is a permutation of the input by
      `ShuffledPermutes`. */
  method Shuffle<T>(input: seq<T>, c: seq<nat>) returns (r: seq<T>)
    requires ValidChoices(c, |input|)
    ensures r == Shuffled(input, c, |input|)
    ensures |r| == |input|
  {
    var a := new T[|input|](k requires 0 <= k < |input| => input[k]);
    assert a[..] == input;
    var i := a.Length - 1;
    while i > 0
      invariant -1 <= i < a.Length == |input|
      invariant Shuffled(a[..], c, i + 1) == Shuffled(input, c, |input|)
    {
      var j := c[i];
      ghost var before := a[..];
      var t := a[i];
      a[i] := a[j];
      a[j] := t;
      assert a[..] == Swap(before, i, j);
      i := i - 1;
    }
    r := a[..];
  }
}
