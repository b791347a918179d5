/** The in-place Fisher-Yates shuffle of script.js. `Math.random()` is
    replaced by the caller's choice of index: `picks[i]` is the `j` drawn when
    the loop counter is `i`, so it must satisfy `j <= i`. */
module Shuffle {

  /** `picks` supplies a legal index for every step of a pass over `n` elements. */
  predicate ValidPicks(picks: seq<nat>, n: nat)
  {
    |picks| == n && forall i :: 0 <= i < n ==> picks[i] <= i
  }

  /** `s` with positions `i` and `j` exchanged. */
  function Swap<T>(s: seq<T>, i: nat, j: nat): (r: seq<T>)
    requires i < |s| && j < |s|
    ensures |r| == |s| && r[i] == s[j] && r[j] == s[i]
    ensures forall k :: 0 <= k < |s| && k != i && k != j ==> r[k] == s[k]
  {
    s[i := s[j]][j := s[i]]
  }

  /** The rest of the pass once the counter has reached `i`: swap `i` with
      `picks[i]`, then continue with `i - 1`, stopping when `i` is no longer
      positive. */
  function ShuffledFrom<T>(s: seq<T>, picks: seq<nat>, i: int): seq<T>
    requires ValidPicks(picks, |s|) && -1 <= i < |s|
    decreases i
  {
    if i <= 0 then s else ShuffledFrom(Swap(s, i, picks[i]), picks, i - 1)
  }

  /** The whole pass, starting at the last index. */
  function Shuffled<T>(s: seq<T>, picks: seq<nat>): seq<T>
    requires ValidPicks(picks, |s|)
  {
    ShuffledFrom(s, picks, |s| - 1)
  }

  /** Every pass is a permutation: same length, same multiset of elements. */
  lemma {:induction false} ShuffledFromIsPermutation<T>(s: seq<T>, picks: seq<nat>, i: int)
    requires ValidPicks(picks, |s|) && -1 <= i < |s|
    ensures |ShuffledFrom(s, picks, i)| == |s|
    ensures multiset(ShuffledFrom(s, picks, i)) == multiset(s)
    decreases i
  {
    if i > 0 {
      var t := Swap(s, i, picks[i]);
      assert multiset(t) == multiset(s) by {
        assert t == s[i := s[picks[i]]][picks[i] := s[i]];
      }
      ShuffledFromIsPermutation(t, picks, i - 1);
    }
  }

  lemma ShuffledIsPermutation<T>(s: seq<T>, picks: seq<nat>)
    requires ValidPicks(picks, |s|)
    ensures |Shuffled(s, picks)| == |s| && multiset(Shuffled(s, picks)) == multiset(s)
  {
    ShuffledFromIsPermutation(s, picks, |s| - 1);
  }

  /** `shuffle(array)`: a descending loop that swaps `a[i]` with `a[j]`,
      `0 <= j <= i`, for every `i > 0`. */
  method ShuffleInPlace<T>(a: array<T>, picks: seq<nat>)
    requires ValidPicks(picks, a.Length)
    modifies a
    ensures a[..] == Shuffled(old(a[..]), picks)
    ensures multiset(a[..]) == multiset(old(a[..]))
  {
    var i := a.Length - 1;
    while i > 0
      invariant -1 <= i < a.Length
      invariant ShuffledFrom(a[..], picks, i) == Shuffled(old(a[..]), picks)
      decreases i
    {
      var j := picks[i];
      ghost var before := a[..];
      a[i], a[j] := a[j], a[i];
      assert a[..] == Swap(before, i, j);
      i := i - 1;
    }
    ShuffledIsPermutation(old(a[..]), picks);
  }
}
