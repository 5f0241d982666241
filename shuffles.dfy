/**
 * The Fisher-Yates shuffle, driven by a sequence of random draws supplied
 * by the caller: step `i` exchanges position `i` with a position at most
 * `i`, the draw reduced as `rand.Intn(i + 1)` reduces it.  The in-memory
 * deck runs `i` upwards; `rand.Shuffle`, which the store uses, runs it
 * downwards from the last position.
 */
module Shuffles {

  /** Exchanges two positions. */
  function Swap<T>(s: seq<T>, i: nat, j: nat): (r: seq<T>)
    requires i < |s| && j < |s|
    ensures |r| == |s|
  {
    s[i := s[j]][j := s[i]]
  }

  /** An exchange only rearranges. */
  lemma SwapPermutes<T>(s: seq<T>, i: nat, j: nat)
    requires i < |s| && j < |s|
    ensures multiset(Swap(s, i, j)) == multiset(s)
  {
  }

  /**
   * The position exchanged with position `i`: the `i`-th draw reduced below
   * `i + 1`; when the draws have run out, `i` itself (no exchange).
   */
  function Choice(js: seq<nat>, i: nat): (j: nat)
    ensures j <= i
  {
    if i < |js| then js[i] % (i + 1) else i
  }

  /** The list after the first `n` steps of the shuffle. */
  function Swaps<T>(s: seq<T>, js: seq<nat>, n: nat): (r: seq<T>)
    requires n <= |s|
    ensures |r| == |s|
  {
    if n == 0 then s else Swap(Swaps(s, js, n - 1), n - 1, Choice(js, n - 1))
  }

  /** The whole shuffle. */
  function Shuffled<T>(s: seq<T>, js: seq<nat>): (r: seq<T>)
    ensures |r| == |s|
  {
    Swaps(s, js, |s|)
  }

  /** Whatever the draws, the shuffle only rearranges. */
  lemma {:induction false} SwapsPermutes<T>(s: seq<T>, js: seq<nat>, n: nat)
    requires n <= |s|
    ensures multiset(Swaps(s, js, n)) == multiset(s)
  {
    if n > 0 {
      SwapsPermutes(s, js, n - 1);
      SwapPermutes(Swaps(s, js, n - 1), n - 1, Choice(js, n - 1));
    }
  }

  lemma ShuffledPermutes<T>(s: seq<T>, js: seq<nat>)
    ensures multiset(Shuffled(s, js)) == multiset(s)
  {
    SwapsPermutes(s, js, |s|);
  }

  // ---- the downward variant of `rand.Shuffle` ----

  /** The number of exchanges of a downward shuffle of `n` elements: one per position from `n - 1` down to 1. */
  function Steps(n: nat): nat {
    if n == 0 then 0 else n - 1
  }

  /**
   * The position exchanged with position `i` at step `t`: the `t`-th draw
   * reduced below `i + 1`; when the draws have run out, `i` itself.
   */
  function DownChoice(js: seq<nat>, t: nat, i: nat): (j: nat)
    ensures j <= i
  {
    if t < |js| then js[t] % (i + 1) else i
  }

  /** The list after the first `t` steps, which exchange positions `|s| - 1`, `|s| - 2`, ... in turn. */
  function DownSwaps<T>(s: seq<T>, js: seq<nat>, t: nat): (r: seq<T>)
    requires t <= Steps(|s|)
    ensures |r| == |s|
  {
    if t == 0 then s else Swap(DownSwaps(s, js, t - 1), |s| - t, DownChoice(js, t - 1, |s| - t))
  }

  /** The whole downward shuffle. */
  function DownShuffled<T>(s: seq<T>, js: seq<nat>): (r: seq<T>)
    ensures |r| == |s|
  {
    DownSwaps(s, js, Steps(|s|))
  }

  /** Whatever the draws, the downward shuffle only rearranges. */
  lemma {:induction false} DownSwapsPermutes<T>(s: seq<T>, js: seq<nat>, t: nat)
    requires t <= Steps(|s|)
    ensures multiset(DownSwaps(s, js, t)) == multiset(s)
  {
    if t > 0 {
      var prev, i := DownSwaps(s, js, t - 1), |s| - t;
      DownSwapsPermutes(s, js, t - 1);
      var j := DownChoice(js, t - 1, i);
      assert DownSwaps(s, js, t) == Swap(prev, i, j);
      SwapPermutes(prev, i, j);
    }
  }

  lemma DownShuffledPermutes<T>(s: seq<T>, js: seq<nat>)
    ensures multiset(DownShuffled(s, js)) == multiset(s)
  {
    DownSwapsPermutes(s, js, Steps(|s|));
  }
}
