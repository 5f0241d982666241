/**
 * Pushing rows one after another onto the head of a stored list: each new
 * row takes the next id of its table and points to the row pushed before
 * it, the first one to the old head.  Placing cards in a pile and returning
 * cards to a deck both work this way.
 */
module Stacks {
  import opened Common
  import opened Chains

  /** `s` back to front. */
  function Reverse<T>(s: seq<T>): (r: seq<T>)
    ensures |r| == |s| && forall k :: 0 <= k < |s| ==> r[k] == s[|s| - 1 - k]
  {
    if s == [] then [] else [s[|s| - 1]] + Reverse(s[..|s| - 1])
  }

  /** Reversing keeps every element as often as it was. */
  lemma {:induction false} ReverseMultiset<T>(s: seq<T>)
    ensures multiset(Reverse(s)) == multiset(s)
  {
    if s != [] {
      var n := |s|;
      ReverseMultiset(s[..n - 1]);
      assert s == s[..n - 1] + [s[n - 1]];
    }
  }

  /** Reversing twice gives the sequence back. */
  lemma ReverseReverse<T>(s: seq<T>)
    ensures Reverse(Reverse(s)) == s
  {
    assert forall k :: 0 <= k < |s| ==> Reverse(Reverse(s))[k] == s[k];
  }

  /** Reversing a concatenation reverses the order of its parts. */
  lemma ReverseAppend<T>(a: seq<T>, b: seq<T>)
    ensures Reverse(a + b) == Reverse(b) + Reverse(a)
  {
    assert forall k :: 0 <= k < |a + b| ==> Reverse(a + b)[k] == (Reverse(b) + Reverse(a))[k];
  }

  /** The ids of `n` rows pushed after `base`, the last pushed first. */
  function Stack(base: int, n: nat): (s: seq<int>)
    ensures |s| == n && forall k :: 0 <= k < n ==> s[k] == base + n - k
  {
    if n == 0 then [] else [base + n] + Stack(base, n - 1)
  }

  /** The head of a list with `n` rows pushed on it is the last pushed, or the old head when none is. */
  lemma StackHead(base: int, n: nat, order: seq<int>)
    ensures Head(Stack(base, n) + order) == if n == 0 then Head(order) else Some(base + n)
  {
    if n == 0 {
      assert Stack(base, n) + order == order;
    }
  }

  /**
   * `rows'` is `rows` with the codes `ps` pushed in that order onto the list
   * of `owner` whose head was `top`: the `k`-th push adds the row
   * `base + k + 1`, pointing to the row pushed before it, the first to `top`.
   */
  ghost predicate PushedAll<O>(rows: map<int, Row<O>>, rows': map<int, Row<O>>, owner: O, ps: seq<string>, base: int,
                               top: Option<int>) {
    && (forall id :: id in rows' <==> id in rows || base < id <= base + |ps|)
    && (forall id :: id in rows ==> rows'[id] == rows[id])
    && (forall id :: base < id <= base + |ps| && id in rows' ==>
          rows'[id] == Row(owner, ps[id - base - 1], if id == base + 1 then top else Some(id - 1)))
  }

  /** One more push adds the next row, pointing to the previous one. */
  lemma PushedNext<O>(rows: map<int, Row<O>>, rows': map<int, Row<O>>, owner: O, ps: seq<string>, base: int,
                      top: Option<int>, c: string)
    requires PushedAll(rows, rows', owner, ps, base, top) && forall id :: id in rows ==> id <= base
    ensures PushedAll(rows, rows'[base + |ps| + 1 := Row(owner, c, if ps == [] then top else Some(base + |ps|))],
                      owner, ps + [c], base, top)
  {
  }

  /**
   * The insert loop: each code becomes the next row of the table, pointing
   * to the row inserted before it, the first one to `top`.
   */
  method PushRows<O>(rows: map<int, Row<O>>, owner: O, ps: seq<string>, base: int, top: Option<int>)
    returns (rows': map<int, Row<O>>)
    requires forall id :: id in rows ==> id <= base
    ensures PushedAll(rows, rows', owner, ps, base, top)
  {
    rows' := rows;
    var cur := top;
    for i := 0 to |ps|
      invariant PushedAll(rows, rows', owner, ps[..i], base, top)
      invariant cur == if i == 0 then top else Some(base + i)
    {
      PushedNext(rows, rows', owner, ps[..i], base, top, ps[i]);
      assert ps[..i + 1] == ps[..i] + [ps[i]];
      rows' := rows'[base + i + 1 := Row(owner, ps[i], cur)];
      cur := Some(base + i + 1);
    }
    assert ps[..|ps|] == ps;
  }

  /** The code pushed as row `id`. */
  function PushedCode(ps: seq<string>, base: int, id: int): string
    requires base < id <= base + |ps|
  {
    ps[id - base - 1]
  }

  /** The pushed rows holding `c`. */
  function Landed(ps: seq<string>, base: int, c: string): set<int> {
    set id | base < id <= base + |ps| && PushedCode(ps, base, id) == c
  }

  /** As many rows land holding `c` as `c` was pushed. */
  lemma {:induction false} LandedCount(ps: seq<string>, base: int, c: string)
    ensures |Landed(ps, base, c)| == multiset(ps)[c]
  {
    if ps != [] {
      var n := |ps|;
      var front := ps[..n - 1];
      LandedCount(front, base, c);
      assert ps == front + [ps[n - 1]];
      if ps[n - 1] == c {
        assert Landed(ps, base, c) == Landed(front, base, c) + {base + n};
      } else {
        assert Landed(ps, base, c) == Landed(front, base, c);
      }
    }
  }

  /** The list after the pushes: the new ids, last pushed first, then the old list. */
  lemma PushedLinked<O>(rows: map<int, Row<O>>, rows': map<int, Row<O>>, owner: O, order: seq<int>, ps: seq<string>,
                        base: int, top: Option<int>)
    requires Linked(rows, order) && top == Head(order)
    requires PushedAll(rows, rows', owner, ps, base, top) && forall id :: id in rows ==> id <= base
    ensures Linked(rows', Stack(base, |ps|) + order)
  {
    var n := |ps|;
    var order' := Stack(base, n) + order;
    forall k | 0 <= k < |order'| ensures order'[k] in rows' && rows'[order'[k]].next == NextOf(order', k) {
      if k < n {
        assert order'[k] == base + n - k;
        if k + 1 < n {
          assert order'[k + 1] == base + n - k - 1;
        } else if order != [] {
          assert order'[k + 1] == order[0];
        }
      } else {
        assert order'[k] == order[k - n];
        if k + 1 < |order'| {
          assert order'[k + 1] == order[k - n + 1];
        }
      }
    }
  }

  /** The new ids are above every old one, so the list still lists no id twice. */
  lemma PushedDistinct<O>(rows: map<int, Row<O>>, order: seq<int>, n: nat, base: int)
    requires Distinct(order) && Stored(rows, order) && forall id :: id in rows ==> id <= base
    ensures Distinct(Stack(base, n) + order)
  {
    var order' := Stack(base, n) + order;
    forall i, j | 0 <= i < j < |order'| ensures order'[i] != order'[j] {
      if j >= n {
        assert order'[j] == order[j - n] && order[j - n] in rows;
        if i >= n {
          assert order'[i] == order[i - n];
        }
      }
    }
  }

  /** The owner's rows after the pushes are exactly the new ids and the old list. */
  lemma PushedOwned<O>(rows: map<int, Row<O>>, rows': map<int, Row<O>>, owner: O, order: seq<int>, ps: seq<string>,
                       base: int, top: Option<int>)
    requires forall k :: 0 <= k < |order| ==> order[k] in rows && rows[order[k]].owner == owner
    requires forall id :: id in rows && rows[id].owner == owner ==> id in order
    requires PushedAll(rows, rows', owner, ps, base, top) && forall id :: id in rows ==> id <= base
    ensures forall k :: 0 <= k < |Stack(base, |ps|) + order| ==>
      (Stack(base, |ps|) + order)[k] in rows' && rows'[(Stack(base, |ps|) + order)[k]].owner == owner
    ensures forall id :: id in rows' && rows'[id].owner == owner ==> id in Stack(base, |ps|) + order
  {
    var n := |ps|;
    var order' := Stack(base, n) + order;
    forall k | 0 <= k < |order'| ensures order'[k] in rows' && rows'[order'[k]].owner == owner {
      if k >= n {
        assert order'[k] == order[k - n];
      }
    }
    forall id | id in rows' && rows'[id].owner == owner ensures id in order' {
      if id !in rows {
        assert Stack(base, n)[base + n - id] == id;
      }
    }
  }

  /** The list reads the pushed codes reversed, then what it read before. */
  lemma PushedCodes<O>(rows: map<int, Row<O>>, rows': map<int, Row<O>>, owner: O, order: seq<int>, ps: seq<string>,
                       base: int, top: Option<int>)
    requires Stored(rows, order)
    requires PushedAll(rows, rows', owner, ps, base, top) && forall id :: id in rows ==> id <= base
    ensures Stored(rows', Stack(base, |ps|) + order)
    ensures Codes(rows', Stack(base, |ps|) + order) == Reverse(ps) + Codes(rows, order)
  {
    var n := |ps|;
    var order' := Stack(base, n) + order;
    forall k | 0 <= k < |order'| ensures order'[k] in rows' && rows'[order'[k]].code == (Reverse(ps) + Codes(rows, order))[k] {
      if k >= n {
        assert order'[k] == order[k - n];
      }
    }
  }

  /**
   * The pushed rows head the owner's list, last pushed first, so the list
   * reads the pushed codes reversed, then what it read before.
   */
  lemma PushedChain<O>(rows: map<int, Row<O>>, rows': map<int, Row<O>>, owner: O, order: seq<int>, ps: seq<string>,
                       base: int, top: Option<int>)
    requires IsChain(rows, owner, order) && top == Head(order)
    requires PushedAll(rows, rows', owner, ps, base, top) && forall id :: id in rows ==> id <= base
    ensures IsChain(rows', owner, Stack(base, |ps|) + order)
    ensures Codes(rows', Stack(base, |ps|) + order) == Reverse(ps) + Codes(rows, order)
  {
    PushedLinked(rows, rows', owner, order, ps, base, top);
    PushedDistinct(rows, order, |ps|, base);
    PushedOwned(rows, rows', owner, order, ps, base, top);
    PushedCodes(rows, rows', owner, order, ps, base, top);
  }

  /** Any other owner keeps its list. */
  lemma PushedOther<O>(rows: map<int, Row<O>>, rows': map<int, Row<O>>, owner: O, ps: seq<string>, base: int,
                       top: Option<int>, other: O, order: seq<int>)
    requires PushedAll(rows, rows', owner, ps, base, top) && forall id :: id in rows ==> id <= base
    requires IsChain(rows, other, order) && other != owner
    ensures IsChain(rows', other, order) && Codes(rows', order) == Codes(rows, order)
  {
    ChainFrame(rows, rows', other, order);
    CodesFrame(rows, rows', order);
  }

  /** The owner's rows of `c` gain the pushed rows of `c`; any other owner keeps its rows. */
  lemma PushedRows<O>(rows: map<int, Row<O>>, rows': map<int, Row<O>>, owner: O, ps: seq<string>, base: int,
                      top: Option<int>, other: O, c: string)
    requires PushedAll(rows, rows', owner, ps, base, top) && forall id :: id in rows ==> id <= base
    ensures RowsWith(rows', other, c) == RowsWith(rows, other, c) + if other == owner then Landed(ps, base, c) else {}
  {
    var grown := RowsWith(rows, other, c) + if other == owner then Landed(ps, base, c) else {};
    forall id | id in RowsWith(rows', other, c) ensures id in grown {
      if id !in rows {
        assert PushedCode(ps, base, id) == c;
      }
    }
    forall id | id in grown ensures id in RowsWith(rows', other, c) {
    }
  }

  /** The owner gains a row of `c` per push of `c`; any other owner keeps as many. */
  lemma PushedCount<O>(rows: map<int, Row<O>>, rows': map<int, Row<O>>, owner: O, ps: seq<string>, base: int,
                       top: Option<int>, other: O, c: string)
    requires PushedAll(rows, rows', owner, ps, base, top) && forall id :: id in rows ==> id <= base
    ensures |RowsWith(rows', other, c)| == |RowsWith(rows, other, c)| + if other == owner then multiset(ps)[c] else 0
  {
    PushedRows(rows, rows', owner, ps, base, top, other, c);
    LandedCount(ps, base, c);
    assert RowsWith(rows, other, c) !! Landed(ps, base, c);
  }
}
