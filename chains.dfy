/**
 * Singly linked lists stored in a table: each row names the list it belongs
 * to (`owner`), carries a card code and points to the next row by id.  The
 * `DeckCard` rows (owner: the deck) and the `PileCard` rows (owner: the
 * pile) are both such tables.  A ghost `order` lists the row ids of one list
 * from its head to its tail; `IsChain` says the table links them exactly so.
 */
module Chains {
  import opened Common

  /** A row of a linked table. */
  datatype Row<O> = Row(owner: O, code: string, next: Option<int>)

  /** No id is listed twice. */
  predicate Distinct(s: seq<int>) {
    forall i, j :: 0 <= i < j < |s| ==> s[i] != s[j]
  }

  /** The first id of a list, if any. */
  function Head(order: seq<int>): (h: Option<int>)
    ensures h.Some? <==> order != []
    ensures h.Some? ==> h.value == order[0]
  {
    if order == [] then None else Some(order[0])
  }

  /** What the `k`-th row of `order` must point to: the row after it, or nothing for the tail. */
  function NextOf(order: seq<int>, k: int): Option<int>
    requires 0 <= k < |order|
  {
    if k + 1 < |order| then Some(order[k + 1]) else None
  }

  /** Every listed id is a row of the table. */
  predicate Stored<O>(rows: map<int, Row<O>>, order: seq<int>) {
    forall k :: 0 <= k < |order| ==> order[k] in rows
  }

  /** Each listed row points to the one listed after it, and the last to nothing. */
  predicate Linked<O>(rows: map<int, Row<O>>, order: seq<int>) {
    forall k :: 0 <= k < |order| ==> order[k] in rows && rows[order[k]].next == NextOf(order, k)
  }

  /** The rows of `owner` are exactly the ids of `order`, linked in that order. */
  predicate IsChain<O(==)>(rows: map<int, Row<O>>, owner: O, order: seq<int>) {
    Linked(rows, order) && Distinct(order)
    && (forall k :: 0 <= k < |order| ==> rows[order[k]].owner == owner)
    && (forall id :: id in rows && rows[id].owner == owner ==> id in order)
  }

  /** The codes of the listed rows, in list order. */
  function Codes<O>(rows: map<int, Row<O>>, order: seq<int>): (cs: seq<string>)
    requires Stored(rows, order)
    ensures |cs| == |order|
    ensures forall k :: 0 <= k < |order| ==> cs[k] == rows[order[k]].code
  {
    if order == [] then [] else [rows[order[0]].code] + Codes(rows, order[1..])
  }

  /** The rows of `owner` whose code is `c`. */
  function RowsWith<O(==)>(rows: map<int, Row<O>>, owner: O, c: string): set<int> {
    set id | id in rows && rows[id].owner == owner && rows[id].code == c
  }

  /** The listed ids whose code is `c`. */
  function ListedWith<O>(rows: map<int, Row<O>>, order: seq<int>, c: string): set<int> {
    set id | id in order && id in rows && rows[id].code == c
  }

  /**
   * Counting rows is counting codes: along a list without repeats, the
   * number of rows holding `c` is the multiplicity of `c` in the codes read.
   */
  lemma {:induction false} ListedCount<O>(rows: map<int, Row<O>>, order: seq<int>, c: string)
    requires Stored(rows, order) && Distinct(order)
    ensures |ListedWith(rows, order, c)| == multiset(Codes(rows, order))[c]
  {
    if order != [] {
      var x, rest := order[0], order[1..];
      DistinctTail(order);
      ListedCount(rows, rest, c);
      assert Codes(rows, order) == [rows[x].code] + Codes(rows, rest);
      ListedCons(rows, order, c);
    }
  }

  /** The tail of a list without repeats has no repeats and lacks the head. */
  lemma DistinctTail(order: seq<int>)
    requires Distinct(order) && order != []
    ensures Distinct(order[1..]) && order[0] !in order[1..]
  {
    var rest := order[1..];
    forall i, j | 0 <= i < j < |rest| ensures rest[i] != rest[j] {
      assert rest[i] == order[i + 1] && rest[j] == order[j + 1];
    }
    forall k | 0 <= k < |rest| ensures rest[k] != order[0] {
      assert rest[k] == order[k + 1];
    }
  }

  /** The listed rows holding `c` are the head's, if it holds `c`, and the tail's. */
  lemma ListedCons<O>(rows: map<int, Row<O>>, order: seq<int>, c: string)
    requires Stored(rows, order) && order != [] && order[0] !in order[1..]
    ensures |ListedWith(rows, order, c)| == |ListedWith(rows, order[1..], c)| + if rows[order[0]].code == c then 1 else 0
  {
    var x, rest := order[0], order[1..];
    assert order == [x] + rest;
    var head: set<int> := if rows[x].code == c then {x} else {};
    assert ListedWith(rows, order, c) == ListedWith(rows, rest, c) + head;
    assert x !in ListedWith(rows, rest, c);
  }

  /** In a chain, the rows of the owner holding `c` are the listed ones holding `c`. */
  lemma ChainRows<O>(rows: map<int, Row<O>>, owner: O, order: seq<int>, c: string)
    requires IsChain(rows, owner, order)
    ensures RowsWith(rows, owner, c) == ListedWith(rows, order, c)
    ensures |RowsWith(rows, owner, c)| == multiset(Codes(rows, order))[c]
  {
    forall id | id in ListedWith(rows, order, c) ensures id in RowsWith(rows, owner, c) {
      var k :| 0 <= k < |order| && order[k] == id;
    }
    forall id | id in RowsWith(rows, owner, c) ensures id in ListedWith(rows, order, c) {
      assert id in order;
    }
    ListedCount(rows, order, c);
  }

  /** Deleting a row uncounts it, and only it. */
  lemma RowsWithRemoved<O>(rows: map<int, Row<O>>, x: int, owner: O, c: string)
    ensures RowsWith(rows - {x}, owner, c) == RowsWith(rows, owner, c) - {x}
  {
  }

  /** A fresh row is counted for its own owner and code, and nowhere else. */
  lemma RowsWithAdded<O>(rows: map<int, Row<O>>, x: int, r: Row<O>, owner: O, c: string)
    requires x !in rows
    ensures RowsWith(rows[x := r], owner, c) ==
      if r.owner == owner && r.code == c then RowsWith(rows, owner, c) + {x} else RowsWith(rows, owner, c)
  {
  }

  /** Relinking a row does not change what is counted. */
  lemma RowsWithRelinked<O>(rows: map<int, Row<O>>, x: int, next: Option<int>, owner: O, c: string)
    requires x in rows
    ensures RowsWith(rows[x := rows[x].(next := next)], owner, c) == RowsWith(rows, owner, c)
  {
  }

  /** Two lists of the same ids without repeats read the same codes, up to order. */
  lemma SameIdsSameCodes<O>(rows: map<int, Row<O>>, a: seq<int>, b: seq<int>)
    requires Stored(rows, a) && Stored(rows, b) && Distinct(a) && Distinct(b)
    requires forall id :: id in a <==> id in b
    ensures multiset(Codes(rows, a)) == multiset(Codes(rows, b))
  {
    forall c ensures multiset(Codes(rows, a))[c] == multiset(Codes(rows, b))[c] {
      ListedCount(rows, a, c);
      ListedCount(rows, b, c);
      assert ListedWith(rows, a, c) == ListedWith(rows, b, c);
    }
  }

  // ---- the steps that keep a chain a chain ----

  /** Deleting the head row leaves the rest of the list as the chain. */
  lemma ChainPop<O>(rows: map<int, Row<O>>, owner: O, order: seq<int>)
    requires IsChain(rows, owner, order) && order != []
    ensures IsChain(rows - {order[0]}, owner, order[1..])
  {
    var rest := order[1..];
    var rows' := rows - {order[0]};
    forall k | 0 <= k < |rest| ensures rest[k] in rows' && rows'[rest[k]].next == NextOf(rest, k) {
      assert rest[k] == order[k + 1];
    }
    forall id | id in rows' && rows'[id].owner == owner ensures id in rest {
      var k :| 0 <= k < |order| && order[k] == id;
      assert k != 0;
      assert rest[k - 1] == id;
    }
  }

  /** Adding a fresh row that points to the head makes it the new head. */
  lemma ChainPush<O>(rows: map<int, Row<O>>, owner: O, order: seq<int>, id: int, c: string)
    requires IsChain(rows, owner, order) && id !in rows
    ensures IsChain(rows[id := Row(owner, c, Head(order))], owner, [id] + order)
  {
    var rows' := rows[id := Row(owner, c, Head(order))];
    var order' := [id] + order;
    forall k | 0 <= k < |order'| ensures order'[k] in rows' && rows'[order'[k]].next == NextOf(order', k) {
      if k > 0 {
        assert order'[k] == order[k - 1];
      }
    }
  }

  /**
   * Deleting the row at position `k`: its predecessor, if any, takes over its
   * `next`, and the list loses that one id.
   */
  function Unlink<O>(rows: map<int, Row<O>>, order: seq<int>, k: nat): map<int, Row<O>>
    requires Stored(rows, order) && k < |order|
  {
    var relinked := if k == 0 then rows else rows[order[k - 1] := rows[order[k - 1]].(next := rows[order[k]].next)];
    relinked - {order[k]}
  }

  lemma ChainUnlink<O>(rows: map<int, Row<O>>, owner: O, order: seq<int>, k: nat)
    requires IsChain(rows, owner, order) && k < |order|
    ensures IsChain(Unlink(rows, order, k), owner, order[..k] + order[k + 1..])
  {
    UnlinkLinked(rows, order, k);
    UnlinkDistinct(order, k);
    UnlinkKeeps(rows, order, k);
    UnlinkOwned(rows, Unlink(rows, order, k), owner, order, k, order[..k] + order[k + 1..]);
  }

  /** The listed rows left after an unlink still belong to the owner, and no other row does. */
  lemma UnlinkOwned<O>(rows: map<int, Row<O>>, rows': map<int, Row<O>>, owner: O, order: seq<int>, k: nat, order': seq<int>)
    requires IsChain(rows, owner, order) && k < |order| && order' == order[..k] + order[k + 1..]
    requires rows'.Keys == rows.Keys - {order[k]}
    requires forall id :: id in rows' ==> rows'[id].owner == rows[id].owner
    ensures forall i :: 0 <= i < |order'| ==> order'[i] in rows' && rows'[order'[i]].owner == owner
    ensures forall id :: id in rows' && rows'[id].owner == owner ==> id in order'
  {
    forall i | 0 <= i < |order'| ensures order'[i] in rows' && rows'[order'[i]].owner == owner {
      var i0 := if i < k then i else i + 1;
      assert order'[i] == order[i0];
      assert order[i0] != order[k];
    }
    forall id | id in rows' && rows'[id].owner == owner ensures id in order' {
      assert id in rows && rows[id].owner == owner;
      StillListed(order, k, id);
    }
  }

  /** An id listed other than at position `k` is listed once that position is removed. */
  lemma StillListed(order: seq<int>, k: nat, id: int)
    requires k < |order| && id in order && id != order[k]
    ensures id in order[..k] + order[k + 1..]
  {
    var i :| 0 <= i < |order| && order[i] == id;
    var order' := order[..k] + order[k + 1..];
    if i < k { assert order'[i] == id; } else { assert order'[i - 1] == id; }
  }

  lemma UnlinkLinked<O>(rows: map<int, Row<O>>, order: seq<int>, k: nat)
    requires Linked(rows, order) && Distinct(order) && k < |order|
    ensures Linked(Unlink(rows, order, k), order[..k] + order[k + 1..])
  {
    var rows' := Unlink(rows, order, k);
    var order' := order[..k] + order[k + 1..];
    forall i | 0 <= i < |order'| ensures order'[i] in rows' && rows'[order'[i]].next == NextOf(order', i) {
      var i0 := if i < k then i else i + 1;
      assert order'[i] == order[i0];
      UnlinkAt(rows, order, k, i0);
      if i + 1 < |order'| {
        assert order'[i + 1] == if i + 1 < k then order[i + 1] else order[i + 2];
      }
    }
  }

  /** After unlinking position `k`, another position's row is kept; the one before `k` now points past it. */
  lemma UnlinkAt<O>(rows: map<int, Row<O>>, order: seq<int>, k: nat, j: nat)
    requires Linked(rows, order) && Distinct(order) && k < |order| && j < |order| && j != k
    ensures order[j] in Unlink(rows, order, k)
    ensures Unlink(rows, order, k)[order[j]].next == if j + 1 == k then NextOf(order, k) else NextOf(order, j)
  {
    assert order[j] != order[k];
    if k > 0 && j != k - 1 {
      assert order[j] != order[k - 1];
    }
  }

  lemma UnlinkDistinct(order: seq<int>, k: nat)
    requires Distinct(order) && k < |order|
    ensures Distinct(order[..k] + order[k + 1..])
  {
    var order' := order[..k] + order[k + 1..];
    forall i, j | 0 <= i < j < |order'| ensures order'[i] != order'[j] {
      var i0 := if i < k then i else i + 1;
      var j0 := if j < k then j else j + 1;
      assert order'[i] == order[i0] && order'[j] == order[j0];
    }
  }

  /** What `Unlink` keeps: every other row, with its owner and code. */
  lemma UnlinkKeeps<O>(rows: map<int, Row<O>>, order: seq<int>, k: nat)
    requires Stored(rows, order) && Distinct(order) && k < |order|
    ensures Unlink(rows, order, k).Keys == rows.Keys - {order[k]}
    ensures forall id :: id in Unlink(rows, order, k) ==>
      Unlink(rows, order, k)[id].owner == rows[id].owner && Unlink(rows, order, k)[id].code == rows[id].code
  {
  }

  /** Removing position `k` from a list removes one occurrence of its code from what is read. */
  lemma CodesWithout<O>(rows: map<int, Row<O>>, rows': map<int, Row<O>>, order: seq<int>, k: nat)
    requires Stored(rows, order) && k < |order|
    requires forall i :: 0 <= i < |order| && i != k ==> order[i] in rows' && rows'[order[i]].code == rows[order[i]].code
    ensures Stored(rows', order[..k] + order[k + 1..])
    ensures Codes(rows', order[..k] + order[k + 1..]) == Codes(rows, order)[..k] + Codes(rows, order)[k + 1..]
  {
    var order' := order[..k] + order[k + 1..];
    forall i | 0 <= i < |order'| ensures order'[i] in rows' && rows'[order'[i]].code == rows[order'[i]].code {
      if i < k { assert order'[i] == order[i]; } else { assert order'[i] == order[i + 1]; }
    }
  }

  /**
   * Rows of another owner, or a table that only gained rows of other owners
   * and kept every listed row, leave a chain as it was.
   */
  lemma ChainFrame<O>(rows: map<int, Row<O>>, rows': map<int, Row<O>>, owner: O, order: seq<int>)
    requires IsChain(rows, owner, order)
    requires forall k :: 0 <= k < |order| ==> order[k] in rows' && rows'[order[k]] == rows[order[k]]
    requires forall id :: id in rows' && rows'[id].owner == owner ==> id in rows && rows[id].owner == owner
    ensures IsChain(rows', owner, order)
  {
  }

  /** Codes read along a list depend only on the listed rows' codes. */
  lemma CodesFrame<O>(rows: map<int, Row<O>>, rows': map<int, Row<O>>, order: seq<int>)
    requires Stored(rows, order)
    requires forall k :: 0 <= k < |order| ==> order[k] in rows' && rows'[order[k]].code == rows[order[k]].code
    ensures Stored(rows', order) && Codes(rows', order) == Codes(rows, order)
  {
  }

  /**
   * Relinking the rows of one owner along another order of the same ids,
   * every other row untouched, gives a chain in the new order.
   */
  lemma ChainRelink<O>(rows: map<int, Row<O>>, rows': map<int, Row<O>>, owner: O, order: seq<int>, order': seq<int>)
    requires IsChain(rows, owner, order)
    requires Distinct(order') && forall id :: id in order' <==> id in order
    requires rows'.Keys == rows.Keys && Stored(rows', order')
    requires forall id :: id in rows ==> rows'[id].owner == rows[id].owner && rows'[id].code == rows[id].code
    requires forall k :: 0 <= k < |order'| ==> rows'[order'[k]].next == NextOf(order', k)
    ensures IsChain(rows', owner, order')
  {
    forall k | 0 <= k < |order'| ensures rows'[order'[k]].owner == owner {
      assert order'[k] in order;
      var i :| 0 <= i < |order| && order[i] == order'[k];
    }
  }

  /** A chain of some other owner holds none of this chain's ids. */
  lemma ChainsApart<O>(rows: map<int, Row<O>>, owner: O, order: seq<int>, other: O, order2: seq<int>, k: nat)
    requires IsChain(rows, owner, order) && IsChain(rows, other, order2)
    requires other != owner && k < |order|
    ensures order[k] !in order2
  {
    forall j | 0 <= j < |order2| ensures order2[j] != order[k] {
      assert rows[order2[j]].owner == other;
    }
  }

  // ---- ids in ascending order ----

  /** The ids of the rows of `owner`. */
  function OwnedIds<O(==)>(rows: map<int, Row<O>>, owner: O): set<int> {
    set id | id in rows && rows[id].owner == owner
  }

  /** A list without repeats lists as many ids as it is long. */
  lemma {:induction false} DistinctSize(order: seq<int>)
    requires Distinct(order)
    ensures |(set x | x in order)| == |order|
  {
    if order != [] {
      var rest := order[1..];
      forall i, j | 0 <= i < j < |rest| ensures rest[i] != rest[j] {
        assert rest[i] == order[i + 1] && rest[j] == order[j + 1];
      }
      DistinctSize(rest);
      forall k | 0 <= k < |rest| ensures rest[k] != order[0] { assert rest[k] == order[k + 1]; }
      assert (set x | x in order) == (set x | x in rest) + {order[0]};
    }
  }

  /** An owner has as many rows as its chain is long. */
  lemma ChainSize<O>(rows: map<int, Row<O>>, owner: O, order: seq<int>)
    requires IsChain(rows, owner, order)
    ensures |OwnedIds(rows, owner)| == |order|
  {
    ChainOwned(rows, owner, order);
    forall x ensures x in OwnedIds(rows, owner) <==> x in (set y | y in order) { }
    assert OwnedIds(rows, owner) == set x | x in order;
    DistinctSize(order);
  }

  /** An owner's rows are exactly the ids of its chain. */
  lemma ChainOwned<O>(rows: map<int, Row<O>>, owner: O, order: seq<int>)
    requires IsChain(rows, owner, order)
    ensures forall x :: x in OwnedIds(rows, owner) <==> x in order
  {
    forall x | x in order ensures x in OwnedIds(rows, owner) {
      var k :| 0 <= k < |order| && order[k] == x;
    }
  }

  /** A set that is not empty has an element. */
  lemma SomeElement(s: set<int>)
    requires s != {}
    ensures exists y :: y in s
  {
    if forall y :: y !in s { assert false; }
  }

  lemma {:induction false} MinExists(s: set<int>)
    requires s != {}
    ensures exists m :: m in s && forall x :: x in s ==> m <= x
    decreases |s|
  {
    SomeElement(s);
    var y :| y in s;
    var rest := s - {y};
    if rest == {} {
      assert s == {y};
      assert y in s && forall x :: x in s ==> y <= x;
    } else {
      MinExists(rest);
      var m :| m in rest && forall x :: x in rest ==> m <= x;
      var w := if y < m then y else m;
      forall x | x in s ensures w <= x {
        if x != y { assert x in rest; }
      }
      assert w in s;
    }
  }

  /** The least id of a non-empty set. */
  function MinId(s: set<int>): (m: int)
    requires s != {}
    ensures m in s && forall x :: x in s ==> m <= x
  {
    MinExists(s);
    var m :| m in s && forall x :: x in s ==> m <= x;
    m
  }

  /**
   * The ids of a set in ascending order: the order in which the engine
   * scans a table by row id, and the one an `ORDER BY id ASC` asks for.
   */
  function Ascending(s: set<int>): (r: seq<int>)
    ensures |r| == |s| && Distinct(r)
    ensures forall x :: x in r <==> x in s
    ensures forall i, j :: 0 <= i < j < |r| ==> r[i] < r[j]
    decreases |s|
  {
    if s == {} then []
    else
      var m := MinId(s);
      var rest := Ascending(s - {m});
      AscendingCons(s, m, rest);
      [m] + rest
  }

  /** The least id of a set, above the rest of it in ascending order, is the set in ascending order. */
  lemma AscendingCons(s: set<int>, m: int, rest: seq<int>)
    requires m in s && forall x :: x in s ==> m <= x
    requires |rest| == |s - {m}| && Distinct(rest)
    requires forall x :: x in rest <==> x in s && x != m
    requires forall i, j :: 0 <= i < j < |rest| ==> rest[i] < rest[j]
    ensures |[m] + rest| == |s| && Distinct([m] + rest)
    ensures forall x :: x in [m] + rest <==> x in s
    ensures forall i, j :: 0 <= i < j < |[m] + rest| ==> ([m] + rest)[i] < ([m] + rest)[j]
  {
    forall k | 0 <= k < |rest| ensures m < rest[k] { assert rest[k] in rest; }
    var r := [m] + rest;
    forall i, j | 0 <= i < j < |r| ensures r[i] < r[j] {
      if i == 0 { assert r[j] == rest[j - 1]; } else { assert r[i] == rest[i - 1] && r[j] == rest[j - 1]; }
    }
  }

  // ---- rearranging a list of ids ----

  /** A list without repeats holds each id at most once. */
  lemma {:induction false} DistinctCount(a: seq<int>, x: int)
    requires Distinct(a)
    ensures multiset(a)[x] <= 1
  {
    if a != [] {
      var rest := a[1..];
      assert a == [a[0]] + rest;
      forall i, j | 0 <= i < j < |rest| ensures rest[i] != rest[j] {
        assert rest[i] == a[i + 1] && rest[j] == a[j + 1];
      }
      DistinctCount(rest, x);
      if a[0] == x {
        forall k | 0 <= k < |rest| ensures rest[k] != x { assert rest[k] == a[k + 1]; }
        assert x !in rest;
      }
    }
  }

  /** An id listed at two positions is counted twice. */
  lemma RepeatCount(b: seq<int>, i: nat, j: nat)
    requires i < j < |b| && b[i] == b[j]
    ensures multiset(b)[b[i]] >= 2
  {
    assert b == b[..j] + b[j..];
    assert b[i] == b[..j][i];
    assert b[j] == b[j..][0];
    assert multiset(b) == multiset(b[..j]) + multiset(b[j..]);
  }

  /** A rearrangement of a list without repeats has no repeats and the same ids. */
  lemma PermutedDistinct(a: seq<int>, b: seq<int>)
    requires multiset(a) == multiset(b) && Distinct(a)
    ensures Distinct(b)
    ensures forall x :: x in a <==> x in b
  {
    forall i, j | 0 <= i < j < |b| ensures b[i] != b[j] {
      if b[i] == b[j] {
        RepeatCount(b, i, j);
        DistinctCount(a, b[i]);
        assert false;
      }
    }
    forall x ensures x in a <==> x in b {
      assert x in a <==> x in multiset(a);
      assert x in b <==> x in multiset(b);
    }
  }
}
