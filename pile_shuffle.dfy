/**
 * What `ShuffleAllPiles` does to the tables: each pile of the deck, in
 * ascending id order, has its links cleared and its rows relinked in the
 * order `rand.Shuffle` makes of them, read by ascending id.
 */
module PileShuffle {
  import opened Common
  import opened Chains
  import opened Cards
  import opened Tables
  import opened DeckShuffle

  // ---- relinking as a function ----

  /** The id listed after `id` in `order`; nothing after the last or for an id not listed. */
  function After(order: seq<int>, id: int): Option<int> {
    if order == [] then None
    else if order[0] == id then (if |order| > 1 then Some(order[1]) else None)
    else After(order[1..], id)
  }

  /** In a list without repeats, the id after the `k`-th is the one the `k`-th row must point to. */
  lemma {:induction false} AfterAt(order: seq<int>, k: nat)
    requires Distinct(order) && k < |order|
    ensures After(order, order[k]) == NextOf(order, k)
  {
    if k > 0 {
      var rest := order[1..];
      forall i, j | 0 <= i < j < |rest| ensures rest[i] != rest[j] {
        assert rest[i] == order[i + 1] && rest[j] == order[j + 1];
      }
      assert order[k] == rest[k - 1];
      AfterAt(rest, k - 1);
    }
  }

  /** The rows with those of `order` pointing along it, every other row as it was. */
  function Relink<O>(rows: map<int, Row<O>>, order: seq<int>): map<int, Row<O>> {
    map id | id in rows :: if id in order then rows[id].(next := After(order, id)) else rows[id]
  }

  /** A table relinked along `order` is the function's relinking: there is only one. */
  lemma RelinkedIsRelink<O>(rows: map<int, Row<O>>, rows': map<int, Row<O>>, order: seq<int>)
    requires Distinct(order) && Relinked(rows, rows', order)
    ensures rows' == Relink(rows, order)
  {
    forall id | id in rows' ensures rows'[id] == Relink(rows, order)[id] {
      if id in order {
        var k :| 0 <= k < |order| && order[k] == id;
        AfterAt(order, k);
      }
    }
  }

  /** `UPDATE PileCard SET nextCardId = NULL WHERE pileId = ?`. */
  function Clear(rows: map<int, Row<int>>, p: int): (r: map<int, Row<int>>)
    ensures r.Keys == rows.Keys
    ensures forall id :: id in rows ==> r[id].owner == rows[id].owner && r[id].code == rows[id].code
  {
    map id | id in rows :: if rows[id].owner == p then rows[id].(next := None) else rows[id]
  }

  /** Relinking all of a pile's rows does not see the links the clearing removed. */
  lemma ClearRelink(rows: map<int, Row<int>>, p: int, order: seq<int>)
    requires forall id :: id in order <==> id in OwnedIds(rows, p)
    ensures Relink(Clear(rows, p), order) == Relink(rows, order)
  {
    forall id | id in rows ensures Relink(Clear(rows, p), order)[id] == Relink(rows, order)[id] {
      if id !in order {
        assert id !in OwnedIds(rows, p);
      }
    }
  }

  // ---- one pile ----

  /** Two tables hold the same rows, with the same owners and codes. */
  predicate SameRows(rows: map<int, Row<int>>, rows': map<int, Row<int>>) {
    rows'.Keys == rows.Keys
    && forall id :: id in rows ==> rows'[id].owner == rows[id].owner && rows'[id].code == rows[id].code
  }

  /** `t` differs from `db` only in the links of the pile table. */
  predicate LinksOnly(db: Db, t: Db) {
    && t.decks == db.decks && t.deckCards == db.deckCards && t.piles == db.piles && t.entries == db.entries
    && t.lastCard == db.lastCard && t.lastPile == db.lastPile && t.lastPileCard == db.lastPileCard
    && SameRows(db.pileCards, t.pileCards)
  }

  /**
   * The store after shuffling pile `p` with the draws `js`: its links
   * cleared and its rows relinked in the shuffled order; a pile without
   * rows is left as it is.  Only links change.
   */
  function ShufflePile(db: Db, p: int, js: seq<nat>): (t: Db)
    ensures LinksOnly(db, t)
  {
    var order := ShuffleOrder(db.pileCards, p, js);
    if order == [] then db else db.(pileCards := Relink(Clear(db.pileCards, p), order))
  }

  /** A pile with rows is relinked along its shuffled order. */
  lemma ShufflePileRelinks(db: Db, p: int, js: seq<nat>)
    requires ShuffleOrder(db.pileCards, p, js) != []
    ensures Relinked(db.pileCards, ShufflePile(db, p, js).pileCards, ShuffleOrder(db.pileCards, p, js))
  {
    var order := ShuffleOrder(db.pileCards, p, js);
    ClearRelink(db.pileCards, p, order);
    forall k | 0 <= k < |order| ensures Relink(db.pileCards, order)[order[k]].next == NextOf(order, k) {
      AfterAt(order, k);
    }
  }

  /** Tables holding the same rows give every owner the same rows. */
  lemma SameOwned(rows: map<int, Row<int>>, rows': map<int, Row<int>>, q: int)
    requires SameRows(rows, rows')
    ensures OwnedIds(rows', q) == OwnedIds(rows, q)
  {
    forall id | id in rows ensures id in OwnedIds(rows', q) <==> id in OwnedIds(rows, q) {
      assert rows'[id].owner == rows[id].owner;
    }
  }

  /** The shuffled order lists the pile's ids once each, exactly those of its list. */
  lemma PileOrderIds(db: Db, ord: Orders, p: int, js: seq<nat>)
    requires PileShape(db, ord) && p in db.piles
    ensures forall id :: id in ShuffleOrder(db.pileCards, p, js) <==> id in ord.piles[p]
    ensures multiset(Codes(db.pileCards, ShuffleOrder(db.pileCards, p, js))) == multiset(PileList(db, ord, p))
  {
    var order := ShuffleOrder(db.pileCards, p, js);
    forall id ensures id in order <==> id in ord.piles[p] {
      assert id in order <==> id in OwnedIds(db.pileCards, p);
    }
    SameIdsSameCodes(db.pileCards, order, ord.piles[p]);
  }

  /** The list orders after shuffling pile `p`. */
  function ShuffledOrder(db: Db, ord: Orders, p: int, js: seq<nat>): Orders {
    ord.(piles := ord.piles[p := ShuffleOrder(db.pileCards, p, js)])
  }

  /** Relinking one pile's rows keeps every pile a list: that one in its new order, the others as before. */
  lemma RelinkedPiles(db: Db, ord: Orders, t: Db, p: int, order: seq<int>)
    requires PileShape(db, ord) && p in db.piles && t.piles == db.piles
    requires Distinct(order) && forall id :: id in order <==> id in ord.piles[p]
    requires Relinked(db.pileCards, t.pileCards, order)
    ensures PileShape(t, ord.(piles := ord.piles[p := order]))
    ensures PileList(t, ord.(piles := ord.piles[p := order]), p) == Codes(db.pileCards, order)
    ensures forall q :: q in db.piles && q != p ==> PileList(t, ord.(piles := ord.piles[p := order]), q) == PileList(db, ord, q)
  {
    var o := ord.(piles := ord.piles[p := order]);
    forall q | q in t.piles
      ensures IsChain(t.pileCards, q, o.piles[q])
      ensures Codes(t.pileCards, o.piles[q]) == if q == p then Codes(db.pileCards, order) else PileList(db, ord, q)
    {
      if q == p {
        ChainRelink(db.pileCards, t.pileCards, p, ord.piles[p], order);
        CodesFrame(db.pileCards, t.pileCards, order);
      } else {
        RelinkedOther(db.pileCards, t.pileCards, p, ord.piles[p], order, q, ord.piles[q]);
      }
    }
  }

  /** Shuffling one pile keeps every pile a list: that one in its shuffled order, the others as before. */
  lemma ShufflePileShape(db: Db, ord: Orders, p: int, js: seq<nat>)
    requires PileShape(db, ord) && p in db.piles
    ensures PileShape(ShufflePile(db, p, js), ShuffledOrder(db, ord, p, js))
    ensures PileList(ShufflePile(db, p, js), ShuffledOrder(db, ord, p, js), p) == Codes(db.pileCards, ShuffleOrder(db.pileCards, p, js))
    ensures forall q :: q in db.piles && q != p ==>
      PileList(ShufflePile(db, p, js), ShuffledOrder(db, ord, p, js), q) == PileList(db, ord, q)
  {
    var order := ShuffleOrder(db.pileCards, p, js);
    PileOrderIds(db, ord, p, js);
    if order == [] {
      assert |PileList(db, ord, p)| == 0;
      assert ShuffledOrder(db, ord, p, js) == ord;
    } else {
      ShufflePileRelinks(db, p, js);
      RelinkedPiles(db, ord, ShufflePile(db, p, js), p, order);
    }
  }

  /** Tables holding the same pile rows count the same rows for every deck and code. */
  lemma SamePileRows(db: Db, t: Db, d: DeckId, c: Code)
    requires SameRows(db.pileCards, t.pileCards) && t.piles == db.piles
    ensures PileRows(t, d, c) == PileRows(db, d, c)
  {
    forall id | id in PileRows(t, d, c) ensures id in PileRows(db, d, c) {
      assert t.pileCards[id].owner == db.pileCards[id].owner;
    }
    forall id | id in PileRows(db, d, c) ensures id in PileRows(t, d, c) {
      assert t.pileCards[id].owner == db.pileCards[id].owner;
    }
  }

  /**
   * Changing only the pile table's links keeps the invariant as long as
   * every pile is still a list: the keys, the names and the ledger do not
   * see links.
   */
  lemma RelinkKeeps(db: Db, ord: Orders, t: Db, o: Orders)
    requires Inv(db, ord) && LinksOnly(db, t) && PileShape(t, o) && o.decks == ord.decks
    ensures Inv(t, o)
  {
    forall k | k in t.entries ensures t.entries[k].inPile == |PileRows(t, k.0, k.1)| {
      SamePileRows(db, t, k.0, k.1);
    }
    KeepDeckSide(db, ord, t, o);
  }

  // ---- every pile of a deck ----

  /**
   * `SELECT id, name FROM Pile WHERE deckId = ?`: the ids of deck `d`'s
   * piles, in ascending id order, the fixed order the model chooses for
   * this query without `ORDER BY`.
   */
  function PilesOf(db: Db, d: DeckId): (ps: seq<int>)
    ensures Distinct(ps) && forall p :: p in ps <==> p in db.piles && db.piles[p].deck == d
  {
    Ascending(set p | p in db.piles && db.piles[p].deck == d)
  }

  /** The draws of the `i`-th pile's shuffle; none beyond the draws given. */
  function DrawsFor(jss: seq<seq<nat>>, i: nat): seq<nat> {
    if i < |jss| then jss[i] else []
  }

  /** The store after the first `i` piles of `ps` are shuffled, the `j`-th with the draws `DrawsFor(jss, j)`. */
  function ShuffledPiles(db: Db, ps: seq<int>, jss: seq<seq<nat>>, i: nat): (t: Db)
    requires i <= |ps|
    ensures LinksOnly(db, t)
  {
    if i == 0 then db else ShufflePile(ShuffledPiles(db, ps, jss, i - 1), ps[i - 1], DrawsFor(jss, i - 1))
  }

  /** The list orders after the first `i` piles of `ps` are shuffled. */
  function ShuffledOrders(db: Db, ord: Orders, ps: seq<int>, jss: seq<seq<nat>>, i: nat): Orders
    requires i <= |ps|
  {
    if i == 0 then ord else ShuffledOrder(db, ShuffledOrders(db, ord, ps, jss, i - 1), ps[i - 1], DrawsFor(jss, i - 1))
  }

  /** Shuffling the first `i` piles of `ps` keeps the invariant and relinks each of them. */
  lemma {:induction false} ShuffledPilesKeeps(db: Db, ord: Orders, ps: seq<int>, jss: seq<seq<nat>>, i: nat, t: Db, o: Orders)
    requires PileShape(db, ord) && Distinct(ps) && i <= |ps| && forall j :: 0 <= j < |ps| ==> ps[j] in db.piles
    requires t == ShuffledPiles(db, ps, jss, i) && o == ShuffledOrders(db, ord, ps, jss, i)
    ensures ShuffledSoFar(db, ord, t, o, ps, jss, i)
  {
    if i > 0 {
      var before, ob := ShuffledPiles(db, ps, jss, i - 1), ShuffledOrders(db, ord, ps, jss, i - 1);
      ShuffledPilesKeeps(db, ord, ps, jss, i - 1, before, ob);
      ShuffledStep(db, ord, before, ob, ps, jss, i);
    } else {
      assert ps[..0] == [];
    }
  }

  /**
   * After the first `i` piles of `ps` are shuffled, each of them reads its
   * rows in its own shuffled order and every other pile as before.
   */
  ghost predicate ListsSoFar(db: Db, ord: Orders, t: Db, o: Orders, ps: seq<int>, jss: seq<seq<nat>>, i: nat) {
    && PileShape(db, ord) && PileShape(t, o) && t.piles == db.piles && i <= |ps|
    && (forall j :: 0 <= j < i ==>
          ps[j] in db.piles && PileList(t, o, ps[j]) == Codes(db.pileCards, ShuffleOrder(db.pileCards, ps[j], DrawsFor(jss, j))))
    && (forall q :: q in db.piles && q !in ps[..i] ==> PileList(t, o, q) == PileList(db, ord, q))
  }

  /**
   * After the first `i` piles of `ps` are shuffled: every pile is still a
   * list, only links have changed, and the lists are as `ListsSoFar` says.
   */
  ghost predicate ShuffledSoFar(db: Db, ord: Orders, t: Db, o: Orders, ps: seq<int>, jss: seq<seq<nat>>, i: nat) {
    && PileShape(t, o) && LinksOnly(db, t) && o.decks == ord.decks
    && ListsSoFar(db, ord, t, o, ps, jss, i)
  }

  /** Shuffling the `i`-th pile of `ps` after the ones before it. */
  lemma ShuffledStep(db: Db, ord: Orders, before: Db, ob: Orders, ps: seq<int>, jss: seq<seq<nat>>, i: nat)
    requires PileShape(db, ord) && Distinct(ps) && 0 < i <= |ps| && forall j :: 0 <= j < |ps| ==> ps[j] in db.piles
    requires ShuffledSoFar(db, ord, before, ob, ps, jss, i - 1)
    ensures ShuffledSoFar(db, ord, ShufflePile(before, ps[i - 1], DrawsFor(jss, i - 1)),
                          ShuffledOrder(db, ob, ps[i - 1], DrawsFor(jss, i - 1)), ps, jss, i)
  {
    var p, js := ps[i - 1], DrawsFor(jss, i - 1);
    var t, o := ShufflePile(before, p, js), ShuffledOrder(db, ob, p, js);
    SameOwned(db.pileCards, before.pileCards, p);
    assert ShuffleOrder(before.pileCards, p, js) == ShuffleOrder(db.pileCards, p, js);
    assert o == ShuffledOrder(before, ob, p, js);
    ShufflePileShape(before, ob, p, js);
    CodesFrame(db.pileCards, before.pileCards, ShuffleOrder(db.pileCards, p, js));
    SoFarStep(db, ord, before, ob, t, o, ps, jss, i);
  }

  /** A state that changes only links of `before`, and reads as one more shuffled pile, is one step further. */
  lemma SoFarStep(db: Db, ord: Orders, before: Db, ob: Orders, t: Db, o: Orders, ps: seq<int>, jss: seq<seq<nat>>, i: nat)
    requires PileShape(db, ord) && Distinct(ps) && 0 < i <= |ps| && ps[i - 1] in db.piles
    requires ShuffledSoFar(db, ord, before, ob, ps, jss, i - 1)
    requires PileShape(t, o) && LinksOnly(before, t) && o.decks == ob.decks
    requires PileList(t, o, ps[i - 1]) == Codes(db.pileCards, ShuffleOrder(db.pileCards, ps[i - 1], DrawsFor(jss, i - 1)))
    requires forall q :: q in db.piles && q != ps[i - 1] ==> PileList(t, o, q) == PileList(before, ob, q)
    ensures ShuffledSoFar(db, ord, t, o, ps, jss, i)
  {
    ListsStep(db, ord, before, ob, t, o, ps, jss, i);
  }

  /** The lists after one more pile is shuffled. */
  lemma ListsStep(db: Db, ord: Orders, before: Db, ob: Orders, t: Db, o: Orders, ps: seq<int>, jss: seq<seq<nat>>, i: nat)
    requires PileShape(db, ord) && PileShape(before, ob) && PileShape(t, o)
    requires before.piles == db.piles && t.piles == db.piles
    requires Distinct(ps) && 0 < i <= |ps| && ListsSoFar(db, ord, before, ob, ps, jss, i - 1)
    requires ps[i - 1] in db.piles
    requires PileList(t, o, ps[i - 1]) == Codes(db.pileCards, ShuffleOrder(db.pileCards, ps[i - 1], DrawsFor(jss, i - 1)))
    requires forall q :: q in db.piles && q != ps[i - 1] ==> PileList(t, o, q) == PileList(before, ob, q)
    ensures ListsSoFar(db, ord, t, o, ps, jss, i)
  {
    var p := ps[i - 1];
    forall j | 0 <= j < i - 1 ensures ps[j] != p {
    }
    assert ps[..i] == ps[..i - 1] + [p];
  }

  /**
   * Once every pile of deck `d` is shuffled, the piles of other decks read
   * as before, and every pile holds the same cards as before, reordered.
   */
  lemma AllShuffled(db: Db, ord: Orders, t: Db, o: Orders, d: DeckId, jss: seq<seq<nat>>)
    requires PileShape(db, ord) && ShuffledSoFar(db, ord, t, o, PilesOf(db, d), jss, |PilesOf(db, d)|)
    ensures forall q :: q in db.piles && db.piles[q].deck != d ==> PileList(t, o, q) == PileList(db, ord, q)
    ensures forall q :: q in db.piles ==> multiset(PileList(t, o, q)) == multiset(PileList(db, ord, q))
  {
    var ps := PilesOf(db, d);
    assert ps[..|ps|] == ps;
    forall q | q in db.piles ensures multiset(PileList(t, o, q)) == multiset(PileList(db, ord, q)) {
      if q in ps {
        var j :| 0 <= j < |ps| && ps[j] == q;
        PileOrderIds(db, ord, q, DrawsFor(jss, j));
      }
    }
  }
}
