/**
 * What `ShuffleDeck` does to the tables: the deck's rows, read by ascending
 * id, shuffled and relinked in the new order, nothing else touched.
 */
module DeckShuffle {
  import opened Common
  import opened Chains
  import opened Cards
  import opened Tables
  import opened Shuffles

  /**
   * The ids of the rows of `d` as `SELECT id, code FROM DeckCard WHERE
   * deckId = ?` returns them, by ascending id; the pile shuffle's `ORDER BY
   * id ASC` reads a pile's rows the same way.
   */
  function Scan<O(==)>(rows: map<int, Row<O>>, d: O): (r: seq<int>)
    ensures Stored(rows, r)
  {
    var r := Ascending(OwnedIds(rows, d));
    assert forall k :: 0 <= k < |r| ==> r[k] in OwnedIds(rows, d);
    r
  }

  /** The rows of `d` in the order the shuffle leaves them: each of its rows once, and no other. */
  function ShuffleOrder<O(==)>(rows: map<int, Row<O>>, d: O, js: seq<nat>): (r: seq<int>)
    ensures Distinct(r) && forall id :: id in r <==> id in OwnedIds(rows, d)
    ensures Stored(rows, r)
  {
    var scan := Scan(rows, d);
    var r := DownShuffled(scan, js);
    DownShuffledPermutes(scan, js);
    PermutedDistinct(scan, r);
    assert forall k :: 0 <= k < |r| ==> r[k] in OwnedIds(rows, d) by {
      forall k | 0 <= k < |r| ensures r[k] in OwnedIds(rows, d) { assert r[k] in scan; }
    }
    r
  }

  /**
   * The shuffled order lists the deck's ids once each, exactly those of its
   * list, and reads the same cards up to order.
   */
  lemma ShuffleOrderIds(db: Db, ord: Orders, d: DeckId, js: seq<nat>)
    requires DeckShape(db, ord) && d in db.decks
    ensures Distinct(ShuffleOrder(db.deckCards, d, js))
    ensures forall id :: id in ShuffleOrder(db.deckCards, d, js) <==> id in ord.decks[d]
    ensures Stored(db.deckCards, ShuffleOrder(db.deckCards, d, js))
    ensures multiset(Codes(db.deckCards, ShuffleOrder(db.deckCards, d, js))) == multiset(DeckList(db, ord, d))
  {
    var order := ShuffleOrder(db.deckCards, d, js);
    forall id ensures id in order <==> id in ord.decks[d] {
      assert id in order <==> id in OwnedIds(db.deckCards, d);
    }
    SameIdsSameCodes(db.deckCards, order, ord.decks[d]);
  }

  /**
   * `rows'` is `rows` with the rows listed in `order` relinked along it,
   * each pointing to the next and the last to nothing; owners, codes and
   * every other row unchanged.
   */
  ghost predicate Relinked<O>(rows: map<int, Row<O>>, rows': map<int, Row<O>>, order: seq<int>) {
    && rows'.Keys == rows.Keys
    && (forall id :: id in rows ==> rows'[id].owner == rows[id].owner && rows'[id].code == rows[id].code)
    && (forall id :: id in rows && id !in order ==> rows'[id] == rows[id])
    && (forall k :: 0 <= k < |order| ==> order[k] in rows' && rows'[order[k]].next == NextOf(order, k))
  }

  /** Rows keeping their owners and codes are counted as before. */
  lemma RelinkedRows<O>(rows: map<int, Row<O>>, rows': map<int, Row<O>>, order: seq<int>, owner: O, c: string)
    requires Relinked(rows, rows', order)
    ensures RowsWith(rows', owner, c) == RowsWith(rows, owner, c)
  {
    forall id | id in RowsWith(rows', owner, c) ensures id in RowsWith(rows, owner, c) {
    }
    forall id | id in RowsWith(rows, owner, c) ensures id in RowsWith(rows', owner, c) {
    }
  }

  /** The store after `ShuffleDeck` commits: deck `d` relinked along `order`, its top the first, marked shuffled. */
  ghost predicate Reshuffled(db: Db, ord: Orders, t: Db, o: Orders, d: DeckId, order: seq<int>) {
    && d in db.decks
    && Relinked(db.deckCards, t.deckCards, order)
    && t == db.(decks := db.decks[d := DeckRow(Head(order), true)], deckCards := t.deckCards)
    && o == ord.(decks := ord.decks[d := order])
  }

  /** Relinking keeps every deck a list: the shuffled one in its new order, the others as before. */
  lemma ReshuffledShape(db: Db, ord: Orders, t: Db, o: Orders, d: DeckId, order: seq<int>)
    requires DeckShape(db, ord) && Reshuffled(db, ord, t, o, d, order)
    requires Distinct(order) && forall id :: id in order <==> id in ord.decks[d]
    ensures DeckShape(t, o) && DeckList(t, o, d) == Codes(db.deckCards, order)
    ensures forall d2 :: d2 in db.decks && d2 != d ==> DeckList(t, o, d2) == DeckList(db, ord, d2)
  {
    assert t.decks.Keys == db.decks.Keys && o.decks.Keys == t.decks.Keys;
    ReshuffledOwn(db, ord, t, o, d, order);
    ReshuffledOthers(db, ord, t, o, d, order);
    DeckShapeFrom(t, o, d);
  }

  /** The shuffled deck is a list in its new order. */
  lemma ReshuffledOwn(db: Db, ord: Orders, t: Db, o: Orders, d: DeckId, order: seq<int>)
    requires DeckShape(db, ord) && Reshuffled(db, ord, t, o, d, order)
    requires Distinct(order) && forall id :: id in order <==> id in ord.decks[d]
    ensures d in t.decks && d in o.decks && DeckChain(t, o, d) && Codes(t.deckCards, o.decks[d]) == Codes(db.deckCards, order)
  {
    assert DeckChain(db, ord, d);
    ChainRelink(db.deckCards, t.deckCards, d, ord.decks[d], order);
    CodesFrame(db.deckCards, t.deckCards, order);
  }

  /** Every other deck is the list it was. */
  lemma ReshuffledOthers(db: Db, ord: Orders, t: Db, o: Orders, d: DeckId, order: seq<int>)
    requires DeckShape(db, ord) && Reshuffled(db, ord, t, o, d, order)
    requires forall id :: id in order <==> id in ord.decks[d]
    ensures forall d2 :: d2 in t.decks && d2 != d ==>
      d2 in o.decks && DeckChain(t, o, d2) && Codes(t.deckCards, o.decks[d2]) == DeckList(db, ord, d2)
  {
    forall d2 | d2 in t.decks && d2 != d
      ensures d2 in o.decks && DeckChain(t, o, d2) && Codes(t.deckCards, o.decks[d2]) == DeckList(db, ord, d2)
    {
      assert DeckChain(db, ord, d) && DeckChain(db, ord, d2);
      RelinkedOther(db.deckCards, t.deckCards, d, ord.decks[d], order, d2, ord.decks[d2]);
    }
  }

  /** Relinking the rows of one owner leaves another owner's list as it was. */
  lemma RelinkedOther<O>(rows: map<int, Row<O>>, rows': map<int, Row<O>>, d: O, before: seq<int>, order: seq<int>,
                        d2: O, order2: seq<int>)
    requires Relinked(rows, rows', order) && forall id :: id in order <==> id in before
    requires IsChain(rows, d, before) && IsChain(rows, d2, order2) && d2 != d
    ensures IsChain(rows', d2, order2) && Codes(rows', order2) == Codes(rows, order2)
  {
    forall k | 0 <= k < |order2| ensures order2[k] in rows' && rows'[order2[k]] == rows[order2[k]] {
      ChainsApart(rows, d2, order2, d, before, k);
    }
    ChainFrame(rows, rows', d2, order2);
    CodesFrame(rows, rows', order2);
  }

  /**
   * `ShuffleDeck` keeps the invariant; the deck reads the shuffled order's
   * cards, every other deck as before, and the ledger is untouched.
   */
  lemma ReshuffledKeeps(db: Db, ord: Orders, t: Db, o: Orders, d: DeckId, order: seq<int>)
    requires Inv(db, ord) && Reshuffled(db, ord, t, o, d, order)
    requires Distinct(order) && forall id :: id in order <==> id in ord.decks[d]
    ensures Inv(t, o) && DeckList(t, o, d) == Codes(db.deckCards, order)
    ensures forall d2 :: d2 in db.decks && d2 != d ==> DeckList(t, o, d2) == DeckList(db, ord, d2)
  {
    ReshuffledShape(db, ord, t, o, d, order);
    forall k | k in t.entries ensures t.entries[k].inDeck == |RowsWith(t.deckCards, k.0, k.1)| {
      RelinkedRows(db.deckCards, t.deckCards, order, k.0, k.1);
    }
    KeepPileSide(db, ord, t, o);
  }
}
