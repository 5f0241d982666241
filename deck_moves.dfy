/**
 * The edits the engine makes to a deck's list, one statement or one turn of
 * a loop at a time, and what each keeps of the store's invariant.
 */
module DeckMoves {
  import opened Common
  import opened Chains
  import opened Cards
  import opened Tables

  /**
   * `UPDATE DeckEntry SET inDeck = inDeck + dDeck, inPile = inPile + dPile
   * WHERE deckId = d AND code = c`: without that ledger row nothing changes.
   */
  function Adjust(entries: map<(DeckId, Code), Entry>, d: DeckId, c: Code, dDeck: int, dPile: int)
    : (r: map<(DeckId, Code), Entry>)
    ensures r.Keys == entries.Keys
    ensures forall k :: k in entries && k != (d, c) ==> r[k] == entries[k]
  {
    if (d, c) in entries then
      var e := entries[(d, c)];
      entries[(d, c) := Entry(e.total, e.inDeck + dDeck, e.inPile + dPile)]
    else entries
  }

  // ---- drawing the top card ----

  /** Deck `d` has a top card, and its row is there. */
  predicate HasTop(db: Db, d: DeckId) {
    d in db.decks && db.decks[d].top.Some? && db.decks[d].top.value in db.deckCards
  }

  /** The code of the top card of deck `d`. */
  function TopCode(db: Db, d: DeckId): Code
    requires HasTop(db, d)
  {
    db.deckCards[db.decks[d].top.value].code
  }

  /**
   * One turn of the drawing loop: the ledger loses one copy of the top
   * code, the deck's top moves to the row after it and the top row goes.
   */
  function PopTop(db: Db, d: DeckId): (r: Db)
    requires HasTop(db, d)
    ensures r.piles == db.piles && r.pileCards == db.pileCards
    ensures r.lastPile == db.lastPile && r.lastPileCard == db.lastPileCard
    ensures r.decks.Keys == db.decks.Keys && r.entries.Keys == db.entries.Keys
    ensures forall k :: k in db.entries ==> r.entries[k].inPile == db.entries[k].inPile
  {
    var id := db.decks[d].top.value;
    var row := db.deckCards[id];
    db.(entries := Adjust(db.entries, d, row.code, -1, 0),
        decks := db.decks[d := db.decks[d].(top := row.next)],
        deckCards := db.deckCards - {id})
  }

  /** The list order after the top of deck `d` is drawn. */
  function Popped(ord: Orders, d: DeckId): (r: Orders)
    requires d in ord.decks && ord.decks[d] != []
    ensures r.piles == ord.piles && r.decks.Keys == ord.decks.Keys
  {
    ord.(decks := ord.decks[d := ord.decks[d][1..]])
  }

  /** The drawn deck loses its head row and its top moves to the next row. */
  lemma PopTopOwn(db: Db, ord: Orders, d: DeckId)
    requires d in db.decks && d in ord.decks && ord.decks[d] != [] && DeckChain(db, ord, d)
    ensures HasTop(db, d)
    ensures DeckChain(PopTop(db, d), Popped(ord, d), d)
  {
    ChainPop(db.deckCards, d, ord.decks[d]);
  }

  /** Any other deck keeps its list. */
  lemma PopTopOther(db: Db, ord: Orders, d: DeckId, d2: DeckId)
    requires d in db.decks && d in ord.decks && ord.decks[d] != [] && DeckChain(db, ord, d)
    requires d2 in db.decks && d2 in ord.decks && d2 != d && DeckChain(db, ord, d2)
    ensures HasTop(db, d)
    ensures DeckChain(PopTop(db, d), Popped(ord, d), d2)
  {
    var rows' := PopTop(db, d).deckCards;
    var order2 := ord.decks[d2];
    forall k | 0 <= k < |order2| ensures order2[k] in rows' && rows'[order2[k]] == db.deckCards[order2[k]] {
      assert db.deckCards[order2[k]].owner == d2;
    }
    ChainFrame(db.deckCards, rows', d2, order2);
  }

  /** Drawing the top keeps every deck a list, the drawn deck losing its head. */
  lemma PopTopShape(db: Db, ord: Orders, d: DeckId)
    requires DeckShape(db, ord) && d in db.decks && ord.decks[d] != []
    ensures HasTop(db, d)
    ensures DeckShape(PopTop(db, d), Popped(ord, d))
  {
    PopTopOwn(db, ord, d);
    forall d2 | d2 in db.decks && d2 != d ensures DeckChain(PopTop(db, d), Popped(ord, d), d2) {
      PopTopOther(db, ord, d, d2);
    }
  }

  /** Drawing the top keeps `inDeck` equal to the number of rows per code. */
  lemma PopTopCounts(db: Db, ord: Orders, d: DeckId)
    requires DeckShape(db, ord) && DeckEntered(db) && DeckCounts(db) && d in db.decks && ord.decks[d] != []
    ensures HasTop(db, d)
    ensures DeckEntered(PopTop(db, d)) && DeckCounts(PopTop(db, d))
  {
    var id := ord.decks[d][0];
    var c := db.deckCards[id].code;
    var db' := PopTop(db, d);
    forall k | k in db'.entries ensures db'.entries[k].inDeck == |RowsWith(db'.deckCards, k.0, k.1)| {
      RowsWithRemoved(db.deckCards, id, k.0, k.1);
      if k == (d, c) {
        assert id in RowsWith(db.deckCards, d, c);
      } else {
        assert id !in RowsWith(db.deckCards, k.0, k.1);
      }
    }
  }

  /** Drawing the top keeps the deck keys and the bound on the ledger. */
  lemma PopTopBounds(db: Db, d: DeckId)
    requires DeckKeys(db) && Bounded(db)
    requires HasTop(db, d)
    ensures DeckKeys(PopTop(db, d)) && Bounded(PopTop(db, d))
  {
  }

  /** The drawn deck reads as before without its first card. */
  lemma PopTopList(db: Db, ord: Orders, d: DeckId)
    requires DeckShape(db, ord) && d in db.decks && ord.decks[d] != []
    ensures HasTop(db, d)
    ensures TopCode(db, d) == DeckList(db, ord, d)[0]
    ensures DeckShape(PopTop(db, d), Popped(ord, d))
    ensures DeckList(PopTop(db, d), Popped(ord, d), d) == DeckList(db, ord, d)[1..]
  {
    PopTopShape(db, ord, d);
    var order := ord.decks[d];
    CodesFrame(db.deckCards, PopTop(db, d).deckCards, order[1..]);
    assert Codes(db.deckCards, order)[1..] == Codes(db.deckCards, order[1..]);
  }

  /**
   * Drawing the top of a deck that holds cards keeps the invariant; the
   * card drawn is the first of the deck's list and the list loses it.
   */
  lemma PopTopKeeps(db: Db, ord: Orders, d: DeckId)
    requires Inv(db, ord) && d in db.decks && ord.decks[d] != []
    ensures HasTop(db, d)
    ensures TopCode(db, d) == DeckList(db, ord, d)[0]
    ensures Inv(PopTop(db, d), Popped(ord, d))
    ensures DeckList(PopTop(db, d), Popped(ord, d), d) == DeckList(db, ord, d)[1..]
  {
    PopTopList(db, ord, d);
    PopTopCounts(db, ord, d);
    PopTopBounds(db, d);
    KeepPileSide(db, ord, PopTop(db, d), Popped(ord, d));
  }

  /**
   * `n` turns of the drawing loop; a turn that finds no top card ends the
   * loop and leaves the store as it is.
   */
  function PopMany(db: Db, d: DeckId, n: nat): Db {
    if n == 0 then db
    else
      var t := PopMany(db, d, n - 1);
      if HasTop(t, d) then PopTop(t, d) else t
  }

  /** The list order after `n` cards are drawn from deck `d`, as far as it has cards. */
  function PoppedMany(ord: Orders, d: DeckId, n: nat): (r: Orders)
    ensures r.piles == ord.piles && r.decks.Keys == ord.decks.Keys
  {
    if n == 0 then ord
    else
      var o := PoppedMany(ord, d, n - 1);
      if d in o.decks && o.decks[d] != [] then Popped(o, d) else o
  }

  /**
   * Drawing `n` cards, no more than deck `d` holds, keeps the invariant, and
   * the deck's list loses its first `n` cards.
   */
  lemma {:induction false} PopManyKeeps(db: Db, ord: Orders, d: DeckId, n: nat)
    requires Inv(db, ord) && d in db.decks && n <= |DeckList(db, ord, d)|
    ensures d in PopMany(db, d, n).decks && Inv(PopMany(db, d, n), PoppedMany(ord, d, n))
    ensures DeckList(PopMany(db, d, n), PoppedMany(ord, d, n), d) == DeckList(db, ord, d)[n..]
  {
    if n > 0 {
      PopManyKeeps(db, ord, d, n - 1);
      var t, o := PopMany(db, d, n - 1), PoppedMany(ord, d, n - 1);
      PopTopKeeps(t, o, d);
      DropOneMore(DeckList(db, ord, d), n - 1);
    }
  }

  /**
   * Drawing `n` cards, no more than deck `d` has rows, keeps the invariant;
   * from a deck that does not exist nothing is drawn.
   */
  lemma DrawKeeps(db: Db, ord: Orders, d: DeckId, n: nat)
    requires Inv(db, ord) && n <= |OwnedIds(db.deckCards, d)|
    ensures Inv(PopMany(db, d, n), PoppedMany(ord, d, n))
  {
    DeckRowCount(db, ord, d);
    if d in db.decks {
      PopManyKeeps(db, ord, d, n);
    }
  }

  /**
   * While fewer than all its cards are drawn, deck `d` has a top card, the
   * next of its list, and the next turn of the loop draws it.
   */
  lemma DrawnNext(db: Db, ord: Orders, d: DeckId, n: nat)
    requires Inv(db, ord) && d in db.decks && n < |DeckList(db, ord, d)|
    ensures HasTop(PopMany(db, d, n), d) && TopCode(PopMany(db, d, n), d) == DeckList(db, ord, d)[n]
  {
    PopManyKeeps(db, ord, d, n);
    PopTopKeeps(PopMany(db, d, n), PoppedMany(ord, d, n), d);
  }

  /** The codes the first `n` turns of the drawing loop read off deck `d`. */
  function Drawn(db: Db, d: DeckId, n: nat): (r: seq<Code>)
    ensures |r| <= n
  {
    if n == 0 then []
    else
      var t := PopMany(db, d, n - 1);
      Drawn(db, d, n - 1) + if HasTop(t, d) then [TopCode(t, d)] else []
  }

  /** The drawing loop finds a top card as long as the deck still has rows. */
  lemma TopsWhileHeld(db: Db, ord: Orders, d: DeckId)
    requires Inv(db, ord)
    ensures forall n :: 0 <= n < |OwnedIds(db.deckCards, d)| ==> HasTop(PopMany(db, d, n), d)
  {
    DeckRowCount(db, ord, d);
    forall n | 0 <= n < |OwnedIds(db.deckCards, d)| ensures HasTop(PopMany(db, d, n), d) {
      DrawnNext(db, ord, d, n);
    }
  }

  /**
   * Drawing reads the deck's list from the top: the first `n` turns read
   * its first `n` codes.
   */
  lemma {:induction false} DrawnIsList(db: Db, ord: Orders, d: DeckId, n: nat)
    requires Inv(db, ord) && d in db.decks && n <= |DeckList(db, ord, d)|
    ensures Drawn(db, d, n) == DeckList(db, ord, d)[..n]
  {
    if n > 0 {
      DrawnIsList(db, ord, d, n - 1);
      DrawnNext(db, ord, d, n - 1);
      var t := PopMany(db, d, n - 1);
      assert Drawn(db, d, n) == Drawn(db, d, n - 1) + [TopCode(t, d)];
      TakeOneMore(DeckList(db, ord, d), n - 1);
    }
  }
}
