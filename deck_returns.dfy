/**
 * Putting cards back on top of a deck: the rows pushed onto the deck's
 * list, the deck's `topCardId` moved to the last of them, and the ledger
 * counting the returned copies in the deck again.  Returning a whole pile
 * first empties the pile; what that keeps is here too.
 */
module DeckReturns {
  import opened Common
  import opened Chains
  import opened Cards
  import opened Tables
  import opened Stacks
  import opened DeckMoves
  import opened PileMoves

  /** The ledger with every code of deck `d` counting its copies in `ps` more in the deck list. */
  function Restocked(entries: map<(DeckId, Code), Entry>, d: DeckId, ps: seq<Code>): (r: map<(DeckId, Code), Entry>)
    ensures r.Keys == entries.Keys
  {
    map k | k in entries :: if k.0 == d then entries[k].(inDeck := entries[k].inDeck + multiset(ps)[k.1]) else entries[k]
  }

  /**
   * The deck side of a return: deck `d`'s rows gain the codes `ps` pushed in
   * that order, the `k`-th as the row `lastCard + k + 1` pointing to the row
   * pushed before it, the first to the old top; the deck's top is the last
   * pushed, and no other deck changes.
   */
  ghost predicate DeckPushed(db: Db, ord: Orders, t: Db, o: Orders, d: DeckId, ps: seq<Code>) {
    && d in db.decks && d in ord.decks
    && PushedAll(db.deckCards, t.deckCards, d, ps, db.lastCard, Head(ord.decks[d]))
    && o.decks == ord.decks[d := Stack(db.lastCard, |ps|) + ord.decks[d]]
    && t.decks == db.decks[d := db.decks[d].(top := Head(o.decks[d]))]
  }

  /**
   * `t` is `db` with the codes `ps` returned to the top of deck `d`, in that
   * order, and the ledger counting the returned copies in the deck.
   */
  ghost predicate Returned(db: Db, ord: Orders, t: Db, o: Orders, d: DeckId, ps: seq<Code>) {
    && DeckPushed(db, ord, t, o, d, ps)
    && o.piles == ord.piles
    && t == db.(decks := t.decks, deckCards := t.deckCards, entries := Restocked(db.entries, d, ps),
                lastCard := db.lastCard + |ps|)
  }

  /** The pushed rows head the deck, last pushed first; every other deck keeps its list. */
  lemma ReturnedShape(db: Db, ord: Orders, t: Db, o: Orders, d: DeckId, ps: seq<Code>)
    requires Issued(db) && DeckShape(db, ord) && DeckPushed(db, ord, t, o, d, ps)
    ensures DeckShape(t, o)
    ensures DeckList(t, o, d) == Reverse(ps) + DeckList(db, ord, d)
    ensures forall e :: e in db.decks && e != d ==> DeckList(t, o, e) == DeckList(db, ord, e)
  {
    assert t.decks.Keys == db.decks.Keys && o.decks.Keys == t.decks.Keys;
    ReturnedOwn(db, ord, t, o, d, ps);
    ReturnedOthers(db, ord, t, o, d, ps);
    DeckShapeFrom(t, o, d);
  }

  /** Every other deck is the list it was. */
  lemma ReturnedOthers(db: Db, ord: Orders, t: Db, o: Orders, d: DeckId, ps: seq<Code>)
    requires Issued(db) && DeckShape(db, ord) && DeckPushed(db, ord, t, o, d, ps)
    ensures forall e :: e in db.decks && e != d ==>
      IsChain(t.deckCards, e, o.decks[e]) && t.decks[e].top == Head(o.decks[e])
      && Codes(t.deckCards, o.decks[e]) == Codes(db.deckCards, ord.decks[e])
  {
    forall e | e in db.decks && e != d
      ensures IsChain(t.deckCards, e, o.decks[e]) && t.decks[e].top == Head(o.decks[e])
      ensures Codes(t.deckCards, o.decks[e]) == Codes(db.deckCards, ord.decks[e])
    {
      ReturnedOther(db, ord, t, o, d, ps, e);
    }
  }

  /** The returned deck is one list again, the pushed codes reversed above what it read. */
  lemma ReturnedOwn(db: Db, ord: Orders, t: Db, o: Orders, d: DeckId, ps: seq<Code>)
    requires Issued(db) && DeckShape(db, ord) && DeckPushed(db, ord, t, o, d, ps)
    ensures IsChain(t.deckCards, d, o.decks[d]) && t.decks[d].top == Head(o.decks[d])
    ensures Codes(t.deckCards, o.decks[d]) == Reverse(ps) + Codes(db.deckCards, ord.decks[d])
  {
    PushedChain(db.deckCards, t.deckCards, d, ord.decks[d], ps, db.lastCard, Head(ord.decks[d]));
  }

  /** Returning cards to one deck leaves another deck's list as it was. */
  lemma ReturnedOther(db: Db, ord: Orders, t: Db, o: Orders, d: DeckId, ps: seq<Code>, e: DeckId)
    requires Issued(db) && DeckShape(db, ord) && DeckPushed(db, ord, t, o, d, ps) && e in db.decks && e != d
    ensures IsChain(t.deckCards, e, o.decks[e]) && t.decks[e].top == Head(o.decks[e])
    ensures Codes(t.deckCards, o.decks[e]) == Codes(db.deckCards, ord.decks[e])
  {
    PushedOther(db.deckCards, t.deckCards, d, ps, db.lastCard, Head(ord.decks[d]), e, ord.decks[e]);
  }

  /** The ledger raised by the pushed codes counts the deck rows. */
  lemma ReturnedCounts(db: Db, ord: Orders, t: Db, o: Orders, d: DeckId, ps: seq<Code>)
    requires DeckKeys(db) && DeckEntered(db) && DeckCounts(db) && Room(db.entries, d, ps)
    requires Returned(db, ord, t, o, d, ps)
    ensures DeckEntered(t) && DeckCounts(t)
  {
    var base := db.lastCard;
    forall id | id in t.deckCards ensures (t.deckCards[id].owner, t.deckCards[id].code) in t.entries {
      if id !in db.deckCards {
        assert t.deckCards[id].code == ps[id - base - 1];
      }
    }
    forall k | k in t.entries ensures t.entries[k].inDeck == |RowsWith(t.deckCards, k.0, k.1)| {
      PushedCount(db.deckCards, t.deckCards, d, ps, base, Head(ord.decks[d]), k.0, k.1);
    }
  }

  /** Pushing cards keeps the keys, the bound and the pile side. */
  lemma ReturnedRest(db: Db, ord: Orders, t: Db, o: Orders, d: DeckId, ps: seq<Code>)
    requires DeckKeys(db) && PileSide(db, ord) && Bounded(db) && Room(db.entries, d, ps)
    requires Returned(db, ord, t, o, d, ps)
    ensures DeckKeys(t) && Bounded(t) && PileSide(t, o)
  {
    forall k | k in t.entries ensures t.entries[k].inDeck + t.entries[k].inPile <= t.entries[k].total {
      if k.0 == d && k.1 !in ps {
        assert multiset(ps)[k.1] == 0;
      }
    }
    KeepPileSide(db, ord, t, o);
  }

  /**
   * Returning cards the deck has room for keeps the invariant: the deck
   * reads the returned codes, last returned first, above what it read, and
   * every other deck and pile reads as before.
   */
  lemma ReturnKeeps(db: Db, ord: Orders, t: Db, o: Orders, d: DeckId, ps: seq<Code>)
    requires Inv(db, ord) && Room(db.entries, d, ps) && Returned(db, ord, t, o, d, ps)
    ensures Inv(t, o)
    ensures DeckList(t, o, d) == Reverse(ps) + DeckList(db, ord, d)
    ensures forall e :: e in db.decks && e != d ==> DeckList(t, o, e) == DeckList(db, ord, e)
    ensures t.decks.Keys == db.decks.Keys
    ensures t.piles == db.piles && t.pileCards == db.pileCards && o.piles == ord.piles
  {
    ReturnedShape(db, ord, t, o, d, ps);
    ReturnedCounts(db, ord, t, o, d, ps);
    ReturnedRest(db, ord, t, o, d, ps);
  }

  /** Counting one more copy of `c` in the deck is restocking it with `[c]`. */
  lemma RestockedOne(entries: map<(DeckId, Code), Entry>, d: DeckId, c: Code)
    requires (d, c) in entries
    ensures Adjust(entries, d, c, 1, 0) == Restocked(entries, d, [c])
  {
    var r, s := Adjust(entries, d, c, 1, 0), Restocked(entries, d, [c]);
    forall k | k in entries ensures r[k] == s[k] {
      if k.0 == d && k.1 != c {
        assert multiset([c])[k.1] == 0;
      }
    }
  }

  /** Room for one copy of `c` is a copy neither in the deck list nor in a pile. */
  lemma RoomOne(entries: map<(DeckId, Code), Entry>, d: DeckId, c: Code)
    requires (d, c) in entries && entries[(d, c)].inDeck + entries[(d, c)].inPile < entries[(d, c)].total
    ensures Room(entries, d, [c])
  {
  }

  // ---- emptying a pile ----

  /** `DELETE FROM PileCard WHERE pileId = p`. */
  function DropPile(rows: map<int, Row<int>>, p: int): (r: map<int, Row<int>>)
    ensures forall id :: id in r <==> id in rows && rows[id].owner != p
  {
    map id | id in rows && rows[id].owner != p :: rows[id]
  }

  /** The ledger of deck `d` with the copies of `codes` no longer counted in piles. */
  function Unpiled(entries: map<(DeckId, Code), Entry>, d: DeckId, codes: seq<Code>): (r: map<(DeckId, Code), Entry>)
    ensures r.Keys == entries.Keys
  {
    map k | k in entries :: if k.0 == d then entries[k].(inPile := entries[k].inPile - multiset(codes)[k.1]) else entries[k]
  }

  /** `db` with pile `p` emptied of its rows and the ledger uncounting `codes` from the pile's deck. */
  function Emptied(db: Db, p: int, codes: seq<Code>): Db
    requires p in db.piles
  {
    db.(pileCards := DropPile(db.pileCards, p), entries := Unpiled(db.entries, db.piles[p].deck, codes))
  }

  /** The emptied pile reads nothing; every other pile reads as before. */
  lemma EmptiedShape(db: Db, ord: Orders, p: int, codes: seq<Code>)
    requires PileShape(db, ord) && p in db.piles
    ensures PileShape(Emptied(db, p, codes), ord.(piles := ord.piles[p := []]))
    ensures forall q :: q in db.piles && q != p ==>
      PileList(Emptied(db, p, codes), ord.(piles := ord.piles[p := []]), q) == PileList(db, ord, q)
  {
    var rows := DropPile(db.pileCards, p);
    var t, o := Emptied(db, p, codes), ord.(piles := ord.piles[p := []]);
    assert t.pileCards == rows && t.piles == db.piles && o.piles.Keys == t.piles.Keys;
    forall q | q in db.piles && q != p
      ensures IsChain(rows, q, ord.piles[q]) && Codes(rows, ord.piles[q]) == Codes(db.pileCards, ord.piles[q])
    {
      KeptPile(db, ord, p, q);
    }
    forall id | id in rows ensures rows[id].owner != p {
    }
    assert IsChain(rows, p, o.piles[p]);
  }

  /** A pile other than the emptied one keeps its list and what it reads. */
  lemma KeptPile(db: Db, ord: Orders, p: int, q: int)
    requires PileShape(db, ord) && q in db.piles && q != p
    ensures IsChain(DropPile(db.pileCards, p), q, ord.piles[q])
    ensures Codes(DropPile(db.pileCards, p), ord.piles[q]) == Codes(db.pileCards, ord.piles[q])
  {
    var rows := DropPile(db.pileCards, p);
    assert IsChain(db.pileCards, q, ord.piles[q]);
    ChainFrame(db.pileCards, rows, q, ord.piles[q]);
    CodesFrame(db.pileCards, rows, ord.piles[q]);
  }

  /** The pile rows of deck `d'` holding `c` lose the emptied pile's when `d'` is its deck. */
  lemma EmptiedRows(db: Db, p: int, codes: seq<Code>, d': DeckId, c: Code)
    requires p in db.piles
    ensures PileRows(db, d', c) ==
      PileRows(Emptied(db, p, codes), d', c) + if d' == db.piles[p].deck then RowsWith(db.pileCards, p, c) else {}
    ensures PileRows(Emptied(db, p, codes), d', c) !! RowsWith(db.pileCards, p, c)
  {
  }

  /** Uncounting exactly the emptied pile's codes keeps the ledger counting the pile rows. */
  lemma EmptiedCounts(db: Db, ord: Orders, p: int, codes: seq<Code>)
    requires PileShape(db, ord) && PileEntered(db) && PileCounts(db) && p in db.piles
    requires multiset(codes) == multiset(PileList(db, ord, p))
    ensures PileEntered(Emptied(db, p, codes)) && PileCounts(Emptied(db, p, codes))
  {
    var t := Emptied(db, p, codes);
    forall k | k in t.entries ensures t.entries[k].inPile == |PileRows(t, k.0, k.1)| {
      EmptiedRows(db, p, codes, k.0, k.1);
      ChainRows(db.pileCards, p, ord.piles[p], k.1);
    }
  }

  /** Emptying a pile keeps the keys, the names, the bound and the deck side. */
  lemma EmptiedRest(db: Db, ord: Orders, p: int, codes: seq<Code>)
    requires DeckSide(db, ord) && PileKeys(db) && UniqueNames(db) && PileCounts(db) && Bounded(db) && p in db.piles
    requires forall c :: multiset(codes)[c] <= |RowsWith(db.pileCards, p, c)|
    ensures PileKeys(Emptied(db, p, codes)) && UniqueNames(Emptied(db, p, codes))
    ensures Bounded(Emptied(db, p, codes)) && DeckSide(Emptied(db, p, codes), ord)
  {
    var t := Emptied(db, p, codes);
    assert t.decks == db.decks && t.deckCards == db.deckCards && t.lastCard == db.lastCard && t.piles == db.piles;
    assert t.entries == Unpiled(db.entries, db.piles[p].deck, codes);
    UnpiledRest(db.entries, db.piles[p].deck, codes);
    KeepDeckSide(db, ord, t, ord);
  }

  /** Uncounting copies from piles keeps the ledger within bounds and its deck counts as they were. */
  lemma UnpiledRest(entries: map<(DeckId, Code), Entry>, d: DeckId, codes: seq<Code>)
    requires forall k :: k in entries ==> entries[k].inDeck + entries[k].inPile <= entries[k].total
    ensures forall k :: k in entries ==> Unpiled(entries, d, codes)[k].inDeck == entries[k].inDeck
    ensures forall k :: k in entries ==>
      Unpiled(entries, d, codes)[k].inDeck + Unpiled(entries, d, codes)[k].inPile <= Unpiled(entries, d, codes)[k].total
  {
  }

  /** The emptied pile's codes all have their ledger row, with at least as many copies counted in piles. */
  lemma EmptiedCovered(db: Db, ord: Orders, p: int, codes: seq<Code>)
    requires PileShape(db, ord) && PileEntered(db) && PileCounts(db) && p in db.piles
    requires multiset(codes) == multiset(PileList(db, ord, p))
    ensures forall c :: multiset(codes)[c] == |RowsWith(db.pileCards, p, c)|
    ensures forall c :: c in codes ==>
      var key := (db.piles[p].deck, c); key in db.entries && db.entries[key].inPile >= multiset(codes)[c]
  {
    forall c ensures multiset(codes)[c] == |RowsWith(db.pileCards, p, c)| {
      ChainRows(db.pileCards, p, ord.piles[p], c);
    }
    forall c | c in codes
      ensures var key := (db.piles[p].deck, c); key in db.entries && db.entries[key].inPile >= multiset(codes)[c]
    {
      assert c in multiset(PileList(db, ord, p));
      ListedEntered(db, ord, p, c);
    }
  }

  /** A code a pile reads has the ledger row of the pile's deck, counting at least the pile's copies in piles. */
  lemma ListedEntered(db: Db, ord: Orders, p: int, c: Code)
    requires PileShape(db, ord) && PileEntered(db) && PileCounts(db) && p in db.piles && c in PileList(db, ord, p)
    ensures var key := (db.piles[p].deck, c);
      key in db.entries && db.entries[key].inPile >= |RowsWith(db.pileCards, p, c)|
  {
    var j :| 0 <= j < |ord.piles[p]| && PileList(db, ord, p)[j] == c;
    var id := ord.piles[p][j];
    assert IsChain(db.pileCards, p, ord.piles[p]);
    assert id in db.pileCards && db.pileCards[id].owner == p && db.pileCards[id].code == c;
    assert (db.piles[p].deck, c) in db.entries;
    PileRowsCover(db, p, c);
  }

  /** A pile's rows of `c` are among its deck's pile rows of `c`. */
  lemma PileRowsCover(db: Db, p: int, c: Code)
    requires p in db.piles
    ensures |RowsWith(db.pileCards, p, c)| <= |PileRows(db, db.piles[p].deck, c)|
  {
    var mine, all := RowsWith(db.pileCards, p, c), PileRows(db, db.piles[p].deck, c);
    assert mine <= all;
    assert all == mine + (all - mine);
  }

  /** Emptying a pile whose codes are `codes` keeps the invariant. */
  lemma EmptiedKeeps(db: Db, ord: Orders, p: int, codes: seq<Code>)
    requires Inv(db, ord) && p in db.piles && multiset(codes) == multiset(PileList(db, ord, p))
    ensures Inv(Emptied(db, p, codes), ord.(piles := ord.piles[p := []]))
    ensures PileList(Emptied(db, p, codes), ord.(piles := ord.piles[p := []]), p) == []
    ensures forall q :: q in db.piles && q != p ==>
      PileList(Emptied(db, p, codes), ord.(piles := ord.piles[p := []]), q) == PileList(db, ord, q)
  {
    EmptiedShape(db, ord, p, codes);
    EmptiedCounts(db, ord, p, codes);
    EmptiedCovered(db, ord, p, codes);
    EmptiedRest(db, ord, p, codes);
  }

  /** The emptied pile's codes all fit back in its deck. */
  lemma EmptiedRoom(db: Db, ord: Orders, p: int, codes: seq<Code>)
    requires Inv(db, ord) && p in db.piles && multiset(codes) == multiset(PileList(db, ord, p))
    ensures Room(Emptied(db, p, codes).entries, db.piles[p].deck, Reverse(codes))
  {
    var d, e := db.piles[p].deck, Emptied(db, p, codes).entries;
    EmptiedCovered(db, ord, p, codes);
    ReverseMultiset(codes);
    forall c | c in Reverse(codes)
      ensures (d, c) in e && e[(d, c)].inDeck + e[(d, c)].inPile + multiset(Reverse(codes))[c] <= e[(d, c)].total
    {
      assert c in multiset(Reverse(codes));
    }
  }
}
