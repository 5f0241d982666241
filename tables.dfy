/**
 * The five tables of the card store and the invariants that hold between
 * two operations:
 *
 *   Deck(deckId, topCardId, shuffled)
 *   DeckCard(id, deckId, code, nextId)      -- one linked list per deck
 *   Pile(id, deckId, name)                  -- unique per (deckId, name)
 *   PileCard(id, pileId, code, nextCardId)  -- one linked list per pile
 *   DeckEntry(deckId, code, total, inDeck, inPile)
 *
 * `Schema` is what the engine enforces (foreign keys are on, the unique
 * constraints, AUTOINCREMENT ids); `Shape` says each deck and each pile is
 * one well-formed list; `Ledger` couples the per-code counters of
 * `DeckEntry` with the rows actually present.
 */
module Tables {
  import opened Common
  import opened Chains
  import opened Cards

  type DeckId = string

  /** A `Deck` row: the id of its top card and whether it was shuffled. */
  datatype DeckRow = DeckRow(top: Option<int>, shuffled: bool)

  /** A `Pile` row. */
  datatype PileRow = PileRow(deck: DeckId, name: string)

  /** A `DeckEntry` row: copies of the code in the deck overall, in its list, in its piles. */
  datatype Entry = Entry(total: int, inDeck: int, inPile: int)

  /**
   * The whole database.  `lastCard`, `lastPile` and `lastPileCard` are the
   * largest ids the AUTOINCREMENT tables `DeckCard`, `Pile` and `PileCard`
   * have handed out so far; the next row of each table gets the next id.
   */
  datatype Db = Db(
    decks: map<DeckId, DeckRow>,
    deckCards: map<int, Row<DeckId>>,
    piles: map<int, PileRow>,
    pileCards: map<int, Row<int>>,
    entries: map<(DeckId, Code), Entry>,
    lastCard: int,
    lastPile: int,
    lastPileCard: int)

  /** The list order of every deck and every pile, head first. */
  datatype Orders = Orders(decks: map<DeckId, seq<int>>, piles: map<int, seq<int>>)

  /** Why an operation of the store fails. */
  datatype StoreError =
    | RandFailed        // the random source failed
    | NoUniqueId        // thirty deck tokens drawn, all taken
    | DeckMissing       // "deck inexistant"
    | CardNotFound      // the deck has no ledger row for the code
    | NotAvailable      // no drawn copy of the code is left to place
    | NotDrawn          // no copy of the code is drawn
    | PileInsertFailed  // a new pile names a deck that does not exist
    | PileMissing       // no pile of that name in the deck
    | PileEmpty
    | InvalidMethod     // a draw method other than top, bottom and random
    | CardNotInPile
    | NoTopCard         // every row of the pile is pointed to
    | Cycle             // following the pile comes back to a row
    | BrokenList        // following the pile leads to a row it does not hold
    | Inconsistent      // the ledger counts fewer copies in piles than there are
    | NotPermutation    // a new pile order that is not the pile's own codes

  // ---- what the engine enforces ----

  /** Deck rows name an existing deck and an id already handed out; ledger rows name an existing deck. */
  predicate DeckKeys(db: Db) {
    (forall id :: id in db.deckCards ==> db.deckCards[id].owner in db.decks && id <= db.lastCard)
    && (forall k :: k in db.entries ==> k.0 in db.decks)
  }

  /** Every deck row has an id already handed out. */
  predicate Issued(db: Db) {
    forall id :: id in db.deckCards ==> id <= db.lastCard
  }

  /** Every pile row has an id already handed out. */
  predicate PileIssued(db: Db) {
    forall id :: id in db.pileCards ==> id <= db.lastPileCard
  }

  /** Piles name an existing deck, pile rows an existing pile; both ids already handed out. */
  predicate PileKeys(db: Db) {
    (forall p :: p in db.piles ==> db.piles[p].deck in db.decks && p <= db.lastPile)
    && (forall id :: id in db.pileCards ==> db.pileCards[id].owner in db.piles && id <= db.lastPileCard)
  }

  /** `UNIQUE(deckId, name)` on `Pile`. */
  predicate UniqueNames(db: Db) {
    forall p, q :: p in db.piles && q in db.piles && db.piles[p] == db.piles[q] ==> p == q
  }

  // ---- the lists ----

  /** Deck `d`'s rows form one list, whose head is the deck's `topCardId`. */
  predicate DeckChain(db: Db, ord: Orders, d: DeckId)
    requires d in db.decks && d in ord.decks
  {
    IsChain(db.deckCards, d, ord.decks[d]) && db.decks[d].top == Head(ord.decks[d])
  }

  /** Every deck's rows form one list. */
  predicate DeckShape(db: Db, ord: Orders) {
    ord.decks.Keys == db.decks.Keys && forall d :: d in db.decks ==> DeckChain(db, ord, d)
  }

  /** Each pile's rows form one list. */
  predicate PileShape(db: Db, ord: Orders) {
    ord.piles.Keys == db.piles.Keys
    && forall p :: p in db.piles ==> IsChain(db.pileCards, p, ord.piles[p])
  }

  /** Piles each of which is a list, the one just changed as well as the others, are well shaped. */
  lemma PileShapeFrom(t: Db, o: Orders, p: int)
    requires o.piles.Keys == t.piles.Keys && p in t.piles && IsChain(t.pileCards, p, o.piles[p])
    requires forall q :: q in t.piles && q != p ==> IsChain(t.pileCards, q, o.piles[q])
    ensures PileShape(t, o)
  {
  }

  /** Decks each of which is a list, the one just changed as well as the others, are well shaped. */
  lemma DeckShapeFrom(t: Db, o: Orders, d: DeckId)
    requires o.decks.Keys == t.decks.Keys && d in t.decks && DeckChain(t, o, d)
    requires forall e :: e in t.decks && e != d ==> DeckChain(t, o, e)
    ensures DeckShape(t, o)
  {
  }

  // ---- the ledger ----

  /** The pile rows of deck `d` holding `c`, whatever the pile. */
  function PileRows(db: Db, d: DeckId, c: Code): set<int> {
    set id | id in db.pileCards && db.pileCards[id].owner in db.piles
      && db.piles[db.pileCards[id].owner].deck == d && db.pileCards[id].code == c
  }

  /** Every deck row has its ledger row. */
  predicate DeckEntered(db: Db) {
    forall id :: id in db.deckCards ==> (db.deckCards[id].owner, db.deckCards[id].code) in db.entries
  }

  /** Every pile row has the ledger row of its pile's deck. */
  predicate PileEntered(db: Db) {
    forall id :: id in db.pileCards && db.pileCards[id].owner in db.piles ==>
      (db.piles[db.pileCards[id].owner].deck, db.pileCards[id].code) in db.entries
  }

  /** `inDeck` counts the code's rows in the deck list. */
  predicate DeckCounts(db: Db) {
    forall k :: k in db.entries ==> db.entries[k].inDeck == |RowsWith(db.deckCards, k.0, k.1)|
  }

  /** `inPile` counts the code's rows in the deck's piles. */
  predicate PileCounts(db: Db) {
    forall k :: k in db.entries ==> db.entries[k].inPile == |PileRows(db, k.0, k.1)|
  }

  /** No more copies are placed than the deck holds. */
  predicate Bounded(db: Db) {
    forall k :: k in db.entries ==> db.entries[k].inDeck + db.entries[k].inPile <= db.entries[k].total
  }

  /** What holds of the deck side: its keys, its lists and its half of the ledger. */
  predicate DeckSide(db: Db, ord: Orders) {
    DeckKeys(db) && DeckShape(db, ord) && DeckEntered(db) && DeckCounts(db)
  }

  /** What holds of the pile side: its keys, its names, its lists and its half of the ledger. */
  predicate PileSide(db: Db, ord: Orders) {
    PileKeys(db) && UniqueNames(db) && PileShape(db, ord) && PileEntered(db) && PileCounts(db)
  }

  /** The invariant of the store between two operations. */
  predicate Inv(db: Db, ord: Orders) {
    DeckSide(db, ord) && PileSide(db, ord) && Bounded(db)
  }

  // ---- reading the lists ----

  /** The codes of deck `d`, top first. */
  function DeckList(db: Db, ord: Orders, d: DeckId): seq<Code>
    requires DeckShape(db, ord) && d in db.decks
  {
    Codes(db.deckCards, ord.decks[d])
  }

  /** The codes of pile `p`, top first. */
  function PileList(db: Db, ord: Orders, p: int): seq<Code>
    requires PileShape(db, ord) && p in db.piles
  {
    Codes(db.pileCards, ord.piles[p])
  }

  /** The pile of deck `d` named `name`, if there is one. */
  function FindPile(db: Db, d: DeckId, name: string): (r: Option<int>)
    requires UniqueNames(db)
    ensures r.Some? <==> exists p :: p in db.piles && db.piles[p] == PileRow(d, name)
    ensures r.Some? ==> r.value in db.piles && db.piles[r.value] == PileRow(d, name)
  {
    if p :| p in db.piles && db.piles[p] == PileRow(d, name) then Some(p) else None
  }

  /** The ledger counts what a deck list reads: `inDeck` is the code's multiplicity in it. */
  lemma InDeckIsMultiplicity(db: Db, ord: Orders, d: DeckId, c: Code)
    requires Inv(db, ord) && (d, c) in db.entries
    ensures db.entries[(d, c)].inDeck == multiset(DeckList(db, ord, d))[c]
  {
    ChainRows(db.deckCards, d, ord.decks[d], c);
  }

  /** A deck has as many rows as its list is long; an unknown deck has none. */
  lemma DeckRowCount(db: Db, ord: Orders, d: DeckId)
    requires DeckKeys(db) && DeckShape(db, ord)
    ensures |OwnedIds(db.deckCards, d)| == if d in db.decks then |DeckList(db, ord, d)| else 0
  {
    if d in db.decks {
      ChainSize(db.deckCards, d, ord.decks[d]);
    } else {
      assert forall id :: id in db.deckCards ==> db.deckCards[id].owner != d;
      assert OwnedIds(db.deckCards, d) == {};
    }
  }

  /**
   * An operation on the deck side only leaves the pile side holding: piles
   * and pile rows untouched, decks and ledger rows only added, old ledger
   * rows keeping their `inPile`, new ones only for decks that were not
   * there, with nothing in piles.
   */
  lemma KeepPileSide(db: Db, ord: Orders, db': Db, ord': Orders)
    requires PileSide(db, ord)
    requires db'.piles == db.piles && db'.pileCards == db.pileCards && ord'.piles == ord.piles
    requires db'.lastPile == db.lastPile && db'.lastPileCard == db.lastPileCard
    requires db.decks.Keys <= db'.decks.Keys && db.entries.Keys <= db'.entries.Keys
    requires forall k :: k in db.entries ==> db'.entries[k].inPile == db.entries[k].inPile
    requires forall k :: k in db'.entries && k !in db.entries ==> k.0 !in db.decks && db'.entries[k].inPile == 0
    ensures PileSide(db', ord')
  {
    forall k | k in db'.entries ensures db'.entries[k].inPile == |PileRows(db', k.0, k.1)| {
      assert PileRows(db', k.0, k.1) == PileRows(db, k.0, k.1);
      if k !in db.entries {
        forall id | id in db.pileCards && db.pileCards[id].owner in db.piles
          ensures db.piles[db.pileCards[id].owner].deck != k.0
        {
          var p := db.pileCards[id].owner;
          assert p in db.piles;
          assert db.piles[p].deck in db.decks;
        }
        assert PileRows(db, k.0, k.1) == {};
      }
    }
  }

  /**
   * An operation on the pile side only leaves the deck side holding: decks
   * and deck rows untouched, the same ledger rows with the same `inDeck`.
   */
  lemma KeepDeckSide(db: Db, ord: Orders, db': Db, ord': Orders)
    requires DeckSide(db, ord)
    requires db'.decks == db.decks && db'.deckCards == db.deckCards && ord'.decks == ord.decks
    requires db'.lastCard == db.lastCard && db'.entries.Keys == db.entries.Keys
    requires forall k :: k in db.entries ==> db'.entries[k].inDeck == db.entries[k].inDeck
    ensures DeckSide(db', ord')
  {
  }
}
