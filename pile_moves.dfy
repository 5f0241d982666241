/**
 * The edits the engine makes to a pile's list and what each keeps of the
 * store's invariant.  A pile stores no head: its top is the row no other
 * row points to, its bottom the row pointing to nothing, and a row's
 * predecessor the row pointing to it, each found by a query.
 */
module PileMoves {
  import opened Common
  import opened Chains
  import opened Cards
  import opened Tables
  import opened Stacks
  import opened DeckMoves
  import opened DeckShuffle

  // ---- the queries that find rows ----

  /** The ids some row of the table points to: `SELECT nextCardId FROM PileCard WHERE nextCardId IS NOT NULL`. */
  function Referenced(rows: map<int, Row<int>>): set<int> {
    set x | x in rows && rows[x].next.Some? :: rows[x].next.value
  }

  /** The rows of pile `p` no row points to. */
  function Unreferenced(rows: map<int, Row<int>>, p: int): set<int> {
    set id | id in rows && rows[id].owner == p && id !in Referenced(rows)
  }

  /** The rows of pile `p` pointing to nothing. */
  function Bottoms(rows: map<int, Row<int>>, p: int): set<int> {
    set id | id in rows && rows[id].owner == p && rows[id].next.None?
  }

  /** The rows of pile `p` pointing to `id`. */
  function Above(rows: map<int, Row<int>>, p: int, id: int): set<int> {
    set x | x in rows && rows[x].owner == p && rows[x].next == Some(id)
  }

  /** The first row a query returns, by ascending id; nothing when it returns none. */
  function First(s: set<int>): (r: Option<int>)
    ensures r.None? <==> s == {}
    ensures r.Some? ==> r.value in s && forall x :: x in s ==> r.value <= x
  {
    if s == {} then None else Some(MinId(s))
  }

  /** The only row a list holds of some set, found first. */
  lemma FirstOfOne(s: set<int>, x: int)
    requires s == {x}
    ensures First(s) == Some(x)
  {
  }

  /** Under the invariant, a row pointing to the `j`-th row of a pile is the row before it in that pile. */
  lemma PointsTo(db: Db, ord: Orders, p: int, j: nat, x: int)
    requires PileKeys(db) && PileShape(db, ord) && p in db.piles && j < |ord.piles[p]|
    requires x in db.pileCards && db.pileCards[x].next == Some(ord.piles[p][j])
    ensures 0 < j && x == ord.piles[p][j - 1]
  {
    var q := db.pileCards[x].owner;
    var oq := ord.piles[q];
    assert x in oq;
    var i :| 0 <= i < |oq| && oq[i] == x;
    assert i + 1 < |oq| && oq[i + 1] == ord.piles[p][j];
    assert db.pileCards[oq[i + 1]].owner == q;
    assert q == p;
    assert i + 1 == j;
  }

  /** Under the invariant, the top of a pile is the head of its list. */
  lemma TopIsHead(db: Db, ord: Orders, p: int)
    requires PileKeys(db) && PileShape(db, ord) && p in db.piles
    ensures Unreferenced(db.pileCards, p) == if ord.piles[p] == [] then {} else {ord.piles[p][0]}
    ensures First(Unreferenced(db.pileCards, p)) == Head(ord.piles[p])
  {
    var order := ord.piles[p];
    forall j | 0 < j < |order| ensures order[j] in Referenced(db.pileCards) {
      assert db.pileCards[order[j - 1]].next == Some(order[j]);
    }
    forall id | id in Unreferenced(db.pileCards, p) ensures order != [] && id == order[0] {
      assert id in order;
      var j :| 0 <= j < |order| && order[j] == id;
    }
    if order != [] {
      forall x | x in db.pileCards && db.pileCards[x].next.Some? ensures db.pileCards[x].next.value != order[0] {
        if db.pileCards[x].next.value == order[0] {
          PointsTo(db, ord, p, 0, x);
        }
      }
      assert order[0] in Unreferenced(db.pileCards, p);
    }
  }

  /** Under the invariant, the bottom of a pile is the tail of its list. */
  lemma BottomIsTail(db: Db, ord: Orders, p: int)
    requires PileShape(db, ord) && p in db.piles
    ensures Bottoms(db.pileCards, p) == if ord.piles[p] == [] then {} else {ord.piles[p][|ord.piles[p]| - 1]}
  {
    var order := ord.piles[p];
    forall id | id in Bottoms(db.pileCards, p) ensures order != [] && id == order[|order| - 1] {
      assert id in order;
      var j :| 0 <= j < |order| && order[j] == id;
    }
  }

  /** Under the invariant, the row above the `k`-th of a pile is the one before it in the list. */
  lemma AboveIsPrevious(db: Db, ord: Orders, p: int, k: nat)
    requires PileKeys(db) && PileShape(db, ord) && p in db.piles && k < |ord.piles[p]|
    ensures Above(db.pileCards, p, ord.piles[p][k]) == if k == 0 then {} else {ord.piles[p][k - 1]}
    ensures First(Above(db.pileCards, p, ord.piles[p][k])) == if k == 0 then None else Some(ord.piles[p][k - 1])
  {
    forall x | x in Above(db.pileCards, p, ord.piles[p][k]) ensures 0 < k && x == ord.piles[p][k - 1] {
      PointsTo(db, ord, p, k, x);
    }
  }

  // ---- taking one row out of a pile ----

  /**
   * The three statements that take row `id` out of pile `p` of deck `d`:
   * the row `above` it, if any, takes over `next`, the row is deleted, and
   * the ledger row of its code loses one copy in piles unless it counts
   * none.
   */
  function TakeRow(db: Db, id: int, next: Option<int>, above: Option<int>, d: DeckId, c: Code): Db {
    var rows := db.pileCards;
    var relinked := if above.Some? && above.value in rows then rows[above.value := rows[above.value].(next := next)] else rows;
    var entries := if (d, c) in db.entries && db.entries[(d, c)].inPile > 0 then Adjust(db.entries, d, c, 0, -1) else db.entries;
    db.(pileCards := relinked - {id}, entries := entries)
  }

  /** Taking out the `k`-th row of pile `p`, as the queries of the engine find it under the invariant. */
  function TakeAt(db: Db, ord: Orders, p: int, k: nat): Db
    requires PileShape(db, ord) && p in db.piles && k < |ord.piles[p]|
  {
    var order := ord.piles[p];
    TakeRow(db, order[k], db.pileCards[order[k]].next, if k == 0 then None else Some(order[k - 1]),
            db.piles[p].deck, db.pileCards[order[k]].code)
  }

  /** The list order after the `k`-th row of pile `p` is taken out. */
  function Taken(ord: Orders, p: int, k: nat): Orders
    requires p in ord.piles && k < |ord.piles[p]|
  {
    ord.(piles := ord.piles[p := ord.piles[p][..k] + ord.piles[p][k + 1..]])
  }

  /** The pile rows after taking out the `k`-th: the row is unlinked from its list. */
  lemma TakeAtRows(db: Db, ord: Orders, p: int, k: nat)
    requires PileShape(db, ord) && p in db.piles && k < |ord.piles[p]|
    ensures TakeAt(db, ord, p, k).pileCards == Unlink(db.pileCards, ord.piles[p], k)
    ensures TakeAt(db, ord, p, k) == db.(pileCards := TakeAt(db, ord, p, k).pileCards, entries := TakeAt(db, ord, p, k).entries)
  {
  }

  /** The pile loses its `k`-th row and card. */
  lemma TakeOwn(db: Db, ord: Orders, p: int, k: nat)
    requires PileShape(db, ord) && p in db.piles && k < |ord.piles[p]|
    ensures var order, rows' := ord.piles[p], Unlink(db.pileCards, ord.piles[p], k);
      && IsChain(rows', p, order[..k] + order[k + 1..])
      && Codes(rows', order[..k] + order[k + 1..]) == Codes(db.pileCards, order)[..k] + Codes(db.pileCards, order)[k + 1..]
  {
    var order := ord.piles[p];
    ChainUnlink(db.pileCards, p, order, k);
    UnlinkKeeps(db.pileCards, order, k);
    CodesWithout(db.pileCards, Unlink(db.pileCards, order, k), order, k);
  }

  /** Unlinking a row of pile `p` leaves any other pile's list as it was. */
  lemma UnlinkOther(rows: map<int, Row<int>>, p: int, order: seq<int>, k: nat, q: int, oq: seq<int>)
    requires IsChain(rows, p, order) && k < |order| && IsChain(rows, q, oq) && q != p
    ensures IsChain(Unlink(rows, order, k), q, oq) && Codes(Unlink(rows, order, k), oq) == Codes(rows, oq)
  {
    var rows' := Unlink(rows, order, k);
    UnlinkKeeps(rows, order, k);
    forall i | 0 <= i < |oq| ensures oq[i] in rows' && rows'[oq[i]] == rows[oq[i]] {
      assert rows[oq[i]].owner == q;
      assert rows[order[k]].owner == p;
      if k > 0 {
        assert rows[order[k - 1]].owner == p;
      }
    }
    ChainFrame(rows, rows', q, oq);
    CodesFrame(rows, rows', oq);
  }

  /** Unlinking the `k`-th row of pile `p` keeps every pile a list, `p` without that row. */
  lemma UnlinkPiles(rows: map<int, Row<int>>, piles: map<int, seq<int>>, p: int, k: nat)
    requires p in piles && k < |piles[p]| && forall q :: q in piles ==> IsChain(rows, q, piles[q])
    requires Stored(rows, piles[p])
    ensures var rows', piles' := Unlink(rows, piles[p], k), piles[p := piles[p][..k] + piles[p][k + 1..]];
      && (forall q :: q in piles' ==> IsChain(rows', q, piles'[q]))
      && (forall q :: q in piles && q != p ==> IsChain(rows', q, piles[q]) && Codes(rows', piles[q]) == Codes(rows, piles[q]))
  {
    var rows', piles' := Unlink(rows, piles[p], k), piles[p := piles[p][..k] + piles[p][k + 1..]];
    ChainUnlink(rows, p, piles[p], k);
    forall q | q in piles && q != p ensures IsChain(rows', q, piles[q]) && Codes(rows', piles[q]) == Codes(rows, piles[q]) {
      UnlinkOther(rows, p, piles[p], k, q, piles[q]);
    }
    forall q | q in piles' ensures IsChain(rows', q, piles'[q]) {
      if q != p {
        assert piles'[q] == piles[q];
      }
    }
  }

  /** Taking the `k`-th row out of pile `p` keeps every pile a list. */
  lemma TakeShape(db: Db, ord: Orders, t: Db, o: Orders, p: int, k: nat)
    requires PileShape(db, ord) && p in db.piles && k < |ord.piles[p]|
    requires t.pileCards == Unlink(db.pileCards, ord.piles[p], k) && t.piles == db.piles
    requires o.piles == ord.piles[p := ord.piles[p][..k] + ord.piles[p][k + 1..]]
    ensures PileShape(t, o)
  {
    UnlinkPiles(db.pileCards, ord.piles, p, k);
  }

  /** The pile loses its `k`-th card; every other pile reads as before. */
  lemma TakeLists(db: Db, ord: Orders, t: Db, o: Orders, p: int, k: nat)
    requires PileShape(db, ord) && PileShape(t, o) && p in db.piles && k < |ord.piles[p]|
    requires t.pileCards == Unlink(db.pileCards, ord.piles[p], k) && t.piles == db.piles
    requires o.piles == ord.piles[p := ord.piles[p][..k] + ord.piles[p][k + 1..]]
    ensures PileList(t, o, p) == PileList(db, ord, p)[..k] + PileList(db, ord, p)[k + 1..]
    ensures forall q :: q in db.piles && q != p ==> PileList(t, o, q) == PileList(db, ord, q)
  {
    TakeOwn(db, ord, p, k);
    UnlinkPiles(db.pileCards, ord.piles, p, k);
  }

  /** Taking a row out of a pile uncounts it in the ledger row of its deck and code, and nowhere else. */
  lemma TakeCounts(db: Db, ord: Orders, p: int, k: nat)
    requires PileShape(db, ord) && PileEntered(db) && PileCounts(db) && p in db.piles && k < |ord.piles[p]|
    ensures var d, c := db.piles[p].deck, db.pileCards[ord.piles[p][k]].code;
      && (d, c) in db.entries && db.entries[(d, c)].inPile > 0
      && TakeAt(db, ord, p, k).entries == Adjust(db.entries, d, c, 0, -1)
      && PileEntered(TakeAt(db, ord, p, k)) && PileCounts(TakeAt(db, ord, p, k))
  {
    var id := ord.piles[p][k];
    var d, c := db.piles[p].deck, db.pileCards[id].code;
    var t := TakeAt(db, ord, p, k);
    TakeAtRows(db, ord, p, k);
    UnlinkKeeps(db.pileCards, ord.piles[p], k);
    assert id in PileRows(db, d, c);
    forall key | key in t.entries ensures t.entries[key].inPile == |PileRows(t, key.0, key.1)| {
      assert PileRows(t, key.0, key.1) == PileRows(db, key.0, key.1) - {id};
      if key == (d, c) {
        assert id in PileRows(db, key.0, key.1);
      } else {
        assert id !in PileRows(db, key.0, key.1);
      }
    }
  }

  /**
   * `t` is `db` with the `k`-th row of pile `p` taken out: the pile reads
   * as before without its `k`-th card, every other pile as before, the
   * decks as before, and the ledger counts one copy fewer of that card in
   * piles.
   */
  ghost predicate PileTaken(db: Db, ord: Orders, t: Db, o: Orders, p: int, k: nat) {
    && PileShape(db, ord) && PileShape(t, o) && p in db.piles && k < |ord.piles[p]|
    && t.piles == db.piles && t.decks == db.decks && t.deckCards == db.deckCards
    && PileList(t, o, p) == PileList(db, ord, p)[..k] + PileList(db, ord, p)[k + 1..]
    && (forall q :: q in db.piles && q != p ==> PileList(t, o, q) == PileList(db, ord, q))
    && t.entries == Adjust(db.entries, db.piles[p].deck, PileList(db, ord, p)[k], 0, -1)
  }

  /** Taking the `k`-th row out of a pile keeps the invariant. */
  lemma TakeKeeps(db: Db, ord: Orders, p: int, k: nat)
    requires Inv(db, ord) && p in db.piles && k < |ord.piles[p]|
    ensures db.pileCards[ord.piles[p][k]].code == PileList(db, ord, p)[k]
    ensures Inv(TakeAt(db, ord, p, k), Taken(ord, p, k))
    ensures PileTaken(db, ord, TakeAt(db, ord, p, k), Taken(ord, p, k), p, k)
  {
    TakeAtRows(db, ord, p, k);
    TakeShape(db, ord, TakeAt(db, ord, p, k), Taken(ord, p, k), p, k);
    TakeLists(db, ord, TakeAt(db, ord, p, k), Taken(ord, p, k), p, k);
    TakeCounts(db, ord, p, k);
    TakeKeys(db, ord, p, k);
    TakeRest(db, ord, p, k);
  }

  /** Taking a row out of a pile keeps the keys and the names. */
  lemma TakeKeys(db: Db, ord: Orders, p: int, k: nat)
    requires PileKeys(db) && UniqueNames(db) && PileShape(db, ord) && p in db.piles && k < |ord.piles[p]|
    ensures PileKeys(TakeAt(db, ord, p, k)) && UniqueNames(TakeAt(db, ord, p, k))
  {
    TakeAtRows(db, ord, p, k);
    UnlinkKeeps(db.pileCards, ord.piles[p], k);
  }

  /** Taking a row out of a pile keeps the bound and the deck side. */
  lemma TakeRest(db: Db, ord: Orders, p: int, k: nat)
    requires DeckSide(db, ord) && Bounded(db) && PileShape(db, ord) && p in db.piles && k < |ord.piles[p]|
    ensures Bounded(TakeAt(db, ord, p, k)) && DeckSide(TakeAt(db, ord, p, k), Taken(ord, p, k))
  {
    var order := ord.piles[p];
    assert IsChain(db.pileCards, p, order);
    var id := order[k];
    TakenRest(db, ord, TakeAt(db, ord, p, k), Taken(ord, p, k), id, db.pileCards[id].next,
              if k == 0 then None else Some(order[k - 1]), db.piles[p].deck, db.pileCards[id].code);
  }

  /** Taking a pile row out leaves the deck side alone and only lowers a count in piles. */
  lemma TakenRest(db: Db, ord: Orders, t: Db, o: Orders, id: int, next: Option<int>, above: Option<int>, d: DeckId, c: Code)
    requires DeckSide(db, ord) && Bounded(db) && t == TakeRow(db, id, next, above, d, c) && o.decks == ord.decks
    ensures Bounded(t) && DeckSide(t, o)
  {
    assert t.decks == db.decks && t.deckCards == db.deckCards && t.lastCard == db.lastCard;
    assert t.entries == if (d, c) in db.entries && db.entries[(d, c)].inPile > 0 then Adjust(db.entries, d, c, 0, -1) else db.entries;
    LoweredInPile(db.entries, t.entries, d, c);
    KeepDeckSide(db, ord, t, o);
  }

  /** One copy fewer in piles, when any is counted there, keeps the ledger within bounds and its deck counts as they were. */
  lemma LoweredInPile(entries: map<(DeckId, Code), Entry>, e': map<(DeckId, Code), Entry>, d: DeckId, c: Code)
    requires forall k :: k in entries ==> entries[k].inDeck + entries[k].inPile <= entries[k].total
    requires e' == if (d, c) in entries && entries[(d, c)].inPile > 0 then Adjust(entries, d, c, 0, -1) else entries
    ensures e'.Keys == entries.Keys
    ensures forall k :: k in e' ==> e'[k].inDeck == entries[k].inDeck && e'[k].inDeck + e'[k].inPile <= e'[k].total
  {
  }

  // ---- a new pile ----

  /** `INSERT INTO Pile (deckId, name)`: the next pile id, with no rows. */
  function NewPile(db: Db, d: DeckId, name: string): Db {
    db.(piles := db.piles[db.lastPile + 1 := PileRow(d, name)], lastPile := db.lastPile + 1)
  }

  /** The new pile is found under its deck and name. */
  lemma NewPileFound(db: Db, d: DeckId, name: string)
    requires PileKeys(db) && UniqueNames(db) && FindPile(db, d, name).None?
    ensures UniqueNames(NewPile(db, d, name))
    ensures FindPile(NewPile(db, d, name), d, name) == Some(db.lastPile + 1)
  {
    var t := NewPile(db, d, name);
    var p := db.lastPile + 1;
    forall q | q in t.piles && q != p ensures t.piles[q] != PileRow(d, name) {
    }
    assert t.piles[p] == PileRow(d, name);
  }

  /** The new pile's empty list; every other pile keeps its list. */
  lemma NewPileShape(db: Db, ord: Orders, d: DeckId, name: string)
    requires PileKeys(db) && PileShape(db, ord)
    ensures PileShape(NewPile(db, d, name), ord.(piles := ord.piles[db.lastPile + 1 := []]))
    ensures forall q :: q in db.piles ==>
      PileList(NewPile(db, d, name), ord.(piles := ord.piles[db.lastPile + 1 := []]), q) == PileList(db, ord, q)
  {
    var p := db.lastPile + 1;
    forall q | q in db.piles ensures q != p {
    }
    forall id | id in db.pileCards ensures db.pileCards[id].owner != p {
    }
  }

  /** A new pile holds no rows, so every deck keeps its pile rows. */
  lemma NewPileRows(db: Db, d: DeckId, name: string, d2: DeckId, c: Code)
    requires PileKeys(db)
    ensures PileRows(NewPile(db, d, name), d2, c) == PileRows(db, d2, c)
  {
    var t := NewPile(db, d, name);
    forall id | id in PileRows(t, d2, c) ensures id in PileRows(db, d2, c) {
      assert t.pileCards[id].owner in db.piles;
    }
    forall id | id in PileRows(db, d2, c) ensures id in PileRows(t, d2, c) {
      assert db.pileCards[id].owner != db.lastPile + 1;
    }
  }

  /** A new pile keeps the pile half of the ledger. */
  lemma NewPileCounts(db: Db, d: DeckId, name: string)
    requires PileKeys(db) && PileEntered(db) && PileCounts(db) && d in db.decks
    ensures PileKeys(NewPile(db, d, name)) && PileEntered(NewPile(db, d, name)) && PileCounts(NewPile(db, d, name))
  {
    var t := NewPile(db, d, name);
    forall key | key in t.entries ensures t.entries[key].inPile == |PileRows(t, key.0, key.1)| {
      NewPileRows(db, d, name, key.0, key.1);
    }
  }

  /** A new pile of an existing deck, under a name the deck does not use yet, keeps the invariant and is empty. */
  lemma NewPileKeeps(db: Db, ord: Orders, d: DeckId, name: string)
    requires Inv(db, ord) && d in db.decks && FindPile(db, d, name).None?
    ensures Inv(NewPile(db, d, name), ord.(piles := ord.piles[db.lastPile + 1 := []]))
    ensures FindPile(NewPile(db, d, name), d, name) == Some(db.lastPile + 1)
    ensures forall q :: q in db.piles ==>
      PileList(NewPile(db, d, name), ord.(piles := ord.piles[db.lastPile + 1 := []]), q) == PileList(db, ord, q)
  {
    var t := NewPile(db, d, name);
    NewPileFound(db, d, name);
    NewPileShape(db, ord, d, name);
    NewPileCounts(db, d, name);
    KeepDeckSide(db, ord, t, ord.(piles := ord.piles[db.lastPile + 1 := []]));
  }

  // ---- placing cards in a pile ----

  /**
   * The ledger updates of `InsertIntoPile`, code by code: each code needs
   * its ledger row in deck `d` and a copy neither in the deck list nor in
   * a pile yet; that copy is then counted in piles.
   */
  function Reserve(entries: map<(DeckId, Code), Entry>, d: DeckId, codes: seq<Code>)
    : (r: Result<map<(DeckId, Code), Entry>, StoreError>)
    ensures r.Ok? ==> r.value.Keys == entries.Keys
    ensures r.Err? ==> r.error == CardNotFound || r.error == NotAvailable
    decreases |codes|
  {
    if codes == [] then Ok(entries)
    else
      var c := codes[|codes| - 1];
      match Reserve(entries, d, codes[..|codes| - 1])
      case Err(err) => Err(err)
      case Ok(e) =>
        if (d, c) !in e then Err(CardNotFound)
        else if e[(d, c)].total < e[(d, c)].inDeck + e[(d, c)].inPile + 1 then Err(NotAvailable)
        else Ok(Adjust(e, d, c, 0, 1))
  }

  /** Deck `d` has a ledger row for every code and room in piles for as many copies as `codes` holds. */
  predicate Room(entries: map<(DeckId, Code), Entry>, d: DeckId, codes: seq<Code>) {
    forall c :: c in codes ==>
      (d, c) in entries && entries[(d, c)].inDeck + entries[(d, c)].inPile + multiset(codes)[c] <= entries[(d, c)].total
  }

  /** `e'` is the ledger `entries` with every code of deck `d` counting its copies in `codes` more in piles. */
  predicate Raised(entries: map<(DeckId, Code), Entry>, e': map<(DeckId, Code), Entry>, d: DeckId, codes: seq<Code>) {
    e'.Keys == entries.Keys
    && forall k :: k in entries ==>
      e'[k] == if k.0 == d then entries[k].(inPile := entries[k].inPile + multiset(codes)[k.1]) else entries[k]
  }

  /**
   * The reservation succeeds exactly when the deck has room for all the
   * codes, and then counts each code's copies in piles; it fails with
   * `CardNotFound` only for a code the deck has no ledger row for.
   */
  lemma {:induction false} ReserveSpec(entries: map<(DeckId, Code), Entry>, d: DeckId, codes: seq<Code>)
    ensures Reserve(entries, d, codes).Ok? <==> Room(entries, d, codes)
    ensures Reserve(entries, d, codes).Ok? ==> Raised(entries, Reserve(entries, d, codes).value, d, codes)
    ensures Reserve(entries, d, codes) == Err(CardNotFound) ==> exists c :: c in codes && (d, c) !in entries
    decreases |codes|
  {
    if codes != [] {
      var n := |codes|;
      var front, c := codes[..n - 1], codes[n - 1];
      assert codes == front + [c];
      ReserveSpec(entries, d, front);
      RoomShrinks(entries, d, front, c);
      match Reserve(entries, d, front)
      case Err(err) =>
      case Ok(e) =>
        if (d, c) in e {
          RaisedStep(entries, e, d, front, c);
          if e[(d, c)].total >= e[(d, c)].inDeck + e[(d, c)].inPile + 1 {
            RoomGrows(entries, d, front, c);
          }
        }
    }
  }

  /** Once a prefix of the codes fails, the whole reservation fails the same way. */
  lemma {:induction false} ReserveStops(entries: map<(DeckId, Code), Entry>, d: DeckId, codes: seq<Code>, i: nat)
    requires i <= |codes| && Reserve(entries, d, codes[..i]).Err?
    ensures Reserve(entries, d, codes) == Reserve(entries, d, codes[..i])
    decreases |codes|
  {
    if i < |codes| {
      var front := codes[..|codes| - 1];
      assert front[..i] == codes[..i];
      ReserveStops(entries, d, front, i);
    } else {
      assert codes[..i] == codes;
    }
  }

  /** Room for more codes is room for fewer. */
  lemma RoomShrinks(entries: map<(DeckId, Code), Entry>, d: DeckId, front: seq<Code>, c: Code)
    ensures Room(entries, d, front + [c]) ==> Room(entries, d, front)
  {
    var codes := front + [c];
    assert multiset(codes) == multiset(front) + multiset{c};
    forall x | x in front ensures x in codes && multiset(front)[x] <= multiset(codes)[x] {
    }
  }

  /** Room for some codes and one more copy of `c` is room for those codes and `c`. */
  lemma RoomGrows(entries: map<(DeckId, Code), Entry>, d: DeckId, front: seq<Code>, c: Code)
    requires Room(entries, d, front) && (d, c) in entries
    requires entries[(d, c)].inDeck + entries[(d, c)].inPile + multiset(front)[c] + 1 <= entries[(d, c)].total
    ensures Room(entries, d, front + [c])
  {
    var codes := front + [c];
    assert multiset(codes) == multiset(front) + multiset{c};
    forall x | x in codes
      ensures (d, x) in entries
      ensures entries[(d, x)].inDeck + entries[(d, x)].inPile + multiset(codes)[x] <= entries[(d, x)].total
    {
      if x != c {
        assert x in front;
      }
    }
  }

  /** Counting one more copy of `c` in piles raises the ledger by one more code. */
  lemma RaisedStep(entries: map<(DeckId, Code), Entry>, e: map<(DeckId, Code), Entry>, d: DeckId, front: seq<Code>, c: Code)
    requires Raised(entries, e, d, front) && (d, c) in e
    ensures Raised(entries, Adjust(e, d, c, 0, 1), d, front + [c])
  {
    assert multiset(front + [c]) == multiset(front) + multiset{c};
  }

  /**
   * `t` is `db` with `codes` placed on pile `p` in that order, and the
   * ledger `entries`: the `k`-th code becomes the row `lastPileCard + k + 1`,
   * pointing to the row placed before it, the first to the pile's top.
   */
  ghost predicate Placed(db: Db, ord: Orders, t: Db, o: Orders, p: int, codes: seq<Code>,
                         entries: map<(DeckId, Code), Entry>) {
    && p in ord.piles
    && t == db.(pileCards := t.pileCards, entries := entries, lastPileCard := db.lastPileCard + |codes|)
    && PushedAll(db.pileCards, t.pileCards, p, codes, db.lastPileCard, Head(ord.piles[p]))
    && o == ord.(piles := ord.piles[p := Stack(db.lastPileCard, |codes|) + ord.piles[p]])
  }

  /** The placed rows head the pile, last placed first; every other pile keeps its list. */
  lemma PlacedShape(db: Db, ord: Orders, t: Db, o: Orders, p: int, codes: seq<Code>, entries: map<(DeckId, Code), Entry>)
    requires PileIssued(db) && PileShape(db, ord) && p in db.piles && Placed(db, ord, t, o, p, codes, entries)
    ensures PileShape(t, o)
  {
    assert t.piles == db.piles && o.piles.Keys == t.piles.Keys;
    PlacedChains(db, ord, t, o, p, codes, entries);
    PileShapeFrom(t, o, p);
  }


  /** Every pile is still a list: the placed pile with its new rows on top, the others as they were. */
  lemma PlacedChains(db: Db, ord: Orders, t: Db, o: Orders, p: int, codes: seq<Code>, entries: map<(DeckId, Code), Entry>)
    requires PileIssued(db) && PileShape(db, ord) && p in db.piles && Placed(db, ord, t, o, p, codes, entries)
    ensures IsChain(t.pileCards, p, o.piles[p])
    ensures Codes(t.pileCards, o.piles[p]) == Reverse(codes) + Codes(db.pileCards, ord.piles[p])
    ensures forall q :: q in db.piles && q != p ==>
      IsChain(t.pileCards, q, o.piles[q]) && Codes(t.pileCards, o.piles[q]) == Codes(db.pileCards, ord.piles[q])
  {
    var base := db.lastPileCard;
    PushedChain(db.pileCards, t.pileCards, p, ord.piles[p], codes, base, Head(ord.piles[p]));
    forall q | q in db.piles && q != p
      ensures IsChain(t.pileCards, q, o.piles[q]) && Codes(t.pileCards, o.piles[q]) == Codes(db.pileCards, ord.piles[q])
    {
      PlacedOther(db, ord, t, o, p, codes, entries, q);
    }
  }

  /** The placed pile reads the placed codes, last placed first, above what it read; the others as before. */
  lemma PlacedLists(db: Db, ord: Orders, t: Db, o: Orders, p: int, codes: seq<Code>, entries: map<(DeckId, Code), Entry>)
    requires PileIssued(db) && PileShape(db, ord) && PileShape(t, o) && p in db.piles
    requires Placed(db, ord, t, o, p, codes, entries)
    ensures PileList(t, o, p) == Reverse(codes) + PileList(db, ord, p)
    ensures forall q :: q in db.piles && q != p ==> PileList(t, o, q) == PileList(db, ord, q)
  {
    PlacedChains(db, ord, t, o, p, codes, entries);
  }

  /** Placing cards on one pile leaves another pile's list as it was. */
  lemma PlacedOther(db: Db, ord: Orders, t: Db, o: Orders, p: int, codes: seq<Code>, entries: map<(DeckId, Code), Entry>,
                    q: int)
    requires PileIssued(db) && PileShape(db, ord) && p in db.piles && Placed(db, ord, t, o, p, codes, entries)
    requires q in db.piles && q != p
    ensures IsChain(t.pileCards, q, o.piles[q]) && Codes(t.pileCards, o.piles[q]) == Codes(db.pileCards, ord.piles[q])
  {
    assert o.piles[q] == ord.piles[q];
    PushedOther(db.pileCards, t.pileCards, p, codes, db.lastPileCard, Head(ord.piles[p]), q, ord.piles[q]);
  }

  /** Deck `d'`'s pile rows of `c` gain the placed rows of `c` when `d'` is the pile's deck. */
  lemma PlacedRows(db: Db, ord: Orders, t: Db, o: Orders, p: int, codes: seq<Code>, entries: map<(DeckId, Code), Entry>,
                   d': DeckId, c: Code)
    requires PileIssued(db) && p in db.piles && Placed(db, ord, t, o, p, codes, entries)
    ensures |PileRows(t, d', c)| == |PileRows(db, d', c)| + if d' == db.piles[p].deck then multiset(codes)[c] else 0
  {
    var base := db.lastPileCard;
    var landed := if d' == db.piles[p].deck then Landed(codes, base, c) else {};
    PlacedRowsSplit(db, ord, t, o, p, codes, entries, d', c);
    LandedCount(codes, base, c);
    forall id | id in PileRows(db, d', c) ensures id !in landed {
      assert id <= base;
    }
  }

  /** The pile rows of deck `d'` holding `c` are the old ones and, for the pile's deck, the placed ones. */
  lemma PlacedRowsSplit(db: Db, ord: Orders, t: Db, o: Orders, p: int, codes: seq<Code>,
                        entries: map<(DeckId, Code), Entry>, d': DeckId, c: Code)
    requires PileIssued(db) && p in db.piles && Placed(db, ord, t, o, p, codes, entries)
    ensures PileRows(t, d', c) ==
      PileRows(db, d', c) + if d' == db.piles[p].deck then Landed(codes, db.lastPileCard, c) else {}
  {
    var base := db.lastPileCard;
    var landed := if d' == db.piles[p].deck then Landed(codes, base, c) else {};
    forall id | id in PileRows(t, d', c) ensures id in PileRows(db, d', c) + landed {
      if id !in db.pileCards {
        assert PushedCode(codes, base, id) == c;
      }
    }
    forall id | id in PileRows(db, d', c) + landed ensures id in PileRows(t, d', c) {
    }
  }

  /** The ledger raised by the placed codes counts the pile rows. */
  lemma PlacedCounts(db: Db, ord: Orders, t: Db, o: Orders, p: int, codes: seq<Code>)
    requires PileKeys(db) && PileEntered(db) && PileCounts(db) && p in db.piles
    requires Room(db.entries, db.piles[p].deck, codes) && Raised(db.entries, t.entries, db.piles[p].deck, codes)
    requires Placed(db, ord, t, o, p, codes, t.entries)
    ensures PileEntered(t) && PileCounts(t)
  {
    var base := db.lastPileCard;
    forall id | id in t.pileCards && t.pileCards[id].owner in t.piles
      ensures (t.piles[t.pileCards[id].owner].deck, t.pileCards[id].code) in t.entries
    {
      if id !in db.pileCards {
        assert t.pileCards[id].code == codes[id - base - 1];
      }
    }
    forall key | key in t.entries ensures t.entries[key].inPile == |PileRows(t, key.0, key.1)| {
      PlacedRows(db, ord, t, o, p, codes, t.entries, key.0, key.1);
    }
  }

  /** Placing cards keeps the keys, the names, the bound and the deck side. */
  lemma PlacedRest(db: Db, ord: Orders, t: Db, o: Orders, p: int, codes: seq<Code>)
    requires DeckSide(db, ord) && PileKeys(db) && Bounded(db) && p in db.piles
    requires Room(db.entries, db.piles[p].deck, codes) && Raised(db.entries, t.entries, db.piles[p].deck, codes)
    requires Placed(db, ord, t, o, p, codes, t.entries)
    ensures PileKeys(t) && Bounded(t) && DeckSide(t, o)
  {
    assert t.decks == db.decks && t.deckCards == db.deckCards && o.decks == ord.decks && t.lastCard == db.lastCard;
    assert t.piles == db.piles && t.lastPile == db.lastPile && t.lastPileCard == db.lastPileCard + |codes|;
    PlacedKeys(db, t, p, codes, Head(ord.piles[p]));
    RaisedBounded(db.entries, t.entries, db.piles[p].deck, codes);
    KeepDeckSide(db, ord, t, o);
  }

  /** The pushed rows belong to pile `p`, under ids just handed out. */
  lemma PlacedKeys(db: Db, t: Db, p: int, codes: seq<Code>, top: Option<int>)
    requires PileKeys(db) && p in db.piles
    requires t.piles == db.piles && t.decks == db.decks && t.lastPile == db.lastPile
    requires t.lastPileCard == db.lastPileCard + |codes| && PushedAll(db.pileCards, t.pileCards, p, codes, db.lastPileCard, top)
    ensures PileKeys(t)
  {
    forall id | id in t.pileCards ensures t.pileCards[id].owner in t.piles && id <= t.lastPileCard {
      if id in db.pileCards {
        assert t.pileCards[id] == db.pileCards[id];
      }
    }
  }

  /** A ledger within bounds, raised where there is room, stays within bounds. */
  lemma RaisedBounded(entries: map<(DeckId, Code), Entry>, e': map<(DeckId, Code), Entry>, d: DeckId, codes: seq<Code>)
    requires forall k :: k in entries ==> entries[k].inDeck + entries[k].inPile <= entries[k].total
    requires Room(entries, d, codes) && Raised(entries, e', d, codes)
    ensures e'.Keys == entries.Keys && forall k :: k in entries ==> e'[k].inDeck == entries[k].inDeck
    ensures forall k :: k in e' ==> e'[k].inDeck + e'[k].inPile <= e'[k].total
  {
    forall k | k in e' ensures e'[k].inDeck + e'[k].inPile <= e'[k].total {
      if k.0 == d && k.1 !in codes {
        assert multiset(codes)[k.1] == 0;
      }
    }
  }

  /**
   * `InsertIntoPile` keeps the invariant once the reservation succeeded:
   * the pile reads the placed codes, last placed first, then what it read
   * before; every other pile reads as before.
   */
  lemma PlacedKeeps(db: Db, ord: Orders, t: Db, o: Orders, p: int, codes: seq<Code>)
    requires Inv(db, ord) && p in db.piles && Reserve(db.entries, db.piles[p].deck, codes).Ok?
    requires Placed(db, ord, t, o, p, codes, Reserve(db.entries, db.piles[p].deck, codes).value)
    ensures Inv(t, o)
    ensures PileList(t, o, p) == Reverse(codes) + PileList(db, ord, p)
    ensures forall q :: q in db.piles && q != p ==> PileList(t, o, q) == PileList(db, ord, q)
  {
    ReserveSpec(db.entries, db.piles[p].deck, codes);
    PlacedShape(db, ord, t, o, p, codes, t.entries);
    PlacedLists(db, ord, t, o, p, codes, t.entries);
    PlacedCounts(db, ord, t, o, p, codes);
    PlacedRest(db, ord, t, o, p, codes);
  }

  /** The codes read by ascending row id are the pile's codes, up to order. */
  lemma ScanListsPile(db: Db, ord: Orders, p: int)
    requires PileShape(db, ord) && p in db.piles
    ensures multiset(Codes(db.pileCards, Scan(db.pileCards, p))) == multiset(PileList(db, ord, p))
  {
    var ids := Scan(db.pileCards, p);
    forall id ensures id in ids <==> id in ord.piles[p] {
      assert id in ids <==> id in OwnedIds(db.pileCards, p);
    }
    SameIdsSameCodes(db.pileCards, ids, ord.piles[p]);
  }
}
