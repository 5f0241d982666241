/**
 * The four ways cards go back to a deck, each one transaction: a drawn card
 * (`ReturnSpecificDrawn`), every drawn card (`ReturnAllDrawn`), a card out of
 * a pile (`ReturnSpecificFromPile`) and a whole pile (`ReturnAllFromPile`).
 * The cards go on top of the deck, as new `DeckCard` rows.
 */
module ReturnOps {
  import opened Common
  import opened Chains
  import opened Cards
  import opened Tables
  import opened Stacks
  import opened DeckMoves
  import opened DeckBuild
  import opened DeckShuffle
  import opened DeckOps
  import opened PileMoves
  import opened PileOps
  import opened DeckReturns

  // ---- pushing onto a deck ----

  /**
   * The inserts of a return: each code of `ps`, in order, becomes a new row
   * of deck `d` pointing to the deck's top, and the deck's `topCardId`
   * becomes the last of them.
   */
  method PushOnDeck(db: Db, ghost ord: Orders, d: DeckId, ps: seq<Code>) returns (t: Db, ghost o: Orders)
    requires d in db.decks && d in ord.decks && db.decks[d].top == Head(ord.decks[d])
    requires forall id :: id in db.deckCards ==> id <= db.lastCard
    ensures DeckPushed(db, ord, t, o, d, ps) && o.piles == ord.piles
    ensures t == db.(decks := t.decks, deckCards := t.deckCards, lastCard := db.lastCard + |ps|)
  {
    var top := db.decks[d].top;
    var rows := PushRows(db.deckCards, d, ps, db.lastCard, top);
    var top' := if ps == [] then top else Some(db.lastCard + |ps|);
    ghost var s := Stack(db.lastCard, |ps|) + ord.decks[d];
    StackHead(db.lastCard, |ps|, ord.decks[d]);
    t := db.(decks := db.decks[d := db.decks[d].(top := top')], deckCards := rows, lastCard := db.lastCard + |ps|);
    o := ord.(decks := ord.decks[d := s]);
  }

  /**
   * What a return leaves alone: every deck's `shuffled` flag and the pile
   * counters.
   */
  ghost predicate FlagsKept(db: Db, t: Db) {
    && t.decks.Keys == db.decks.Keys
    && (forall e :: e in db.decks ==> t.decks[e].shuffled == db.decks[e].shuffled)
    && t.lastPile == db.lastPile && t.lastPileCard == db.lastPileCard
  }

  /** A push onto a deck moves only its top, so the flags stay. */
  lemma PushedFlags(db: Db, ord: Orders, t: Db, o: Orders, d: DeckId, ps: seq<Code>)
    requires DeckPushed(db, ord, t, o, d, ps)
    requires t.lastPile == db.lastPile && t.lastPileCard == db.lastPileCard
    ensures FlagsKept(db, t)
  {
  }

  /** Keeping the flags twice in a row keeps them. */
  lemma FlagsThen(db: Db, t1: Db, t: Db)
    requires FlagsKept(db, t1) && FlagsKept(t1, t)
    ensures FlagsKept(db, t)
  {
  }

  // ---- ReturnSpecificDrawn ----

  /** `total - inDeck - inPile`: the copies of a code neither in the deck list nor in a pile. */
  function Outstanding(e: Entry): int {
    e.total - e.inDeck - e.inPile
  }

  /**
   * `t` is `db` with one drawn copy of `code` back on top of deck `d`: the
   * deck reads `code` above what it read, every other deck as before, and
   * the ledger counts one copy more in the deck.
   */
  ghost predicate DrawnReturned(db: Db, ord: Orders, t: Db, o: Orders, d: DeckId, code: Code) {
    && d in db.decks && t.decks.Keys == db.decks.Keys && DeckShape(db, ord) && DeckShape(t, o)
    && DeckList(t, o, d) == [code] + DeckList(db, ord, d)
    && (forall e :: e in db.decks && e != d ==> DeckList(t, o, e) == DeckList(db, ord, e))
    && t.entries == Adjust(db.entries, d, code, 1, 0)
    && t.piles == db.piles && t.pileCards == db.pileCards && o.piles == ord.piles
    && FlagsKept(db, t)
  }

  /** Pushing a drawn copy and counting it in the deck keeps the invariant. */
  lemma DrawnReturnedKeeps(db: Db, ord: Orders, t: Db, o: Orders, d: DeckId, code: Code)
    requires Inv(db, ord) && (d, code) in db.entries && Outstanding(db.entries[(d, code)]) > 0
    requires DeckPushed(db, ord, t, o, d, [code]) && o.piles == ord.piles
    requires t == db.(decks := t.decks, deckCards := t.deckCards, entries := Adjust(db.entries, d, code, 1, 0),
                      lastCard := db.lastCard + 1)
    ensures Inv(t, o) && DrawnReturned(db, ord, t, o, d, code)
  {
    PushedFlags(db, ord, t, o, d, [code]);
    RestockedOne(db.entries, d, code);
    RoomOne(db.entries, d, code);
    ReturnKeeps(db, ord, t, o, d, [code]);
    assert Reverse([code]) == [code];
  }

  /**
   * What `ReturnSpecificDrawn` does: nothing changes on failure; a code
   * without a ledger row and a code with no drawn copy each fail; otherwise
   * one copy goes back on top of the deck.
   */
  ghost predicate ReturnSpecificDrawnOutcome(db: Db, ord: Orders, t: Db, o: Orders, d: DeckId, code: Code,
                                             r: Result<Code, StoreError>)
    requires Inv(db, ord)
  {
    && (r.Err? ==> t == db)
    && ((d, code) !in db.entries ==> r == Err(CardNotFound))
    && ((d, code) in db.entries && Outstanding(db.entries[(d, code)]) <= 0 ==> r == Err(NotDrawn))
    && ((d, code) in db.entries && Outstanding(db.entries[(d, code)]) > 0 ==>
          r == Ok(code) && DrawnReturned(db, ord, t, o, d, code))
  }

  /**
   * The transaction of `ReturnSpecificDrawn`: a drawn copy of `code` goes
   * back on top of deck `d`.  It fails when the deck has no ledger row for
   * the code, or no copy of it is drawn.
   */
  method ReturnSpecificDrawnTx(db: Db, ghost ord: Orders, d: DeckId, code: Code)
    returns (t: Db, ghost o: Orders, r: Result<Code, StoreError>)
    requires Inv(db, ord)
    ensures Inv(t, o)
    ensures ReturnSpecificDrawnOutcome(db, ord, t, o, d, code, r)
  {
    t, o := db, ord;
    if (d, code) !in db.entries {
      return t, o, Err(CardNotFound);
    }
    var e := db.entries[(d, code)];
    if e.total - e.inDeck - e.inPile <= 0 {
      return t, o, Err(NotDrawn);
    }
    t, o := ReturnOneTx(db, ord, d, code);
    r := Ok(code);
  }

  /** The writes of `ReturnSpecificDrawn` once a drawn copy of `code` is known. */
  method ReturnOneTx(db: Db, ghost ord: Orders, d: DeckId, code: Code) returns (t: Db, ghost o: Orders)
    requires Inv(db, ord) && (d, code) in db.entries && Outstanding(db.entries[(d, code)]) > 0
    ensures Inv(t, o) && DrawnReturned(db, ord, t, o, d, code)
  {
    t, o := PushOnDeck(db, ord, d, [code]);
    t := t.(entries := Adjust(db.entries, d, code, 1, 0));
    DrawnReturnedKeeps(db, ord, t, o, d, code);
  }

  // ---- ReturnAllDrawn ----

  /** The copies of `c` the scan of deck `d`'s ledger finds drawn: none unless that number is positive. */
  function Owed(entries: map<(DeckId, Code), Entry>, d: DeckId, c: Code): nat {
    if (d, c) in entries && Outstanding(entries[(d, c)]) > 0 then Outstanding(entries[(d, c)]) else 0
  }

  /** `n` copies of `c`. */
  function Repeat(c: Code, n: nat): (r: seq<Code>)
    ensures |r| == n && forall i :: 0 <= i < n ==> r[i] == c
  {
    if n == 0 then [] else Repeat(c, n - 1) + [c]
  }

  /** Each scanned code as many times as it was found drawn, in scan order. */
  function Expand(toReturn: seq<(Code, nat)>): seq<Code> {
    if toReturn == [] then [] else Repeat(toReturn[0].0, toReturn[0].1) + Expand(toReturn[1..])
  }

  /** `n` copies of `c` count `n` for `c` and nothing for any other code. */
  lemma {:induction false} RepeatMultiset(c: Code, n: nat, x: Code)
    ensures multiset(Repeat(c, n))[x] == if x == c then n else 0
  {
    if n > 0 {
      RepeatMultiset(c, n - 1, x);
    }
  }

  /** Scanning one more entry adds its copies at the end. */
  lemma {:induction false} ExpandAppend(toReturn: seq<(Code, nat)>, x: (Code, nat))
    ensures Expand(toReturn + [x]) == Expand(toReturn) + Repeat(x.0, x.1)
  {
    if toReturn != [] {
      assert (toReturn + [x])[1..] == toReturn[1..] + [x];
      ExpandAppend(toReturn[1..], x);
    }
  }

  /** The copies still to push, from entry `i` on, reversed: those after `i`, then the copies of entry `i`. */
  lemma ExpandFrom(toReturn: seq<(Code, nat)>, i: nat)
    requires i < |toReturn|
    ensures Reverse(Expand(toReturn[i..])) == Reverse(Expand(toReturn[i + 1..])) + Repeat(toReturn[i].0, toReturn[i].1)
  {
    var c, n := toReturn[i].0, toReturn[i].1;
    assert toReturn[i..][1..] == toReturn[i + 1..];
    assert Expand(toReturn[i..]) == Repeat(c, n) + Expand(toReturn[i + 1..]);
    ReverseAppend(Repeat(c, n), Expand(toReturn[i + 1..]));
    assert Reverse(Repeat(c, n)) == Repeat(c, n);
  }

  /**
   * The scan of `ReturnAllDrawn`: every ledger row of deck `d`, in an order
   * the database chooses, and for each with copies drawn the code and how
   * many.
   */
  method ScanDrawn(entries: map<(DeckId, Code), Entry>, d: DeckId) returns (toReturn: seq<(Code, nat)>)
    ensures forall c :: multiset(Expand(toReturn))[c] == Owed(entries, d, c)
  {
    toReturn := [];
    var left := set k | k in entries && k.0 == d;
    while left != {}
      invariant forall k :: k in left ==> k in entries && k.0 == d
      invariant ScannedBut(entries, d, left, toReturn)
      decreases |left|
    {
      var k :| k in left;
      var drawn := Outstanding(entries[k]);
      var next := if drawn > 0 then toReturn + [(k.1, drawn)] else toReturn;
      ScanNext(entries, d, left, toReturn, k, next);
      toReturn, left := next, left - {k};
    }
  }

  /** `toReturn` holds the drawn copies of every ledger row of deck `d` but those of `left`. */
  ghost predicate ScannedBut(entries: map<(DeckId, Code), Entry>, d: DeckId, left: set<(DeckId, Code)>,
                             toReturn: seq<(Code, nat)>) {
    forall c :: multiset(Expand(toReturn))[c] == if (d, c) in left then 0 else Owed(entries, d, c)
  }

  /** Scanning one more ledger row of deck `d` accounts for its drawn copies. */
  lemma ScanNext(entries: map<(DeckId, Code), Entry>, d: DeckId, left: set<(DeckId, Code)>, toReturn: seq<(Code, nat)>,
                 k: (DeckId, Code), next: seq<(Code, nat)>)
    requires k in left && k in entries && k.0 == d
    requires ScannedBut(entries, d, left, toReturn)
    requires next == if Outstanding(entries[k]) > 0 then toReturn + [(k.1, Outstanding(entries[k]))] else toReturn
    ensures ScannedBut(entries, d, left - {k}, next)
  {
    var drawn := Outstanding(entries[k]);
    if drawn > 0 {
      ExpandAppend(toReturn, (k.1, drawn));
      forall c ensures multiset(Expand(toReturn + [(k.1, drawn)]))[c] == if (d, c) in left - {k} then 0 else Owed(entries, d, c) {
        RepeatMultiset(k.1, drawn, c);
      }
    }
  }

  /**
   * The insert loops of `ReturnAllDrawn`: the scanned entries from the last
   * to the first, each code as many times as it was drawn, every new row
   * pointing to the one inserted before it, the first to `top`.  Returns
   * the last row inserted, or `top` when there was none, and the last id
   * handed out.
   */
  method PushReturns(rows: map<int, Row<DeckId>>, d: DeckId, toReturn: seq<(Code, nat)>, base: int, top: Option<int>)
    returns (rows': map<int, Row<DeckId>>, cur: Option<int>, last: int)
    requires forall id :: id in rows ==> id <= base
    ensures PushedAll(rows, rows', d, Reverse(Expand(toReturn)), base, top)
    ensures last == base + |Expand(toReturn)|
    ensures cur == if Expand(toReturn) == [] then top else Some(last)
  {
    rows', cur, last := rows, top, base;
    ghost var pushed: seq<Code> := [];
    var i := |toReturn|;
    while i > 0
      invariant 0 <= i <= |toReturn|
      invariant pushed == Reverse(Expand(toReturn[i..]))
      invariant PushState(rows, rows', d, pushed, base, top, cur, last)
    {
      i := i - 1;
      ExpandFrom(toReturn, i);
      rows', cur, last := PushCopies(rows, rows', d, pushed, base, top, cur, last, toReturn[i].0, toReturn[i].1);
      pushed := pushed + Repeat(toReturn[i].0, toReturn[i].1);
    }
    assert toReturn[0..] == toReturn;
    ReverseLength(Expand(toReturn));
  }

  /** The inner insert loop of `ReturnAllDrawn`: `n` copies of `c`, each pointing to the row inserted before it. */
  method PushCopies(ghost rows: map<int, Row<DeckId>>, rows': map<int, Row<DeckId>>, d: DeckId, ghost pushed: seq<Code>,
                    ghost base: int, ghost top: Option<int>, cur: Option<int>, last: int, c: Code, n: nat)
    returns (rows'': map<int, Row<DeckId>>, cur': Option<int>, last': int)
    requires PushState(rows, rows', d, pushed, base, top, cur, last)
    ensures PushState(rows, rows'', d, pushed + Repeat(c, n), base, top, cur', last')
  {
    rows'', cur', last' := rows', cur, last;
    for j := 0 to n
      invariant PushState(rows, rows'', d, pushed + Repeat(c, j), base, top, cur', last')
    {
      PushStep(rows, rows'', d, pushed + Repeat(c, j), base, top, cur', last', c);
      assert pushed + Repeat(c, j) + [c] == pushed + Repeat(c, j + 1);
      rows'', cur', last' := rows''[last' + 1 := Row(d, c, cur')], Some(last' + 1), last' + 1;
    }
  }

  /** After pushing `pushed`: the rows, the last id handed out, and the row the next push points to. */
  ghost predicate PushState(rows: map<int, Row<DeckId>>, rows': map<int, Row<DeckId>>, d: DeckId, pushed: seq<Code>,
                            base: int, top: Option<int>, cur: Option<int>, last: int) {
    && (forall id :: id in rows ==> id <= base)
    && PushedAll(rows, rows', d, pushed, base, top)
    && last == base + |pushed| && cur == if pushed == [] then top else Some(last)
  }

  /** One more insert: the next id, pointing to the row inserted before it. */
  lemma PushStep(rows: map<int, Row<DeckId>>, rows': map<int, Row<DeckId>>, d: DeckId, pushed: seq<Code>,
                 base: int, top: Option<int>, cur: Option<int>, last: int, c: Code)
    requires PushState(rows, rows', d, pushed, base, top, cur, last)
    ensures PushState(rows, rows'[last + 1 := Row(d, c, cur)], d, pushed + [c], base, top, Some(last + 1), last + 1)
  {
    PushedNext(rows, rows', d, pushed, base, top, c);
  }

  /** Reversing keeps the length, and only the empty sequence reverses to nothing. */
  lemma ReverseLength<T>(s: seq<T>)
    ensures |Reverse(s)| == |s| && (Reverse(s) == [] <==> s == [])
  {
  }

  /** `UPDATE DeckEntry SET inDeck = total - inPile WHERE deckId = d`. */
  function Refill(entries: map<(DeckId, Code), Entry>, d: DeckId): (r: map<(DeckId, Code), Entry>)
    ensures r.Keys == entries.Keys
  {
    map k | k in entries :: if k.0 == d then entries[k].(inDeck := entries[k].total - entries[k].inPile) else entries[k]
  }

  /** After the refill no copy of deck `d` is drawn, and every other deck's ledger is as it was. */
  lemma RefillNoneDrawn(entries: map<(DeckId, Code), Entry>, d: DeckId)
    ensures forall k :: k in Refill(entries, d) && k.0 == d ==> Outstanding(Refill(entries, d)[k]) == 0
    ensures forall k :: k in entries && k.0 != d ==> Refill(entries, d)[k] == entries[k]
  {
  }

  /**
   * Within bounds, setting `inDeck` to what is not in piles is counting
   * every drawn copy back into the deck, once per copy the scan found.
   */
  lemma RefillIsRestocked(entries: map<(DeckId, Code), Entry>, d: DeckId, ps: seq<Code>)
    requires forall k :: k in entries ==> entries[k].inDeck + entries[k].inPile <= entries[k].total
    requires forall c :: multiset(ps)[c] == Owed(entries, d, c)
    ensures Refill(entries, d) == Restocked(entries, d, ps)
    ensures Room(entries, d, ps)
  {
    forall c | c in ps ensures (d, c) in entries {
      assert multiset(ps)[c] > 0;
    }
  }

  /**
   * The transaction of `ReturnAllDrawn`: every drawn copy of every code of
   * deck `d` goes back on top of the deck, in the order `returned`, which
   * holds each code as many times as it was drawn.  Nothing changes for an
   * unknown deck.
   */
  method ReturnAllDrawnTx(db: Db, ghost ord: Orders, d: DeckId) returns (t: Db, ghost o: Orders, ghost returned: seq<Code>)
    requires Inv(db, ord)
    ensures Inv(t, o)
    ensures forall c :: multiset(returned)[c] == Owed(db.entries, d, c)
    ensures d !in db.decks ==> t == db
    ensures d in db.decks ==> AllReturned(db, ord, t, o, d, returned)
  {
    if d in db.decks {
      t, o, returned := ReturnAllKnownTx(db, ord, d);
    } else {
      var toReturn := ScanDrawn(db.entries, d);
      var rows, cur, last := PushReturns(db.deckCards, d, toReturn, db.lastCard, None);
      returned := Expand(toReturn);
      t := db.(deckCards := rows, entries := Refill(db.entries, d), lastCard := last);
      o := ord;
      NothingDrawn(db, d, returned);
      NothingPushed(db.deckCards, rows, d, db.lastCard, None);
      RefillUnknown(db.entries, d);
    }
  }

  /** `ReturnAllDrawnTx` for a deck that exists. */
  method ReturnAllKnownTx(db: Db, ghost ord: Orders, d: DeckId) returns (t: Db, ghost o: Orders, ghost returned: seq<Code>)
    requires Inv(db, ord) && d in db.decks
    ensures Inv(t, o)
    ensures forall c :: multiset(returned)[c] == Owed(db.entries, d, c)
    ensures AllReturned(db, ord, t, o, d, returned)
  {
    var toReturn := ScanDrawn(db.entries, d);
    var rows, cur, last := PushReturns(db.deckCards, d, toReturn, db.lastCard, db.decks[d].top);
    returned := Expand(toReturn);
    var decks := if cur.Some? then db.decks[d := db.decks[d].(top := cur)] else db.decks;
    t := db.(decks := decks, deckCards := rows, entries := Refill(db.entries, d), lastCard := last);
    o := ord.(decks := ord.decks[d := Stack(db.lastCard, |Expand(toReturn)|) + ord.decks[d]]);
    AllDrawnBack(db, ord, d, toReturn, rows, cur, last, t, o);
  }

  /** With deck `d` known, the pushes and the refill return every drawn copy and keep the invariant. */
  lemma AllDrawnBack(db: Db, ord: Orders, d: DeckId, toReturn: seq<(Code, nat)>, rows: map<int, Row<DeckId>>,
                     cur: Option<int>, last: int, t: Db, o: Orders)
    requires Inv(db, ord) && DeckShape(db, ord) && d in db.decks
    requires forall c :: multiset(Expand(toReturn))[c] == Owed(db.entries, d, c)
    requires PushedAll(db.deckCards, rows, d, Reverse(Expand(toReturn)), db.lastCard, db.decks[d].top)
    requires last == db.lastCard + |Expand(toReturn)|
    requires cur == if Expand(toReturn) == [] then db.decks[d].top else Some(last)
    requires t == db.(decks := if cur.Some? then db.decks[d := db.decks[d].(top := cur)] else db.decks,
                      deckCards := rows, entries := Refill(db.entries, d), lastCard := last)
    requires o == ord.(decks := ord.decks[d := Stack(db.lastCard, |Expand(toReturn)|) + ord.decks[d]])
    ensures Inv(t, o) && AllReturned(db, ord, t, o, d, Expand(toReturn))
  {
    AllDrawnPushed(db, ord, d, toReturn, rows, cur, last, t, o);
    AllReturnedKeeps(db, ord, t, o, d, Expand(toReturn));
  }

  /** With deck `d` known, the rows `PushReturns` adds and the new top are the push of the drawn copies, reversed. */
  lemma AllDrawnPushed(db: Db, ord: Orders, d: DeckId, toReturn: seq<(Code, nat)>, rows: map<int, Row<DeckId>>,
                       cur: Option<int>, last: int, t: Db, o: Orders)
    requires DeckShape(db, ord) && d in db.decks
    requires PushedAll(db.deckCards, rows, d, Reverse(Expand(toReturn)), db.lastCard, db.decks[d].top)
    requires last == db.lastCard + |Expand(toReturn)|
    requires cur == if Expand(toReturn) == [] then db.decks[d].top else Some(last)
    requires t.deckCards == rows && t.decks == if cur.Some? then db.decks[d := db.decks[d].(top := cur)] else db.decks
    requires o == ord.(decks := ord.decks[d := Stack(db.lastCard, |Expand(toReturn)|) + ord.decks[d]])
    ensures DeckPushed(db, ord, t, o, d, Reverse(Expand(toReturn)))
  {
    var returned := Expand(toReturn);
    var ps := Reverse(returned);
    ReverseLength(returned);
    assert |ps| == |returned| && (ps == [] <==> returned == []);
    DrawnPushed(db, ord, t, o, d, ps, cur);
  }

  /** Pushing nothing leaves the rows as they were. */
  lemma NothingPushed(rows: map<int, Row<DeckId>>, rows': map<int, Row<DeckId>>, d: DeckId, base: int, top: Option<int>)
    requires PushedAll(rows, rows', d, [], base, top)
    ensures rows' == rows
  {
    forall id ensures id in rows' <==> id in rows {
    }
    assert rows'.Keys == rows.Keys;
    assert forall id :: id in rows ==> rows'[id] == rows[id];
  }

  /** Refilling a deck without ledger rows changes nothing. */
  lemma RefillUnknown(entries: map<(DeckId, Code), Entry>, d: DeckId)
    requires forall k :: k in entries ==> k.0 != d
    ensures Refill(entries, d) == entries
  {
  }

  /**
   * The rows `PushReturns` adds and the new `topCardId` of the deck are the
   * push of `ps` onto its list.
   */
  lemma DrawnPushed(db: Db, ord: Orders, t: Db, o: Orders, d: DeckId, ps: seq<Code>, cur: Option<int>)
    requires DeckShape(db, ord) && d in db.decks
    requires PushedAll(db.deckCards, t.deckCards, d, ps, db.lastCard, db.decks[d].top)
    requires cur == if ps == [] then db.decks[d].top else Some(db.lastCard + |ps|)
    requires t.decks == if cur.Some? then db.decks[d := db.decks[d].(top := cur)] else db.decks
    requires o == ord.(decks := ord.decks[d := Stack(db.lastCard, |ps|) + ord.decks[d]])
    ensures DeckPushed(db, ord, t, o, d, ps)
  {
    assert DeckChain(db, ord, d);
  }

  /**
   * `t` is `db` with every drawn copy of deck `d` back on top of it, in the
   * order `returned`, and the ledger counting none of them drawn.
   */
  ghost predicate AllReturned(db: Db, ord: Orders, t: Db, o: Orders, d: DeckId, returned: seq<Code>) {
    && d in db.decks && t.decks.Keys == db.decks.Keys && DeckShape(db, ord) && DeckShape(t, o)
    && DeckList(t, o, d) == returned + DeckList(db, ord, d)
    && (forall e :: e in db.decks && e != d ==> DeckList(t, o, e) == DeckList(db, ord, e))
    && t.entries == Refill(db.entries, d)
    && t.piles == db.piles && t.pileCards == db.pileCards && o.piles == ord.piles
    && FlagsKept(db, t)
  }

  /** Pushing back every drawn copy and refilling the ledger keeps the invariant. */
  lemma AllReturnedKeeps(db: Db, ord: Orders, t: Db, o: Orders, d: DeckId, returned: seq<Code>)
    requires Inv(db, ord) && forall c :: multiset(returned)[c] == Owed(db.entries, d, c)
    requires DeckPushed(db, ord, t, o, d, Reverse(returned)) && o.piles == ord.piles
    requires t == db.(decks := t.decks, deckCards := t.deckCards, entries := Refill(db.entries, d),
                      lastCard := db.lastCard + |returned|)
    ensures Inv(t, o) && AllReturned(db, ord, t, o, d, returned)
  {
    PushedFlags(db, ord, t, o, d, Reverse(returned));
    var ps := Reverse(returned);
    ReverseMultiset(returned);
    ReverseReverse(returned);
    RefillIsRestocked(db.entries, d, ps);
    ReturnKeeps(db, ord, t, o, d, ps);
  }

  /** An unknown deck has no ledger rows, so nothing of it is drawn. */
  lemma NothingDrawn(db: Db, d: DeckId, returned: seq<Code>)
    requires DeckKeys(db) && d !in db.decks
    requires forall c :: multiset(returned)[c] == Owed(db.entries, d, c)
    ensures returned == []
  {
    assert multiset(returned) == multiset{};
  }

  // ---- ReturnSpecificFromPile ----

  /**
   * `t` is `db` with the `k`-th card `c` of pile `p` put back on top of the
   * pile's deck: the pile reads as before without it, the deck reads `c`
   * above what it read, every other pile and deck as before, and the
   * ledger counts one copy of `c` more in the deck and one fewer in piles.
   */
  ghost predicate PutBack(db: Db, ord: Orders, t: Db, o: Orders, p: int, k: nat, c: Code) {
    && PileShape(db, ord) && PileShape(t, o) && DeckShape(db, ord) && DeckShape(t, o)
    && p in db.piles && k < |ord.piles[p]| && PileList(db, ord, p)[k] == c
    && t.piles == db.piles && t.decks.Keys == db.decks.Keys && db.piles[p].deck in db.decks
    && PileList(t, o, p) == PileList(db, ord, p)[..k] + PileList(db, ord, p)[k + 1..]
    && (forall q :: q in db.piles && q != p ==> PileList(t, o, q) == PileList(db, ord, q))
    && DeckList(t, o, db.piles[p].deck) == [c] + DeckList(db, ord, db.piles[p].deck)
    && (forall e :: e in db.decks && e != db.piles[p].deck ==> DeckList(t, o, e) == DeckList(db, ord, e))
    && t.entries == Adjust(db.entries, db.piles[p].deck, c, 1, -1)
    && FlagsKept(db, t)
  }

  /** Moving one copy from piles to the deck in two updates is moving it in one. */
  lemma AdjustTwice(entries: map<(DeckId, Code), Entry>, d: DeckId, c: Code)
    ensures Adjust(Adjust(entries, d, c, 0, -1), d, c, 1, 0) == Adjust(entries, d, c, 1, -1)
  {
  }

  /** A copy taken out of a pile is one that is neither in the deck nor in a pile. */
  lemma TakenIsOutstanding(entries: map<(DeckId, Code), Entry>, d: DeckId, c: Code)
    requires (d, c) in entries && entries[(d, c)].inPile > 0
    requires entries[(d, c)].inDeck + entries[(d, c)].inPile <= entries[(d, c)].total
    ensures (d, c) in Adjust(entries, d, c, 0, -1) && Outstanding(Adjust(entries, d, c, 0, -1)[(d, c)]) > 0
  {
  }

  /** Taking the card out of its pile, then returning it to the deck, puts it back. */
  lemma PutBackHolds(db: Db, ord: Orders, t1: Db, o1: Orders, t: Db, o: Orders, p: int, k: nat, c: Code)
    requires DeckShape(db, ord) && PileTaken(db, ord, t1, o1, p, k) && PileList(db, ord, p)[k] == c
    requires o1.decks == ord.decks
    requires db.piles[p].deck in db.decks && DrawnReturned(t1, o1, t, o, db.piles[p].deck, c)
    requires t1.lastPile == db.lastPile && t1.lastPileCard == db.lastPileCard
    ensures PutBack(db, ord, t, o, p, k, c)
  {
    assert FlagsKept(db, t1);
    FlagsThen(db, t1, t);
    AdjustTwice(db.entries, db.piles[p].deck, c);
    PutBackDecks(db, ord, t1, o1, t, o, db.piles[p].deck, c);
  }

  /** The deck lists after the take are those before it, so the put-back card heads them. */
  lemma PutBackDecks(db: Db, ord: Orders, t1: Db, o1: Orders, t: Db, o: Orders, d: DeckId, c: Code)
    requires DeckShape(db, ord) && d in db.decks
    requires t1.decks == db.decks && t1.deckCards == db.deckCards && o1.decks == ord.decks
    requires DrawnReturned(t1, o1, t, o, d, c)
    ensures DeckShape(t, o) && t.decks.Keys == db.decks.Keys
    ensures DeckList(t, o, d) == [c] + DeckList(db, ord, d)
    ensures forall e :: e in db.decks && e != d ==> DeckList(t, o, e) == DeckList(db, ord, e)
  {
  }

  /**
   * What `ReturnSpecificFromPile` does: nothing changes on failure; an
   * unknown pile and a code the pile lacks each fail; otherwise the first row
   * of the pile holding `code`, the `k`-th of its list, goes back on top of
   * the deck.
   */
  ghost predicate ReturnSpecificFromPileOutcome(db: Db, ord: Orders, t: Db, o: Orders, d: DeckId, name: string,
                                                code: Code, r: Result<Code, StoreError>, k: nat)
    requires Inv(db, ord)
  {
    && (r.Err? ==> t == db)
    && (FindPile(db, d, name).None? ==> r == Err(PileMissing))
    && (FindPile(db, d, name).Some? ==>
          var p := FindPile(db, d, name).value;
          && (code !in PileList(db, ord, p) ==> r == Err(CardNotInPile))
          && (code in PileList(db, ord, p) ==>
              && r == Ok(code) && PutBack(db, ord, t, o, p, k, code)
              && Some(ord.piles[p][k]) == First(RowsWith(db.pileCards, p, code))))
  }

  /**
   * The transaction of `ReturnSpecificFromPile`: find deck `d`'s pile
   * `name` and the first row of it holding `code`, take that row out of the
   * pile, move one copy from piles to the deck in the ledger, and put the
   * card on top of the deck.  The ledger update can find no copy in piles
   * only if the ledger disagrees with the rows, which the invariant rules
   * out.
   */
  method ReturnSpecificFromPileTx(db: Db, ghost ord: Orders, d: DeckId, name: string, code: Code)
    returns (t: Db, ghost o: Orders, r: Result<Code, StoreError>, ghost k: nat)
    requires Inv(db, ord)
    ensures Inv(t, o)
    ensures ReturnSpecificFromPileOutcome(db, ord, t, o, d, name, code, r, k)
  {
    t, o, k := db, ord, 0;
    var found := FindPile(db, d, name);
    if found.None? {
      return t, o, Err(PileMissing), k;
    }
    var p := found.value;
    HeldIsListed(db, ord, p, code);
    var first := First(RowsWith(db.pileCards, p, code));
    if first.None? {
      return t, o, Err(CardNotInPile), k;
    }
    var id := first.value;
    k := Position(ord.piles[p], id);
    ListedEntered(db, ord, p, code);
    if (d, code) !in db.entries || db.entries[(d, code)].inPile <= 0 {
      // `UPDATE DeckEntry ... WHERE inPile > 0` matches no row: "inconsistent DeckEntry"
      assert false;
    }
    assert PileList(db, ord, p)[k] == code;
    t, o := PutBackTx(db, ord, p, id, k, code);
    r := Ok(code);
  }

  /**
   * The updates of `ReturnSpecificFromPile` once the row is found: take row
   * `id`, the `k`-th of pile `p`, out of the pile, move one copy of its code
   * from piles to the deck in the ledger, and push the card on the deck.
   */
  method PutBackTx(db: Db, ghost ord: Orders, p: int, id: int, ghost k: nat, code: Code) returns (t: Db, ghost o: Orders)
    requires Inv(db, ord) && p in db.piles && k < |ord.piles[p]| && ord.piles[p][k] == id
    requires PileList(db, ord, p)[k] == code
    requires (db.piles[p].deck, code) in db.entries && db.entries[(db.piles[p].deck, code)].inPile > 0
    ensures Inv(t, o) && PutBack(db, ord, t, o, p, k, code)
  {
    var d := db.piles[p].deck;
    TakenIsOutstanding(db.entries, d, code);
    var t1, _ := TakePicked(db, ord, p, id, false, k);
    ghost var o1 := Taken(ord, p, k);
    assert o1.decks == ord.decks;
    t, o := PushOnDeck(t1, o1, d, [code]);
    t := t.(entries := Adjust(t1.entries, d, code, 1, 0));
    DrawnReturnedKeeps(t1, o1, t, o, d, code);
    PutBackHolds(db, ord, t1, o1, t, o, p, k, code);
  }

  // ---- ReturnAllFromPile ----

  /** The ledger of deck `d` once a pile holding `codes` is returned: its copies move from piles to the deck. */
  function Shift(entries: map<(DeckId, Code), Entry>, d: DeckId, codes: seq<Code>): (r: map<(DeckId, Code), Entry>)
    ensures r.Keys == entries.Keys
  {
    map k | k in entries ::
      if k.0 == d then entries[k].(inDeck := entries[k].inDeck + multiset(codes)[k.1],
                                   inPile := entries[k].inPile - multiset(codes)[k.1])
      else entries[k]
  }

  /** Moving the copies is uncounting them from piles, then counting them, in any order, in the deck. */
  lemma ShiftSplit(entries: map<(DeckId, Code), Entry>, d: DeckId, codes: seq<Code>)
    ensures Shift(entries, d, codes) == Restocked(Unpiled(entries, d, codes), d, Reverse(codes))
  {
    ReverseMultiset(codes);
  }

  /** `codeCounts[code]++` for every code of the pile. */
  method CountCodes(codes: seq<Code>) returns (counts: map<Code, int>)
    ensures counts == Tally(codes)
  {
    counts := map[];
    for i := 0 to |codes|
      invariant counts == Tally(codes[..i])
    {
      TallyNext(codes, i);
      counts := Bump(counts, codes[i]);
    }
    assert codes[..|codes|] == codes;
  }

  /** Every counted code of deck `d` has its ledger row, counting at least that many copies in piles. */
  predicate Covers(entries: map<(DeckId, Code), Entry>, d: DeckId, counts: map<Code, int>) {
    forall c :: c in counts ==> (d, c) in entries && entries[(d, c)].inPile >= counts[c]
  }

  /** The ledger with the counted copies of the codes of `done` moved from piles to deck `d`. */
  function ShiftedOn(entries: map<(DeckId, Code), Entry>, d: DeckId, counts: map<Code, int>, done: set<Code>)
    : map<(DeckId, Code), Entry>
  {
    map k | k in entries ::
      if k.0 == d && k.1 in done && k.1 in counts
      then entries[k].(inDeck := entries[k].inDeck + counts[k.1], inPile := entries[k].inPile - counts[k.1])
      else entries[k]
  }

  /**
   * The ledger loop of `ReturnAllFromPile`: for each counted code, in map
   * order, `UPDATE DeckEntry SET inPile = inPile - cnt, inDeck = inDeck +
   * cnt WHERE deckId = d AND code = c AND inPile >= cnt`; a code whose
   * update matches no row stops the loop with "inconsistent DeckEntry".
   */
  method MoveCounts(entries: map<(DeckId, Code), Entry>, d: DeckId, counts: map<Code, int>)
    returns (r: Result<map<(DeckId, Code), Entry>, StoreError>)
    ensures r == if Covers(entries, d, counts) then Ok(ShiftedOn(entries, d, counts, counts.Keys)) else Err(Inconsistent)
  {
    var e := entries;
    var left := counts.Keys;
    while left != {}
      invariant left <= counts.Keys
      invariant e == ShiftedOn(entries, d, counts, counts.Keys - left)
      invariant forall c :: c in counts && c !in left ==> (d, c) in entries && entries[(d, c)].inPile >= counts[c]
      decreases |left|
    {
      var c :| c in left;
      var cnt := counts[c];
      assert (d, c) in e <==> (d, c) in entries;
      if (d, c) !in e || e[(d, c)].inPile < cnt {
        return Err(Inconsistent);
      }
      e := e[(d, c) := e[(d, c)].(inDeck := e[(d, c)].inDeck + cnt, inPile := e[(d, c)].inPile - cnt)];
      left := left - {c};
    }
    assert counts.Keys - left == counts.Keys;
    return Ok(e);
  }

  /** With the tally of `codes`, the ledger loop moves exactly the copies of `codes`. */
  lemma TalliedShift(entries: map<(DeckId, Code), Entry>, d: DeckId, codes: seq<Code>)
    ensures ShiftedOn(entries, d, Tally(codes), Tally(codes).Keys) == Shift(entries, d, codes)
    ensures Covers(entries, d, Tally(codes)) <==>
      forall c :: c in codes ==> (d, c) in entries && entries[(d, c)].inPile >= multiset(codes)[c]
  {
    var m := Tally(codes);
    forall k | k in entries ensures ShiftedOn(entries, d, m, m.Keys)[k] == Shift(entries, d, codes)[k] {
      if k.0 == d && k.1 !in m {
        assert k.1 !in codes;
        assert multiset(codes)[k.1] == 0;
      }
    }
  }

  /**
   * `t` is `db` with pile `p` returned whole to the top of its deck: the
   * pile is empty, the deck reads the pile's codes in `codes` order above
   * what it read, every other pile and deck reads as before, and the
   * ledger moves the copies of `codes` from piles to the deck.
   */
  ghost predicate PileReturned(db: Db, ord: Orders, t: Db, o: Orders, p: int, codes: seq<Code>) {
    && PileShape(db, ord) && PileShape(t, o) && DeckShape(db, ord) && DeckShape(t, o)
    && p in db.piles && t.piles == db.piles && t.decks.Keys == db.decks.Keys && db.piles[p].deck in db.decks
    && multiset(codes) == multiset(PileList(db, ord, p))
    && PileList(t, o, p) == []
    && (forall q :: q in db.piles && q != p ==> PileList(t, o, q) == PileList(db, ord, q))
    && DeckList(t, o, db.piles[p].deck) == codes + DeckList(db, ord, db.piles[p].deck)
    && (forall e :: e in db.decks && e != db.piles[p].deck ==> DeckList(t, o, e) == DeckList(db, ord, e))
    && t.entries == Shift(db.entries, db.piles[p].deck, codes)
    && FlagsKept(db, t)
  }

  /**
   * What `ReturnAllFromPile` does: an unknown pile fails and changes
   * nothing; otherwise the call succeeds, `codes` are the pile's codes read
   * by ascending row id, and they all go back on top of the deck.
   */
  ghost predicate ReturnAllFromPileOutcome(db: Db, ord: Orders, t: Db, o: Orders, d: DeckId, name: string,
                                           r: Outcome<StoreError>, codes: seq<Code>)
    requires Inv(db, ord)
  {
    && (r.Fail? ==> t == db)
    && (FindPile(db, d, name).None? ==> r == Fail(PileMissing))
    && (FindPile(db, d, name).Some? ==>
          var p := FindPile(db, d, name).value;
          && r == Pass && codes == Codes(db.pileCards, Scan(db.pileCards, p))
          && PileReturned(db, ord, t, o, p, codes))
  }

  /**
   * The transaction of `ReturnAllFromPile`: read the codes of deck `d`'s
   * pile `name` by ascending row id, move their copies from piles to the
   * deck in the ledger, delete the pile's rows and push the codes onto the
   * deck from the last read to the first, so that the deck reads them in
   * the order read.  The ledger loop can fail only if the ledger disagrees
   * with the rows, which the invariant rules out.
   */
  method ReturnAllFromPileTx(db: Db, ghost ord: Orders, d: DeckId, name: string)
    returns (t: Db, ghost o: Orders, r: Outcome<StoreError>, ghost codes: seq<Code>)
    requires Inv(db, ord)
    ensures Inv(t, o)
    ensures ReturnAllFromPileOutcome(db, ord, t, o, d, name, r, codes)
  {
    t, o, codes := db, ord, [];
    var found := FindPile(db, d, name);
    if found.None? {
      return t, o, Fail(PileMissing), codes;
    }
    t, o, codes := ReturnPileTx(db, ord, found.value);
    r := Pass;
  }

  /** `ReturnAllFromPileTx` once pile `p` is found. */
  method ReturnPileTx(db: Db, ghost ord: Orders, p: int) returns (t: Db, ghost o: Orders, ghost codes: seq<Code>)
    requires Inv(db, ord) && p in db.piles
    ensures Inv(t, o)
    ensures codes == Codes(db.pileCards, Scan(db.pileCards, p)) && PileReturned(db, ord, t, o, p, codes)
  {
    var cs, entries := ShiftPileCounts(db, ord, p);
    codes := cs;
    t, o := PushPileBack(db, ord, p, cs, entries);
  }

  /** The writes of `ReturnAllFromPile`: the codes `cs` of pile `p` pushed reversed onto its deck, the pile dropped. */
  method PushPileBack(db: Db, ghost ord: Orders, p: int, cs: seq<Code>, entries: map<(DeckId, Code), Entry>)
    returns (t: Db, ghost o: Orders)
    requires Inv(db, ord) && p in db.piles && multiset(cs) == multiset(PileList(db, ord, p))
    requires entries == Shift(db.entries, db.piles[p].deck, cs)
    ensures Inv(t, o) && PileReturned(db, ord, t, o, p, cs)
  {
    var pushed;
    ghost var o2;
    pushed, o2 := PushOnDeck(db, ord, db.piles[p].deck, Reverse(cs));
    t := pushed.(pileCards := DropPile(db.pileCards, p), entries := entries);
    o := o2.(piles := ord.piles[p := []]);
    PileReturnFlags(db, ord, pushed, o2, t, p, cs);
    ReturnedAll(db, ord, pushed, o2, t, o, p, cs);
  }

  /** Returning a pile moves only its deck's top, so the flags stay. */
  lemma PileReturnFlags(db: Db, ord: Orders, pushed: Db, o2: Orders, t: Db, p: int, codes: seq<Code>)
    requires p in db.piles && DeckPushed(db, ord, pushed, o2, db.piles[p].deck, Reverse(codes))
    requires pushed == db.(decks := pushed.decks, deckCards := pushed.deckCards, lastCard := db.lastCard + |Reverse(codes)|)
    requires t == pushed.(pileCards := DropPile(db.pileCards, p), entries := Shift(db.entries, db.piles[p].deck, codes))
    ensures FlagsKept(db, t)
  {
    PushedFlags(db, ord, pushed, o2, db.piles[p].deck, Reverse(codes));
    FlagsThen(db, pushed, t);
  }

  /**
   * The reads and the ledger update of `ReturnAllFromPile`: the codes of
   * pile `p` by ascending row id, and the ledger with their copies moved
   * from the deck's piles back to the deck.
   */
  method ShiftPileCounts(db: Db, ghost ord: Orders, p: int) returns (cs: seq<Code>, entries: map<(DeckId, Code), Entry>)
    requires Inv(db, ord) && p in db.piles
    ensures cs == Codes(db.pileCards, Scan(db.pileCards, p)) && multiset(cs) == multiset(PileList(db, ord, p))
    ensures entries == Shift(db.entries, db.piles[p].deck, cs)
  {
    var d := db.piles[p].deck;
    var ids := Scan(db.pileCards, p);
    ScanListsPile(db, ord, p);
    cs := ReadCodes(db.pileCards, ids);
    var counts := CountCodes(cs);
    var moved := MoveCounts(db.entries, d, counts);
    EmptiedCovered(db, ord, p, cs);
    TalliedShift(db.entries, d, cs);
    if moved.Err? {
      // an `UPDATE DeckEntry ... WHERE inPile >= cnt` matched no row: "inconsistent DeckEntry"
      assert false;
    }
    entries := moved.value;
  }

  /** Emptying the pile, then returning its codes reversed to its deck, returns the pile whole. */
  lemma ReturnedAll(db: Db, ord: Orders, pushed: Db, o2: Orders, t: Db, o: Orders, p: int, codes: seq<Code>)
    requires Inv(db, ord) && p in db.piles && multiset(codes) == multiset(PileList(db, ord, p))
    requires DeckPushed(db, ord, pushed, o2, db.piles[p].deck, Reverse(codes)) && o2.piles == ord.piles
    requires pushed == db.(decks := pushed.decks, deckCards := pushed.deckCards, lastCard := db.lastCard + |Reverse(codes)|)
    requires t == pushed.(pileCards := DropPile(db.pileCards, p), entries := Shift(db.entries, db.piles[p].deck, codes))
    requires o == o2.(piles := ord.piles[p := []]) && FlagsKept(db, t)
    ensures Inv(t, o) && PileReturned(db, ord, t, o, p, codes)
  {
    var d := db.piles[p].deck;
    var t1, o1 := Emptied(db, p, codes), ord.(piles := ord.piles[p := []]);
    EmptiedKeeps(db, ord, p, codes);
    EmptiedRoom(db, ord, p, codes);
    EmptiedThenPushed(db, ord, pushed, o2, t, o, p, codes);
    ReturnKeeps(t1, o1, t, o, d, Reverse(codes));
    ReverseReverse(codes);
    DecksCarried(db, ord, t1, o1, t, o, d, codes);
  }

  /** The push onto the deck and the ledger shift, read after emptying pile `p`, are a return of the reversed codes. */
  lemma EmptiedThenPushed(db: Db, ord: Orders, pushed: Db, o2: Orders, t: Db, o: Orders, p: int, codes: seq<Code>)
    requires p in db.piles
    requires DeckPushed(db, ord, pushed, o2, db.piles[p].deck, Reverse(codes)) && o2.piles == ord.piles
    requires pushed == db.(decks := pushed.decks, deckCards := pushed.deckCards, lastCard := db.lastCard + |Reverse(codes)|)
    requires t == pushed.(pileCards := DropPile(db.pileCards, p), entries := Shift(db.entries, db.piles[p].deck, codes))
    requires o == o2.(piles := ord.piles[p := []])
    ensures Returned(Emptied(db, p, codes), ord.(piles := ord.piles[p := []]), t, o, db.piles[p].deck, Reverse(codes))
  {
    var d := db.piles[p].deck;
    var t1, o1 := Emptied(db, p, codes), ord.(piles := ord.piles[p := []]);
    assert t1.decks == db.decks && t1.deckCards == db.deckCards && t1.lastCard == db.lastCard;
    assert t1.entries == Unpiled(db.entries, d, codes);
    ShiftSplit(db.entries, d, codes);
    ReverseLength(codes);
    EmptiedPushed(db, ord, t1, o1, t, o, d, Reverse(codes));
  }

  /** Emptying a pile leaves the deck rows alone, so the push onto the deck is the same push after it. */
  lemma EmptiedPushed(db: Db, ord: Orders, t1: Db, o1: Orders, t: Db, o: Orders, d: DeckId, ps: seq<Code>)
    requires t1.decks == db.decks && t1.deckCards == db.deckCards && t1.lastCard == db.lastCard
    requires o1.decks == ord.decks && o1.piles == o.piles
    requires DeckPushed(db, ord, t, o, d, ps)
    requires t == t1.(decks := t.decks, deckCards := t.deckCards, entries := t.entries, lastCard := t.lastCard)
    requires t.entries == Restocked(t1.entries, d, ps) && t.lastCard == t1.lastCard + |ps|
    ensures Returned(t1, o1, t, o, d, ps)
  {
  }

  /**
   * When the deck side is as it was before a step, lists stated against the
   * state after the step are stated against the state before it.
   */
  lemma DecksCarried(db: Db, ord: Orders, t1: Db, o1: Orders, t: Db, o: Orders, d: DeckId, ps: seq<Code>)
    requires DeckShape(db, ord) && DeckShape(t1, o1) && DeckShape(t, o) && d in db.decks
    requires t1.decks == db.decks && t1.deckCards == db.deckCards && o1.decks == ord.decks
    requires t.decks.Keys == db.decks.Keys
    requires DeckList(t, o, d) == ps + DeckList(t1, o1, d)
    requires forall e :: e in db.decks && e != d ==> DeckList(t, o, e) == DeckList(t1, o1, e)
    ensures DeckList(t, o, d) == ps + DeckList(db, ord, d)
    ensures forall e :: e in db.decks && e != d ==> DeckList(t, o, e) == DeckList(db, ord, e)
  {
  }
}
