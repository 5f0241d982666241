/**
 * The transactions of the deck operations.  Each works on the tables as a
 * value and returns the tables it would commit; the store commits them
 * only when the transaction succeeds.  Row inserts, relinks and ledger
 * updates are `while` loops over the rows or codes, one write per step.
 */
module DeckOps {
  import opened Common
  import opened Chains
  import opened Cards
  import opened Tables
  import opened DeckMoves
  import opened DeckBuild
  import opened DeckShuffle
  import opened Shuffles

  // ---- InsertDeck ----

  /**
   * `randomBase62(n)` on the bytes of one read of the random source: each
   * byte becomes the character of the alphabet at its value modulo 62.
   */
  method RandomBase62(n: nat, read: Option<seq<Byte>>) returns (r: Result<string, StoreError>)
    ensures r.Ok? <==> Token(read, n).Some?
    ensures r.Ok? ==> r.value == Token(read, n).value
    ensures r.Err? ==> r.error == RandFailed
    ensures r.Ok? ==> |r.value| == n && forall i :: 0 <= i < n ==> r.value[i] in Base62
  {
    if read.None? || |read.value| < n {
      return Err(RandFailed);
    }
    var b := read.value[..n];
    var out := new char[n];
    var i := 0;
    while i < n
      invariant i <= n
      invariant forall k :: 0 <= k < i ==> out[k] == Base62[b[k] as int % 62]
    {
      out[i] := Base62[b[i] as int % 62];
      i := i + 1;
    }
    return Ok(out[..]);
  }

  /**
   * The token loop of `InsertDeck`: up to thirty tokens drawn, the first
   * that no deck has taken is kept.
   */
  method PickToken(taken: set<DeckId>, draws: seq<Option<seq<Byte>>>) returns (r: Result<DeckId, StoreError>)
    ensures r == TokenSearch(taken, draws, 0)
  {
    var tries := 0;
    while tries < MaxTries
      invariant 0 <= tries <= MaxTries
      invariant TokenSearch(taken, draws, tries) == TokenSearch(taken, draws, 0)
    {
      var id := RandomBase62(TokenLength, ReadAt(draws, tries));
      if id.Err? {
        return Err(RandFailed);
      }
      if id.value !in taken {
        return Ok(id.value);
      }
      tries := tries + 1;
    }
    return Err(NoUniqueId);
  }

  /**
   * `rows'` is `rows` with one unlinked row per card added under the ids
   * after `base`: the first loop of `InsertDeck` after `i` turns.
   */
  ghost predicate RowsAdded(rows: map<int, Row<DeckId>>, rows': map<int, Row<DeckId>>, token: DeckId, cards: seq<Code>,
                            base: int, i: nat)
    requires i <= |cards|
  {
    && (forall id :: id in rows' <==> id in rows || base < id <= base + i)
    && (forall id :: id in rows ==> rows'[id] == rows[id])
    && (forall id :: base < id <= base + i && id in rows' ==> rows'[id] == Row(token, cards[id - base - 1], None))
  }

  /** One more turn of the first row loop adds the next card's row. */
  lemma RowsAddedNext(rows: map<int, Row<DeckId>>, rows': map<int, Row<DeckId>>, next: map<int, Row<DeckId>>,
                      token: DeckId, cards: seq<Code>, base: int, i: nat)
    requires i < |cards| && RowsAdded(rows, rows', token, cards, base, i)
    requires forall id :: id in rows ==> id <= base
    requires next == rows'[base + i + 1 := Row(token, cards[i], None)]
    ensures RowsAdded(rows, next, token, cards, base, i + 1)
  {
  }

  /** One more turn of the first row loop hands out the next id. */
  lemma FreshNext(base: int, i: nat)
    ensures Fresh(base, i + 1) == Fresh(base, i) + [base + i + 1]
  {
    assert Fresh(base, i + 1)[i] == base + i + 1;
  }

  /** One more turn of the first row loop tallies the next card. */
  lemma TallyNext(cards: seq<Code>, i: nat)
    requires i < |cards|
    ensures Tally(cards[..i + 1]) == Bump(Tally(cards[..i]), cards[i])
  {
    assert cards[..i + 1][..i] == cards[..i];
  }

  /** The first row loop of `InsertDeck`: one row per card, unlinked, under the next ids, tallying the codes. */
  method InsertRows(rows: map<int, Row<DeckId>>, token: DeckId, cards: seq<Code>, base: int)
    returns (rows': map<int, Row<DeckId>>, ids: seq<int>, counts: map<Code, int>)
    requires forall id :: id in rows ==> id <= base
    ensures RowsAdded(rows, rows', token, cards, base, |cards|)
    ensures ids == Fresh(base, |cards|) && counts == Tally(cards)
  {
    rows', ids, counts := rows, [], map[];
    var i := 0;
    while i < |cards|
      invariant i <= |cards|
      invariant ids == Fresh(base, i)
      invariant counts == Tally(cards[..i])
      invariant RowsAdded(rows, rows', token, cards, base, i)
    {
      var id := base + i + 1;
      var next := rows'[id := Row(token, cards[i], None)];
      RowsAddedNext(rows, rows', next, token, cards, base, i);
      rows' := next;
      FreshNext(base, i);
      ids := ids + [id];
      TallyNext(cards, i);
      counts := Bump(counts, cards[i]);
      i := i + 1;
    }
    assert cards[..i] == cards;
  }

  /** The second row loop of `InsertDeck`: each new row linked to the one after it. */
  method LinkRows(rows: map<int, Row<DeckId>>, rows': map<int, Row<DeckId>>, token: DeckId, cards: seq<Code>, base: int,
                  ids: seq<int>)
    returns (linked: map<int, Row<DeckId>>)
    requires forall id :: id in rows ==> id <= base
    requires RowsAdded(rows, rows', token, cards, base, |cards|) && ids == Fresh(base, |cards|)
    ensures RowsBuilt(rows, linked, token, cards, base)
  {
    linked := rows';
    var i := 0;
    while i < |ids| - 1
      invariant 0 <= i <= if |ids| == 0 then 0 else |ids| - 1
      invariant forall id :: id in linked <==> id in rows || base < id <= base + |cards|
      invariant forall id :: id in rows ==> linked[id] == rows[id]
      invariant forall id :: base < id <= base + |cards| && id in linked ==>
        linked[id] == Row(token, cards[id - base - 1], if id < base + 1 + i then Some(id + 1) else None)
    {
      linked := linked[ids[i] := linked[ids[i]].(next := Some(ids[i + 1]))];
      i := i + 1;
    }
  }

  /** The ledger loop of `InsertDeck`: one ledger row per tallied code, in any order. */
  method EnterCounts(entries: map<(DeckId, Code), Entry>, token: DeckId, counts: map<Code, int>)
    returns (entries': map<(DeckId, Code), Entry>)
    requires forall k :: k in entries ==> k.0 != token
    ensures EntriesBuilt(entries, entries', token, counts)
  {
    entries' := entries;
    var left := counts.Keys;
    while left != {}
      invariant left <= counts.Keys
      invariant forall k :: k in entries' <==> k in entries || (k.0 == token && k.1 in counts && k.1 !in left)
      invariant forall k :: k in entries ==> entries'[k] == entries[k]
      invariant forall c :: c in counts && c !in left ==>
        (token, c) in entries' && entries'[(token, c)] == Entry(counts[c], counts[c], 0)
      decreases |left|
    {
      var c :| c in left;
      entries' := Upsert(entries', token, c, counts[c]);
      left := left - {c};
    }
  }

  /**
   * The transaction of `InsertDeck`: draw a token no deck has, then add the
   * deck, its rows in the order of the cards and its ledger rows.
   */
  method InsertDeckTx(db: Db, ghost ord: Orders, cards: seq<Code>, draws: seq<Option<seq<Byte>>>)
    returns (t: Db, ghost o: Orders, r: Result<DeckId, StoreError>)
    requires Inv(db, ord)
    ensures Inv(t, o)
    ensures r == TokenSearch(db.decks.Keys, draws, 0)
    ensures r.Err? ==> t == db
    ensures r.Ok? ==> Inserted(db, ord, t, o, r.value, cards)
  {
    t, o := db, ord;
    r := PickToken(db.decks.Keys, draws);
    if r.Ok? {
      t, o := BuildDeck(db, ord, r.value, cards);
      InsertedKeeps(db, ord, t, o, r.value, cards);
    }
  }

  /** What `InsertDeck` does once it has a fresh token: the deck, its rows, its ledger rows. */
  method BuildDeck(db: Db, ghost ord: Orders, token: DeckId, cards: seq<Code>) returns (t: Db, ghost o: Orders)
    requires forall id :: id in db.deckCards ==> id <= db.lastCard
    requires forall k :: k in db.entries ==> k.0 != token
    ensures Inserted(db, ord, t, o, token, cards)
  {
    var decks := db.decks[token := DeckRow(None, false)];
    var added, ids, counts := InsertRows(db.deckCards, token, cards, db.lastCard);
    var rows := LinkRows(db.deckCards, added, token, cards, db.lastCard, ids);
    if |ids| > 0 {
      decks := decks[token := decks[token].(top := Some(ids[0]))];
    }
    assert decks == db.decks[token := DeckRow(Head(ids), false)];
    var entries := EnterCounts(db.entries, token, counts);
    t := db.(decks := decks, deckCards := rows, entries := entries, lastCard := db.lastCard + |cards|);
    o := ord.(decks := ord.decks[token := ids]);
  }

  // ---- DrawCards ----

  /** How many cards a draw of `amount` takes from a deck holding `available`. */
  function Clamp(amount: int, available: nat): (k: nat)
    ensures k <= available
    ensures amount <= 0 ==> k == 0
    ensures 0 < amount <= available ==> k == amount
    ensures available < amount ==> k == available
  {
    if amount <= 0 then 0 else if amount < available then amount else available
  }

  /**
   * The transaction of `DrawCards`: count the deck's rows, clamp the amount,
   * then take the top card off as many times, for as long as there is one.
   */
  method DrawCardsTx(db: Db, ghost ord: Orders, d: DeckId, amount: int)
    returns (t: Db, ghost o: Orders, codes: seq<Code>, remaining: int)
    requires Inv(db, ord)
    ensures Inv(t, o)
    ensures var held := |OwnedIds(db.deckCards, d)|;
      var k := Clamp(amount, held);
      && codes == Drawn(db, d, k) && remaining == held - k
      && t == PopMany(db, d, k)
  {
    t, o := db, ord;
    remaining := |OwnedIds(db.deckCards, d)|;
    var n := amount;
    if remaining < n {
      n := remaining;
    }
    codes := [];
    if n == 0 {
      return;
    }
    if n < 0 {
      n := 0;
    }
    TopsWhileHeld(db, ord, d);
    DrawKeeps(db, ord, d, n);
    t, codes := DrawTops(db, d, n);
    o := PoppedMany(ord, d, n);
    remaining := remaining - n;
  }

  /**
   * The drawing loop of `DrawCards`: `n` times, the top card of deck `d` is
   * read and taken off, for as long as the deck has one.
   */
  method DrawTops(db: Db, d: DeckId, n: nat) returns (t: Db, codes: seq<Code>)
    requires forall i :: 0 <= i < n ==> HasTop(PopMany(db, d, i), d)
    ensures t == PopMany(db, d, n) && codes == Drawn(db, d, n)
  {
    t, codes := db, [];
    var i := 0;
    while i < n
      invariant i <= n && t == PopMany(db, d, i) && codes == Drawn(db, d, i)
    {
      if !HasTop(t, d) {
        break;
      }
      codes := codes + [TopCode(t, d)];
      t := PopTop(t, d);
      i := i + 1;
    }
  }

  // ---- ShuffleDeck ----

  /**
   * The transaction of `ShuffleDeck`: read the deck's rows, shuffle them
   * with `rand.Shuffle` on the draws `js`, relink them in that order with
   * the first on top, mark the deck shuffled and return the codes read in
   * the new order.  A deck without rows is left as it is.
   */
  method ShuffleDeckTx(db: Db, ghost ord: Orders, d: DeckId, js: seq<nat>)
    returns (t: Db, ghost o: Orders, r: Result<seq<Code>, StoreError>)
    requires Inv(db, ord)
    ensures Inv(t, o)
    ensures d !in db.decks ==> r == Err(DeckMissing) && t == db
    ensures d in db.decks ==> r == Ok(Codes(db.deckCards, ShuffleOrder(db.deckCards, d, js)))
    ensures d in db.decks ==> multiset(r.value) == multiset(DeckList(db, ord, d))
    ensures d in db.decks && r.value == [] ==> t == db
    ensures d in db.decks && r.value != [] ==> Reshuffled(db, ord, t, o, d, ShuffleOrder(db.deckCards, d, js))
  {
    t, o := db, ord;
    if d !in db.decks {
      return t, o, Err(DeckMissing);
    }
    ShuffleOrderIds(db, ord, d, js);
    var ids := Scan(db.deckCards, d);
    if |ids| == 0 {
      return t, o, Ok([]);
    }
    var order := ShuffleIds(ids, js);
    var rows := RelinkRows(db.deckCards, order);
    t := db.(decks := db.decks[d := DeckRow(Some(order[0]), true)], deckCards := rows);
    o := ord.(decks := ord.decks[d := order]);
    ReshuffledKeeps(db, ord, t, o, d, order);
    var codes := ReadCodes(db.deckCards, order);
    return t, o, Ok(codes);
  }

  /** `rand.Shuffle(len(cards), swap)`: positions from the last down to 1, each exchanged with one the next draw picks. */
  method ShuffleIds(ids: seq<int>, js: seq<nat>) returns (r: seq<int>)
    ensures r == DownShuffled(ids, js)
  {
    r := ids;
    if |ids| == 0 {
      return;
    }
    var i := |ids| - 1;
    while i > 0
      invariant 0 <= i <= |ids| - 1
      invariant r == DownSwaps(ids, js, |ids| - 1 - i)
    {
      var j := DownChoice(js, |ids| - 1 - i, i);
      r := Swap(r, i, j);
      i := i - 1;
    }
  }

  /**
   * `rows'` is `rows` with the first `i` rows of `order` pointing to the row
   * after them: the relinking loop of `ShuffleDeck` after `i` turns.
   */
  ghost predicate RelinkedUpTo<O>(rows: map<int, Row<O>>, rows': map<int, Row<O>>, order: seq<int>, i: nat)
    requires i < |order|
  {
    && rows'.Keys == rows.Keys
    && (forall id :: id in rows ==> rows'[id].owner == rows[id].owner && rows'[id].code == rows[id].code)
    && (forall id :: id in rows && id !in order ==> rows'[id] == rows[id])
    && (forall k :: 0 <= k < i ==> order[k] in rows' && rows'[order[k]].next == Some(order[k + 1]))
  }

  /** One more turn of the relinking loop links the next row. */
  lemma RelinkStep<O>(rows: map<int, Row<O>>, rows': map<int, Row<O>>, order: seq<int>, i: nat)
    requires Distinct(order) && Stored(rows, order) && i + 1 < |order| && RelinkedUpTo(rows, rows', order, i)
    ensures RelinkedUpTo(rows, rows'[order[i] := rows'[order[i]].(next := Some(order[i + 1]))], order, i + 1)
  {
    var x := order[i];
    var next := rows'[x := rows'[x].(next := Some(order[i + 1]))];
    assert x in order;
    forall k | 0 <= k < i ensures order[k] in next && next[order[k]].next == Some(order[k + 1]) {
      assert order[k] != x;
    }
  }

  /** Unlinking the last row after the loop leaves the rows linked in `order`. */
  lemma RelinkLast<O>(rows: map<int, Row<O>>, rows': map<int, Row<O>>, order: seq<int>)
    requires Distinct(order) && Stored(rows, order) && order != [] && RelinkedUpTo(rows, rows', order, |order| - 1)
    ensures Relinked(rows, rows'[order[|order| - 1] := rows'[order[|order| - 1]].(next := None)], order)
  {
    var last := order[|order| - 1];
    var next := rows'[last := rows'[last].(next := None)];
    assert last in order;
    forall k | 0 <= k < |order| ensures order[k] in next && next[order[k]].next == NextOf(order, k) {
      if k < |order| - 1 {
        assert order[k] != last;
      }
    }
  }

  /** The relinking loop of `ShuffleDeck`: each row points to the next in `order`, and the last to nothing. */
  method RelinkRows<O>(rows: map<int, Row<O>>, order: seq<int>) returns (rows': map<int, Row<O>>)
    requires Distinct(order) && Stored(rows, order) && order != []
    ensures Relinked(rows, rows', order)
  {
    rows' := rows;
    var i := 0;
    while i < |order| - 1
      invariant 0 <= i <= |order| - 1
      invariant RelinkedUpTo(rows, rows', order, i)
    {
      RelinkStep(rows, rows', order, i);
      rows' := rows'[order[i] := rows'[order[i]].(next := Some(order[i + 1]))];
      i := i + 1;
    }
    RelinkLast(rows, rows', order);
    var last := order[|order| - 1];
    rows' := rows'[last := rows'[last].(next := None)];
  }

  /** The codes of the listed rows, in list order: the loop that builds the returned deck. */
  method ReadCodes<O>(rows: map<int, Row<O>>, order: seq<int>) returns (codes: seq<string>)
    requires Stored(rows, order)
    ensures codes == Codes(rows, order)
  {
    codes := [];
    var i := 0;
    while i < |order|
      invariant i <= |order| && |codes| == i
      invariant forall k :: 0 <= k < i ==> codes[k] == rows[order[k]].code
    {
      codes := codes + [rows[order[i]].code];
      i := i + 1;
    }
  }
}
