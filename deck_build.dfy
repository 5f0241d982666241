/**
 * What `InsertDeck` builds: the deck token drawn from random bytes, the
 * per-code tally of the new cards, the new deck's rows and its ledger rows,
 * and why adding them keeps the store's invariant.
 */
module DeckBuild {
  import opened Common
  import opened Chains
  import opened Cards
  import opened Tables

  /** A byte of the random source. */
  newtype Byte = b: int | 0 <= b < 256

  /** The alphabet of deck tokens. */
  const Base62: string := "abcdefghijklmnopqrstuvwxyzABCDEFGHIJKLMNOPQRSTUVWXYZ0123456789"

  /** Each byte picks the character at its value modulo 62. */
  function Encode62(b: seq<Byte>): (s: string)
    ensures |s| == |b|
    ensures forall i :: 0 <= i < |b| ==> s[i] == Base62[b[i] as int % 62] && s[i] in Base62
  {
    if b == [] then [] else Encode62(b[..|b| - 1]) + [Base62[b[|b| - 1] as int % 62]]
  }

  /** The length of a deck token. */
  const TokenLength := 12

  /** The number of tokens drawn before `InsertDeck` gives up. */
  const MaxTries := 30

  /**
   * The bytes the random source gives on try `t`: `None` when it fails; a
   * try beyond what the caller supplied counts as a failed read.
   */
  function ReadAt(draws: seq<Option<seq<Byte>>>, t: nat): Option<seq<Byte>> {
    if t < |draws| then draws[t] else None
  }

  /** `randomBase62(n)` on the bytes of one read: `None` when the read fails or falls short. */
  function Token(read: Option<seq<Byte>>, n: nat): (r: Option<string>)
    ensures r.Some? <==> read.Some? && n <= |read.value|
    ensures r.Some? ==> |r.value| == n && forall i :: 0 <= i < n ==> r.value[i] in Base62
  {
    if read.None? || |read.value| < n then None else Some(Encode62(read.value[..n]))
  }

  /**
   * The token search from try `t` on: the first token no deck has, a failed
   * read as soon as one fails, or `NoUniqueId` after the last try.
   */
  function TokenSearch(taken: set<DeckId>, draws: seq<Option<seq<Byte>>>, t: nat): (r: Result<DeckId, StoreError>)
    ensures r.Ok? ==> r.value !in taken && |r.value| == TokenLength
    ensures r.Err? ==> r.error == RandFailed || r.error == NoUniqueId
    decreases MaxTries - t
  {
    if t >= MaxTries then Err(NoUniqueId)
    else match Token(ReadAt(draws, t), TokenLength)
      case None => Err(RandFailed)
      case Some(id) => if id !in taken then Ok(id) else TokenSearch(taken, draws, t + 1)
  }

  /**
   * The search fails for want of a fresh token only when every remaining
   * read succeeds and yields a token some deck already has.
   */
  lemma {:induction false} NoUniqueIdMeansTaken(taken: set<DeckId>, draws: seq<Option<seq<Byte>>>, t: nat)
    requires TokenSearch(taken, draws, t) == Err(NoUniqueId)
    ensures forall u :: t <= u < MaxTries ==>
      Token(ReadAt(draws, u), TokenLength).Some? && Token(ReadAt(draws, u), TokenLength).value in taken
    decreases MaxTries - t
  {
    if t < MaxTries {
      NoUniqueIdMeansTaken(taken, draws, t + 1);
    }
  }

  // ---- the tally of the new cards ----

  /** `cardCounts[cardCode]++`: a missing key counts from zero. */
  function Bump(counts: map<Code, int>, c: Code): map<Code, int> {
    counts[c := (if c in counts then counts[c] else 0) + 1]
  }

  /** The tally of `cards` after the insertion loop: each code with its multiplicity. */
  function Tally(cards: seq<Code>): (m: map<Code, int>)
    ensures forall c :: c in m <==> c in cards
    ensures forall c :: c in m ==> m[c] == multiset(cards)[c]
  {
    if cards == [] then map[]
    else
      var last := cards[|cards| - 1];
      assert cards == cards[..|cards| - 1] + [last];
      Bump(Tally(cards[..|cards| - 1]), last)
  }

  // ---- the new deck's rows ----

  /** The ids `base + 1 ..= base + n` that AUTOINCREMENT hands out next, in order. */
  function Fresh(base: int, n: nat): (ids: seq<int>)
    ensures |ids| == n && forall i :: 0 <= i < n ==> ids[i] == base + 1 + i
  {
    seq(n, i requires 0 <= i < n => base + 1 + i)
  }

  /** Ascending ids are never repeated. */
  lemma FreshDistinct(base: int, n: nat)
    ensures Distinct(Fresh(base, n))
  {
  }

  /**
   * `rows'` is `rows` with the rows of the new deck `token` added under the
   * ids after `base`, each holding its card and pointing to the next.
   */
  ghost predicate RowsBuilt(rows: map<int, Row<DeckId>>, rows': map<int, Row<DeckId>>, token: DeckId, cards: seq<Code>, base: int) {
    (forall id :: id in rows' <==> id in rows || base < id <= base + |cards|)
    && (forall id :: id in rows ==> id <= base && rows'[id] == rows[id])
    && (forall id :: base < id <= base + |cards| && id in rows' ==>
          rows'[id] == Row(token, cards[id - base - 1], if id < base + |cards| then Some(id + 1) else None))
  }

  /** The new rows form the new deck's list, which reads the cards in order. */
  lemma NewChain(rows: map<int, Row<DeckId>>, rows': map<int, Row<DeckId>>, token: DeckId, cards: seq<Code>, base: int)
    requires RowsBuilt(rows, rows', token, cards, base)
    requires forall id :: id in rows ==> rows[id].owner != token
    ensures IsChain(rows', token, Fresh(base, |cards|))
    ensures Codes(rows', Fresh(base, |cards|)) == cards
  {
    var ids := Fresh(base, |cards|);
    FreshDistinct(base, |cards|);
    forall k | 0 <= k < |ids| ensures ids[k] in rows' && rows'[ids[k]] == Row(token, cards[k], NextOf(ids, k)) {
      assert ids[k] == base + 1 + k;
    }
    forall id | id in rows' && rows'[id].owner == token ensures id in ids {
      assert ids[id - base - 1] == id;
    }
  }

  /** The rows of any other deck keep their list. */
  lemma OtherChain(rows: map<int, Row<DeckId>>, rows': map<int, Row<DeckId>>, token: DeckId, cards: seq<Code>, base: int,
                   d: DeckId, order: seq<int>)
    requires RowsBuilt(rows, rows', token, cards, base)
    requires IsChain(rows, d, order) && d != token
    ensures IsChain(rows', d, order) && Codes(rows', order) == Codes(rows, order)
  {
    forall id | id in rows' && rows'[id].owner == d ensures id in rows && rows[id].owner == d {
    }
    ChainFrame(rows, rows', d, order);
    CodesFrame(rows, rows', order);
  }

  /** Any other deck keeps its rows of each code. */
  lemma OtherRows(rows: map<int, Row<DeckId>>, rows': map<int, Row<DeckId>>, token: DeckId, cards: seq<Code>, base: int,
                  d: DeckId, c: Code)
    requires RowsBuilt(rows, rows', token, cards, base) && d != token
    ensures RowsWith(rows', d, c) == RowsWith(rows, d, c)
  {
    forall id | id in RowsWith(rows', d, c) ensures id in RowsWith(rows, d, c) {
    }
    forall id | id in RowsWith(rows, d, c) ensures id in RowsWith(rows', d, c) {
    }
  }

  // ---- the new deck's ledger rows ----

  /**
   * `INSERT INTO DeckEntry ... ON CONFLICT(deckId, code) DO UPDATE SET
   * total = excluded.total, inDeck = excluded.inDeck`; a new row has
   * nothing in piles.
   */
  function Upsert(entries: map<(DeckId, Code), Entry>, d: DeckId, c: Code, count: int): (r: map<(DeckId, Code), Entry>)
    ensures r.Keys == entries.Keys + {(d, c)}
    ensures r[(d, c)].total == r[(d, c)].inDeck == count
    ensures r[(d, c)].inPile == if (d, c) in entries then entries[(d, c)].inPile else 0
    ensures forall k :: k in entries && k != (d, c) ==> r[k] == entries[k]
  {
    if (d, c) in entries then entries[(d, c) := entries[(d, c)].(total := count, inDeck := count)]
    else entries[(d, c) := Entry(count, count, 0)]
  }

  /** `entries'` is `entries` with one ledger row per tallied code of the new deck `token`. */
  ghost predicate EntriesBuilt(entries: map<(DeckId, Code), Entry>, entries': map<(DeckId, Code), Entry>, token: DeckId,
                         counts: map<Code, int>) {
    (forall k :: k in entries' <==> k in entries || (k.0 == token && k.1 in counts))
    && (forall k :: k in entries ==> k.0 != token && entries'[k] == entries[k])
    && (forall c :: c in counts ==> (token, c) in entries' && entries'[(token, c)] == Entry(counts[c], counts[c], 0))
  }

  // ---- the whole insertion ----

  /**
   * The store after `InsertDeck` commits: deck `token` added with its top
   * at the first new row, not shuffled, its rows and its ledger rows built.
   */
  ghost predicate Inserted(db: Db, ord: Orders, t: Db, o: Orders, token: DeckId, cards: seq<Code>) {
    var ids := Fresh(db.lastCard, |cards|);
    && t.decks == db.decks[token := DeckRow(Head(ids), false)]
    && RowsBuilt(db.deckCards, t.deckCards, token, cards, db.lastCard)
    && EntriesBuilt(db.entries, t.entries, token, Tally(cards))
    && t.piles == db.piles && t.pileCards == db.pileCards
    && t.lastCard == db.lastCard + |cards| && t.lastPile == db.lastPile && t.lastPileCard == db.lastPileCard
    && o == ord.(decks := ord.decks[token := ids])
  }

  /** Adding the new deck keeps every deck a list; the new one reads the cards, the others as before. */
  lemma InsertedShape(db: Db, ord: Orders, t: Db, o: Orders, token: DeckId, cards: seq<Code>)
    requires DeckKeys(db) && DeckShape(db, ord) && token !in db.decks && Inserted(db, ord, t, o, token, cards)
    ensures DeckShape(t, o) && token in t.decks && DeckList(t, o, token) == cards
    ensures forall d :: d in db.decks ==> d in t.decks && DeckList(t, o, d) == DeckList(db, ord, d)
  {
    var ids := Fresh(db.lastCard, |cards|);
    assert o.decks == ord.decks[token := ids];
    assert t.decks == db.decks[token := DeckRow(Head(ids), false)];
    NewDeckChain(db, t, o, token, cards);
    forall d | d in db.decks
      ensures DeckChain(t, o, d) && Codes(t.deckCards, o.decks[d]) == Codes(db.deckCards, ord.decks[d])
    {
      OldDeckChain(db, ord, t, o, token, cards, d);
    }
  }

  /** The new deck's rows form its list, headed by its `topCardId`. */
  lemma NewDeckChain(db: Db, t: Db, o: Orders, token: DeckId, cards: seq<Code>)
    requires DeckKeys(db) && token !in db.decks && RowsBuilt(db.deckCards, t.deckCards, token, cards, db.lastCard)
    requires token in t.decks && token in o.decks && o.decks[token] == Fresh(db.lastCard, |cards|)
    requires t.decks[token].top == Head(o.decks[token])
    ensures DeckChain(t, o, token) && Codes(t.deckCards, o.decks[token]) == cards
  {
    assert forall id :: id in db.deckCards ==> db.deckCards[id].owner != token;
    NewChain(db.deckCards, t.deckCards, token, cards, db.lastCard);
  }

  /** A deck already there keeps its list and its top. */
  lemma OldDeckChain(db: Db, ord: Orders, t: Db, o: Orders, token: DeckId, cards: seq<Code>, d: DeckId)
    requires d in db.decks && d in ord.decks && DeckChain(db, ord, d) && d != token
    requires RowsBuilt(db.deckCards, t.deckCards, token, cards, db.lastCard)
    requires d in t.decks && d in o.decks && t.decks[d] == db.decks[d] && o.decks[d] == ord.decks[d]
    ensures DeckChain(t, o, d) && Codes(t.deckCards, o.decks[d]) == Codes(db.deckCards, ord.decks[d])
  {
    OtherChain(db.deckCards, t.deckCards, token, cards, db.lastCard, d, ord.decks[d]);
  }

  /** The new deck's ledger rows count its rows of each code; the other decks' counts stay right. */
  lemma InsertedCounts(db: Db, t: Db, token: DeckId, cards: seq<Code>)
    requires DeckKeys(db) && DeckCounts(db) && token !in db.decks
    requires RowsBuilt(db.deckCards, t.deckCards, token, cards, db.lastCard)
    requires EntriesBuilt(db.entries, t.entries, token, Tally(cards))
    ensures DeckCounts(t)
  {
    var ids := Fresh(db.lastCard, |cards|);
    NewChain(db.deckCards, t.deckCards, token, cards, db.lastCard);
    forall k | k in t.entries ensures t.entries[k].inDeck == |RowsWith(t.deckCards, k.0, k.1)| {
      if k.0 == token {
        ChainRows(t.deckCards, token, ids, k.1);
      } else {
        OtherRows(db.deckCards, t.deckCards, token, cards, db.lastCard, k.0, k.1);
      }
    }
  }

  /** Every new row has its ledger row, every row names a deck, and the new ledger rows are within bounds. */
  lemma InsertedEntered(db: Db, t: Db, token: DeckId, cards: seq<Code>)
    requires DeckKeys(db) && DeckEntered(db) && Bounded(db) && token !in db.decks
    requires RowsBuilt(db.deckCards, t.deckCards, token, cards, db.lastCard)
    requires EntriesBuilt(db.entries, t.entries, token, Tally(cards))
    requires token in t.decks && t.decks == db.decks[token := t.decks[token]] && t.lastCard == db.lastCard + |cards|
    ensures DeckKeys(t) && DeckEntered(t) && Bounded(t)
  {
    forall id | id in t.deckCards && id !in db.deckCards ensures (token, t.deckCards[id].code) in t.entries {
      assert cards[id - db.lastCard - 1] in Tally(cards);
    }
  }

  /**
   * `InsertDeck` keeps the invariant: the new deck reads the cards in
   * order, each code's ledger row counts its multiplicity, and every other
   * deck reads as before.
   */
  lemma InsertedKeeps(db: Db, ord: Orders, t: Db, o: Orders, token: DeckId, cards: seq<Code>)
    requires Inv(db, ord) && token !in db.decks && Inserted(db, ord, t, o, token, cards)
    ensures Inv(t, o)
    ensures token in t.decks && DeckList(t, o, token) == cards
    ensures forall c :: (token, c) in t.entries <==> c in cards
    ensures forall c :: c in cards ==> t.entries[(token, c)] == Entry(multiset(cards)[c], multiset(cards)[c], 0)
    ensures forall d :: d in db.decks ==> d in t.decks && DeckList(t, o, d) == DeckList(db, ord, d)
  {
    InsertedShape(db, ord, t, o, token, cards);
    InsertedCounts(db, t, token, cards);
    InsertedEntered(db, t, token, cards);
    KeepPileSide(db, ord, t, o);
  }
}
