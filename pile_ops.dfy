/**
 * The pile operations of the engine: `InsertIntoPile`, `GetPileCards`,
 * `CardsInDeck`, `CardsInPile`, `ListPiles`, `ShuffleAllPiles`,
 * `DrawFromPile` and `DrawSpecificFromPile`, each a transaction on a copy
 * of the tables that the store commits when it succeeds.
 */
module PileOps {
  import opened Common
  import opened Chains
  import opened Cards
  import opened Tables
  import opened Stacks
  import opened DeckMoves
  import opened DeckShuffle
  import opened DeckOps
  import opened PileMoves
  import opened PileShuffle

  // ---- InsertIntoPile ----

  /** The ledger loop of `InsertIntoPile`: each code in turn is checked and counted in piles, up to the first failure. */
  method ReserveAll(entries: map<(DeckId, Code), Entry>, d: DeckId, codes: seq<Code>)
    returns (r: Result<map<(DeckId, Code), Entry>, StoreError>)
    ensures r == Reserve(entries, d, codes)
  {
    var e := entries;
    for i := 0 to |codes|
      invariant Reserve(entries, d, codes[..i]) == Ok(e)
    {
      var c := codes[i];
      assert codes[..i + 1][..i] == codes[..i];
      if (d, c) !in e {
        ReserveStops(entries, d, codes, i + 1);
        return Err(CardNotFound);
      }
      if e[(d, c)].total < e[(d, c)].inDeck + e[(d, c)].inPile + 1 {
        ReserveStops(entries, d, codes, i + 1);
        return Err(NotAvailable);
      }
      e := Adjust(e, d, c, 0, 1);
    }
    assert codes[..|codes|] == codes;
    r := Ok(e);
  }

  /**
   * The insert loop of `InsertIntoPile` on pile `p`: the top is the row no
   * row points to, and each code is inserted on top of the previous one.
   */
  method PlaceCards(db: Db, ghost ord: Orders, p: int, codes: seq<Code>, entries: map<(DeckId, Code), Entry>)
    returns (t: Db, ghost o: Orders)
    requires PileKeys(db) && PileShape(db, ord) && p in db.piles
    ensures Placed(db, ord, t, o, p, codes, entries)
  {
    TopIsHead(db, ord, p);
    var top := First(Unreferenced(db.pileCards, p));
    var rows := PushRows(db.pileCards, p, codes, db.lastPileCard, top);
    t := db.(pileCards := rows, entries := entries, lastPileCard := db.lastPileCard + |codes|);
    o := ord.(piles := ord.piles[p := Stack(db.lastPileCard, |codes|) + ord.piles[p]]);
  }

  /**
   * What a successful `InsertIntoPile` leaves: pile `p` is deck `d`'s pile
   * `name`, the one found or a new one; it reads the codes, last placed
   * first, then what it read before; every other pile, the decks and their
   * rows are as before, and the ledger counts the codes in piles.
   */
  ghost predicate Filled(db: Db, ord: Orders, t: Db, o: Orders, d: DeckId, name: string, codes: seq<Code>, p: int) {
    && UniqueNames(db) && PileShape(db, ord) && PileShape(t, o)
    && p in t.piles && t.piles[p] == PileRow(d, name)
    && (FindPile(db, d, name) == Some(p) || (FindPile(db, d, name).None? && p == db.lastPile + 1 && p !in db.piles))
    && PileList(t, o, p) == Reverse(codes) + (if p in db.piles then PileList(db, ord, p) else [])
    && (forall q :: q in db.piles && q != p ==> q in t.piles && PileList(t, o, q) == PileList(db, ord, q))
    && t.decks == db.decks && t.deckCards == db.deckCards
    && Raised(db.entries, t.entries, d, codes)
  }

  /** Placing the codes on the pile found keeps the invariant and fills that pile. */
  lemma FilledFound(db: Db, ord: Orders, t: Db, o: Orders, d: DeckId, name: string, codes: seq<Code>, p: int)
    requires Inv(db, ord) && Reserve(db.entries, d, codes).Ok? && FindPile(db, d, name) == Some(p)
    requires Placed(db, ord, t, o, p, codes, Reserve(db.entries, d, codes).value)
    ensures Inv(t, o) && Filled(db, ord, t, o, d, name, codes, p)
  {
    ReserveSpec(db.entries, d, codes);
    PlacedKeeps(db, ord, t, o, p, codes);
  }

  /** Placing the codes on a new pile keeps the invariant and fills the new pile. */
  lemma FilledNew(db: Db, ord: Orders, t: Db, o: Orders, d: DeckId, name: string, codes: seq<Code>)
    requires Inv(db, ord) && Reserve(db.entries, d, codes).Ok? && FindPile(db, d, name).None? && d in db.decks
    requires Placed(NewPile(db, d, name), ord.(piles := ord.piles[db.lastPile + 1 := []]), t, o, db.lastPile + 1, codes,
                    Reserve(db.entries, d, codes).value)
    ensures Inv(t, o) && Filled(db, ord, t, o, d, name, codes, db.lastPile + 1)
  {
    var base, bo, p := NewPile(db, d, name), ord.(piles := ord.piles[db.lastPile + 1 := []]), db.lastPile + 1;
    NewPileKeeps(db, ord, d, name);
    ReserveSpec(db.entries, d, codes);
    PlacedKeeps(base, bo, t, o, p, codes);
    assert p !in db.piles;
    assert Raised(base.entries, t.entries, d, codes);
  }

  /**
   * What `InsertIntoPile` does: a code without a drawn copy left to place
   * fails with the reservation's error, a new pile for an unknown deck fails,
   * nothing changes on failure, and otherwise the codes are placed on the
   * pile as `Filled` says.
   */
  ghost predicate InsertIntoPileOutcome(db: Db, ord: Orders, t: Db, o: Orders, d: DeckId, name: string,
                                        codes: seq<Code>, r: Result<int, StoreError>)
    requires Inv(db, ord)
  {
    && (Reserve(db.entries, d, codes).Err? ==> r == Err(Reserve(db.entries, d, codes).error))
    && (Reserve(db.entries, d, codes).Ok? && FindPile(db, d, name).None? && d !in db.decks ==> r == Err(PileInsertFailed))
    && (Reserve(db.entries, d, codes).Ok? && (FindPile(db, d, name).Some? || d in db.decks) ==> r.Ok?)
    && (r.Err? ==> t == db)
    && (r.Ok? ==> Filled(db, ord, t, o, d, name, codes, r.value))
  }

  /**
   * The transaction of `InsertIntoPile`: reserve every code in the ledger,
   * find deck `d`'s pile `name` or create it, then place the codes on its
   * top.  A reservation failure, or a new pile for a deck that does not
   * exist, rolls everything back.
   */
  method InsertIntoPileTx(db: Db, ghost ord: Orders, d: DeckId, name: string, codes: seq<Code>)
    returns (t: Db, ghost o: Orders, r: Result<int, StoreError>)
    requires Inv(db, ord)
    ensures Inv(t, o)
    ensures InsertIntoPileOutcome(db, ord, t, o, d, name, codes, r)
  {
    t, o := db, ord;
    var reserved := ReserveAll(db.entries, d, codes);
    if reserved.Err? {
      return t, o, Err(reserved.error);
    }
    ReserveSpec(db.entries, d, codes);
    var found := FindPile(db, d, name);
    var base, p := db, 0;
    ghost var bo := ord;
    if found.Some? {
      p := found.value;
      t, o := PlaceCards(base, bo, p, codes, reserved.value);
      FilledFound(db, ord, t, o, d, name, codes, p);
    } else if d !in db.decks {
      return t, o, Err(PileInsertFailed);
    } else {
      NewPileKeeps(db, ord, d, name);
      base := NewPile(db, d, name);
      bo := ord.(piles := ord.piles[db.lastPile + 1 := []]);
      p := db.lastPile + 1;
      t, o := PlaceCards(base, bo, p, codes, reserved.value);
      FilledNew(db, ord, t, o, d, name, codes);
    }
    r := Ok(p);
  }

  // ---- GetPileCards ----

  /** `SELECT id, code, nextCardId FROM PileCard WHERE pileId = ?`, gathered by id. */
  function PileTable(rows: map<int, Row<int>>, p: int): (cards: map<int, Row<int>>)
    ensures forall id :: id in cards <==> id in rows && rows[id].owner == p
    ensures forall id :: id in cards ==> cards[id] == rows[id]
  {
    map id | id in rows && rows[id].owner == p :: rows[id]
  }

  /**
   * Following `next` through the pile's rows from `cur`, the rows in `seen`
   * already met: meeting a row again is a cycle, reaching a row the pile
   * does not hold a broken list; otherwise the codes met, down to the row
   * pointing to nothing.
   */
  function Follow(cards: map<int, Row<int>>, cur: int, seen: set<int>): Result<seq<Code>, StoreError>
    decreases |cards.Keys - seen|
  {
    if cur in seen then Err(Cycle)
    else if cur !in cards then Err(BrokenList)
    else if cards[cur].next.None? then Ok([cards[cur].code])
    else
      FewerLeft(cards.Keys, seen, cur);
      Then([cards[cur].code], Follow(cards, cards[cur].next.value, seen + {cur}))
  }

  /** Meeting one more row of the pile leaves fewer rows to meet. */
  lemma FewerLeft(keys: set<int>, seen: set<int>, cur: int)
    requires cur in keys && cur !in seen
    ensures |keys - (seen + {cur})| < |keys - seen|
  {
    assert keys - seen == (keys - (seen + {cur})) + {cur};
  }

  /** The codes read so far, followed by what the rest of the walk reads, or its failure. */
  function Then(codes: seq<Code>, rest: Result<seq<Code>, StoreError>): Result<seq<Code>, StoreError> {
    match rest
    case Err(e) => Err(e)
    case Ok(more) => Ok(codes + more)
  }

  /** Nothing read before changes nothing. */
  lemma ThenNothing(rest: Result<seq<Code>, StoreError>)
    ensures Then([], rest) == rest
  {
    if rest.Ok? {
      assert [] + rest.value == rest.value;
    }
  }

  /** Reading `a`, then `b`, then the rest is reading `a + b`, then the rest. */
  lemma ThenThen(a: seq<Code>, b: seq<Code>, rest: Result<seq<Code>, StoreError>)
    ensures Then(a, Then(b, rest)) == Then(a + b, rest)
  {
    if rest.Ok? {
      assert a + (b + rest.value) == (a + b) + rest.value;
    }
  }

  /** The walk of `GetPileCards` from the top it found. */
  method FollowPile(cards: map<int, Row<int>>, top: int) returns (r: Result<seq<Code>, StoreError>)
    ensures r == Follow(cards, top, {})
  {
    var codes: seq<Code> := [];
    var cur := top;
    var visited: set<int> := {};
    ThenNothing(Follow(cards, top, {}));
    while true
      invariant Then(codes, Follow(cards, cur, visited)) == Follow(cards, top, {})
      decreases |cards.Keys - visited|
    {
      if cur in visited {
        return Err(Cycle);
      }
      if cur !in cards {
        return Err(BrokenList);
      }
      var seen := visited + {cur};
      FewerLeft(cards.Keys, visited, cur);
      var code := cards[cur].code;
      if cards[cur].next.None? {
        return Ok(codes + [code]);
      }
      ThenThen(codes, [code], Follow(cards, cards[cur].next.value, seen));
      codes, cur, visited := codes + [code], cards[cur].next.value, seen;
    }
  }

  /**
   * Walking a well-linked list without repeats from its `k`-th row, none
   * of the rows after it met before, reads the rest of the list.
   */
  lemma {:induction false} FollowList(cards: map<int, Row<int>>, order: seq<int>, k: nat, seen: set<int>)
    requires Linked(cards, order) && Distinct(order) && k < |order|
    requires forall i :: k <= i < |order| ==> order[i] !in seen
    ensures Follow(cards, order[k], seen) == Ok(Codes(cards, order[k..]))
    decreases |order| - k
  {
    DropOneMore(order, k);
    var rest := order[k..];
    assert rest[0] == order[k] && Codes(cards, rest) == [cards[order[k]].code] + Codes(cards, rest[1..]);
    var code := cards[order[k]].code;
    if k + 1 < |order| {
      FollowList(cards, order, k + 1, seen + {order[k]});
      assert cards[order[k]].next == Some(order[k + 1]);
      assert Follow(cards, order[k], seen) == Then([code], Follow(cards, order[k + 1], seen + {order[k]}));
    } else {
      assert cards[order[k]].next == None && rest[1..] == [];
      assert Codes(cards, rest) == [code];
      assert Follow(cards, order[k], seen) == Ok([code]);
    }
  }

  /**
   * The reads of `GetPileCards` on deck `d`'s pile `name`: no such pile
   * fails; a pile without rows reads nothing; otherwise the walk starts
   * from some row of the pile no row of the pile points to (`top`), and
   * fails when there is none.
   */
  method ReadPile(db: Db, d: DeckId, name: string) returns (r: Result<seq<Code>, StoreError>, ghost top: Option<int>)
    requires UniqueNames(db)
    ensures FindPile(db, d, name).None? ==> r == Err(PileMissing)
    ensures FindPile(db, d, name).Some? && PileTable(db.pileCards, FindPile(db, d, name).value) == map[] ==> r == Ok([])
    ensures FindPile(db, d, name).Some? && PileTable(db.pileCards, FindPile(db, d, name).value) != map[] ==>
      var cards := PileTable(db.pileCards, FindPile(db, d, name).value);
      var tops := Unreferenced(cards, FindPile(db, d, name).value);
      && (tops == {} ==> r == Err(NoTopCard))
      && (tops != {} ==> top.Some? && top.value in tops && r == Follow(cards, top.value, {}))
  {
    top := None;
    var found := FindPile(db, d, name);
    if found.None? {
      return Err(PileMissing), top;
    }
    var p := found.value;
    var cards := PileTable(db.pileCards, p);
    if cards == map[] {
      return Ok([]), top;
    }
    var tops := Unreferenced(cards, p);
    if tops == {} {
      return Err(NoTopCard), top;
    }
    SomeElement(tops);
    var t :| t in tops;
    top := Some(t);
    r := FollowPile(cards, t);
  }

  /** Under the invariant, the pile's rows are the ones its list holds, and the only one no row of the pile points to is its head. */
  lemma PileTableTop(db: Db, ord: Orders, p: int)
    requires PileKeys(db) && PileShape(db, ord) && p in db.piles
    ensures PileTable(db.pileCards, p) == map[] <==> ord.piles[p] == []
    ensures Unreferenced(PileTable(db.pileCards, p), p) == if ord.piles[p] == [] then {} else {ord.piles[p][0]}
  {
    var order, cards := ord.piles[p], PileTable(db.pileCards, p);
    if cards != map[] {
      SomeElement(cards.Keys);
      var x :| x in cards;
      assert x in order;
    }
    if order != [] {
      assert order[0] in cards;
      forall x | x in cards && cards[x].next.Some? ensures cards[x].next.value != order[0] {
        if cards[x].next.value == order[0] {
          PointsTo(db, ord, p, 0, x);
        }
      }
    }
    forall j | 0 < j < |order| ensures order[j] in Referenced(cards) {
      assert cards[order[j - 1]].next == Some(order[j]);
    }
    forall id | id in Unreferenced(cards, p) ensures order != [] && id == order[0] {
      assert id in order;
      var j :| 0 <= j < |order| && order[j] == id;
    }
  }

  /** Under the invariant, the walk from the head of a pile reads its list. */
  lemma PileTableWalk(db: Db, ord: Orders, p: int)
    requires PileShape(db, ord) && p in db.piles && ord.piles[p] != []
    ensures Follow(PileTable(db.pileCards, p), ord.piles[p][0], {}) == Ok(PileList(db, ord, p))
  {
    var order, cards := ord.piles[p], PileTable(db.pileCards, p);
    assert Linked(cards, order);
    FollowList(cards, order, 0, {});
    assert order[0..] == order;
    CodesFrame(db.pileCards, cards, order);
  }

  /**
   * `GetPileCards` under the invariant: deck `d`'s pile `name` read from
   * top to bottom, or `PileMissing` when the deck has no such pile.
   */
  method GetPileCards(db: Db, ghost ord: Orders, d: DeckId, name: string) returns (r: Result<seq<Code>, StoreError>)
    requires Inv(db, ord)
    ensures FindPile(db, d, name).None? ==> r == Err(PileMissing)
    ensures FindPile(db, d, name).Some? ==> r == Ok(PileList(db, ord, FindPile(db, d, name).value))
  {
    var found := FindPile(db, d, name);
    if found.Some? {
      PileTableTop(db, ord, found.value);
      if ord.piles[found.value] != [] {
        PileTableWalk(db, ord, found.value);
      }
    }
    ghost var top;
    r, top := ReadPile(db, d, name);
  }

  // ---- counting ----

  /** `CardsInDeck`: the rows of deck `d`, joined with the deck itself. */
  function CardsInDeck(db: Db, d: DeckId): nat {
    if d in db.decks then |OwnedIds(db.deckCards, d)| else 0
  }

  /** Under the invariant a deck counts as many cards as its list holds, an unknown deck none. */
  lemma CardsInDeckIsLength(db: Db, ord: Orders, d: DeckId)
    requires DeckKeys(db) && DeckShape(db, ord)
    ensures CardsInDeck(db, d) == if d in db.decks then |DeckList(db, ord, d)| else 0
  {
    DeckRowCount(db, ord, d);
  }

  /** The rows of deck `d`'s pile `name`, joined with the pile. */
  function PileMembers(db: Db, d: DeckId, name: string): set<int> {
    set id | id in db.pileCards && db.pileCards[id].owner in db.piles && db.piles[db.pileCards[id].owner] == PileRow(d, name)
  }

  /** `CardsInPile`: how many rows deck `d`'s pile `name` has. */
  function CardsInPile(db: Db, d: DeckId, name: string): nat {
    |PileMembers(db, d, name)|
  }

  /** Under the invariant a pile counts as many cards as its list holds, a missing pile none. */
  lemma CardsInPileIsLength(db: Db, ord: Orders, d: DeckId, name: string)
    requires PileKeys(db) && UniqueNames(db) && PileShape(db, ord)
    ensures CardsInPile(db, d, name) == match FindPile(db, d, name)
      case None => 0
      case Some(p) => |PileList(db, ord, p)|
  {
    var found := FindPile(db, d, name);
    if found.None? {
      forall id | id in db.pileCards && db.pileCards[id].owner in db.piles
        ensures db.piles[db.pileCards[id].owner] != PileRow(d, name)
      {
        var q := db.pileCards[id].owner;
        assert !(q in db.piles && db.piles[q] == PileRow(d, name));
      }
      assert PileMembers(db, d, name) == {};
    } else {
      var p := found.value;
      PileMembersOwned(db, d, name, p);
      ChainSize(db.pileCards, p, ord.piles[p]);
    }
  }

  /** With names unique within a deck, the members of pile `name` are the rows pile `p` of that name owns. */
  lemma PileMembersOwned(db: Db, d: DeckId, name: string, p: int)
    requires UniqueNames(db) && p in db.piles && db.piles[p] == PileRow(d, name)
    ensures PileMembers(db, d, name) == OwnedIds(db.pileCards, p)
  {
    forall id | id in PileMembers(db, d, name) ensures id in OwnedIds(db.pileCards, p) {
      var q := db.pileCards[id].owner;
      assert q in db.piles && db.piles[q] == db.piles[p];
    }
  }

  /** The names of deck `d`'s piles. */
  function PileNames(db: Db, d: DeckId): set<string> {
    set p | p in db.piles && db.piles[p].deck == d :: db.piles[p].name
  }

  /** A name is one of the deck's pile names exactly when the deck has a pile by that name. */
  lemma PileNamesFound(db: Db, d: DeckId, name: string)
    requires UniqueNames(db)
    ensures name in PileNames(db, d) <==> FindPile(db, d, name).Some?
  {
    if name in PileNames(db, d) {
      var p :| p in db.piles && db.piles[p].deck == d && db.piles[p].name == name;
      assert db.piles[p] == PileRow(d, name);
    }
  }

  /**
   * `ListPiles`: each of deck `d`'s piles by name, with how many cards it
   * holds, the empty ones included; nothing for a deck without piles.
   */
  method ListPiles(db: Db, d: DeckId) returns (m: map<string, nat>)
    ensures m.Keys == PileNames(db, d)
    ensures forall name :: name in m ==> m[name] == CardsInPile(db, d, name)
  {
    m := map[];
    var left := PileNames(db, d);
    while left != {}
      invariant left <= PileNames(db, d) && m.Keys == PileNames(db, d) - left
      invariant forall name :: name in m ==> m[name] == CardsInPile(db, d, name)
      decreases |left|
    {
      var name :| name in left;
      m := m[name := CardsInPile(db, d, name)];
      left := left - {name};
    }
  }

  // ---- ShuffleAllPiles ----

  /**
   * One pile of `ShuffleAllPiles`: its ids by ascending id, shuffled, its
   * links cleared and rebuilt along the shuffled order; `n` is how many
   * rows it has.
   */
  method ShuffleOnePile(db: Db, p: int, js: seq<nat>) returns (t: Db, n: nat)
    ensures t == ShufflePile(db, p, js) && n == |OwnedIds(db.pileCards, p)|
  {
    var ids := Scan(db.pileCards, p);
    if |ids| == 0 {
      return db, 0;
    }
    var order := ShuffleIds(ids, js);
    assert order == ShuffleOrder(db.pileCards, p, js);
    var cleared := Clear(db.pileCards, p);
    var rows := RelinkRows(cleared, order);
    RelinkedIsRelink(cleared, rows, order);
    return db.(pileCards := rows), |ids|;
  }

  /**
   * The loop of `ShuffleAllPiles`: every pile of deck `d`, by ascending id,
   * shuffled with its own draws; the result maps each pile's name to how
   * many cards it holds, as `ListPiles` would.  A deck without piles gives
   * an empty map.
   */
  method ShuffleAllPiles(db: Db, d: DeckId, jss: seq<seq<nat>>) returns (t: Db, results: map<string, nat>)
    requires UniqueNames(db)
    ensures t == ShuffledPiles(db, PilesOf(db, d), jss, |PilesOf(db, d)|)
    ensures results.Keys == PileNames(db, d)
    ensures forall name :: name in results ==> results[name] == CardsInPile(db, d, name)
  {
    var ps := PilesOf(db, d);
    t, results := db, map[];
    for i := 0 to |ps|
      invariant t == ShuffledPiles(db, ps, jss, i)
      invariant results == CountsUpTo(db, ps, i)
    {
      var p := ps[i];
      SameOwned(db.pileCards, t.pileCards, p);
      var n;
      t, n := ShuffleOnePile(t, p, DrawsFor(jss, i));
      results := results[db.piles[p].name := n];
    }
    CountsOfPiles(db, d);
  }

  /** The names of the first `i` piles of `ps`, each with how many rows it owns. */
  function CountsUpTo(db: Db, ps: seq<int>, i: nat): map<string, nat>
    requires i <= |ps| && forall j :: 0 <= j < |ps| ==> ps[j] in db.piles
  {
    if i == 0 then map[]
    else CountsUpTo(db, ps, i - 1)[db.piles[ps[i - 1]].name := |OwnedIds(db.pileCards, ps[i - 1])|]
  }

  /** Counting the first `i` piles of `ps` counts their names. */
  lemma {:induction false} CountsUpToKeys(db: Db, ps: seq<int>, i: nat)
    requires i <= |ps| && forall j :: 0 <= j < |ps| ==> ps[j] in db.piles
    ensures CountsUpTo(db, ps, i).Keys == NamesUpTo(db, ps, i)
  {
    if i > 0 {
      CountsUpToKeys(db, ps, i - 1);
    }
  }

  /** Counting the first `i` of deck `d`'s piles counts each name as `CardsInPile` does. */
  lemma {:induction false} CountsUpToValues(db: Db, d: DeckId, i: nat)
    requires UniqueNames(db) && i <= |PilesOf(db, d)|
    ensures forall name :: name in CountsUpTo(db, PilesOf(db, d), i) ==>
      CountsUpTo(db, PilesOf(db, d), i)[name] == CardsInPile(db, d, name)
  {
    if i > 0 {
      var ps := PilesOf(db, d);
      var p := ps[i - 1];
      var before := CountsUpTo(db, ps, i - 1);
      var now := CountsUpTo(db, ps, i);
      assert now == before[db.piles[p].name := |OwnedIds(db.pileCards, p)|];
      CountsUpToValues(db, d, i - 1);
      PileMembersOwned(db, d, db.piles[p].name, p);
      forall name | name in now ensures now[name] == CardsInPile(db, d, name) {
        if name != db.piles[p].name {
          assert now[name] == before[name];
        }
      }
    }
  }

  /** Counting all of deck `d`'s piles gives `ListPiles`'s map. */
  lemma CountsOfPiles(db: Db, d: DeckId)
    requires UniqueNames(db)
    ensures CountsUpTo(db, PilesOf(db, d), |PilesOf(db, d)|).Keys == PileNames(db, d)
    ensures forall name :: name in CountsUpTo(db, PilesOf(db, d), |PilesOf(db, d)|) ==>
      CountsUpTo(db, PilesOf(db, d), |PilesOf(db, d)|)[name] == CardsInPile(db, d, name)
  {
    CountsUpToKeys(db, PilesOf(db, d), |PilesOf(db, d)|);
    CountsUpToValues(db, d, |PilesOf(db, d)|);
    NamesUpToPiles(db, d);
  }

  /** The names of the first `i` piles of `ps`. */
  function NamesUpTo(db: Db, ps: seq<int>, i: nat): set<string>
    requires i <= |ps|
  {
    if i == 0 then {} else NamesUpTo(db, ps, i - 1) + if ps[i - 1] in db.piles then {db.piles[ps[i - 1]].name} else {}
  }

  /** A name is among those of the first `i` piles exactly when one of them is a pile by that name. */
  lemma {:induction false} NamesUpToMembers(db: Db, ps: seq<int>, i: nat, name: string)
    requires i <= |ps|
    ensures name in NamesUpTo(db, ps, i) <==> exists j :: 0 <= j < i && ps[j] in db.piles && db.piles[ps[j]].name == name
  {
    if i > 0 {
      NamesUpToMembers(db, ps, i - 1, name);
    }
  }

  /** The names of all of deck `d`'s piles are its pile names. */
  lemma NamesUpToPiles(db: Db, d: DeckId)
    ensures NamesUpTo(db, PilesOf(db, d), |PilesOf(db, d)|) == PileNames(db, d)
  {
    var ps := PilesOf(db, d);
    forall name ensures name in NamesUpTo(db, ps, |ps|) <==> name in PileNames(db, d) {
      NamesUpToMembers(db, ps, |ps|, name);
      if name in PileNames(db, d) {
        var p :| p in db.piles && db.piles[p].deck == d && db.piles[p].name == name;
        var j :| 0 <= j < |ps| && ps[j] == p;
      }
    }
  }

  /** Shuffling every pile of deck `d` keeps the invariant; each pile is relinked as `ShuffledSoFar` says. */
  lemma ShuffleAllKeeps(db: Db, ord: Orders, d: DeckId, jss: seq<seq<nat>>)
    requires Inv(db, ord)
    ensures Inv(ShuffledPiles(db, PilesOf(db, d), jss, |PilesOf(db, d)|), ShuffledOrders(db, ord, PilesOf(db, d), jss, |PilesOf(db, d)|))
    ensures ShuffledSoFar(db, ord, ShuffledPiles(db, PilesOf(db, d), jss, |PilesOf(db, d)|),
                          ShuffledOrders(db, ord, PilesOf(db, d), jss, |PilesOf(db, d)|), PilesOf(db, d), jss, |PilesOf(db, d)|)
  {
    var ps := PilesOf(db, d);
    var t, o := ShuffledPiles(db, ps, jss, |ps|), ShuffledOrders(db, ord, ps, jss, |ps|);
    ShuffledPilesKeeps(db, ord, ps, jss, |ps|, t, o);
    RelinkKeeps(db, ord, t, o);
  }

  /**
   * The transaction of `ShuffleAllPiles`: every pile of deck `d` shuffled
   * in turn.  The invariant holds after it; each pile holds the same cards
   * as before, reordered, and the piles of other decks read as before.
   */
  method ShuffleAllPilesTx(db: Db, ghost ord: Orders, d: DeckId, jss: seq<seq<nat>>)
    returns (t: Db, ghost o: Orders, results: map<string, nat>)
    requires Inv(db, ord)
    ensures Inv(t, o) && t.piles == db.piles
    ensures t == ShuffledPiles(db, PilesOf(db, d), jss, |PilesOf(db, d)|)
    ensures results.Keys == PileNames(db, d)
    ensures forall name :: name in results ==> results[name] == CardsInPile(db, d, name)
    ensures forall q :: q in db.piles && db.piles[q].deck != d ==> PileList(t, o, q) == PileList(db, ord, q)
    ensures forall q :: q in db.piles ==> multiset(PileList(t, o, q)) == multiset(PileList(db, ord, q))
  {
    t, results := ShuffleAllPiles(db, d, jss);
    o := ShuffledOrders(db, ord, PilesOf(db, d), jss, |PilesOf(db, d)|);
    ShuffleAllKeeps(db, ord, d, jss);
    AllShuffled(db, ord, t, o, d, jss);
  }

  // ---- DrawFromPile and DrawSpecificFromPile ----

  /** The `k`-th card of pile `p` was drawn: it is the result, and `t` is `db` without it. */
  ghost predicate Drew(db: Db, ord: Orders, t: Db, o: Orders, p: int, k: nat, r: Result<Code, StoreError>) {
    PileTaken(db, ord, t, o, p, k) && r == Ok(PileList(db, ord, p)[k])
  }

  /** The draw methods `DrawFromPile` knows. */
  predicate KnownMethod(how: string) {
    how == "top" || how == "bottom" || how == "random"
  }

  /**
   * The row `DrawFromPile` picks in pile `p`: for `top` the row no row
   * points to, for `bottom` the row pointing to nothing, for `random` the
   * row at position `pick` (reduced modulo their number) among the pile's
   * rows read by ascending id; nothing when the pile has no such row.
   */
  function Pick(rows: map<int, Row<int>>, p: int, how: string, pick: nat): (r: Option<int>)
    ensures r.Some? ==> r.value in rows && rows[r.value].owner == p
  {
    if how == "top" then First(Unreferenced(rows, p))
    else if how == "bottom" then First(Bottoms(rows, p))
    else
      var ids := Ascending(OwnedIds(rows, p));
      if ids == [] then None else assert ids[pick % |ids|] in OwnedIds(rows, p); Some(ids[pick % |ids|])
  }

  /** Where a row stands in a list that holds it. */
  function Position(order: seq<int>, id: int): (k: nat)
    requires id in order
    ensures k < |order| && order[k] == id
  {
    if order[0] == id then 0 else Position(order[1..], id) + 1
  }

  /**
   * Under the invariant each method finds a row exactly when the pile has
   * one: `top` finds the head of its list and `bottom` the tail.
   */
  lemma PickSpec(db: Db, ord: Orders, p: int, how: string, pick: nat)
    requires PileKeys(db) && PileShape(db, ord) && p in db.piles && KnownMethod(how)
    ensures Pick(db.pileCards, p, how, pick).None? <==> ord.piles[p] == []
    ensures Pick(db.pileCards, p, how, pick).Some? ==> Pick(db.pileCards, p, how, pick).value in ord.piles[p]
    ensures how == "top" && ord.piles[p] != [] ==> Pick(db.pileCards, p, how, pick) == Some(ord.piles[p][0])
    ensures how == "bottom" && ord.piles[p] != [] ==>
      Pick(db.pileCards, p, how, pick) == Some(ord.piles[p][|ord.piles[p]| - 1])
  {
    TopIsHead(db, ord, p);
    BottomIsTail(db, ord, p);
    ChainSize(db.pileCards, p, ord.piles[p]);
    if ord.piles[p] != [] {
      FirstOfOne(Unreferenced(db.pileCards, p), ord.piles[p][0]);
      FirstOfOne(Bottoms(db.pileCards, p), ord.piles[p][|ord.piles[p]| - 1]);
    }
  }

  /**
   * What `DrawFromPile` does: nothing changes on failure; an unknown pile,
   * an unknown draw method and an empty pile each fail; otherwise the row
   * `how` picks (the head for `top`, the tail for `bottom`) is the `k`-th
   * of the pile and is taken out.
   */
  ghost predicate DrawFromPileOutcome(db: Db, ord: Orders, t: Db, o: Orders, d: DeckId, name: string, how: string,
                                      pick: nat, r: Result<Code, StoreError>, k: nat)
    requires Inv(db, ord)
  {
    && (r.Err? ==> t == db)
    && (FindPile(db, d, name).None? ==> r == Err(PileMissing))
    && (FindPile(db, d, name).Some? ==>
          var p := FindPile(db, d, name).value;
          && (!KnownMethod(how) ==> r == Err(InvalidMethod))
          && (KnownMethod(how) && ord.piles[p] == [] ==> r == Err(PileEmpty))
          && (KnownMethod(how) && ord.piles[p] != [] ==>
              && Drew(db, ord, t, o, p, k, r)
              && (how == "top" ==> k == 0)
              && (how == "bottom" ==> k == |ord.piles[p]| - 1)
              && k < |ord.piles[p]| && Some(ord.piles[p][k]) == Pick(db.pileCards, p, how, pick)))
  }

  /**
   * The transaction of `DrawFromPile`: find deck `d`'s pile `name`, pick a
   * row by the method `how`, point the row above it (the one pointing to
   * it) past it, delete it and count one copy fewer in piles.  `k` is where
   * the picked row stood in the pile's list.
   */
  method DrawFromPileTx(db: Db, ghost ord: Orders, d: DeckId, name: string, how: string, pick: nat)
    returns (t: Db, ghost o: Orders, r: Result<Code, StoreError>, ghost k: nat)
    requires Inv(db, ord)
    ensures Inv(t, o)
    ensures DrawFromPileOutcome(db, ord, t, o, d, name, how, pick, r, k)
  {
    t, o, k := db, ord, 0;
    var found := FindPile(db, d, name);
    if found.None? {
      return t, o, Err(PileMissing), k;
    }
    var p := found.value;
    if !KnownMethod(how) {
      return t, o, Err(InvalidMethod), k;
    }
    PickSpec(db, ord, p, how, pick);
    var picked := Pick(db.pileCards, p, how, pick);
    if picked.None? {
      return t, o, Err(PileEmpty), k;
    }
    var id := picked.value;
    k := Position(ord.piles[p], id);
    t, r := TakePicked(db, ord, p, id, how == "bottom", k);
    o := Taken(ord, p, k);
  }

  /**
   * The statements that take the picked row `id`, the `k`-th of pile `p`,
   * out: find the row above it, then `TakeRow`.  The `bottom` query does
   * not read the row's `nextCardId`, which stays NULL.
   */
  method TakePicked(db: Db, ghost ord: Orders, p: int, id: int, bottom: bool, ghost k: nat) returns (t: Db, r: Result<Code, StoreError>)
    requires Inv(db, ord) && p in db.piles && k < |ord.piles[p]| && ord.piles[p][k] == id
    requires bottom ==> k == |ord.piles[p]| - 1
    ensures Inv(t, Taken(ord, p, k)) && Drew(db, ord, t, Taken(ord, p, k), p, k, r)
    ensures t.lastPile == db.lastPile && t.lastPileCard == db.lastPileCard
  {
    AboveIsPrevious(db, ord, p, k);
    TakeKeeps(db, ord, p, k);
    var next := if bottom then None else db.pileCards[id].next;
    var above := First(Above(db.pileCards, p, id));
    var code := db.pileCards[id].code;
    t := TakeRow(db, id, next, above, db.piles[p].deck, code);
    r := Ok(code);
  }

  /**
   * What `DrawSpecificFromPile` does: nothing changes on failure; an unknown
   * pile and a code the pile lacks each fail; otherwise the first row of the
   * pile holding `code`, the `k`-th of its list, is taken out.
   */
  ghost predicate DrawSpecificOutcome(db: Db, ord: Orders, t: Db, o: Orders, d: DeckId, name: string, code: Code,
                                      r: Result<Code, StoreError>, k: nat)
    requires Inv(db, ord)
  {
    && (r.Err? ==> t == db)
    && (FindPile(db, d, name).None? ==> r == Err(PileMissing))
    && (FindPile(db, d, name).Some? ==>
          var p := FindPile(db, d, name).value;
          && (code !in PileList(db, ord, p) ==> r == Err(CardNotInPile))
          && (code in PileList(db, ord, p) ==>
              && Drew(db, ord, t, o, p, k, r) && r == Ok(code)
              && Some(ord.piles[p][k]) == First(RowsWith(db.pileCards, p, code))))
  }

  /**
   * The transaction of `DrawSpecificFromPile`: find deck `d`'s pile
   * `name`, the first row of it holding `code`, and take that row out.
   */
  method DrawSpecificFromPileTx(db: Db, ghost ord: Orders, d: DeckId, name: string, code: Code)
    returns (t: Db, ghost o: Orders, r: Result<Code, StoreError>, ghost k: nat)
    requires Inv(db, ord)
    ensures Inv(t, o)
    ensures DrawSpecificOutcome(db, ord, t, o, d, name, code, r, k)
  {
    t, o, k := db, ord, 0;
    var found := FindPile(db, d, name);
    if found.None? {
      return t, o, Err(PileMissing), k;
    }
    var p := found.value;
    HeldIsListed(db, ord, p, code);
    var first := First(RowsWith(db.pileCards, p, code));
    if first.None? {
      return t, o, Err(CardNotInPile), k;
    }
    var id := first.value;
    k := Position(ord.piles[p], id);
    t, r := TakePicked(db, ord, p, id, false, k);
    o := Taken(ord, p, k);
  }

  /** Under the invariant a pile has a row holding `code` exactly when its list reads `code`. */
  lemma HeldIsListed(db: Db, ord: Orders, p: int, code: Code)
    requires PileShape(db, ord) && p in db.piles
    ensures RowsWith(db.pileCards, p, code) != {} <==> code in PileList(db, ord, p)
    ensures forall id :: id in RowsWith(db.pileCards, p, code) ==> id in ord.piles[p]
  {
    var order := ord.piles[p];
    if code in PileList(db, ord, p) {
      var j :| 0 <= j < |order| && PileList(db, ord, p)[j] == code;
      assert order[j] in RowsWith(db.pileCards, p, code);
    }
    if RowsWith(db.pileCards, p, code) != {} {
      SomeElement(RowsWith(db.pileCards, p, code));
      var id :| id in RowsWith(db.pileCards, p, code);
      var j :| 0 <= j < |order| && order[j] == id;
      assert PileList(db, ord, p)[j] == code;
    }
  }
}
