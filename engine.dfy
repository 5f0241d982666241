/**
 * The storage engine: the five tables held in one object, and the
 * operations of the worker pool as its methods.  Every method runs its
 * transaction on a copy of the tables and writes back what the transaction
 * hands back; a transaction that fails hands back the committed tables,
 * which the failed operation did not change.  `UpdatePileOrder` is the corrected
 * operation, which checks its codes before it writes anything.
 */
module Engine {
  import opened Common
  import opened Chains
  import opened Cards
  import opened Tables
  import opened DeckMoves
  import opened DeckOps
  import opened DeckBuild
  import opened DeckShuffle
  import opened PileShuffle
  import opened PileMoves
  import opened PileOps
  import opened ReturnOps
  import opened PileOrder

  class Store {
    /** The five tables. */
    var tables: Db
    /** The order of every deck's and every pile's rows, head first. */
    ghost var order: Orders

    ghost predicate Valid()
      reads this
    {
      Inv(tables, order)
    }

    constructor ()
      ensures Valid()
      ensures tables == Db(map[], map[], map[], map[], map[], 0, 0, 0)
    {
      tables := Db(map[], map[], map[], map[], map[], 0, 0, 0);
      order := Orders(map[], map[]);
    }

    /**
     * `InsertDeck`: a new deck under a token drawn from `draws`, holding
     * `cards` in order; nothing changes when no token can be had.
     */
    method InsertDeck(cards: seq<Code>, draws: seq<Option<seq<Byte>>>) returns (r: Result<DeckId, StoreError>)
      requires Valid()
      modifies this
      ensures Valid()
      ensures r == TokenSearch(old(tables).decks.Keys, draws, 0)
      ensures r.Err? ==> tables == old(tables)
      ensures r.Ok? ==> Inserted(old(tables), old(order), tables, order, r.value, cards)
    {
      var t;
      ghost var o;
      var db := tables;
      ghost var ord := order;
      t, o, r := InsertDeckTx(db, ord, cards, draws);
      tables, order := t, o;
    }

    /**
     * `ShuffleDeck`: deck `d`'s rows relinked in the order `rand.Shuffle`
     * makes of them with the draws `js`, the codes returned in that order.
     */
    method ShuffleDeck(d: DeckId, js: seq<nat>) returns (r: Result<seq<Code>, StoreError>)
      requires Valid()
      modifies this
      ensures Valid()
      ensures d !in old(tables).decks ==> r == Err(DeckMissing) && tables == old(tables)
      ensures d in old(tables).decks ==> r == Ok(Codes(old(tables).deckCards, ShuffleOrder(old(tables).deckCards, d, js)))
      ensures d in old(tables).decks ==> multiset(r.value) == multiset(DeckList(old(tables), old(order), d))
      ensures d in old(tables).decks && r.value == [] ==> tables == old(tables)
      ensures d in old(tables).decks && r.value != [] ==>
        Reshuffled(old(tables), old(order), tables, order, d, ShuffleOrder(old(tables).deckCards, d, js))
    {
      var t;
      ghost var o;
      var db := tables;
      ghost var ord := order;
      t, o, r := ShuffleDeckTx(db, ord, d, js);
      tables, order := t, o;
    }

    /**
     * `DrawCards`: up to `amount` cards off the top of deck `d`, as many as
     * it has rows at most; nothing for an unknown deck or an amount that is
     * not positive.  Also returns how many rows the deck has left.
     */
    method DrawCards(d: DeckId, amount: int) returns (codes: seq<Code>, remaining: int)
      requires Valid()
      modifies this
      ensures Valid()
      ensures var held := |OwnedIds(old(tables).deckCards, d)|;
        var k := Clamp(amount, held);
        && codes == Drawn(old(tables), d, k) && remaining == held - k
        && tables == PopMany(old(tables), d, k)
    {
      var t;
      ghost var o;
      var db := tables;
      ghost var ord := order;
      t, o, codes, remaining := DrawCardsTx(db, ord, d, amount);
      tables, order := t, o;
    }

    /**
     * `InsertIntoPile`: `codes` pushed onto deck `d`'s pile `name`, which is
     * created on first use; every code must have a drawn copy left to
     * place, counting the earlier codes of the same call.
     */
    method InsertIntoPile(d: DeckId, name: string, codes: seq<Code>) returns (r: Result<int, StoreError>)
      requires Valid()
      modifies this
      ensures Valid()
      ensures InsertIntoPileOutcome(old(tables), old(order), tables, order, d, name, codes, r)
    {
      var t;
      ghost var o;
      var db := tables;
      ghost var ord := order;
      t, o, r := InsertIntoPileTx(db, ord, d, name, codes);
      tables, order := t, o;
      assert old(tables) == db && old(order) == ord;
    }

    /** `GetPileCards`: the codes of deck `d`'s pile `name`, top first. */
    method GetPileCards(d: DeckId, name: string) returns (r: Result<seq<Code>, StoreError>)
      requires Valid()
      ensures FindPile(tables, d, name).None? ==> r == Err(PileMissing)
      ensures FindPile(tables, d, name).Some? ==> r == Ok(PileList(tables, order, FindPile(tables, d, name).value))
    {
      r := PileOps.GetPileCards(tables, order, d, name);
    }

    /** `CardsInDeck`: how many cards deck `d` holds; none for an unknown deck. */
    method CardsInDeck(d: DeckId) returns (n: nat)
      requires Valid()
      ensures n == if d in tables.decks then |DeckList(tables, order, d)| else 0
    {
      CardsInDeckIsLength(tables, order, d);
      n := PileOps.CardsInDeck(tables, d);
    }

    /** `CardsInPile`: how many cards deck `d`'s pile `name` holds; none for a missing pile. */
    method CardsInPile(d: DeckId, name: string) returns (n: nat)
      requires Valid()
      ensures FindPile(tables, d, name).None? ==> n == 0
      ensures FindPile(tables, d, name).Some? ==> n == |PileList(tables, order, FindPile(tables, d, name).value)|
    {
      CardsInPileIsLength(tables, order, d, name);
      n := PileOps.CardsInPile(tables, d, name);
    }

    /** `ListPiles`: each of deck `d`'s piles by name, with how many cards it holds. */
    method ListPiles(d: DeckId) returns (m: map<string, nat>)
      requires Valid()
      ensures m.Keys == PileNames(tables, d)
      ensures forall name :: name in m ==> m[name] == PileOps.CardsInPile(tables, d, name)
    {
      m := PileOps.ListPiles(tables, d);
    }

    /**
     * `ShuffleAllPiles`: every pile of deck `d` shuffled in turn, the `i`-th
     * with the draws `jss[i]`; returns the piles' sizes by name.
     */
    method ShuffleAllPiles(d: DeckId, jss: seq<seq<nat>>) returns (results: map<string, nat>)
      requires Valid()
      modifies this
      ensures Valid()
      ensures tables == ShuffledPiles(old(tables), PilesOf(old(tables), d), jss, |PilesOf(old(tables), d)|)
      ensures results.Keys == PileNames(old(tables), d)
      ensures forall name :: name in results ==> results[name] == PileOps.CardsInPile(old(tables), d, name)
      ensures tables.piles == old(tables).piles
      ensures forall q :: q in old(tables).piles && old(tables).piles[q].deck != d ==>
        PileList(tables, order, q) == PileList(old(tables), old(order), q)
      ensures forall q :: q in old(tables).piles ==>
        multiset(PileList(tables, order, q)) == multiset(PileList(old(tables), old(order), q))
    {
      var t;
      ghost var o;
      var db := tables;
      ghost var ord := order;
      t, o, results := ShuffleAllPilesTx(db, ord, d, jss);
      tables, order := t, o;
    }

    /**
     * `UpdatePileOrder`: deck `d`'s pile `name` relinked to read `codes`,
     * which must be the pile's own codes rearranged.
     */
    method UpdatePileOrder(d: DeckId, name: string, codes: seq<Code>) returns (r: Outcome<StoreError>)
      requires Valid()
      modifies this
      ensures Valid()
      ensures r.Fail? ==> tables == old(tables)
      ensures FindPile(old(tables), d, name).None? ==> r == Fail(PileMissing)
      ensures FindPile(old(tables), d, name).Some? ==>
        var p := FindPile(old(tables), d, name).value;
        && (r == Pass <==> multiset(codes) == multiset(PileList(old(tables), old(order), p)))
        && (r.Fail? ==> r == Fail(NotPermutation))
        && (r == Pass ==> PileReordered(old(tables), old(order), tables, order, p, codes))
    {
      var t;
      ghost var o;
      var db := tables;
      ghost var ord := order;
      t, o, r := UpdatePileOrderTx(db, ord, d, name, codes);
      tables, order := t, o;
    }

    /** `DrawFromPile`: one card off deck `d`'s pile `name`, from its top, its bottom or a random place. */
    method DrawFromPile(d: DeckId, name: string, how: string, pick: nat) returns (r: Result<Code, StoreError>, ghost k: nat)
      requires Valid()
      modifies this
      ensures Valid()
      ensures DrawFromPileOutcome(old(tables), old(order), tables, order, d, name, how, pick, r, k)
    {
      var t;
      ghost var o;
      var db := tables;
      ghost var ord := order;
      t, o, r, k := DrawFromPileTx(db, ord, d, name, how, pick);
      tables, order := t, o;
    }

    /** `DrawSpecificFromPile`: the first row of `code` taken out of deck `d`'s pile `name`. */
    method DrawSpecificFromPile(d: DeckId, name: string, code: Code) returns (r: Result<Code, StoreError>, ghost k: nat)
      requires Valid()
      modifies this
      ensures Valid()
      ensures DrawSpecificOutcome(old(tables), old(order), tables, order, d, name, code, r, k)
    {
      var t;
      ghost var o;
      var db := tables;
      ghost var ord := order;
      t, o, r, k := DrawSpecificFromPileTx(db, ord, d, name, code);
      tables, order := t, o;
    }

    /** `ReturnSpecificDrawn`: one drawn copy of `code` put back on top of deck `d`. */
    method ReturnSpecificDrawn(d: DeckId, code: Code) returns (r: Result<Code, StoreError>)
      requires Valid()
      modifies this
      ensures Valid()
      ensures ReturnSpecificDrawnOutcome(old(tables), old(order), tables, order, d, code, r)
    {
      var t;
      ghost var o;
      var db := tables;
      ghost var ord := order;
      t, o, r := ReturnSpecificDrawnTx(db, ord, d, code);
      tables, order := t, o;
    }

    /** `ReturnAllDrawn`: every drawn copy of deck `d`'s codes put back on top of it. */
    method ReturnAllDrawn(d: DeckId) returns (ghost returned: seq<Code>)
      requires Valid()
      modifies this
      ensures Valid()
      ensures d !in old(tables).decks ==> tables == old(tables)
      ensures forall c :: multiset(returned)[c] == Owed(old(tables).entries, d, c)
      ensures d in old(tables).decks ==> AllReturned(old(tables), old(order), tables, order, d, returned)
    {
      var t;
      ghost var o;
      var db := tables;
      ghost var ord := order;
      t, o, returned := ReturnAllDrawnTx(db, ord, d);
      tables, order := t, o;
    }

    /** `ReturnSpecificFromPile`: the first row of `code` in deck `d`'s pile `name` put back on top of the deck. */
    method ReturnSpecificFromPile(d: DeckId, name: string, code: Code) returns (r: Result<Code, StoreError>, ghost k: nat)
      requires Valid()
      modifies this
      ensures Valid()
      ensures ReturnSpecificFromPileOutcome(old(tables), old(order), tables, order, d, name, code, r, k)
    {
      var t;
      ghost var o;
      var db := tables;
      ghost var ord := order;
      t, o, r, k := ReturnSpecificFromPileTx(db, ord, d, name, code);
      tables, order := t, o;
    }

    /** `ReturnAllFromPile`: every card of deck `d`'s pile `name` put back on top of the deck, the pile left empty. */
    method ReturnAllFromPile(d: DeckId, name: string) returns (r: Outcome<StoreError>, ghost codes: seq<Code>)
      requires Valid()
      modifies this
      ensures Valid()
      ensures ReturnAllFromPileOutcome(old(tables), old(order), tables, order, d, name, r, codes)
    {
      var t;
      ghost var o;
      var db := tables;
      ghost var ord := order;
      t, o, r, codes := ReturnAllFromPileTx(db, ord, d, name);
      tables, order := t, o;
    }
  }

}
