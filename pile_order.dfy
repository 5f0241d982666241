/**
 * `UpdatePileOrder`: relink the rows of a pile in the order of a list of
 * codes.  As written it runs outside any transaction: it clears the pile's
 * links, then for each code looks up the first row of the pile holding it
 * and points the row found before to it, stopping at the first code the
 * pile lacks with whatever it wrote so far kept.  Each code finds the first
 * row holding it, so a pile holding two copies of a code gets the same row
 * twice and a row pointing to itself.  `UpdatePileOrderTx` is the corrected
 * operation: it checks that the codes are the pile's own, gives each code a
 * row not found before, and relinks inside a transaction.
 */
module PileOrder {
  import opened Common
  import opened Chains
  import opened Cards
  import opened Tables
  import opened DeckShuffle
  import opened DeckOps
  import opened PileMoves
  import opened PileShuffle

  // ---- as written ----

  /**
   * The rows the loop finds for `codes`: for each code in turn, the first
   * row of pile `p` holding it, up to the first code the pile lacks.
   */
  function Found(rows: map<int, Row<int>>, p: int, codes: seq<Code>): (ids: seq<int>)
    ensures |ids| <= |codes|
    ensures forall k :: 0 <= k < |ids| ==> Some(ids[k]) == First(RowsWith(rows, p, codes[k]))
    ensures Stored(rows, ids)
  {
    if codes == [] then []
    else
      var n := |codes| - 1;
      var front := Found(rows, p, codes[..n]);
      var pick := First(RowsWith(rows, p, codes[n]));
      if |front| == n && pick.Some? then front + [pick.value] else front
  }

  /**
   * Every found row pointing to the row found after it, written in loop
   * order, so that a later write to the same row wins.
   */
  function LinkPairs(rows: map<int, Row<int>>, ids: seq<int>): (r: map<int, Row<int>>)
    requires Stored(rows, ids)
    ensures SameRows(rows, r)
  {
    if |ids| < 2 then rows
    else
      var n := |ids| - 1;
      var m := LinkPairs(rows, ids[..n]);
      m[ids[n - 1] := m[ids[n - 1]].(next := Some(ids[n]))]
  }

  /** The store after `UpdatePileOrder` as written on pile `p`. */
  function Reordered(db: Db, p: int, codes: seq<Code>): Db {
    var cleared := Clear(db.pileCards, p);
    db.(pileCards := LinkPairs(cleared, Found(db.pileCards, p, codes)))
  }

  /** The loop finds a row for every code exactly when the pile holds every code. */
  lemma {:induction false} FoundAll(rows: map<int, Row<int>>, p: int, codes: seq<Code>)
    ensures |Found(rows, p, codes)| == |codes| <==> forall k :: 0 <= k < |codes| ==> RowsWith(rows, p, codes[k]) != {}
  {
    if codes != [] {
      var n := |codes| - 1;
      FoundAll(rows, p, codes[..n]);
      if |Found(rows, p, codes)| == |codes| {
        assert |Found(rows, p, codes[..n])| == n;
      }
    }
  }

  /** Once a code is missing, the loop has found all it will. */
  lemma {:induction false} FoundStops(rows: map<int, Row<int>>, p: int, codes: seq<Code>, i: nat)
    requires i < |codes| && |Found(rows, p, codes[..i])| == i && First(RowsWith(rows, p, codes[i])).None?
    ensures Found(rows, p, codes) == Found(rows, p, codes[..i])
    decreases |codes|
  {
    var n := |codes| - 1;
    if n == i {
      assert codes[..n] == codes[..i];
    } else {
      assert codes[..n][..i] == codes[..i] && codes[..n][i] == codes[i];
      FoundStops(rows, p, codes[..n], i);
      assert |Found(rows, p, codes[..n])| == i;
    }
  }

  /** Tables holding the same rows hold the same rows of each code. */
  lemma SameRowsWith(rows: map<int, Row<int>>, rows': map<int, Row<int>>, p: int, c: Code)
    requires SameRows(rows, rows')
    ensures RowsWith(rows', p, c) == RowsWith(rows, p, c)
  {
    forall id | id in rows ensures id in RowsWith(rows', p, c) <==> id in RowsWith(rows, p, c) {
      assert rows'[id].owner == rows[id].owner && rows'[id].code == rows[id].code;
    }
  }

  /** Where the relinking loop stands after `i` codes: each found, and linked after the one before. */
  ghost predicate Linking(rows0: map<int, Row<int>>, p: int, codes: seq<Code>, i: nat, rows: map<int, Row<int>>,
                          prev: Option<int>) {
    && i <= |codes| && |Found(rows0, p, codes[..i])| == i
    && rows == LinkPairs(Clear(rows0, p), Found(rows0, p, codes[..i]))
    && prev == if i == 0 then None else Some(Found(rows0, p, codes[..i])[i - 1])
  }

  /** The loop only changes links. */
  lemma LinkingSame(rows0: map<int, Row<int>>, p: int, codes: seq<Code>, i: nat, rows: map<int, Row<int>>, prev: Option<int>)
    requires Linking(rows0, p, codes, i, rows, prev)
    ensures SameRows(rows0, rows)
  {
    var cleared := Clear(rows0, p);
    assert SameRows(cleared, rows);
  }

  /** One more code found: the row found before now points to its row. */
  lemma LinkStep(rows0: map<int, Row<int>>, p: int, codes: seq<Code>, i: nat, rows: map<int, Row<int>>,
                 prev: Option<int>, id: int)
    requires Linking(rows0, p, codes, i, rows, prev) && i < |codes| && First(RowsWith(rows0, p, codes[i])) == Some(id)
    ensures prev.Some? ==> prev.value in rows
    ensures Linking(rows0, p, codes, i + 1, if prev.Some? then rows[prev.value := rows[prev.value].(next := Some(id))] else rows,
                    Some(id))
  {
    assert codes[..i + 1][..i] == codes[..i];
    var f := Found(rows0, p, codes[..i]);
    assert Found(rows0, p, codes[..i + 1]) == f + [id];
    if i > 0 {
      assert (f + [id])[..i] == f;
    }
  }

  /**
   * The loop of `UpdatePileOrder` on the cleared pile `p`: each code's first
   * row linked after the row found before it, until a code is missing.
   */
  method LinkFound(rows0: map<int, Row<int>>, p: int, codes: seq<Code>) returns (rows: map<int, Row<int>>, all: bool)
    ensures rows == LinkPairs(Clear(rows0, p), Found(rows0, p, codes))
    ensures all <==> |Found(rows0, p, codes)| == |codes|
  {
    rows := Clear(rows0, p);
    var prev: Option<int> := None;
    for i := 0 to |codes|
      invariant Linking(rows0, p, codes, i, rows, prev)
    {
      LinkingSame(rows0, p, codes, i, rows, prev);
      SameRowsWith(rows0, rows, p, codes[i]);
      var pick := First(RowsWith(rows, p, codes[i]));
      if pick.None? {
        FoundStops(rows0, p, codes, i);
        return rows, false;
      }
      var id := pick.value;
      LinkStep(rows0, p, codes, i, rows, prev, id);
      if prev.Some? {
        rows := rows[prev.value := rows[prev.value].(next := Some(id))];
      }
      prev := Some(id);
    }
    assert codes[..|codes|] == codes;
    return rows, true;
  }

  /**
   * `UpdatePileOrder` as written: nothing changes for an unknown pile;
   * otherwise the pile's links are cleared and relinked along the rows
   * found, and a code the pile lacks fails the call with those writes kept.
   */
  method UpdatePileOrderAsWritten(db: Db, d: DeckId, name: string, codes: seq<Code>) returns (t: Db, r: Outcome<StoreError>)
    requires UniqueNames(db)
    ensures FindPile(db, d, name).None? ==> t == db && r == Fail(PileMissing)
    ensures FindPile(db, d, name).Some? ==>
      var p := FindPile(db, d, name).value;
      && t == Reordered(db, p, codes)
      && r == if |Found(db.pileCards, p, codes)| == |codes| then Pass else Fail(CardNotInPile)
  {
    var found := FindPile(db, d, name);
    if found.None? {
      return db, Fail(PileMissing);
    }
    var rows, all := LinkFound(db.pileCards, found.value, codes);
    t := db.(pileCards := rows);
    r := if all then Pass else Fail(CardNotInPile);
  }

  // ---- corrected ----

  /**
   * Where the picking loop stands after `i` codes: each picked row holds its
   * code, no row is picked twice, and each code has as many rows left
   * unpicked as it has copies still to place.
   */
  ghost predicate Picking(rows: map<int, Row<int>>, p: int, codes: seq<Code>, i: nat, picks: seq<int>, used: set<int>) {
    && i <= |codes| && |picks| == i && Distinct(picks)
    && (forall id :: id in used <==> id in picks)
    && (forall k :: 0 <= k < i ==> picks[k] in RowsWith(rows, p, codes[k]))
    && (forall c :: |RowsWith(rows, p, c) - used| == multiset(codes[i..])[c])
  }

  /** The next code still has a row left to pick. */
  lemma PickAvailable(rows: map<int, Row<int>>, p: int, codes: seq<Code>, i: nat, picks: seq<int>, used: set<int>)
    requires Picking(rows, p, codes, i, picks, used) && i < |codes|
    ensures RowsWith(rows, p, codes[i]) - used != {}
  {
    assert codes[i..][0] == codes[i];
    assert |RowsWith(rows, p, codes[i]) - used| > 0;
  }

  /** Picking an unpicked row of the next code moves the loop on by one. */
  lemma PickStep(rows: map<int, Row<int>>, p: int, codes: seq<Code>, i: nat, picks: seq<int>, used: set<int>, id: int)
    requires Picking(rows, p, codes, i, picks, used) && i < |codes| && id in RowsWith(rows, p, codes[i]) - used
    ensures Picking(rows, p, codes, i + 1, picks + [id], used + {id})
  {
    PickLeft(rows, p, codes, i, used, id);
    PickNext(picks, used, id);
    var picks' := picks + [id];
    forall k | 0 <= k <= i ensures picks'[k] in RowsWith(rows, p, codes[k]) {
    }
  }

  /** Picking a row for the `i`-th code leaves as many rows per code as the codes after it hold. */
  lemma PickLeft(rows: map<int, Row<int>>, p: int, codes: seq<Code>, i: nat, used: set<int>, id: int)
    requires i < |codes| && id in RowsWith(rows, p, codes[i]) - used
    requires forall c :: |RowsWith(rows, p, c) - used| == multiset(codes[i..])[c]
    ensures forall c :: |RowsWith(rows, p, c) - (used + {id})| == multiset(codes[i + 1..])[c]
  {
    assert codes[i..] == [codes[i]] + codes[i + 1..];
    forall c ensures |RowsWith(rows, p, c) - (used + {id})| == multiset(codes[i + 1..])[c] {
      if c == codes[i] {
        assert RowsWith(rows, p, c) - (used + {id}) == (RowsWith(rows, p, c) - used) - {id};
      } else {
        assert RowsWith(rows, p, c) - (used + {id}) == RowsWith(rows, p, c) - used;
      }
    }
  }

  /** A row not picked yet extends the picks without a repeat. */
  lemma PickNext(picks: seq<int>, used: set<int>, id: int)
    requires Distinct(picks) && (forall x :: x in used <==> x in picks) && id !in used
    ensures Distinct(picks + [id]) && forall x :: x in used + {id} <==> x in picks + [id]
  {
  }

  /** Once every code is placed, every row of the pile is picked and no other. */
  lemma PickedAll(rows: map<int, Row<int>>, p: int, codes: seq<Code>, picks: seq<int>, used: set<int>)
    requires Picking(rows, p, codes, |codes|, picks, used)
    ensures forall id :: id in picks <==> id in OwnedIds(rows, p)
  {
    forall id | id in OwnedIds(rows, p) ensures id in used {
      var c := rows[id].code;
      var left := RowsWith(rows, p, c) - used;
      assert codes[|codes|..] == [];
      assert |left| == 0;
      assert id in RowsWith(rows, p, c);
      assert id !in left;
    }
    forall id | id in picks ensures id in OwnedIds(rows, p) {
      var k :| 0 <= k < |picks| && picks[k] == id;
    }
  }

  /**
   * The corrected relinking loop: each code takes the first row of pile `p`
   * holding it that no earlier code took.  When the pile holds each code as
   * often as `codes` does, every row of the pile is taken exactly once.
   */
  method PickDistinct(rows: map<int, Row<int>>, p: int, codes: seq<Code>) returns (picks: seq<int>)
    requires forall c :: |RowsWith(rows, p, c)| == multiset(codes)[c]
    ensures |picks| == |codes| && Distinct(picks)
    ensures forall k :: 0 <= k < |picks| ==> picks[k] in RowsWith(rows, p, codes[k])
    ensures forall id :: id in picks <==> id in OwnedIds(rows, p)
  {
    picks := [];
    var used: set<int> := {};
    assert codes[0..] == codes;
    for i := 0 to |codes|
      invariant Picking(rows, p, codes, i, picks, used)
    {
      PickAvailable(rows, p, codes, i, picks, used);
      var id := First(RowsWith(rows, p, codes[i]) - used).value;
      PickStep(rows, p, codes, i, picks, used, id);
      picks, used := picks + [id], used + {id};
    }
    PickedAll(rows, p, codes, picks, used);
  }

  /** A pile holding each code as often as `codes` does has as many rows of each code as `codes` has copies. */
  lemma SameCounts(db: Db, ord: Orders, p: int, codes: seq<Code>)
    requires PileShape(db, ord) && p in db.piles && multiset(codes) == multiset(PileList(db, ord, p))
    ensures forall c :: |RowsWith(db.pileCards, p, c)| == multiset(codes)[c]
  {
    forall c ensures |RowsWith(db.pileCards, p, c)| == multiset(codes)[c] {
      ChainRows(db.pileCards, p, ord.piles[p], c);
    }
  }

  /** The list after the pile is relinked: pile `p` reads `codes`, every other pile as before, only links changed. */
  ghost predicate PileReordered(db: Db, ord: Orders, t: Db, o: Orders, p: int, codes: seq<Code>) {
    && p in db.piles && LinksOnly(db, t) && o.decks == ord.decks && PileShape(db, ord) && PileShape(t, o)
    && PileList(t, o, p) == codes
    && forall q :: q in db.piles && q != p ==> PileList(t, o, q) == PileList(db, ord, q)
  }

  /** Relinking the cleared rows of a pile along all of them is relinking the rows as they were. */
  lemma ClearedRelinked(rows: map<int, Row<int>>, rows': map<int, Row<int>>, p: int, order: seq<int>)
    requires forall id :: id in order <==> id in OwnedIds(rows, p)
    requires Relinked(Clear(rows, p), rows', order)
    ensures Relinked(rows, rows', order)
  {
    forall id | id in rows && id !in order ensures rows'[id] == rows[id] {
      assert id !in OwnedIds(rows, p);
    }
  }

  /**
   * Relinking pile `p` along rows holding `codes`, all of its rows once
   * each, keeps the invariant and leaves the pile reading `codes`.
   */
  lemma ReorderKeeps(db: Db, ord: Orders, t: Db, o: Orders, p: int, picks: seq<int>, codes: seq<Code>)
    requires Inv(db, ord) && p in db.piles
    requires |picks| == |codes| && Distinct(picks)
    requires forall k :: 0 <= k < |picks| ==> picks[k] in RowsWith(db.pileCards, p, codes[k])
    requires forall id :: id in picks <==> id in OwnedIds(db.pileCards, p)
    requires Relinked(Clear(db.pileCards, p), t.pileCards, picks)
    requires t == db.(pileCards := t.pileCards) && o == ord.(piles := ord.piles[p := picks])
    ensures Inv(t, o) && PileReordered(db, ord, t, o, p, codes)
  {
    ClearedRelinked(db.pileCards, t.pileCards, p, picks);
    assert IsChain(db.pileCards, p, ord.piles[p]);
    ChainOwned(db.pileCards, p, ord.piles[p]);
    RelinkedPiles(db, ord, t, p, picks);
    RelinkKeeps(db, ord, t, o);
  }

  /**
   * `UpdatePileOrder` as intended: nothing changes for an unknown pile or
   * for codes that are not the pile's own codes rearranged; otherwise,
   * inside one transaction, the pile's rows are relinked so that the pile
   * reads `codes`, and nothing else changes.
   */
  method UpdatePileOrderTx(db: Db, ghost ord: Orders, d: DeckId, name: string, codes: seq<Code>)
    returns (t: Db, ghost o: Orders, r: Outcome<StoreError>)
    requires Inv(db, ord)
    ensures Inv(t, o)
    ensures r.Fail? ==> t == db
    ensures FindPile(db, d, name).None? ==> r == Fail(PileMissing)
    ensures FindPile(db, d, name).Some? ==>
      var p := FindPile(db, d, name).value;
      && (r == Pass <==> multiset(codes) == multiset(PileList(db, ord, p)))
      && (r.Fail? ==> r == Fail(NotPermutation))
      && (r == Pass ==> PileReordered(db, ord, t, o, p, codes))
  {
    t, o := db, ord;
    var found := FindPile(db, d, name);
    if found.None? {
      return t, o, Fail(PileMissing);
    }
    var p := found.value;
    ScanListsPile(db, ord, p);
    var cur := ReadCodes(db.pileCards, Scan(db.pileCards, p));
    if multiset(codes) != multiset(cur) {
      return t, o, Fail(NotPermutation);
    }
    SameCounts(db, ord, p, codes);
    var picks := PickDistinct(db.pileCards, p, codes);
    var rows := Clear(db.pileCards, p);
    if picks != [] {
      rows := RelinkRows(rows, picks);
    }
    t := db.(pileCards := rows);
    o := ord.(piles := ord.piles[p := picks]);
    ReorderKeeps(db, ord, t, o, p, picks, codes);
    r := Pass;
  }

  // ---- the duplicate-code counterexample ----

  /** A row pointing to itself repeats itself in any list that follows the links through it. */
  lemma SelfLoopRepeats(rows: map<int, Row<int>>, id: int, order: seq<int>)
    requires id in rows && rows[id].next == Some(id) && Linked(rows, order) && id in order
    ensures !Distinct(order)
  {
    var k :| 0 <= k < |order| && order[k] == id;
    assert NextOf(order, k) == Some(id);
    assert order[k + 1] == order[k];
  }

  /** A pile with a row pointing to itself is no list at all. */
  lemma SelfLoopNoChain(rows: map<int, Row<int>>, p: int, id: int)
    requires id in rows && rows[id].owner == p && rows[id].next == Some(id)
    ensures forall order :: !IsChain(rows, p, order)
  {
    forall order ensures !IsChain(rows, p, order) {
      if Linked(rows, order) && id in order {
        SelfLoopRepeats(rows, id, order);
      }
    }
  }

  /** Deck `d` with its pile `p` holding two rows of `AS`, both drawn from the deck. */
  function TwoAces(): Db {
    Db(map["d" := DeckRow(None, false)], map[], map[1 := PileRow("d", "p")],
       map[1 := Row(1, "AS", Some(2)), 2 := Row(1, "AS", None)],
       map[("d", "AS") := Entry(2, 0, 2)], 0, 1, 2)
  }

  /** The list orders of `TwoAces`: the deck empty, the pile rows 1 then 2. */
  function TwoAcesOrder(): Orders {
    Orders(map["d" := []], map[1 := [1, 2]])
  }

  /** The lists of `TwoAces`: the deck empty, the pile reading `AS` twice. */
  lemma TwoAcesShape()
    ensures DeckShape(TwoAces(), TwoAcesOrder()) && PileShape(TwoAces(), TwoAcesOrder())
    ensures Codes(TwoAces().pileCards, [1, 2]) == ["AS", "AS"]
  {
    var rows := TwoAces().pileCards;
    assert Linked(rows, [1, 2]) by {
      assert NextOf([1, 2], 0) == Some(2) && NextOf([1, 2], 1) == None;
    }
    assert forall id :: id in rows ==> id == 1 || id == 2;
    assert IsChain(rows, 1, [1, 2]);
    assert IsChain(TwoAces().deckCards, "d", []);
  }

  /** The ledger of `TwoAces`: both copies of `AS` in the pile. */
  lemma TwoAcesLedger()
    ensures DeckEntered(TwoAces()) && DeckCounts(TwoAces()) && PileEntered(TwoAces()) && PileCounts(TwoAces())
    ensures Bounded(TwoAces())
  {
    var db := TwoAces();
    assert forall k :: k in db.entries ==> k == ("d", "AS");
    assert PileRows(db, "d", "AS") == {1, 2};
    assert RowsWith(db.deckCards, "d", "AS") == {};
  }

  /** The keys of `TwoAces`, and its one pile found by name. */
  lemma TwoAcesKeys()
    ensures DeckKeys(TwoAces()) && PileKeys(TwoAces()) && UniqueNames(TwoAces())
    ensures FindPile(TwoAces(), "d", "p") == Some(1)
  {
    var db := TwoAces();
    assert forall p :: p in db.piles ==> p == 1;
    assert db.piles[1] == PileRow("d", "p");
  }

  /** `TwoAces` is a store the engine can be in. */
  lemma TwoAcesValid()
    ensures Inv(TwoAces(), TwoAcesOrder()) && PileList(TwoAces(), TwoAcesOrder(), 1) == ["AS", "AS"]
    ensures FindPile(TwoAces(), "d", "p") == Some(1)
  {
    TwoAcesShape();
    TwoAcesLedger();
    TwoAcesKeys();
  }

  /** Both copies of `AS` find row 1, the first row holding it. */
  lemma TwoAcesFound()
    ensures Found(TwoAces().pileCards, 1, ["AS", "AS"]) == [1, 1]
  {
    var rows := TwoAces().pileCards;
    var codes: seq<Code> := ["AS", "AS"];
    assert RowsWith(rows, 1, "AS") == {1, 2};
    assert First({1, 2}) == Some(1);
    assert codes[..1] == ["AS"] && ["AS"][..0] == [];
  }

  /**
   * A consistent store whose pile holds two copies of `AS`, reordered with
   * its own codes, as the pile shuffle does: both codes find row 1, which
   * ends up pointing to itself, the call reports success, and the pile is
   * no longer a list in any order.
   */
  lemma DuplicateCodeSelfLoop()
    ensures Inv(TwoAces(), TwoAcesOrder()) && PileList(TwoAces(), TwoAcesOrder(), 1) == ["AS", "AS"]
    ensures FindPile(TwoAces(), "d", "p") == Some(1)
    ensures |Found(TwoAces().pileCards, 1, ["AS", "AS"])| == 2
    ensures Reordered(TwoAces(), 1, ["AS", "AS"]).pileCards[1].next == Some(1)
    ensures forall o :: !PileShape(Reordered(TwoAces(), 1, ["AS", "AS"]), o)
  {
    TwoAcesValid();
    TwoAcesFound();
    var t := Reordered(TwoAces(), 1, ["AS", "AS"]);
    SelfLoopNoChain(t.pileCards, 1, 1);
  }
}
