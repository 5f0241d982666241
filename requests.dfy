/**
 * The checks the HTTP handlers run on query parameters before they call
 * the storage engine: the card-image file name, repeated codes in a
 * comma-separated list, the `count` and `deck_count` numbers and the
 * `img` list of codes to return.
 */
module Requests {
  import opened Common
  import opened GoStrings
  import opened Cards
  import opened Decks
  import opened ApiErrors

  // ---- card images ----

  datatype ImageCheck = InvalidFilename | NotSvg | Accepted

  /**
   * The file-name guard of the image route: no parent reference and no
   * path separator of either kind, then the `.svg` extension.
   */
  function CheckImageName(filename: string): (r: ImageCheck)
    ensures r == InvalidFilename <==>
      Contains(filename, "..") || Contains(filename, "/") || Contains(filename, "\\")
    ensures r == Accepted ==> HasSuffix(filename, ".svg") && |filename| >= 4
    ensures r == Accepted ==> forall k :: 0 <= k < |filename| ==> filename[k] != '/' && filename[k] != '\\'
    ensures r == NotSvg <==> r != InvalidFilename && !HasSuffix(filename, ".svg")
  {
    if Contains(filename, "..") || Contains(filename, "/") || Contains(filename, "\\") then InvalidFilename
    else if !HasSuffix(filename, ".svg") then NotSvg
    else
      assert forall k :: 0 <= k < |filename| ==> filename[k] != '/' && filename[k] != '\\' by {
        forall k | 0 <= k < |filename| ensures filename[k] != '/' && filename[k] != '\\' {
          assert filename[k] == '/' ==> OccursAt(filename, "/", k);
          assert filename[k] == '\\' ==> OccursAt(filename, "\\", k);
        }
      }
      Accepted
  }

  // ---- repeated codes ----

  /** Entries `i < j` name the same code once trimmed; blank entries never clash. */
  predicate Repeated(entries: seq<string>, i: int, j: int) {
    0 <= i < j < |entries| && TrimSpace(entries[i]) != [] && TrimSpace(entries[i]) == TrimSpace(entries[j])
  }

  /** The trimmed, non-blank codes among the first `k` entries. */
  function SeenCodes(entries: seq<string>, k: nat): set<string>
    requires k <= |entries|
  {
    if k == 0 then {}
    else
      var c := TrimSpace(entries[k - 1]);
      SeenCodes(entries, k - 1) + (if c != [] then {c} else {})
  }

  /** A code is among those seen exactly when some earlier entry trims to it. */
  lemma {:induction false} SeenCodesWitness(entries: seq<string>, k: nat, c: string)
    requires k <= |entries|
    ensures c in SeenCodes(entries, k) <==>
      exists i :: 0 <= i < k && TrimSpace(entries[i]) != [] && TrimSpace(entries[i]) == c
  {
    if k > 0 {
      SeenCodesWitness(entries, k - 1, c);
    }
  }

  /**
   * The duplicate check of the pile and new-deck handlers: trims every
   * entry, skips blank ones and stops at the first code already seen.  The
   * pile-draw handler runs the same check as it draws, so the codes before
   * a repeat are already drawn when the repeat is reported.
   */
  method HasDuplicate(entries: seq<string>) returns (dup: bool)
    ensures dup <==> exists i, j :: Repeated(entries, i, j)
  {
    var seen: set<string> := {};
    var k := 0;
    while k < |entries|
      invariant k <= |entries|
      invariant seen == SeenCodes(entries, k)
      invariant forall i, j :: j < k ==> !Repeated(entries, i, j)
    {
      var card := TrimSpace(entries[k]);
      SeenCodesWitness(entries, k, card);
      if card != [] {
        if card in seen {
          var i :| 0 <= i < k && TrimSpace(entries[i]) != [] && TrimSpace(entries[i]) == card;
          assert Repeated(entries, i, k);
          return true;
        }
        seen := seen + {card};
      }
      k := k + 1;
    }
    return false;
  }

  /** The list handed on when every trimmed, non-blank entry is distinct. */
  predicate DistinctEntries(entries: seq<string>) {
    forall i, j :: 0 <= i < j < |entries| ==> !Repeated(entries, i, j)
  }

  /**
   * `addToPile`'s parameter check: a missing list is an invalid parameter,
   * a repeated code is rejected, and otherwise the comma-separated pieces
   * are passed on untrimmed.
   */
  method PileCardsParam(param: string) returns (r: Result<seq<string>, ApiError>)
    ensures param == [] ==> r == Err(InvalidParameter)
    ensures r.Err? ==> r.error == InvalidParameter || r.error == DuplicateCards
    ensures r.Ok? <==> param != [] && DistinctEntries(Split(param, ','))
    ensures r.Ok? ==> r.value == Split(param, ',') && Join(r.value, ',') == param
    ensures param != [] && !DistinctEntries(Split(param, ',')) ==> r == Err(DuplicateCards)
  {
    if param == [] {
      return Err(InvalidParameter);
    }
    var parts := Split(param, ',');
    var dup := HasDuplicate(parts);
    if dup {
      return Err(DuplicateCards);
    }
    return Ok(parts);
  }

  // ---- counts ----

  /**
   * The `count` parameter of the draw routes: 1 when absent, otherwise a
   * decimal integer that must be positive.
   */
  function ParseCount(present: bool, value: string): (r: Result<int, ApiError>)
    ensures !present ==> r == Ok(1)
    ensures r.Ok? ==> 1 <= r.value <= MaxInt64
    ensures present ==> (r.Ok? <==> Atoi(value).Some? && Atoi(value).value > 0)
    ensures present && r.Ok? ==> Atoi(value) == Some(r.value)
    ensures r.Err? ==> r.error == InvalidParameter
  {
    if !present then Ok(1)
    else match Atoi(value)
      case None => Err(InvalidParameter)
      case Some(c) => if c <= 0 then Err(InvalidParameter) else Ok(c)
  }

  /** Every positive count written in decimal is read back as itself. */
  lemma ParseCountItoa(n: nat)
    requires 1 <= n <= MaxInt64
    ensures ParseCount(true, Itoa(n)) == Ok(n)
  {
    AtoiItoa(n);
  }

  /** A draw that returns no card is reported as an empty deck. */
  function DrawOutcome(cards: seq<Code>): (r: Result<seq<Code>, ApiError>)
    ensures r.Err? <==> |cards| == 0
    ensures r.Err? ==> r.error == DeckEmpty
    ensures r.Ok? ==> r.value == cards
  {
    if |cards| == 0 then Err(DeckEmpty) else Ok(cards)
  }

  /**
   * `newDeck`'s `deck_count`: 1 when absent; a non-number or a value not
   * above zero is an invalid parameter; a value above `maxDecks` is out of
   * range.
   */
  function DeckCount(value: string, maxDecks: int): (r: Result<int, ApiError>)
    ensures value == [] ==> r == Ok(1)
    ensures r.Ok? && value != [] ==> 1 <= r.value <= maxDecks && Atoi(value) == Some(r.value)
    ensures r == Err(InvalidParameter) <==> value != [] && (Atoi(value).None? || Atoi(value).value <= 0)
    ensures r == Err(ParameterOutOfRange) <==>
      (value != [] && Atoi(value).Some? && Atoi(value).value > 0 && Atoi(value).value > maxDecks)
    ensures value != [] && Atoi(value).Some? && 0 < Atoi(value).value <= maxDecks ==> r == Ok(Atoi(value).value)
  {
    if value == [] then Ok(1)
    else match Atoi(value)
      case None => Err(InvalidParameter)
      case Some(i) =>
        if i <= 0 then Err(InvalidParameter)
        else if i > maxDecks then Err(ParameterOutOfRange)
        else Ok(i)
  }

  /**
   * `newDeckShuffled`'s `deck_count`: ignores a value it cannot use
   * (keeping 1) and clamps a large one to `maxDecks`.
   */
  function ShuffledDeckCount(value: string, maxDecks: int): (n: int)
    requires maxDecks >= 1
    ensures 1 <= n <= maxDecks
    ensures n > 1 ==> Atoi(value).Some? && (n == Atoi(value).value || n == maxDecks)
    ensures Atoi(value).Some? && Atoi(value).value >= maxDecks ==> n == maxDecks
    ensures Atoi(value).None? || Atoi(value).value <= 0 ==> n == 1
    ensures Atoi(value).Some? && 0 < Atoi(value).value < maxDecks ==> n == Atoi(value).value
  {
    if value == [] then 1
    else match Atoi(value)
      case None => 1
      case Some(i) => if i > 0 then (if i < maxDecks then i else maxDecks) else 1
  }

  /** Wherever the strict handler accepts a count, the lenient one picks the same. */
  lemma DeckCountsAgree(value: string, maxDecks: int)
    requires maxDecks >= 1
    requires DeckCount(value, maxDecks).Ok?
    ensures ShuffledDeckCount(value, maxDecks) == DeckCount(value, maxDecks).value
  {
  }

  /**
   * `newDeck`'s custom list: too long a parameter is out of range, a
   * repeated code is rejected, and then every comma-separated piece,
   * untrimmed, must be a valid code.
   */
  method CustomDeckParam(param: string, limit: int) returns (r: Result<seq<Code>, ApiError>)
    ensures |param| > limit ==> r == Err(ParameterOutOfRange)
    ensures r.Ok? <==>
      (|param| <= limit && DistinctEntries(Split(param, ',')) && CustomDeckCards(Split(param, ',')).Some?)
    ensures r.Ok? ==> r.value == Split(param, ',')
    ensures r.Ok? ==> forall i, j :: 0 <= i < j < |r.value| ==> r.value[i] != r.value[j]
    ensures |param| <= limit && !DistinctEntries(Split(param, ',')) ==> r == Err(DuplicateCards)
    ensures |param| <= limit && DistinctEntries(Split(param, ',')) && CustomDeckCards(Split(param, ',')).None? ==>
      r == Err(InvalidCardCode)
  {
    var parts := Split(param, ',');
    if |param| > limit {
      return Err(ParameterOutOfRange);
    }
    var dup := HasDuplicate(parts);
    if dup {
      return Err(DuplicateCards);
    }
    var deck := NewCustomDeck(parts);
    if deck.Err? {
      return Err(InvalidCardCode);
    }
    forall i, j | 0 <= i < j < |parts| ensures parts[i] != parts[j] {
      TrimValid(parts[i]);
      TrimValid(parts[j]);
      assert !Repeated(parts, i, j);
    }
    return Ok(parts);
  }

  // ---- the img list ----

  datatype ImgRequest =
    | ReturnAll                       // no `img` parameter: return every card
    | ReturnCodes(codes: seq<string>) // the listed codes, one by one
    | NoCodes                         // a parameter that names no code: failure response

  /** The trimmed, non-blank pieces of a comma-separated list, in order. */
  function Requested(parts: seq<string>): (codes: seq<string>)
    ensures |codes| <= |parts|
  {
    if parts == [] then []
    else
      var c := TrimSpace(parts[|parts| - 1]);
      Requested(parts[..|parts| - 1]) + (if c != [] then [c] else [])
  }

  /**
   * `returnCardsHandler`'s `img` parameter: an absent (empty) parameter
   * returns everything; otherwise the pieces are trimmed and blank ones
   * dropped, and a parameter left with no code is a failure.
   */
  method ParseImg(param: string) returns (r: ImgRequest)
    ensures r == ReturnAll <==> param == []
    ensures r == NoCodes <==> param != [] && Requested(Split(param, ',')) == []
    ensures r.ReturnCodes? ==> r.codes == Requested(Split(param, ',')) && r.codes != []
  {
    if param == [] {
      return ReturnAll;
    }
    var parts := Split(param, ',');
    var requested: seq<string> := [];
    var k := 0;
    while k < |parts|
      invariant k <= |parts|
      invariant requested == Requested(parts[..k])
    {
      var c := TrimSpace(parts[k]);
      assert parts[..k + 1][..k] == parts[..k];
      if c != [] {
        requested := requested + [c];
      }
      k := k + 1;
    }
    assert parts[..k] == parts;
    if |requested| == 0 {
      return NoCodes;
    }
    return ReturnCodes(requested);
  }

  /** Every requested code is non-blank and has nothing left to trim. */
  lemma {:induction false} RequestedAreTrimmed(parts: seq<string>)
    ensures forall k :: 0 <= k < |Requested(parts)| ==> Trimmed(Requested(parts)[k])
  {
    if parts != [] {
      var init := parts[..|parts| - 1];
      RequestedAreTrimmed(init);
      TrimSpaceIdempotent(parts[|parts| - 1]);
    }
  }

  /** A code with nothing to trim. */
  predicate Trimmed(c: string) {
    c != [] && TrimSpace(c) == c
  }

  /** Listing trimmed codes asks for exactly those codes. */
  lemma {:induction false} RequestedOfTrimmed(codes: seq<string>)
    requires forall k :: 0 <= k < |codes| ==> Trimmed(codes[k])
    ensures Requested(codes) == codes
  {
    if codes != [] {
      var init := codes[..|codes| - 1];
      assert forall k :: 0 <= k < |init| ==> init[k] == codes[k];
      RequestedOfTrimmed(init);
      assert Trimmed(codes[|codes| - 1]);
      assert init + [codes[|codes| - 1]] == codes;
    }
  }

  /** The `img` parameter written from a list of trimmed codes is read back as that list. */
  lemma ParseImgRoundTrip(codes: seq<string>)
    requires codes != []
    requires forall k :: 0 <= k < |codes| ==> Trimmed(codes[k]) && ',' !in codes[k]
    ensures Join(codes, ',') != []
    ensures Requested(Split(Join(codes, ','), ',')) == codes
  {
    SplitJoin(codes, ',');
    RequestedOfTrimmed(codes);
  }
}
