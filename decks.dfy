/**
 * In-memory decks as the HTTP layer builds them before storing: a
 * multi-packet deck, a custom deck from a list of codes, and the
 * Fisher-Yates shuffle of the card list.
 */
module Decks {
  import opened Common
  import opened GoStrings
  import opened Cards
  import opened Shuffles

  /** One packet in dealing order: ranks outermost, suits innermost. */
  function Suited(): (cards: seq<Code>)
    ensures |cards| == 52
    ensures forall k :: 0 <= k < 52 ==> cards[k] == CardCode(k / 4, k % 4)
  {
    seq(52, k requires 0 <= k < 52 => CardCode(k / 4, k % 4))
  }

  /** The card dealt after the first `4 * v + s` of a packet has rank `v` and suit `s`. */
  lemma DealtNext(v: nat, s: nat)
    requires v < |Ranks| && s < |SuitKeys|
    ensures Suited()[..4 * v + s + 1] == Suited()[..4 * v + s] + [CardCode(v, s)]
  {
    assert (4 * v + s) / 4 == v && (4 * v + s) % 4 == s;
  }

  /** The jokers appended to a packet when they are asked for. */
  function JokerCards(jokers: bool): seq<Code> {
    if jokers then ["ZB", "ZR"] else []
  }

  /** A packet: the 52 suited cards, then the jokers if any. */
  function Packet(jokers: bool): seq<Code> {
    Suited() + JokerCards(jokers)
  }

  function PacketSize(jokers: bool): nat {
    if jokers then 54 else 52
  }

  /** `number` packets one after another; none when `number` is not positive. */
  function MultiDeckCards(number: int, jokers: bool): seq<Code>
    decreases number
  {
    if number <= 0 then [] else MultiDeckCards(number - 1, jokers) + Packet(jokers)
  }

  /** The deck holds `number` packets' worth of cards. */
  lemma {:induction false} MultiDeckLength(number: int, jokers: bool)
    ensures |MultiDeckCards(number, jokers)| == if number <= 0 then 0 else number * PacketSize(jokers)
    decreases number
  {
    if number > 0 {
      MultiDeckLength(number - 1, jokers);
    }
  }

  /** Packet `p` of the deck sits at positions `p * size ..< (p + 1) * size`. */
  lemma {:induction false} MultiDeckPackets(number: int, jokers: bool, p: nat)
    requires p < number
    ensures |MultiDeckCards(number, jokers)| == number * PacketSize(jokers)
    ensures MultiDeckCards(number, jokers)[p * PacketSize(jokers)..(p + 1) * PacketSize(jokers)] == Packet(jokers)
    decreases number
  {
    var size := PacketSize(jokers);
    MultiDeckLength(number, jokers);
    MultiDeckLength(number - 1, jokers);
    var prev := MultiDeckCards(number - 1, jokers);
    if p < number - 1 {
      MultiDeckPackets(number - 1, jokers, p);
      assert MultiDeckCards(number, jokers)[p * size..(p + 1) * size] == prev[p * size..(p + 1) * size];
    } else {
      assert p * size == |prev|;
    }
  }

  /** Every card of a packet, jokers included, passes the syntax check. */
  lemma PacketValid(jokers: bool)
    ensures forall c :: c in Packet(jokers) ==> CodeValid(c)
  {
    forall c | c in Packet(jokers) ensures CodeValid(c) {
      var k :| 0 <= k < |Packet(jokers)| && Packet(jokers)[k] == c;
      if k < 52 {
        CardCodeValid(k / 4, k % 4);
      } else {
        JokerValue(c);
      }
    }
  }

  /** Every card of a multi-packet deck passes the syntax check. */
  lemma {:induction false} MultiDeckValid(number: int, jokers: bool)
    ensures forall c :: c in MultiDeckCards(number, jokers) ==> CodeValid(c)
    decreases number
  {
    if number > 0 {
      MultiDeckValid(number - 1, jokers);
      PacketValid(jokers);
    }
  }

  /** Conversely, every valid code is a card of a packet with jokers. */
  lemma ValidIsListed(c: Code)
    requires CodeValid(c)
    ensures c in Packet(true)
  {
    if c[0] == 'Z' && |c| == 2 {
      assert c == Packet(true)[52] || c == Packet(true)[53];
    } else {
      var i := if |c| == 3 then 9 else RankIndex(c[0]);
      var s := SuitIndex(c[|c| - 1]);
      assert c == CardCode(i, s) by { RankTable(i); SuitTable(s); }
      SuitedListsCard(i, s);
    }
  }

  /** The card of rank `i` and suit `s` is dealt at position `4 * i + s` of a packet. */
  lemma SuitedListsCard(i: nat, s: nat)
    requires i < |Ranks| && s < |SuitKeys|
    ensures Packet(true)[4 * i + s] == CardCode(i, s)
  {
    assert (4 * i + s) / 4 == i && (4 * i + s) % 4 == s;
  }

  /** The rank of a one-character rank key other than `Z`. */
  function RankIndex(ch: char): (i: nat)
    requires IsRankChar(ch) && ch != 'Z'
    ensures i < |Ranks| && i != 9 && Ranks[i] == [ch]
  {
    if ch == 'A' then 0 else if ch == 'J' then 10 else if ch == 'Q' then 11
    else if ch == 'K' then 12 else ch as int - '1' as int
  }

  /** The suit of a suit key. */
  function SuitIndex(ch: char): (s: nat)
    requires IsSuitChar(ch)
    ensures s < |SuitKeys| && SuitKeys[s] == [ch]
  {
    if ch == 'S' then 0 else if ch == 'H' then 1 else if ch == 'D' then 2 else 3
  }

  /** The reference for `CodeValid`: a code is valid exactly when a packet with jokers lists it. */
  lemma CodeValidIffListed(c: Code)
    ensures CodeValid(c) <==> c in Packet(true)
  {
    if CodeValid(c) {
      ValidIsListed(c);
    }
    PacketValid(true);
  }

  /** The cards of `NewCustomDeck`, or `None` as soon as one code is invalid. */
  function CustomDeckCards(codes: seq<string>): (r: Option<seq<Code>>)
    ensures r.Some? <==> forall k :: 0 <= k < |codes| ==> CodeValid(codes[k])
    ensures r.Some? ==> r.value == codes
  {
    if |codes| == 0 then Some([])
    else if !CodeValid(codes[|codes| - 1]) then None
    else match CustomDeckCards(codes[..|codes| - 1])
      case None => None
      case Some(cs) =>
        UpperValid(codes[|codes| - 1]);
        Some(cs + [ToUpper(codes[|codes| - 1])])
  }

  /** An in-memory deck; the storage engine keeps its own copy of the cards. */
  class Deck {
    var cards: seq<Code>
    var nPackets: int

    /** `NewMultiDeck`: `number` packets, each in dealing order. */
    constructor NewMultiDeck(number: int, jokers: bool)
      ensures cards == MultiDeckCards(number, jokers)
      ensures nPackets == number
    {
      var acc: seq<Code> := [];
      var i := 0;
      while i < number
        invariant i <= number || (number < 0 && i == 0)
        invariant acc == MultiDeckCards(i, jokers)
        decreases number - i
      {
        var prefix := acc;
        var v := 0;
        while v < |Ranks|
          invariant v <= |Ranks|
          invariant acc == prefix + Suited()[..4 * v]
        {
          var s := 0;
          while s < |SuitKeys|
            invariant s <= |SuitKeys|
            invariant acc == prefix + Suited()[..4 * v + s]
          {
            DealtNext(v, s);
            acc := acc + [Ranks[v] + SuitKeys[s]];
            s := s + 1;
          }
          v := v + 1;
        }
        assert Suited()[..52] == Suited();
        if jokers {
          acc := acc + ["ZB", "ZR"];
        }
        i := i + 1;
      }
      cards := acc;
      nPackets := number;
    }

    /** A deck holding exactly `cards`. */
    constructor FromCards(cards: seq<Code>)
      ensures this.cards == cards && nPackets == 0
    {
      this.cards := cards;
      nPackets := 0;
    }

    /**
     * `Shuffle`: for each position `i` in turn, exchange it with the
     * position the random draw `js[i]` picks among `0..i`.
     */
    method Shuffle(js: seq<nat>)
      modifies this`cards
      ensures cards == Shuffled(old(cards), js)
      ensures multiset(cards) == multiset(old(cards))
    {
      var before := cards;
      var shuffled := cards;
      var i := 0;
      while i < |shuffled|
        invariant i <= |shuffled| == |before|
        invariant shuffled == Swaps(before, js, i)
      {
        var j := Choice(js, i);
        shuffled := Swap(shuffled, i, j);
        i := i + 1;
      }
      cards := shuffled;
      ShuffledPermutes(before, js);
    }
  }

  datatype DeckError = InvalidDeckCode

  /** `NewCustomDeck`: all codes valid, or no deck at all. */
  method NewCustomDeck(codes: seq<string>) returns (r: Result<Deck, DeckError>)
    ensures r.Ok? <==> forall k :: 0 <= k < |codes| ==> CodeValid(codes[k])
    ensures r.Ok? ==> r.value.cards == codes
  {
    var cards: seq<Code> := [];
    var k := 0;
    while k < |codes|
      invariant k <= |codes|
      invariant CustomDeckCards(codes[..k]) == Some(cards)
    {
      if !CodeValid(codes[k]) {
        assert !CodeValid(codes[..k + 1][k]);
        return Err(InvalidDeckCode);
      }
      assert codes[..k + 1][..k] == codes[..k];
      cards := cards + [ToUpper(codes[k])];
      k := k + 1;
    }
    assert codes[..k] == codes;
    var d := new Deck.FromCards(cards);
    return Ok(d);
  }
}
