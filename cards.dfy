/**
 * Card codes: a rank key followed by a suit key ("AS", "10H", "QD"), or a
 * joker "ZB"/"ZR".  `CodeValid` is the case-sensitive syntax check used
 * everywhere a code enters the system; `GetValue` and `GetSuit` look the
 * parts of a code up in the two fixed tables after trimming and
 * upper-casing it.
 */
module Cards {
  import opened Common
  import opened GoStrings

  type Code = string

  /** The rank table: rank key to rank name. */
  const Values: map<string, string> := map[
    "A" := "1", "2" := "2", "3" := "3", "4" := "4", "5" := "5", "6" := "6",
    "7" := "7", "8" := "8", "9" := "9", "10" := "10",
    "J" := "VALET", "Q" := "REINE", "K" := "ROI", "Z" := "JOKER"]

  /** The suit table: suit key to suit name. */
  const Suits: map<string, string> := map[
    "S" := "PIQUE", "H" := "COEUR", "D" := "CARREAU", "C" := "TREFLE"]

  /** The thirteen ranks of a packet, in dealing order, and their names. */
  const Ranks: seq<string> := ["A", "2", "3", "4", "5", "6", "7", "8", "9", "10", "J", "Q", "K"]
  const RankNames: seq<string> :=
    ["1", "2", "3", "4", "5", "6", "7", "8", "9", "10", "VALET", "REINE", "ROI"]

  /** The four suits of a packet, in dealing order, and their names. */
  const SuitKeys: seq<string> := ["S", "H", "D", "C"]
  const SuitNames: seq<string> := ["PIQUE", "COEUR", "CARREAU", "TREFLE"]

  /** A one-character rank key, the joker's `Z` included. */
  predicate IsRankChar(c: char) {
    c == 'A' || ('2' <= c <= '9') || c == 'J' || c == 'Q' || c == 'K' || c == 'Z'
  }

  /** A suit key. */
  predicate IsSuitChar(c: char) {
    c == 'S' || c == 'H' || c == 'D' || c == 'C'
  }

  /**
   * The syntax of a card code, case-sensitive: two characters (a
   * one-character rank key, then a suit key, or `Z` then `R`/`B`) or three
   * (`10` then a suit key).
   */
  function CodeValid(code: string): (ok: bool)
    ensures |code| != 2 && |code| != 3 ==> !ok
    ensures |code| == 2 ==>
      (ok <==> IsRankChar(code[0])
               && (if code[0] == 'Z' then code[1] == 'R' || code[1] == 'B' else IsSuitChar(code[1])))
    ensures |code| == 3 ==> (ok <==> code[0] == '1' && code[1] == '0' && IsSuitChar(code[2]))
  {
    if |code| == 2 then
      if [code[0]] !in Values then false
      else if code[0] == 'Z' then code[1] == 'R' || code[1] == 'B'
      else [code[1]] in Suits
    else if |code| == 3 then
      if code[..2] == "10" then
        if [code[2]] in Suits then Suits[[code[2]]] != "R" && Suits[[code[2]]] != "B" else false
      else false
    else false
  }

  /** The form in which `GetValue` and `GetSuit` read a code. */
  function Normalize(code: string): string {
    ToUpper(TrimSpace(code))
  }

  /** An upper-case letter or a digit. */
  predicate Alnum(c: char) {
    'A' <= c <= 'Z' || '0' <= c <= '9'
  }

  /** A valid code is spelled with upper-case letters and digits only. */
  lemma ValidIsAlnum(code: string)
    requires CodeValid(code)
    ensures forall k :: 0 <= k < |code| ==> Alnum(code[k])
  {
  }

  /** A valid code is not blank and has no surrounding blanks. */
  lemma TrimValid(code: string)
    requires CodeValid(code)
    ensures TrimSpace(code) == code && code != []
  {
    ValidIsAlnum(code);
    TrimSpaceNoEdges(code);
  }

  /** A valid code has neither surrounding blanks nor lower-case letters. */
  lemma NormalizeValid(code: string)
    requires CodeValid(code)
    ensures Normalize(code) == code
  {
    TrimValid(code);
    UpperValid(code);
  }

  /** A valid code has no lower-case letter to convert. */
  lemma UpperValid(code: string)
    requires CodeValid(code)
    ensures ToUpper(code) == code
  {
    ValidIsAlnum(code);
    assert ToUpper(code) == code;
  }

  /** Upper-casing keeps every character's blank-ness, so normalising twice changes nothing. */
  lemma NormalizeIdempotent(code: string)
    ensures Normalize(Normalize(code)) == Normalize(code)
  {
    var t := TrimSpace(code);
    var u := ToUpper(t);
    forall k | 0 <= k < |t| ensures IsSpace(u[k]) == IsSpace(t[k]) && UpperChar(u[k]) == u[k] { }
    TrimSpaceNoEdges(u);
    assert ToUpper(u) == u;
  }

  /** The lookups read a code only through its normal form. */
  lemma LookupsIgnoreCaseAndBlanks(code: string)
    ensures GetValue(Normalize(code)) == GetValue(code)
    ensures GetSuit(Normalize(code)) == GetSuit(code)
  {
    NormalizeIdempotent(code);
    SameNormalForm(Normalize(code), code);
  }

  /** The syntax check itself is case-sensitive, while the lookups are not. */
  lemma CaseSensitivity()
    ensures !CodeValid("as") && GetValue("as") == Ok("1")
  {
    LowerAceOfSpades();
    NormalizeValid("AS");
    SameNormalForm("as", "AS");
    assert CardCode(0, 0) == "AS";
    CardCodeValue(0, 0);
  }

  lemma LowerAceOfSpades()
    ensures Normalize("as") == "AS"
  {
    TrimSpaceNoEdges("as");
    assert ToUpper("as") == [UpperChar('a')] + ToUpper("s");
  }

  /** Codes with one normal form look up alike. */
  lemma SameNormalForm(a: string, b: string)
    requires Normalize(a) == Normalize(b)
    ensures GetValue(a) == GetValue(b) && GetSuit(a) == GetSuit(b)
  {
  }

  datatype CardError = InvalidCode | InvalidSuit(key: string)

  /**
   * The rank name of a code: the rank part is the first two characters of
   * a three-character code and the first character otherwise.
   */
  function GetValue(code: string): (r: Result<string, CardError>)
    ensures r.Ok? <==> CodeValid(Normalize(code))
    ensures r.Err? ==> r.error == InvalidCode
    ensures r.Ok? ==> r.value in Values.Values
    ensures r.Ok? ==> (r.value == "JOKER" <==> Normalize(code)[0] == 'Z')
    ensures r.Ok? ==> (r.value == "10" <==> |Normalize(code)| == 3)
  {
    var c := Normalize(code);
    if !CodeValid(c) then Err(InvalidCode)
    else
      var key := if |c| == 3 then c[..2] else c[..1];
      if key in Values then Ok(Values[key]) else Err(InvalidCode)
  }

  /**
   * The suit name of a code, read from its last character; jokers pass
   * the syntax check but have no suit.
   */
  function GetSuit(code: string): (r: Result<string, CardError>)
    ensures r.Ok? <==> CodeValid(Normalize(code)) && Normalize(code)[0] != 'Z'
    ensures r == Err(InvalidCode) <==> !CodeValid(Normalize(code))
    ensures r.Ok? ==> r.value in Suits.Values
  {
    var c := Normalize(code);
    if !CodeValid(c) then Err(InvalidCode)
    else
      var key := if |c| == 3 then c[2..] else c[1..];
      assert c[0] != 'Z' ==> key == [c[|c| - 1]] && key in Suits;
      if key in Suits then Ok(Suits[key]) else Err(InvalidSuit(key))
  }

  /** The code of the card of rank `i` and suit `s`. */
  function CardCode(i: nat, s: nat): Code
    requires i < |Ranks| && s < |SuitKeys|
  {
    Ranks[i] + SuitKeys[s]
  }

  /** The rank keys are the rank table's keys other than the joker's, named in order. */
  lemma RankTable(i: nat)
    requires i < |Ranks|
    ensures Ranks[i] in Values && Values[Ranks[i]] == RankNames[i]
    ensures i == 9 ==> Ranks[i] == "10"
    ensures i != 9 ==> |Ranks[i]| == 1 && IsRankChar(Ranks[i][0]) && Ranks[i][0] != 'Z'
  {
    if i < 5 {
      if i == 0 {} else if i == 1 {} else if i == 2 {} else if i == 3 {} else {}
    } else if i < 9 {
      if i == 5 {} else if i == 6 {} else if i == 7 {} else {}
    } else {
      if i == 9 {} else if i == 10 {} else if i == 11 {} else {}
    }
  }

  /** The suit keys are the suit table's keys, named in order. */
  lemma SuitTable(s: nat)
    requires s < |SuitKeys|
    ensures SuitKeys[s] in Suits && Suits[SuitKeys[s]] == SuitNames[s]
    ensures |SuitKeys[s]| == 1 && IsSuitChar(SuitKeys[s][0])
  {
    if s == 0 {} else if s == 1 {} else if s == 2 {} else {}
  }

  /** Every rank/suit pair spells a valid code: the rank key, then the suit key. */
  lemma CardCodeValid(i: nat, s: nat)
    requires i < |Ranks| && s < |SuitKeys|
    ensures CodeValid(CardCode(i, s)) && Normalize(CardCode(i, s)) == CardCode(i, s)
    ensures CardCode(i, s)[..|Ranks[i]|] == Ranks[i] && CardCode(i, s)[|Ranks[i]|..] == SuitKeys[s]
    ensures |CardCode(i, s)| == 3 <==> i == 9
  {
    RankTable(i);
    SuitTable(s);
    var c := CardCode(i, s);
    assert c[..|Ranks[i]|] == Ranks[i] && c[|Ranks[i]|..] == SuitKeys[s];
    NormalizeValid(c);
  }

  /** The value of a rank/suit pair's code is the rank's name. */
  lemma CardCodeValue(i: nat, s: nat)
    requires i < |Ranks| && s < |SuitKeys|
    ensures GetValue(CardCode(i, s)) == Ok(RankNames[i])
  {
    CardCodeValid(i, s);
    RankTable(i);
  }

  /** The suit of a rank/suit pair's code is the suit's name. */
  lemma CardCodeSuit(i: nat, s: nat)
    requires i < |Ranks| && s < |SuitKeys|
    ensures GetSuit(CardCode(i, s)) == Ok(SuitNames[s])
  {
    var c := CardCode(i, s);
    CardCodeValid(i, s);
    assert c[0] != 'Z';
    assert (if |c| == 3 then c[2..] else c[1..]) == SuitKeys[s];
    SuitTable(s);
  }

  /** The jokers are valid codes named "JOKER". */
  lemma JokerValue(c: Code)
    requires c == "ZB" || c == "ZR"
    ensures CodeValid(c)
    ensures GetValue(c) == Ok("JOKER")
  {
    NormalizeValid(c);
  }

  /** The jokers have no suit: their last character is no suit key. */
  lemma JokerSuit(c: Code)
    requires c == "ZB" || c == "ZR"
    ensures CodeValid(c)
    ensures GetSuit(c) == Err(InvalidSuit([c[1]]))
  {
    NormalizeValid(c);
  }
}
