# Deck-of-cards store, modelled in Dafny

This project models the storage engine of a deck-of-cards web service.
Decks are created from standard or custom card lists and shuffled. Cards
are drawn from the top of a deck, put into named piles, drawn from those
piles, and returned to the deck. The engine keeps this state in five
SQLite tables:

- `Deck` holds each deck's top card.
- `DeckCard` stores one singly linked list per deck.
- `Pile` holds named piles, unique per deck.
- `PileCard` stores one linked list per pile.
- `DeckEntry` is a per-code ledger of how many copies a deck has in total,
  in its list and in its piles.

The model has four parts:

- **Cards and deck construction.** Card-code syntax and look-ups, multi-packet and custom decks, and the in-memory Fisher–Yates shuffle (`Cards`, `Decks`, `Shuffles`).
- **The engine** (`Tables`, `Chains`, `Stacks`, `Deck*`, `Pile*`, `ReturnOps`, `Engine`):
  - The database is one value `Db`, with one map per table and the AUTOINCREMENT counters.
  - A ghost `Orders` value gives the list order of every deck and pile.
  - The invariant `Tables.Inv` has three parts:
    - the keys and constraints the schema enforces;
    - every deck and every pile is one well-formed list (`IsChain`: linked, no repeats, exactly the owner's rows, the head is the stored top);
    - the ledger: `inDeck` and `inPile` count the rows actually present, and `inDeck + inPile <= total`.
- **The transactions.** Each one is a method on values, `XTx(db, ord, ...) returns (t, o, ...)`. It requires `Inv`, ensures `Inv` again, and states exactly what each list now reads and what the ledger now counts. On failure it hands back the tables unchanged: these are the committed tables, since a failed transaction never commits (see Left out for what happens to it instead). The class `Engine.Store` owns the tables and runs each transaction on them.
- **The HTTP layer's pure parts.** The error-to-status mapping and the request-parameter checks (`ApiErrors`, `Requests`, with the Go string functions they use in `GoStrings`).

Conventions:

- Randomness is a parameter: the token bytes, the shuffle draws and the random pick index.
- Result sets without `ORDER BY` are read in ascending id order. This is a fixed order the model chooses, not one the schema guarantees.
- Go map iteration is an arbitrary choice (`:|`).

## Model

| member | source | states |
|---|---|---|
| ApiErrors.HttpStatus | TP1/deckofcards/api/error.go:39-76 | 404 exactly for the four "missing" errors; 400 exactly for the seven bad-request errors; 503 only for a timeout, 409 only for a concurrent modification, 500 only for a database or unknown error |
| ApiErrors.WriteError | TP1/deckofcards/api/error.go:79-94 | the response carries the error's status and `success = false`; the deck id is replaced by `invalid_id` exactly when the error is "deck not found" |
| ApiErrors.RewrittenIdIsNotFound | TP1/deckofcards/api/error.go:80-85 | whenever the response's deck id differs from the one given, the status is 404 and the id is `invalid_id` |
| Cards.CodeValid | TP1/deckofcards/models/card.go:31-51 | a code is valid iff it is two characters (a rank key other than `10`, then a suit key, or `Z` then `R`/`B`) or three characters (`10` then a suit key) |
| Cards.ValidIsAlnum | TP1/deckofcards/models/card.go:31-51 | a valid code contains only upper-case letters and digits |
| Cards.TrimValid | TP1/deckofcards/models/card.go:55 | trimming a valid code changes nothing, and a valid code is non-empty |
| Cards.UpperValid | TP1/deckofcards/models/deck.go:55 | upper-casing a valid code changes nothing, so the custom deck stores the codes as given |
| Cards.NormalizeValid | TP1/deckofcards/models/card.go:55 | trim-then-upper-case leaves a valid code unchanged |
| Cards.NormalizeIdempotent | TP1/deckofcards/models/card.go:55 | normalising a code twice is normalising it once |
| Cards.LookupsIgnoreCaseAndBlanks | TP1/deckofcards/models/card.go:54-89 | `GetValue` and `GetSuit` give the same answer on a code and on its normal form |
| Cards.SameNormalForm | TP1/deckofcards/models/card.go:54-89 | two codes with the same normal form get the same value and the same suit |
| Cards.CaseSensitivity | TP1/deckofcards/models/card.go:31-56 | `"as"` fails the syntax check itself, yet its value look-up succeeds with `"1"` |
| Cards.GetValue | TP1/deckofcards/models/card.go:54-70 | succeeds iff the normalised code is valid, otherwise fails with "invalid code"; the value is a rank name; it is `JOKER` iff the code starts with `Z`, and `10` iff the code has three characters |
| Cards.GetSuit | TP1/deckofcards/models/card.go:73-89 | succeeds iff the normalised code is valid and no joker; fails with "invalid code" iff the normalised code is invalid; the result is a suit name |
| Cards.RankTable | TP1/deckofcards/models/card.go:8-23 | each dealt rank key is a key of the value table, with the rank's name; only the tenth is two characters |
| Cards.SuitTable | TP1/deckofcards/models/card.go:24-29 | each dealt suit key is a key of the suit table, with the suit's name |
| Cards.CardCodeValid | TP1/deckofcards/models/deck.go:29-34 | rank key followed by suit key is a valid code in normal form; it has three characters exactly for `10` |
| Cards.CardCodeValue | TP1/deckofcards/models/card.go:54-70 | the value of a dealt card's code is its rank's name |
| Cards.CardCodeSuit | TP1/deckofcards/models/card.go:73-89 | the suit of a dealt card's code is its suit's name |
| Cards.JokerValue | TP1/deckofcards/models/card.go:37-38 | `ZB` and `ZR` are valid codes whose value is `JOKER` |
| Cards.JokerSuit | TP1/deckofcards/models/card.go:84-87 | the suit look-up of a joker fails with "invalid suit" naming its last letter |
| Decks.Suited | TP1/deckofcards/models/deck.go:29-36 | one packet has 52 cards; position `k` holds rank `k / 4` and suit `k % 4` |
| Decks.MultiDeckLength | TP1/deckofcards/models/deck.go:31-40 | `NewMultiDeck(number, jokers)` holds `number` packets of 52 (54 with jokers), and none when `number <= 0` |
| Decks.MultiDeckPackets | TP1/deckofcards/models/deck.go:31-40 | the `p`-th slice of one packet's length is exactly one packet |
| Decks.PacketValid | TP1/deckofcards/models/deck.go:29-39 | every card of a packet, jokers included, passes `CodeValid` |
| Decks.MultiDeckValid | TP1/deckofcards/models/deck.go:26-44 | every card of a multi-packet deck passes `CodeValid` |
| Decks.ValidIsListed | TP1/deckofcards/models/card.go:31-51 | every valid code is a card of a packet with jokers |
| Decks.CodeValidIffListed | TP1/deckofcards/models/card.go:31-51 | a code is valid iff a packet with jokers lists it (the reference definition of the syntax) |
| Decks.CustomDeckCards | TP1/deckofcards/models/deck.go:48-58 | gives the codes unchanged iff every code is valid, and nothing otherwise |
| Decks.Deck.NewMultiDeck | TP1/deckofcards/models/deck.go:26-44 | the new deck holds `number` packets in dealing order and records `number` packets |
| Decks.Deck.Shuffle | TP1/deckofcards/models/deck.go:61-68 | the cards become the forward swap shuffle of the old cards under the draws, and they are a permutation of the old cards |
| Decks.NewCustomDeck | TP1/deckofcards/models/deck.go:48-58 | returns a deck iff every code is valid; the deck holds the codes in order |
| Shuffles.ShuffledPermutes | TP1/deckofcards/models/deck.go:61-68 | whatever the draws, the forward shuffle is a permutation (same multiset, same length) |
| Shuffles.DownShuffledPermutes | TP1/deckofcards/database/deck.go:592-595 | whatever the draws, the downward shuffle is a permutation |
| GoStrings.TrimSpace | TP1/deckofcards/models/card.go:55 | the result is no longer than the input and has no white space at either end |
| GoStrings.TrimSpaceInfix | TP1/deckofcards/models/card.go:55 | the result is the infix left after the leading white space, and everything cut is white space |
| GoStrings.TrimSpaceIdempotent | TP1/deckofcards/models/card.go:55 | trimming twice is trimming once |
| GoStrings.ToUpper | TP1/deckofcards/models/card.go:55 | same length; each character maps to its upper-case letter |
| GoStrings.Contains | TP1/deckofcards/api/apiHandler.go:50 | `sub` occurs in `s` iff there is a position where it occurs |
| GoStrings.Split | TP1/deckofcards/api/apiHandler.go:322 | at least one piece; no piece holds the separator; joining the pieces gives the input back |
| GoStrings.SplitJoin | TP1/deckofcards/api/apiHandler.go:322 | splitting the join of separator-free pieces gives the pieces back |
| GoStrings.Atoi | TP1/deckofcards/api/apiHandler.go:377 | a parsed value fits in 64 bits, and only non-empty text parses |
| GoStrings.AtoiItoa | TP1/deckofcards/api/apiHandler.go:377 | parsing the decimal spelling of any natural number up to 2^63-1 gives it back |
| Requests.CheckImageName | TP1/deckofcards/api/apiHandler.go:50-58 | rejected as an invalid name iff it contains `..`, `/` or `\`; an accepted name ends in `.svg` and has no slash; "not svg" iff the name is not invalid and lacks `.svg` |
| Requests.SeenCodesWitness | TP1/deckofcards/api/apiHandler.go:329-340 | a code is in the `seen` set iff an earlier entry trims to it and is not blank |
| Requests.HasDuplicate | TP1/deckofcards/api/apiHandler.go:329-340 | reports a duplicate iff two entries trim to the same non-blank code |
| Requests.PileCardsParam | TP1/deckofcards/api/apiHandler.go:316-342 | an empty parameter is an invalid parameter; otherwise accepted iff no two entries repeat, a repeat being answered with the duplicate-cards error; the untrimmed pieces are passed on |
| Requests.ParseCount | TP1/deckofcards/api/apiHandler.go:375-383 | 1 when absent; when present, accepted iff `Atoi` gives a positive number, which is the result; otherwise an invalid parameter |
| Requests.ParseCountItoa | TP1/deckofcards/api/apiHandler.go:375-383 | every positive 64-bit count written in decimal is read back as itself |
| Requests.DrawOutcome | TP1/deckofcards/api/apiHandler.go:395-398 | fails with "deck empty" iff no card was drawn, otherwise passes the cards on |
| Requests.DeckCount | TP1/deckofcards/api/apiHandler.go:659-669 | 1 when absent; an invalid parameter iff the value does not parse to a positive number; out of range iff it exceeds the maximum; otherwise the parsed value |
| Requests.ShuffledDeckCount | TP1/deckofcards/api/apiHandler.go:731-736 | always between 1 and the maximum; 1 for an absent, unparsable or non-positive value; a positive value below the maximum is taken as is; a value at or above the maximum gives the maximum |
| Requests.DeckCountsAgree | TP1/deckofcards/api/apiHandler.go:731-736 | wherever the strict handler accepts a count, the lenient one picks the same count |
| Requests.CustomDeckParam | TP1/deckofcards/api/apiHandler.go:626-651 | too long a parameter is out of range; accepted iff it is within the limit, has no repeated entry and has only valid codes; a repeated entry gives the duplicate-cards error and otherwise an invalid code gives the invalid-card-code error; the deck is the pieces |
| Requests.ParseImg | TP1/deckofcards/api/apiHandler.go:81-98 | "return all" iff the parameter is absent; "no codes" iff it lists only blanks; otherwise the trimmed non-blank pieces |
| Requests.RequestedAreTrimmed | TP1/deckofcards/api/apiHandler.go:85-90 | every requested code is non-blank and already trimmed |
| Requests.ParseImgRoundTrip | TP1/deckofcards/api/apiHandler.go:81-90 | the list written from trimmed, comma-free codes is read back as those codes |
| Chains.ListedCount | TP1/deckofcards/database/creation.go:52-61 | along a list without repeats, the rows holding `c` are as many as the copies of `c` the list reads |
| Chains.ChainRows | TP1/deckofcards/database/creation.go:44-51 | in a chain, the owner's rows holding `c` are exactly the listed rows holding `c` |
| Chains.ChainPop | TP1/deckofcards/database/deck.go:1217 | deleting the head row leaves the rest of the list as the owner's chain |
| Chains.ChainRelink | TP1/deckofcards/database/deck.go:608-615 | relinking the owner's rows along a rearrangement of its list gives the chain in the new order |
| Chains.ChainsApart | TP1/deckofcards/database/creation.go:24-31 | two owners' chains share no id |
| Chains.ChainSize | TP1/deckofcards/database/deck.go:1158 | an owner has exactly as many rows as its chain is long |
| Chains.Ascending | TP1/deckofcards/database/deck.go:448 | lists a set's ids once each, in ascending order |
| Stacks.Reverse | TP1/deckofcards/database/deck.go:1126 | same length; position `k` holds the element at `|s| - 1 - k` |
| Stacks.ReverseMultiset | TP1/deckofcards/database/deck.go:1126-1134 | reversing keeps the multiset |
| Stacks.ReverseReverse | TP1/deckofcards/database/deck.go:1126-1134 | reversing twice gives the sequence back |
| Stacks.PushRows | TP1/deckofcards/database/deck.go:183-193 | the insert loop adds row `base + k + 1` for the `k`-th code, pointing to the previous new row (the first to the old top) and keeping every old row |
| Stacks.PushedChain | TP1/deckofcards/database/deck.go:183-193 | after the pushes, the owner's chain is the new ids (last pushed first) followed by the old list, and reads the pushed codes reversed, then the old codes |
| Stacks.PushedCount | TP1/deckofcards/database/deck.go:183-193 | the owner gains one row of `c` per push of `c`; every other owner keeps its count |
| Tables.FindPile | TP1/deckofcards/database/deck.go:522 | the pile found belongs to deck `d` and has the name; none is found iff no pile has that deck and name |
| Tables.InDeckIsMultiplicity | TP1/deckofcards/database/creation.go:52-61 | under the invariant, `inDeck` is the code's multiplicity in the deck's list |
| Tables.DeckRowCount | TP1/deckofcards/database/deck.go:1158 | under the invariant, a deck has as many rows as its list is long; an unknown deck has none |
| DeckBuild.Encode62 | TP1/deckofcards/database/deck.go:21-23 | same length as the bytes; each character is the base-62 digit of its byte modulo 62 |
| DeckBuild.Token | TP1/deckofcards/database/deck.go:15-25 | a token exactly when the read succeeds with at least `n` bytes; the token has `n` characters, all base-62 |
| DeckBuild.TokenSearch | TP1/deckofcards/database/deck.go:34-53 | a token found is held by no deck and has the token length; a failure is a random-source error or "no unique id" |
| DeckBuild.NoUniqueIdMeansTaken | TP1/deckofcards/database/deck.go:34-53 | the search reports "no unique id" only when every token it drew was taken |
| DeckBuild.Tally | TP1/deckofcards/database/deck.go:72-83 | the tally's keys are the cards' codes, and each count is that code's multiplicity |
| DeckBuild.Fresh | TP1/deckofcards/database/deck.go:72-83 | the next `n` AUTOINCREMENT ids, ascending |
| DeckBuild.Upsert | TP1/deckofcards/database/deck.go:97-102 | adds the ledger row for the code when missing; on conflict sets `total` and `inDeck` to the count and keeps `inPile`; every other row is unchanged |
| DeckBuild.InsertedKeeps | TP1/deckofcards/database/deck.go:28-119 | after `InsertDeck` the invariant holds; the new deck reads `cards` in order; every other deck reads as before |
| DeckOps.RandomBase62 | TP1/deckofcards/database/deck.go:15-25 | succeeds iff the read gives `n` bytes; the token has length `n`, in base-62 characters; otherwise fails with a random-source error |
| DeckOps.PickToken | TP1/deckofcards/database/deck.go:34-53 | the loop's outcome is `TokenSearch` of the taken ids and the draws |
| DeckOps.InsertRows | TP1/deckofcards/database/deck.go:72-83 | one unlinked row per card under the fresh ids, old rows kept; the ids are `Fresh` and the counts are `Tally(cards)` |
| DeckOps.LinkRows | TP1/deckofcards/database/deck.go:85-90 | every new row points to the next new row, the last to nothing |
| DeckOps.EnterCounts | TP1/deckofcards/database/deck.go:97-102 | every tallied code gets its ledger row (`total = inDeck = count`, `inPile = 0`); other decks' rows are unchanged |
| DeckOps.InsertDeckTx | TP1/deckofcards/database/deck.go:28-119 | keeps the invariant; the result is `TokenSearch`; nothing changes on failure; on success the deck is added with its top at the first new row, its rows listed in card order and its ledger built |
| DeckOps.BuildDeck | TP1/deckofcards/database/deck.go:68-102 | once the token is fresh, the deck, its rows and its ledger rows are built as `Inserted` says |
| DeckOps.Clamp | TP1/deckofcards/database/deck.go:1162-1164 | the number drawn never exceeds the cards held; `amount` when it fits, the count held when not, none for a non-positive amount |
| DeckOps.DrawCardsTx | TP1/deckofcards/database/deck.go:1151-1260 | keeps the invariant; draws `Clamp(amount, held)` cards, which are the first cards of the deck's list; `remaining` is what is left; the store is that many pops of the top |
| DeckOps.DrawTops | TP1/deckofcards/database/deck.go:1184-1222 | `n` pops of the top; the codes are those read off in turn |
| DeckOps.ShuffleDeckTx | TP1/deckofcards/database/deck.go:553-639 | keeps the invariant; an unknown deck fails unchanged; otherwise returns the codes in the shuffled order, a permutation of the deck's list; a non-empty deck is relinked along that order, its top is the first and it is marked shuffled |
| DeckOps.ShuffleIds | TP1/deckofcards/database/deck.go:592-595 | the result is `DownShuffled` of the ids under the draws |
| DeckOps.RelinkRows | TP1/deckofcards/database/deck.go:608-615 | each listed row points to the next in the order, the last to nothing; everything else is unchanged |
| DeckOps.ReadCodes | TP1/deckofcards/database/deck.go:624-627 | the codes of the listed rows, in list order |
| DeckMoves.Adjust | TP1/deckofcards/database/deck.go:1199 | keeps the ledger's keys and leaves every row but the one of the deck and code unchanged |
| DeckMoves.PopTopKeeps | TP1/deckofcards/database/deck.go:1184-1222 | one turn of the drawing loop on a deck holding cards keeps the invariant, and the deck reads as before without its first card |
| DeckMoves.DrawKeeps | TP1/deckofcards/database/deck.go:1184-1222 | drawing `n` cards, no more than the deck holds, keeps the invariant |
| DeckMoves.TopsWhileHeld | TP1/deckofcards/database/deck.go:1189-1196 | the loop finds a top card on each of its turns while the deck still has rows, so the "no top" branch is never taken |
| DeckMoves.DrawnIsList | TP1/deckofcards/database/deck.go:1184-1222 | the first `n` turns read exactly the first `n` codes of the deck's list |
| DeckShuffle.ShuffleOrderIds | TP1/deckofcards/database/deck.go:567-595 | the shuffled order lists the deck's ids once each, exactly those of its list |
| DeckShuffle.ReshuffledKeeps | TP1/deckofcards/database/deck.go:553-639 | relinking the deck along the shuffled order keeps the invariant; the deck reads the order's codes; every other deck reads as before |
| DeckReturns.ReturnKeeps | TP1/deckofcards/database/deck.go:1124-1140 | pushing codes the deck has room for keeps the invariant; the deck reads them reversed above its old list |
| DeckReturns.EmptiedKeeps | TP1/deckofcards/database/deck.go:1104-1121 | deleting a pile's rows and uncounting exactly its codes keeps the invariant and leaves the pile empty |
| DeckReturns.EmptiedRoom | TP1/deckofcards/database/deck.go:1104-1121 | the emptied pile's codes all fit back in its deck's ledger |
| PileMoves.First | TP1/deckofcards/database/deck.go:766 | the smallest id of a non-empty set, none for the empty set |
| PileMoves.TopIsHead | TP1/deckofcards/database/deck.go:174 | under the invariant, the row that no row of the pile points to is the head of its list, and is unique |
| PileMoves.BottomIsTail | TP1/deckofcards/database/deck.go:669 | under the invariant, the row pointing to nothing is the tail of the pile's list |
| PileMoves.AboveIsPrevious | TP1/deckofcards/database/deck.go:710 | under the invariant, the row pointing to the `k`-th row is the `(k-1)`-th, and none exists for the head |
| PileMoves.TakeKeeps | TP1/deckofcards/database/deck.go:722-733 | taking the `k`-th row out (relink the one above, delete, uncount in piles) keeps the invariant; the pile reads as before without that card |
| PileMoves.NewPileKeeps | TP1/deckofcards/database/deck.go:158-171 | a new, empty pile for an existing deck, under an unused name, keeps the invariant |
| PileMoves.Reserve | TP1/deckofcards/database/deck.go:138-156 | success keeps the ledger's keys; a failure is "card not found" or "not available" |
| PileMoves.ReserveSpec | TP1/deckofcards/database/deck.go:138-156 | succeeds iff every code has a ledger row with room for all its copies among those neither in the list nor in piles; the ledger is then raised by the codes; "card not found" only when some code has no ledger row |
| PileMoves.PlacedKeeps | TP1/deckofcards/database/deck.go:174-193 | after a successful reservation, placing the codes keeps the invariant; the pile reads them reversed above its old list |
| PileMoves.ScanListsPile | TP1/deckofcards/database/deck.go:1069-1086 | the codes read by ascending row id are the pile's list up to order |
| PileOps.ReserveAll | TP1/deckofcards/database/deck.go:138-156 | the loop's outcome is `Reserve` |
| PileOps.PlaceCards | TP1/deckofcards/database/deck.go:174-193 | the codes are pushed onto the pile as `Placed` says, starting from the head of its list |
| PileOps.InsertIntoPileTx | TP1/deckofcards/database/deck.go:122-225 | keeps the invariant. A failed reservation fails with its error. A new pile for an unknown deck fails. Nothing changes on failure. Otherwise the found or newly created pile reads the codes reversed above its old list, other piles and decks are unchanged, and the ledger is raised by the codes |
| PileOps.PileTable | TP1/deckofcards/database/deck.go:240-265 | exactly the rows of pile `p`, unchanged |
| PileOps.FollowPile | TP1/deckofcards/database/deck.go:295-314 | the walk is `Follow`: it reads codes along the links and fails on a revisited row or a missing row |
| PileOps.ReadPile | TP1/deckofcards/database/deck.go:228-316 | unknown pile → "pile not found"; no rows → empty; no unreferenced row → "no top card"; otherwise the walk from the top found |
| PileOps.PileTableWalk | TP1/deckofcards/database/deck.go:295-314 | under the invariant, the walk from the head reads the pile's list and never fails |
| PileOps.GetPileCards | TP1/deckofcards/database/deck.go:228-324 | under the invariant: unknown pile → "pile not found", otherwise exactly the pile's list, top first |
| PileOps.CardsInDeckIsLength | TP1/deckofcards/database/deck.go:327-346 | the join count is the length of the deck's list, and 0 for an unknown deck |
| PileOps.CardsInPileIsLength | TP1/deckofcards/database/deck.go:349-368 | the join count is the length of the pile's list, and 0 for a missing pile |
| PileOps.PileNamesFound | TP1/deckofcards/database/deck.go:376-382 | a name is one of the deck's pile names iff the deck has a pile by that name |
| PileOps.ListPiles | TP1/deckofcards/database/deck.go:371-404 | the keys are exactly the deck's pile names; each value is that pile's card count |
| PileOps.ShuffleOnePile | TP1/deckofcards/database/deck.go:446-489 | the pile is shuffled as `ShufflePile` says; the count is the pile's number of rows |
| PileOps.ShuffleAllPiles | TP1/deckofcards/database/deck.go:424-498 | every pile of the deck, by ascending id, is shuffled with its own draws; the result maps each pile name to its card count |
| PileOps.ShuffleAllKeeps | TP1/deckofcards/database/deck.go:446-489 | shuffling every pile of the deck keeps the invariant; each pile is relinked along its shuffled order |
| PileOps.ShuffleAllPilesTx | TP1/deckofcards/database/deck.go:405-512 | keeps the invariant. The store is `ShuffledPiles`. The result's keys are the pile names, with their counts. Other decks' piles read as before. Every pile reads a permutation of its old codes |
| PileOps.Pick | TP1/deckofcards/database/deck.go:652-707 | the picked row belongs to the pile |
| PileOps.PickSpec | TP1/deckofcards/database/deck.go:652-707 | under the invariant, each method finds a row iff the pile is non-empty. `top` finds the head, `bottom` the tail, `random` some row of the list |
| PileOps.DrawFromPileTx | TP1/deckofcards/database/deck.go:642-751 | keeps the invariant. Unknown pile, unknown method and empty pile each fail, and nothing changes on failure. Otherwise the picked card (the head for `top`, the tail for `bottom`) is returned and removed from the pile, and the ledger counts one copy fewer in piles |
| PileOps.TakePicked | TP1/deckofcards/database/deck.go:710-735 | taking the picked `k`-th row keeps the invariant and returns its code, with the pile read without it |
| PileOps.DrawSpecificFromPileTx | TP1/deckofcards/database/deck.go:754-805 | keeps the invariant. Unknown pile fails; a code not in the pile fails. Otherwise the lowest-id row holding the code is taken out, and nothing changes on failure |
| PileOps.HeldIsListed | TP1/deckofcards/database/deck.go:766-771 | a pile has a row holding the code iff its list reads the code |
| PileShuffle.Clear | TP1/deckofcards/database/deck.go:476 | keeps every row's id, owner and code; only links change |
| PileShuffle.ShufflePileRelinks | TP1/deckofcards/database/deck.go:464-489 | a pile with rows is relinked along its shuffled order |
| PileShuffle.RelinkedPiles | TP1/deckofcards/database/deck.go:481-487 | relinking one pile keeps every pile a list: that one in its new order, the others as before |
| PileShuffle.RelinkKeeps | TP1/deckofcards/database/deck.go:476-487 | changing only links, with every pile still a list, keeps the invariant |
| PileShuffle.PilesOf | TP1/deckofcards/database/deck.go:424-443 | exactly the deck's piles, ascending by id |
| PileShuffle.ShuffledPilesKeeps | TP1/deckofcards/database/deck.go:446-490 | shuffling the first `i` piles keeps the invariant and relinks each of them |
| PileShuffle.AllShuffled | TP1/deckofcards/database/deck.go:446-490 | once all are shuffled, piles of other decks read as before, and each pile reads a permutation of its old codes |
| PileOrder.Found | TP1/deckofcards/database/deck.go:532-537 | as written: at most one row per code; the `k`-th row found is the lowest-id row of the pile holding the `k`-th code |
| PileOrder.FoundAll | TP1/deckofcards/database/deck.go:532-537 | as written: the loop finds a row for every code iff the pile holds every code |
| PileOrder.LinkFound | TP1/deckofcards/database/deck.go:527-545 | as written: the cleared pile with each found row pointing to the next found row; `all` iff every code was found |
| PileOrder.UpdatePileOrderAsWritten | TP1/deckofcards/database/deck.go:515-550 | as written: an unknown pile fails unchanged; otherwise the store is the relinked one, and a missing code fails with those writes kept |
| PileOrder.TwoAcesValid | TP1/deckofcards/database/deck.go:183-193 | the store with one pile holding two rows of `AS` satisfies the invariant, so `InsertIntoPile` can reach it |
| PileOrder.DuplicateCodeSelfLoop | TP1/deckofcards/database/deck.go:532-545 | as written: reordering that pile with its own codes `["AS","AS"]` finds row 1 twice and reports success, but row 1 points to itself, so the pile is no list in any order |
| PileOrder.PickDistinct | TP1/deckofcards/database/deck.go:532-545 | corrected: each code takes the lowest-id row of its code not taken yet; the picks are distinct, each holds its code, and together they are exactly the pile's rows |
| PileOrder.SameCounts | TP1/deckofcards/database/deck.go:532-545 | a pile whose codes are a permutation of `codes` has, for each code, as many rows as `codes` has copies |
| PileOrder.ReorderKeeps | TP1/deckofcards/database/deck.go:527-545 | relinking the pile along the picks keeps the invariant; the pile reads `codes`; only links changed |
| PileOrder.UpdatePileOrderTx | TP1/deckofcards/database/deck.go:515-550 | corrected: keeps the invariant. An unknown pile fails. Succeeds iff `codes` is a permutation of the pile's list, and the pile then reads exactly `codes`, other piles unchanged, only links changed. Nothing changes on failure |
| ReturnOps.PushOnDeck | TP1/deckofcards/database/deck.go:1124-1140 | the codes are pushed on top of the deck, the last first, and the top is moved; piles are untouched |
| ReturnOps.ReturnSpecificDrawnTx | TP1/deckofcards/database/deck.go:807-889 | keeps the invariant. No ledger row → "not found"; no drawn copy → "not drawn"; nothing changes on failure. Otherwise the deck reads `code` above its old list, other decks are unchanged, and `inDeck` goes up by one |
| ReturnOps.ReturnOneTx | TP1/deckofcards/database/deck.go:844-875 | once a drawn copy is known, keeps the invariant: the deck reads `code` above its old list, other decks are unchanged, and `inDeck` goes up by one |
| ReturnOps.ScanDrawn | TP1/deckofcards/database/deck.go:911-932 | the scanned entries expand to each code as many times as it is drawn (`total - inDeck - inPile`, when positive) |
| ReturnOps.PushReturns | TP1/deckofcards/database/deck.go:934-945 | the nested loops push the expanded codes, from the last entry to the first, onto the old top |
| ReturnOps.PushCopies | TP1/deckofcards/database/deck.go:935-944 | the inner loop pushes `n` copies of the code, each pointing to the previous row |
| ReturnOps.RefillNoneDrawn | TP1/deckofcards/database/deck.go:952 | after the refill, no copy of the deck is drawn, and other decks' ledgers are unchanged |
| ReturnOps.ReturnAllDrawnTx | TP1/deckofcards/database/deck.go:892-962 | keeps the invariant. The returned codes are each drawn copy once. An unknown deck changes nothing. Otherwise the deck reads them above its old list, other decks are unchanged, and the ledger is refilled |
| ReturnOps.ReturnAllKnownTx | TP1/deckofcards/database/deck.go:915-956 | for a deck that exists, keeps the invariant: the returned codes are each drawn copy once, the deck reads them above its old list, other decks are unchanged, and the ledger is refilled |
| ReturnOps.TakenIsOutstanding | TP1/deckofcards/database/deck.go:1011-1022 | a copy taken out of a pile is one neither in the deck nor in a pile, so the ledger update finds `inPile > 0` |
| ReturnOps.ReturnSpecificFromPileTx | TP1/deckofcards/database/deck.go:965-1050 | keeps the invariant. Unknown pile fails; a code not in the pile fails; nothing changes on failure. Otherwise the lowest-id row of the code leaves the pile and goes on top of its deck, with one copy moved from piles to the deck. The "inconsistent" branch is unreachable |
| ReturnOps.PutBackTx | TP1/deckofcards/database/deck.go:1007-1035 | keeps the invariant: the pile loses its `k`-th row, the deck reads that row's code above its old list, every other pile and deck reads as before, and one copy moves from piles to the deck |
| ReturnOps.ShiftSplit | TP1/deckofcards/database/deck.go:1104-1117 | moving the copies is uncounting them from piles, then counting them in the deck |
| ReturnOps.CountCodes | TP1/deckofcards/database/deck.go:1089-1092 | the counts are `Tally(codes)` |
| ReturnOps.MoveCounts | TP1/deckofcards/database/deck.go:1104-1117 | the ledger loop succeeds iff every counted code has a row with enough copies in piles, and then moves them; otherwise "inconsistent" |
| ReturnOps.TalliedShift | TP1/deckofcards/database/deck.go:1104-1117 | with the tally of the pile's codes, the loop moves exactly those copies |
| ReturnOps.ReturnedAll | TP1/deckofcards/database/deck.go:1119-1140 | emptying the pile, then pushing its codes reversed, returns the pile whole on top of the deck and keeps the invariant |
| ReturnOps.ReturnAllFromPileTx | TP1/deckofcards/database/deck.go:1053-1148 | keeps the invariant. An unknown pile fails unchanged. Otherwise succeeds: the pile becomes empty, the deck reads its codes (by ascending row id) above its old list, other lists are unchanged, and the copies move from piles to the deck |
| ReturnOps.ReturnPileTx | TP1/deckofcards/database/deck.go:1068-1140 | once the pile is found, keeps the invariant: the codes are read by ascending row id and the pile is returned whole on top of its deck |
| ReturnOps.ShiftPileCounts | TP1/deckofcards/database/deck.go:1068-1117 | the codes are the pile's rows by ascending id, the same multiset as the pile's list, and the ledger moves their copies from piles to the deck; the "inconsistent" branch cannot be taken under the invariant |
| ReturnOps.PushPileBack | TP1/deckofcards/database/deck.go:1119-1140 | the pile's rows are deleted and its codes pushed reversed onto its deck; the invariant is kept and the pile is returned whole |
| Engine.Store.constructor | TP1/deckofcards/database/creation.go:16-61 | an empty store satisfies the invariant |
| Engine.Store.InsertDeck | TP1/deckofcards/database/deck.go:28-119 | as `InsertDeckTx`, on the store's tables |
| Engine.Store.ShuffleDeck | TP1/deckofcards/database/deck.go:553-639 | as `ShuffleDeckTx`, on the store's tables |
| Engine.Store.DrawCards | TP1/deckofcards/database/deck.go:1151-1260 | as `DrawCardsTx`, on the store's tables |
| Engine.Store.InsertIntoPile | TP1/deckofcards/database/deck.go:122-198 | as `InsertIntoPileTx`, on the store's tables |
| Engine.Store.GetPileCards | TP1/deckofcards/database/deck.go:228-324 | unknown pile → "pile not found", otherwise the pile's list, top first |
| Engine.Store.CardsInDeck | TP1/deckofcards/database/deck.go:327-346 | the length of the deck's list, 0 for an unknown deck |
| Engine.Store.CardsInPile | TP1/deckofcards/database/deck.go:349-368 | the length of the pile's list, 0 for a missing pile |
| Engine.Store.ListPiles | TP1/deckofcards/database/deck.go:371-404 | the deck's pile names, each with its card count |
| Engine.Store.ShuffleAllPiles | TP1/deckofcards/database/deck.go:405-512 | as `ShuffleAllPilesTx`, on the store's tables |
| Engine.Store.UpdatePileOrder | TP1/deckofcards/database/deck.go:515-550 | as the corrected `UpdatePileOrderTx`, on the store's tables |
| Engine.Store.DrawFromPile | TP1/deckofcards/database/deck.go:642-751 | as `DrawFromPileTx`, on the store's tables |
| Engine.Store.DrawSpecificFromPile | TP1/deckofcards/database/deck.go:754-805 | as `DrawSpecificFromPileTx`, on the store's tables |
| Engine.Store.ReturnSpecificDrawn | TP1/deckofcards/database/deck.go:807-889 | as `ReturnSpecificDrawnTx`, on the store's tables |
| Engine.Store.ReturnAllDrawn | TP1/deckofcards/database/deck.go:892-962 | as `ReturnAllDrawnTx`, on the store's tables |
| Engine.Store.ReturnSpecificFromPile | TP1/deckofcards/database/deck.go:965-1050 | as `ReturnSpecificFromPileTx`, on the store's tables |
| Engine.Store.ReturnAllFromPile | TP1/deckofcards/database/deck.go:1053-1148 | as `ReturnAllFromPileTx`, on the store's tables |

## Left out

- I/O is not modelled: the SQLite driver and its errors (a failed `Exec`, `Scan` or `Commit`), the HTTP writing, JSON encoding and the image files. Only the outcomes the engine reaches without a driver error are modelled.
- The worker pool and the read/write lock that serialise the operations (`database/worker.go`) are left out. The store is a single-threaded object, so each operation runs alone.
- The clock and randomness are parameters:
  - the token bytes of `crypto/rand`;
  - the draws of `math/rand` for the shuffles and for the random pile pick.

  Seeding is not modelled.
- `ON DELETE SET NULL` and `ON DELETE CASCADE` are not modelled. No operation deletes a deck or a pile, and every deleted row is unlinked first, so the cascades never fire.
- `Pile.topCardId` is not modelled: no operation reads or writes it.
- Unordered queries are read in ascending id order, a fixed order chosen by the model. For `SELECT id, name FROM Pile WHERE deckId = ?` in `ShuffleAllPiles` (deck.go:424), SQLite likely walks the `UNIQUE(deckId, name)` index and so reads the piles by name. That changes only which pile takes which of the draws, and each pile's draws are a free parameter, so no contract depends on it.
- The order of Go map iteration is an arbitrary choice.
- ReturnOps.ReturnAllDrawnTx: the order of the `DeckEntry` scan is arbitrary (that table's ids are not modelled). So the contract states the returned codes only as a multiset, not their order in the deck.
- Transactions that fail a logical check are not rolled back in the source, and the model does not capture the open transaction. Each deferred `Rollback` tests the outer `err` of `Begin`. The logical failures the model covers leave that `err` nil, because the failing check either declares its own `err` or assigns none. Examples: a code with no room or no ledger row in `InsertIntoPile` (deck.go:142-149), "not drawn" (deck.go:837-841) and "inconsistent DeckEntry" (deck.go:1020-1021, 1114-1115). After such a failure the transaction is neither committed nor rolled back, and any writes it made before failing (for instance the `inPile` increments of `InsertIntoPile` for earlier codes when a later code has no room) stay pending on the open write transaction. The model returns the committed tables, which the failed operation did not change. A driver error from a statement that assigns the outer `err` (`rows, err := tx.Query` at deck.go:424 and 911, `res, err := tx.Exec` at deck.go:849 and 1011, `res2, err := tx.Exec` at deck.go:1027) is rolled back, but driver errors are outside the model.
- ReturnOps.ReturnSpecificFromPileTx: the "inconsistent ledger" error of the source is modelled as a branch proved unreachable under the invariant, not as a leaked transaction.
- ReturnOps.ShiftPileCounts: the "inconsistent DeckEntry" error of `ReturnAllFromPile` (a ledger row with `inPile` below the pile's count of that code) is modelled as a branch proved unreachable under the invariant, not as a leaked transaction.
- Engine.Store.InsertIntoPile: returns the pile's id instead of the summary `Deck` that the source builds afterwards. That summary comes from `CardsInDeck` and `CardsInPile`, which are modelled on their own.
- Engine.Store.UpdatePileOrder: uses the corrected operation (see Findings). The code as written is `PileOrder.UpdatePileOrderAsWritten`. It runs without a transaction, so on a missing code it keeps the links already written.
- The list orders (`Orders`) are ghost: they are the witness that each deck and pile is one list. The engine itself stores only the links.
- The HTTP handlers are modelled only in their pure checks. How they chain database calls, and the text matching on error messages that maps errors to API errors, are not modelled.
- Go strings are modelled as sequences of characters, each standing for one rune of valid UTF-8 text (so `TrimSpace` sees Unicode white space as Go's decoder does; invalid byte sequences are not modelled). The model assumes ASCII card codes and parameters. Where the source measures a parameter in bytes, the model counts characters: the `cards` limit of `newDeck` (apiHandler.go:629, `Requests.CustomDeckParam`) compares `len(cards)` in bytes, so a non-ASCII list longer than the limit in bytes but not in characters gets the out-of-range error from the source and a duplicate or invalid-code error from the model. `ToUpper` covers ASCII letters only.

## Findings

| source | as written | input that shows it | evidently intended | confidence | as-written member | corrected member |
|---|---|---|---|---|---|---|
| TP1/deckofcards/database/deck.go:532-545 | each code in the new order is matched to the first row of the pile holding that code, so a repeated code matches the same row again, and that row is linked to itself | a pile holding `AS` twice (reachable: two decks' worth of cards, both aces placed with `InsertIntoPile`), reordered with `["AS", "AS"]`, as the pile-shuffle handler does with the pile's own codes | each code takes a row of its code not taken yet, so the pile is relinked along a permutation of its rows | not executed | PileOrder.DuplicateCodeSelfLoop | PileOrder.UpdatePileOrderTx |
