/**
 * The error kinds the HTTP layer reports, the status code each maps to,
 * and the error body written back to the client.
 */
module ApiErrors {

  /** The sentinel errors of the HTTP layer; `Other` is any error that is none of them. */
  datatype ApiError =
    | DeckNotFound | NotEnoughCards | DeckEmpty
    | InvalidCardCode | CardNotInPile | DuplicateCards | CardNotInDeck
    | PileNotFound | PileEmpty
    | Database | RequestTimeout | ConcurrentMod
    | InvalidParameter | ParameterOutOfRange
    | Other

  const StatusBadRequest: int := 400
  const StatusNotFound: int := 404
  const StatusConflict: int := 409
  const StatusInternalServerError: int := 500
  const StatusServiceUnavailable: int := 503

  /** A missing deck, pile or card. */
  predicate IsMissing(e: ApiError) {
    e.DeckNotFound? || e.PileNotFound? || e.CardNotInDeck? || e.CardNotInPile?
  }

  /** A request the client must change before it can succeed. */
  predicate IsBadRequest(e: ApiError) {
    e.InvalidCardCode? || e.DuplicateCards? || e.InvalidParameter? || e.ParameterOutOfRange?
    || e.NotEnoughCards? || e.DeckEmpty? || e.PileEmpty?
  }

  /** `getHTTPStatus`: the status code of an error, 500 when the kind is not known. */
  function HttpStatus(e: ApiError): (status: int)
    ensures status == StatusNotFound <==> IsMissing(e)
    ensures status == StatusBadRequest <==> IsBadRequest(e)
    ensures status == StatusServiceUnavailable <==> e == RequestTimeout
    ensures status == StatusConflict <==> e == ConcurrentMod
    ensures status == StatusInternalServerError <==> e == Database || e == Other
  {
    match e
    case DeckNotFound => StatusNotFound
    case PileNotFound => StatusNotFound
    case CardNotInDeck => StatusNotFound
    case CardNotInPile => StatusNotFound
    case InvalidCardCode => StatusBadRequest
    case DuplicateCards => StatusBadRequest
    case InvalidParameter => StatusBadRequest
    case ParameterOutOfRange => StatusBadRequest
    case NotEnoughCards => StatusBadRequest
    case DeckEmpty => StatusBadRequest
    case PileEmpty => StatusBadRequest
    case RequestTimeout => StatusServiceUnavailable
    case ConcurrentMod => StatusConflict
    case Database => StatusInternalServerError
    case Other => StatusInternalServerError
  }

  /** The JSON error body together with the status line it is written under. */
  datatype ErrorResponse = ErrorResponse(status: int, success: bool, error: ApiError, deckId: string)

  const InvalidId: string := "invalid_id"

  /**
   * `writeError`: the status of the error, `success = false`, and the
   * caller's deck id except for a missing deck, whose id is reported as
   * "invalid_id".
   */
  function WriteError(e: ApiError, deckId: string): (r: ErrorResponse)
    ensures r.status == HttpStatus(e) && !r.success && r.error == e
    ensures e == DeckNotFound ==> r.deckId == InvalidId
    ensures e != DeckNotFound ==> r.deckId == deckId
  {
    ErrorResponse(HttpStatus(e), false, e, if e == DeckNotFound then InvalidId else deckId)
  }

  /** A rewritten deck id always comes with a 404. */
  lemma RewrittenIdIsNotFound(e: ApiError, deckId: string)
    requires WriteError(e, deckId).deckId != deckId
    ensures WriteError(e, deckId).status == StatusNotFound
    ensures WriteError(e, deckId).deckId == InvalidId
  {
  }
}
