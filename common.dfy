/** Failure-carrying values and sequence facts shared by every module of the model. */
module Common {

  /** A value that may be absent (a NULL column, a missing row). */
  datatype Option<+T> = None | Some(value: T)

  /** The `(value, error)` pair that every Go function of the system returns. */
  datatype Result<+T, +E> = Ok(value: T) | Err(error: E)

  /** The outcome of an operation that returns only an error. */
  datatype Outcome<+E> = Pass | Fail(error: E)

  /** A prefix one longer is the shorter prefix and the next element. */
  lemma TakeOneMore<T>(s: seq<T>, n: nat)
    requires n < |s|
    ensures s[..n + 1] == s[..n] + [s[n]]
  {
  }

  /** Dropping one element, then `n`, drops `n + 1`. */
  lemma DropOneMore<T>(s: seq<T>, n: nat)
    requires n < |s|
    ensures s[n..][1..] == s[n + 1..]
  {
  }
}
