/** Bytes, and the outcome type shared by every fallible operation of the model. */
module Bytes {

  type byte = x: int | 0 <= x < 256

  datatype Option<+T> = None | Some(value: T)

  /** The status codes that the modelled operations distinguish. */
  datatype Error =
    | Corrupt
    | Unsupported
    | InvalidArgument
    | OutOfRange
    | NoSpace
    | IoError
    | Busy
    | Closed
    | Overwritten
    | GenerationExhausted
    | InternalError

  datatype Result<+T> = Ok(value: T) | Err(error: Error)

  /** Asked for where a definition guarded by it is needed; proofs that do not ask never see inside. */
  predicate Unfold(k: int) {
    true
  }

  lemma Assoc<T>(a: seq<T>, b: seq<T>, c: seq<T>)
    ensures (a + b) + c == a + (b + c)
  {
  }

  lemma Regroup<T>(a: seq<T>, b: seq<T>, c: seq<T>, d: seq<T>, rest: seq<T>)
    ensures (a + (b + (c + d))) + rest == a + (b + (c + (d + rest)))
  {
    Assoc(c, d, rest);
    Assoc(b, c + d, rest);
    Assoc(a, b + (c + d), rest);
  }

  lemma RegroupLeft<T>(a: seq<T>, b: seq<T>, c: seq<T>, d: seq<T>, e: seq<T>)
    ensures ((a + b) + c) + d + e == a + (b + (c + (d + e)))
  {
    Assoc(a, b, c);
    Assoc(a, b + c, d);
    Assoc(b, c, d);
    Assoc(a, b + (c + d), e);
    Assoc(b, c + d, e);
    Assoc(c, d, e);
  }
}
