/** Failure-carrying wrappers shared by the other modules: Rust's `Option` and
    `Result`, as plain datatypes. */
module Basics {

  /** Rust's `Option<T>`: a value that may be missing. */
  datatype Option<T> = None | Some(value: T)

  /** Rust's `Result<T, E>`. */
  datatype Result<T, E> = Success(value: T) | Failure(error: E)

  /** Concatenation of a sequence of sequences, in order. */
  function Flatten<T>(parts: seq<seq<T>>): seq<T> {
    if |parts| == 0 then [] else parts[0] + Flatten(parts[1..])
  }

  /** Flattening distributes over appending one more part. */
  lemma {:induction false} FlattenSnoc<T>(parts: seq<seq<T>>, last: seq<T>)
    ensures Flatten(parts + [last]) == Flatten(parts) + last
  {
    if |parts| > 0 {
      assert (parts + [last])[1..] == parts[1..] + [last];
      FlattenSnoc(parts[1..], last);
    } else {
      assert [last][1..] == [];
    }
  }
}
