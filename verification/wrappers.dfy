/**
 * Option and Result, the two failure-carrying datatypes the rest of the model uses,
 * and the bookkeeping of loops that visit the elements of a set one at a time.
 */
module Wrappers {

  /** A value that may be absent (Python's `None`). */
  datatype Option<T> = None | Some(value: T)

  /** The outcome of an operation that may raise: a value or the exception raised. */
  datatype Result<T, E> = Ok(value: T) | Err(error: E)

  /** The Python exceptions the modelled code can raise. */
  datatype PyError =
    | AttributeError
    | TypeError
    | ValueError
    | IndexError
    | IntegrityError
    | DoesNotExist
    | MultipleObjectsReturned
    | ValidationError
    | DataError

  /** Moving one element from the pending set to the handled set keeps their union and disjointness. */
  lemma MoveOne<T>(done: set<T>, todo: set<T>, u: T)
    requires u in todo && done !! todo
    ensures (done + {u}) + (todo - {u}) == done + todo && (done + {u}) !! (todo - {u})
  {
  }

  /** Moving one pending element into a set keeps the union. */
  lemma MoveOneInto<T>(seen: set<T>, todo: set<T>, u: T)
    requires u in todo
    ensures (seen + {u}) + (todo - {u}) == seen + todo
  {
  }
}
