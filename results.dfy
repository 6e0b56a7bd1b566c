/** Optional values and the discriminated success/failure container that every
    backend hands back to its caller. The source builds an object literal with
    `unwrap`, `unwrapOr`, `isOk` and `isErr` closures; here it is a sum type with
    pure member functions over already-resolved data. */
module Results {

  datatype Option<+T> = None | Some(value: T)

  datatype Result<+T, +E> = Ok(value: T) | Err(error: E) {

    /** `isOk()`: true exactly for a success. */
    predicate IsOk() { Ok? }

    /** `isErr()`: true exactly for a failure. */
    predicate IsErr() { Err? }

    /** `unwrapOr(d)`: the stored value on success, the caller's default on failure. */
    function UnwrapOr(default: T): (r: T)
      ensures IsErr() ==> r == default
      ensures IsOk() ==> r == value
    {
      match this
      case Ok(v) => v
      case Err(_) => default
    }
  }
}
