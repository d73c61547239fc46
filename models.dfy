/** Shared declarations of the link shortener: the error values its layers
    exchange, Go's `errors.Is` over them, and the `Link` record. */
module Models {

  /** Go's `error` as a value. `nil` is `None` of an `Option<Error>`. */
  datatype Error =
    /** The sentinel `models.ErrDuplicate` ("duplicate url"). */
    | Duplicate
    /** An error made by `errors.New` or by `fmt.Errorf` without `%w`. */
    | Opaque(message: string)
    /** An error made by `fmt.Errorf("<context>: %w", cause)`. */
    | Wrapped(context: string, cause: Error)

  datatype Option<+T> = None | Some(value: T)

  /** A value or an error, for the Go pairs `(T, error)` whose value is
      meaningless once the error is not nil. */
  datatype Result<+T> = Ok(value: T) | Err(error: Error)

  /** `modellink.Link`: an alias together with the url it stands for. */
  datatype Link = Link(alias: string, url: string)

  /** Go's `errors.Is(err, target)`: `err` or one of the errors it wraps
      equals `target`. */
  predicate Is(err: Error, target: Error)
  {
    err == target || (err.Wrapped? && Is(err.cause, target))
  }

  /** A non-nil error that `errors.Is` recognises as `ErrDuplicate`. */
  predicate IsDuplicate(err: Option<Error>)
  {
    err.Some? && Is(err.value, Duplicate)
  }

  /** Wrapping with `%w` keeps every `errors.Is` answer about a target that
      is not itself a wrapping, and adds none. */
  lemma WrapKeepsIs(context: string, cause: Error, target: Error)
    requires !target.Wrapped?
    ensures Is(Wrapped(context, cause), target) <==> Is(cause, target)
  {
  }

  /** An error built without `%w` is recognised only as itself: a plain
      `fmt.Errorf` message is never taken for `ErrDuplicate`. */
  lemma {:induction false} OpaqueIsOnlyItself(message: string, target: Error)
    ensures Is(Opaque(message), target) <==> target == Opaque(message)
  {
  }
}
