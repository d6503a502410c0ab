/** The shapes the storefront's asynchronous calls settle into.

    Every `fetch` wrapper and browser API the components await is modelled as
    an input: the value it resolved to, or the error it rejected with. */
module Transport {

  /** A value that may be absent: `null`/`undefined` in the source. */
  datatype Option<+T> = None | Some(value: T) {

    /** The value, or `default` when absent. */
    function GetOr(default: T): (r: T)
      ensures Some? ==> r == value
      ensures None? ==> r == default
    {
      match this
      case Some(v) => v
      case None => default
    }
  }

  /** How an awaited call settled: resolved with a value, or rejected with a
      message (the `error.message` a `catch` block sees). */
  datatype Reply<+T> = Ok(value: T) | Failed(error: string)
}
