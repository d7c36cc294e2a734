/**
  Go `error` values as the watcher uses them: a message, plus the sentinel
  errors that `errors.Is` finds along the value's wrap chain.
 */
module Errors {
  import opened Wrappers

  /** The two sentinel errors declared by the supervising loop. */
  datatype Sentinel = BreakLoop | TooMany

  /** An error: its `Error()` text and the sentinels it wraps (itself included). */
  datatype Error = Error(text: string, chain: set<Sentinel>)

  /** `errors.New(text)`: an error that wraps no sentinel. */
  function New(text: string): (e: Error)
    ensures e.text == text && e.chain == {}
  {
    Error(text, {})
  }

  /** `errors.Is(err, s)`; a nil error matches no sentinel. */
  predicate Is(err: Option<Error>, s: Sentinel) {
    err.Some? && s in err.value.chain
  }
}
