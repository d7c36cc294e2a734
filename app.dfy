/**
  The process exit code (app.go): `handleExitError` prints a non-nil error
  once and maps it to the code the process exits with.
 */
module App {
  import opened Wrappers
  import opened Errors
  import opened MainLoop

  const ExitCodeMainError := 1
  const ExitCodeLoopIsBroken := 2
  const ExitCodeTooManyErrorInLoop := 3

  /** `handleExitError`: the exit code, and the lines written to the error stream. */
  function HandleExitError(err: Option<Error>): (r: (int, seq<string>))
    ensures r.0 == 0 <==> err.None?
    ensures err.None? ==> r.1 == []
    ensures err.Some? ==> r.1 == [err.value.text]
    ensures r.0 == ExitCodeTooManyErrorInLoop <==> Is(err, TooMany)
    ensures r.0 == ExitCodeLoopIsBroken <==> Is(err, BreakLoop) && !Is(err, TooMany)
    ensures r.0 == ExitCodeMainError <==> err.Some? && !Is(err, TooMany) && !Is(err, BreakLoop)
  {
    var printed := if err.Some? then [err.value.text] else [];
    if Is(err, TooMany) then (ExitCodeTooManyErrorInLoop, printed)
    else if Is(err, BreakLoop) then (ExitCodeLoopIsBroken, printed)
    else if err.Some? then (ExitCodeMainError, printed)
    else (0, printed)
  }

  /**
    How the loop's ways of ending become exit codes: giving up after too
    many errors exits with 3, a break request with 2, a signal with 0.
   */
  lemma LoopExitCodes(config: ConfigLoader.Config, outcomes: seq<Option<Error>>, cancels: seq<bool>)
    requires Loop(config, outcomes, cancels, 0, 0).result.Returned?
    requires forall k :: 0 <= k < |outcomes| && outcomes[k].Some? ==> TooMany !in outcomes[k].value.chain
    ensures var err := Loop(config, outcomes, cancels, 0, 0).result.err;
      && (err == Some(TooManyError) ==> HandleExitError(err).0 == ExitCodeTooManyErrorInLoop)
      && (err.None? ==> HandleExitError(err).0 == 0)
      && (err.Some? && err != Some(TooManyError) ==> HandleExitError(err).0 == ExitCodeLoopIsBroken)
  {
    LoopReturns(config, outcomes, cancels, 0, 0);
  }

  /** The loop returns nil, `TooManyError`, or the breaking iteration's own error. */
  lemma {:induction false} LoopReturns(config: ConfigLoader.Config, outcomes: seq<Option<Error>>, cancels: seq<bool>, i: nat, errorCount: nat)
    requires i <= |outcomes|
    requires Loop(config, outcomes, cancels, i, errorCount).result.Returned?
    ensures var err := Loop(config, outcomes, cancels, i, errorCount).result.err;
      err.None? || err == Some(TooManyError) || exists k :: i <= k < |outcomes| && err == outcomes[k] && Is(err, BreakLoop)
    decreases |outcomes| - i
  {
    var err := outcomes[i];
    if !Is(err, BreakLoop) && !(err.Some? && errorCount + 1 >= config.errorCountToBreak) && !CancelAt(cancels, i) {
      LoopReturns(config, outcomes, cancels, i + 1, if err.Some? then errorCount + 1 else 0);
    }
  }
}
