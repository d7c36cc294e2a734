/**
  The supervising loop (`runMainLoop`, mainloop.go): run an iteration,
  stop on a break request, count consecutive errors and stop when there are
  too many, otherwise pause (after a success or after an error) and go
  round again, unless a signal arrives during the pause.

  The iterations' results and the signals are scripts: `outcomes[i]` is what
  the `i`-th iteration returns and `cancels[i]` says whether a signal
  arrives during the pause that follows it. A script that runs out ends the
  model's loop, which the source's never does.
 */
module MainLoop {
  import opened Wrappers
  import opened Errors
  import opened ConfigLoader

  const BreakLoopError := Error("break loop", {BreakLoop})
  const TooManyError := Error("too many error", {TooMany})

  /** What the loop writes to `out`, without the wall-clock prefix. */
  datatype LogLine =
    | Failed(err: Error)          // "<time> <err>"
    | Succeeded                   // "<time> iteration done success"
    | TooManyMistakes(err: Error) // "Too many mistakes: <err>"
    | Cancelled                   // "cancelled"

  datatype LoopResult = Returned(err: Option<Error>) | ScriptExhausted

  /** Everything observable about one run of the loop. */
  datatype Trace = Trace(result: LoopResult, log: seq<LogLine>, runs: nat, pauses: seq<int>)

  /** A signal during the `i`-th pause; pauses past the script pass quietly. */
  predicate CancelAt(cancels: seq<bool>, i: nat) {
    i < |cancels| && cancels[i]
  }

  /** The loop from iteration `i` on, with `errorCount` consecutive errors behind it. */
  function Loop(config: Config, outcomes: seq<Option<Error>>, cancels: seq<bool>, i: nat, errorCount: nat): (t: Trace)
    requires i <= |outcomes|
    ensures t.runs <= |outcomes| - i
    decreases |outcomes| - i
  {
    if i == |outcomes| then Trace(ScriptExhausted, [], 0, [])
    else
      var err := outcomes[i];
      if Is(err, BreakLoop) then Trace(Returned(err), [], 1, [])
      else if err.Some? && errorCount + 1 >= config.errorCountToBreak then
        Trace(Returned(Some(TooManyError)), [Failed(err.value), TooManyMistakes(err.value)], 1, [])
      else
        var line := if err.Some? then Failed(err.value) else Succeeded;
        var pause := if err.Some? then config.pauseAfterError else config.pauseAfterSuccess;
        if CancelAt(cancels, i) then Trace(Returned(None), [line, Cancelled], 1, [pause])
        else
          var rest := Loop(config, outcomes, cancels, i + 1, if err.Some? then errorCount + 1 else 0);
          Trace(rest.result, [line] + rest.log, rest.runs + 1, [pause] + rest.pauses)
  }

  /** `runMainLoop`. */
  method RunMainLoop(config: Config, outcomes: seq<Option<Error>>, cancels: seq<bool>)
    returns (result: LoopResult, log: seq<LogLine>, runs: nat, pauses: seq<int>)
    ensures Trace(result, log, runs, pauses) == Loop(config, outcomes, cancels, 0, 0)
  {
    var errorCount: nat := 0;
    log, runs, pauses := [], 0, [];
    while runs < |outcomes|
      invariant runs <= |outcomes|
      invariant var rest := Loop(config, outcomes, cancels, runs, errorCount);
        Loop(config, outcomes, cancels, 0, 0) == Trace(rest.result, log + rest.log, runs + rest.runs, pauses + rest.pauses)
      decreases |outcomes| - runs
    {
      ghost var here := Loop(config, outcomes, cancels, runs, errorCount);
      var err := outcomes[runs];
      runs := runs + 1;

      if Is(err, BreakLoop) {
        Unit(log, pauses);
        return Returned(err), log, runs, pauses;
      }

      var pause := config.pauseAfterSuccess;
      var line := Succeeded;
      if err.Some? {
        pause := config.pauseAfterError;
        line := Failed(err.value);
        errorCount := errorCount + 1;
        if errorCount >= config.errorCountToBreak {
          log := log + [line, TooManyMistakes(err.value)];
          Unit(log, pauses);
          return Returned(Some(TooManyError)), log, runs, pauses;
        }
      } else {
        errorCount := 0;
      }

      ghost var next := Loop(config, outcomes, cancels, runs, errorCount);
      if CancelAt(cancels, runs - 1) {
        log := log + [line, Cancelled];
        pauses := pauses + [pause];
        return Returned(None), log, runs, pauses;
      }
      assert here == Trace(next.result, [line] + next.log, next.runs + 1, [pause] + next.pauses);
      Shift(log, pauses, runs - 1, line, pause, next);
      log := log + [line];
      pauses := pauses + [pause];
    }
    Unit(log, pauses);
    result := ScriptExhausted;
  }

  lemma Associative<T>(a: seq<T>, b: seq<T>, c: seq<T>)
    ensures a + (b + c) == a + b + c
  {
  }

  /** Moving one iteration's line and pause from what is left to run onto what has run keeps the whole trace. */
  lemma Shift(log: seq<LogLine>, pauses: seq<int>, runs: nat, line: LogLine, pause: int, next: Trace)
    ensures Trace(next.result, log + ([line] + next.log), runs + (next.runs + 1), pauses + ([pause] + next.pauses))
         == Trace(next.result, (log + [line]) + next.log, (runs + 1) + next.runs, (pauses + [pause]) + next.pauses)
  {
    Associative(log, [line], next.log);
    Associative(pauses, [pause], next.pauses);
  }

  lemma Unit(log: seq<LogLine>, pauses: seq<int>)
    ensures log + [] == log && pauses + [] == pauses
  {
  }

  // ------------------------------------------------------------------ properties

  /** An iteration that asks to break ends the loop at once, without a pause, returning its own error. */
  lemma BreakEndsLoop(config: Config, outcomes: seq<Option<Error>>, cancels: seq<bool>, i: nat, errorCount: nat)
    requires i < |outcomes| && Is(outcomes[i], BreakLoop)
    ensures var t := Loop(config, outcomes, cancels, i, errorCount);
      t.result == Returned(outcomes[i]) && t.result != Returned(None) && t.runs == 1 && t.pauses == [] && t.log == []
  {
  }

  /** How many lines of a log carry the error `e`. */
  function Mentions(log: seq<LogLine>, e: Error): (n: nat)
    ensures n <= |log|
  {
    if log == [] then 0
    else (if (log[0].Failed? || log[0].TooManyMistakes?) && log[0].err == e then 1 else 0) + Mentions(log[1..], e)
  }

  /**
    With a threshold of `n` and every iteration failing with `e` from
    iteration `i` on (`errorCount` errors already behind it), the loop runs
    `n - errorCount` more iterations, pausing after each but the last, logs
    `e` once per failure and once more in the final line, and returns
    `TooManyError`.
   */
  lemma {:induction false} FailingUntilTooMany(config: Config, outcomes: seq<Option<Error>>, cancels: seq<bool>,
                                                e: Error, i: nat, errorCount: nat)
    requires BreakLoop !in e.chain
    requires errorCount < config.errorCountToBreak
    requires i + config.errorCountToBreak - errorCount <= |outcomes|
    requires forall k :: i <= k < i + config.errorCountToBreak - errorCount ==> outcomes[k] == Some(e)
    requires forall k :: i <= k < i + config.errorCountToBreak - errorCount - 1 ==> !CancelAt(cancels, k)
    ensures var t := Loop(config, outcomes, cancels, i, errorCount);
      && t.result == Returned(Some(TooManyError))
      && t.runs == config.errorCountToBreak - errorCount
      && Mentions(t.log, e) == t.runs + 1
      && t.pauses == seq(t.runs - 1, _ => config.pauseAfterError)
    decreases config.errorCountToBreak - errorCount
  {
    if errorCount + 1 < config.errorCountToBreak {
      FailingUntilTooMany(config, outcomes, cancels, e, i + 1, errorCount + 1);
      var t := Loop(config, outcomes, cancels, i, errorCount);
      var rest := Loop(config, outcomes, cancels, i + 1, errorCount + 1);
      assert t.log[1..] == rest.log;
      assert t.pauses == [config.pauseAfterError] + rest.pauses;
    } else {
      var t := Loop(config, outcomes, cancels, i, errorCount);
      assert t.log[1..][1..] == [];
    }
  }

  /** The repository's all-failing case: threshold `n`, every iteration failing: `n` runs, `TooManyError`, `n + 1` mentions. */
  lemma AllFailing(config: Config, outcomes: seq<Option<Error>>, cancels: seq<bool>, e: Error)
    requires BreakLoop !in e.chain && config.errorCountToBreak >= 1
    requires config.errorCountToBreak <= |outcomes|
    requires forall k :: 0 <= k < |outcomes| ==> outcomes[k] == Some(e)
    requires forall k :: 0 <= k < |cancels| ==> !cancels[k]
    ensures var t := Loop(config, outcomes, cancels, 0, 0);
      && t.result == Returned(Some(TooManyError))
      && t.runs == config.errorCountToBreak
      && Mentions(t.log, e) == config.errorCountToBreak + 1
  {
    FailingUntilTooMany(config, outcomes, cancels, e, 0, 0);
  }

  /** The loop runs `k` iterations and then iteration `k` asks to break: the pauses are the ones after the `k` earlier iterations. */
  lemma {:induction false} SuccessesThenBreak(config: Config, outcomes: seq<Option<Error>>, cancels: seq<bool>, i: nat, errorCount: nat)
    requires i < |outcomes| && Is(outcomes[|outcomes| - 1], BreakLoop)
    requires forall k :: i <= k < |outcomes| - 1 ==> outcomes[k].None?
    requires forall k :: i <= k < |outcomes| - 1 ==> !CancelAt(cancels, k)
    ensures var t := Loop(config, outcomes, cancels, i, errorCount);
      && t.result == Returned(outcomes[|outcomes| - 1])
      && t.runs == |outcomes| - i
      && t.pauses == seq(|outcomes| - 1 - i, _ => config.pauseAfterSuccess)
      && t.log == seq(|outcomes| - 1 - i, _ => Succeeded)
    decreases |outcomes| - i
  {
    if i < |outcomes| - 1 {
      SuccessesThenBreak(config, outcomes, cancels, i + 1, 0);
    }
  }

  /**
    The loop only reports too many errors after that many consecutive
    failed iterations: the last `errorCountToBreak` iterations it ran all
    failed (counting the `errorCount` failures before `i`).
   */
  lemma {:induction false} TooManyMeansConsecutive(config: Config, outcomes: seq<Option<Error>>, cancels: seq<bool>, i: nat, errorCount: nat)
    requires i <= |outcomes| && errorCount <= i
    requires forall k :: i - errorCount <= k < i ==> outcomes[k].Some?
    requires Loop(config, outcomes, cancels, i, errorCount).result == Returned(Some(TooManyError))
    ensures var t := Loop(config, outcomes, cancels, i, errorCount);
      var last := i + t.runs;
      && last >= config.errorCountToBreak
      && forall k :: last - config.errorCountToBreak <= k < last ==> outcomes[k].Some?
    decreases |outcomes| - i
  {
    var err := outcomes[i];
    if !Is(err, BreakLoop) && !(err.Some? && errorCount + 1 >= config.errorCountToBreak) && !CancelAt(cancels, i) {
      TooManyMeansConsecutive(config, outcomes, cancels, i + 1, if err.Some? then errorCount + 1 else 0);
    }
  }

  /** A signal during a pause ends the loop with no error, logging "cancelled" last and running nothing more. */
  lemma CancelReturnsNil(config: Config, outcomes: seq<Option<Error>>, cancels: seq<bool>, i: nat, errorCount: nat)
    requires i < |outcomes| && !Is(outcomes[i], BreakLoop)
    requires outcomes[i].None? || errorCount + 1 < config.errorCountToBreak
    requires CancelAt(cancels, i)
    ensures var t := Loop(config, outcomes, cancels, i, errorCount);
      && t.result == Returned(None)
      && t.runs == 1
      && t.log[|t.log| - 1] == Cancelled
      && |t.pauses| == 1
  {
  }

  /** The pause after an iteration's outcome: the error pause after an error, the success pause otherwise. */
  function PauseAfter(config: Config, outcome: Option<Error>): (d: int)
    ensures outcome.Some? ==> d == config.pauseAfterError
    ensures outcome.None? ==> d == config.pauseAfterSuccess
  {
    if outcome.Some? then config.pauseAfterError else config.pauseAfterSuccess
  }

  /**
    A pause follows every iteration but one that breaks or gives up; a run
    that returns nil ended in a pause; and the pause after each iteration is
    the error pause when it failed and the success pause when it succeeded.
   */
  lemma {:induction false} PauseCount(config: Config, outcomes: seq<Option<Error>>, cancels: seq<bool>, i: nat, errorCount: nat)
    requires i <= |outcomes|
    ensures var t := Loop(config, outcomes, cancels, i, errorCount);
      && (t.result == ScriptExhausted || t.result == Returned(None) ==> |t.pauses| == t.runs)
      && (t.result.Returned? && t.result.err.Some? ==> |t.pauses| == t.runs - 1)
      && |t.pauses| <= |outcomes| - i
      && (forall k :: 0 <= k < |t.pauses| ==> t.pauses[k] == PauseAfter(config, outcomes[i + k]))
    decreases |outcomes| - i
  {
    if i < |outcomes| {
      var err := outcomes[i];
      if !Is(err, BreakLoop) && !(err.Some? && errorCount + 1 >= config.errorCountToBreak) && !CancelAt(cancels, i) {
        var t := Loop(config, outcomes, cancels, i, errorCount);
        var rest := Loop(config, outcomes, cancels, i + 1, if err.Some? then errorCount + 1 else 0);
        PauseCount(config, outcomes, cancels, i + 1, if err.Some? then errorCount + 1 else 0);
        assert t.pauses == [PauseAfter(config, err)] + rest.pauses;
        forall k | 0 <= k < |t.pauses| ensures t.pauses[k] == PauseAfter(config, outcomes[i + k]) {
          if k > 0 {
            assert t.pauses[k] == rest.pauses[k - 1];
            assert i + 1 + (k - 1) == i + k;
          }
        }
      }
    }
  }

  /**
    The repository's error-pause case: two errors and then a break request,
    with three errors allowed: three runs, the break error returned, and an
    error pause after each of the two failures.
   */
  lemma PauseOnErrorScenario(config: Config, e: Error)
    requires config.errorCountToBreak == 3 && BreakLoop !in e.chain
    ensures Loop(config, [Some(e), Some(e), Some(BreakLoopError)], [], 0, 0)
      == Trace(Returned(Some(BreakLoopError)), [Failed(e), Failed(e)], 3, [config.pauseAfterError, config.pauseAfterError])
  {
    var outcomes := [Some(e), Some(e), Some(BreakLoopError)];
    assert Loop(config, outcomes, [], 2, 2) == Trace(Returned(Some(BreakLoopError)), [], 1, []);
    assert Loop(config, outcomes, [], 1, 1) == Trace(Returned(Some(BreakLoopError)), [Failed(e)], 2, [config.pauseAfterError]);
  }

  /** The repository's signal case: a success, then a signal in the pause: nil, one run, "cancelled" logged. */
  lemma SignalScenario(config: Config)
    ensures Loop(config, [None, Some(BreakLoopError)], [true], 0, 0)
      == Trace(Returned(None), [Succeeded, Cancelled], 1, [config.pauseAfterSuccess])
  {
  }
}
