/**
 * The life of an OBD connection after Open and Receive: the receive loop with its reconnects, a caller of
 * Close, and context cancellation, interleaved one atomic step at a time.
 */
module Lifecycle {
  import opened Arithmetic
  import opened Options

  datatype Mode = MonitorMode | PollMode | HybridMode

  const MIN_BACKOFF: nat := 1
  const MAX_BACKOFF: nat := 30

  /** Transports and the drivers over them are numbered in the order they are opened. */
  type Link = nat

  /** Where the receive loop stands. `failures` counts the failed attempts of the current reconnect. */
  datatype RunPc =
    | Fetching
    | Streaming(link: Link)
    | LinkLost
    | Dropping
    | Retrying(failures: nat, backoff: nat)
    | Opening(failures: nat, backoff: nat)
    | Initialising(failures: nat, backoff: nat, link: Link)
    | SettingFilters(failures: nat, backoff: nat, link: Link)
    | Publishing(failures: nat, backoff: nat, link: Link)
    | Aborting(failures: nat, backoff: nat, link: Link)
    | Waiting(failures: nat, backoff: nat)
    | Finished

  /** Where the caller of Close stands. */
  datatype ClosePc = Idle | Swapping | Closing(taken: Option<Link>)

  datatype State = State(
    mode: Mode,
    driver: Option<Link>,
    open: set<Link>,
    initialised: set<Link>,
    filtered: set<Link>,
    next: Link,
    streaming: bool,
    quit: bool,
    cancelled: bool,
    run: RunPc,
    close: ClosePc,
    waits: seq<(nat, nat)>)

  /** A step of one of the parties, with the outcome the environment picks for it. */
  datatype Step =
    | FetchDriver
    | StopStreaming
    | LoseLink
    | CheckStopping
    | DropDriver
    | OpenTransport(ok: bool)
    | InitDriver(ok: bool)
    | SetFilters(ok: bool)
    | CloseTransport
    | Publish
    | BackoffElapsed
    | BackoffInterrupted
    | Discontinue
    | SwapDriver
    | CloseDriver
    | Cancel

  /** After a successful Open and Receive. */
  function Initial(mode: Mode): State {
    State(mode, Some(0), {0}, {0}, {0}, 1, true, false, false, Fetching, Idle, [])
  }

  predicate Stopping(s: State) {
    s.quit || s.cancelled
  }

  /** What ends streaming cleanly: the quit channel; for polling also the context. */
  predicate StopSeen(s: State) {
    s.quit || (s.mode == PollMode && s.cancelled)
  }

  function NextBackoff(b: nat): nat {
    if b < MAX_BACKOFF then (if 2 * b > MAX_BACKOFF then MAX_BACKOFF else 2 * b) else b
  }

  /** run and reconnect */
  function RunStep(s: State, step: Step): State {
    match (s.run, step)
    case (Fetching, FetchDriver) =>
      s.(run := if s.driver == None then Finished else Streaming(s.driver.value))
    case (Streaming(_), StopStreaming) => if StopSeen(s) then s.(run := Finished) else s
    case (Streaming(_), LoseLink) => s.(run := LinkLost)
    case (LinkLost, CheckStopping) => s.(run := if Stopping(s) then Finished else Dropping)
    case (Dropping, DropDriver) =>
      s.(driver := None, open := if s.driver == None then s.open else s.open - {s.driver.value},
         run := Retrying(0, MIN_BACKOFF))
    case (Retrying(k, b), CheckStopping) => s.(run := if Stopping(s) then Finished else Opening(k, b))
    case (Opening(k, b), OpenTransport(ok)) =>
      if ok then s.(open := s.open + {s.next}, next := s.next + 1, run := Initialising(k, b, s.next))
      else s.(run := Waiting(k, b), waits := s.waits + [(k, b)])
    case (Initialising(k, b, l), InitDriver(ok)) =>
      if ok then s.(run := SettingFilters(k, b, l), initialised := s.initialised + {l})
      else s.(run := Aborting(k, b, l))
    case (SettingFilters(k, b, l), SetFilters(ok)) =>
      if ok then s.(run := Publishing(k, b, l), filtered := s.filtered + {l}) else s.(run := Aborting(k, b, l))
    case (Aborting(k, b, l), CloseTransport) =>
      s.(open := s.open - {l}, run := Waiting(k, b), waits := s.waits + [(k, b)])
    case (Publishing(_, _, l), Publish) => s.(driver := Some(l), run := Fetching)
    case (Waiting(k, b), BackoffElapsed) => s.(run := Retrying(k + 1, NextBackoff(b)))
    case (Waiting(_, _), BackoffInterrupted) => if Stopping(s) then s.(run := Finished) else s
    case _ => s
  }

  /** Close, any number of times by one caller, and cancellation of the context. */
  function OuterStep(s: State, step: Step): State {
    match (s.close, step)
    case (Idle, Discontinue) => s.(quit := s.quit || s.streaming, streaming := false, close := Swapping)
    case (Swapping, SwapDriver) => s.(close := Closing(s.driver), driver := None)
    case (Closing(taken), CloseDriver) =>
      s.(open := if taken == None then s.open else s.open - {taken.value}, close := Idle)
    case (_, Cancel) => s.(cancelled := true)
    case _ => s
  }

  predicate IsRunStep(step: Step) {
    !step.Discontinue? && !step.SwapDriver? && !step.CloseDriver? && !step.Cancel?
  }

  /** One step; a step not enabled in `s` changes nothing. */
  function Exec(s: State, step: Step): State {
    if IsRunStep(step) then RunStep(s, step) else OuterStep(s, step)
  }

  function ExecAll(s: State, steps: seq<Step>): State {
    if steps == [] then s else Exec(ExecAll(s, steps[..|steps| - 1]), steps[|steps| - 1])
  }

  // -------------------------------------------------------------- invariant

  /** The link a connect() in progress has opened but not yet published. */
  function InFlight(pc: RunPc): Option<Link> {
    match pc
    case Initialising(_, _, l) => Some(l)
    case SettingFilters(_, _, l) => Some(l)
    case Publishing(_, _, l) => Some(l)
    case Aborting(_, _, l) => Some(l)
    case _ => None
  }

  predicate Reconnecting(pc: RunPc) {
    pc.Retrying? || pc.Opening? || pc.Waiting? || InFlight(pc).Some?
  }

  function Taken(pc: ClosePc): Option<Link> {
    if pc.Closing? then pc.taken else None
  }

  function AsSet(l: Option<Link>): set<Link> {
    if l == None then {} else {l.value}
  }

  /** Every open transport has exactly one holder: the driver field, Close, or a connect in progress. */
  predicate OneHolder(s: State) {
    && s.open == AsSet(s.driver) + AsSet(Taken(s.close)) + AsSet(InFlight(s.run))
    && (Reconnecting(s.run) ==> s.driver == None)
    && (Taken(s.close).Some? ==> s.driver == None && InFlight(s.run) == None && !s.run.Opening?)
    && (s.close != Idle ==> s.quit)
    && (s.streaming || s.quit)
  }

  /** Only links whose Init and SetFilters both succeeded are published or streamed from. */
  predicate OnlyConfigured(s: State) {
    && (s.driver.Some? ==> Configured(s, s.driver.value))
    && (s.run.Streaming? ==> Configured(s, s.run.link))
    && (s.run.SettingFilters? ==> s.run.link in s.initialised)
    && (s.run.Publishing? ==> Configured(s, s.run.link))
  }

  predicate Configured(s: State, l: Link) {
    l in s.initialised && l in s.filtered
  }

  function Min(a: nat, b: nat): nat {
    if a < b then a else b
  }

  /** Backoffs double from one second up to thirty. */
  predicate Backoffs(s: State) {
    && (s.run.Retrying? || s.run.Opening? || s.run.Waiting? || InFlight(s.run).Some? ==>
          s.run.backoff == Min(Pow2(s.run.failures), MAX_BACKOFF))
    && AllDouble(s.waits)
  }

  predicate AllDouble(waits: seq<(nat, nat)>) {
    forall i :: 0 <= i < |waits| ==> waits[i].1 == Min(Pow2(waits[i].0), MAX_BACKOFF)
  }

  predicate Inv(s: State) {
    OneHolder(s) && OnlyConfigured(s) && Backoffs(s)
  }

  lemma {:induction false} StepKeepsHolder(s: State, step: Step)
    requires OneHolder(s)
    ensures OneHolder(Exec(s, step))
  {
    if IsRunStep(step) { RunKeepsHolder(s, step); }
  }

  lemma {:induction false} RunKeepsHolder(s: State, step: Step)
    requires OneHolder(s)
    ensures OneHolder(RunStep(s, step))
  {
  }

  lemma {:induction false} StepKeepsConfigured(s: State, step: Step)
    requires OnlyConfigured(s)
    ensures OnlyConfigured(Exec(s, step))
  {
    if IsRunStep(step) { RunKeepsConfigured(s, step); }
  }

  lemma {:induction false} RunKeepsConfigured(s: State, step: Step)
    requires OnlyConfigured(s)
    ensures OnlyConfigured(RunStep(s, step))
  {
  }

  lemma {:induction false} StepKeepsBackoffs(s: State, step: Step)
    requires Backoffs(s)
    ensures Backoffs(Exec(s, step))
  {
    if IsRunStep(step) { RunKeepsBackoffs(s, step); }
  }

  lemma {:induction false} RunKeepsBackoffs(s: State, step: Step)
    requires Backoffs(s)
    ensures Backoffs(RunStep(s, step))
  {
    if s.run.Waiting? { NextBackoffDoubles(s.run.failures); }
    assert Pow2(0) == 1 && Min(1, MAX_BACKOFF) == MIN_BACKOFF;
    forall k: nat, b | b == Min(Pow2(k), MAX_BACKOFF)
      ensures AllDouble(s.waits + [(k, b)])
    {
    }
    hide Pow2, Min, NextBackoff, AllDouble;
  }

  lemma {:induction false} NextBackoffDoubles(k: nat)
    ensures NextBackoff(Min(Pow2(k), MAX_BACKOFF)) == Min(Pow2(k + 1), MAX_BACKOFF)
  {
  }

  lemma {:induction false} Reachable(mode: Mode, steps: seq<Step>)
    ensures Inv(ExecAll(Initial(mode), steps))
  {
    hide Exec;
    if steps == [] {
      assert Pow2(0) == 1;
    } else {
      var before, step := ExecAll(Initial(mode), steps[..|steps| - 1]), steps[|steps| - 1];
      Reachable(mode, steps[..|steps| - 1]);
      StepKeepsHolder(before, step);
      StepKeepsConfigured(before, step);
      StepKeepsBackoffs(before, step);
    }
  }

  // ------------------------------------------------------------ main results

  /** In every interleaving at most one transport is open. */
  lemma {:induction false} AtMostOneOpen(mode: Mode, steps: seq<Step>)
    ensures |ExecAll(Initial(mode), steps).open| <= 1
  {
    Reachable(mode, steps);
    var s := ExecAll(Initial(mode), steps);
    var holders := AsSet(s.driver) + AsSet(Taken(s.close)) + AsSet(InFlight(s.run));
    assert |holders| <= 1;
  }

  /** connect() never overwrites a driver, and publishes only a configured one. */
  lemma {:induction false} PublishReplacesNothing(mode: Mode, steps: seq<Step>)
    ensures
      var s := ExecAll(Initial(mode), steps);
      s.run.Publishing? ==> s.driver == None && Configured(s, s.run.link)
  {
    Reachable(mode, steps);
  }

  /** The receive loop only streams from a driver whose Init and SetFilters succeeded. */
  lemma {:induction false} StreamsOnlyConfigured(mode: Mode, steps: seq<Step>)
    ensures
      var s := ExecAll(Initial(mode), steps);
      s.run.Streaming? ==> Configured(s, s.run.link)
  {
    Reachable(mode, steps);
  }

  /** Each wait after the k-th failed attempt of a reconnect lasts min(2^k, 30) seconds. */
  lemma {:induction false} WaitsDouble(mode: Mode, steps: seq<Step>, i: nat)
    requires i < |ExecAll(Initial(mode), steps).waits|
    ensures
      var (k, seconds) := ExecAll(Initial(mode), steps).waits[i];
      seconds == Min(Pow2(k), 30)
  {
    Reachable(mode, steps);
  }

  /** A loop that has ended, cleanly or not, opens nothing any more. */
  lemma {:induction false} FinishedStays(s: State, steps: seq<Step>)
    requires s.run.Finished?
    ensures ExecAll(s, steps).run.Finished? && ExecAll(s, steps).next == s.next
  {
    hide Exec;
    if steps != [] {
      FinishedStays(s, steps[..|steps| - 1]);
      StepKeepsFinished(ExecAll(s, steps[..|steps| - 1]), steps[|steps| - 1]);
    }
  }

  lemma {:induction false} StepKeepsFinished(s: State, step: Step)
    requires s.run.Finished?
    ensures Exec(s, step).run.Finished? && Exec(s, step).next == s.next
  {
  }

  /** So a stream that stops cleanly is never followed by a reconnect. */
  lemma {:induction false} CleanStopNeverReconnects(s: State, steps: seq<Step>)
    requires s.run.Streaming? && StopSeen(s)
    ensures ExecAll(Exec(s, StopStreaming), steps).run.Finished?
    ensures ExecAll(Exec(s, StopStreaming), steps).next == s.next
  {
    FinishedStays(Exec(s, StopStreaming), steps);
  }

  /** Once shutdown is requested, at most the transport a connect() is just about to open is still opened. */
  lemma {:induction false} AtMostOneMoreOpened(s: State, steps: seq<Step>)
    requires Stopping(s)
    ensures Stopping(ExecAll(s, steps)) && WillHaveOpened(ExecAll(s, steps)) <= WillHaveOpened(s)
  {
    hide Exec;
    if steps != [] {
      AtMostOneMoreOpened(s, steps[..|steps| - 1]);
      StoppingOpensNothingNew(ExecAll(s, steps[..|steps| - 1]), steps[|steps| - 1]);
    }
  }

  /** Transports opened so far, counting the one about to be. */
  function WillHaveOpened(s: State): nat {
    s.next + if s.run.Opening? then 1 else 0
  }

  lemma {:induction false} StoppingOpensNothingNew(s: State, step: Step)
    requires Stopping(s)
    ensures Stopping(Exec(s, step)) && WillHaveOpened(Exec(s, step)) <= WillHaveOpened(s)
  {
  }

  // ------------------------------------------------------------- reconnecting

  /** The driver is missing only during a reconnect or once a stop was requested, and so has the loop not ended. */
  predicate KeepsGoing(s: State) {
    && (s.driver == None ==> Stopping(s) || Reconnecting(s.run))
    && (s.run.Finished? ==> Stopping(s))
  }

  /** The loop never gives up on its own: as long as nobody asks for a stop, it has not ended. */
  lemma {:induction false} FinishedOnlyWhenStopping(mode: Mode, steps: seq<Step>)
    ensures
      var s := ExecAll(Initial(mode), steps);
      s.run.Finished? ==> s.quit || s.cancelled
  {
    KeepsGoingThroughout(mode, steps);
  }

  lemma {:induction false} KeepsGoingThroughout(mode: Mode, steps: seq<Step>)
    ensures KeepsGoing(ExecAll(Initial(mode), steps))
  {
    hide Exec;
    if steps != [] {
      var front := steps[..|steps| - 1];
      KeepsGoingThroughout(mode, front);
      Reachable(mode, front);
      StepKeepsGoing(ExecAll(Initial(mode), front), steps[|steps| - 1]);
    }
  }

  lemma {:induction false} StepKeepsGoing(s: State, step: Step)
    requires KeepsGoing(s) && OneHolder(s)
    ensures KeepsGoing(Exec(s, step))
  {
    if IsRunStep(step) { RunKeepsGoing(s, step); }
  }

  lemma {:induction false} RunKeepsGoing(s: State, step: Step)
    requires KeepsGoing(s)
    ensures KeepsGoing(RunStep(s, step))
  {
  }

  /** Where an attempt to connect can fail. */
  datatype Failure = AtOpen | AtInit | AtFilters

  /** A failed attempt, and the wait after it until the next. */
  function Attempt(f: Failure): seq<Step> {
    match f
    case AtOpen => [OpenTransport(false), BackoffElapsed, CheckStopping]
    case AtInit => [OpenTransport(true), InitDriver(false), CloseTransport, BackoffElapsed, CheckStopping]
    case AtFilters =>
      [OpenTransport(true), InitDriver(true), SetFilters(false), CloseTransport, BackoffElapsed, CheckStopping]
  }

  function Attempts(fs: seq<Failure>): seq<Step> {
    if fs == [] then [] else Attempts(fs[..|fs| - 1]) + Attempt(fs[|fs| - 1])
  }

  const LOSS := [LoseLink, CheckStopping, DropDriver, CheckStopping]
  const SUCCESS := [OpenTransport(true), InitDriver(true), SetFilters(true), Publish, FetchDriver]

  lemma {:induction false} ExecConcat(s: State, a: seq<Step>, b: seq<Step>)
    ensures ExecAll(s, a + b) == ExecAll(ExecAll(s, a), b)
  {
    hide Exec;
    if b == [] {
      assert a + b == a;
    } else {
      ExecConcat(s, a, b[..|b| - 1]);
      assert (a + b)[..|a + b| - 1] == a + b[..|b| - 1];
    }
  }

  /** Runs steps from the front. */
  function Play(s: State, steps: seq<Step>): State
    decreases |steps|
  {
    if steps == [] then s else Play(Exec(s, steps[0]), steps[1..])
  }

  lemma {:induction false} PlayIsExecAll(s: State, steps: seq<Step>)
    ensures Play(s, steps) == ExecAll(s, steps)
    decreases |steps|
  {
    hide Exec;
    if steps != [] {
      assert steps == [steps[0]] + steps[1..];
      ExecCons(s, steps[0], steps[1..]);
      PlayIsExecAll(Exec(s, steps[0]), steps[1..]);
    }
  }

  lemma {:induction false} PlayOn(s: State, steps: seq<Step>, step: Step, rest: seq<Step>)
    requires steps == [step] + rest
    ensures Play(s, steps) == Play(Exec(s, step), rest)
  {
    hide Exec;
    assert steps[1..] == rest;
  }

  lemma {:induction false} OpenStep(s: State, ok: bool)
    requires s.run.Opening?
    ensures
      var k, b := s.run.failures, s.run.backoff;
      Exec(s, OpenTransport(ok)) ==
        if ok then s.(open := s.open + {s.next}, next := s.next + 1, run := Initialising(k, b, s.next))
        else s.(run := Waiting(k, b), waits := s.waits + [(k, b)])
  {
  }

  lemma {:induction false} InitStep(s: State, ok: bool)
    requires s.run.Initialising?
    ensures
      var k, b, l := s.run.failures, s.run.backoff, s.run.link;
      Exec(s, InitDriver(ok)) ==
        if ok then s.(run := SettingFilters(k, b, l), initialised := s.initialised + {l})
        else s.(run := Aborting(k, b, l))
  {
  }

  lemma {:induction false} FilterStep(s: State, ok: bool)
    requires s.run.SettingFilters?
    ensures
      var k, b, l := s.run.failures, s.run.backoff, s.run.link;
      Exec(s, SetFilters(ok)) ==
        if ok then s.(run := Publishing(k, b, l), filtered := s.filtered + {l}) else s.(run := Aborting(k, b, l))
  {
  }

  /** A failed attempt closes what it opened and waits. */
  lemma {:induction false} AbortSteps(s: State)
    requires s.run.Aborting?
    ensures
      var k, b := s.run.failures, s.run.backoff;
      Exec(s, CloseTransport) == s.(open := s.open - {s.run.link}, run := Waiting(k, b), waits := s.waits + [(k, b)])
  {
  }

  /** After the wait the next attempt begins, with twice the wait. */
  lemma {:induction false} WaitSteps(s: State)
    requires s.run.Waiting? && !Stopping(s)
    ensures
      Play(s, [BackoffElapsed, CheckStopping]) == s.(run := Opening(s.run.failures + 1, NextBackoff(s.run.backoff)))
  {
    var t := s.(run := Retrying(s.run.failures + 1, NextBackoff(s.run.backoff)));
    assert Exec(s, BackoffElapsed) == t;
    assert Exec(t, CheckStopping) == t.(run := Opening(s.run.failures + 1, NextBackoff(s.run.backoff)));
    hide Exec, NextBackoff;
    PlayOn(s, [BackoffElapsed, CheckStopping], BackoffElapsed, [CheckStopping]);
    PlayOn(t, [CheckStopping], CheckStopping, []);
  }

  /** A driver that passed Init and SetFilters is published and streamed from. */
  lemma {:induction false} PublishSteps(s: State)
    requires s.run.Publishing?
    ensures Play(s, [Publish, FetchDriver]) == s.(driver := Some(s.run.link), run := Streaming(s.run.link))
  {
    var t := s.(driver := Some(s.run.link), run := Fetching);
    assert Exec(s, Publish) == t;
    assert Exec(t, FetchDriver) == t.(run := Streaming(s.run.link));
    hide Exec;
    PlayOn(s, [Publish, FetchDriver], Publish, [FetchDriver]);
    PlayOn(t, [FetchDriver], FetchDriver, []);
  }

  /** Losing the link of a loop nobody stops leads to the first attempt, the old link closed. */
  lemma {:induction false} LossStartsReconnect(s: State)
    requires s.run.Streaming? && !Stopping(s)
    ensures
      var t := ExecAll(s, LOSS);
      && t.run == Opening(0, MIN_BACKOFF) && t.driver == None && !Stopping(t)
      && t.open == s.open - AsSet(s.driver) && t.waits == s.waits && t.next == s.next
  {
    var a := Exec(s, LoseLink);
    var b := Exec(a, CheckStopping);
    var c := Exec(b, DropDriver);
    assert c.run == Retrying(0, MIN_BACKOFF) && c.open == s.open - AsSet(s.driver);
    assert Exec(c, CheckStopping) == c.(run := Opening(0, MIN_BACKOFF));
    hide Exec;
    PlayIsExecAll(s, LOSS);
    PlayOn(s, LOSS, LoseLink, [CheckStopping, DropDriver, CheckStopping]);
    PlayOn(a, [CheckStopping, DropDriver, CheckStopping], CheckStopping, [DropDriver, CheckStopping]);
    PlayOn(b, [DropDriver, CheckStopping], DropDriver, [CheckStopping]);
    PlayOn(c, [CheckStopping], CheckStopping, []);
  }

  /** A failed attempt closes what it opened, waits, doubles the wait and comes back for another. */
  lemma {:induction false} FailureRetries(s: State, f: Failure)
    requires s.run.Opening? && !Stopping(s)
    ensures
      var t := ExecAll(s, Attempt(f));
      && t.run == Opening(s.run.failures + 1, NextBackoff(s.run.backoff)) && !Stopping(t)
      && t.driver == s.driver && t.open <= s.open && t.next >= s.next
      && t.waits == s.waits + [(s.run.failures, s.run.backoff)]
  {
    hide Exec, Play, NextBackoff;
    PlayIsExecAll(s, Attempt(f));
    OpenStep(s, !f.AtOpen?);
    var steps := Attempt(f);
    PlayOn(s, steps, steps[0], steps[1..]);
    var t := Exec(s, OpenTransport(!f.AtOpen?));
    match f
    case AtOpen =>
      WaitSteps(t);
    case AtInit =>
      InitStep(t, false);
      PlayOn(t, steps[1..], InitDriver(false), steps[2..]);
      AbortRetries(Exec(t, InitDriver(false)), steps[2..]);
    case AtFilters =>
      InitStep(t, true);
      PlayOn(t, steps[1..], InitDriver(true), steps[2..]);
      var u := Exec(t, InitDriver(true));
      FilterStep(u, false);
      PlayOn(u, steps[2..], SetFilters(false), steps[3..]);
      AbortRetries(Exec(u, SetFilters(false)), steps[3..]);
  }

  lemma {:induction false} AbortRetries(s: State, steps: seq<Step>)
    requires s.run.Aborting? && !Stopping(s) && steps == [CloseTransport, BackoffElapsed, CheckStopping]
    ensures
      var k, b := s.run.failures, s.run.backoff;
      Play(s, steps) == s.(open := s.open - {s.run.link}, waits := s.waits + [(k, b)],
                           run := Opening(k + 1, NextBackoff(b)))
  {
    hide Exec, Play, NextBackoff;
    AbortSteps(s);
    PlayOn(s, steps, CloseTransport, [BackoffElapsed, CheckStopping]);
    WaitSteps(Exec(s, CloseTransport));
  }

  lemma {:induction false} FirstBackoff()
    ensures Min(Pow2(0), MAX_BACKOFF) == MIN_BACKOFF
  {
  }

  lemma {:induction false} AttemptsRetry(s: State, fs: seq<Failure>)
    requires s.run == Opening(0, MIN_BACKOFF) && !Stopping(s)
    ensures
      var t := ExecAll(s, Attempts(fs));
      && t.run == Opening(|fs|, Min(Pow2(|fs|), MAX_BACKOFF)) && !Stopping(t)
      && t.driver == s.driver && t.open <= s.open && t.next >= s.next
      && t.waits == s.waits + seq(|fs|, k requires 0 <= k < |fs| => (k, Min(Pow2(k), MAX_BACKOFF)))
  {
    hide Exec, Attempt, ExecAll, Pow2, Min, NextBackoff;
    if fs == [] {
      PlayIsExecAll(s, []);
      FirstBackoff();
    } else {
      var n := |fs| - 1;
      AttemptsRetry(s, fs[..n]);
      var t := ExecAll(s, Attempts(fs[..n]));
      ExecConcat(s, Attempts(fs[..n]), Attempt(fs[n]));
      FailureRetries(t, fs[n]);
      NextBackoffDoubles(n);
    }
  }

  lemma {:induction false} SuccessStreams(s: State)
    requires s.run.Opening? && !Stopping(s)
    ensures
      var t := ExecAll(s, SUCCESS);
      && t.run == Streaming(s.next) && t.driver == Some(s.next) && !Stopping(t)
      && t.open == s.open + {s.next} && t.next == s.next + 1 && t.waits == s.waits
  {
    hide Exec, Play;
    PlayIsExecAll(s, SUCCESS);
    OpenStep(s, true);
    PlayOn(s, SUCCESS, OpenTransport(true), SUCCESS[1..]);
    var t := Exec(s, OpenTransport(true));
    InitStep(t, true);
    PlayOn(t, SUCCESS[1..], InitDriver(true), SUCCESS[2..]);
    var u := Exec(t, InitDriver(true));
    FilterStep(u, true);
    PlayOn(u, SUCCESS[2..], SetFilters(true), SUCCESS[3..]);
    PublishSteps(Exec(u, SetFilters(true)));
  }

  /**
   * A lost link is replaced: after any failed attempts, each followed by the wait it is due, the first one that goes
   * through puts the loop back to streaming, from a new transport, and the old one is closed.
   */
  lemma {:induction false} LostLinkIsReplaced(s: State, fs: seq<Failure>)
    requires s.run.Streaming? && !Stopping(s)
    ensures
      var t := ExecAll(s, LOSS + Attempts(fs) + SUCCESS);
      && t.run.Streaming? && t.run.link >= s.next && t.driver == Some(t.run.link)
      && t.run.link in t.open && t.open <= (s.open - AsSet(s.driver)) + {t.run.link}
      && t.waits == s.waits + seq(|fs|, k requires 0 <= k < |fs| => (k, if Pow2(k) < 30 then Pow2(k) else 30))
  {
    hide Exec, ExecAll, Attempts;
    LossStartsReconnect(s);
    var a := ExecAll(s, LOSS);
    AttemptsRetry(a, fs);
    var b := ExecAll(a, Attempts(fs));
    SuccessStreams(b);
    ExecConcat(s, LOSS, Attempts(fs));
    ExecConcat(s, LOSS + Attempts(fs), SUCCESS);
  }

  /** A stop ends the loop wherever it looks for one: while streaming, before each attempt and during each wait. */
  lemma {:induction false} StopEndsLoop(s: State)
    requires s.quit
    ensures s.run.Streaming? ==> Exec(s, StopStreaming).run.Finished?
    ensures s.run.LinkLost? || s.run.Retrying? ==> Exec(s, CheckStopping).run.Finished?
    ensures s.run.Waiting? ==> Exec(s, BackoffInterrupted).run.Finished?
  {
  }

  /** Cancelling the context does so too, but in the monitor and hybrid modes not while streaming. */
  lemma {:induction false} CancelEndsLoop(s: State)
    requires s.cancelled && !s.quit
    ensures s.run.Streaming? ==> (Exec(s, StopStreaming).run.Finished? <==> s.mode == PollMode)
    ensures s.run.LinkLost? || s.run.Retrying? ==> Exec(s, CheckStopping).run.Finished?
    ensures s.run.Waiting? ==> Exec(s, BackoffInterrupted).run.Finished?
  {
  }

  // ------------------------------------------------- what Close leaves behind

  /** Close is over, and so is the receive loop. */
  predicate Quiet(s: State) {
    s.close == Idle && s.run.Finished?
  }

  /** A connect() past its last stop check, which may still publish a driver nobody will close. */
  predicate MayStillPublish(pc: RunPc) {
    pc.Opening? || pc.Initialising? || pc.SettingFilters? || pc.Publishing?
  }

  /** Nothing is left to publish: what is open is being closed by one of the two parties. */
  predicate Winding(s: State) {
    && s.quit && s.driver == None && !MayStillPublish(s.run)
    && s.open <= AsSet(Taken(s.close)) + (if s.run.Aborting? then {s.run.link} else {})
  }

  lemma {:induction false} WindingDown(s: State, steps: seq<Step>)
    requires Winding(s)
    ensures Winding(ExecAll(s, steps))
  {
    hide Exec;
    if steps != [] {
      WindingDown(s, steps[..|steps| - 1]);
      StepKeepsWinding(ExecAll(s, steps[..|steps| - 1]), steps[|steps| - 1]);
    }
  }

  lemma {:induction false} StepKeepsWinding(s: State, step: Step)
    requires Winding(s)
    ensures Winding(Exec(s, step))
  {
  }

  /** The rest of a connect() that succeeds, the stop after it, and the end of Close. */
  function PublishLate(pc: RunPc): seq<Step>
    requires MayStillPublish(pc)
  {
    var tail := [Publish, FetchDriver, StopStreaming, CloseDriver];
    match pc
    case Publishing(_, _, _) => tail
    case SettingFilters(_, _, _) => [SetFilters(true)] + tail
    case Initialising(_, _, _) => [InitDriver(true)] + ([SetFilters(true)] + tail)
    case Opening(_, _) => [OpenTransport(true)] + ([InitDriver(true)] + ([SetFilters(true)] + tail))
  }

  lemma {:induction false} ExecCons(s: State, step: Step, steps: seq<Step>)
    ensures ExecAll(s, [step] + steps) == ExecAll(Exec(s, step), steps)
  {
    hide Exec;
    if steps == [] {
      assert [step] + steps == [step] && [step][..0] == [];
    } else {
      var n := |steps| - 1;
      ExecCons(s, step, steps[..n]);
      assert ([step] + steps)[..|steps|] == [step] + steps[..n];
    }
  }

  /**
   * Close guarantees that nothing stays open exactly when no connect() is past its last stop check at the
   * moment Close takes the driver: then every quiet end has no open transport, and otherwise some end has one.
   */
  lemma {:induction false} CloseLeavesNothingIff(mode: Mode, before: seq<Step>)
    requires ExecAll(Initial(mode), before).close == Swapping
    ensures
      var s := ExecAll(Initial(mode), before);
      var swapped := Exec(s, SwapDriver);
      !MayStillPublish(s.run) <==>
        forall steps: seq<Step> :: Quiet(ExecAll(swapped, steps)) ==> ExecAll(swapped, steps).open == {}
  {
    hide Exec;
    Reachable(mode, before);
    var s := ExecAll(Initial(mode), before);
    var swapped := Exec(s, SwapDriver);
    if MayStillPublish(s.run) {
      LateLinkStaysOpen(s);
      assert Quiet(ExecAll(swapped, PublishLate(s.run)));
    } else {
      SwapWinds(s);
      forall steps: seq<Step> | Quiet(ExecAll(swapped, steps))
        ensures ExecAll(swapped, steps).open == {}
      {
        WindingDown(swapped, steps);
      }
    }
  }

  lemma {:induction false} SwapWinds(s: State)
    requires Inv(s) && s.close == Swapping && !MayStillPublish(s.run)
    ensures Winding(Exec(s, SwapDriver))
  {
  }

  lemma {:induction false} LateLinkStaysOpen(s: State)
    requires Inv(s) && s.close == Swapping && MayStillPublish(s.run)
    ensures
      var end := ExecAll(Exec(s, SwapDriver), PublishLate(s.run));
      Quiet(end) && end.open != {}
  {
    LateConnect(Exec(s, SwapDriver));
  }

  /** With the driver already taken, a connect() that goes through ends up with an open transport. */
  lemma {:induction false} LateConnect(s: State)
    requires s.close == Closing(None) && s.quit && MayStillPublish(s.run)
    requires InFlight(s.run).Some? ==> InFlight(s.run).value in s.open
    ensures
      var end := ExecAll(s, PublishLate(s.run));
      Quiet(end) && end.open != {}
    decreases if s.run.Opening? then 3 else if s.run.Initialising? then 2 else if s.run.SettingFilters? then 1 else 0
  {
    hide ExecAll;
    match s.run
    case Publishing(_, _, _) => LatePublish(s);
    case SettingFilters(_, _, _) =>
      var t := Exec(s, SetFilters(true));
      ExecCons(s, SetFilters(true), PublishLate(t.run));
      LateConnect(t);
    case Initialising(_, _, _) =>
      var t := Exec(s, InitDriver(true));
      ExecCons(s, InitDriver(true), PublishLate(t.run));
      LateConnect(t);
    case Opening(_, _) =>
      var t := Exec(s, OpenTransport(true));
      ExecCons(s, OpenTransport(true), PublishLate(t.run));
      LateConnect(t);
  }

  lemma {:induction false} LatePublish(s: State)
    requires s.close == Closing(None) && s.quit && s.run.Publishing? && s.run.link in s.open
    ensures
      var end := ExecAll(s, [Publish, FetchDriver, StopStreaming, CloseDriver]);
      Quiet(end) && end.open != {}
  {
    hide ExecAll;
    var t := Exec(s, Publish);
    var u := Exec(t, FetchDriver);
    var v := Exec(u, StopStreaming);
    assert [Publish, FetchDriver, StopStreaming, CloseDriver] == [Publish] + [FetchDriver, StopStreaming, CloseDriver];
    ExecCons(s, Publish, [FetchDriver, StopStreaming, CloseDriver]);
    assert [FetchDriver, StopStreaming, CloseDriver] == [FetchDriver] + [StopStreaming, CloseDriver];
    ExecCons(t, FetchDriver, [StopStreaming, CloseDriver]);
    assert [StopStreaming, CloseDriver] == [StopStreaming] + [CloseDriver];
    ExecCons(u, StopStreaming, [CloseDriver]);
    ExecOne(v, CloseDriver);
  }

  lemma {:induction false} ExecOne(s: State, step: Step)
    ensures ExecAll(s, [step]) == Exec(s, step)
  {
    assert [step][..0] == [];
    assert ExecAll(s, []) == s;
  }
}
