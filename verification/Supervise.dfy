/**
 Supervised shutdown of the admin server: superviseAdmin (cmd/graph2otel/main.go) around
 Server.Start (internal/admin/admin.go), as interleaved steps of its goroutines.
 */
module Supervise {
  import opened Options

  /** What Start, the listener and Shutdown return: Go's nil, http.ErrServerClosed, another
      error; and the error superviseAdmin makes itself. */
  datatype Outcome = Nil | ServerClosed | Failure | StoppedUnexpectedly

  datatype Supervisor =
    | Spawning
    | Selecting
    | Received(result: Outcome)     // the result branch, before it looks at the context
    | AwaitingResult                // the cancellation branch
    | Finishing(result: Outcome)
    | Draining(result: Outcome)     // tenants cancelled, inside waitTenants
    | Returned(result: Outcome)

  datatype Starter =
    | Idle
    | Entered
    | SamplerStarted
    | Serving                       // in its select
    | ShuttingDown
    | Leaving(result: Outcome)      // the deferred function: cancel the sampler
    | Joining(result: Outcome)      // and wait for it
    | Sending(result: Outcome)      // Start has returned; the result goes to the channel
    | Ended

  datatype Goroutine = NotStarted | Running | Over

  datatype Call = CancelTenants | WaitTenants

  datatype State = State(
    cancelled: bool,                // the process context
    supervisor: Supervisor,
    start: Starter,
    sampler: Goroutine,
    samplerCancelled: bool,
    listener: Goroutine,
    shutdownBegun: bool,
    errCh: Option<Outcome>,         // both channels have room for one value
    adminResult: Option<Outcome>,
    startResult: Option<Outcome>,   // what Start returned
    calls: seq<Call>,
    drained: bool)

  const INIT := State(false, Spawning, Idle, NotStarted, false, NotStarted, false, None, None, None, [], false)

  datatype Action =
    | CancelContext
    | Spawn
    | StartSampler
    | StartListener
    | SeeCancel                     // Start's select takes ctx.Done()
    | SeeError(e: Outcome)          // Start's select takes errCh
    | ShutdownReturns(e: Outcome)
    | CancelSampler
    | JoinSampler
    | SendResult
    | SamplerEnds
    | ListenerReturns(e: Outcome)
    | TakeResult                    // the supervisor's select takes adminResult
    | CheckContext
    | TakeCancel                    // the supervisor's select takes ctx.Done()
    | DrainResult
    | Cancel
    | TenantsDrain
    | Wait

  /** The state after an action, when the action can happen. */
  function Act(s: State, a: Action): Option<State> {
    match a
    case CancelContext => if s.cancelled then None else Some(s.(cancelled := true))
    case Spawn =>
      if s.supervisor != Spawning then None else Some(s.(supervisor := Selecting, start := Entered))
    case StartSampler =>
      if s.start != Entered then None else Some(s.(start := SamplerStarted, sampler := Running))
    case StartListener =>
      if s.start != SamplerStarted then None else Some(s.(start := Serving, listener := Running))
    case SeeCancel =>
      if s.start != Serving || !s.cancelled then None else Some(s.(start := ShuttingDown, shutdownBegun := true))
    case SeeError(e) =>
      if s.start != Serving || s.errCh != Some(e) then None
      else Some(s.(errCh := None, start := Leaving(if e == ServerClosed then Nil else e)))
    case ShutdownReturns(e) =>
      if s.start != ShuttingDown || (e != Nil && e != Failure) then None else Some(s.(start := Leaving(e)))
    case CancelSampler =>
      if !s.start.Leaving? then None else Some(s.(start := Joining(s.start.result), samplerCancelled := true))
    case JoinSampler =>
      if !s.start.Joining? || s.sampler != Over then None
      else Some(s.(start := Sending(s.start.result), startResult := Some(s.start.result)))
    case SendResult =>
      if !s.start.Sending? || s.adminResult.Some? then None
      else Some(s.(start := Ended, adminResult := Some(s.start.result)))
    case SamplerEnds =>
      if s.sampler != Running || !(s.cancelled || s.samplerCancelled) then None else Some(s.(sampler := Over))
    case ListenerReturns(e) =>
      if s.listener != Running || s.errCh.Some? || (e != ServerClosed && e != Failure) then None
      else Some(s.(listener := Over, errCh := Some(e)))
    case TakeResult =>
      if s.supervisor != Selecting || s.adminResult.None? then None
      else Some(s.(supervisor := Received(s.adminResult.value), adminResult := None))
    case CheckContext =>
      if !s.supervisor.Received? then None
      else
        var e := s.supervisor.result;
        Some(s.(supervisor := Finishing(if e == Nil && !s.cancelled then StoppedUnexpectedly else e)))
    case TakeCancel =>
      if s.supervisor != Selecting || !s.cancelled then None else Some(s.(supervisor := AwaitingResult))
    case DrainResult =>
      if s.supervisor != AwaitingResult || s.adminResult.None? then None
      else Some(s.(supervisor := Finishing(s.adminResult.value), adminResult := None))
    case Cancel =>
      if !s.supervisor.Finishing? then None
      else Some(s.(supervisor := Draining(s.supervisor.result), calls := s.calls + [CancelTenants]))
    case TenantsDrain =>
      if CancelTenants !in s.calls || s.drained then None else Some(s.(drained := true))
    case Wait =>
      if !s.supervisor.Draining? || !s.drained then None
      else Some(s.(supervisor := Returned(s.supervisor.result), calls := s.calls + [WaitTenants]))
  }

  // -------------------------------------------------------------- what every step keeps

  /** Start's own part. */
  predicate StartInv(s: State) {
    && (s.start == Idle <==> s.supervisor == Spawning)
    && (s.sampler == NotStarted <==> s.start.Idle? || s.start.Entered?)
    && (s.listener == NotStarted <==> s.start.Idle? || s.start.Entered? || s.start.SamplerStarted?)
    && (s.start.Joining? ==> s.samplerCancelled)
    && (s.start.Sending? || s.start.Ended? ==> s.sampler == Over)
    && (s.errCh.Some? ==> s.listener == Over && s.errCh.value in {ServerClosed, Failure})
    && (s.start == Serving && s.listener == Over ==> s.errCh.Some?)
    && (s.start.ShuttingDown? ==> s.shutdownBegun)
    && (s.start.Leaving? || s.start.Joining? || s.start.Sending? || s.start.Ended? ==>
          s.shutdownBegun || s.listener == Over)
    && (s.shutdownBegun ==> s.cancelled)
    && (s.startResult.Some? <==> s.start.Sending? || s.start.Ended?)
    && (s.start.Sending? ==> s.startResult == Some(s.start.result))
    && (s.start.Leaving? || s.start.Joining? || s.start.Sending? ==> s.start.result in {Nil, Failure})
    && (s.startResult.Some? ==> s.startResult.value in {Nil, Failure})
    && (s.sampler == Over ==> s.cancelled || s.samplerCancelled)
    && (s.samplerCancelled ==> s.start.Joining? || s.start.Sending? || s.start.Ended?)
  }

  /** The supervisor's: each result is Start's own, but for the one it makes up. */
  predicate SupervisorInv(s: State) {
    && (s.adminResult.Some? ==> s.start == Ended && s.adminResult == s.startResult)
    && (s.adminResult.Some? ==> s.supervisor == Selecting || s.supervisor == AwaitingResult)
    && (s.start == Ended && (s.supervisor == Selecting || s.supervisor == AwaitingResult) ==> s.adminResult.Some?)
    && (s.supervisor == AwaitingResult ==> s.cancelled)
    && (s.supervisor.Received? ==> s.start == Ended && s.startResult == Some(s.supervisor.result))
    && (s.supervisor.Finishing? || s.supervisor.Draining? || s.supervisor.Returned? ==>
          s.start == Ended && ResultRight(s, s.supervisor.result))
    && s.calls == (if s.supervisor.Draining? then [CancelTenants]
                   else if s.supervisor.Returned? then [CancelTenants, WaitTenants] else [])
    && (s.supervisor.Returned? ==> s.drained)
    && (s.drained ==> s.supervisor.Draining? || s.supervisor.Returned?)
  }

  /** Nil needs a cancelled context and a nil Start; any other result is Start's error, or
      says that Start returned nil while the process was live. */
  predicate ResultRight(s: State, r: Outcome) {
    && s.startResult.Some?
    && match r
       case Nil => s.cancelled && s.startResult.value == Nil
       case StoppedUnexpectedly => s.startResult.value == Nil && !s.shutdownBegun
       case _ => r == s.startResult.value
  }

  predicate Inv(s: State) { StartInv(s) && SupervisorInv(s) }

  lemma InitKeeps()
    ensures Inv(INIT)
  {}

  /** The steps of the goroutine that runs Start. */
  predicate OfStart(a: Action) {
    a.StartSampler? || a.StartListener? || a.SeeCancel? || a.SeeError? || a.ShutdownReturns? || a.CancelSampler?
    || a.JoinSampler? || a.SendResult?
  }

  lemma StartStepKeepsStart(s: State, a: Action)
    requires Inv(s) && OfStart(a) && Act(s, a).Some?
    ensures StartInv(Act(s, a).value)
  {
    hide ResultRight;
  }

  lemma OtherStepKeepsStart(s: State, a: Action)
    requires Inv(s) && !OfStart(a) && Act(s, a).Some?
    ensures StartInv(Act(s, a).value)
  {
    hide ResultRight;
  }

  lemma StepKeepsSupervisor(s: State, a: Action)
    requires Inv(s) && Act(s, a).Some?
    ensures SupervisorInv(Act(s, a).value)
  {}

  // -------------------------------------------------------------- runs

  /** The state after a run of actions, each of which can happen. */
  function After(run: seq<Action>): Option<State> {
    if run == [] then Some(INIT)
    else
      var s := After(run[..|run| - 1]);
      if s.None? then None else Act(s.value, run[|run| - 1])
  }

  lemma {:induction false} RunKeeps(run: seq<Action>)
    ensures After(run).Some? ==> Inv(After(run).value)
  {
    hide Act, Inv;
    if run == [] {
      InitKeeps();
    } else {
      var init := run[..|run| - 1];
      RunKeeps(init);
      if After(run).Some? { StepKeeps(After(init).value, run[|run| - 1]); }
    }
  }

  lemma StepKeeps(s: State, a: Action)
    requires Inv(s) && Act(s, a).Some?
    ensures Inv(Act(s, a).value)
  {
    hide StartInv, SupervisorInv, Act, OfStart;
    if OfStart(a) { StartStepKeepsStart(s, a); } else { OtherStepKeepsStart(s, a); }
    StepKeepsSupervisor(s, a);
  }

  /** Under every interleaving superviseAdmin returns only after Start has returned and its
      sampler has been joined; it has then called cancel and wait, once each in that order,
      and the tenants have drained. It returns nil only if the context was cancelled and
      Start returned nil, Start's error exactly when Start failed, and the error it makes up
      only if Start never began to shut down. */
  lemma ReturnIsSafe(run: seq<Action>)
    requires After(run).Some? && After(run).value.supervisor.Returned?
    ensures var s := After(run).value;
      && s.start == Ended && s.startResult.Some? && s.sampler == Over
      && s.calls == [CancelTenants, WaitTenants] && s.drained
      && (s.supervisor.result == Nil ==> s.cancelled && s.startResult == Some(Nil))
      && (s.supervisor.result != Nil && s.supervisor.result != StoppedUnexpectedly ==>
            Some(s.supervisor.result) == s.startResult)
      && (s.startResult == Some(Failure) <==> s.supervisor.result == Failure)
      && (s.supervisor.result == StoppedUnexpectedly ==> !s.shutdownBegun)
  {
    RunKeeps(run);
  }

  /** Nothing stops early: the sampler runs until the context is cancelled or Start is on its way
      out, the listener is told to shut down only by a cancelled context, and the tenants are
      cancelled only once Start has ended, and drain only then. */
  lemma NothingStopsEarly(run: seq<Action>)
    requires After(run).Some?
    ensures var s := After(run).value;
      && (s.sampler == Over ==> s.cancelled || s.start.Joining? || s.start.Sending? || s.start.Ended?)
      && (s.shutdownBegun ==> s.cancelled)
      && (CancelTenants in s.calls || s.drained ==> s.start == Ended)
      && (s.drained ==> CancelTenants in s.calls)
  {
    RunKeeps(run);
  }

  /** Start failed in the run: its listener did, or its shutdown. */
  predicate Failed(run: seq<Action>) { SeeError(Failure) in run || ShutdownReturns(Failure) in run }

  /** Start ended well: its listener was closed, or its shutdown went through. */
  predicate Closed(run: seq<Action>) { SeeError(ServerClosed) in run || ShutdownReturns(Nil) in run }

  /** The supervisor looked at the context before it was cancelled. */
  predicate LookedEarly(run: seq<Action>) {
    exists i :: 0 <= i < |run| && run[i] == CheckContext && CancelContext !in run[..i]
  }

  lemma OneMoreAction(run: seq<Action>, a: Action)
    ensures Failed(run + [a]) <==> Failed(run) || a in {SeeError(Failure), ShutdownReturns(Failure)}
    ensures Closed(run + [a]) <==> Closed(run) || a in {SeeError(ServerClosed), ShutdownReturns(Nil)}
    ensures LookedEarly(run + [a]) <==> LookedEarly(run) || (a == CheckContext && CancelContext !in run)
  {
    var longer := run + [a];
    assert forall i :: 0 <= i < |run| ==> longer[i] == run[i] && longer[..i] == run[..i];
    assert longer[..|run|] == run && longer[|run|] == a;
    if a == CheckContext && CancelContext !in run { assert LookedEarly(longer); }
  }

  /** What Start is about to return, or has returned. */
  function Ending(s: State): Option<Outcome> {
    match s.start
    case Leaving(r) => Some(r)
    case Joining(r) => Some(r)
    case Sending(r) => Some(r)
    case Ended => s.startResult
    case _ => None
  }

  predicate Decided(s: Supervisor) { s.Finishing? || s.Draining? || s.Returned? }

  /** What the supervisor makes of the run. */
  function Verdict(run: seq<Action>): Outcome {
    if Failed(run) then Failure else if LookedEarly(run) then StoppedUnexpectedly else Nil
  }

  /** What a run says of the state it leads to. */
  predicate Told(run: seq<Action>, s: State) {
    && (Ending(s) == Some(Failure) <==> Failed(run)) && (Ending(s) == Some(Nil) <==> Closed(run))
    && (s.cancelled <==> CancelContext in run) && (s.shutdownBegun <==> SeeCancel in run)
    && (forall e :: s.errCh == Some(e) ==> ListenerReturns(e) in run)
    && (forall e :: SeeError(e) in run ==> ListenerReturns(e) in run)
    && (Decided(s.supervisor) ==> s.supervisor.result == Verdict(run))
    && (!Decided(s.supervisor) ==> CheckContext !in run)
  }

  lemma ToldStart(run: seq<Action>, s: State, a: Action)
    requires Inv(s) && Act(s, a).Some? && Told(run, s)
    ensures var now, longer := Act(s, a).value, run + [a];
      && (Ending(now) == Some(Failure) <==> Failed(longer)) && (Ending(now) == Some(Nil) <==> Closed(longer))
      && (now.cancelled <==> CancelContext in longer) && (now.shutdownBegun <==> SeeCancel in longer)
      && (forall e :: now.errCh == Some(e) ==> ListenerReturns(e) in longer)
      && (forall e :: SeeError(e) in longer ==> ListenerReturns(e) in longer)
  {
    OneMoreAction(run, a);
    hide Failed, Closed, LookedEarly, SupervisorInv;
  }

  lemma ToldSupervisor(run: seq<Action>, s: State, a: Action)
    requires Inv(s) && Act(s, a).Some? && Told(run, s)
    ensures var now, longer := Act(s, a).value, run + [a];
      && (Decided(now.supervisor) ==> now.supervisor.result == Verdict(longer))
      && (!Decided(now.supervisor) ==> CheckContext !in longer)
  {
    OneMoreAction(run, a);
    NotEarly(run);
    hide Failed, Closed, LookedEarly;
  }

  lemma NotEarly(run: seq<Action>)
    ensures CheckContext !in run ==> !LookedEarly(run)
  {}

  lemma {:induction false} RunTells(run: seq<Action>)
    requires After(run).Some?
    ensures Told(run, After(run).value)
  {
    if run != [] {
      var init, a := run[..|run| - 1], run[|run| - 1];
      RunTells(init);
      RunKeeps(init);
      hide Told, Act, Inv, After;
      assert run == init + [a];
      ToldStart(init, After(init).value, a);
      ToldSupervisor(init, After(init).value, a);
      assert Told(run, Act(After(init).value, a).value);
    }
  }

  /** What Start returns is what its listener or its shutdown returned, a closed listener counting
      as no error; and what the supervisor returns is Start's failure, or the error it makes up
      when it looked before the context was cancelled, or else nil. */
  lemma ResultsAreCaused(run: seq<Action>)
    requires After(run).Some?
    ensures var s := After(run).value;
      && (s.startResult.Some? ==>
            && (s.startResult == Some(Failure) <==>
                  SeeError(Failure) in run || ShutdownReturns(Failure) in run)
            && (s.startResult == Some(Nil) <==>
                  SeeError(ServerClosed) in run || ShutdownReturns(Nil) in run))
      && (forall e :: SeeError(e) in run ==> ListenerReturns(e) in run)
      && (s.supervisor.Returned? ==>
            && (s.supervisor.result == Failure <==> SeeError(Failure) in run || ShutdownReturns(Failure) in run)
            && (s.supervisor.result == StoppedUnexpectedly <==> s.startResult == Some(Nil) && LookedEarly(run))
            && (s.supervisor.result == Nil <==> s.startResult == Some(Nil) && !LookedEarly(run)))
  {
    RunTells(run);
    RunKeeps(run);
    hide Act, LookedEarly;
  }

  /** How many steps are left at most. */
  function Measure(s: State): nat {
    (if s.cancelled then 0 else 1)
    + (match s.supervisor
       case Spawning => 6
       case Selecting => 5
       case Received(_) => 4
       case AwaitingResult => 4
       case Finishing(_) => 3
       case Draining(_) => 2
       case Returned(_) => 0)
    + (match s.start
       case Idle => 8
       case Entered => 8
       case SamplerStarted => 7
       case Serving => 6
       case ShuttingDown => 5
       case Leaving(_) => 4
       case Joining(_) => 3
       case Sending(_) => 2
       case Ended => 0)
    + (if s.sampler == Over then 0 else 1)
    + (if s.listener == Over then 0 else 1)
    + (if s.drained then 0 else 1)
  }

  lemma StartRunsDown(s: State, a: Action)
    requires Inv(s) && OfStart(a) && Act(s, a).Some?
    ensures Measure(Act(s, a).value) < Measure(s)
  {
    hide ResultRight, SupervisorInv;
  }

  lemma OthersRunDown(s: State, a: Action)
    requires Inv(s) && !OfStart(a) && Act(s, a).Some?
    ensures Measure(Act(s, a).value) < Measure(s)
  {
    hide ResultRight;
  }

  lemma StepsRunDown(s: State, a: Action)
    requires Inv(s) && Act(s, a).Some?
    ensures Measure(Act(s, a).value) < Measure(s)
  {
    hide Inv, Act, OfStart, Measure;
    if OfStart(a) { StartRunsDown(s, a); } else { OthersRunDown(s, a); }
  }

  /** Every run is finite: no interleaving goes on forever. */
  lemma {:induction false} RunsEnd(run: seq<Action>)
    requires After(run).Some?
    ensures |run| + Measure(After(run).value) <= Measure(INIT)
  {
    hide Act, Inv, Measure;
    if run != [] {
      var init := run[..|run| - 1];
      RunsEnd(init);
      RunKeeps(init);
      StepsRunDown(After(init).value, run[|run| - 1]);
    }
  }

  /** The steps that are sure to come when they can: all but the cancellation itself and a
      listener that stops of its own accord. Shutdown and the tenants' drain end. */
  predicate Sure(s: State, a: Action) {
    a != CancelContext && (a.ListenerReturns? ==> s.shutdownBegun)
  }

  /** Nothing that is sure to come is left to do. */
  ghost predicate Quiet(s: State) {
    forall a :: Sure(s, a) ==> Act(s, a).None?
  }

  lemma StartMoves(s: State) returns (a: Action)
    requires Inv(s) && s.cancelled && s.start != Idle && s.start != Ended
    ensures Sure(s, a) && Act(s, a).Some?
  {
    match s.start
    case Entered => a := StartSampler;
    case SamplerStarted => a := StartListener;
    case Serving => a := SeeCancel;
    case ShuttingDown => a := ShutdownReturns(Nil);
    case Leaving(_) => a := CancelSampler;
    case Joining(_) => a := if s.sampler == Over then JoinSampler else SamplerEnds;
    case Sending(_) => a := SendResult;
  }

  lemma SupervisorMoves(s: State) returns (a: Action)
    requires Inv(s) && s.cancelled && !s.supervisor.Returned?
    ensures Sure(s, a) && Act(s, a).Some?
  {
    match s.supervisor
    case Spawning => a := Spawn;
    case Selecting => a := TakeCancel;
    case Received(_) => a := CheckContext;
    case AwaitingResult =>
      if s.start == Ended { a := DrainResult; } else { a := StartMoves(s); }
    case Finishing(_) => a := Cancel;
    case Draining(_) => a := if s.drained then Wait else TenantsDrain;
  }

  /** No deadlock and no leak: once the context is cancelled, a run that can go no further
      has returned from superviseAdmin, and every goroutine it started has ended. */
  lemma CancelledRunsReturn(run: seq<Action>)
    requires After(run).Some? && After(run).value.cancelled && Quiet(After(run).value)
    ensures var s := After(run).value;
      s.supervisor.Returned? && s.start == Ended && s.sampler == Over && s.listener == Over
  {
    hide Inv, Act, Sure;
    var s := After(run).value;
    RunKeeps(run);
    if !s.supervisor.Returned? {
      var a := SupervisorMoves(s);
      assert false;
    }
    ReturnIsSafe(run);
    if s.listener != Over {
      ListenerMoves(s);
      assert false;
    }
  }

  lemma ListenerMoves(s: State)
    requires Inv(s) && s.supervisor.Returned? && s.listener != Over
    ensures Sure(s, ListenerReturns(ServerClosed)) && Act(s, ListenerReturns(ServerClosed)).Some?
  {}

  /** A server that stops by itself is fatal too: without any cancellation the supervisor
      still returns, and never with nil. */
  lemma StoppedRunsReturn(run: seq<Action>)
    requires After(run).Some? && !After(run).value.cancelled && Quiet(After(run).value)
    requires After(run).value.listener == Over
    ensures After(run).value.supervisor.Returned? && After(run).value.supervisor.result != Nil
  {
    hide Inv, Act, Sure;
    var s := After(run).value;
    RunKeeps(run);
    if !s.supervisor.Returned? {
      var a := StoppedMoves(s);
      assert false;
    }
    ReturnIsSafe(run);
  }

  lemma StoppedMoves(s: State) returns (a: Action)
    requires Inv(s) && !s.cancelled && s.listener == Over && !s.supervisor.Returned?
    ensures Sure(s, a) && Act(s, a).Some?
  {
    match s.start
    case Serving => a := SeeError(s.errCh.value);
    case Leaving(_) => a := CancelSampler;
    case Joining(_) => a := if s.sampler == Over then JoinSampler else SamplerEnds;
    case Sending(_) => a := SendResult;
    case Ended =>
      match s.supervisor {
        case Selecting => a := TakeResult;
        case Received(_) => a := CheckContext;
        case Finishing(_) => a := Cancel;
        case Draining(_) => a := if s.drained then Wait else TenantsDrain;
      }
  }
}
