/**
 * `serve --tunnel`: one task establishes the tunnel, the other shuts the daemon down on a signal, and both use
 * the captured variables `tunnel` and `establishing`. Continuations run from one FIFO job queue; a promise's
 * reactions enter it in the order they were registered (section 27.2.1.8 of ECMA-262). Everything else - the
 * tunnel, the two server closes, the signal - settles whenever it likes.
 */
module Serve {
  /** The establish promise; `landed` once the mapping is up although the establish may still fail. */
  datatype Establish = Pending(landed: bool) | Fulfilled | Rejected(error: string)

  /** Where the serve task is suspended; `Queued` points wait in the job queue. */
  datatype ServePoint =
    | AwaitingEstablish
    | Releasing(error: string)
    | ReleasedQueued(error: string)
    | Closing(error: string)
    | ClosedQueued(error: string)
    | Threw(error: string)
    | Returned

  /** Where the shutdown task is suspended. */
  datatype ShutdownPoint =
    | Armed
    | ClosingServer
    | ThunkQueued
    | WaitingForCatch
    | WaiterQueued
    | TearingDown
    | TornQueued
    | Done(tore: bool)

  datatype Job =
    | ServeResume | ServeReleased | ServeClosed | ShutdownClosed | CatchSettled | WaiterResume | ShutdownReleased

  datatype Owner = ByServe | ByShutdown

  datatype TeardownEvent = Started(who: Owner) | Ended(who: Owner, ok: bool)

  datatype State = State(
    establish: Establish, mapping: bool,
    tunnel: bool, establishing: bool,
    serve: ServePoint, shutdown: ShutdownPoint,
    reactions: seq<Job>, jobs: seq<Job>, teardowns: seq<TeardownEvent>)

  datatype Step =
    | Land
    | Settle(ok: bool, error: string)
    | Signal
    | ShutdownCloseSettles
    | ServeCloseSettles
    | TeardownSettles(who: Owner, ok: bool)
    | RunJob

  /** The first suspension: the handler is armed, `establishing` is published, and `serve` awaits it. */
  const INITIAL := State(
    Pending(false), false, false, true, AwaitingEstablish, Armed, [ServeResume], [], [])

  // ----- the continuations -----

  function StartTeardown(s: State, who: Owner): State {
    s.(teardowns := s.teardowns + [Started(who)])
  }

  function Enqueue(s: State, job: Job): State {
    s.(jobs := s.jobs + [job])
  }

  /** After `await establishing`: keep the tunnel, or release what the failure left. */
  function ResumeServe(s: State): State {
    match s.establish
    case Rejected(e) => StartTeardown(s, ByServe).(serve := Releasing(e))
    case _ => s.(tunnel := true, establishing := false, serve := Returned)
  }

  function ResumeReleased(s: State): State {
    if s.serve.ReleasedQueued? then s.(serve := Closing(s.serve.error)) else s
  }

  function ResumeClosed(s: State): State {
    if s.serve.ClosedQueued? then s.(establishing := false, serve := Threw(s.serve.error)) else s
  }

  /** The shutdown thunk and the start of what it returns. */
  function InvokeThunk(s: State): State {
    if s.establishing then
      if s.establish.Pending?
      then s.(reactions := s.reactions + [CatchSettled], shutdown := WaitingForCatch)
      else Enqueue(s, CatchSettled).(shutdown := WaitingForCatch)
    else ReleaseTunnel(s)
  }

  /** Whatever `tunnel` holds now is torn down; nothing held, nothing to do. */
  function ReleaseTunnel(s: State): State {
    if s.tunnel then StartTeardown(s, ByShutdown).(shutdown := TearingDown) else s.(shutdown := Done(false))
  }

  function ResumeCatch(s: State): State {
    Enqueue(s, WaiterResume).(shutdown := WaiterQueued)
  }

  function Perform(s: State, job: Job): State {
    match job
    case ServeResume => ResumeServe(s)
    case ServeReleased => ResumeReleased(s)
    case ServeClosed => ResumeClosed(s)
    case ShutdownClosed => InvokeThunk(s)
    case CatchSettled => ResumeCatch(s)
    case WaiterResume => ReleaseTunnel(s)
    case ShutdownReleased => s.(shutdown := Done(true))
  }

  // ----- steps and executions -----

  predicate Enabled(s: State, step: Step) {
    match step
    case Land => s.establish == Pending(false)
    case Settle(ok, _) => s.establish.Pending? && (ok ==> s.establish.landed)
    case Signal => s.shutdown.Armed?
    case ShutdownCloseSettles => s.shutdown.ClosingServer?
    case ServeCloseSettles => s.serve.Closing?
    case TeardownSettles(who, _) => if who.ByServe? then s.serve.Releasing? else s.shutdown.TearingDown?
    case RunJob => s.jobs != []
  }

  function EndTeardown(s: State, who: Owner, ok: bool): State {
    s.(teardowns := s.teardowns + [Ended(who, ok)], mapping := s.mapping && !ok)
  }

  function Next(s: State, step: Step): State
    requires Enabled(s, step)
  {
    match step
    case Land => s.(establish := Pending(true), mapping := true)
    case Settle(ok, error) =>
      s.(establish := if ok then Fulfilled else Rejected(error), jobs := s.jobs + s.reactions, reactions := [])
    case Signal => s.(shutdown := ClosingServer)
    case ShutdownCloseSettles => Enqueue(s, ShutdownClosed).(shutdown := ThunkQueued)
    case ServeCloseSettles => Enqueue(s, ServeClosed).(serve := ClosedQueued(s.serve.error))
    case TeardownSettles(who, ok) =>
      if who.ByServe?
      then Enqueue(EndTeardown(s, who, ok), ServeReleased).(serve := ReleasedQueued(s.serve.error))
      else Enqueue(EndTeardown(s, who, ok), ShutdownReleased).(shutdown := TornQueued)
    case RunJob => Perform(s.(jobs := s.jobs[1..]), s.jobs[0])
  }

  /** Any interleaving whatsoever of enabled steps from the first suspension. */
  ghost predicate Execution(states: seq<State>, steps: seq<Step>) {
    && |states| == |steps| + 1
    && states[0] == INITIAL
    && forall i :: 0 <= i < |steps| ==> Enabled(states[i], steps[i]) && states[i + 1] == Next(states[i], steps[i])
  }

  // ----- the tasks as the program writes them -----

  /** The variables `serve` and its shutdown thunk share, and the continuations that read and write them. */
  class ServeAction {
    var establish: Establish
    var mapping: bool
    var tunnel: bool
    var establishing: bool
    var serve: ServePoint
    var shutdown: ShutdownPoint
    var reactions: seq<Job>
    var jobs: seq<Job>
    var teardowns: seq<TeardownEvent>

    /** From arming the handler to the first await, in one go. */
    constructor ()
      ensures Snapshot() == INITIAL
    {
      establish, mapping := Pending(false), false;
      tunnel, establishing := false, false;
      shutdown, teardowns, jobs := Armed, [], [];
      establishing := true;
      serve, reactions := AwaitingEstablish, [ServeResume];
    }

    ghost function Snapshot(): State
      reads this
    {
      State(establish, mapping, tunnel, establishing, serve, shutdown, reactions, jobs, teardowns)
    }

    method AfterEstablish()
      modifies this
      ensures Snapshot() == ResumeServe(old(Snapshot()))
    {
      if establish.Rejected? {
        teardowns := teardowns + [Started(ByServe)];
        serve := Releasing(establish.error);
      } else {
        tunnel := true;
        serve := Returned;
        establishing := false;
      }
    }

    method AfterClose()
      requires serve.ClosedQueued?
      modifies this
      ensures Snapshot() == ResumeClosed(old(Snapshot()))
    {
      establishing := false;
      serve := Threw(serve.error);
    }

    method TearDownHeld()
      modifies this
      ensures Snapshot() == ReleaseTunnel(old(Snapshot()))
    {
      if tunnel {
        teardowns := teardowns + [Started(ByShutdown)];
        shutdown := TearingDown;
      } else {
        shutdown := Done(false);
      }
    }

    method CallThunk()
      modifies this
      ensures Snapshot() == InvokeThunk(old(Snapshot()))
    {
      if !establishing {
        TearDownHeld();
        return;
      }
      if establish.Pending? {
        reactions := reactions + [CatchSettled];
      } else {
        jobs := jobs + [CatchSettled];
      }
      shutdown := WaitingForCatch;
    }

    /** One turn of the job queue. */
    method RunNextJob()
      requires Invariant(Snapshot()) && jobs != []
      modifies this
      ensures Snapshot() == Next(old(Snapshot()), RunJob) && Invariant(Snapshot())
    {
      HeadIsAwaited(Snapshot());
      EveryStepKeeps(Snapshot(), RunJob);
      var job := jobs[0];
      jobs := jobs[1..];
      match job {
        case ServeResume => AfterEstablish();
        case ServeReleased => serve := Closing(serve.error);
        case ServeClosed => AfterClose();
        case ShutdownClosed => CallThunk();
        case CatchSettled => jobs, shutdown := jobs + [WaiterResume], WaiterQueued;
        case WaiterResume => TearDownHeld();
        case ShutdownReleased => shutdown := Done(true);
      }
    }
  }

  // ----- the invariant -----

  /** The job the serve task has in the queue. */
  function ServeJob(s: State): seq<Job> {
    match s.serve
    case AwaitingEstablish => if s.establish.Pending? then [] else [ServeResume]
    case ReleasedQueued(_) => [ServeReleased]
    case ClosedQueued(_) => [ServeClosed]
    case _ => []
  }

  function ShutdownJob(s: State): seq<Job> {
    match s.shutdown
    case ThunkQueued => [ShutdownClosed]
    case WaitingForCatch => if s.establish.Pending? then [] else [CatchSettled]
    case WaiterQueued => [WaiterResume]
    case TornQueued => [ShutdownReleased]
    case _ => []
  }

  predicate InQueue(s: State) {
    s.jobs == ServeJob(s) + ShutdownJob(s) || s.jobs == ShutdownJob(s) + ServeJob(s)
  }

  /** The waiter never overtakes the assignment it waits for. */
  predicate WaiterIsBehind(s: State) {
    s.serve.AwaitingEstablish? && !s.establish.Pending? && (s.shutdown.WaitingForCatch? || s.shutdown.WaiterQueued?) ==>
      s.jobs == ServeJob(s) + ShutdownJob(s)
  }

  predicate Torn(log: seq<TeardownEvent>, who: Owner) {
    log == [Started(who), Ended(who, true)] || log == [Started(who), Ended(who, false)]
  }

  predicate PendingInvariant(s: State) {
    && s.serve.AwaitingEstablish? && s.establishing && !s.tunnel && s.teardowns == []
    && s.establish == Pending(s.mapping)
    && (s.shutdown.Armed? || s.shutdown.ClosingServer? || s.shutdown.ThunkQueued? || s.shutdown.WaitingForCatch?)
    && s.reactions == if s.shutdown.WaitingForCatch? then [ServeResume, CatchSettled] else [ServeResume]
  }

  predicate FulfilledInvariant(s: State) {
    && (s.serve.AwaitingEstablish? || s.serve.Returned?)
    && (s.tunnel <==> s.serve.Returned?)
    && (s.establishing <==> s.serve.AwaitingEstablish?)
    && (s.mapping <==> !(s.teardowns == [Started(ByShutdown), Ended(ByShutdown, true)]))
    && match s.shutdown
       case TearingDown => s.serve.Returned? && s.teardowns == [Started(ByShutdown)]
       case TornQueued => s.serve.Returned? && Torn(s.teardowns, ByShutdown)
       case Done(tore) => s.serve.Returned? && tore && Torn(s.teardowns, ByShutdown)
       case _ => s.teardowns == []
  }

  predicate RejectedInvariant(s: State) {
    && s.establish.Rejected? && !s.tunnel
    && (s.establishing <==> !s.serve.Threw?)
    && !s.shutdown.TearingDown? && !s.shutdown.TornQueued? && s.shutdown != Done(true)
    && (s.teardowns == [Started(ByServe), Ended(ByServe, true)] ==> !s.mapping)
    && (!s.serve.AwaitingEstablish? ==> !s.serve.Returned? && s.serve.error == s.establish.error)
    && match s.serve
       case AwaitingEstablish => s.teardowns == []
       case Releasing(_) => s.teardowns == [Started(ByServe)]
       case _ => Torn(s.teardowns, ByServe)
  }

  predicate Invariant(s: State) {
    && InQueue(s) && WaiterIsBehind(s)
    && (s.establish.Pending? || s.reactions == [])
    && match s.establish
       case Pending(_) => PendingInvariant(s)
       case Fulfilled => FulfilledInvariant(s)
       case Rejected(_) => RejectedInvariant(s)
  }

  lemma SettleKeeps(s: State, step: Step)
    requires Invariant(s) && Enabled(s, step) && (step.Land? || step.Settle?)
    ensures Invariant(Next(s, step))
  {
  }

  lemma TeardownKeeps(s: State, who: Owner, ok: bool)
    requires Invariant(s) && Enabled(s, TeardownSettles(who, ok))
    ensures Invariant(Next(s, TeardownSettles(who, ok)))
  {
    assert s.teardowns + [Ended(who, ok)] == [Started(who), Ended(who, ok)];
  }

  lemma OutsideKeeps(s: State, step: Step)
    requires Invariant(s) && Enabled(s, step)
    requires step.Signal? || step.ShutdownCloseSettles? || step.ServeCloseSettles?
    ensures Invariant(Next(s, step))
  {
  }

  /** The head of the queue is the serve task's job or the shutdown task's. */
  lemma HeadOfQueue(s: State)
    requires Invariant(s) && s.jobs != []
    ensures || (ServeJob(s) == [s.jobs[0]] && s.jobs[1..] == ShutdownJob(s))
            || (ShutdownJob(s) == [s.jobs[0]] && s.jobs[1..] == ServeJob(s))
  {
  }

  lemma HeadIsAwaited(s: State)
    requires Invariant(s) && s.jobs != []
    ensures s.jobs[0] == ServeReleased ==> s.serve.ReleasedQueued?
    ensures s.jobs[0] == ServeClosed ==> s.serve.ClosedQueued?
  {
    HeadOfQueue(s);
  }

  lemma ServeJobKeeps(s: State)
    requires Invariant(s) && s.jobs != [] && ServeJob(s) == [s.jobs[0]] && s.jobs[1..] == ShutdownJob(s)
    ensures Invariant(Next(s, RunJob))
  {
    var t := s.(jobs := s.jobs[1..]);
    if s.serve.AwaitingEstablish? {
      EstablishKeeps(s, t);
    } else if s.serve.ReleasedQueued? {
      assert Next(s, RunJob) == ResumeReleased(t);
    } else {
      assert Next(s, RunJob) == ResumeClosed(t);
    }
  }

  lemma EstablishKeeps(s: State, t: State)
    requires Invariant(s) && s.serve.AwaitingEstablish? && s.jobs != [] && s.jobs[0] == ServeResume
    requires t == s.(jobs := s.jobs[1..]) && ServeJob(s) == [s.jobs[0]] && t.jobs == ShutdownJob(s)
    ensures Invariant(Next(s, RunJob))
  {
    assert Next(s, RunJob) == ResumeServe(t);
    if s.establish.Rejected? {
      assert s.teardowns + [Started(ByServe)] == [Started(ByServe)];
    }
  }

  predicate ShutdownHeads(s: State) {
    s.jobs != [] && ShutdownJob(s) == [s.jobs[0]] && s.jobs[1..] == ServeJob(s)
  }

  lemma ThunkKeeps(s: State)
    requires Invariant(s) && ShutdownHeads(s) && s.shutdown.ThunkQueued?
    ensures Invariant(Next(s, RunJob))
  {
    var t := s.(jobs := s.jobs[1..]);
    assert Next(s, RunJob) == InvokeThunk(t);
    if s.establishing && s.establish.Pending? {
      assert s.reactions + [CatchSettled] == [ServeResume, CatchSettled];
    }
  }

  lemma CatchKeeps(s: State)
    requires Invariant(s) && ShutdownHeads(s) && s.shutdown.WaitingForCatch?
    ensures Invariant(Next(s, RunJob))
  {
    assert Next(s, RunJob) == ResumeCatch(s.(jobs := s.jobs[1..]));
  }

  lemma WaiterKeeps(s: State)
    requires Invariant(s) && ShutdownHeads(s) && s.shutdown.WaiterQueued?
    ensures Invariant(Next(s, RunJob))
  {
    assert Next(s, RunJob) == ReleaseTunnel(s.(jobs := s.jobs[1..]));
  }

  lemma TornKeeps(s: State)
    requires Invariant(s) && ShutdownHeads(s) && s.shutdown.TornQueued?
    ensures Invariant(Next(s, RunJob))
  {
  }

  lemma EveryStepKeeps(s: State, step: Step)
    requires Invariant(s) && Enabled(s, step)
    ensures Invariant(Next(s, step))
  {
    if step.Land? || step.Settle? {
      SettleKeeps(s, step);
    } else if step.RunJob? {
      HeadOfQueue(s);
      if ServeJob(s) == [s.jobs[0]] && s.jobs[1..] == ShutdownJob(s) {
        ServeJobKeeps(s);
      } else if s.shutdown.ThunkQueued? {
        ThunkKeeps(s);
      } else if s.shutdown.WaitingForCatch? {
        CatchKeeps(s);
      } else if s.shutdown.WaiterQueued? {
        WaiterKeeps(s);
      } else {
        TornKeeps(s);
      }
    } else if step.TeardownSettles? {
      TeardownKeeps(s, step.who, step.ok);
    } else {
      OutsideKeeps(s, step);
    }
  }

  lemma {:induction false} InvariantHolds(states: seq<State>, steps: seq<Step>, k: nat)
    requires Execution(states, steps) && k < |states|
    ensures Invariant(states[k])
  {
    if k > 0 {
      InvariantHolds(states, steps, k - 1);
      EveryStepKeeps(states[k - 1], steps[k - 1]);
    }
  }

  // ----- what holds in every execution -----

  function TeardownsBy(log: seq<TeardownEvent>, who: Owner): nat {
    if log == [] then 0
    else TeardownsBy(log[..|log| - 1], who) + if log[|log| - 1] == Started(who) then 1 else 0
  }

  function InProgress(log: seq<TeardownEvent>): int {
    if log == [] then 0
    else InProgress(log[..|log| - 1]) + if log[|log| - 1].Started? then 1 else -1
  }

  lemma LogFacts(log: seq<TeardownEvent>, who: Owner)
    requires log == [] || log == [Started(who)] || Torn(log, who)
    ensures forall n :: 0 <= n <= |log| ==> 0 <= InProgress(log[..n]) <= 1
    ensures forall o :: TeardownsBy(log, o) == if o == who && log != [] then 1 else 0
    ensures InProgress(log) == if log == [Started(who)] then 1 else 0
  {
    assert log[..0] == [];
    if log != [] {
      assert log[..1] == [Started(who)] && log[..1][..0] == [];
      if |log| == 2 {
        assert log[..2] == log;
      }
    }
  }

  /**
   * At every moment of every execution: nothing is torn down before the establish settles, two teardowns never
   * overlap, at most one was ever started and never by the wrong task, and `serve` fails only with the
   * establish error, whatever the cleanup did.
   */
  lemma NothingGoesWrong(states: seq<State>, steps: seq<Step>, k: nat)
    requires Execution(states, steps) && k < |states|
    ensures var s := states[k];
            && (s.teardowns != [] ==> !s.establish.Pending?)
            && (forall n :: 0 <= n <= |s.teardowns| ==> 0 <= InProgress(s.teardowns[..n]) <= 1)
            && TeardownsBy(s.teardowns, ByServe) + TeardownsBy(s.teardowns, ByShutdown) <= 1
            && (TeardownsBy(s.teardowns, ByServe) == 1 ==> s.establish.Rejected?)
            && (TeardownsBy(s.teardowns, ByShutdown) == 1 ==> s.establish.Fulfilled?)
            && (s.serve.Threw? ==> s.establish == Rejected(s.serve.error))
            && (s.serve.Returned? ==> s.establish.Fulfilled?)
  {
    InvariantHolds(states, steps, k);
    LogFacts(states[k].teardowns, if states[k].establish.Rejected? then ByServe else ByShutdown);
  }

  function ServeRank(p: ServePoint): nat {
    match p
    case AwaitingEstablish => 5
    case Releasing(_) => 4
    case ReleasedQueued(_) => 3
    case Closing(_) => 2
    case ClosedQueued(_) => 1
    case _ => 0
  }

  function ShutdownRank(p: ShutdownPoint): nat {
    match p
    case Armed => 7
    case ClosingServer => 6
    case ThunkQueued => 5
    case WaitingForCatch => 4
    case WaiterQueued => 3
    case TearingDown => 2
    case TornQueued => 1
    case Done(_) => 0
  }

  function Rank(s: State): nat {
    (match s.establish case Pending(landed) => if landed then 1 else 2 case _ => 0)
    + ServeRank(s.serve) + ShutdownRank(s.shutdown)
  }

  lemma RankFalls(s: State, step: Step)
    requires Invariant(s) && Enabled(s, step)
    ensures Rank(Next(s, step)) < Rank(s)
  {
    if step.RunJob? {
      JobRankFalls(s);
    }
  }

  lemma JobRankFalls(s: State)
    requires Invariant(s) && s.jobs != []
    ensures Rank(Next(s, RunJob)) < Rank(s)
  {
    HeadOfQueue(s);
  }

  /** No execution goes on for ever: at most fourteen steps. */
  lemma {:induction false} ExecutionsEnd(states: seq<State>, steps: seq<Step>, k: nat)
    requires Execution(states, steps) && k < |states|
    ensures Rank(states[k]) + k <= 14
  {
    if k == 0 {
      assert Rank(INITIAL) == 14;
    } else {
      ExecutionsEnd(states, steps, k - 1);
      InvariantHolds(states, steps, k - 1);
      RankFalls(states[k - 1], steps[k - 1]);
    }
  }

  /** Nothing more can happen, unless the one signal is still to come. */
  ghost predicate AtRest(s: State) {
    forall step :: Enabled(s, step) ==> step.Signal?
  }

  lemma RestPoints(s: State)
    requires Invariant(s) && AtRest(s)
    ensures !s.establish.Pending? && s.jobs == []
    ensures s.serve.Returned? || s.serve.Threw?
    ensures s.shutdown.Armed? || s.shutdown.Done?
  {
    assert !Enabled(s, Settle(false, ""));
    assert !Enabled(s, RunJob);
    assert !Enabled(s, ServeCloseSettles) && !Enabled(s, ShutdownCloseSettles);
    assert !Enabled(s, TeardownSettles(ByServe, true)) && !Enabled(s, TeardownSettles(ByShutdown, true));
  }

  /**
   * Where every execution ends: a failed establish was torn down exactly once, by the catch, and its error left
   * `serve`; a successful one was torn down exactly once, by the shutdown, if the signal ever came; and the
   * mapping is still up only while it is served or when its teardown failed.
   */
  lemma EveryTunnelIsReleasedOnce(states: seq<State>, steps: seq<Step>)
    requires Execution(states, steps) && AtRest(states[|steps|])
    ensures var (s, log) := (states[|steps|], states[|steps|].teardowns);
            match s.establish
            case Pending(_) => false
            case Rejected(e) =>
              && s.serve == Threw(e)
              && TeardownsBy(log, ByServe) == 1 && TeardownsBy(log, ByShutdown) == 0 && InProgress(log) == 0
              && (s.mapping ==> Ended(ByServe, false) in log)
            case Fulfilled =>
              && s.serve == Returned
              && TeardownsBy(log, ByServe) == 0 && InProgress(log) == 0
              && TeardownsBy(log, ByShutdown) == (if Signal in steps then 1 else 0)
              && (s.mapping <==> Signal !in steps || Ended(ByShutdown, false) in log)
  {
    var s := states[|steps|];
    InvariantHolds(states, steps, |steps|);
    RestPoints(s);
    SignalIsSeen(states, steps, |steps|);
    assert steps[..|steps|] == steps;
    LogFacts(s.teardowns, if s.establish.Rejected? then ByServe else ByShutdown);
  }

  lemma OnlySignalDisarms(s: State, step: Step)
    requires Invariant(s) && Enabled(s, step)
    ensures Next(s, step).shutdown.Armed? <==> s.shutdown.Armed? && !step.Signal?
  {
    if step.RunJob? {
      HeadOfQueue(s);
    }
  }

  lemma SignalNext(steps: seq<Step>, k: nat)
    requires 0 < k <= |steps|
    ensures Signal in steps[..k] <==> Signal in steps[..k - 1] || steps[k - 1].Signal?
  {
    assert steps[..k] == steps[..k - 1] + [steps[k - 1]];
  }

  lemma StepDisarms(states: seq<State>, steps: seq<Step>, k: nat)
    requires Execution(states, steps) && 0 < k < |states|
    ensures states[k].shutdown.Armed? <==> states[k - 1].shutdown.Armed? && !steps[k - 1].Signal?
  {
    InvariantHolds(states, steps, k - 1);
    OnlySignalDisarms(states[k - 1], steps[k - 1]);
  }

  lemma {:induction false} SignalIsSeen(states: seq<State>, steps: seq<Step>, k: nat)
    requires Execution(states, steps) && k < |states|
    ensures Signal in steps[..k] <==> !states[k].shutdown.Armed?
  {
    if k > 0 {
      SignalIsSeen(states, steps, k - 1);
      StepDisarms(states, steps, k);
      SignalNext(steps, k);
    }
  }

  // ----- what was done, and in which order -----

  function Only(steps: seq<Step>, keep: Step -> bool): seq<Step> {
    if steps == [] then []
    else Only(steps[..|steps| - 1], keep) + if keep(steps[|steps| - 1]) then [steps[|steps| - 1]] else []
  }

  lemma OnlyNext(steps: seq<Step>, keep: Step -> bool, k: nat)
    requires 0 < k <= |steps|
    ensures Only(steps[..k], keep) == Only(steps[..k - 1], keep) + if keep(steps[k - 1]) then [steps[k - 1]] else []
  {
    assert steps[..k][..k - 1] == steps[..k - 1];
  }

  /** The cleanup steps of a failed `serve`. */
  predicate IsCleanup(step: Step) {
    step.ServeCloseSettles? || (step.TeardownSettles? && step.who.ByServe?)
  }

  /** The steps of a shutdown. */
  predicate IsShutdown(step: Step) {
    step.Signal? || step.ShutdownCloseSettles? || (step.TeardownSettles? && step.who.ByShutdown?)
  }

  /** First the release settles, then the server's close, and only then is anything thrown. */
  predicate CleanedUpTo(p: ServePoint, done: seq<Step>) {
    match p
    case ReleasedQueued(_) => |done| == 1 && done[0].TeardownSettles?
    case Closing(_) => |done| == 1 && done[0].TeardownSettles?
    case ClosedQueued(_) => |done| == 2 && done[0].TeardownSettles? && done[1] == ServeCloseSettles
    case Threw(_) => |done| == 2 && done[0].TeardownSettles? && done[1] == ServeCloseSettles
    case _ => done == []
  }

  /** First the signal, then the server's close, and only then the tunnel. */
  predicate ShutDownTo(p: ShutdownPoint, done: seq<Step>) {
    match p
    case Armed => done == []
    case ClosingServer => done == [Signal]
    case TornQueued => |done| == 3 && done[..2] == [Signal, ShutdownCloseSettles] && done[2].TeardownSettles?
    case Done(tore) =>
      if tore then |done| == 3 && done[..2] == [Signal, ShutdownCloseSettles] && done[2].TeardownSettles?
      else done == [Signal, ShutdownCloseSettles]
    case _ => done == [Signal, ShutdownCloseSettles]
  }

  lemma CleanupNext(s: State, step: Step, done: seq<Step>)
    requires Invariant(s) && Enabled(s, step) && CleanedUpTo(s.serve, done)
    ensures CleanedUpTo(Next(s, step).serve, done + if IsCleanup(step) then [step] else [])
  {
    if step.RunJob? {
      HeadOfQueue(s);
    }
  }

  lemma ShutdownNext(s: State, step: Step, done: seq<Step>)
    requires Invariant(s) && Enabled(s, step) && ShutDownTo(s.shutdown, done)
    ensures ShutDownTo(Next(s, step).shutdown, done + if IsShutdown(step) then [step] else [])
  {
    if step.RunJob? {
      HeadOfQueue(s);
    }
    if step.TeardownSettles? && step.who.ByShutdown? {
      assert (done + [step])[..2] == done;
    }
  }

  lemma {:induction false} CleanupIsInOrder(states: seq<State>, steps: seq<Step>, k: nat)
    requires Execution(states, steps) && k < |states|
    ensures CleanedUpTo(states[k].serve, Only(steps[..k], IsCleanup))
  {
    if k > 0 {
      CleanupIsInOrder(states, steps, k - 1);
      InvariantHolds(states, steps, k - 1);
      CleanupNext(states[k - 1], steps[k - 1], Only(steps[..k - 1], IsCleanup));
      OnlyNext(steps, IsCleanup, k);
    }
  }

  lemma {:induction false} ShutdownIsInOrder(states: seq<State>, steps: seq<Step>, k: nat)
    requires Execution(states, steps) && k < |states|
    ensures ShutDownTo(states[k].shutdown, Only(steps[..k], IsShutdown))
  {
    if k > 0 {
      ShutdownIsInOrder(states, steps, k - 1);
      InvariantHolds(states, steps, k - 1);
      ShutdownNext(states[k - 1], steps[k - 1], Only(steps[..k - 1], IsShutdown));
      OnlyNext(steps, IsShutdown, k);
    }
  }

  /**
   * A `serve` that throws has released what the establish left and closed its server, once each and in this order,
   * whatever the release answered; and it does throw when the establish failed.
   */
  lemma FailedServeIsClosed(states: seq<State>, steps: seq<Step>, k: nat) returns (ok: bool)
    requires Execution(states, steps) && k < |states|
    requires states[k].serve.Threw? || (AtRest(states[k]) && states[k].establish.Rejected?)
    ensures states[k].serve.Threw?
    ensures Only(steps[..k], IsCleanup) == [TeardownSettles(ByServe, ok), ServeCloseSettles]
  {
    InvariantHolds(states, steps, k);
    if AtRest(states[k]) {
      RestPoints(states[k]);
    }
    CleanupIsInOrder(states, steps, k);
    var done := Only(steps[..k], IsCleanup);
    KeptOnly(steps[..k], IsCleanup);
    ok := done[0].ok;
  }

  lemma {:induction false} KeptOnly(steps: seq<Step>, keep: Step -> bool)
    ensures forall i :: 0 <= i < |Only(steps, keep)| ==> keep(Only(steps, keep)[i])
  {
    if steps != [] {
      KeptOnly(steps[..|steps| - 1], keep);
    }
  }

  predicate Waiting(p: ShutdownPoint) {
    p.WaitingForCatch? || p.WaiterQueued?
  }

  lemma StaysUnawaited(s: State, step: Step)
    requires Invariant(s) && Enabled(s, step) && !s.establishing && !Waiting(s.shutdown)
    ensures !Next(s, step).establishing && !Waiting(Next(s, step).shutdown)
  {
    if step.RunJob? {
      HeadOfQueue(s);
    }
  }

  /** Once no establish is in flight, a shutdown that is not waiting for it never will. */
  lemma {:induction false} NothingElseIsAwaited(states: seq<State>, steps: seq<Step>, j: nat, k: nat)
    requires Execution(states, steps) && j <= k < |states|
    requires !states[j].establishing && !Waiting(states[j].shutdown)
    ensures !states[k].establishing && !Waiting(states[k].shutdown)
    decreases k
  {
    if j < k {
      NothingElseIsAwaited(states, steps, j, k - 1);
      InvariantHolds(states, steps, k - 1);
      StaysUnawaited(states[k - 1], steps[k - 1]);
    }
  }

  lemma TornByShutdown(s: State)
    requires Invariant(s) && TeardownsBy(s.teardowns, ByShutdown) > 0
    ensures s.shutdown.TearingDown? || s.shutdown.TornQueued? || s.shutdown.Done?
  {
    LogFacts(s.teardowns, if s.establish.Rejected? then ByServe else ByShutdown);
  }

  lemma ClosedOnce(p: ShutdownPoint, done: seq<Step>)
    requires ShutDownTo(p, done) && !p.Armed? && !p.ClosingServer?
    ensures |done| >= 2 && done[..2] == [Signal, ShutdownCloseSettles] && ShutdownCloseSettles !in done[2..]
  {
  }

  /** A shutdown tears the tunnel down only after its server close has settled, and ends having closed it once. */
  lemma ServerIsClosedFirst(states: seq<State>, steps: seq<Step>, k: nat)
    requires Execution(states, steps) && k < |states|
    ensures TeardownsBy(states[k].teardowns, ByShutdown) > 0 || states[k].shutdown.Done? ==>
              var done := Only(steps[..k], IsShutdown);
              |done| >= 2 && done[..2] == [Signal, ShutdownCloseSettles] && ShutdownCloseSettles !in done[2..]
  {
    var s := states[k];
    InvariantHolds(states, steps, k);
    ShutdownIsInOrder(states, steps, k);
    if TeardownsBy(s.teardowns, ByShutdown) > 0 || s.shutdown.Done? {
      if !s.shutdown.Done? {
        TornByShutdown(s);
      }
      ClosedOnce(s.shutdown, Only(steps[..k], IsShutdown));
    }
  }
}
