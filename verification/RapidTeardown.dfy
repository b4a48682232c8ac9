/**
 * Rapid launch/stop cycles: each cycle launches, looks, stops at once and looks again; the verdict asks whether
 * every teardown was raced and left nothing.
 */
module RapidTeardown {
  import opened Wrappers
  import opened Residual

  datatype Plan = Plan(cycles: nat, maxLaunchToStopGap: real)

  datatype Cycle = Cycle(
    index: nat, spawned: Option<Spawn>, launchStatus: Option<int>, sessionId: Option<string>,
    atLaunch: Option<Reading>, gap: Option<real>, stopStatus: Option<int>, stopOutcome: Option<string>,
    stopFailed: bool, afterStop: Option<Reading>)

  // ----- the verdict -----

  predicate StopWentWrong(c: Cycle) {
    (c.stopStatus.Some? && c.stopStatus.value != 200) || (c.stopStatus.None? && c.stopFailed)
  }

  predicate CycleDrifts(c: Cycle) {
    || Contradicts(c.spawned, c.launchStatus)
    || (c.atLaunch.Some? && !LiveAtLaunch(c.atLaunch.value))
    || StopWentWrong(c)
    || (c.afterStop.Some? && (c.afterStop.value.childPresent || FdLeaked(c.afterStop.value, c.atLaunch)))
  }

  method CycleViolations(c: Cycle) returns (violations: seq<Check>)
    ensures violations != [] <==> CycleDrifts(c)
    ensures Launch in violations <==> Contradicts(c.spawned, c.launchStatus)
    ensures ChildLive in violations <==> c.atLaunch.Some? && !c.atLaunch.value.childPresent
    ensures FdOpened in violations
       <==> c.atLaunch.Some? && (!c.atLaunch.value.fdOpen || c.atLaunch.value.fdCharacterDevice == Some(false))
    ensures StopAnswered in violations <==> StopWentWrong(c)
    ensures ChildReaped in violations <==> c.afterStop.Some? && c.afterStop.value.childPresent
    ensures FdReleased in violations <==> c.afterStop.Some? && FdLeaked(c.afterStop.value, c.atLaunch)
  {
    var atLaunch := LaunchViolations(c.spawned, c.launchStatus, c.atLaunch);
    var stop: seq<Check> := [];
    if c.stopStatus.Some? && c.stopStatus.value != 200 {
      stop := [StopAnswered];
    } else if c.stopStatus.None? && c.stopFailed {
      stop := [StopAnswered];
    }
    var residual := ResidualViolations(c.afterStop, c.atLaunch);
    violations := atLaunch + stop + residual;
  }

  /** Nothing this cycle should have been asked is missing, and its teardown was raced. */
  predicate CycleAnswered(c: Cycle, plan: Plan) {
    && c.spawned.Some? && c.spawned.value.fd.Some? && c.atLaunch.Some?
    && c.stopStatus.Some? && (c.stopStatus.value == 200 ==> c.stopOutcome == Some("stopped"))
    && c.afterStop.Some? && c.gap.Some? && c.gap.value <= plan.maxLaunchToStopGap
  }

  method CycleGaps(c: Cycle, plan: Plan) returns (gaps: seq<Check>)
    ensures gaps == [] <==> CycleAnswered(c, plan)
    ensures Backend in gaps <==> c.spawned.None?
    ensures MasterFd in gaps <==> c.spawned.Some? && c.spawned.value.fd.None?
    ensures gaps == [Backend] || gaps == [MasterFd] || (
              && (FdOpened in gaps <==> c.atLaunch.None?)
              && (StopAnswered in gaps <==> c.stopStatus.None?)
              && (StopTore in gaps <==> c.stopStatus == Some(200) && c.stopOutcome != Some("stopped"))
              && (FdReleased in gaps <==> c.afterStop.None?)
              && (Pressure in gaps <==> c.gap.None? || c.gap.value > plan.maxLaunchToStopGap))
  {
    gaps := [];
    if c.spawned.None? {
      return [Backend];
    }
    if c.spawned.value.fd.None? {
      return [MasterFd];
    }
    if c.atLaunch.None? {
      gaps := gaps + [FdOpened];
    }
    if c.stopStatus.None? {
      gaps := gaps + [StopAnswered];
    } else if c.stopStatus.value == 200 && c.stopOutcome != Some("stopped") {
      gaps := gaps + [StopTore];
    }
    if c.afterStop.None? {
      gaps := gaps + [FdReleased];
    }
    if c.gap.None? {
      gaps := gaps + [Pressure];
    } else if c.gap.value > plan.maxLaunchToStopGap {
      gaps := gaps + [Pressure];
    }
  }

  predicate RunAnswered(cycles: seq<Cycle>, plan: Plan) {
    cycles != [] && |cycles| >= plan.cycles && forall i :: 0 <= i < |cycles| ==> CycleAnswered(cycles[i], plan)
  }

  method RunGaps(cycles: seq<Cycle>, plan: Plan) returns (gaps: seq<Check>)
    ensures gaps == [] <==> RunAnswered(cycles, plan)
  {
    gaps := [];
    if |cycles| == 0 {
      return [CyclesDriven];
    }
    if |cycles| < plan.cycles {
      gaps := gaps + [CyclesDriven];
    }
    for i := 0 to |cycles|
      invariant gaps == [] <==> |cycles| >= plan.cycles && forall j :: 0 <= j < i ==> CycleAnswered(cycles[j], plan)
    {
      var more := CycleGaps(cycles[i], plan);
      gaps := gaps + more;
    }
  }

  predicate RunDrifts(cycles: seq<Cycle>) {
    exists i :: 0 <= i < |cycles| && CycleDrifts(cycles[i])
  }

  method ClassifyTeardownTiming(cycles: seq<Cycle>, plan: Plan) returns (verdict: Verdict, violations: seq<Check>)
    ensures verdict == if RunDrifts(cycles) then Drift else if RunAnswered(cycles, plan) then Verified else Inconclusive
    ensures violations != [] <==> verdict.Drift?
  {
    violations := [];
    for i := 0 to |cycles|
      invariant violations != [] <==> exists j :: 0 <= j < i && CycleDrifts(cycles[j])
    {
      var more := CycleViolations(cycles[i]);
      violations := violations + more;
    }
    if |violations| > 0 {
      return Drift, violations;
    }
    var gaps := RunGaps(cycles, plan);
    verdict := if |gaps| > 0 then Inconclusive else Verified;
  }

  /** A cycle that was raced and left nothing: present at launch, stopped in time, gone or recycled after. */
  predicate CleanCycle(c: Cycle, plan: Plan) {
    && c.spawned.Some? && c.spawned.value.fd.Some? && (c.launchStatus.Some? ==> c.launchStatus.value == 201)
    && c.atLaunch.Some? && LiveAtLaunch(c.atLaunch.value)
    && c.gap.Some? && c.gap.value <= plan.maxLaunchToStopGap
    && c.stopStatus == Some(200) && c.stopOutcome == Some("stopped")
    && c.afterStop.Some? && !c.afterStop.value.childPresent
    && (c.afterStop.value.fdOpen && c.atLaunch.value.fdIdentity.Some? ==>
          c.afterStop.value.fdIdentity != c.atLaunch.value.fdIdentity)
  }

  /** Verified says exactly this much: the planned cycles, at least one, and every one of them clean. */
  lemma VerifiedExactly(cycles: seq<Cycle>, plan: Plan)
    ensures !RunDrifts(cycles) && RunAnswered(cycles, plan)
       <==> cycles != [] && |cycles| >= plan.cycles && forall i :: 0 <= i < |cycles| ==> CleanCycle(cycles[i], plan)
  {
    forall i | 0 <= i < |cycles|
      ensures CleanCycle(cycles[i], plan) <==> !CycleDrifts(cycles[i]) && CycleAnswered(cycles[i], plan)
    {
    }
  }

  // ----- the drive -----

  /** The cycle is about the newest spawn there was, seen after the launch was answered, if the launch brought one. */
  predicate NewestSpawn(c: Cycle, launch: Event, seen: seq<Spawn>) {
    && launch.Asked? && launch.spawns <= seen
    && c.spawned == if |seen| > launch.before then Some(seen[|seen| - 1]) else None
  }

  /** What a driven cycle can look like, whatever the daemon and the machine did. */
  predicate DrivenCycle(c: Cycle) {
    && (c.atLaunch.Some? <==> c.spawned.Some? && c.spawned.value.fd.Some?)
    && (c.atLaunch.Some? ==> c.atLaunch.value.WellShaped())
    && (c.afterStop.Some? ==> c.atLaunch.Some? && c.afterStop.value.WellShaped())
    && (c.gap.Some? <==> c.sessionId.Some?)
    && (c.stopStatus.Some? || c.stopFailed ==> c.sessionId.Some?)
    && (c.sessionId.Some? && c.atLaunch.Some? ==> c.afterStop.Some?)
  }

  /** The cycle's launch fields are what the launch was answered. */
  predicate LaunchAnswered(c: Cycle, e: Event) {
    && e.Asked? && e.request == LaunchRequest
    && match e.response
       case Answered(status, body) => c.launchStatus == Some(status) && c.sessionId == body.sessionId
       case Unreadable(status) => c.launchStatus == Some(status) && c.sessionId == None
       case Unreachable => c.launchStatus == None && c.sessionId == None
  }

  /** Its stop fields are what the stop of that very session was answered. */
  predicate StopAnsweredBy(c: Cycle, e: Event) {
    && e.Asked? && c.sessionId.Some? && e.request == StopRequest(c.sessionId.value)
    && match e.response
       case Answered(status, body) =>
         && c.stopStatus == Some(status) && c.stopOutcome == body.outcome
         && (c.stopFailed <==> status != 200 && body.code.Some?)
       case Unreadable(status) => c.stopStatus == Some(status) && c.stopOutcome == None && c.stopFailed
       case Unreachable => c.stopStatus == None && c.stopOutcome == None && c.stopFailed
  }

  /** The look at the session while it is up, when there is a handle to look at. */
  predicate LookedAtLaunch(c: Cycle, looks: seq<Event>) {
    match c.atLaunch
    case None => looks == []
    case Some(r) =>
      && c.spawned.Some? && c.spawned.value.fd.Some?
      && |looks| == 1 && looks[0].Looked? && looks[0].reading == r
      && looks[0].pid == c.spawned.value.pid && looks[0].fd == c.spawned.value.fd.value
  }

  /** The looks after the stop, when there is a handle to look at. */
  predicate LookedAfterStop(c: Cycle, looks: seq<Event>) {
    match c.afterStop
    case None => looks == []
    case Some(r) =>
      && c.spawned.Some? && c.spawned.value.fd.Some?
      && Polls(looks, c.spawned.value.pid, c.spawned.value.fd.value, c.atLaunch, r)
  }

  /** The gap lies between the launch's answer and the stop's request, and spans the look in between. */
  predicate GapSpans(c: Cycle, launch: Event, looks: seq<Event>, stop: Event) {
    && c.gap.Some? && 0.0 <= c.gap.value <= stop.began - launch.ended
    && (looks != [] ==> looks[0].ended - looks[0].began <= c.gap.value)
  }

  /** What one cycle did, in order: the launch, the spawns seen, the look at one, the stop, the looks after it. */
  datatype Doings = Doings(
    launch: Event, seen: seq<Spawn>, looks: seq<Event>, stop: Option<Event>, after: seq<Event>)
  {
    function Events(): seq<Event> {
      [launch] + looks + Wrappers.Listed(stop) + after
    }
  }

  /** The cycle says what was done and seen; a stop is asked for exactly when the launch named a session. */
  predicate Tells(c: Cycle, d: Doings) {
    && LaunchAnswered(c, d.launch) && NewestSpawn(c, d.launch, d.seen)
    && LookedAtLaunch(c, d.looks) && LookedAfterStop(c, d.after)
    && (d.stop.Some? <==> c.sessionId.Some?)
    && match d.stop
       case Some(stop) => StopAnsweredBy(c, stop) && GapSpans(c, d.launch, d.looks, stop)
       case None =>
         c.gap == None && c.stopStatus == None && c.stopOutcome == None && !c.stopFailed && c.afterStop == None
  }

  method RequestLaunch(world: World) returns (status: Option<int>, sessionId: Option<string>, ghost e: Event)
    modifies world
    ensures old(world.spawns) <= world.spawns && world.clock >= e.ended >= e.began >= old(world.clock)
    ensures world.log == old(world.log) + [e] && e.Asked? && e.request == LaunchRequest
    ensures e.before == |old(world.spawns)| && e.spawns <= world.spawns
    ensures match e.response
            case Answered(s, body) => status == Some(s) && sessionId == body.sessionId
            case Unreadable(s) => status == Some(s) && sessionId == None
            case Unreachable => status == None && sessionId == None
  {
    status, sessionId := None, None;
    ghost var began := world.clock;
    var launched := world.Exchange(LaunchRequest);
    e := Asked(LaunchRequest, launched, began, world.clock, |old(world.spawns)|, world.spawns);
    match launched {
      case Answered(s, body) => status, sessionId := Some(s), body.sessionId;
      case Unreadable(s) => status := Some(s);
      case Unreachable =>
    }
  }

  method RequestStop(world: World, sessionId: string)
    returns (status: Option<int>, outcome: Option<string>, failed: bool, ghost e: Event)
    modifies world
    ensures old(world.spawns) <= world.spawns && world.clock >= e.ended >= e.began == old(world.clock)
    ensures world.log == old(world.log) + [e] && e.Asked? && e.request == StopRequest(sessionId)
    ensures match e.response
            case Answered(s, body) =>
              status == Some(s) && outcome == body.outcome && (failed <==> s != 200 && body.code.Some?)
            case Unreadable(s) => status == Some(s) && outcome == None && failed
            case Unreachable => status == None && outcome == None && failed
  {
    status, outcome, failed := None, None, false;
    ghost var began := world.clock;
    var stopped := world.Exchange(StopRequest(sessionId));
    e := Asked(StopRequest(sessionId), stopped, began, world.clock, |old(world.spawns)|, world.spawns);
    match stopped {
      case Answered(s, body) =>
        status, outcome := Some(s), body.outcome;
        failed := s != 200 && body.code.Some?;
      case Unreadable(s) => status, failed := Some(s), true;
      case Unreachable => failed := true;
    }
  }

  /** The handle of a spawn that has one is read. */
  method LookAtLaunch(world: World, spawned: Option<Spawn>) returns (atLaunch: Option<Reading>, ghost looks: seq<Event>)
    modifies world
    ensures old(world.spawns) <= world.spawns && world.clock >= old(world.clock)
    ensures world.log == old(world.log) + looks
    ensures atLaunch.Some? <==> spawned.Some? && spawned.value.fd.Some?
    ensures match atLaunch
            case None => looks == []
            case Some(r) =>
              && r.WellShaped()
              && looks == [Looked(spawned.value.pid, spawned.value.fd.value, r, old(world.clock), world.clock)]
  {
    atLaunch, looks := None, [];
    if spawned.Some? && spawned.value.fd.Some? {
      var reading := world.ReadHandleState(spawned.value.pid, spawned.value.fd.value);
      atLaunch := Some(reading);
      looks := [Looked(spawned.value.pid, spawned.value.fd.value, reading, old(world.clock), world.clock)];
    }
  }

  /** Stop without settling, and look until settled. */
  method StopAndLook(world: World, spawned: Option<Spawn>, atLaunch: Option<Reading>, sessionId: string, timeout: real)
    returns (status: Option<int>, outcome: Option<string>, failed: bool, afterStop: Option<Reading>,
             ghost stop: Event, ghost after: seq<Event>)
    modifies world
    ensures old(world.spawns) <= world.spawns && world.clock >= stop.ended >= stop.began == old(world.clock)
    ensures world.log == old(world.log) + [stop] + after
    ensures stop.Asked? && stop.request == StopRequest(sessionId) && (status.Some? || failed)
    ensures match stop.response
            case Answered(s, body) =>
              status == Some(s) && outcome == body.outcome && (failed <==> s != 200 && body.code.Some?)
            case Unreadable(s) => status == Some(s) && outcome == None && failed
            case Unreachable => status == None && outcome == None && failed
    ensures afterStop.Some? <==> spawned.Some? && spawned.value.fd.Some?
    ensures match afterStop
            case None => after == []
            case Some(r) => r.WellShaped() && Polls(after, spawned.value.pid, spawned.value.fd.value, atLaunch, r)
  {
    status, outcome, failed, stop := RequestStop(world, sessionId);
    afterStop, after := None, [];
    if (status.Some? || failed) && spawned.Some? && spawned.value.fd.Some? {
      var reading;
      reading, after := WaitForResidualToSettle(world, spawned.value.pid, spawned.value.fd.value, atLaunch, timeout);
      afterStop := Some(reading);
    }
  }

  /** The cycle is the run's `index`-th and tells what was done in it. */
  predicate InPlace(c: Cycle, index: nat, d: Doings, spawns: seq<Spawn>) {
    c.index == index && DrivenCycle(c) && Tells(c, d) && d.seen <= spawns
  }

  /** One cycle: launch, look, stop without settling, look until settled. */
  method DriveOneCycle(world: World, index: nat, settleTimeout: real) returns (c: Cycle, ghost d: Doings)
    modifies world
    ensures old(world.spawns) <= world.spawns && world.clock >= old(world.clock)
    ensures InPlace(c, index, d, world.spawns) && d.launch.before == |old(world.spawns)|
    ensures world.log == old(world.log) + d.Events()
  {
    var spawnsBefore := |world.spawns|;
    var launchStatus, sessionId;
    ghost var launch, looks;
    launchStatus, sessionId, launch := RequestLaunch(world);
    var launchAnsweredAt := world.Now();
    var spawnsAfter := world.spawns;
    var spawned := if |spawnsAfter| > spawnsBefore then Some(spawnsAfter[|spawnsAfter| - 1]) else None;
    var atLaunch;
    atLaunch, looks := LookAtLaunch(world, spawned);
    c := Cycle(index, spawned, launchStatus, sessionId, atLaunch, None, None, None, false, None);
    d := Doings(launch, spawnsAfter, looks, None, []);
    if sessionId.Some? {
      var stoppingAt := world.Now();
      ghost var stop, after;
      var stopStatus, stopOutcome, stopFailed, afterStop;
      stopStatus, stopOutcome, stopFailed, afterStop, stop, after :=
        StopAndLook(world, spawned, atLaunch, sessionId.value, settleTimeout);
      c := c.(gap := Some(stoppingAt - launchAnsweredAt), stopStatus := stopStatus, stopOutcome := stopOutcome,
              stopFailed := stopFailed, afterStop := afterStop);
      d := Doings(launch, spawnsAfter, looks, Some(stop), after);
    }
  }

  /** Each cycle begins after the spawns the earlier ones saw: no spawn is counted for two of them. */
  predicate Apart(done: seq<Doings>) {
    && (forall i :: 0 <= i < |done| ==> done[i].launch.Asked?)
    && forall i, j :: 0 <= i < j < |done| ==> |done[i].seen| <= done[j].launch.before
  }

  function Flat(done: seq<Doings>): seq<Event> {
    if done == [] then [] else Flat(done[..|done| - 1]) + done[|done| - 1].Events()
  }

  lemma FlatNext(was: seq<Event>, done: seq<Doings>, d: Doings)
    ensures was + Flat(done + [d]) == was + Flat(done) + d.Events()
  {
    assert (done + [d])[..|done|] == done;
  }

  /** Every cycle is in its place, tells what was done in it, and has a spawn of its own or none. */
  predicate AllDriven(cycles: seq<Cycle>, done: seq<Doings>, spawns: seq<Spawn>) {
    && |done| == |cycles| && Apart(done)
    && forall i :: 0 <= i < |cycles| ==> InPlace(cycles[i], i, done[i], spawns)
  }

  lemma StaysInPlace(cycles: seq<Cycle>, done: seq<Doings>, spawns: seq<Spawn>, more: seq<Spawn>)
    requires AllDriven(cycles, done, spawns) && spawns <= more
    ensures forall i :: 0 <= i < |cycles| ==> InPlace(cycles[i], i, done[i], more) && |done[i].seen| <= |spawns|
  {
    forall i | 0 <= i < |cycles|
      ensures InPlace(cycles[i], i, done[i], more) && |done[i].seen| <= |spawns|
    {
      assert InPlace(cycles[i], i, done[i], spawns);
    }
  }

  lemma AllDrivenNext(
    cycles: seq<Cycle>, done: seq<Doings>, spawns: seq<Spawn>, more: seq<Spawn>, c: Cycle, d: Doings)
    requires AllDriven(cycles, done, spawns) && spawns <= more
    requires InPlace(c, |cycles|, d, more) && d.launch.before == |spawns|
    ensures AllDriven(cycles + [c], done + [d], more)
  {
    StaysInPlace(cycles, done, spawns, more);
  }

  /** The cycles of a run, until the planned number or one that spawned nothing. */
  method DriveCycles(world: World, planned: nat, settleTimeout: real)
    returns (cycles: seq<Cycle>, ghost done: seq<Doings>)
    modifies world
    ensures AllDriven(cycles, done, world.spawns)
    ensures world.log == old(world.log) + Flat(done)
    ensures |cycles| <= planned
    ensures |cycles| < planned ==> cycles != [] && cycles[|cycles| - 1].spawned.None?
  {
    cycles, done := [], [];
    var index := 0;
    while index < planned
      invariant index == |cycles| <= planned && AllDriven(cycles, done, world.spawns)
      invariant world.log == old(world.log) + Flat(done)
    {
      ghost var before := world.spawns;
      var cycle;
      ghost var d;
      cycle, d := DriveOneCycle(world, index, settleTimeout);
      FlatNext(old(world.log), done, d);
      AllDrivenNext(cycles, done, before, world.spawns, cycle, d);
      cycles, done := cycles + [cycle], done + [d];
      if cycle.spawned.None? {
        break;
      }
      index := index + 1;
    }
  }

  method DriveTeardownTiming(world: World, plan: Plan, settleTimeout: real)
    returns (verdict: Verdict, cycles: seq<Cycle>, ghost done: seq<Doings>)
    modifies world
    ensures AllDriven(cycles, done, world.spawns)
    ensures world.log == old(world.log) + Flat(done)
    ensures |cycles| <= plan.cycles
    ensures |cycles| < plan.cycles ==> cycles != [] && cycles[|cycles| - 1].spawned.None?
    ensures verdict == Verified
       <==> 0 < |cycles| == plan.cycles && forall i :: 0 <= i < |cycles| ==> CleanCycle(cycles[i], plan)
    ensures verdict == Drift <==> RunDrifts(cycles)
  {
    cycles, done := DriveCycles(world, plan.cycles, settleTimeout);
    var violations;
    verdict, violations := ClassifyTeardownTiming(cycles, plan);
    VerifiedExactly(cycles, plan);
  }

  /** A settle loop that stopped early read nothing either verdict calls a residual. */
  lemma EarlyStopIsNoLeak(c: Cycle, p: Capture)
    requires c.afterStop.Some? && HasSettled(c.afterStop.value, c.atLaunch)
    requires p.afterTeardown.Some? && HasSettled(p.afterTeardown.value, p.atLaunch)
    ensures CycleDrifts(c)
       <==> || Contradicts(c.spawned, c.launchStatus) || (c.atLaunch.Some? && !LiveAtLaunch(c.atLaunch.value))
            || StopWentWrong(c)
    ensures Drifts(p)
       <==> Contradicts(p.spawned, p.launchStatus) || (p.atLaunch.Some? && !LiveAtLaunch(p.atLaunch.value))
  {
    SettledIsClean(c.afterStop.value, c.atLaunch);
    SettledIsClean(p.afterTeardown.value, p.atLaunch);
  }
}
