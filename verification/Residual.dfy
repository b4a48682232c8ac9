/**
 * What a torn-down pty may leave behind: the reading of its two handles, the rule that ends the settle loop, and
 * the single-run verdict.
 */
module Residual {
  import opened Wrappers

  const REAP_POLL_MS := 25.0
  const WORKER_LIFETIME_MS := 30000

  /** The OS's answer about a child and a descriptor; identity and kind are known exactly when it is open. */
  datatype Reading = Reading(
    childPresent: bool, fdOpen: bool, fdIdentity: Option<string>, fdCharacterDevice: Option<bool>)
  {
    predicate WellShaped() {
      (fdIdentity.Some? <==> fdOpen) && (fdCharacterDevice.Some? <==> fdOpen)
    }
  }

  function IdentityOf(r: Option<Reading>): Option<string> {
    if r.Some? then r.value.fdIdentity else None
  }

  /** Gone: the child reaped, and the descriptor closed or recycled onto another object. */
  predicate HasSettled(r: Reading, atLaunch: Option<Reading>) {
    && !r.childPresent
    && (!r.fdOpen || (IdentityOf(atLaunch).Some? && r.fdIdentity != IdentityOf(atLaunch)))
  }

  /** What both verdicts call a leaked descriptor: still open, on the object it was launched with. */
  predicate FdLeaked(after: Reading, atLaunch: Option<Reading>) {
    after.fdOpen && IdentityOf(atLaunch).Some? && after.fdIdentity == IdentityOf(atLaunch)
  }

  /** The loop stops early on nothing a verdict would call a residual; it waits longer only without an identity. */
  lemma SettledIsClean(r: Reading, atLaunch: Option<Reading>)
    ensures !r.childPresent && !FdLeaked(r, atLaunch)
       <==> HasSettled(r, atLaunch) || (!r.childPresent && r.fdOpen && IdentityOf(atLaunch).None?)
  {
  }

  datatype Spawn = Spawn(pid: int, fd: Option<int>, spawnedAt: real)

  datatype Request = LaunchRequest | StopRequest(sessionId: string)

  /** An HTTP exchange: answered with a readable body, answered unreadably, or never answered. */
  datatype Response = Answered(status: int, body: Body) | Unreadable(status: int) | Unreachable

  datatype Body = Body(sessionId: Option<string>, outcome: Option<string>, code: Option<string>)

  /**
   * One thing done to the machine: a request with its answer, how many spawns there were before it and which by then,
   * or a look at a child and its descriptor.
   */
  datatype Event =
    | Asked(request: Request, response: Response, began: real, ended: real, before: nat, spawns: seq<Spawn>)
    | Looked(pid: int, fd: int, reading: Reading, began: real, ended: real)

  /**
   * The machine under test, from outside: a clock, the handles, and the spawns so far, oldest first. Anything may
   * change between two looks, but the list only grows and the clock never goes back. `log` records what was done.
   */
  class World {
    var clock: real
    var spawns: seq<Spawn>
    ghost var log: seq<Event>

    constructor ()
      ensures log == []
    {
      clock, spawns, log := 0.0, [], [];
    }

    method Pass()
      modifies this`clock, this`spawns
      ensures clock >= old(clock) && old(spawns) <= spawns
    {
      var passed: real := *;
      var more: seq<Spawn> := *;
      clock := clock + if passed > 0.0 then passed else 0.0;
      spawns := spawns + more;
    }

    method Now() returns (t: real)
      modifies this`clock, this`spawns
      ensures clock >= old(clock) && old(spawns) <= spawns && t == clock
    {
      Pass();
      t := clock;
    }

    method Sleep(ms: real)
      requires ms >= 0.0
      modifies this`clock, this`spawns
      ensures clock >= old(clock) + ms && old(spawns) <= spawns
    {
      Pass();
      clock := clock + ms;
    }

    method ReadHandleState(pid: int, fd: int) returns (r: Reading)
      modifies this
      ensures clock >= old(clock) && old(spawns) <= spawns && r.WellShaped()
      ensures log == old(log) + [Looked(pid, fd, r, old(clock), clock)]
    {
      Pass();
      var present: bool := *;
      var open: bool := *;
      var identity: string := *;
      var device: bool := *;
      r := Reading(present, open, if open then Some(identity) else None, if open then Some(device) else None);
      log := log + [Looked(pid, fd, r, old(clock), clock)];
    }

    method Exchange(request: Request) returns (r: Response)
      modifies this
      ensures clock >= old(clock) && old(spawns) <= spawns
      ensures log == old(log) + [Asked(request, r, old(clock), clock, |old(spawns)|, spawns)]
    {
      Pass();
      r := *;
      log := log + [Asked(request, r, old(clock), clock, |old(spawns)|, spawns)];
    }
  }

  function MaxPolls(timeout: real): nat {
    if timeout > 0.0 then (timeout / REAP_POLL_MS).Floor + 1 else 0
  }

  lemma StillPolling(polls: nat, timeout: real)
    requires REAP_POLL_MS * polls as real < timeout
    ensures polls < MaxPolls(timeout)
  {
    assert polls as real < timeout / REAP_POLL_MS;
  }

  /** `looks` are looks at one child and its descriptor; only the last of them, which read `last`, may be settled. */
  predicate Polls(looks: seq<Event>, pid: int, fd: int, atLaunch: Option<Reading>, last: Reading) {
    && looks != [] && looks[|looks| - 1].Looked? && looks[|looks| - 1].reading == last
    && forall i :: 0 <= i < |looks| ==>
         && looks[i].Looked? && looks[i].pid == pid && looks[i].fd == fd
         && (i < |looks| - 1 ==> !HasSettled(looks[i].reading, atLaunch))
  }

  lemma PollsNext(looks: seq<Event>, pid: int, fd: int, atLaunch: Option<Reading>, last: Reading, next: Event)
    requires Polls(looks, pid, fd, atLaunch, last) && !HasSettled(last, atLaunch)
    requires next.Looked? && next.pid == pid && next.fd == fd
    ensures Polls(looks + [next], pid, fd, atLaunch, next.reading)
  {
  }

  /**
   * Re-read until settled or out of time, and return the last reading: it ends, on the first settled reading if there
   * is one, and early only on a clean one.
   */
  method WaitForResidualToSettle(world: World, pid: int, fd: int, atLaunch: Option<Reading>, timeout: real)
    returns (reading: Reading, ghost looks: seq<Event>)
    modifies world
    ensures world.clock >= old(world.clock) && old(world.spawns) <= world.spawns && reading.WellShaped()
    ensures world.log == old(world.log) + looks && Polls(looks, pid, fd, atLaunch, reading)
    ensures HasSettled(reading, atLaunch) || world.clock >= old(world.clock) + timeout
    ensures world.clock < old(world.clock) + timeout ==> !reading.childPresent && !FdLeaked(reading, atLaunch)
  {
    var start := world.Now();
    var deadline := start + timeout;
    ghost var began := world.clock;
    reading := world.ReadHandleState(pid, fd);
    looks := [Looked(pid, fd, reading, began, world.clock)];
    ghost var polls := 0;
    while !HasSettled(reading, atLaunch)
      invariant reading.WellShaped() && old(world.spawns) <= world.spawns
      invariant world.log == old(world.log) + looks && Polls(looks, pid, fd, atLaunch, reading)
      invariant world.clock >= start + REAP_POLL_MS * polls as real && world.clock >= start >= old(world.clock)
      invariant polls <= MaxPolls(timeout)
      decreases MaxPolls(timeout) - polls
    {
      var now := world.Now();
      if now >= deadline {
        return;
      }
      StillPolling(polls, timeout);
      world.Sleep(REAP_POLL_MS);
      began := world.clock;
      ghost var last := reading;
      reading := world.ReadHandleState(pid, fd);
      ghost var look := Looked(pid, fd, reading, began, world.clock);
      PollsNext(looks, pid, fd, atLaunch, last, look);
      looks := looks + [look];
      polls := polls + 1;
    }
    SettledIsClean(reading, atLaunch);
  }

  // ----- the single-run verdict -----

  datatype Verdict = Verified | Drift | Inconclusive

  datatype Check =
    | Backend | Launch | Listed | MasterFd | FdOpened | ChildLive | FdReleased | ChildReaped | WorkerOutlived
    | CyclesDriven | Pressure | StopAnswered | StopTore

  datatype Capture = Capture(
    spawned: Option<Spawn>, launchStatus: Option<int>, listedStatus: Option<string>,
    atLaunch: Option<Reading>, afterTeardown: Option<Reading>, afterTeardownAt: Option<real>, teardownDriven: bool)

  /** Whether the reading may be credited to the daemon: taken, measured, and inside the worker's own lifetime. */
  predicate Attributable(c: Capture) {
    && c.spawned.Some? && c.afterTeardownAt.Some?
    && (c.afterTeardownAt.value - c.spawned.value.spawnedAt + 0.5).Floor < WORKER_LIFETIME_MS
  }

  /** What a launch reading must show. */
  predicate LiveAtLaunch(r: Reading) {
    r.childPresent && r.fdOpen && r.fdCharacterDevice != Some(false)
  }

  /** Rounding to whole milliseconds moves the boundary by half of one. */
  lemma AttributableExactly(c: Capture)
    ensures Attributable(c)
       <==> && c.spawned.Some? && c.afterTeardownAt.Some?
            && c.afterTeardownAt.value - c.spawned.value.spawnedAt < WORKER_LIFETIME_MS as real - 0.5
  {
  }

  predicate Contradicts(spawned: Option<Spawn>, launchStatus: Option<int>) {
    spawned.Some? && launchStatus.Some? && launchStatus.value != 201
  }

  predicate Drifts(c: Capture) {
    || Contradicts(c.spawned, c.launchStatus)
    || (c.atLaunch.Some? && !LiveAtLaunch(c.atLaunch.value))
    || (c.afterTeardown.Some? && (c.afterTeardown.value.childPresent || FdLeaked(c.afterTeardown.value, c.atLaunch)))
  }

  predicate Captured(c: Capture) {
    && c.spawned.Some? && c.spawned.value.fd.Some? && c.launchStatus.Some? && c.listedStatus.Some?
    && c.atLaunch.Some? && c.teardownDriven && c.afterTeardown.Some? && Attributable(c)
  }

  method LaunchViolations(spawned: Option<Spawn>, launchStatus: Option<int>, atLaunch: Option<Reading>)
    returns (violations: seq<Check>)
    ensures Launch in violations <==> Contradicts(spawned, launchStatus)
    ensures ChildLive in violations <==> atLaunch.Some? && !atLaunch.value.childPresent
    ensures FdOpened in violations
       <==> atLaunch.Some? && (!atLaunch.value.fdOpen || atLaunch.value.fdCharacterDevice == Some(false))
    ensures violations == []
       <==> !Contradicts(spawned, launchStatus) && (atLaunch.Some? ==> LiveAtLaunch(atLaunch.value))
    ensures forall v :: v in violations ==> v.Launch? || v.ChildLive? || v.FdOpened?
  {
    violations := [];
    if spawned.Some? && launchStatus.Some? && launchStatus.value != 201 {
      violations := violations + [Launch];
    }
    if atLaunch.Some? {
      if !atLaunch.value.childPresent {
        violations := violations + [ChildLive];
      }
      if !atLaunch.value.fdOpen {
        violations := violations + [FdOpened];
      } else if atLaunch.value.fdCharacterDevice == Some(false) {
        violations := violations + [FdOpened];
      }
    }
  }

  method ResidualViolations(after: Option<Reading>, atLaunch: Option<Reading>) returns (violations: seq<Check>)
    ensures ChildReaped in violations <==> after.Some? && after.value.childPresent
    ensures FdReleased in violations <==> after.Some? && FdLeaked(after.value, atLaunch)
    ensures violations == [] <==> after.None? || (!after.value.childPresent && !FdLeaked(after.value, atLaunch))
    ensures forall v :: v in violations ==> v.ChildReaped? || v.FdReleased?
  {
    violations := [];
    if after.Some? {
      if after.value.childPresent {
        violations := violations + [ChildReaped];
      }
      if after.value.fdOpen && IdentityOf(atLaunch).Some? && after.value.fdIdentity == IdentityOf(atLaunch) {
        violations := violations + [FdReleased];
      }
    }
  }

  /** Whether the reading after the teardown can be credited to the daemon. */
  method AttributionGaps(c: Capture) returns (gaps: seq<Check>)
    ensures gaps == []
       <==> && c.spawned.Some? && c.afterTeardownAt.Some?
            && c.afterTeardownAt.value - c.spawned.value.spawnedAt < 29999.5
    ensures gaps != [] ==> gaps == [WorkerOutlived]
  {
    AttributableExactly(c);
    if c.spawned.None? || c.afterTeardownAt.None? {
      return [WorkerOutlived];
    }
    if (c.afterTeardownAt.value - c.spawned.value.spawnedAt + 0.5).Floor >= WORKER_LIFETIME_MS {
      return [WorkerOutlived];
    }
    return [];
  }

  /** The launch questions this run could not ask. */
  method LaunchGaps(c: Capture) returns (gaps: seq<Check>)
    ensures gaps == [] <==> c.spawned.Some? && c.spawned.value.fd.Some? && c.launchStatus.Some? && c.listedStatus.Some?
    ensures Backend in gaps <==> c.spawned.None?
    ensures MasterFd in gaps <==> c.spawned.Some? && c.spawned.value.fd.None?
    ensures Launch in gaps <==> c.launchStatus.None?
    ensures Listed in gaps <==> c.listedStatus.None?
    ensures forall g :: g in gaps ==> g.Backend? || g.MasterFd? || g.Launch? || g.Listed?
  {
    gaps := [];
    if c.spawned.None? {
      gaps := gaps + [Backend];
    } else if c.spawned.value.fd.None? {
      gaps := gaps + [MasterFd];
    }
    if c.launchStatus.None? {
      gaps := gaps + [Launch];
    }
    if c.listedStatus.None? {
      gaps := gaps + [Listed];
    }
  }

  /** The handle questions this run could not ask. */
  method HandleGaps(c: Capture) returns (gaps: seq<Check>)
    ensures gaps == [] <==> c.atLaunch.Some? && c.teardownDriven && c.afterTeardown.Some? && Attributable(c)
    ensures FdOpened in gaps <==> c.atLaunch.None?
    ensures ChildReaped in gaps <==> !c.teardownDriven
    ensures FdReleased in gaps <==> c.afterTeardown.None?
    ensures WorkerOutlived in gaps <==> c.afterTeardown.Some? && !Attributable(c)
    ensures forall g :: g in gaps ==> g.FdOpened? || g.ChildReaped? || g.FdReleased? || g.WorkerOutlived?
  {
    gaps := [];
    if c.atLaunch.None? {
      gaps := gaps + [FdOpened];
    }
    if !c.teardownDriven {
      gaps := gaps + [ChildReaped];
    }
    if c.afterTeardown.None? {
      gaps := gaps + [FdReleased];
    } else {
      var unattributed := AttributionGaps(c);
      gaps := gaps + unattributed;
    }
  }

  /** Drift first; then verified exactly when everything was captured and can be credited to the daemon. */
  method ClassifyPtyHandleResidual(c: Capture)
    returns (verdict: Verdict, violations: seq<Check>, gaps: seq<Check>)
    ensures verdict == if Drifts(c) then Drift else if Captured(c) then Verified else Inconclusive
    ensures violations != [] <==> verdict.Drift?
    ensures Launch in violations <==> Contradicts(c.spawned, c.launchStatus)
    ensures ChildLive in violations <==> c.atLaunch.Some? && !c.atLaunch.value.childPresent
    ensures FdOpened in violations
       <==> c.atLaunch.Some? && (!c.atLaunch.value.fdOpen || c.atLaunch.value.fdCharacterDevice == Some(false))
    ensures ChildReaped in violations <==> c.afterTeardown.Some? && c.afterTeardown.value.childPresent
    ensures FdReleased in violations <==> c.afterTeardown.Some? && FdLeaked(c.afterTeardown.value, c.atLaunch)
    ensures gaps != [] <==> verdict.Inconclusive?
    ensures !verdict.Drift? ==>
              && (Backend in gaps <==> c.spawned.None?)
              && (MasterFd in gaps <==> c.spawned.Some? && c.spawned.value.fd.None?)
              && (Launch in gaps <==> c.launchStatus.None?) && (Listed in gaps <==> c.listedStatus.None?)
              && (FdOpened in gaps <==> c.atLaunch.None?) && (ChildReaped in gaps <==> !c.teardownDriven)
              && (FdReleased in gaps <==> c.afterTeardown.None?)
              && (WorkerOutlived in gaps <==> c.afterTeardown.Some? && !Attributable(c))
  {
    violations := LaunchViolations(c.spawned, c.launchStatus, c.atLaunch);
    var residual := ResidualViolations(c.afterTeardown, c.atLaunch);
    violations := violations + residual;
    if |violations| > 0 {
      return Drift, violations, [];
    }
    var launch := LaunchGaps(c);
    var handle := HandleGaps(c);
    gaps := launch + handle;
    verdict := if |gaps| > 0 then Inconclusive else Verified;
  }
}
