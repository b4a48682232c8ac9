/**
 * The session, its pure transitions, and the ordered status feed: the per-epoch high-water mark that refuses a
 * report which lost a race to a later one.
 */
module SessionModel {
  import opened Wrappers
  import opened Json
  import opened Detail
  import opened Seqs

  datatype WorkerStatus = Running | RequiresAction | Idle

  datatype Activity = IsRunning | Awaiting(detail: string) | IsIdle {
    function Kind(): WorkerStatus {
      match this
      case IsRunning => Running
      case Awaiting(_) => RequiresAction
      case IsIdle => Idle
    }
  }

  datatype Lifecycle = Registering | Connecting | Ready | Busy | Closed | Errored

  datatype PermissionMode = Default | AcceptEdits | BypassPermissions | Plan | DontAsk | Auto

  datatype Session = Session(
    id: string, status: Lifecycle, activity: Activity, autoResolvesPermissions: bool,
    createdAt: int, lastActivityAt: int, lastHeartbeatAt: int)

  const DEFAULT_DETAIL := "Awaiting input."
  const MAX_SAFE_INTEGER := 9007199254740991

  function CreateSession(id: string, mode: PermissionMode, now: int): Session {
    Session(id, Connecting, IsIdle, mode.AcceptEdits? || mode.BypassPermissions? || mode.DontAsk? || mode.Auto?,
            now, now, now)
  }

  function ActivityOf(status: WorkerStatus, detail: Option<string>): Activity {
    match status
    case Running => IsRunning
    case RequiresAction => Awaiting(DisplayableDetail(detail).GetOr(DEFAULT_DETAIL))
    case Idle => IsIdle
  }

  function CapturedDetail(activity: Activity, status: WorkerStatus): Option<string> {
    if status.RequiresAction? && activity.Awaiting? then Some(activity.detail) else None
  }

  function NextActivity(activity: Activity, status: WorkerStatus, detail: Option<string>): Activity {
    var stated := DisplayableDetail(detail);
    ActivityOf(status, if stated.Some? then stated else CapturedDetail(activity, status))
  }

  function ApplyWorkerStatus(s: Session, status: WorkerStatus, detail: Option<string>, now: int): Session {
    s.(activity := NextActivity(s.activity, status, detail), lastActivityAt := now)
  }

  /** A status and its wire detail, as a control frame carries them. */
  datatype Reading = Reading(status: WorkerStatus, detail: Option<string>, sequence: Option<nat>)

  function StatusFromWire(v: Option<Json>): Option<WorkerStatus> {
    if v == Some(Str("running")) then Some(Running)
    else if v == Some(Str("requires_action")) then Some(RequiresAction)
    else if v == Some(Str("idle")) then Some(Idle)
    else None
  }

  /** A usable ordering stamp: a non-negative safe integer. Anything else is no stamp at all. */
  function AsSequence(v: Option<Json>): Option<nat> {
    match v
    case Some(Int(n)) => if 0 <= n <= MAX_SAFE_INTEGER then Some(n) else None
    case _ => None
  }

  function TextOf(v: Option<Json>): Option<string> {
    match v
    case Some(Str(s)) => Some(s)
    case _ => None
  }

  /** What a frame reports, when it is a well-formed `worker_status` event. */
  function ReadFrame(frame: Json): Option<Reading> {
    if Get(frame, "type") != Some(Str("control_event")) || Get(frame, "subtype") != Some(Str("worker_status")) then None
    else
      match Get(frame, "payload")
      case None => None
      case Some(payload) =>
        match StatusFromWire(Get(payload, "status"))
        case None => None
        case Some(status) =>
          Some(Reading(status, TextOf(Get(payload, "detail")), AsSequence(Get(payload, "sequence_num"))))
  }

  function ApplyWorkerStatusFrame(s: Session, frame: Json, now: int): Session {
    match ReadFrame(frame)
    case None => s
    case Some(r) => ApplyWorkerStatus(s, r.status, r.detail, now)
  }

  function RecordHeartbeat(s: Session, now: int): Session {
    s.(lastHeartbeatAt := now)
  }

  function MarkReady(s: Session): Session {
    if s.status.Connecting? then s.(status := Ready) else s
  }

  function MarkClosed(s: Session): Session {
    if s.status.Closed? || s.status.Errored? then s else s.(status := Closed)
  }

  predicate IsInputAwaited(a: Activity) {
    a.Awaiting?
  }

  // ----- what a frame reports, exactly -----

  /** The three spellings on the wire. */
  function StatusText(status: WorkerStatus): string {
    match status
    case Running => "running"
    case RequiresAction => "requires_action"
    case Idle => "idle"
  }

  lemma StatusExactly(v: Option<Json>, status: WorkerStatus)
    ensures StatusFromWire(v) == Some(status) <==> v == Some(Str(StatusText(status)))
  {
    assert "running" != "requires_action" && "running" != "idle" && "requires_action" != "idle";
  }

  /** A stamp is a non-negative safe integer and nothing else; a detail is a string and nothing else. */
  lemma FieldsExactly(v: Option<Json>, n: nat, s: string)
    ensures AsSequence(v) == Some(n) <==> v == Some(Int(n)) && n <= 0x1F_FFFF_FFFF_FFFF
    ensures TextOf(v) == Some(s) <==> v == Some(Str(s))
  {
  }

  /** A well-formed status frame: its type, its subtype, and a payload with one of the three statuses. */
  predicate IsStatusFrame(f: Json) {
    && Get(f, "type") == Some(Str("control_event"))
    && Get(f, "subtype") == Some(Str("worker_status"))
    && match Get(f, "payload")
       case None => false
       case Some(payload) =>
         || Get(payload, "status") == Some(Str("running"))
         || Get(payload, "status") == Some(Str("requires_action"))
         || Get(payload, "status") == Some(Str("idle"))
  }

  lemma ReportsExactly(f: Json)
    ensures ReadFrame(f).Some? <==> IsStatusFrame(f)
    ensures ReadFrame(f).Some? ==>
              var (r, payload) := (ReadFrame(f).value, Get(f, "payload").value);
              && Get(payload, "status") == Some(Str(StatusText(r.status)))
              && r.detail == TextOf(Get(payload, "detail"))
              && r.sequence == AsSequence(Get(payload, "sequence_num"))
  {
    var payload := Get(f, "payload");
    if payload.Some? {
      StatusExactly(Get(payload.value, "status"), Running);
      StatusExactly(Get(payload.value, "status"), RequiresAction);
      StatusExactly(Get(payload.value, "status"), Idle);
    }
  }

  /** A frame of any other kind, a malformed status frame included, leaves session, mark and clock alone. */
  lemma OtherFramesMoveNothing(s: Session, mark: Option<nat>, f: Json, now: int)
    requires !IsStatusFrame(f)
    ensures ApplyWorkerStatusFrame(s, f, now) == s
    ensures Deliver(Feed(mark, s), Delivery(Frame(f), now)) == Feed(mark, s)
  {
    ReportsExactly(f);
  }

  /** The gate reads the same three statuses, and never a detail. */
  lemma GateReadsExactly(v: Json, sequence: Option<Json>)
    ensures Read(Put(v, sequence)).Some?
       <==> v == Str("running") || v == Str("requires_action") || v == Str("idle")
    ensures Read(Put(v, sequence)).Some? ==>
              var r := Read(Put(v, sequence)).value;
              v == Str(StatusText(r.status)) && r.detail == None && r.sequence == AsSequence(sequence)
  {
    StatusExactly(Some(v), Running);
    StatusExactly(Some(v), RequiresAction);
    StatusExactly(Some(v), Idle);
  }

  // ----- the detail survives re-affirmation -----

  predicate WellFormed(a: Activity) {
    a.Awaiting? ==> Displayable(a.detail, MAX_DETAIL_LENGTH)
  }

  lemma DefaultIsDisplayable()
    ensures Displayable(DEFAULT_DETAIL, MAX_DETAIL_LENGTH)
  {
    var s := DEFAULT_DETAIL;
    assert forall i :: 0 <= i < |s| ==> 0x20 <= s[i] as int <= 0x7E;
    assert forall i :: 0 <= i < |s| ==> (s[i] == ' ' <==> i == 8);
    AsciiIsDisplayable(s, MAX_DETAIL_LENGTH);
  }

  lemma DerivedIsWellFormed(status: WorkerStatus, detail: Option<string>)
    ensures WellFormed(ActivityOf(status, detail))
  {
    ResultIsDisplayable(detail, MAX_DETAIL_LENGTH);
    DefaultIsDisplayable();
  }

  lemma ActivityStaysWellFormed(a: Activity, status: WorkerStatus, detail: Option<string>)
    ensures WellFormed(NextActivity(a, status, detail))
  {
    var stated := DisplayableDetail(detail);
    DerivedIsWellFormed(status, if stated.Some? then stated else CapturedDetail(a, status));
  }

  lemma StatedDetailWins(a: Activity, detail: Option<string>)
    requires DisplayableDetail(detail).Some?
    ensures NextActivity(a, RequiresAction, detail) == Awaiting(DisplayableDetail(detail).value)
  {
    ResultIsDisplayable(detail, MAX_DETAIL_LENGTH);
    FixedPoints(DisplayableDetail(detail).value, MAX_DETAIL_LENGTH);
  }

  /** A report without a usable detail leaves a captured one alone, although it is normalised again. */
  lemma BareReaffirmation(a: Activity, detail: Option<string>)
    requires a.Awaiting? && WellFormed(a) && DisplayableDetail(detail).None?
    ensures NextActivity(a, RequiresAction, detail) == a
  {
    FixedPoints(a.detail, MAX_DETAIL_LENGTH);
  }

  /** Reporting the same status again gains a stated detail and otherwise keeps what there is. */
  lemma GainOrKeep(a: Activity, status: WorkerStatus, detail: Option<string>)
    requires WellFormed(a) && a.Kind() == status
    ensures var next := NextActivity(a, status, detail);
            && WellFormed(next)
            && (if status.RequiresAction? && DisplayableDetail(detail).Some?
                then next == Awaiting(DisplayableDetail(detail).value)
                else next == a)
  {
    ActivityStaysWellFormed(a, status, detail);
    if status.RequiresAction? {
      if DisplayableDetail(detail).Some? {
        StatedDetailWins(a, detail);
      } else {
        BareReaffirmation(a, detail);
      }
    }
  }

  // ----- the ordered feed -----

  predicate IsStale(sequence: Option<nat>, highestApplied: Option<nat>) {
    sequence.Some? && highestApplied.Some? && sequence.value < highestApplied.value
  }

  function Raise(mark: Option<nat>, sequence: Option<nat>): Option<nat> {
    if sequence.Some? && (mark.None? || sequence.value > mark.value) then sequence else mark
  }

  /** The two legs: the status gate's body, and a frame of the event leg. */
  datatype Input = Put(status: Json, sequence: Option<Json>) | Frame(frame: Json)

  function Read(input: Input): Option<Reading> {
    match input
    case Frame(f) => ReadFrame(f)
    case Put(v, sequence) =>
      match StatusFromWire(Some(v))
      case None => None
      case Some(status) => Some(Reading(status, None, AsSequence(sequence)))
  }

  datatype Delivery = Delivery(input: Input, now: int)

  datatype Feed = Feed(mark: Option<nat>, session: Session)

  predicate Refuses(feed: Feed, input: Input) {
    Read(input).Some? && IsStale(Read(input).value.sequence, feed.mark)
  }

  function Deliver(feed: Feed, d: Delivery): Feed {
    match Read(d.input)
    case None => feed
    case Some(r) =>
      if IsStale(r.sequence, feed.mark) then feed
      else Feed(Raise(feed.mark, r.sequence), ApplyWorkerStatus(feed.session, r.status, r.detail, d.now))
  }

  function Run(feed: Feed, ds: seq<Delivery>): Feed {
    if ds == [] then feed else Deliver(Run(feed, ds[..|ds| - 1]), ds[|ds| - 1])
  }

  /** The server's record of one worker epoch and the session it feeds. */
  class StatusChannel {
    var highestApplied: Option<nat>
    var session: Session

    constructor (session: Session)
      ensures Snapshot() == Feed(None, session)
    {
      this.highestApplied, this.session := None, session;
    }

    ghost function Snapshot(): Feed
      reads this
    {
      Feed(highestApplied, session)
    }

    method RecordSequence(sequence: Option<nat>)
      modifies this`highestApplied
      ensures highestApplied == Raise(old(highestApplied), sequence)
    {
      if sequence.Some? && (highestApplied.None? || sequence.value > highestApplied.value) {
        highestApplied := sequence;
      }
    }

    /** The status gate: an unknown status is a client error, a stale one is answered and ignored. */
    method PutStatus(status: Json, sequence: Option<Json>, now: int) returns (accepted: bool)
      modifies this
      ensures accepted <==> StatusFromWire(Some(status)).Some?
      ensures Snapshot() == Deliver(old(Snapshot()), Delivery(Put(status, sequence), now))
    {
      var known := StatusFromWire(Some(status));
      if known.None? {
        return false;
      }
      var stamp := AsSequence(sequence);
      if !IsStale(stamp, highestApplied) {
        RecordSequence(stamp);
        session := ApplyWorkerStatus(session, known.value, None, now);
      }
      return true;
    }

    /** The event leg: a stale frame moves nothing, a frame of another kind moves nothing. */
    method FoldFrame(frame: Json, now: int) returns (refused: bool)
      modifies this
      ensures refused <==> Refuses(old(Snapshot()), Frame(frame))
      ensures Snapshot() == Deliver(old(Snapshot()), Delivery(Frame(frame), now))
    {
      var reading := ReadFrame(frame);
      var stamp := if reading.Some? then reading.value.sequence else None;
      if IsStale(stamp, highestApplied) {
        return true;
      }
      RecordSequence(stamp);
      session := ApplyWorkerStatusFrame(session, frame, now);
      return false;
    }
  }

  // ----- what the mark is, and what is refused -----

  function StampOf(d: Delivery): Option<nat> {
    if Read(d.input).Some? then Read(d.input).value.sequence else None
  }

  /** `mark` is the highest of the stamps in `ds` and the mark before them. */
  predicate IsHighest(mark: Option<nat>, before: Option<nat>, ds: seq<Delivery>) {
    && (mark == before || exists i :: 0 <= i < |ds| && mark == StampOf(ds[i]))
    && (before.Some? ==> mark.Some? && before.value <= mark.value)
    && (forall i :: 0 <= i < |ds| && StampOf(ds[i]).Some? ==> mark.Some? && StampOf(ds[i]).value <= mark.value)
  }

  lemma RunStep(feed: Feed, ds: seq<Delivery>, k: nat)
    requires k < |ds|
    ensures Run(feed, ds[..k + 1]) == Deliver(Run(feed, ds[..k]), ds[k])
  {
    assert ds[..k + 1][..k] == ds[..k];
  }

  /** The mark is the highest stamp delivered, refused deliveries included: refusing never hides a stamp. */
  lemma {:induction false} MarkIsHighest(feed: Feed, ds: seq<Delivery>)
    ensures IsHighest(Run(feed, ds).mark, feed.mark, ds)
  {
    if ds != [] {
      var front, last := ds[..|ds| - 1], ds[|ds| - 1];
      MarkIsHighest(feed, front);
      HighestNext(Run(feed, front).mark, feed.mark, front, last);
      assert ds == front + [last];
    }
  }

  lemma HighestNext(mark: Option<nat>, before: Option<nat>, front: seq<Delivery>, last: Delivery)
    requires IsHighest(mark, before, front)
    ensures IsHighest(Raise(mark, StampOf(last)), before, front + [last])
  {
    var ds := front + [last];
    assert ds[|front|] == last;
    if mark != before {
      var i :| 0 <= i < |front| && mark == StampOf(front[i]);
      assert ds[i] == front[i];
    }
  }

  lemma {:induction false} MarkNeverFalls(feed: Feed, ds: seq<Delivery>, j: nat, k: nat)
    requires j <= k <= |ds|
    ensures var (a, b) := (Run(feed, ds[..j]).mark, Run(feed, ds[..k]).mark);
            a.Some? ==> b.Some? && a.value <= b.value
    decreases k
  {
    if j < k {
      MarkNeverFalls(feed, ds, j, k - 1);
      RunStep(feed, ds, k - 1);
    }
  }

  /** A delivery is refused exactly when a higher stamp came before it in the epoch. */
  lemma RefusedExactly(feed: Feed, ds: seq<Delivery>, k: nat)
    requires k < |ds|
    ensures Refuses(Run(feed, ds[..k]), ds[k].input)
       <==> StampOf(ds[k]).Some?
            && ((feed.mark.Some? && StampOf(ds[k]).value < feed.mark.value)
                || exists i :: 0 <= i < k && StampOf(ds[i]).Some? && StampOf(ds[k]).value < StampOf(ds[i]).value)
    ensures Refuses(Run(feed, ds[..k]), ds[k].input) ==> Run(feed, ds[..k + 1]) == Run(feed, ds[..k])
  {
    var mark := Run(feed, ds[..k]).mark;
    MarkIsHighest(feed, ds[..k]);
    RunStep(feed, ds, k);
    if mark != feed.mark {
      var i :| 0 <= i < |ds[..k]| && mark == StampOf(ds[..k][i]);
      assert ds[..k][i] == ds[i];
    }
    assert forall i :: 0 <= i < k ==> ds[..k][i] == ds[i];
  }

  /** Delivery `k` reports something and is not refused. */
  predicate AppliesAt(feed: Feed, ds: seq<Delivery>, k: nat)
    requires k < |ds|
  {
    Read(ds[k].input).Some? && !Refuses(Run(feed, ds[..k]), ds[k].input)
  }

  lemma NotAppliedChangesNothing(feed: Feed, ds: seq<Delivery>, k: nat)
    requires k < |ds| && !AppliesAt(feed, ds, k)
    ensures Run(feed, ds[..k + 1]) == Run(feed, ds[..k])
  {
    RunStep(feed, ds, k);
  }

  lemma {:induction false} NothingAppliedBetween(feed: Feed, ds: seq<Delivery>, k: nat, n: nat)
    requires k <= n <= |ds| && forall i :: k <= i < n ==> !AppliesAt(feed, ds, i)
    ensures Run(feed, ds[..n]) == Run(feed, ds[..k])
    decreases n
  {
    if k < n {
      NothingAppliedBetween(feed, ds, k, n - 1);
      NotAppliedChangesNothing(feed, ds, n - 1);
    }
  }

  lemma AppliedMoves(feed: Feed, ds: seq<Delivery>, k: nat)
    requires k < |ds| && AppliesAt(feed, ds, k)
    ensures var s := Run(feed, ds[..k + 1]).session;
            s.activity.Kind() == Read(ds[k].input).value.status && s.lastActivityAt == ds[k].now
  {
    var r := Read(ds[k].input).value;
    RunStep(feed, ds, k);
    KindOfNext(Run(feed, ds[..k]).session.activity, r.status, r.detail);
  }

  /** The last delivery that applied, stamped or not, decides: its status and its time. */
  lemma LastAppliedWins(feed: Feed, ds: seq<Delivery>, k: nat)
    requires k < |ds| && AppliesAt(feed, ds, k) && forall i :: k < i < |ds| ==> !AppliesAt(feed, ds, i)
    ensures var s := Run(feed, ds).session;
            s.activity.Kind() == Read(ds[k].input).value.status && s.lastActivityAt == ds[k].now
  {
    AppliedMoves(feed, ds, k);
    NothingAppliedBetween(feed, ds, k + 1, |ds|);
    WholePrefix(ds);
  }

  /** A worker that stamps a constant, or nothing, is never refused. */
  lemma ConstantStampNeverRefused(feed: Feed, ds: seq<Delivery>, stamp: nat, k: nat)
    requires k < |ds|
    requires feed.mark == None || feed.mark == Some(stamp)
    requires forall i :: 0 <= i < |ds| ==> StampOf(ds[i]) == None || StampOf(ds[i]) == Some(stamp)
    ensures !Refuses(Run(feed, ds[..k]), ds[k].input)
  {
    RefusedExactly(feed, ds, k);
  }

  /** No clock: the readings alone decide what is refused and where the session ends. */
  lemma {:induction false} ClockDecidesNothing(a: Feed, b: Feed, ds: seq<Delivery>, es: seq<Delivery>)
    requires |ds| == |es| && forall i :: 0 <= i < |ds| ==> ds[i].input == es[i].input
    requires a.mark == b.mark && a.session.activity == b.session.activity && a.session.status == b.session.status
    ensures var (x, y) := (Run(a, ds), Run(b, es));
            && x.mark == y.mark
            && x.session.activity == y.session.activity
            && x.session.status == y.session.status
            && (forall input :: Refuses(x, input) <==> Refuses(y, input))
  {
    if ds != [] {
      var n := |ds| - 1;
      ClockDecidesNothing(a, b, ds[..n], es[..n]);
      assert ds[n].input == es[n].input;
    }
  }

  // ----- two legs of one report converge -----

  /** What a worker has to say once: a status, and the detail that only its rich leg carries. */
  datatype Report = Report(status: WorkerStatus, detail: Option<string>)

  /** One delivered leg: which report, and whether it is the leg that can carry the detail. */
  datatype Leg = Leg(report: nat, rich: bool)

  /** The emitter contract: one stamp a report, rising from report to report. */
  predicate Stamped(reports: seq<Report>, stamps: seq<nat>) {
    |stamps| == |reports| && forall i, j :: 0 <= i < j < |stamps| ==> stamps[i] < stamps[j]
  }

  predicate Carries(d: Delivery, leg: Leg, reports: seq<Report>, stamps: seq<nat>)
    requires |stamps| == |reports|
  {
    && leg.report < |reports|
    && var r := reports[leg.report];
       Read(d.input) == Some(Reading(r.status, if leg.rich then r.detail else None, Some(stamps[leg.report])))
  }

  /** `ds` delivers `legs`: any order, any number of times each, any of them missing. */
  predicate Delivers(ds: seq<Delivery>, legs: seq<Leg>, reports: seq<Report>, stamps: seq<nat>)
    requires |stamps| == |reports|
  {
    |ds| == |legs| && forall i :: 0 <= i < |ds| ==> Carries(ds[i], legs[i], reports, stamps)
  }

  predicate IsLatest(h: nat, legs: seq<Leg>) {
    (exists i :: 0 <= i < |legs| && legs[i].report == h) && forall i :: 0 <= i < |legs| ==> legs[i].report <= h
  }

  /** The feed agrees with the latest report delivered so far. */
  predicate Settled(feed: Feed, h: nat, legs: seq<Leg>, reports: seq<Report>, stamps: seq<nat>)
    requires |stamps| == |reports| && h < |reports|
  {
    var (r, detail) := (reports[h], DisplayableDetail(reports[h].detail));
    && feed.mark == Some(stamps[h])
    && feed.session.activity.Kind() == r.status
    && WellFormed(feed.session.activity)
    && (r.status.RequiresAction? && detail.Some? && Leg(h, true) in legs ==>
          feed.session.activity == Awaiting(detail.value))
  }

  /** A leg of a later report takes over. */
  lemma HigherReport(feed: Feed, h: nat, d: Delivery, leg: Leg, reports: seq<Report>, stamps: seq<nat>)
    requires Stamped(reports, stamps) && Carries(d, leg, reports, stamps)
    requires h < leg.report && feed.mark == Some(stamps[h])
    ensures Settled(Deliver(feed, d), leg.report, [leg], reports, stamps)
  {
    FirstLeg(feed, d, leg, reports, stamps);
  }

  /** The other leg of the latest report, or one more copy: the detail is gained and never lost. */
  lemma SameReport(feed: Feed, legs: seq<Leg>, d: Delivery, leg: Leg, reports: seq<Report>, stamps: seq<nat>)
    requires Stamped(reports, stamps) && Carries(d, leg, reports, stamps)
    requires Settled(feed, leg.report, legs, reports, stamps)
    ensures Settled(Deliver(feed, d), leg.report, legs + [leg], reports, stamps)
  {
    var r := Read(d.input).value;
    GainOrKeep(feed.session.activity, r.status, r.detail);
  }

  /** One more leg: a higher report takes over, the same one can only add its detail, a lower one is refused. */
  lemma SettledNext(feed: Feed, h: nat, legs: seq<Leg>, d: Delivery, leg: Leg, reports: seq<Report>, stamps: seq<nat>)
    requires Stamped(reports, stamps) && h < |reports| && IsLatest(h, legs)
    requires Settled(feed, h, legs, reports, stamps) && Carries(d, leg, reports, stamps)
    ensures var next := if leg.report > h then leg.report else h;
            IsLatest(next, legs + [leg]) && Settled(Deliver(feed, d), next, legs + [leg], reports, stamps)
  {
    LatestNext(h, legs, leg);
    if leg.report > h {
      HigherReport(feed, h, d, leg, reports, stamps);
      assert Leg(leg.report, true) !in legs;
    } else if leg.report == h {
      SameReport(feed, legs, d, leg, reports, stamps);
    } else {
      assert stamps[leg.report] < stamps[h];
      assert Deliver(feed, d) == feed;
    }
  }

  lemma LatestNext(h: nat, legs: seq<Leg>, leg: Leg)
    requires IsLatest(h, legs)
    ensures IsLatest(if leg.report > h then leg.report else h, legs + [leg])
  {
    var more := legs + [leg];
    assert more[|legs|] == leg;
    var i :| 0 <= i < |legs| && legs[i].report == h;
    assert more[i] == legs[i];
  }

  lemma FirstLeg(feed: Feed, d: Delivery, leg: Leg, reports: seq<Report>, stamps: seq<nat>)
    requires Stamped(reports, stamps) && Carries(d, leg, reports, stamps)
    requires feed.mark.Some? ==> feed.mark.value < stamps[leg.report]
    ensures Settled(Deliver(feed, d), leg.report, [leg], reports, stamps)
  {
    var r := Read(d.input).value;
    ActivityStaysWellFormed(feed.session.activity, r.status, r.detail);
    if r.status.RequiresAction? && DisplayableDetail(r.detail).Some? {
      StatedDetailWins(feed.session.activity, r.detail);
    }
  }

  /**
   * Whatever the order, duplication or loss of legs within an epoch, the session ends at the latest report that
   * got through, and with that report's detail if its rich leg got through at all.
   */
  lemma {:induction false} TwoLegsConverge(
    feed: Feed, ds: seq<Delivery>, legs: seq<Leg>, reports: seq<Report>, stamps: seq<nat>) returns (h: nat)
    requires Stamped(reports, stamps) && feed.mark == None
    requires ds != [] && Delivers(ds, legs, reports, stamps)
    ensures h < |reports| && IsLatest(h, legs)
    ensures Settled(Run(feed, ds), h, legs, reports, stamps)
  {
    var n := |ds| - 1;
    if n == 0 {
      h := legs[0].report;
      assert ds[..0] == [];
      FrontLast(legs);
      NoLeft([legs[0]]);
      FirstLeg(feed, ds[0], legs[0], reports, stamps);
    } else {
      var g := TwoLegsConverge(feed, ds[..n], legs[..n], reports, stamps);
      SettledNext(Run(feed, ds[..n]), g, legs[..n], ds[n], legs[n], reports, stamps);
      h := if legs[n].report > g then legs[n].report else g;
      FrontLast(legs);
    }
  }

  /**
   * Two deliveries with the same latest report end the same way, whatever the sessions were before: always when it
   * is `running` or `idle`, and when it is `requires_action` with a usable detail whose rich leg got through.
   */
  lemma OrderDoesNotMatter(
    a: Feed, ds: seq<Delivery>, legs: seq<Leg>, b: Feed, es: seq<Delivery>, more: seq<Leg>,
    h: nat, reports: seq<Report>, stamps: seq<nat>)
    requires Stamped(reports, stamps) && a.mark == None && b.mark == None
    requires Delivers(ds, legs, reports, stamps) && Delivers(es, more, reports, stamps)
    requires IsLatest(h, legs) && IsLatest(h, more)
    requires h < |reports|
    requires reports[h].status.RequiresAction? ==>
               DisplayableDetail(reports[h].detail).Some? && Leg(h, true) in legs && Leg(h, true) in more
    ensures Run(a, ds).session.activity == Run(b, es).session.activity
    ensures Run(a, ds).mark == Run(b, es).mark
  {
    var x := TwoLegsConverge(a, ds, legs, reports, stamps);
    var y := TwoLegsConverge(b, es, more, reports, stamps);
    assert x == h && y == h;
  }

  // ----- three independent dimensions -----

  datatype Event =
    | StatusEvent(status: WorkerStatus, detail: Option<string>, at: int)
    | FrameEvent(frame: Json, at: int)
    | HeartbeatEvent(at: int)
    | ReadyEvent
    | ClosedEvent

  function Apply(s: Session, e: Event): Session {
    match e
    case StatusEvent(status, detail, at) => ApplyWorkerStatus(s, status, detail, at)
    case FrameEvent(frame, at) => ApplyWorkerStatusFrame(s, frame, at)
    case HeartbeatEvent(at) => RecordHeartbeat(s, at)
    case ReadyEvent => MarkReady(s)
    case ClosedEvent => MarkClosed(s)
  }

  function ApplyAll(s: Session, es: seq<Event>): Session {
    if es == [] then s else Apply(ApplyAll(s, es[..|es| - 1]), es[|es| - 1])
  }

  /** A status report as the activity dimension sees it: status, detail, time. */
  datatype StatusReport = StatusReport(status: WorkerStatus, detail: Option<string>, at: int)

  /** What one event reports on the activity dimension: a frame of any other kind reports nothing. */
  function ReportOf(e: Event): Option<StatusReport> {
    match e
    case StatusEvent(status, detail, at) => Some(StatusReport(status, detail, at))
    case FrameEvent(frame, at) =>
      (match ReadFrame(frame)
       case Some(r) => Some(StatusReport(r.status, r.detail, at))
       case None => None)
    case _ => None
  }

  function StatusReports(es: seq<Event>): seq<StatusReport> {
    if es == [] then [] else StatusReports(es[..|es| - 1]) + Listed(ReportOf(es[|es| - 1]))
  }

  function BeatOf(e: Event): Option<int> {
    if e.HeartbeatEvent? then Some(e.at) else None
  }

  function Beats(es: seq<Event>): seq<int> {
    if es == [] then [] else Beats(es[..|es| - 1]) + Listed(BeatOf(es[|es| - 1]))
  }

  /** The lifecycle projection: `true` for ready, `false` for closed. */
  function MoveOf(e: Event): Option<bool> {
    if e.ReadyEvent? then Some(true) else if e.ClosedEvent? then Some(false) else None
  }

  function Moves(es: seq<Event>): seq<bool> {
    if es == [] then [] else Moves(es[..|es| - 1]) + Listed(MoveOf(es[|es| - 1]))
  }

  function FoldActivity(a: Activity, reports: seq<StatusReport>): Activity {
    if reports == [] then a
    else
      var last := reports[|reports| - 1];
      NextActivity(FoldActivity(a, reports[..|reports| - 1]), last.status, last.detail)
  }

  function LastReportAt(at: int, reports: seq<StatusReport>): int {
    if reports == [] then at else reports[|reports| - 1].at
  }

  function LastBeat(at: int, beats: seq<int>): int {
    if beats == [] then at else beats[|beats| - 1]
  }

  function MoveLifecycle(l: Lifecycle, ready: bool): Lifecycle {
    if ready then (if l.Connecting? then Ready else l) else if l.Errored? then l else Closed
  }

  function FoldLifecycle(l: Lifecycle, moves: seq<bool>): Lifecycle {
    if moves == [] then l else MoveLifecycle(FoldLifecycle(l, moves[..|moves| - 1]), moves[|moves| - 1])
  }

  lemma PopAdded<T>(s: seq<T>, x: T)
    ensures (s + [x])[..|s + [x]| - 1] == s && (s + [x])[|s + [x]| - 1] == x
  {
  }

  lemma ActivityStep(s: Session, e: Event)
    ensures var t := Apply(s, e);
            match ReportOf(e)
            case None => t.activity == s.activity && t.lastActivityAt == s.lastActivityAt
            case Some(r) => t.activity == NextActivity(s.activity, r.status, r.detail) && t.lastActivityAt == r.at
  {
  }

  lemma OtherSteps(s: Session, e: Event)
    ensures var t := Apply(s, e);
            && t.lastHeartbeatAt == BeatOf(e).GetOr(s.lastHeartbeatAt)
            && t.status == (if MoveOf(e).Some? then MoveLifecycle(s.status, MoveOf(e).value) else s.status)
            && t.id == s.id && t.createdAt == s.createdAt && t.autoResolvesPermissions == s.autoResolvesPermissions
  {
  }

  lemma FoldOneMore(a: Activity, at: int, reports: seq<StatusReport>, r: StatusReport)
    ensures FoldActivity(a, reports + [r]) == NextActivity(FoldActivity(a, reports), r.status, r.detail)
    ensures LastReportAt(at, reports + [r]) == r.at
  {
    PopAdded(reports, r);
  }

  lemma {:induction false} ActivityDimension(s: Session, es: seq<Event>)
    ensures ApplyAll(s, es).activity == FoldActivity(s.activity, StatusReports(es))
    ensures ApplyAll(s, es).lastActivityAt == LastReportAt(s.lastActivityAt, StatusReports(es))
  {
    if es != [] {
      var front, e := es[..|es| - 1], es[|es| - 1];
      ActivityDimension(s, front);
      ActivityStep(ApplyAll(s, front), e);
      match ReportOf(e) {
        case None => NoRight(StatusReports(front));
        case Some(r) => FoldOneMore(s.activity, s.lastActivityAt, StatusReports(front), r);
      }
    }
  }

  lemma {:induction false} HeartbeatDimension(s: Session, es: seq<Event>)
    ensures ApplyAll(s, es).lastHeartbeatAt == LastBeat(s.lastHeartbeatAt, Beats(es))
  {
    if es != [] {
      var front, e := es[..|es| - 1], es[|es| - 1];
      HeartbeatDimension(s, front);
      OtherSteps(ApplyAll(s, front), e);
      match BeatOf(e) {
        case None => NoRight(Beats(front));
        case Some(at) => PopAdded(Beats(front), at);
      }
    }
  }

  lemma {:induction false} LifecycleDimension(s: Session, es: seq<Event>)
    ensures ApplyAll(s, es).status == FoldLifecycle(s.status, Moves(es))
  {
    if es != [] {
      var front, e := es[..|es| - 1], es[|es| - 1];
      LifecycleDimension(s, front);
      OtherSteps(ApplyAll(s, front), e);
      match MoveOf(e) {
        case None => NoRight(Moves(front));
        case Some(ready) => PopAdded(Moves(front), ready);
      }
    }
  }

  lemma {:induction false} FixedFields(s: Session, es: seq<Event>)
    ensures var t := ApplyAll(s, es);
            t.id == s.id && t.createdAt == s.createdAt && t.autoResolvesPermissions == s.autoResolvesPermissions
  {
    if es != [] {
      FixedFields(s, es[..|es| - 1]);
      OtherSteps(ApplyAll(s, es[..|es| - 1]), es[|es| - 1]);
    }
  }

  /** A run is the product of three folds, each over its own projection; nothing else of the session ever moves. */
  lemma DimensionsAreIndependent(s: Session, es: seq<Event>)
    ensures ApplyAll(s, es)
         == Session(s.id, FoldLifecycle(s.status, Moves(es)), FoldActivity(s.activity, StatusReports(es)),
                    s.autoResolvesPermissions, s.createdAt, LastReportAt(s.lastActivityAt, StatusReports(es)),
                    LastBeat(s.lastHeartbeatAt, Beats(es)))
  {
    ActivityDimension(s, es);
    HeartbeatDimension(s, es);
    LifecycleDimension(s, es);
    FixedFields(s, es);
  }

  /** Interleavings that agree dimension by dimension end in the same session. */
  lemma InterleavingsAgree(s: Session, es: seq<Event>, fs: seq<Event>)
    requires StatusReports(es) == StatusReports(fs) && Beats(es) == Beats(fs) && Moves(es) == Moves(fs)
    ensures ApplyAll(s, es) == ApplyAll(s, fs)
  {
    DimensionsAreIndependent(s, es);
    DimensionsAreIndependent(s, fs);
  }

  lemma KindOfNext(a: Activity, status: WorkerStatus, detail: Option<string>)
    ensures NextActivity(a, status, detail).Kind() == status
  {
  }

  lemma FoldedActivityKind(a: Activity, reports: seq<StatusReport>)
    ensures FoldActivity(a, reports).Kind()
         == if reports == [] then a.Kind() else reports[|reports| - 1].status
  {
    if reports != [] {
      var last := reports[|reports| - 1];
      KindOfNext(FoldActivity(a, reports[..|reports| - 1]), last.status, last.detail);
    }
  }

  /** The needs-you signal holds exactly when the last worker status applied was `requires_action`. */
  lemma AwaitedIffLastStatus(s: Session, es: seq<Event>)
    ensures IsInputAwaited(ApplyAll(s, es).activity)
       <==> if StatusReports(es) == [] then IsInputAwaited(s.activity)
            else StatusReports(es)[|StatusReports(es)| - 1].status == RequiresAction
  {
    ActivityDimension(s, es);
    FoldedActivityKind(s.activity, StatusReports(es));
  }

  /** However often `requires_action` is re-affirmed without a usable detail, a captured detail stays as it is. */
  lemma {:induction false} ReaffirmedAnyNumberOfTimes(a: Activity, reports: seq<StatusReport>)
    requires a.Awaiting? && WellFormed(a)
    requires forall r :: r in reports ==> r.status == RequiresAction && DisplayableDetail(r.detail) == None
    ensures FoldActivity(a, reports) == a
  {
    if reports != [] {
      var last := reports[|reports| - 1];
      assert last in reports;
      ReaffirmedAnyNumberOfTimes(a, reports[..|reports| - 1]);
      BareReaffirmation(a, last.detail);
    }
  }

  predicate OnlyReady(moves: seq<bool>) {
    forall i :: 0 <= i < |moves| ==> moves[i]
  }

  lemma {:induction false} FoldedLifecycle(l: Lifecycle, moves: seq<bool>)
    ensures l.Closed? || l.Errored? ==> FoldLifecycle(l, moves) == l
    ensures FoldLifecycle(l, moves).Ready? <==> (l.Ready? || (l.Connecting? && moves != [])) && OnlyReady(moves)
    ensures FoldLifecycle(l, moves).Connecting? <==> l.Connecting? && moves == []
    ensures FoldLifecycle(l, moves).Errored? <==> l.Errored?
    ensures FoldLifecycle(l, moves).Closed? <==> l.Closed? || (!l.Errored? && !OnlyReady(moves))
  {
    if moves != [] {
      var front, last := moves[..|moves| - 1], moves[|moves| - 1];
      FoldedLifecycle(l, front);
      FrontLast(moves);
      assert OnlyReady(moves) <==> OnlyReady(front) && last;
    }
  }

  /**
   * A session from its birth on: the marker says for good whether its mode answers permission requests unasked, it
   * is ready exactly when something made it ready and nothing closed it, and it awaits input exactly when the last
   * status said so.
   */
  lemma FromBirth(id: string, mode: PermissionMode, now: int, es: seq<Event>)
    ensures var s := ApplyAll(CreateSession(id, mode, now), es);
            && s.id == id && s.createdAt == now
            && (s.autoResolvesPermissions <==> mode != Default && mode != Plan)
            && (s.status == Connecting <==> Moves(es) == [])
            && (s.status == Ready <==> Moves(es) != [] && OnlyReady(Moves(es)))
            && (s.status == Closed <==> !OnlyReady(Moves(es)))
            && (IsInputAwaited(s.activity)
                <==> StatusReports(es) != [] && StatusReports(es)[|StatusReports(es)| - 1].status == RequiresAction)
            && WellFormed(s.activity)
  {
    var born := CreateSession(id, mode, now);
    FixedFields(born, es);
    LifecycleDimension(born, es);
    FoldedLifecycle(born.status, Moves(es));
    AwaitedIffLastStatus(born, es);
    StaysWellFormed(born, es);
  }

  lemma {:induction false} StaysWellFormed(s: Session, es: seq<Event>)
    requires WellFormed(s.activity)
    ensures WellFormed(ApplyAll(s, es).activity)
  {
    if es != [] {
      var front, e := es[..|es| - 1], es[|es| - 1];
      StaysWellFormed(s, front);
      ActivityStep(ApplyAll(s, front), e);
      if ReportOf(e).Some? {
        ActivityStaysWellFormed(ApplyAll(s, front).activity, ReportOf(e).value.status, ReportOf(e).value.detail);
      }
    }
  }

  /** Terminal states absorb; a session is ready exactly when it was or could become so and nothing closed it. */
  lemma LifecycleIsGuarded(s: Session, es: seq<Event>)
    ensures s.status.Closed? || s.status.Errored? ==> ApplyAll(s, es).status == s.status
    ensures ApplyAll(s, es).status.Ready?
       <==> (s.status.Ready? || (s.status.Connecting? && Moves(es) != [])) && OnlyReady(Moves(es))
  {
    LifecycleDimension(s, es);
    FoldedLifecycle(s.status, Moves(es));
  }
}
