/**
 * The decision outstanding for a session over a whole run: buffered when a question set arrives, dropped when the
 * session moves on, consumed by the first accepted answer that reaches the worker.
 */
module Decisions {
  import opened Wrappers
  import opened Json
  import opened Enrichment
  import opened Answers
  import opened Seqs
  import SessionModel

  datatype Event = Raised(payload: Json) | MovedOn | Answered(payload: Json, workerLive: bool)

  /** An answer that went down to the worker, and the stamp of the decision it answers. */
  datatype Relay = Relay(stamp: nat, envelope: Envelope)

  datatype Desk = Desk(outstanding: Option<Decision>, relayed: seq<Relay>)

  /** What an answer would relay, if it is well formed and accepted against the decision outstanding now. */
  function Relayable(desk: Desk, payload: Json): Option<Relay> {
    match (EnvelopeOf(payload), desk.outstanding)
    case (Some(envelope), Some(d)) =>
      if VerdictOn(d, envelope, SessionModel.AsSequence(Get(payload, "sequence_num"))) == Accepted
      then Some(Relay(d.sequenceNum, envelope))
      else None
    case _ => None
  }

  function Handle(desk: Desk, e: Event): Desk {
    match e
    case Raised(payload) =>
      var d := DecisionOf(payload);
      if d.Some? then desk.(outstanding := d) else desk
    case MovedOn => desk.(outstanding := None)
    case Answered(payload, workerLive) =>
      var relay := Relayable(desk, payload);
      if relay.Some? && workerLive then Desk(None, desk.relayed + [relay.value]) else desk
  }

  function HandleAll(desk: Desk, es: seq<Event>): Desk {
    if es == [] then desk else Handle(HandleAll(desk, es[..|es| - 1]), es[|es| - 1])
  }

  const EMPTY_DESK := Desk(None, [])

  /** The server's buffer for one session. */
  class DecisionBuffer {
    var outstanding: Option<Decision>
    var relayed: seq<Relay>

    constructor ()
      ensures Snapshot() == EMPTY_DESK
    {
      outstanding, relayed := None, [];
    }

    ghost function Snapshot(): Desk
      reads this
    {
      Desk(outstanding, relayed)
    }

    method Raise(payload: Json)
      modifies this
      ensures Snapshot() == Handle(old(Snapshot()), Raised(payload))
    {
      var parsed := ParseDecision(payload);
      if parsed.Some? {
        outstanding := parsed;
      }
    }

    method MoveOn()
      modifies this
      ensures Snapshot() == Handle(old(Snapshot()), MovedOn)
    {
      outstanding := None;
    }

    /** Shape, then state, then the relay; the decision is consumed only by an answer that landed. */
    method SubmitAnswer(payload: Json, workerLive: bool) returns (accepted: bool)
      modifies this
      ensures Snapshot() == Handle(old(Snapshot()), Answered(payload, workerLive))
      ensures accepted <==> workerLive && Relayable(old(Snapshot()), payload).Some?
    {
      var envelope := ParseEnvelope(payload);
      if envelope.None? || outstanding.None? {
        return false;
      }
      var d := outstanding.value;
      var verdict := ValidateAnswer(d, envelope.value, SessionModel.AsSequence(Get(payload, "sequence_num")));
      if verdict != Accepted || !workerLive {
        return false;
      }
      relayed := relayed + [Relay(d.sequenceNum, envelope.value)];
      outstanding := None;
      return true;
    }
  }

  // ----- what holds over every run -----

  function RaisedDecision(e: Event): Option<Decision> {
    if e.Raised? then DecisionOf(e.payload) else None
  }

  /** Decision `d` was raised somewhere in the run. */
  ghost predicate WasRaised(d: Decision, es: seq<Event>) {
    exists i :: 0 <= i < |es| && RaisedDecision(es[i]) == Some(d)
  }

  /** No stamp is used for two decisions. */
  predicate FreshStamps(es: seq<Event>) {
    forall i, j :: 0 <= i < j < |es| && RaisedDecision(es[i]).Some? && RaisedDecision(es[j]).Some? ==>
      RaisedDecision(es[i]).value.sequenceNum != RaisedDecision(es[j]).value.sequenceNum
  }

  /** The relay answers a decision raised in the run, legitimately. */
  ghost predicate Resolves(r: Relay, es: seq<Event>) {
    exists d :: WasRaised(d, es) && d.sequenceNum == r.stamp && VerdictOn(d, r.envelope, Some(r.stamp)) == Accepted
  }

  ghost predicate Sound(desk: Desk, es: seq<Event>) {
    && (desk.outstanding.Some? ==> WasRaised(desk.outstanding.value, es))
    && (forall k :: 0 <= k < |desk.relayed| ==> Resolves(desk.relayed[k], es))
  }

  predicate Unspent(desk: Desk) {
    && (forall i, j :: 0 <= i < j < |desk.relayed| ==> desk.relayed[i].stamp != desk.relayed[j].stamp)
    && (desk.outstanding.Some? ==>
          forall k :: 0 <= k < |desk.relayed| ==> desk.relayed[k].stamp != desk.outstanding.value.sequenceNum)
  }

  lemma StillRaised(d: Decision, es: seq<Event>, e: Event)
    requires WasRaised(d, es)
    ensures WasRaised(d, es + [e])
  {
    var i :| 0 <= i < |es| && RaisedDecision(es[i]) == Some(d);
    assert (es + [e])[i] == es[i];
  }

  lemma JustRaised(d: Decision, es: seq<Event>, e: Event)
    requires RaisedDecision(e) == Some(d)
    ensures WasRaised(d, es + [e])
  {
    assert (es + [e])[|es|] == e;
  }

  lemma StillResolves(r: Relay, es: seq<Event>, e: Event)
    requires Resolves(r, es)
    ensures Resolves(r, es + [e])
  {
    var d :| WasRaised(d, es) && d.sequenceNum == r.stamp && VerdictOn(d, r.envelope, Some(r.stamp)) == Accepted;
    StillRaised(d, es, e);
  }

  lemma RelayableIsAccepted(desk: Desk, payload: Json)
    requires Relayable(desk, payload).Some?
    ensures desk.outstanding.Some?
    ensures var (d, r) := (desk.outstanding.value, Relayable(desk, payload).value);
            && r.stamp == d.sequenceNum
            && VerdictOn(d, r.envelope, Some(r.stamp)) == Accepted
  {
    AcceptedExactly(desk.outstanding.value, EnvelopeOf(payload).value,
                    SessionModel.AsSequence(Get(payload, "sequence_num")));
  }

  lemma SoundStep(desk: Desk, es: seq<Event>, e: Event)
    requires Sound(desk, es)
    ensures Sound(Handle(desk, e), es + [e])
  {
    var next := Handle(desk, e);
    forall k | 0 <= k < |desk.relayed|
      ensures Resolves(desk.relayed[k], es + [e])
    {
      StillResolves(desk.relayed[k], es, e);
    }
    if desk.outstanding.Some? {
      StillRaised(desk.outstanding.value, es, e);
    }
    match e
    case Raised(payload) =>
      if DecisionOf(payload).Some? {
        JustRaised(DecisionOf(payload).value, es, e);
      }
    case MovedOn =>
    case Answered(payload, workerLive) =>
      if Relayable(desk, payload).Some? {
        RelayableIsAccepted(desk, payload);
      }
  }

  lemma {:induction false} EveryRunIsSound(es: seq<Event>)
    ensures Sound(HandleAll(EMPTY_DESK, es), es)
  {
    if es != [] {
      var front := es[..|es| - 1];
      EveryRunIsSound(front);
      SoundStep(HandleAll(EMPTY_DESK, front), front, es[|es| - 1]);
      assert es == front + [es[|es| - 1]];
    }
  }

  lemma FreshIsUnspent(desk: Desk, es: seq<Event>, payload: Json)
    requires Sound(desk, es) && Unspent(desk) && FreshStamps(es + [Raised(payload)]) && DecisionOf(payload).Some?
    ensures Unspent(desk.(outstanding := DecisionOf(payload)))
  {
    var all := es + [Raised(payload)];
    assert RaisedDecision(all[|es|]) == DecisionOf(payload);
    forall k | 0 <= k < |desk.relayed|
      ensures desk.relayed[k].stamp != DecisionOf(payload).value.sequenceNum
    {
      var r := desk.relayed[k];
      var d :| WasRaised(d, es) && d.sequenceNum == r.stamp && VerdictOn(d, r.envelope, Some(r.stamp)) == Accepted;
      var i :| 0 <= i < |es| && RaisedDecision(es[i]) == Some(d);
      assert all[i] == es[i];
    }
  }

  lemma UnspentStep(desk: Desk, es: seq<Event>, e: Event)
    requires Sound(desk, es) && Unspent(desk) && FreshStamps(es + [e])
    ensures Unspent(Handle(desk, e))
  {
    match e
    case Raised(payload) =>
      if DecisionOf(payload).Some? {
        FreshIsUnspent(desk, es, payload);
      }
    case MovedOn =>
    case Answered(payload, workerLive) =>
      if Relayable(desk, payload).Some? {
        RelayableIsAccepted(desk, payload);
      }
  }

  lemma FreshPrefix(es: seq<Event>, e: Event)
    requires FreshStamps(es + [e])
    ensures FreshStamps(es)
  {
    assert forall i :: 0 <= i < |es| ==> (es + [e])[i] == es[i];
  }

  /** With stamps never reused, every decision is answered at most once. */
  lemma {:induction false} AnsweredAtMostOnce(es: seq<Event>)
    requires FreshStamps(es)
    ensures Unspent(HandleAll(EMPTY_DESK, es))
  {
    if es != [] {
      var front, e := es[..|es| - 1], es[|es| - 1];
      FrontLast(es);
      FreshPrefix(front, e);
      AnsweredAtMostOnce(front);
      EveryRunIsSound(front);
      UnspentStep(HandleAll(EMPTY_DESK, front), front, e);
      HandleNext(EMPTY_DESK, front, e);
    }
  }

  /**
   * Whatever is relayed is a legitimate set of picks of the decision outstanding at that moment; an answer stamped
   * for any other decision changes nothing, whatever its labels.
   */
  lemma RelayedIsOfTheMoment(desk: Desk, raised: Json, payload: Json, workerLive: bool) returns (ps: seq<Pick>)
    requires desk.outstanding == DecisionOf(raised)
    requires Safe(payload)
    ensures Handle(desk, Answered(payload, workerLive)) != desk ==>
              && desk.outstanding.Some? && workerLive
              && LegitimatePicks(desk.outstanding.value, ps)
              && Handle(desk, Answered(payload, workerLive))
              == Desk(None, desk.relayed + [Relay(desk.outstanding.value.sequenceNum, EnvelopeFor(ps))])
    ensures desk.outstanding.Some?
            && SessionModel.AsSequence(Get(payload, "sequence_num")) != Some(desk.outstanding.value.sequenceNum) ==>
              Handle(desk, Answered(payload, workerLive)) == desk
  {
    var submitted := SessionModel.AsSequence(Get(payload, "sequence_num"));
    ps := [];
    if desk.outstanding.Some? && EnvelopeOf(payload).Some? {
      AcceptedExactly(desk.outstanding.value, EnvelopeOf(payload).value, submitted);
      if Relayable(desk, payload).Some? && workerLive {
        SafeMember(payload, "answers");
        ps := AcceptedArePicks(raised, payload, submitted);
      }
    }
  }

  // ----- which decision is outstanding, exactly -----

  /** Event `k` of the run put one more answer down to the worker. */
  predicate RelaysAt(es: seq<Event>, k: nat)
    requires k < |es|
  {
    |HandleAll(EMPTY_DESK, es[..k + 1]).relayed| > |HandleAll(EMPTY_DESK, es[..k]).relayed|
  }

  /** Event `k` replaces or ends what was outstanding: another decision, the session moving on, or its answer. */
  predicate Ends(es: seq<Event>, k: nat)
    requires k < |es|
  {
    RaisedDecision(es[k]).Some? || es[k].MovedOn? || RelaysAt(es, k)
  }

  /** `d` was raised at event `i`, and nothing since has replaced or ended it. */
  predicate StandsFrom(d: Decision, es: seq<Event>, i: nat)
    requires i < |es|
  {
    RaisedDecision(es[i]) == Some(d) && forall j :: i < j < |es| ==> !Ends(es, j)
  }

  ghost predicate Stands(d: Decision, es: seq<Event>) {
    exists i :: 0 <= i < |es| && StandsFrom(d, es, i)
  }

  lemma PrefixEnds(es: seq<Event>, k: nat)
    requires k + 1 < |es|
    ensures Ends(es[..|es| - 1], k) <==> Ends(es, k)
  {
    var front := es[..|es| - 1];
    assert front[..k] == es[..k] && front[..k + 1] == es[..k + 1];
  }

  lemma StoodBefore(d: Decision, es: seq<Event>, i: nat)
    requires i + 1 < |es| && StandsFrom(d, es, i)
    ensures StandsFrom(d, es[..|es| - 1], i) && !Ends(es, |es| - 1)
  {
    var front := es[..|es| - 1];
    forall j | i < j < |front|
      ensures !Ends(front, j)
    {
      PrefixEnds(es, j);
    }
  }

  lemma StillStands(d: Decision, es: seq<Event>, i: nat)
    requires i + 1 < |es| && StandsFrom(d, es[..|es| - 1], i) && !Ends(es, |es| - 1)
    ensures StandsFrom(d, es, i)
  {
    forall j | i < j < |es|
      ensures !Ends(es, j)
    {
      if j < |es| - 1 {
        PrefixEnds(es, j);
      }
    }
  }

  lemma StandsNext(d: Decision, es: seq<Event>)
    requires es != []
    ensures Stands(d, es)
       <==> var n := |es| - 1;
            RaisedDecision(es[n]) == Some(d) || (!Ends(es, n) && Stands(d, es[..n]))
  {
    var n := |es| - 1;
    if i :| 0 <= i < n && StandsFrom(d, es, i) {
      StoodBefore(d, es, i);
    }
    if RaisedDecision(es[n]) == Some(d) {
      assert StandsFrom(d, es, n);
    }
    if i :| 0 <= i < n && StandsFrom(d, es[..n], i) {
      if !Ends(es, n) {
        StillStands(d, es, i);
      }
    }
  }

  /** What one event does to the decision outstanding. */
  lemma OutstandingNext(desk: Desk, e: Event)
    ensures var next := Handle(desk, e);
            var relays := |next.relayed| > |desk.relayed|;
            && (RaisedDecision(e).Some? ==> next.outstanding == RaisedDecision(e) && !relays)
            && (e.MovedOn? || relays ==> next.outstanding == None)
            && (RaisedDecision(e).None? && !e.MovedOn? && !relays ==> next == desk)
  {
  }

  /**
   * The decision outstanding after any run is the last one raised, unless the session moved on or an answer went
   * down since; and there is none otherwise.
   */
  lemma {:induction false} OutstandingExactly(es: seq<Event>, d: Decision)
    ensures HandleAll(EMPTY_DESK, es).outstanding == Some(d) <==> Stands(d, es)
  {
    if es != [] {
      var n := |es| - 1;
      var front := es[..n];
      OutstandingExactly(front, d);
      OutstandingNext(HandleAll(EMPTY_DESK, front), es[n]);
      StandsNext(d, es);
      WholePrefix(es);
    }
  }

  lemma StandsUnmoved(d: Decision, es: seq<Event>, k: nat) returns (i: nat)
    requires k <= |es| && Stands(d, es[..k])
    ensures i < k && StandsFrom(d, es[..k], i) && forall j :: i < j < k ==> !es[j].MovedOn?
  {
    i :| 0 <= i < k && StandsFrom(d, es[..k], i);
    assert forall j :: i < j < k ==> !Ends(es[..k], j) && es[..k][j] == es[j];
  }

  /** An answer goes down only while the decision it answers stands: raised, and not moved on from since. */
  lemma RelayedWhileStanding(es: seq<Event>, k: nat) returns (i: nat, d: Decision, r: Relay)
    requires k < |es| && RelaysAt(es, k)
    ensures i < k && StandsFrom(d, es[..k], i) && forall j :: i < j < k ==> !es[j].MovedOn?
    ensures es[k].Answered? && es[k].workerLive && EnvelopeOf(es[k].payload) == Some(r.envelope)
    ensures r.stamp == d.sequenceNum && VerdictOn(d, r.envelope, Some(r.stamp)) == Accepted
    ensures HandleAll(EMPTY_DESK, es[..k + 1]).relayed == HandleAll(EMPTY_DESK, es[..k]).relayed + [r]
  {
    PrefixNext(es, k);
    HandleNext(EMPTY_DESK, es[..k], es[k]);
    d, r := RelayedNow(HandleAll(EMPTY_DESK, es[..k]), es[k]);
    OutstandingExactly(es[..k], d);
    i := StandsUnmoved(d, es, k);
  }

  lemma RelayedNow(desk: Desk, e: Event) returns (d: Decision, r: Relay)
    requires |Handle(desk, e).relayed| > |desk.relayed|
    ensures e.Answered? && e.workerLive && EnvelopeOf(e.payload) == Some(r.envelope)
    ensures desk.outstanding == Some(d) && r.stamp == d.sequenceNum
    ensures VerdictOn(d, r.envelope, Some(r.stamp)) == Accepted
    ensures Handle(desk, e).relayed == desk.relayed + [r]
  {
    RelayIsAnswer(desk, e);
    RelayableIsAccepted(desk, e.payload);
    d, r := desk.outstanding.value, Relayable(desk, e.payload).value;
  }

  lemma RelayIsAnswer(desk: Desk, e: Event)
    requires |Handle(desk, e).relayed| > |desk.relayed|
    ensures e.Answered? && e.workerLive && Relayable(desk, e.payload).Some?
    ensures EnvelopeOf(e.payload) == Some(Relayable(desk, e.payload).value.envelope)
    ensures Handle(desk, e) == Desk(None, desk.relayed + [Relayable(desk, e.payload).value])
  {
  }

  /** Which answers go down, exactly: well formed, legitimate, stamped for the decision outstanding. */
  lemma RelayableExactly(desk: Desk, payload: Json)
    ensures Relayable(desk, payload).Some?
       <==> && desk.outstanding.Some? && EnvelopeOf(payload).Some?
            && Get(payload, "sequence_num") == Some(Int(desk.outstanding.value.sequenceNum))
            && desk.outstanding.value.sequenceNum <= SessionModel.MAX_SAFE_INTEGER
            && forall i :: 0 <= i < |EnvelopeOf(payload).value.answers| ==>
                 Legitimate(desk.outstanding.value.questions, EnvelopeOf(payload).value.answers[i])
  {
    if desk.outstanding.Some? && EnvelopeOf(payload).Some? {
      var d := desk.outstanding.value;
      var submitted := Get(payload, "sequence_num");
      AcceptedExactly(d, EnvelopeOf(payload).value, SessionModel.AsSequence(submitted));
      SessionModel.FieldsExactly(submitted, d.sequenceNum, "");
    }
  }

  // ----- single use, exactly -----

  function RaisesOf(es: seq<Event>): seq<Event> {
    if es == [] then []
    else RaisesOf(es[..|es| - 1]) + if es[|es| - 1].Raised? then [es[|es| - 1]] else []
  }

  predicate OnlyRaises(es: seq<Event>) {
    forall i :: 0 <= i < |es| ==> es[i].Raised?
  }

  /** No two relays answer under one stamp. */
  predicate AnsweredOnce(desk: Desk) {
    forall i, j :: 0 <= i < j < |desk.relayed| ==> desk.relayed[i].stamp != desk.relayed[j].stamp
  }

  lemma RaisesNext(es: seq<Event>, e: Event)
    ensures RaisesOf(es + [e]) == RaisesOf(es) + if e.Raised? then [e] else []
  {
    assert (es + [e])[..|es|] == es;
  }

  lemma {:induction false} RaisesAppend(a: seq<Event>, b: seq<Event>)
    ensures RaisesOf(a + b) == RaisesOf(a) + RaisesOf(b)
  {
    if b == [] {
      NoRight(a);
      NoRight(RaisesOf(a));
    } else {
      var front, last := b[..|b| - 1], b[|b| - 1];
      FrontLast(b);
      Assoc(a, front, [last]);
      RaisesAppend(a, front);
      RaisesNext(a + front, last);
      RaisesNext(front, last);
      Assoc(RaisesOf(a), RaisesOf(front), if last.Raised? then [last] else []);
    }
  }

  lemma {:induction false} RaisesOfRaises(es: seq<Event>)
    requires OnlyRaises(es)
    ensures RaisesOf(es) == es
  {
    if es != [] {
      RaisesOfRaises(es[..|es| - 1]);
      FrontLast(es);
    }
  }

  lemma {:induction false} RaisedIsKept(es: seq<Event>, i: nat) returns (k: nat)
    requires i < |es| && es[i].Raised?
    ensures k < |RaisesOf(es)| && RaisesOf(es)[k] == es[i]
  {
    var last := |es| - 1;
    if i == last {
      k := |RaisesOf(es[..last])|;
    } else {
      k := RaisedIsKept(es[..last], i);
    }
  }

  /** Only the raised events decide whether stamps are fresh. */
  lemma {:induction false} FreshFromRaises(es: seq<Event>)
    requires FreshStamps(RaisesOf(es))
    ensures FreshStamps(es)
  {
    if es != [] {
      var front, e := es[..|es| - 1], es[|es| - 1];
      if e.Raised? {
        FreshPrefix(RaisesOf(front), e);
      } else {
        NoRight(RaisesOf(front));
      }
      FreshFromRaises(front);
      forall i | 0 <= i < |front| && RaisedDecision(es[i]).Some? && RaisedDecision(e).Some?
        ensures RaisedDecision(es[i]).value.sequenceNum != RaisedDecision(e).value.sequenceNum
      {
        var k := RaisedIsKept(front, i);
        assert RaisesOf(es)[k] == es[i] && RaisesOf(es)[|RaisesOf(front)|] == e;
      }
      FreshNext(front, e, es);
    }
  }

  lemma FreshNext(front: seq<Event>, e: Event, es: seq<Event>)
    requires es == front + [e] && FreshStamps(front)
    requires forall i :: 0 <= i < |front| && RaisedDecision(es[i]).Some? && RaisedDecision(e).Some? ==>
               RaisedDecision(es[i]).value.sequenceNum != RaisedDecision(e).value.sequenceNum
    ensures FreshStamps(es)
  {
    assert forall i :: 0 <= i < |front| ==> es[i] == front[i];
  }

  lemma HandleNext(desk: Desk, es: seq<Event>, e: Event)
    ensures HandleAll(desk, es + [e]) == Handle(HandleAll(desk, es), e)
  {
    assert (es + [e])[..|es|] == es;
  }

  lemma {:induction false} HandleAppend(desk: Desk, a: seq<Event>, b: seq<Event>)
    ensures HandleAll(desk, a + b) == HandleAll(HandleAll(desk, a), b)
  {
    if b == [] {
      NoRight(a);
    } else {
      var front, last := b[..|b| - 1], b[|b| - 1];
      FrontLast(b);
      Assoc(a, front, [last]);
      HandleAppend(desk, a, front);
      HandleNext(desk, a + front, last);
      HandleNext(HandleAll(desk, a), front, last);
    }
  }

  /** Raising relays nothing, and leaves the last decision raised outstanding. */
  lemma {:induction false} RaisingRelaysNothing(desk: Desk, es: seq<Event>)
    requires OnlyRaises(es)
    ensures HandleAll(desk, es).relayed == desk.relayed
    ensures es != [] && RaisedDecision(es[|es| - 1]).Some? ==>
              HandleAll(desk, es).outstanding == RaisedDecision(es[|es| - 1])
  {
    if es != [] {
      RaisingRelaysNothing(desk, es[..|es| - 1]);
    }
  }

  /** The first option of the first question. */
  function FirstPick(d: Decision): seq<Pick>
    requires |d.questions| > 0 && |d.questions[0].options| > 0
  {
    [Pick(0, [d.questions[0].options[0].caption])]
  }

  lemma FirstPickIsLegitimate(d: Decision)
    requires WellFormedDecision(d)
    ensures |d.questions| > 0 && |d.questions[0].options| > 0 && LegitimatePicks(d, FirstPick(d))
  {
    assert WellFormedQuestion(d.questions[0], 0);
    assert Labels(d.questions[0].options)[0] == d.questions[0].options[0].caption;
  }

  lemma AcceptedIsRelayed(desk: Desk, d: Decision, payload: Json, envelope: Envelope)
    requires desk.outstanding == Some(d) && EnvelopeOf(payload) == Some(envelope)
    requires VerdictOn(d, envelope, SessionModel.AsSequence(Get(payload, "sequence_num"))) == Accepted
    ensures Relayable(desk, payload) == Some(Relay(d.sequenceNum, envelope))
    ensures Handle(desk, Answered(payload, true)) == Desk(None, desk.relayed + [Relay(d.sequenceNum, envelope)])
  {
  }

  /** Whatever was raised can be answered while it is outstanding. */
  lemma EveryDecisionIsAnswerable(desk: Desk, d: Decision) returns (payload: Json, r: Relay)
    requires WellFormedDecision(d) && desk.outstanding == Some(d)
    ensures Relayable(desk, payload) == Some(r) && r.stamp == d.sequenceNum
    ensures Handle(desk, Answered(payload, true)) == Desk(None, desk.relayed + [r])
  {
    FirstPickIsLegitimate(d);
    payload := Payload(FirstPick(d), d.sequenceNum);
    r := Relay(d.sequenceNum, EnvelopeFor(FirstPick(d)));
    PicksArrive(d, FirstPick(d));
    AcceptedIsRelayed(desk, d, payload, r.envelope);
  }

  /** Raise up to a decision and answer it. */
  lemma RaiseAndAnswer(desk: Desk, es: seq<Event>, d: Decision) returns (answered: seq<Event>, r: Relay)
    requires OnlyRaises(es) && EndsRaising(es, d)
    ensures RaisesOf(answered) == es
    ensures HandleAll(desk, answered) == Desk(None, desk.relayed + [r]) && r.stamp == d.sequenceNum
  {
    RaisingRelaysNothing(desk, es);
    ParsedDecision(es[|es| - 1].payload);
    var payload;
    payload, r := EveryDecisionIsAnswerable(HandleAll(desk, es), d);
    answered := es + [Answered(payload, true)];
    HandleNext(desk, es, Answered(payload, true));
    RaisesNext(es, Answered(payload, true));
    RaisesOfRaises(es);
    NoRight(es);
  }

  predicate EndsRaising(es: seq<Event>, d: Decision) {
    es != [] && RaisedDecision(es[|es| - 1]) == Some(d)
  }

  /** Raise, answer, raise, answer, raise. */
  lemma TwoAnswers(desk: Desk, a: seq<Event>, d: Decision, b: seq<Event>, e: Decision, c: seq<Event>)
    returns (es: seq<Event>, r: Relay, q: Relay)
    requires OnlyRaises(a) && EndsRaising(a, d) && OnlyRaises(b) && EndsRaising(b, e) && OnlyRaises(c)
    ensures RaisesOf(es) == a + b + c && HandleAll(desk, es).relayed == desk.relayed + [r] + [q]
    ensures r.stamp == d.sequenceNum && q.stamp == e.sequenceNum
  {
    var first, second;
    first, r := RaiseAndAnswer(desk, a, d);
    second, q := RaiseAndAnswer(HandleAll(desk, first), b, e);
    es := first + second + c;
    RaisesAppend(first, second);
    RaisesAppend(first + second, c);
    RaisesOfRaises(c);
    HandleAppend(desk, first, second);
    HandleAppend(desk, first + second, c);
    RaisingRelaysNothing(HandleAll(desk, first + second), c);
  }

  /**
   * Freshness is needed: whenever one stamp is raised for two decisions, alike or not, some run that raises just
   * these answers twice under that stamp.
   */
  lemma ReusedStampIsAnsweredTwice(raises: seq<Event>, i: nat, d: Decision, j: nat, e: Decision)
    returns (es: seq<Event>, r: Relay, q: Relay)
    requires OnlyRaises(raises) && i < j < |raises|
    requires RaisedDecision(raises[i]) == Some(d) && RaisedDecision(raises[j]) == Some(e)
    requires d.sequenceNum == e.sequenceNum
    ensures RaisesOf(es) == raises
    ensures HandleAll(EMPTY_DESK, es).relayed == [r, q] && r.stamp == q.stamp == d.sequenceNum
  {
    ThreeParts(raises, i + 1, j + 1);
    es, r, q := TwoAnswers(EMPTY_DESK, raises[..i + 1], d, raises[i + 1..j + 1], e, raises[j + 1..]);
  }

  lemma ThreeParts(s: seq<Event>, i: nat, j: nat)
    requires 0 < i < j <= |s|
    ensures s[..i] + s[i..j] + s[j..] == s
    ensures s[..i][|s[..i]| - 1] == s[i - 1] && s[i..j][|s[i..j]| - 1] == s[j - 1]
  {
  }

  lemma TwiceIsNotOnce(desk: Desk, r: Relay, q: Relay)
    requires desk.relayed == [r, q] && r.stamp == q.stamp
    ensures !AnsweredOnce(desk)
  {
    assert desk.relayed[0].stamp == desk.relayed[1].stamp;
  }

  lemma UnspentIsAnsweredOnce(desk: Desk)
    requires Unspent(desk)
    ensures AnsweredOnce(desk)
  {
  }

  /**
   * Whatever else happens in a run, every stamp is answered at most once if and only if the decisions raised carry
   * different stamps.
   */
  lemma SingleUseExactly(raises: seq<Event>)
    requires OnlyRaises(raises)
    ensures FreshStamps(raises) <==> forall es :: RaisesOf(es) == raises ==> AnsweredOnce(HandleAll(EMPTY_DESK, es))
  {
    if FreshStamps(raises) {
      forall es | RaisesOf(es) == raises
        ensures AnsweredOnce(HandleAll(EMPTY_DESK, es))
      {
        FreshFromRaises(es);
        AnsweredAtMostOnce(es);
        UnspentIsAnsweredOnce(HandleAll(EMPTY_DESK, es));
      }
    } else {
      var i, j :| 0 <= i < j < |raises| && RaisedDecision(raises[i]).Some? && RaisedDecision(raises[j]).Some?
                  && RaisedDecision(raises[i]).value.sequenceNum == RaisedDecision(raises[j]).value.sequenceNum;
      var es, r, q := ReusedStampIsAnsweredTwice(
        raises, i, RaisedDecision(raises[i]).value, j, RaisedDecision(raises[j]).value);
      TwiceIsNotOnce(HandleAll(EMPTY_DESK, es), r, q);
    }
  }
}
