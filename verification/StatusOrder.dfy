/**
 * When the order of delivery shows: the exact condition, on the reports alone, under which every delivery of an
 * epoch ends in the same activity, and the frames that tell two orders apart when it fails.
 */
module StatusOrder {
  import opened Wrappers
  import opened Json
  import opened Detail
  import opened Seqs
  import opened SessionModel

  // ----- the line on show -----

  /** The line a bare `requires_action` would show now. */
  function OnShow(a: Activity): string {
    if a.Awaiting? then a.detail else DEFAULT_DETAIL
  }

  /** The line a bare `requires_action` would show once a report has been applied over `line`. */
  function Leaves(line: string, status: WorkerStatus, detail: Option<string>): string {
    if status.RequiresAction? then DisplayableDetail(detail).GetOr(line) else DEFAULT_DETAIL
  }

  lemma OnShowNext(a: Activity, status: WorkerStatus, detail: Option<string>)
    requires WellFormed(a)
    ensures OnShow(NextActivity(a, status, detail)) == Leaves(OnShow(a), status, detail)
  {
    if status.RequiresAction? {
      if DisplayableDetail(detail).Some? {
        StatedDetailWins(a, detail);
      } else if a.Awaiting? {
        BareReaffirmation(a, detail);
      }
    }
  }

  /**
   * No earlier report can change what the latest one shows: the latest moves on, or states its own line, or every
   * earlier report leaves the line on show as it was when the epoch began. For a session that was not waiting that
   * line is the default one.
   */
  predicate OrderFree(a: Activity, reports: seq<Report>, h: nat)
    requires h < |reports|
  {
    || !reports[h].status.RequiresAction?
    || DisplayableDetail(reports[h].detail).Some?
    || forall j :: 0 <= j < h ==> Leaves(OnShow(a), reports[j].status, reports[j].detail) == OnShow(a)
  }

  /** For a session that was not waiting: no earlier question but the default line. */
  lemma OrderFreeAtRest(a: Activity, reports: seq<Report>, h: nat)
    requires h < |reports| && !a.Awaiting?
    ensures OrderFree(a, reports, h)
       <==> || !reports[h].status.RequiresAction?
            || DisplayableDetail(reports[h].detail).Some?
            || forall j :: 0 <= j < h && reports[j].status.RequiresAction? ==>
                 DisplayableDetail(reports[j].detail).GetOr(DEFAULT_DETAIL) == DEFAULT_DETAIL
  {
  }

  /**
   * When the latest report's own detail may be lost as well: the latest moves on, or no report up to it, itself
   * included, changes the line on show.
   */
  predicate LossFree(a: Activity, reports: seq<Report>, h: nat)
    requires h < |reports|
  {
    || !reports[h].status.RequiresAction?
    || forall j :: 0 <= j <= h ==> Leaves(OnShow(a), reports[j].status, reports[j].detail) == OnShow(a)
  }

  // ----- deliveries -----

  /** `ds` delivers legs up to report `h`, on one leg of it or both; older ones may be missing or repeated. */
  ghost predicate Reaches(ds: seq<Delivery>, legs: seq<Leg>, h: nat, reports: seq<Report>, stamps: seq<nat>) {
    |stamps| == |reports| && Delivers(ds, legs, reports, stamps) && IsLatest(h, legs)
  }

  /** And the rich leg of `h` is among them. */
  ghost predicate Gets(ds: seq<Delivery>, legs: seq<Leg>, h: nat, reports: seq<Report>, stamps: seq<nat>) {
    Reaches(ds, legs, h, reports, stamps) && Leg(h, true) in legs
  }

  /** And nothing is missing. */
  ghost predicate GetsAll(ds: seq<Delivery>, legs: seq<Leg>, h: nat, reports: seq<Report>, stamps: seq<nat>) {
    Gets(ds, legs, h, reports, stamps) && forall j, rich :: 0 <= j <= h ==> Leg(j, rich) in legs
  }

  ghost predicate AnyLossAgrees(feed: Feed, h: nat, reports: seq<Report>, stamps: seq<nat>) {
    forall ds, legs, es, more :: Reaches(ds, legs, h, reports, stamps) && Reaches(es, more, h, reports, stamps) ==>
      Run(feed, ds).session.activity == Run(feed, es).session.activity
  }

  ghost predicate AnyDeliveryAgrees(feed: Feed, h: nat, reports: seq<Report>, stamps: seq<nat>) {
    forall ds, legs, es, more :: Gets(ds, legs, h, reports, stamps) && Gets(es, more, h, reports, stamps) ==>
      Run(feed, ds).session.activity == Run(feed, es).session.activity
  }

  ghost predicate AnyOrderAgrees(feed: Feed, h: nat, reports: seq<Report>, stamps: seq<nat>) {
    forall ds, legs, es, more :: GetsAll(ds, legs, h, reports, stamps) && GetsAll(es, more, h, reports, stamps) ==>
      Run(feed, ds).session.activity == Run(feed, es).session.activity
  }

  // ----- the condition suffices -----

  predicate Within(legs: seq<Leg>, n: nat) {
    forall i :: 0 <= i < |legs| ==> legs[i].report < n
  }

  /** One more leg that leaves the line as it is. */
  lemma LineStaysNext(feed: Feed, d: Delivery, leg: Leg, line: string, reports: seq<Report>, stamps: seq<nat>)
    requires |stamps| == |reports| && Carries(d, leg, reports, stamps)
    requires WellFormed(feed.session.activity) && OnShow(feed.session.activity) == line
    requires Leaves(line, reports[leg.report].status, reports[leg.report].detail) == line
    ensures WellFormed(Deliver(feed, d).session.activity) && OnShow(Deliver(feed, d).session.activity) == line
  {
    var r := Read(d.input).value;
    OnShowNext(feed.session.activity, r.status, r.detail);
    ActivityStaysWellFormed(feed.session.activity, r.status, r.detail);
  }

  lemma {:induction false} LineStays(
    feed: Feed, ds: seq<Delivery>, legs: seq<Leg>, line: string, h: nat, reports: seq<Report>, stamps: seq<nat>)
    requires |stamps| == |reports| && h < |reports| && Delivers(ds, legs, reports, stamps) && Within(legs, h + 1)
    requires WellFormed(feed.session.activity) && OnShow(feed.session.activity) == line
    requires forall j :: 0 <= j <= h ==> Leaves(line, reports[j].status, reports[j].detail) == line
    ensures WellFormed(Run(feed, ds).session.activity) && OnShow(Run(feed, ds).session.activity) == line
  {
    if ds != [] {
      var n := |ds| - 1;
      LineStays(feed, ds[..n], legs[..n], line, h, reports, stamps);
      LineStaysNext(Run(feed, ds[..n]), ds[n], legs[n], line, reports, stamps);
    }
  }

  /** The latest report states no line: the one on show stays. */
  lemma EndsOnShow(feed: Feed, ds: seq<Delivery>, legs: seq<Leg>, h: nat, reports: seq<Report>, stamps: seq<nat>)
    requires |stamps| == |reports| && h < |reports| && WellFormed(feed.session.activity)
    requires Delivers(ds, legs, reports, stamps) && IsLatest(h, legs)
    requires reports[h].status.RequiresAction? && DisplayableDetail(reports[h].detail) == None
    requires OrderFree(feed.session.activity, reports, h)
    requires Run(feed, ds).session.activity.Awaiting?
    ensures Run(feed, ds).session.activity == Awaiting(OnShow(feed.session.activity))
  {
    var line := OnShow(feed.session.activity);
    assert Leaves(line, reports[h].status, reports[h].detail) == line;
    LineStays(feed, ds, legs, line, h, reports, stamps);
  }

  lemma LatestApplied(a: Activity, r: Report)
    requires WellFormed(a)
    ensures var next := NextActivity(a, r.status, r.detail);
            && next.Kind() == r.status
            && (r.status.RequiresAction? ==> next == Awaiting(DisplayableDetail(r.detail).GetOr(OnShow(a))))
  {
    OnShowNext(a, r.status, r.detail);
  }

  /** What the session ends in when no order shows: the latest report applied to what there was. */
  lemma EndsAtLatest(
    feed: Feed, ds: seq<Delivery>, legs: seq<Leg>, h: nat, reports: seq<Report>, stamps: seq<nat>)
    requires Stamped(reports, stamps) && h < |reports| && feed.mark == None && WellFormed(feed.session.activity)
    requires Gets(ds, legs, h, reports, stamps) && OrderFree(feed.session.activity, reports, h)
    ensures Run(feed, ds).session.activity
         == NextActivity(feed.session.activity, reports[h].status, reports[h].detail)
  {
    LatestApplied(feed.session.activity, reports[h]);
    var x := TwoLegsConverge(feed, ds, legs, reports, stamps);
    assert x == h;
    if reports[h].status.RequiresAction? && DisplayableDetail(reports[h].detail).None? {
      EndsOnShow(feed, ds, legs, h, reports, stamps);
    }
  }

  // ----- every leg has a delivery -----

  function PayloadFields(r: Report, stamp: nat): seq<Member> {
    [Member("status", Str(StatusText(r.status))), Member("sequence_num", Int(stamp))]
  }

  function DetailField(detail: Option<string>): seq<Member> {
    if detail.Some? then [Member("detail", Str(detail.value))] else []
  }

  /** The status frame of a report, its detail included. */
  function FrameOf(r: Report, stamp: nat): Json {
    Obj([Member("type", Str("control_event")), Member("subtype", Str("worker_status")),
         Member("payload", Obj(PayloadFields(r, stamp) + DetailField(r.detail)))])
  }

  function DeliveryOf(leg: Leg, reports: seq<Report>, stamps: seq<nat>): Delivery
    requires leg.report < |reports| == |stamps|
  {
    var (r, stamp) := (reports[leg.report], stamps[leg.report]);
    Delivery(if leg.rich then Frame(FrameOf(r, stamp)) else Put(Str(StatusText(r.status)), Some(Int(stamp))), 0)
  }

  predicate Usable(stamps: seq<nat>) {
    forall i :: 0 <= i < |stamps| ==> stamps[i] <= MAX_SAFE_INTEGER
  }

  lemma PayloadReadsBack(r: Report, stamp: nat, payload: Json)
    requires payload == Obj(PayloadFields(r, stamp) + DetailField(r.detail))
    ensures Get(payload, "status") == Some(Str(StatusText(r.status)))
    ensures Get(payload, "sequence_num") == Some(Int(stamp))
    ensures TextOf(Get(payload, "detail")) == r.detail
  {
    var ms := PayloadFields(r, stamp);
    assert ms[0].key == "status" && ms[1].key == "sequence_num";
    FindAt(ms, 0);
    FindAt(ms, 1);
    FindAppend(ms, DetailField(r.detail), "status");
    FindAppend(ms, DetailField(r.detail), "sequence_num");
    FindAppend(ms, DetailField(r.detail), "detail");
  }

  lemma FrameFields(r: Report, stamp: nat)
    ensures var f := FrameOf(r, stamp);
            && Get(f, "type") == Some(Str("control_event"))
            && Get(f, "subtype") == Some(Str("worker_status"))
            && Get(f, "payload") == Some(Obj(PayloadFields(r, stamp) + DetailField(r.detail)))
  {
    var ms := FrameOf(r, stamp).members;
    assert ms[0].key == "type" && ms[1].key == "subtype" && ms[2].key == "payload";
    FindAt(ms, 0);
    FindAt(ms, 1);
    FindAt(ms, 2);
  }

  lemma FrameReadsBack(r: Report, stamp: nat)
    requires stamp <= MAX_SAFE_INTEGER
    ensures ReadFrame(FrameOf(r, stamp)) == Some(Reading(r.status, r.detail, Some(stamp)))
  {
    FrameFields(r, stamp);
    PayloadReadsBack(r, stamp, Obj(PayloadFields(r, stamp) + DetailField(r.detail)));
    StatusExactly(Some(Str(StatusText(r.status))), r.status);
  }

  lemma LegIsCarried(leg: Leg, reports: seq<Report>, stamps: seq<nat>)
    requires leg.report < |reports| == |stamps| && Usable(stamps)
    ensures Carries(DeliveryOf(leg, reports, stamps), leg, reports, stamps)
  {
    var (r, stamp) := (reports[leg.report], stamps[leg.report]);
    if leg.rich {
      FrameReadsBack(r, stamp);
    } else {
      StatusExactly(Some(Str(StatusText(r.status))), r.status);
    }
  }

  function Deliveries(legs: seq<Leg>, reports: seq<Report>, stamps: seq<nat>): (ds: seq<Delivery>)
    requires Within(legs, |reports|) && |stamps| == |reports|
    ensures |ds| == |legs|
  {
    seq(|legs|, i requires 0 <= i < |legs| => DeliveryOf(legs[i], reports, stamps))
  }

  lemma LegsAreDelivered(legs: seq<Leg>, reports: seq<Report>, stamps: seq<nat>)
    requires Within(legs, |reports|) && |stamps| == |reports| && Usable(stamps)
    ensures Delivers(Deliveries(legs, reports, stamps), legs, reports, stamps)
  {
    forall i | 0 <= i < |legs|
      ensures Carries(Deliveries(legs, reports, stamps)[i], legs[i], reports, stamps)
    {
      LegIsCarried(legs[i], reports, stamps);
    }
  }

  // ----- the condition is needed -----

  /** Both legs of every report up to `h`. */
  function AllLegs(h: nat): (legs: seq<Leg>)
    ensures |legs| == 2 * (h + 1) && forall i :: 0 <= i < |legs| ==> legs[i].report <= h
  {
    seq(2 * (h + 1), i requires 0 <= i < 2 * (h + 1) => Leg(i / 2, i % 2 == 0))
  }

  lemma AllLegsAreThere(h: nat, j: nat, rich: bool)
    requires j <= h
    ensures Leg(j, rich) in AllLegs(h)
  {
    var i := 2 * j + if rich then 0 else 1;
    assert AllLegs(h)[i] == Leg(j, rich);
  }

  lemma {:induction false} RunCons(feed: Feed, d: Delivery, ds: seq<Delivery>)
    ensures Run(feed, [d] + ds) == Run(Deliver(feed, d), ds)
  {
    if ds == [] {
      NoRight([d]);
      RunOne(feed, d);
    } else {
      var front, last := ds[..|ds| - 1], ds[|ds| - 1];
      FrontLast(ds);
      Assoc([d], front, [last]);
      RunCons(feed, d, front);
      RunLast(feed, [d] + front, last);
      RunLast(Deliver(feed, d), front, last);
    }
  }

  lemma RunLast(feed: Feed, ds: seq<Delivery>, d: Delivery)
    ensures Run(feed, ds + [d]) == Deliver(Run(feed, ds), d)
  {
    assert (ds + [d])[..|ds|] == ds;
  }

  lemma RunOne(feed: Feed, d: Delivery)
    ensures Run(feed, [d]) == Deliver(feed, d)
  {
    assert [d][..0] == [];
    assert Run(feed, [d][..0]) == feed;
  }

  /** Once a report without a usable detail is in, its other leg, its copies and all older legs change nothing. */
  lemma {:induction false} RestChangesNothing(
    feed: Feed, ds: seq<Delivery>, legs: seq<Leg>, h: nat, reports: seq<Report>, stamps: seq<nat>)
    requires Stamped(reports, stamps) && h < |reports| && Delivers(ds, legs, reports, stamps)
    requires forall i :: 0 <= i < |legs| ==> legs[i].report <= h
    requires reports[h].status.RequiresAction? && DisplayableDetail(reports[h].detail) == None
    requires feed.mark == Some(stamps[h]) && feed.session.activity.Awaiting? && WellFormed(feed.session.activity)
    ensures Run(feed, ds).mark == feed.mark && Run(feed, ds).session.activity == feed.session.activity
  {
    if ds != [] {
      var n := |ds| - 1;
      RestChangesNothing(feed, ds[..n], legs[..n], h, reports, stamps);
      var r := Read(ds[n].input).value;
      assert Carries(ds[n], legs[n], reports, stamps);
      if legs[n].report == h {
        BareReaffirmation(feed.session.activity, r.detail);
      } else {
        assert stamps[legs[n].report] < stamps[h];
      }
    }
  }

  /** The latest report first, and then everything. */
  function LatestFirst(h: nat): seq<Leg> {
    [Leg(h, true)] + AllLegs(h)
  }

  lemma AllAreThere(before: seq<Leg>, h: nat)
    ensures forall j, rich :: 0 <= j <= h ==> Leg(j, rich) in before + AllLegs(h)
  {
    forall j, rich | 0 <= j <= h
      ensures Leg(j, rich) in before + AllLegs(h)
    {
      AllLegsAreThere(h, j, rich);
    }
  }

  lemma CompleteGetsAll(legs: seq<Leg>, h: nat, reports: seq<Report>, stamps: seq<nat>)
    requires |stamps| == |reports| && Usable(stamps) && h < |reports| && Within(legs, h + 1)
    requires forall j, rich :: 0 <= j <= h ==> Leg(j, rich) in legs
    ensures Within(legs, |reports|) && GetsAll(Deliveries(legs, reports, stamps), legs, h, reports, stamps)
  {
    assert Leg(h, true) in legs;
    LegsAreDelivered(legs, reports, stamps);
  }

  lemma LatestFirstGetsAll(h: nat, reports: seq<Report>, stamps: seq<nat>)
    requires |stamps| == |reports| && Usable(stamps) && h < |reports|
    ensures var legs := LatestFirst(h);
            Within(legs, |reports|) && GetsAll(Deliveries(legs, reports, stamps), legs, h, reports, stamps)
  {
    AllAreThere([Leg(h, true)], h);
    CompleteGetsAll(LatestFirst(h), h, reports, stamps);
  }

  lemma EarlierFirstGetsAll(j: nat, h: nat, reports: seq<Report>, stamps: seq<nat>)
    requires |stamps| == |reports| && Usable(stamps) && j < h < |reports|
    ensures var legs := [Leg(j, true)] + LatestFirst(h);
            Within(legs, |reports|) && GetsAll(Deliveries(legs, reports, stamps), legs, h, reports, stamps)
  {
    Assoc([Leg(j, true)], [Leg(h, true)], AllLegs(h));
    AllAreThere([Leg(j, true)] + [Leg(h, true)], h);
    CompleteGetsAll([Leg(j, true)] + LatestFirst(h), h, reports, stamps);
  }

  lemma DeliveriesCons(leg: Leg, legs: seq<Leg>, reports: seq<Report>, stamps: seq<nat>)
    requires |stamps| == |reports| && leg.report < |reports| && Within(legs, |reports|)
    ensures Within([leg] + legs, |reports|)
    ensures Deliveries([leg] + legs, reports, stamps)
         == [DeliveryOf(leg, reports, stamps)] + Deliveries(legs, reports, stamps)
  {
    assert forall i :: 0 < i < |[leg] + legs| ==> ([leg] + legs)[i] == legs[i - 1];
  }

  /** A rich leg that is not behind the mark is applied and becomes the mark. */
  lemma AppliedLeg(feed: Feed, d: Delivery, leg: Leg, reports: seq<Report>, stamps: seq<nat>)
    requires |stamps| == |reports| && Carries(d, leg, reports, stamps) && leg.rich
    requires feed.mark.Some? ==> feed.mark.value < stamps[leg.report]
    ensures Deliver(feed, d).mark == Some(stamps[leg.report])
    ensures Deliver(feed, d).session.activity
         == NextActivity(feed.session.activity, reports[leg.report].status, reports[leg.report].detail)
  {
    Applied(feed, d, Read(d.input).value, stamps[leg.report]);
  }

  /** Such a delivery ends at the line on show when the latest report came in. */
  lemma LatestFirstShows(feed: Feed, h: nat, reports: seq<Report>, stamps: seq<nat>)
    requires Stamped(reports, stamps) && Usable(stamps) && h < |reports|
    requires reports[h].status.RequiresAction? && DisplayableDetail(reports[h].detail) == None
    requires WellFormed(feed.session.activity) && (feed.mark.Some? ==> feed.mark.value < stamps[h])
    ensures Within(LatestFirst(h), |reports|)
    ensures Run(feed, Deliveries(LatestFirst(h), reports, stamps)).session.activity
         == Awaiting(OnShow(feed.session.activity))
  {
    var leg, rest := Leg(h, true), AllLegs(h);
    var d := DeliveryOf(leg, reports, stamps);
    var next := Deliver(feed, d);
    DeliveriesCons(leg, rest, reports, stamps);
    RunCons(feed, d, Deliveries(rest, reports, stamps));
    LegIsCarried(leg, reports, stamps);
    AppliedLeg(feed, d, leg, reports, stamps);
    OnShowNext(feed.session.activity, reports[h].status, reports[h].detail);
    ActivityStaysWellFormed(feed.session.activity, reports[h].status, reports[h].detail);
    LegsAreDelivered(rest, reports, stamps);
    RestChangesNothing(next, Deliveries(rest, reports, stamps), rest, h, reports, stamps);
  }

  /** With report `j` in front, it ends at the line that report leaves. */
  lemma EarlierFirstShows(feed: Feed, j: nat, h: nat, reports: seq<Report>, stamps: seq<nat>)
    requires Stamped(reports, stamps) && Usable(stamps) && j < h < |reports|
    requires reports[h].status.RequiresAction? && DisplayableDetail(reports[h].detail) == None
    requires WellFormed(feed.session.activity) && feed.mark == None
    ensures Within([Leg(j, true)] + LatestFirst(h), |reports|)
    ensures Run(feed, Deliveries([Leg(j, true)] + LatestFirst(h), reports, stamps)).session.activity
         == Awaiting(Leaves(OnShow(feed.session.activity), reports[j].status, reports[j].detail))
  {
    var leg := Leg(j, true);
    var d := DeliveryOf(leg, reports, stamps);
    LegIsCarried(leg, reports, stamps);
    AppliedLeg(feed, d, leg, reports, stamps);
    OnShowNext(feed.session.activity, reports[j].status, reports[j].detail);
    ActivityStaysWellFormed(feed.session.activity, reports[j].status, reports[j].detail);
    assert stamps[j] < stamps[h];
    LatestFirstShows(Deliver(feed, d), h, reports, stamps);
    DeliveriesCons(leg, LatestFirst(h), reports, stamps);
    RunCons(feed, d, Deliveries(LatestFirst(h), reports, stamps));
  }

  lemma Disagree(
    feed: Feed, ds: seq<Delivery>, legs: seq<Leg>, es: seq<Delivery>, more: seq<Leg>,
    h: nat, reports: seq<Report>, stamps: seq<nat>)
    requires GetsAll(ds, legs, h, reports, stamps) && GetsAll(es, more, h, reports, stamps)
    requires Run(feed, ds).session.activity != Run(feed, es).session.activity
    ensures !AnyOrderAgrees(feed, h, reports, stamps)
  {
  }

  lemma OrderShows(feed: Feed, h: nat, j: nat, reports: seq<Report>, stamps: seq<nat>)
    requires Stamped(reports, stamps) && Usable(stamps) && j < h < |reports|
    requires feed.mark == None && WellFormed(feed.session.activity)
    requires reports[h].status.RequiresAction? && DisplayableDetail(reports[h].detail) == None
    requires var line := OnShow(feed.session.activity); Leaves(line, reports[j].status, reports[j].detail) != line
    ensures !AnyOrderAgrees(feed, h, reports, stamps)
  {
    var legs, more := LatestFirst(h), [Leg(j, true)] + LatestFirst(h);
    LatestFirstGetsAll(h, reports, stamps);
    EarlierFirstGetsAll(j, h, reports, stamps);
    LatestFirstShows(feed, h, reports, stamps);
    EarlierFirstShows(feed, j, h, reports, stamps);
    Disagree(feed, Deliveries(legs, reports, stamps), legs, Deliveries(more, reports, stamps), more,
             h, reports, stamps);
  }

  lemma OrderIsFree(feed: Feed, h: nat, reports: seq<Report>, stamps: seq<nat>)
    requires Stamped(reports, stamps) && h < |reports|
    requires feed.mark == None && WellFormed(feed.session.activity)
    requires OrderFree(feed.session.activity, reports, h)
    ensures AnyDeliveryAgrees(feed, h, reports, stamps)
  {
    forall ds, legs | Gets(ds, legs, h, reports, stamps)
      ensures Run(feed, ds).session.activity
           == NextActivity(feed.session.activity, reports[h].status, reports[h].detail)
    {
      EndsAtLatest(feed, ds, legs, h, reports, stamps);
    }
  }

  /**
   * At the start of an epoch: all deliveries that get the latest report's rich leg through end in the same activity
   * if and only if the reports are order-free; and losing nothing does not help.
   */
  lemma OrderMattersExactly(feed: Feed, h: nat, reports: seq<Report>, stamps: seq<nat>)
    requires Stamped(reports, stamps) && Usable(stamps) && h < |reports|
    requires feed.mark == None && WellFormed(feed.session.activity)
    ensures AnyDeliveryAgrees(feed, h, reports, stamps) <==> OrderFree(feed.session.activity, reports, h)
    ensures AnyOrderAgrees(feed, h, reports, stamps) <==> OrderFree(feed.session.activity, reports, h)
  {
    FewerIsEasier(feed, h, reports, stamps);
    if OrderFree(feed.session.activity, reports, h) {
      OrderIsFree(feed, h, reports, stamps);
    } else {
      var line := OnShow(feed.session.activity);
      var j :| 0 <= j < h && Leaves(line, reports[j].status, reports[j].detail) != line;
      OrderShows(feed, h, j, reports, stamps);
    }
  }

  lemma FewerIsEasier(feed: Feed, h: nat, reports: seq<Report>, stamps: seq<nat>)
    ensures AnyDeliveryAgrees(feed, h, reports, stamps) ==> AnyOrderAgrees(feed, h, reports, stamps)
  {
  }

  // ----- when the latest detail can be lost as well -----

  /** Any delivery that reaches the latest report, on whichever leg. */
  lemma EndsAnyhow(feed: Feed, ds: seq<Delivery>, legs: seq<Leg>, h: nat, reports: seq<Report>, stamps: seq<nat>)
    requires Stamped(reports, stamps) && h < |reports| && feed.mark == None && WellFormed(feed.session.activity)
    requires Reaches(ds, legs, h, reports, stamps)
    requires reports[h].status.RequiresAction? && LossFree(feed.session.activity, reports, h)
    ensures Run(feed, ds).session.activity == Awaiting(OnShow(feed.session.activity))
  {
    var x := TwoLegsConverge(feed, ds, legs, reports, stamps);
    assert x == h;
    LineStays(feed, ds, legs, OnShow(feed.session.activity), h, reports, stamps);
  }

  lemma LossIsFree(feed: Feed, h: nat, reports: seq<Report>, stamps: seq<nat>)
    requires Stamped(reports, stamps) && h < |reports| && feed.mark == None && WellFormed(feed.session.activity)
    requires LossFree(feed.session.activity, reports, h)
    ensures AnyLossAgrees(feed, h, reports, stamps)
  {
    forall ds, legs, es, more | Reaches(ds, legs, h, reports, stamps) && Reaches(es, more, h, reports, stamps)
      ensures Run(feed, ds).session.activity == Run(feed, es).session.activity
    {
      if reports[h].status.RequiresAction? {
        EndsAnyhow(feed, ds, legs, h, reports, stamps);
        EndsAnyhow(feed, es, more, h, reports, stamps);
      } else {
        OrderDoesNotMatter(feed, ds, legs, feed, es, more, h, reports, stamps);
      }
    }
  }

  lemma OneLegReaches(leg: Leg, reports: seq<Report>, stamps: seq<nat>)
    requires |stamps| == |reports| && Usable(stamps) && leg.report < |reports|
    ensures Reaches([DeliveryOf(leg, reports, stamps)], [leg], leg.report, reports, stamps)
  {
    LegIsCarried(leg, reports, stamps);
    assert [leg][0] == leg;
  }

  lemma TwoLegsReach(early: Leg, late: Leg, reports: seq<Report>, stamps: seq<nat>)
    requires |stamps| == |reports| && Usable(stamps) && early.report < late.report < |reports|
    ensures Reaches([DeliveryOf(early, reports, stamps)] + [DeliveryOf(late, reports, stamps)], [early] + [late],
                    late.report, reports, stamps)
  {
    LegIsCarried(early, reports, stamps);
    LegIsCarried(late, reports, stamps);
    assert ([early] + [late])[1] == late;
  }

  /** One leg applied: the line it leaves, and the mark it sets. */
  lemma LegShows(feed: Feed, leg: Leg, reports: seq<Report>, stamps: seq<nat>)
    requires |stamps| == |reports| && Usable(stamps) && leg.report < |reports| && WellFormed(feed.session.activity)
    requires feed.mark.Some? ==> feed.mark.value < stamps[leg.report]
    ensures var (next, r) := (Deliver(feed, DeliveryOf(leg, reports, stamps)), reports[leg.report]);
            && next.mark == Some(stamps[leg.report]) && WellFormed(next.session.activity)
            && OnShow(next.session.activity)
            == Leaves(OnShow(feed.session.activity), r.status, if leg.rich then r.detail else None)
  {
    var r := reports[leg.report];
    var detail := if leg.rich then r.detail else None;
    LegIsCarried(leg, reports, stamps);
    Applied(feed, DeliveryOf(leg, reports, stamps), Reading(r.status, detail, Some(stamps[leg.report])),
            stamps[leg.report]);
    OnShowNext(feed.session.activity, r.status, detail);
    ActivityStaysWellFormed(feed.session.activity, r.status, detail);
  }

  lemma DisagreeWithLoss(
    feed: Feed, ds: seq<Delivery>, legs: seq<Leg>, es: seq<Delivery>, more: seq<Leg>,
    h: nat, reports: seq<Report>, stamps: seq<nat>)
    requires Reaches(ds, legs, h, reports, stamps) && Reaches(es, more, h, reports, stamps)
    requires OnShow(Run(feed, ds).session.activity) != OnShow(Run(feed, es).session.activity)
    ensures !AnyLossAgrees(feed, h, reports, stamps)
  {
    assert Run(feed, ds).session.activity != Run(feed, es).session.activity;
  }

  /** The latest report's bare leg alone, and its rich leg alone. */
  lemma OwnDetailLost(feed: Feed, h: nat, reports: seq<Report>, stamps: seq<nat>)
    requires Stamped(reports, stamps) && Usable(stamps) && h < |reports| && reports[h].status.RequiresAction?
    requires feed.mark == None && WellFormed(feed.session.activity)
    requires var line := OnShow(feed.session.activity); Leaves(line, reports[h].status, reports[h].detail) != line
    ensures !AnyLossAgrees(feed, h, reports, stamps)
  {
    var bare, rich := Leg(h, false), Leg(h, true);
    LegShows(feed, bare, reports, stamps);
    LegShows(feed, rich, reports, stamps);
    OneLegReaches(bare, reports, stamps);
    OneLegReaches(rich, reports, stamps);
    RunOne(feed, DeliveryOf(bare, reports, stamps));
    RunOne(feed, DeliveryOf(rich, reports, stamps));
    DisagreeWithLoss(feed, [DeliveryOf(bare, reports, stamps)], [bare], [DeliveryOf(rich, reports, stamps)], [rich],
                     h, reports, stamps);
  }

  /** The latest report's bare leg alone, and after an earlier report's rich leg. */
  lemma EarlierDetailStays(feed: Feed, j: nat, h: nat, reports: seq<Report>, stamps: seq<nat>)
    requires Stamped(reports, stamps) && Usable(stamps) && j < h < |reports| && reports[h].status.RequiresAction?
    requires feed.mark == None && WellFormed(feed.session.activity)
    requires var line := OnShow(feed.session.activity); Leaves(line, reports[j].status, reports[j].detail) != line
    ensures !AnyLossAgrees(feed, h, reports, stamps)
  {
    var bare, early := Leg(h, false), Leg(j, true);
    var d, e := DeliveryOf(bare, reports, stamps), DeliveryOf(early, reports, stamps);
    assert stamps[j] < stamps[h];
    LegShows(feed, bare, reports, stamps);
    LegShows(feed, early, reports, stamps);
    LegShows(Deliver(feed, e), bare, reports, stamps);
    OneLegReaches(bare, reports, stamps);
    TwoLegsReach(early, bare, reports, stamps);
    RunOne(feed, d);
    RunCons(feed, e, [d]);
    RunOne(Deliver(feed, e), d);
    DisagreeWithLoss(feed, [d], [bare], [e] + [d], [early] + [bare], h, reports, stamps);
  }

  /**
   * At the start of an epoch: all deliveries whose latest report is `h`, whichever of its legs arrived, end in the
   * same activity if and only if that report moves on or no report up to it changes the line on show.
   */
  lemma LossMattersExactly(feed: Feed, h: nat, reports: seq<Report>, stamps: seq<nat>)
    requires Stamped(reports, stamps) && Usable(stamps) && h < |reports|
    requires feed.mark == None && WellFormed(feed.session.activity)
    ensures AnyLossAgrees(feed, h, reports, stamps) <==> LossFree(feed.session.activity, reports, h)
  {
    if LossFree(feed.session.activity, reports, h) {
      LossIsFree(feed, h, reports, stamps);
    } else {
      var line := OnShow(feed.session.activity);
      var j :| 0 <= j <= h && Leaves(line, reports[j].status, reports[j].detail) != line;
      if j == h {
        OwnDetailLost(feed, h, reports, stamps);
      } else {
        EarlierDetailStays(feed, j, h, reports, stamps);
      }
    }
  }

  // ----- three frames -----

  const ASKED := Report(RequiresAction, Some("Proceed?"))
  const MOVED := Report(Running, None)
  const ASKED_BARE := Report(RequiresAction, None)

  /** A question, a `running` and a bare `requires_action`, as frames: the last two swapped show the old question. */
  lemma SwappedFramesShow(id: string, mode: PermissionMode, now: int)
    ensures var feed := Feed(None, CreateSession(id, mode, now));
            var asked := Delivery(Frame(FrameOf(ASKED, 1)), now);
            var moved := Delivery(Frame(FrameOf(MOVED, 2)), now);
            var bare := Delivery(Frame(FrameOf(ASKED_BARE, 3)), now);
            && Run(feed, [asked, moved, bare]).session.activity == Awaiting("Awaiting input.")
            && Run(feed, [asked, bare, moved]).session.activity == Awaiting("Proceed?")
  {
    var feed := Feed(None, CreateSession(id, mode, now));
    var asked, moved, bare := Delivery(Frame(FrameOf(ASKED, 1)), now), Delivery(Frame(FrameOf(MOVED, 2)), now),
                              Delivery(Frame(FrameOf(ASKED_BARE, 3)), now);
    FrameReadsBack(ASKED, 1);
    FrameReadsBack(MOVED, 2);
    FrameReadsBack(ASKED_BARE, 3);
    QuestionIsDisplayable("Proceed?");
    SwappedShow(feed, asked, moved, bare, "Proceed?");
  }

  lemma RunThree(feed: Feed, a: Delivery, b: Delivery, c: Delivery)
    ensures Run(feed, [a, b, c]) == Deliver(Deliver(Deliver(feed, a), b), c)
  {
    assert [a] + [b] == [a, b] && [a, b] + [c] == [a, b, c];
    RunOne(feed, a);
    RunLast(feed, [a], b);
    RunLast(feed, [a, b], c);
  }

  lemma QuestionIsDisplayable(s: string)
    requires s == "Proceed?"
    ensures DisplayableDetail(Some(s)) == Some(s)
  {
    assert forall i :: 0 <= i < |s| ==> 0x21 <= s[i] as int <= 0x7E;
    AsciiIsDisplayable(s, MAX_DETAIL_LENGTH);
    FixedPoints(s, MAX_DETAIL_LENGTH);
  }

  lemma Applied(feed: Feed, d: Delivery, r: Reading, stamp: nat)
    requires Read(d.input) == Some(r) && r.sequence == Some(stamp)
    requires feed.mark.Some? ==> feed.mark.value < stamp
    ensures Deliver(feed, d).mark == Some(stamp)
    ensures Deliver(feed, d).session.activity == NextActivity(feed.session.activity, r.status, r.detail)
  {
  }

  lemma SwappedShow(feed: Feed, asked: Delivery, moved: Delivery, bare: Delivery, question: string)
    requires feed.mark == None && WellFormed(feed.session.activity)
    requires DisplayableDetail(Some(question)) == Some(question)
    requires Read(asked.input) == Some(Reading(RequiresAction, Some(question), Some(1)))
    requires Read(moved.input) == Some(Reading(Running, None, Some(2)))
    requires Read(bare.input) == Some(Reading(RequiresAction, None, Some(3)))
    ensures Run(feed, [asked, moved, bare]).session.activity == Awaiting(DEFAULT_DETAIL)
    ensures Run(feed, [asked, bare, moved]).session.activity == Awaiting(question)
  {
    var first := Deliver(feed, asked);
    Applied(feed, asked, Reading(RequiresAction, Some(question), Some(1)), 1);
    StatedDetailWins(feed.session.activity, Some(question));
    ActivityStaysWellFormed(feed.session.activity, RequiresAction, Some(question));
    RunThree(feed, asked, moved, bare);
    Applied(first, moved, Reading(Running, None, Some(2)), 2);
    Applied(Deliver(first, moved), bare, Reading(RequiresAction, None, Some(3)), 3);
    RunThree(feed, asked, bare, moved);
    Applied(first, bare, Reading(RequiresAction, None, Some(3)), 3);
    BareReaffirmation(first.session.activity, None);
    assert Refuses(Deliver(first, bare), moved.input);
  }
}
