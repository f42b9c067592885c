/**
 What patched journeys look like, field by field and number by number: where car parks and bikes stand, when they are
 reached, what is ridden to and from them, and how far everything else has moved.
 */
module JourneyDetails {
  import opened JourneyModel
  import opened JourneyPlans
  import opened JourneyTheorems
  import opened JourneyResults

  // ---------------------------------------------------------------- accepted journeys

  lemma {:induction false} CountsSome<T>(v: seq<Ranged<T>>, s: nat, n: nat)
    requires n <= |v|
    ensures CountTo(v, s, n) >= 1 <==> exists k :: 0 <= k < n && v[k].from <= s < v[k].to
  {
    if n > 0 { CountsSome(v, s, n - 1); }
  }

  /** Some transport runs over segment s. */
  ghost predicate IsCovered(ts: Transports, s: int) {
    exists k :: 0 <= k < |ts| && ts[k].from <= s < ts[k].to
  }

  ghost predicate InTime(stops: seq<Stop>, i: int)
    requires 1 <= i < |stops|
  {
    stops[i].arrival.timestamp >= stops[i - 1].departure.timestamp
  }

  /** A journey of two stops or more that the check accepts can be patched, if its transports end at its stops. */
  lemma {:induction false} AcceptedInRange(j: JourneyV)
    requires Accepted(j) && |j.stops| >= 2 && forall t | t in j.transports :: t.to < |j.stops|
    ensures InRange(j)
  {
    forall k | 0 <= k < |j.transports| ensures j.transports[k].from < j.transports[k].to < |j.stops| {
      assert j.transports[k] in j.transports;
    }
  }

  /** What the check accepts: not just one stop; if there are more, transports that run forwards and leave no segment
      out; and no time before an earlier one. */
  lemma {:induction false} AcceptedWrittenOut(j: JourneyV)
    ensures Accepted(j) <==>
      && |j.stops| != 1
      && (|j.stops| >= 2 ==> forall t | t in j.transports :: t.from < t.to)
      && (forall s | 0 <= s < |j.stops| - 1 :: IsCovered(j.transports, s))
      && (forall i | 1 <= i < |j.stops| :: InTime(j.stops, i))
      && (forall x | x in j.stops :: x.arrival.valid && x.departure.valid ==>
            x.departure.timestamp >= x.arrival.timestamp)
  {
    forall s: nat ensures Count(j.transports, s) >= 1 <==> IsCovered(j.transports, s) {
      CountsSome(j.transports, s, |j.transports|);
    }
    hide Count, IsCovered;
    assert forall i | 1 <= i < |j.stops| :: LegAt(j.stops, i) <==> InTime(j.stops, i);
  }

  // ---------------------------------------------------------------- how far things move

  /** How many stops the first n plans insert before stop x. */
  function StopsBefore(plans: seq<Plan>, x: nat, n: nat): nat
    requires n <= |plans|
  {
    if n == 0 then 0 else StopsBefore(plans, x, n - 1) + if plans[n - 1].at < x then |plans[n - 1].stops| else 0
  }

  lemma {:induction false} StopsBeforeRest(plans: seq<Plan>, x: nat, n: nat)
    requires 0 < n <= |plans|
    ensures var at, m := plans[0].at, |plans[0].stops|;
      StopsBefore(plans, x, n) == (if at < x then m else 0) + StopsBefore(Rest(plans), ShiftBy(x, at + 1, m), n - 1)
  {
    if n == 1 {
      assert StopsBefore(plans, x, 0) == 0;
    } else {
      StopsBeforeRest(plans, x, n - 1);
      assert Rest(plans)[n - 2].at == ShiftBy(plans[n - 1].at, plans[0].at + 1, |plans[0].stops|);
    }
  }

  /** A stop moves by the stops inserted before it. */
  lemma {:induction false} LandingCounts(plans: seq<Plan>, x: nat)
    ensures Landing(plans, x) == x + StopsBefore(plans, x, |plans|)
    decreases |plans|
  {
    if plans != [] {
      LandingCounts(Rest(plans), ShiftBy(x, plans[0].at + 1, |plans[0].stops|));
      StopsBeforeRest(plans, x, |plans|);
      hide StopsBefore;
    }
  }

  /** The ends of a range move like stops. */
  lemma {:induction false} RangesLand(v: seq<Ranged<string>>, plans: seq<Plan>, x: nat)
    requires x < |v|
    ensures var r := RangesAfter(v, plans);
      |r| == |v| && r[x] == Ranged(Landing(plans, v[x].from), Landing(plans, v[x].to), v[x].val)
    decreases |plans|
  {
    if plans != [] { RangesLand(ShiftByAll(v, plans[0].at + 1, |plans[0].stops|), Rest(plans), x); }
  }

  /** Ranges that have moved by what `gone` says of their ends, and are otherwise as they were. */
  ghost predicate Moved(v: seq<Ranged<string>>, r: seq<Ranged<string>>, gone: nat -> nat) {
    |r| == |v| && forall x | 0 <= x < |v| ::
      r[x] == Ranged(v[x].from + gone(v[x].from), v[x].to + gone(v[x].to), v[x].val)
  }

  lemma {:induction false} RangesMoved(v: seq<Ranged<string>>, plans: seq<Plan>, gone: nat -> nat)
    requires forall x: nat :: gone(x) == StopsBefore(plans, x, |plans|)
    ensures Moved(v, RangesAfter(v, plans), gone)
  {
    RangesAfterLength(v, plans);
    forall x | 0 <= x < |v|
      ensures RangesAfter(v, plans)[x] == Ranged(v[x].from + gone(v[x].from), v[x].to + gone(v[x].to), v[x].val)
    {
      RangesLand(v, plans, x);
      LandingCounts(plans, v[x].from);
      LandingCounts(plans, v[x].to);
    }
  }

  /** Everything that is not patched: stops, trips, attributes, free texts and problems. */
  ghost predicate RestMoved(j: JourneyV, r: JourneyV, gone: nat -> nat) {
    && (forall x | 0 <= x < |j.stops| :: x + gone(x) < |r.stops| && r.stops[x + gone(x)] == j.stops[x])
    && Moved(j.trips, r.trips, gone) && Moved(j.attributes, r.attributes, gone)
    && Moved(j.freeTexts, r.freeTexts, gone) && Moved(j.problems, r.problems, gone)
  }

  lemma {:induction false} PatchedRestMoved(j: JourneyV, plans: seq<Plan>, gone: nat -> nat)
    requires Within(|j.stops|, plans) && forall x: nat :: gone(x) == StopsBefore(plans, x, |plans|)
    ensures RestMoved(j, Patched(j, plans), gone)
  {
    var r := Patched(j, plans);
    forall x | 0 <= x < |j.stops| ensures x + gone(x) < |r.stops| && r.stops[x + gone(x)] == j.stops[x] {
      StopLands(j.stops, plans, x);
      LandingCounts(plans, x);
    }
    RangesMoved(j.trips, plans, gone);
    RangesMoved(j.attributes, plans, gone);
    RangesMoved(j.freeTexts, plans, gone);
    RangesMoved(j.problems, plans, gone);
  }

  // ---------------------------------------------------------------- legs

  /** The leg from stop `at` to the next one is the first transport that ran f -> f + 1 before, but for its kind. */
  ghost predicate LegStands(j: JourneyV, r: JourneyV, f: nat, at: nat, kind: string) {
    exists k :: 0 <= k < |j.transports| && IsFirst(j.transports, f, k)
      && Ranged(at, at + 1, TransportInfo(kind, j.transports[k].val.detail)) in r.transports
  }

  ghost predicate IsFirst(ts: Transports, f: nat, k: nat)
    requires k < |ts|
  {
    ts[k].from == f && ts[k].to == f + 1 && forall x | 0 <= x < k :: ts[x].from != f || ts[x].to != f + 1
  }

  lemma {:induction false} LegWrittenOut(ts: Transports, plans: seq<Plan>, p: Plan, q: nat)
    requires HasTransport(ts, p.at, p.at + 1) && q < |p.mumos|
    ensures var k, at := Find(ts, p.at, p.at + 1), Landing(plans, p.at);
      k < |ts| && IsFirst(ts, p.at, k)
      && LegOf(ts, plans, p, q) == Ranged(at + q, at + q + 1, TransportInfo(p.mumos[q], ts[k].val.detail))
  {
    hide FindFrom, Landing;
  }

  lemma {:induction false} LegThere(j: JourneyV, r: JourneyV, f: nat, at: nat, kind: string, k: nat)
    requires k < |j.transports| && IsFirst(j.transports, f, k)
    requires Ranged(at, at + 1, TransportInfo(kind, j.transports[k].val.detail)) in r.transports
    ensures LegStands(j, r, f, at, kind)
  {}

  lemma {:induction false} PlannedLegStands(j: JourneyV, plans: seq<Plan>, c: nat, q: nat)
    requires Fits(j.transports, plans) && c < |plans| && q < |plans[c].mumos|
    ensures LegStands(j, Patched(j, plans), plans[c].at, Landing(plans, plans[c].at) + q, plans[c].mumos[q])
  {
    hide *;
    PatchedLists(j, plans);
    var f, at := plans[c].at, Landing(plans, plans[c].at);
    PlanLegLands(j.transports, plans, c, q);
    LegWrittenOut(j.transports, plans, plans[c], q);
    LegThere(j, Patched(j, plans), f, at + q, plans[c].mumos[q], Find(j.transports, f, f + 1));
  }

  lemma {:induction false} PatchedLists(j: JourneyV, plans: seq<Plan>)
    ensures Patched(j, plans).transports == TransportsAfter(j.transports, plans)
    ensures Patched(j, plans).stops == StopsAfter(j.stops, plans)
  {}

  /** No plan is for the unit this transport runs over. */
  ghost predicate NotReplaced(plans: seq<Plan>, t: Ranged<TransportInfo>) {
    forall c | 0 <= c < |plans| :: !(plans[c].at == t.from && t.to == t.from + 1)
  }

  lemma {:induction false} NotReplacedStays(plans: seq<Plan>, t: Ranged<TransportInfo>)
    requires plans != [] && NotReplaced(plans, t)
    ensures NotReplaced(Rest(plans), ShiftRange(t, plans[0].at + 1, |plans[0].stops|))
  {
    var t' := ShiftRange(t, plans[0].at + 1, |plans[0].stops|);
    forall c | 0 <= c < |Rest(plans)| ensures !(Rest(plans)[c].at == t'.from && t'.to == t'.from + 1) {
      assert !(plans[c + 1].at == t.from && t.to == t.from + 1);
      assert Rest(plans)[c].at == ShiftBy(plans[c + 1].at, plans[0].at + 1, |plans[0].stops|);
    }
  }

  lemma {:induction false} InsertKeepsTransport(ts: Transports, k: nat, mumos: seq<string>, t: Ranged<TransportInfo>)
    requires k < |ts| && |mumos| >= 1 && t in ts && t != ts[k]
    ensures ShiftRange(t, ts[k].from + 1, |mumos| - 1) in InsertTransports(ts, k, mumos)
  {
    var y :| 0 <= y < |ts| && ts[y] == t;
    var x := if y < k then y else y + |mumos| - 1;
    assert InsertTransports(ts, k, mumos)[x] == Inserted(ts, k, mumos, x);
  }

  /** A transport that is not replaced, unit or not, is there unchanged but for its ends, which move like stops. */
  lemma {:induction false} TransportLands(ts: Transports, plans: seq<Plan>, t: Ranged<TransportInfo>)
    requires Fits(ts, plans) && t in ts && NotReplaced(plans, t)
    ensures Ranged(Landing(plans, t.from), Landing(plans, t.to), t.val) in TransportsAfter(ts, plans)
    decreases |plans|
  {
    hide *;
    if plans == [] {
      NothingLands(ts, plans, t);
    } else {
      var k, at, m := Find(ts, plans[0].at, plans[0].at + 1), plans[0].at, |plans[0].stops|;
      var ts' := TransportsStep(ts, plans);
      FirstIsReplaced(plans, ts[k], t);
      InsertKeepsTransport(ts, k, plans[0].mumos, t);
      NotReplacedStays(plans, t);
      ShiftedEnds(t, at + 1, m);
      LandingStep(plans, t.from);
      LandingStep(plans, t.to);
      TransportLands(ts', Rest(plans), ShiftRange(t, at + 1, m));
    }
  }

  lemma {:induction false} NothingLands(ts: Transports, plans: seq<Plan>, t: Ranged<TransportInfo>)
    requires plans == []
    ensures Landing(plans, t.from) == t.from && Landing(plans, t.to) == t.to && TransportsAfter(ts, plans) == ts
  {}

  lemma {:induction false} FirstIsReplaced(plans: seq<Plan>, u: Ranged<TransportInfo>, t: Ranged<TransportInfo>)
    requires plans != [] && NotReplaced(plans, t) && u.from == plans[0].at && u.to == plans[0].at + 1
    ensures t != u
  {}

  lemma {:induction false} ShiftedEnds(t: Ranged<TransportInfo>, n: nat, m: nat)
    ensures ShiftRange(t, n, m) == Ranged(ShiftBy(t.from, n, m), ShiftBy(t.to, n, m), t.val)
  {}

  /** The transports no patch names, with their kinds. */
  ghost predicate TransportsMoved<E>(j: JourneyV, r: JourneyV, ps: seq<Ranged<E>>, gone: nat -> nat) {
    forall t | t in j.transports && (forall c | 0 <= c < |ps| :: !(ps[c].from == t.from && t.to == t.from + 1)) ::
      Ranged(t.from + gone(t.from), t.to + gone(t.to), t.val) in r.transports
  }

  lemma {:induction false} PatchedTransportsMoved<E>(j: JourneyV, plans: seq<Plan>, ps: seq<Ranged<E>>,
                                                     gone: nat -> nat)
    requires Fits(j.transports, plans) && forall x: nat :: gone(x) == StopsBefore(plans, x, |plans|)
    requires |ps| == |plans| && forall c | 0 <= c < |ps| :: plans[c].at == ps[c].from
    ensures TransportsMoved(j, Patched(j, plans), ps, gone)
  {
    hide Fits, TransportsAfter, StopsBefore, Landing;
    PatchedLists(j, plans);
    forall t | t in j.transports && (forall c | 0 <= c < |ps| :: !(ps[c].from == t.from && t.to == t.from + 1))
      ensures Ranged(t.from + gone(t.from), t.to + gone(t.to), t.val) in Patched(j, plans).transports
    {
      TransportLands(j.transports, plans, t);
      LandingCounts(plans, t.from);
      LandingCounts(plans, t.to);
    }
  }

  // ---------------------------------------------------------------- parking

  /** How many of the first n patches lie before stop x. */
  function PatchesBefore<E>(ps: seq<Ranged<E>>, x: nat, n: nat): nat
    requires n <= |ps|
  {
    if n == 0 then 0 else PatchesBefore(ps, x, n - 1) + if ps[n - 1].from < x then 1 else 0
  }

  lemma {:induction false} ParkingStopsBefore(stops: seq<Stop>, ps: seq<Ranged<ParkingEdge>>, x: nat, n: nat)
    requires n <= |ps|
    ensures StopsBefore(ParkingPlans(stops, ps, 0), x, n) == PatchesBefore(ps, x, n)
  {
    if n > 0 {
      ParkingStopsBefore(stops, ps, x, n - 1);
      assert ParkingPlans(stops, ps, 0)[n - 1] == ParkingPlan(stops, ps[0 + (n - 1)], 0 + (n - 1));
    }
  }

  /** Patch c of a parking list as carried out: from the start or the end point of the journey one drives to the car
      park and walks on, from elsewhere one walks to it and drives on. */
  ghost predicate ParkingStands(j: JourneyV, r: JourneyV, ps: seq<Ranged<ParkingEdge>>, c: nat)
    requires c < |ps| <= 4
  {
    var f, e := ps[c].from, ps[c].val;
    var at := f + PatchesBefore(ps, f, |ps|);
    && f + 1 < |j.stops| && at + 2 < |r.stops| && r.stops[at] == j.stops[f] && r.stops[at + 2] == j.stops[f + 1]
    && r.stops[at + 1].name == r.stops[at + 1].evaNo == "VIA" + ["0123"[c]]
    && r.stops[at + 1].lat == e.parkingPos.lat && r.stops[at + 1].lng == e.parkingPos.lng
    && r.stops[at + 1].departure == r.stops[at + 1].arrival
    && r.stops[at + 1].arrival.valid && r.stops[at + 1].arrival.reason == j.stops[f].departure.reason
    && if j.stops[f].name == "START" || j.stops[f].name == "END" then
         && ReachedAfter(j.stops[f], r.stops[at + 1], 60 * e.carDuration)
         && LegStands(j, r, f, at, "car") && LegStands(j, r, f, at + 1, "foot")
       else
         && ReachedAfter(j.stops[f], r.stops[at + 1], 60 * e.footDuration)
         && LegStands(j, r, f, at, "foot") && LegStands(j, r, f, at + 1, "car")
  }

  ghost predicate ReachedAfter(a: Stop, b: Stop, seconds: int) {
    && b.arrival.timestamp == a.departure.timestamp + seconds
    && b.arrival.scheduleTimestamp == a.departure.scheduleTimestamp + seconds
  }

  lemma {:induction false} PlannedCarPark(stops: seq<Stop>, p: Ranged<ParkingEdge>, c: nat)
    requires p.from < |stops| && c < 4
    ensures IsCarPark(stops, p, c, ParkingPlan(stops, p, c))
  {}

  ghost predicate IsCarPark(stops: seq<Stop>, p: Ranged<ParkingEdge>, c: nat, plan: Plan)
    requires p.from < |stops| && c < 4
  {
    && plan.at == p.from && |plan.stops| == 1 && |plan.mumos| == 2
    && var s, e := plan.stops[0], p.val;
    && s.name == s.evaNo == "VIA" + ["0123"[c]] && s.lat == e.parkingPos.lat && s.lng == e.parkingPos.lng
    && s.departure == s.arrival && s.arrival.valid && s.arrival.reason == stops[p.from].departure.reason
    && if stops[p.from].name == "START" || stops[p.from].name == "END" then
         ReachedAfter(stops[p.from], s, 60 * e.carDuration) && plan.mumos == ["car", "foot"]
       else ReachedAfter(stops[p.from], s, 60 * e.footDuration) && plan.mumos == ["foot", "car"]
  }

  /** One list of parking patches, written out: every patch stands as it should, everything else has moved by the number
      of patches before it, and one stop has been added for each. */
  lemma {:induction false} ParkingWrittenOut(j: JourneyV, ps: seq<Ranged<ParkingEdge>>)
    requires InRange(j) && ApplyParking(j, ps, 0).Ok?
    ensures var r := ApplyParking(j, ps, 0).value;
      && |ps| <= 4 && |r.stops| == |j.stops| + |ps| && RestMoved(j, r, x => PatchesBefore(ps, x, |ps|))
      && TransportsMoved(j, r, ps, x => PatchesBefore(ps, x, |ps|))
      && forall c | 0 <= c < |ps| :: ParkingStands(j, r, ps, c)
  {
    var plans := ParkingPlans(j.stops, ps, 0);
    ParkingAppliesIff(j, ps);
    NamesUnitsIsFits(j, ps, plans);
    FittingParkingApplies(j, ps, 0);
    ParkingKeepsValidity(j, ps);
    hide *;
    forall x: nat ensures PatchesBefore(ps, x, |ps|) == StopsBefore(plans, x, |plans|) {
      ParkingStopsBefore(j.stops, ps, x, |ps|);
    }
    PatchedRestMoved(j, plans, x => PatchesBefore(ps, x, |ps|));
    forall c: nat | c < |ps| ensures plans[c].at == ps[c].from {
      PlanOfPatch(j, ps, c);
      PlanKeepsPlace(j.stops, ps[c], c);
    }
    PatchedTransportsMoved(j, plans, ps, x => PatchesBefore(ps, x, |ps|));
    forall c: nat | c < |ps| ensures ParkingStands(j, Patched(j, plans), ps, c) {
      ParkingStandsThere(j, ps, c);
    }
  }

  /** Just the patch at stop f lies before the next stop and not before f. */
  lemma {:induction false} OneMoreBefore<E>(ps: seq<Ranged<E>>, c: nat, n: nat)
    requires c < |ps| && n <= |ps| && forall k, l | 0 <= k < l < |ps| :: ps[k].from != ps[l].from
    ensures var f := ps[c].from; PatchesBefore(ps, f + 1, n) == PatchesBefore(ps, f, n) + if c < n then 1 else 0
  {
    if n > 0 {
      OneMoreBefore(ps, c, n - 1);
      assert n - 1 != c ==> ps[n - 1].from != ps[c].from;
    }
  }

  lemma {:induction false} PlanOfPatch(j: JourneyV, ps: seq<Ranged<ParkingEdge>>, c: nat)
    requires c < |ps| && NamesUnits(j.transports, ps) && InRange(j)
    ensures ParkingPlans(j.stops, ps, 0)[c] == ParkingPlan(j.stops, ps[c], c) && ps[c].from + 1 < |j.stops|
  {
    assert ParkingPlans(j.stops, ps, 0)[c] == ParkingPlan(j.stops, ps[0 + c], 0 + c);
    assert HasTransport(j.transports, ps[c].from, ps[c].from + 1);
  }

  lemma {:induction false} PlanKeepsPlace(stops: seq<Stop>, p: Ranged<ParkingEdge>, c: nat)
    requires p.from < |stops| && c < 4
    ensures var plan := ParkingPlan(stops, p, c); plan.at == p.from && |plan.stops| == 1 && |plan.mumos| == 2
  {}

  lemma {:induction false} DistinctPlaces<E>(ts: Transports, ps: seq<Ranged<E>>)
    requires NamesUnits(ts, ps)
    ensures forall k, l | 0 <= k < l < |ps| :: ps[k].from != ps[l].from
  {}

  lemma {:induction false} ParkingStandsThere(j: JourneyV, ps: seq<Ranged<ParkingEdge>>, c: nat)
    requires InRange(j) && c < |ps| <= 4 && NamesUnits(j.transports, ps)
    requires var plans := ParkingPlans(j.stops, ps, 0); Fits(j.transports, plans) && Within(|j.stops|, plans)
    ensures ParkingStands(j, Patched(j, ParkingPlans(j.stops, ps, 0)), ps, c)
  {
    hide *;
    var plans, f := ParkingPlans(j.stops, ps, 0), ps[c].from;
    PlanOfPatch(j, ps, c);
    PlannedCarPark(j.stops, ps[c], c);
    PlanKeepsPlace(j.stops, ps[c], c);
    ParkingStopsBefore(j.stops, ps, f, |ps|);
    ParkingStopsBefore(j.stops, ps, f + 1, |ps|);
    DistinctPlaces(j.transports, ps);
    OneMoreBefore(ps, c, |ps|);
    PlanStands(j, plans, c);
    PlannedLegStands(j, plans, c, 0);
    PlannedLegStands(j, plans, c, 1);
    ParkingStandsAs(j, Patched(j, plans), ps, c, plans[c]);
  }

  /** Put together from the plan. */
  lemma {:induction false} ParkingStandsAs(j: JourneyV, r: JourneyV, ps: seq<Ranged<ParkingEdge>>, c: nat, plan: Plan)
    requires c < |ps| <= 4 && ps[c].from + 1 < |j.stops| && |plan.stops| == 1 && |plan.mumos| == 2
    requires var f := ps[c].from; var at := f + PatchesBefore(ps, f, |ps|);
      && at + 2 < |r.stops|
      && r.stops[at] == j.stops[f] && r.stops[at + 1] == plan.stops[0] && r.stops[at + 2] == j.stops[f + 1]
      && LegStands(j, r, f, at, plan.mumos[0]) && LegStands(j, r, f, at + 1, plan.mumos[1])
    requires IsCarPark(j.stops, ps[c], c, plan)
    ensures ParkingStands(j, r, ps, c)
  {
    hide LegStands, PatchesBefore;
  }

  /** The result is accepted iff the journey was, and for every patch the way to its car park is not longer than there
      is time: driven from the start or the end point of the journey, walked from elsewhere. */
  lemma {:induction false} ParkingAcceptedWrittenOut(j: JourneyV, ps: seq<Ranged<ParkingEdge>>)
    requires InRange(j) && ApplyParking(j, ps, 0).Ok?
    ensures Accepted(ApplyParking(j, ps, 0).value) <==>
      Accepted(j) && forall c | 0 <= c < |ps| :: ps[c].from + 1 < |j.stops| && HasTimeToPark(j.stops, ps[c])
  {
    ParkingKeepsValidity(j, ps);
    forall c | 0 <= c < |ps| && ps[c].from + 1 < |j.stops|
      ensures HasTimeToPark(j.stops, ps[c]) <==> ParkingSlack(j.stops, ps[c]) {}
    hide Accepted, ApplyParking, HasTimeToPark, ParkingSlack;
  }

  ghost predicate HasTimeToPark(stops: seq<Stop>, p: Ranged<ParkingEdge>)
    requires p.from + 1 < |stops|
  {
    var a, b := stops[p.from], stops[p.from + 1];
    var minutes := if a.name == "START" || a.name == "END" then p.val.carDuration else p.val.footDuration;
    a.departure.timestamp + 60 * minutes <= b.arrival.timestamp
  }

  // ---------------------------------------------------------------- bikes

  /** How many stops the first n bike patches insert before stop x: two for a bike station at either end, else one. */
  function BikeStopsBefore(gs: seq<Ranged<GbfsEdge>>, x: nat, n: nat): nat
    requires n <= |gs|
  {
    if n == 0 then 0
    else
      BikeStopsBefore(gs, x, n - 1)
      + if gs[n - 1].from >= x then 0 else if gs[n - 1].val.bike.StationBike? then 2 else 1
  }

  lemma {:induction false} GbfsStopsBefore(stops: seq<Stop>, gs: seq<Ranged<GbfsEdge>>, x: nat, n: nat)
    requires n <= |gs|
    ensures StopsBefore(BikePlans(stops, gs, 0), x, n) == BikeStopsBefore(gs, x, n)
  {
    if n > 0 {
      GbfsStopsBefore(stops, gs, x, n - 1);
      assert BikePlans(stops, gs, 0)[n - 1] == BikePlan(stops, gs[0 + (n - 1)]);
    }
  }

  /** A stop where a bike is taken or left: reached so many seconds after stop `a` was left, with no other schedule. */
  ghost predicate BikeStands(a: Stop, b: Stop, seconds: int, name: string, id: string, pos: Pos) {
    && b.name == name && b.evaNo == id && b.lat == pos.lat && b.lng == pos.lng
    && b.departure == b.arrival && b.arrival.valid && b.arrival.reason == a.departure.reason
    && b.arrival.timestamp == a.departure.timestamp + seconds && b.arrival.scheduleTimestamp == b.arrival.timestamp
  }

  /** Patch c of a bike list as carried out: to a free bike on foot and on by it; or on foot to a station, by bike to
      another, and on foot on. */
  ghost predicate RideStands(j: JourneyV, r: JourneyV, gs: seq<Ranged<GbfsEdge>>, c: nat)
    requires c < |gs|
  {
    var f := gs[c].from;
    var at := f + BikeStopsBefore(gs, f, |gs|);
    && f + 1 < |j.stops| && at + 1 < |r.stops| && r.stops[at] == j.stops[f]
    && match gs[c].val.bike
       case FreeBike(walk, _, id, pos) =>
         && at + 2 < |r.stops| && r.stops[at + 2] == j.stops[f + 1]
         && BikeStands(j.stops[f], r.stops[at + 1], 60 * walk, id, id, pos)
         && LegStands(j, r, f, at, "foot") && LegStands(j, r, f, at + 1, "bike")
       case StationBike(firstWalk, bike, _, fromName, fromId, fromPos, toName, toId, toPos) =>
         && at + 3 < |r.stops| && r.stops[at + 3] == j.stops[f + 1]
         && BikeStands(j.stops[f], r.stops[at + 1], 60 * firstWalk, fromName, fromId, fromPos)
         && BikeStands(j.stops[f], r.stops[at + 2], 60 * firstWalk + 60 * bike, toName, toId, toPos)
         && LegStands(j, r, f, at, "foot") && LegStands(j, r, f, at + 1, gs[c].val.vehicleType)
         && LegStands(j, r, f, at + 2, "foot")
  }

  /** What the plan of a bike patch holds. */
  ghost predicate IsRide(stops: seq<Stop>, p: Ranged<GbfsEdge>, plan: Plan)
    requires p.from < |stops|
  {
    && plan.at == p.from
    && match p.val.bike
       case FreeBike(walk, _, id, pos) =>
         && |plan.stops| == 1 && plan.mumos == ["foot", "bike"]
         && BikeStands(stops[p.from], plan.stops[0], 60 * walk, id, id, pos)
       case StationBike(firstWalk, bike, _, fromName, fromId, fromPos, toName, toId, toPos) =>
         && |plan.stops| == 2 && plan.mumos == ["foot", p.val.vehicleType, "foot"]
         && BikeStands(stops[p.from], plan.stops[0], 60 * firstWalk, fromName, fromId, fromPos)
         && BikeStands(stops[p.from], plan.stops[1], 60 * firstWalk + 60 * bike, toName, toId, toPos)
  }

  lemma {:induction false} PlannedRide(stops: seq<Stop>, p: Ranged<GbfsEdge>)
    requires p.from < |stops|
    ensures IsRide(stops, p, BikePlan(stops, p))
  {}

  lemma {:induction false} RidePlaces(stops: seq<Stop>, p: Ranged<GbfsEdge>, plan: Plan)
    requires p.from < |stops| && IsRide(stops, p, plan)
    ensures plan.at == p.from && |plan.stops| == if p.val.bike.StationBike? then 2 else 1
  {}

  lemma {:induction false} PlanOfRide(j: JourneyV, gs: seq<Ranged<GbfsEdge>>, c: nat)
    requires c < |gs| && NamesUnits(j.transports, gs) && InRange(j)
    ensures BikePlans(j.stops, gs, 0)[c] == BikePlan(j.stops, gs[c]) && gs[c].from + 1 < |j.stops|
  {
    assert BikePlans(j.stops, gs, 0)[c] == BikePlan(j.stops, gs[0 + c]);
    assert HasTransport(j.transports, gs[c].from, gs[c].from + 1);
  }

  lemma {:induction false} OneMoreRideBefore(gs: seq<Ranged<GbfsEdge>>, c: nat, n: nat)
    requires c < |gs| && n <= |gs| && forall k, l | 0 <= k < l < |gs| :: gs[k].from != gs[l].from
    ensures var f := gs[c].from;
      BikeStopsBefore(gs, f + 1, n) ==
      BikeStopsBefore(gs, f, n) + if c >= n then 0 else if gs[c].val.bike.StationBike? then 2 else 1
  {
    if n > 0 {
      OneMoreRideBefore(gs, c, n - 1);
      assert n - 1 != c ==> gs[n - 1].from != gs[c].from;
    }
  }

  /** A plan, and what stands around it. */
  lemma {:induction false} PlanStands(j: JourneyV, plans: seq<Plan>, c: nat)
    requires Within(|j.stops|, plans) && c < |plans| && plans[c].at + 1 < |j.stops|
    requires StopsBefore(plans, plans[c].at + 1, |plans|) == StopsBefore(plans, plans[c].at, |plans|) + |plans[c].stops|
    ensures var f, r, m := plans[c].at, Patched(j, plans), |plans[c].stops|; var at := Landing(plans, f);
      && at == f + StopsBefore(plans, f, |plans|) && at + m + 1 < |r.stops|
      && r.stops[at] == j.stops[f] && r.stops[at + m + 1] == j.stops[f + 1]
      && r.stops[at + 1] == plans[c].stops[0] && r.stops[at + m] == plans[c].stops[m - 1]
  {
    hide *;
    var f, m := plans[c].at, |plans[c].stops|;
    PatchedLists(j, plans);
    LandingCounts(plans, f);
    LandingCounts(plans, f + 1);
    StopLands(j.stops, plans, f);
    StopLands(j.stops, plans, f + 1);
    PlanStopLands(j.stops, plans, c, 0);
    PlanStopLands(j.stops, plans, c, m - 1);
  }

  lemma {:induction false} RideStandsThere(j: JourneyV, gs: seq<Ranged<GbfsEdge>>, c: nat)
    requires InRange(j) && c < |gs| && NamesUnits(j.transports, gs)
    requires var plans := BikePlans(j.stops, gs, 0); Fits(j.transports, plans) && Within(|j.stops|, plans)
    ensures RideStands(j, Patched(j, BikePlans(j.stops, gs, 0)), gs, c)
  {
    hide *;
    var plans, f := BikePlans(j.stops, gs, 0), gs[c].from;
    PlanOfRide(j, gs, c);
    PlannedRide(j.stops, gs[c]);
    RidePlaces(j.stops, gs[c], plans[c]);
    GbfsStopsBefore(j.stops, gs, f, |gs|);
    GbfsStopsBefore(j.stops, gs, f + 1, |gs|);
    DistinctPlaces(j.transports, gs);
    OneMoreRideBefore(gs, c, |gs|);
    PlanStands(j, plans, c);
    PlannedLegStands(j, plans, c, 0);
    PlannedLegStands(j, plans, c, 1);
    if gs[c].val.bike.StationBike? { PlannedLegStands(j, plans, c, 2); }
    RideStandsAs(j, Patched(j, plans), gs, c, plans[c]);
  }

  /** Put together from the plan. */
  lemma {:induction false} RideStandsAs(j: JourneyV, r: JourneyV, gs: seq<Ranged<GbfsEdge>>, c: nat, plan: Plan)
    requires c < |gs| && gs[c].from + 1 < |j.stops| && IsRide(j.stops, gs[c], plan)
    requires var f, m := gs[c].from, |plan.stops|; var at := f + BikeStopsBefore(gs, f, |gs|);
      && at + m + 1 < |r.stops| && r.stops[at] == j.stops[f] && r.stops[at + m + 1] == j.stops[f + 1]
      && r.stops[at + 1] == plan.stops[0] && r.stops[at + m] == plan.stops[m - 1]
      && LegStands(j, r, f, at, plan.mumos[0]) && LegStands(j, r, f, at + 1, plan.mumos[1])
      && (m == 2 ==> LegStands(j, r, f, at + 2, plan.mumos[2]))
    ensures RideStands(j, r, gs, c)
  {
    hide LegStands, BikeStopsBefore, BikeStands;
  }

  /** One list of bike patches, written out. */
  lemma {:induction false} GbfsWrittenOut(j: JourneyV, gs: seq<Ranged<GbfsEdge>>)
    requires InRange(j) && ApplyGbfs(j, gs, 0).Ok?
    ensures var r := ApplyGbfs(j, gs, 0).value;
      && RestMoved(j, r, x => BikeStopsBefore(gs, x, |gs|))
        && TransportsMoved(j, r, gs, x => BikeStopsBefore(gs, x, |gs|))
      && forall c | 0 <= c < |gs| :: RideStands(j, r, gs, c)
  {
    var plans := BikePlans(j.stops, gs, 0);
    GbfsAppliesIff(j, gs);
    NamesUnitsIsFits(j, gs, plans);
    FittingGbfsApplies(j, gs, 0);
    hide *;
    forall x: nat ensures BikeStopsBefore(gs, x, |gs|) == StopsBefore(plans, x, |plans|) {
      GbfsStopsBefore(j.stops, gs, x, |gs|);
    }
    PatchedRestMoved(j, plans, x => BikeStopsBefore(gs, x, |gs|));
    forall c: nat | c < |gs| ensures plans[c].at == gs[c].from {
      PlanOfRide(j, gs, c);
      PlannedRide(j.stops, gs[c]);
      RidePlaces(j.stops, gs[c], plans[c]);
    }
    PatchedTransportsMoved(j, plans, gs, x => BikeStopsBefore(gs, x, |gs|));
    forall c: nat | c < |gs| ensures RideStands(j, Patched(j, plans), gs, c) {
      RideStandsThere(j, gs, c);
    }
  }

  /** The result is accepted iff the journey was, and every patch has time enough up to its last bike stop. */
  lemma {:induction false} GbfsAcceptedWrittenOut(j: JourneyV, gs: seq<Ranged<GbfsEdge>>)
    requires InRange(j) && ApplyGbfs(j, gs, 0).Ok?
    ensures Accepted(ApplyGbfs(j, gs, 0).value) <==>
      Accepted(j) && forall c | 0 <= c < |gs| :: gs[c].from + 1 < |j.stops| && HasTimeToRide(j.stops, gs[c])
  {
    GbfsKeepsValidity(j, gs);
    forall c | 0 <= c < |gs| && gs[c].from + 1 < |j.stops|
      ensures HasTimeToRide(j.stops, gs[c]) <==> BikeSlack(j.stops, gs[c]) {}
    hide Accepted, ApplyGbfs, HasTimeToRide, BikeSlack;
  }

  ghost predicate HasTimeToRide(stops: seq<Stop>, p: Ranged<GbfsEdge>)
    requires p.from + 1 < |stops|
  {
    var minutes := match p.val.bike
      case FreeBike(walk, _, _, _) => walk
      case StationBike(firstWalk, bike, _, _, _, _, _, _, _) => firstWalk + bike;
    stops[p.from].departure.timestamp + 60 * minutes <= stops[p.from + 1].arrival.timestamp
  }
}
