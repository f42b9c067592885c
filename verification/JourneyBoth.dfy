/**
 Both patch lists, one after the other: exactly when they apply, exactly when the result is accepted, and where
 everything stands then, bike patches that have lost their segment included.
 */
module JourneyBoth {
  import opened JourneyModel
  import opened JourneyPlans
  import opened JourneyTheorems
  import opened JourneyResults

  // ---------------------------------------------------------------- units come from units

  lemma {:induction false} UnitOrigin(ts: Transports, k: nat, mumos: seq<string>, g: nat)
    requires k < |ts| && ts[k].to == ts[k].from + 1 && |mumos| >= 2
    ensures var o := OriginBy(g, ts[k].from, |mumos| - 1);
      HasTransport(InsertTransports(ts, k, mumos), g, g + 1) <==> HasTransport(ts, o, o + 1)
  {
    var f, m := ts[k].from, |mumos| - 1;
    if f <= g <= f + m {
      InsertedLeg(ts, k, mumos, g - f);
      assert HasTransport(ts, f, f + 1);
    } else {
      hide InsertTransports, HasTransport;
      InsertHasTransport(ts, k, mumos, if g < f then g else g - m);
    }
  }

  lemma {:induction false} NothingMoves(ts: Transports, ps: seq<Plan>, g: nat)
    requires ps == []
    ensures OriginAfter(ps, g) == g && TransportsAfter(ts, ps) == ts
  {}

  lemma {:induction false} OriginStep(ps: seq<Plan>, s: nat)
    requires ps != []
    ensures OriginAfter(ps, s) == OriginBy(OriginAfter(Rest(ps), s), ps[0].at, |ps[0].stops|)
  {}

  /** After a list of plans a segment is ridden by a transport of just that segment iff the one it came from was. */
  lemma {:induction false} UnitOriginAfter(ts: Transports, ps: seq<Plan>, g: nat)
    requires Fits(ts, ps)
    ensures var o := OriginAfter(ps, g); HasTransport(TransportsAfter(ts, ps), g, g + 1) <==> HasTransport(ts, o, o + 1)
    decreases |ps|
  {
    hide *;
    if ps == [] {
      NothingMoves(ts, ps, g);
    } else {
      OriginStep(ps, g);
      var k := Find(ts, ps[0].at, ps[0].at + 1);
      var ts' := TransportsStep(ts, ps);
      UnitOriginAfter(ts', Rest(ps), g);
      UnitOrigin(ts, k, ps[0].mumos, OriginAfter(Rest(ps), g));
    }
  }

  // ---------------------------------------------------------------- when both lists apply

  /** Bike patches name different segments, each of which came from one ridden by a transport of just that segment. */
  ghost predicate NamesOrigins(ts: Transports, plans: seq<Plan>, gs: seq<Ranged<GbfsEdge>>) {
    && (forall l | 0 <= l < |gs| :: gs[l].to == gs[l].from + 1 && OriginIsUnit(ts, plans, gs[l].from))
    && forall k, l | 0 <= k < l < |gs| :: gs[k].from != gs[l].from
  }

  ghost predicate OriginIsUnit(ts: Transports, plans: seq<Plan>, g: nat) {
    HasTransport(ts, OriginAfter(plans, g), OriginAfter(plans, g) + 1)
  }

  lemma {:induction false} NamesOriginsIff(ts: Transports, plans: seq<Plan>, gs: seq<Ranged<GbfsEdge>>)
    requires Fits(ts, plans)
    ensures NamesUnits(TransportsAfter(ts, plans), gs) <==> NamesOrigins(ts, plans, gs)
  {
    var after := TransportsAfter(ts, plans);
    forall l | 0 <= l < |gs|
      ensures HasTransport(after, gs[l].from, gs[l].from + 1) <==> OriginIsUnit(ts, plans, gs[l].from) {
      UnitOriginAfter(ts, plans, gs[l].from);
    }
    hide HasTransport, OriginIsUnit, TransportsAfter;
    if NamesUnits(after, gs) {
      forall l | 0 <= l < |gs| ensures OriginIsUnit(ts, plans, gs[l].from) {
        assert HasTransport(after, gs[l].from, gs[l].from + 1);
      }
    }
    if NamesOrigins(ts, plans, gs) {
      forall l | 0 <= l < |gs| ensures HasTransport(after, gs[l].from, gs[l].from + 1) {
        assert OriginIsUnit(ts, plans, gs[l].from);
      }
    }
  }

  lemma {:induction false} ParkingIsPatched(j: JourneyV, ps: seq<Ranged<ParkingEdge>>)
    requires InRange(j) && ApplyParking(j, ps, 0).Ok?
    ensures var plans := ParkingPlans(j.stops, ps, 0);
      && ApplyParking(j, ps, 0).value == Patched(j, plans) && InRange(Patched(j, plans))
      && Fits(j.transports, plans) && Within(|j.stops|, plans)
  {
    var plans := ParkingPlans(j.stops, ps, 0);
    ParkingAppliesIff(j, ps);
    NamesUnitsIsFits(j, ps, plans);
    FittingParkingApplies(j, ps, 0);
    ParkingKeepsValidity(j, ps);
  }

  lemma {:induction false} BikesArePatched(j: JourneyV, gs: seq<Ranged<GbfsEdge>>)
    requires InRange(j) && ApplyGbfs(j, gs, 0).Ok?
    ensures var bikes := BikePlans(j.stops, gs, 0);
      ApplyGbfs(j, gs, 0).value == Patched(j, bikes) && Fits(j.transports, bikes) && Within(|j.stops|, bikes)
  {
    var bikes := BikePlans(j.stops, gs, 0);
    GbfsAppliesIff(j, gs);
    NamesUnitsIsFits(j, gs, bikes);
    FittingGbfsApplies(j, gs, 0);
    GbfsKeepsValidity(j, gs);
  }

  /** No error is raised iff there are at most four parking patches, these name different unit transports, and the bike
      patches name different segments that came from such. */
  lemma {:induction false} BothApplyIff(j: JourneyV, ps: seq<Ranged<ParkingEdge>>, gs: seq<Ranged<GbfsEdge>>)
    requires InRange(j)
    ensures ApplyBoth(j, ps, gs).Ok? <==>
      |ps| <= MAX_PARKING_PATCHES && NamesUnits(j.transports, ps)
        && NamesOrigins(j.transports, ParkingPlans(j.stops, ps, 0), gs)
  {
    hide ApplyParking, ApplyGbfs, NamesUnits, NamesOrigins;
    ParkingAppliesIff(j, ps);
    if ApplyParking(j, ps, 0).Ok? {
      var r := ApplyParking(j, ps, 0).value;
      ParkingIsPatched(j, ps);
      GbfsAppliesIff(r, gs);
      NamesOriginsIff(j.transports, ParkingPlans(j.stops, ps, 0), gs);
    }
  }

  /** If both apply, the result is accepted iff the journey was, every parking patch has time enough in it, and every
      bike patch has between the stops that are where its numbers point to after the parking patches. */
  lemma {:induction false} BothAcceptedIff(j: JourneyV, ps: seq<Ranged<ParkingEdge>>, gs: seq<Ranged<GbfsEdge>>)
    requires InRange(j) && ApplyBoth(j, ps, gs).Ok?
    ensures Accepted(ApplyBoth(j, ps, gs).value) <==>
      Accepted(j) && AllParkingSlack(j.stops, ps) && AllBikeSlack(StopsAfter(j.stops, ParkingPlans(j.stops, ps, 0)), gs)
  {
    hide ApplyParking, ApplyGbfs, Accepted, NamesUnits, Within, StopsAfter;
    ParkingIsPatched(j, ps);
    var r := ApplyParking(j, ps, 0).value;
    ParkingKeepsValidity(j, ps);
    GbfsKeepsValidity(r, gs);
    assert r.stops == StopsAfter(j.stops, ParkingPlans(j.stops, ps, 0));
  }

  // ---------------------------------------------------------------- where everything stands

  /** A parking leg that no bike patch takes is still there, and so are the car parks. */
  ghost predicate ParkingStays(j: JourneyV, r: JourneyV, plans: seq<Plan>, bikes: seq<Plan>, c: nat, q: nat)
    requires c < |plans| && q < |plans[c].mumos| && HasTransport(j.transports, plans[c].at, plans[c].at + 1)
  {
    var at, leg := Landing(plans, plans[c].at), LegOf(j.transports, plans, plans[c], q);
    && (q < |plans[c].stops| ==>
          Landing(bikes, at + 1 + q) < |r.stops| && r.stops[Landing(bikes, at + 1 + q)] == plans[c].stops[q])
    && (Avoids(bikes, at + q) ==> Ranged(Landing(bikes, at + q), Landing(bikes, at + q) + 1, leg.val) in r.transports)
  }

  /** The bike patch is carried out on the journey as the parking patches have left it. */
  ghost predicate BikeCarriedOut(mid: JourneyV, r: JourneyV, bikes: seq<Plan>, d: nat)
    requires d < |bikes|
  {
    HasTransport(mid.transports, bikes[d].at, bikes[d].at + 1) && CarriedOut(mid, r, bikes, d)
  }

  lemma {:induction false} ParkingLegStays(j: JourneyV, plans: seq<Plan>, bikes: seq<Plan>, c: nat, q: nat)
    requires Fits(j.transports, plans) && Within(|j.stops|, plans) && c < |plans| && q < |plans[c].mumos|
    requires Fits(TransportsAfter(j.transports, plans), bikes) && Within(|StopsAfter(j.stops, plans)|, bikes)
    ensures HasTransport(j.transports, plans[c].at, plans[c].at + 1)
    ensures ParkingStays(j, Patched(Patched(j, plans), bikes), plans, bikes, c, q)
  {
    hide TransportsAfter, StopsAfter, Landing, Fits, Within;
    PlanLegLands(j.transports, plans, c, q);
    var ts, leg := TransportsAfter(j.transports, plans), LegOf(j.transports, plans, plans[c], q);
    var y :| 0 <= y < |ts| && ts[y] == leg;
    if Avoids(bikes, leg.from) { UnitLands(ts, bikes, y); }
    if q < |plans[c].stops| {
      PlanStopLands(j.stops, plans, c, q);
      StopLands(StopsAfter(j.stops, plans), bikes, Landing(plans, plans[c].at) + 1 + q);
    }
  }

  /** What both lists leave behind: every new segment is covered as the one it came from, every old stop stands at its
      place, every car park does, every parking leg not taken by a bike does, and every bike patch d is carried out. */
  lemma {:induction false} BothResult(j: JourneyV, ps: seq<Ranged<ParkingEdge>>, gs: seq<Ranged<GbfsEdge>>, s: nat,
                                      x: nat, c: nat, q: nat, d: nat)
    requires InRange(j) && ApplyBoth(j, ps, gs).Ok?
    ensures var plans := ParkingPlans(j.stops, ps, 0);
      var bikes := BikePlans(StopsAfter(j.stops, plans), gs, 0);
      var r, o := ApplyBoth(j, ps, gs).value, OriginAfter(plans, OriginAfter(bikes, s));
      && r == Patched(Patched(j, plans), bikes)
      && Riders(r.transports, s) == Riders(j.transports, o)
      && SameCover(j.trips, r.trips, o, s) && SameCover(j.attributes, r.attributes, o, s)
      && SameCover(j.freeTexts, r.freeTexts, o, s) && SameCover(j.problems, r.problems, o, s)
      && (x < |j.stops| ==>
        Landing(bikes, Landing(plans, x)) < |r.stops|
        && r.stops[Landing(bikes, Landing(plans, x))] == j.stops[x])
      && (c < |plans| && q < |plans[c].mumos| ==>
            HasTransport(j.transports, plans[c].at, plans[c].at + 1) && ParkingStays(j, r, plans, bikes, c, q))
      && (d < |bikes| ==> BikeCarriedOut(Patched(j, plans), r, bikes, d))
  {
    hide *;
    var plans := ParkingPlans(j.stops, ps, 0);
    BothArePatched(j, ps, gs);
    var bikes := BikePlans(StopsAfter(j.stops, plans), gs, 0);
    var mid := Patched(j, plans);
    CoverTwice(j, plans, bikes, s);
    if x < |j.stops| {
      StopLands(j.stops, plans, x);
      StopLands(StopsAfter(j.stops, plans), bikes, Landing(plans, x));
    }
    if c < |plans| && q < |plans[c].mumos| { ParkingLegStays(j, plans, bikes, c, q); }
    if d < |bikes| { BikeIsCarriedOut(mid, bikes, d); }
  }

  lemma {:induction false} BikeIsCarriedOut(mid: JourneyV, bikes: seq<Plan>, d: nat)
    requires Fits(mid.transports, bikes) && Within(|mid.stops|, bikes) && d < |bikes|
    ensures BikeCarriedOut(mid, Patched(mid, bikes), bikes, d)
  {
    PatchedCarriedOut(mid, bikes, d);
  }

  lemma {:induction false} BothArePatched(j: JourneyV, ps: seq<Ranged<ParkingEdge>>, gs: seq<Ranged<GbfsEdge>>)
    requires InRange(j) && ApplyBoth(j, ps, gs).Ok?
    ensures var plans := ParkingPlans(j.stops, ps, 0);
      var bikes, mid := BikePlans(StopsAfter(j.stops, plans), gs, 0), Patched(j, plans);
      && Fits(j.transports, plans) && Within(|j.stops|, plans)
      && Fits(TransportsAfter(j.transports, plans), bikes) && Within(|StopsAfter(j.stops, plans)|, bikes)
      && mid.stops == StopsAfter(j.stops, plans) && mid.transports == TransportsAfter(j.transports, plans)
      && ApplyBoth(j, ps, gs).value == Patched(mid, bikes)
      && Patched(mid, bikes).stops == StopsAfter(mid.stops, bikes)
  {
    hide ApplyParking, ApplyGbfs, Fits, Within, StopsAfter, TransportsAfter, RangesAfter;
    ParkingIsPatched(j, ps);
    BikesArePatched(ApplyParking(j, ps, 0).value, gs);
  }

  lemma {:induction false} CoverTwice(j: JourneyV, plans: seq<Plan>, bikes: seq<Plan>, s: nat)
    requires Fits(j.transports, plans) && Fits(TransportsAfter(j.transports, plans), bikes)
    ensures var r, o := Patched(Patched(j, plans), bikes), OriginAfter(plans, OriginAfter(bikes, s));
      && Riders(r.transports, s) == Riders(j.transports, o)
      && SameCover(j.trips, r.trips, o, s) && SameCover(j.attributes, r.attributes, o, s)
      && SameCover(j.freeTexts, r.freeTexts, o, s) && SameCover(j.problems, r.problems, o, s)
  {
    hide Fits, TransportsAfter, RangesAfter, OriginAfter, Riders, SameCover;
    var mid := Patched(j, plans);
    PatchedCover(j, plans, OriginAfter(bikes, s));
    PatchedCover(mid, bikes, s);
    var m, o := OriginAfter(bikes, s), OriginAfter(plans, OriginAfter(bikes, s));
    var r := Patched(mid, bikes);
    SameCoverTwice(j.trips, mid.trips, r.trips, o, m, s);
    SameCoverTwice(j.attributes, mid.attributes, r.attributes, o, m, s);
    SameCoverTwice(j.freeTexts, mid.freeTexts, r.freeTexts, o, m, s);
    SameCoverTwice(j.problems, mid.problems, r.problems, o, m, s);
  }

  lemma {:induction false} SameCoverTwice(u: seq<Ranged<string>>, v: seq<Ranged<string>>, w: seq<Ranged<string>>,
                                          o: nat, m: nat, s: nat)
    requires SameCover(u, v, o, m) && SameCover(v, w, m, s)
    ensures SameCover(u, w, o, s)
  {
    hide Covers;
    forall x | 0 <= x < |u| ensures w[x].val == u[x].val && (Covers(w[x], s) <==> Covers(u[x], o)) {
      assert v[x].val == u[x].val;
    }
  }

  /** If all bike patches lie before all parking patches, no bike takes a parking leg. */
  lemma {:induction false} BikesKeepOffParking(j: JourneyV, ps: seq<Ranged<ParkingEdge>>, gs: seq<Ranged<GbfsEdge>>,
                                               c: nat, q: nat)
    requires BikesFirst(ps, gs) && c < |ps|
    ensures var plans := ParkingPlans(j.stops, ps, 0);
      Avoids(BikePlans(StopsAfter(j.stops, plans), gs, 0), Landing(plans, plans[c].at) + q)
  {
    var plans := ParkingPlans(j.stops, ps, 0);
    var bikes := BikePlans(StopsAfter(j.stops, plans), gs, 0);
    LandingNotBefore(plans, plans[c].at);
    assert plans[c] == ParkingPlan(j.stops, ps[0 + c], 0 + c);
    forall d | 0 <= d < |bikes| ensures bikes[d].at != Landing(plans, plans[c].at) + q {
      assert bikes[d] == BikePlan(StopsAfter(j.stops, plans), gs[0 + d]);
      assert gs[d].from < ps[c].from;
    }
  }

  lemma {:induction false} LandingNotBefore(plans: seq<Plan>, x: nat)
    ensures Landing(plans, x) >= x
    decreases |plans|
  {
    if plans != [] { LandingNotBefore(Rest(plans), ShiftBy(x, plans[0].at + 1, |plans[0].stops|)); }
  }
}
