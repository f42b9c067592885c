/**
 Where everything stands after a patch list, and the two lists one after the other, as the program applies them.
 */
module JourneyResults {
  import opened JourneyModel
  import opened JourneyPlans
  import opened JourneyTheorems

  // ---------------------------------------------------------------- one list

  /** Every new segment is covered by the transports, trips, attributes, free texts and problems that covered its
      origin. */
  ghost predicate CoverPreserved(j: JourneyV, r: JourneyV, plans: seq<Plan>, s: nat) {
    var o := OriginAfter(plans, s);
    && Riders(r.transports, s) == Riders(j.transports, o)
    && SameCover(j.trips, r.trips, o, s) && SameCover(j.attributes, r.attributes, o, s)
    && SameCover(j.freeTexts, r.freeTexts, o, s) && SameCover(j.problems, r.problems, o, s)
  }

  ghost predicate SameCover(v: seq<Ranged<string>>, v': seq<Ranged<string>>, o: nat, s: nat) {
    |v'| == |v| && forall x | 0 <= x < |v| :: v'[x].val == v[x].val && (Covers(v'[x], s) <==> Covers(v[x], o))
  }

  lemma {:induction false} RangesSameCover(v: seq<Ranged<string>>, plans: seq<Plan>, s: nat)
    ensures SameCover(v, RangesAfter(v, plans), OriginAfter(plans, s), s)
  {
    RangesAfterLength(v, plans);
    forall x | 0 <= x < |v|
      ensures RangesAfter(v, plans)[x].val == v[x].val
          && (Covers(RangesAfter(v, plans)[x], s) <==> Covers(v[x], OriginAfter(plans, s)))
    {
      RangesAfterCover(v, plans, x, s);
    }
  }

  lemma {:induction false} RangesAfterLength(v: seq<Ranged<string>>, plans: seq<Plan>)
    ensures |RangesAfter(v, plans)| == |v|
    decreases |plans|
  {
    if plans != [] { RangesAfterLength(ShiftByAll(v, plans[0].at + 1, |plans[0].stops|), Rest(plans)); }
  }

  lemma {:induction false} PatchedCover(j: JourneyV, plans: seq<Plan>, s: nat)
    requires Fits(j.transports, plans)
    ensures CoverPreserved(j, Patched(j, plans), plans, s)
  {
    RidersAfter(j.transports, plans, s);
    RangesSameCover(j.trips, plans, s);
    RangesSameCover(j.attributes, plans, s);
    RangesSameCover(j.freeTexts, plans, s);
    RangesSameCover(j.problems, plans, s);
  }

  /** Patch c is carried out: its stops stand behind the stop it starts from, and its legs run between them. */
  ghost predicate CarriedOut(j: JourneyV, r: JourneyV, plans: seq<Plan>, c: nat)
    requires c < |plans| && HasTransport(j.transports, plans[c].at, plans[c].at + 1)
  {
    var p := plans[c];
    var at := Landing(plans, p.at);
    && at + |p.stops| < |r.stops|
    && (forall q | 0 <= q < |p.stops| :: r.stops[at + 1 + q] == p.stops[q])
    && (forall q | 0 <= q < |p.mumos| :: LegOf(j.transports, plans, p, q) in r.transports)
  }

  lemma {:induction false} PatchedCarriedOut(j: JourneyV, plans: seq<Plan>, c: nat)
    requires Fits(j.transports, plans) && Within(|j.stops|, plans) && c < |plans|
    ensures HasTransport(j.transports, plans[c].at, plans[c].at + 1) && CarriedOut(j, Patched(j, plans), plans, c)
  {
    PlanStopLands(j.stops, plans, c, |plans[c].stops| - 1);
    forall q | 0 <= q < |plans[c].stops| { PlanStopLands(j.stops, plans, c, q); }
    forall q | 0 <= q < |plans[c].mumos| { PlanLegLands(j.transports, plans, c, q); }
  }

  /** What a list of plans leaves behind: every new segment s, every old stop x and every plan c. */
  ghost predicate Outcome(j: JourneyV, r: JourneyV, plans: seq<Plan>, s: nat, x: nat, c: nat) {
    && CoverPreserved(j, r, plans, s)
    && (x < |j.stops| ==> Landing(plans, x) < |r.stops| && r.stops[Landing(plans, x)] == j.stops[x])
    && (c < |plans| ==> HasTransport(j.transports, plans[c].at, plans[c].at + 1) && CarriedOut(j, r, plans, c))
  }

  lemma {:induction false} PatchedOutcome(j: JourneyV, plans: seq<Plan>, s: nat, x: nat, c: nat)
    requires Fits(j.transports, plans) && Within(|j.stops|, plans)
    ensures Outcome(j, Patched(j, plans), plans, s, x, c)
  {
    PatchedCover(j, plans, s);
    if x < |j.stops| { StopLands(j.stops, plans, x); }
    if c < |plans| { PatchedCarriedOut(j, plans, c); }
  }

  /** A parking list that applies inserts its car parks and legs where they belong, and moves everything else along. */
  lemma {:induction false} ParkingResult(j: JourneyV, ps: seq<Ranged<ParkingEdge>>, s: nat, x: nat, c: nat)
    requires InRange(j) && ApplyParking(j, ps, 0).Ok?
    ensures Outcome(j, ApplyParking(j, ps, 0).value, ParkingPlans(j.stops, ps, 0), s, x, c)
  {
    var plans := ParkingPlans(j.stops, ps, 0);
    ParkingAppliesIff(j, ps);
    NamesUnitsIsFits(j, ps, plans);
    FittingParkingApplies(j, ps, 0);
    PatchedOutcome(j, plans, s, x, c);
  }

  lemma {:induction false} GbfsResult(j: JourneyV, ps: seq<Ranged<GbfsEdge>>, s: nat, x: nat, c: nat)
    requires InRange(j) && ApplyGbfs(j, ps, 0).Ok?
    ensures Outcome(j, ApplyGbfs(j, ps, 0).value, BikePlans(j.stops, ps, 0), s, x, c)
  {
    var plans := BikePlans(j.stops, ps, 0);
    GbfsAppliesIff(j, ps);
    NamesUnitsIsFits(j, ps, plans);
    FittingGbfsApplies(j, ps, 0);
    PatchedOutcome(j, plans, s, x, c);
  }

  // ---------------------------------------------------------------- both lists, one after the other

  /** The program applies the parking patches, then the bike patches, without renumbering the latter in between. */
  function ApplyBoth(j: JourneyV, ps: seq<Ranged<ParkingEdge>>, gs: seq<Ranged<GbfsEdge>>): Result<JourneyV>
    requires InRange(j)
  {
    var r := ApplyParking(j, ps, 0);
    if r.Failed? then r else (ParkingKeepsValidity(j, ps); ApplyGbfs(r.value, gs, 0))
  }

  /** After the parking patches, a bike patch still names the segment it was made for iff no parking patch lies before
      it. */
  lemma {:induction false} TargetKeptIff(plans: seq<Plan>, g: nat)
    ensures OriginAfter(plans, g) <= g
    ensures OriginAfter(plans, g) == g <==> forall k | 0 <= k < |plans| :: plans[k].at >= g
    decreases |plans|
  {
    if plans != [] {
      TargetKeptIff(Rest(plans), g);
      if plans[0].at >= g {
        assert forall k | 0 <= k < |Rest(plans)| :: Rest(plans)[k].at >= g <==> plans[k + 1].at >= g;
        if OriginAfter(plans, g) == g {
          forall k | 0 <= k < |plans| ensures plans[k].at >= g {
            if k > 0 { assert Rest(plans)[k - 1].at >= g; }
          }
        }
      }
    }
  }

  lemma {:induction false} LandingBefore(plans: seq<Plan>, x: nat)
    requires forall k | 0 <= k < |plans| :: plans[k].at >= x
    ensures Landing(plans, x) == x
    decreases |plans|
  {
    if plans != [] { LandingBefore(Rest(plans), x); }
  }

  /** Every bike patch lies before every parking patch. */
  ghost predicate BikesFirst(ps: seq<Ranged<ParkingEdge>>, gs: seq<Ranged<GbfsEdge>>) {
    forall k, l | 0 <= k < |ps| && 0 <= l < |gs| :: gs[l].from < ps[k].from
  }

  lemma {:induction false} TransportUndisturbed(ts: Transports, plans: seq<Plan>, g: nat)
    requires Fits(ts, plans) && HasTransport(ts, g, g + 1) && forall k | 0 <= k < |plans| :: plans[k].at > g
    ensures HasTransport(TransportsAfter(ts, plans), g, g + 1)
  {
    var y :| 0 <= y < |ts| && ts[y].from == g && ts[y].to == g + 1;
    LandingBefore(plans, g);
    UnitLands(ts, plans, y);
    assert Ranged(g, g + 1, ts[y].val) in TransportsAfter(ts, plans);
  }

  lemma {:induction false} StopsUndisturbed(stops: seq<Stop>, plans: seq<Plan>, g: nat)
    requires Within(|stops|, plans) && g + 1 < |stops| && forall k | 0 <= k < |plans| :: plans[k].at > g
    ensures var r := StopsAfter(stops, plans); g + 1 < |r| && r[g] == stops[g] && r[g + 1] == stops[g + 1]
  {
    LandingBefore(plans, g);
    LandingBefore(plans, g + 1);
    StopLands(stops, plans, g);
    StopLands(stops, plans, g + 1);
  }

  ghost predicate AllParkingSlack(stops: seq<Stop>, ps: seq<Ranged<ParkingEdge>>) {
    forall k | 0 <= k < |ps| :: ps[k].from + 1 < |stops| && ParkingSlack(stops, ps[k])
  }

  ghost predicate AllBikeSlack(stops: seq<Stop>, gs: seq<Ranged<GbfsEdge>>) {
    forall l | 0 <= l < |gs| :: gs[l].from + 1 < |stops| && BikeSlack(stops, gs[l])
  }

  lemma {:induction false} NamesUndisturbed(ts: Transports, plans: seq<Plan>, gs: seq<Ranged<GbfsEdge>>)
    requires Fits(ts, plans) && NamesUnits(ts, gs)
    requires forall k, l | 0 <= k < |plans| && 0 <= l < |gs| :: gs[l].from < plans[k].at
    ensures NamesUnits(TransportsAfter(ts, plans), gs)
  {
    forall l | 0 <= l < |gs| ensures HasTransport(TransportsAfter(ts, plans), gs[l].from, gs[l].from + 1) {
      TransportUndisturbed(ts, plans, gs[l].from);
    }
  }

  lemma {:induction false} SlackUndisturbed(stops: seq<Stop>, plans: seq<Plan>, gs: seq<Ranged<GbfsEdge>>)
    requires Within(|stops|, plans) && forall l | 0 <= l < |gs| :: gs[l].from + 1 < |stops|
    requires forall k, l | 0 <= k < |plans| && 0 <= l < |gs| :: gs[l].from < plans[k].at
    ensures AllBikeSlack(StopsAfter(stops, plans), gs) <==> AllBikeSlack(stops, gs)
  {
    forall l | 0 <= l < |gs|
      ensures gs[l].from + 1 < |StopsAfter(stops, plans)|
      ensures BikeSlack(StopsAfter(stops, plans), gs[l]) <==> BikeSlack(stops, gs[l])
    {
      StopsUndisturbed(stops, plans, gs[l].from);
    }
  }

  lemma {:induction false} BikePatchesUndisturbed(j: JourneyV, ps: seq<Ranged<ParkingEdge>>, gs: seq<Ranged<GbfsEdge>>)
    requires InRange(j) && ApplyParking(j, ps, 0).Ok? && NamesUnits(j.transports, gs) && BikesFirst(ps, gs)
    ensures var r := ApplyParking(j, ps, 0).value;
      NamesUnits(r.transports, gs) && (AllBikeSlack(r.stops, gs) <==> AllBikeSlack(j.stops, gs))
  {
    var plans := ParkingPlans(j.stops, ps, 0);
    ParkingAppliesIff(j, ps);
    NamesUnitsIsFits(j, ps, plans);
    FittingParkingApplies(j, ps, 0);
    forall l | 0 <= l < |gs| ensures gs[l].from + 1 < |j.stops| {
      assert HasTransport(j.transports, gs[l].from, gs[l].from + 1);
    }
    forall k | 0 <= k < |plans| ensures plans[k].at == ps[k].from {
      assert plans[k] == ParkingPlan(j.stops, ps[0 + k], 0 + k);
    }
    NamesUndisturbed(j.transports, plans, gs);
    SlackUndisturbed(j.stops, plans, gs);
  }

  /** If all bike patches lie before all parking patches, both lists apply, and the result is accepted iff the journey
      was and every patch of either list has time enough in it. */
  lemma {:induction false} BothListsKeepValidity(j: JourneyV, ps: seq<Ranged<ParkingEdge>>, gs: seq<Ranged<GbfsEdge>>)
    requires InRange(j) && ApplyParking(j, ps, 0).Ok? && NamesUnits(j.transports, gs) && BikesFirst(ps, gs)
    ensures var r := ApplyBoth(j, ps, gs);
      r.Ok? && (Accepted(r.value) <==> Accepted(j) && AllParkingSlack(j.stops, ps) && AllBikeSlack(j.stops, gs))
  {
    ParkingKeepsValidity(j, ps);
    BikePatchesUndisturbed(j, ps, gs);
    var r := ApplyParking(j, ps, 0).value;
    GbfsAppliesIff(r, gs);
    GbfsKeepsValidity(r, gs);
    assert Accepted(r) <==> Accepted(j) && AllParkingSlack(j.stops, ps);
    assert Accepted(ApplyGbfs(r, gs, 0).value) <==> Accepted(r) && AllBikeSlack(r.stops, gs);
  }

  // Two walks: the first to be driven via a car park, the second by bike.

  function At(name: string, t: int): Stop {
    Stop(name, name, 0.0, 0.0, Event(true, t, t, 0), Event(true, t, t, 0))
  }

  function TwoWalks(): JourneyV {
    JourneyV([At("START", 0), At("A", 600), At("END", 1200)],
             [Ranged(0, 1, TransportInfo("", "first walk")), Ranged(1, 2, TransportInfo("", "second walk"))], [], [],
               [], [])
  }

  function ParkOnFirst(): seq<Ranged<ParkingEdge>> {
    [Ranged(0, 1, ParkingEdge(5, 5, Pos(0.0, 0.0)))]
  }

  function BikeOnSecond(): seq<Ranged<GbfsEdge>> {
    [Ranged(1, 2, GbfsEdge("bike", FreeBike(5, 5, "B", Pos(0.0, 0.0))))]
  }

  lemma {:induction false} TwoWalksAccepted()
    ensures InRange(TwoWalks()) && Accepted(TwoWalks())
    ensures NamesUnits(TwoWalks().transports, ParkOnFirst()) && NamesUnits(TwoWalks().transports, BikeOnSecond())
  {
    var j := TwoWalks();
    var ts := j.transports;
    assert HasTransport(ts, 0, 1) by { assert ts[0].to == 1; }
    assert HasTransport(ts, 1, 2) by { assert ts[1].to == 2; }
    assert CountTo(ts, 0, 1) == 1 && CountTo(ts, 0, 2) == 1;
    assert CountTo(ts, 1, 1) == 0 && CountTo(ts, 1, 2) == 1;
    assert LegAt(j.stops, 1) && LegAt(j.stops, 2);
  }

  function AfterParking(): JourneyV
    requires CanSplit(TwoWalks(), 0)
  {
    ParkingSplit(TwoWalks(), 0, ParkOnFirst()[0].val, 0)
  }

  lemma {:induction false} ParkedOnFirst()
    ensures CanSplit(TwoWalks(), 0) && ApplyParking(TwoWalks(), ParkOnFirst(), 0) == Ok(AfterParking())
        && InRange(AfterParking())
    ensures AfterParking().transports ==
        [Ranged(0, 1, TransportInfo("car", "first walk")), Ranged(1, 2, TransportInfo("foot", "first walk")),
                                          Ranged(2, 3, TransportInfo("", "second walk"))]
  {
    var j, ps := TwoWalks(), ParkOnFirst();
    assert InRange(j) && j.transports[0] == Ranged(0, 1, TransportInfo("", "first walk"));
    assert Find(j.transports, 0, 1) == 0;
    var j1 := ParkingSplit(j, 0, ps[0].val, 0);
    assert ApplyParking(j1, ShiftAll(ps, 1), 1) == Ok(j1);
  }

  /** If a parking patch comes first, no error need be raised and still the wrong walk gets the bike, though the journey
      was accepted and both lists name unit transports of it. */
  lemma {:induction false} BikePatchGoesStale()
    ensures InRange(TwoWalks()) && Accepted(TwoWalks())
    ensures NamesUnits(TwoWalks().transports, ParkOnFirst()) && NamesUnits(TwoWalks().transports, BikeOnSecond())
    ensures var r := ApplyBoth(TwoWalks(), ParkOnFirst(), BikeOnSecond());
      r.Ok? && r.value.transports ==
        [Ranged(0, 1, TransportInfo("car", "first walk")), Ranged(1, 2, TransportInfo("foot", "first walk")),
                                      Ranged(2, 3, TransportInfo("bike", "first walk")),
                                        Ranged(3, 4, TransportInfo("", "second walk"))]
  {
    TwoWalksAccepted();
    ParkedOnFirst();
    hide ParkingSplit, Accepted, NamesUnits, ApplyParking, AfterParking;
    var j1, gs := AfterParking(), BikeOnSecond();
    assert FindFrom(j1.transports, 1, 2, 1) == 1;
    assert Find(j1.transports, 1, 2) == 1;
    var j2 := FreeBikeSplit(j1, 1, gs[0].val.bike);
    assert ApplyGbfs(j2, ShiftAll(gs, 2), 1) == Ok(j2);
    assert ApplyGbfs(j1, gs, 0) == Ok(j2);
  }
}
