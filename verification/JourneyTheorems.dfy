/**
 What the program's patch lists do to a journey: exactly when they apply, exactly when the result is accepted by
 the validity check, and what then stands where.  Each patch turns out to be one plan of `JourneyPlans`.
 */
module JourneyTheorems {
  import opened JourneyModel
  import opened JourneyPlans

  // ---------------------------------------------------------------- splits are insertions

  function InsertJourney(j: JourneyV, k: nat, p: Plan): JourneyV
    requires CanSplit(j, k)
  {
    var n, m := j.transports[k].to, |p.stops|;
    JourneyV(InsertStops(j.stops, n, p.stops), InsertTransports(j.transports, k, p.mumos), ShiftByAll(j.trips, n, m),
             ShiftByAll(j.attributes, n, m), ShiftByAll(j.freeTexts, n, m), ShiftByAll(j.problems, n, m))
  }

  lemma {:induction false} ShiftIsShiftBy<T>(v: seq<Ranged<T>>, n: nat)
    ensures ShiftAll(v, n) == ShiftByAll(v, n, 1)
    ensures ShiftAll(ShiftAll(v, n), n + 1) == ShiftByAll(v, n, 2)
  {
    forall k | 0 <= k < |v|
      ensures ShiftAll(v, n)[k] == ShiftByAll(v, n, 1)[k]
      ensures ShiftAll(ShiftAll(v, n), n + 1)[k] == ShiftByAll(v, n, 2)[k]
    {}
  }

  lemma {:induction false} SplitIsInsert(ts: Transports, k: nat, a: string, b: string)
    requires k < |ts| && ts[k].to == ts[k].from + 1
    ensures WithMumo(WithMumo(SplitTransports(ts, k), k, a), k + 1, b) == InsertTransports(ts, k, [a, b])
  {
    var l, r := WithMumo(WithMumo(SplitTransports(ts, k), k, a), k + 1, b), InsertTransports(ts, k, [a, b]);
    forall x | 0 <= x < |r| ensures l[x] == r[x] {}
  }

  lemma {:induction false} SplitAt(ts: Transports, k: nat, x: nat)
    requires k < |ts| && ts[k].to == ts[k].from + 1 && x <= |ts|
    ensures |SplitTransports(ts, k)| == |ts| + 1
    ensures var f, r := ts[k].from, SplitTransports(ts, k);
      r[x] == if x < k then ShiftOne(ts[x], f + 1) else if x == k then Ranged(f, f + 1, ts[k].val)
              else if x == k + 1 then Ranged(f + 1, f + 2, ts[k].val) else ShiftOne(ts[x - 1], f + 1)
  {}

  lemma {:induction false} TwoSplitsAt(ts: Transports, k: nat, mumos: seq<string>, x: nat)
    requires k < |ts| && ts[k].to == ts[k].from + 1 && |mumos| == 3 && x <= |ts| + 1
    ensures var t1 := SplitTransports(ts, k);
      && k + 1 < |t1| && t1[k + 1].to == t1[k + 1].from + 1
      && |SplitTransports(t1, k + 1)| == |ts| + 2
      && SplitTransports(t1, k + 1)[x] == if k <= x <= k + 2 then Inserted(ts, k, mumos, x).(val := ts[k].val)
        else Inserted(ts, k, mumos, x)
  {
    var t1 := SplitTransports(ts, k);
    SplitAt(ts, k, k + 1);
    SplitAt(t1, k + 1, x);
    if x <= k { SplitAt(ts, k, x); } else if x > k + 2 { SplitAt(ts, k, x - 1); }
  }

  lemma {:induction false} TwoSplitsAreInsert(ts: Transports, k: nat, a: string, b: string, c: string)
    requires k < |ts| && ts[k].to == ts[k].from + 1
    ensures var t1 := SplitTransports(ts, k);
      && k + 1 < |t1| && t1[k + 1].to == t1[k + 1].from + 1
      && |SplitTransports(t1, k + 1)| == |ts| + 2
      && WithMumo(WithMumo(WithMumo(SplitTransports(t1, k + 1), k, a), k + 1, b), k + 2, c) ==
        InsertTransports(ts, k, [a, b, c])
  {
    TwoSplitsAt(ts, k, [a, b, c], k);
    var t2 := SplitTransports(SplitTransports(ts, k), k + 1);
    var l, r := WithMumo(WithMumo(WithMumo(t2, k, a), k + 1, b), k + 2, c), InsertTransports(ts, k, [a, b, c]);
    forall x | 0 <= x < |r| ensures l[x] == r[x] {
      TwoSplitsAt(ts, k, [a, b, c], x);
    }
  }

  lemma {:induction false} SplitStops(stops: seq<Stop>, n: nat, s: Stop)
    requires n <= |stops|
    ensures stops[..n] + [s] + stops[n..] == InsertStops(stops, n, [s])
  {
    var l, r := stops[..n] + [s] + stops[n..], InsertStops(stops, n, [s]);
    forall x | 0 <= x < |r| ensures l[x] == r[x] {}
  }

  lemma {:induction false} SplitStopsTwice(stops: seq<Stop>, n: nat, s: Stop, t: Stop)
    requires n <= |stops|
    ensures InsertStops(InsertStops(stops, n, [s]), n + 1, [t]) == InsertStops(stops, n, [s, t])
  {
    var l, r := InsertStops(InsertStops(stops, n, [s]), n + 1, [t]), InsertStops(stops, n, [s, t]);
    forall x | 0 <= x < |r| ensures l[x] == r[x] {}
  }

  // ---------------------------------------------------------------- the plan behind a patch

  function ParkingPlan(stops: seq<Stop>, p: Ranged<ParkingEdge>, index: nat): Plan {
    if p.from < |stops| && index < MAX_PARKING_PATCHES then
      AnyPlan(p.from, [ParkingStop(stops[p.from], p.val, index)],
              if IsVirtual(stops[p.from]) then ["car", "foot"] else ["foot", "car"])
    else NoPlan(p.from)
  }

  /** Stands in for the plan of a patch that cannot apply. */
  function NoPlan(at: nat): Plan {
    AnyPlan(at, [Stop("", "", 0.0, 0.0, Event(false, 0, 0, 0), Event(false, 0, 0, 0))], ["", ""])
  }

  function BikePlan(stops: seq<Stop>, p: Ranged<GbfsEdge>): Plan {
    if p.from >= |stops| then
      if p.val.bike.FreeBike? then NoPlan(p.from)
      else NoPlan(p.from).(stops := NoPlan(0).stops + NoPlan(0).stops, mumos := ["", "", ""])
    else
      match p.val.bike
      case FreeBike(walk, _, id, pos) =>
        AnyPlan(p.from, [BikeStop(stops[p.from], walk * 60, id, id, pos)], ["foot", "bike"])
      case StationBike(firstWalk, bike, _, fromName, fromId, fromPos, toName, toId, toPos) =>
        var s1 := BikeStop(stops[p.from], firstWalk * 60, fromName, fromId, fromPos);
        AnyPlan(p.from, [s1, BikeStop(s1, bike * 60, toName, toId, toPos)], ["foot", p.val.vehicleType, "foot"])
  }

  /** The plans of patches i, i + 1, ... */
  function ParkingPlans(stops: seq<Stop>, ps: seq<Ranged<ParkingEdge>>, i: nat): (r: seq<Plan>)
    requires i <= |ps|
    ensures |r| == |ps| - i
    ensures forall x {:trigger r[x]} | 0 <= x < |r| :: r[x] == ParkingPlan(stops, ps[i + x], i + x)
  {
    seq<Plan>(|ps| - i, x requires 0 <= x < |ps| - i => ParkingPlan(stops, ps[i + x], i + x))
  }

  function BikePlans(stops: seq<Stop>, ps: seq<Ranged<GbfsEdge>>, i: nat): (r: seq<Plan>)
    requires i <= |ps|
    ensures |r| == |ps| - i
    ensures forall x {:trigger r[x]} | 0 <= x < |r| :: r[x] == BikePlan(stops, ps[i + x])
  {
    seq<Plan>(|ps| - i, x requires 0 <= x < |ps| - i => BikePlan(stops, ps[i + x]))
  }

  lemma {:induction false} ParkingSplitIsInsert(j: JourneyV, k: nat, p: Ranged<ParkingEdge>, index: nat)
    requires CanSplit(j, k) && index < MAX_PARKING_PATCHES && j.transports[k].from == p.from
    ensures ParkingSplit(j, k, p.val, index) == InsertJourney(j, k, ParkingPlan(j.stops, p, index))
  {
    var n, plan := p.from + 1, ParkingPlan(j.stops, p, index);
    SplitStops(j.stops, n, plan.stops[0]);
    SplitIsInsert(j.transports, k, plan.mumos[0], plan.mumos[1]);
    assert plan.mumos == [plan.mumos[0], plan.mumos[1]];
    ShiftIsShiftBy(j.trips, n);
    ShiftIsShiftBy(j.attributes, n);
    ShiftIsShiftBy(j.freeTexts, n);
    ShiftIsShiftBy(j.problems, n);
  }

  lemma {:induction false} FreeBikeSplitIsInsert(j: JourneyV, k: nat, p: Ranged<GbfsEdge>)
    requires CanSplit(j, k) && j.transports[k].from == p.from && p.val.bike.FreeBike?
    ensures FreeBikeSplit(j, k, p.val.bike) == InsertJourney(j, k, BikePlan(j.stops, p))
  {
    var n, plan := p.from + 1, BikePlan(j.stops, p);
    SplitStops(j.stops, n, plan.stops[0]);
    SplitIsInsert(j.transports, k, "foot", "bike");
    ShiftIsShiftBy(j.trips, n);
    ShiftIsShiftBy(j.attributes, n);
    ShiftIsShiftBy(j.freeTexts, n);
    ShiftIsShiftBy(j.problems, n);
  }

  /** Splitting twice, as for a station bike, inserts two stops at once. */
  lemma {:induction false} StationBikeSplitIsInsert(j: JourneyV, k: nat, p: Ranged<GbfsEdge>)
    requires CanSplit(j, k) && j.transports[k].from == p.from && p.val.bike.StationBike?
    ensures StationBikeSplit(j, k, p.val.vehicleType, p.val.bike) == InsertJourney(j, k, BikePlan(j.stops, p))
  {
    var n, plan := p.from + 1, BikePlan(j.stops, p);
    SplitStops(j.stops, n, plan.stops[0]);
    SplitStops(InsertStops(j.stops, n, [plan.stops[0]]), n + 1, plan.stops[1]);
    SplitStopsTwice(j.stops, n, plan.stops[0], plan.stops[1]);
    TwoSplitsAreInsert(j.transports, k, "foot", p.val.vehicleType, "foot");
    ShiftIsShiftBy(j.trips, n);
    ShiftIsShiftBy(j.attributes, n);
    ShiftIsShiftBy(j.freeTexts, n);
    ShiftIsShiftBy(j.problems, n);
  }

  // ---------------------------------------------------------------- patch lists are plan lists

  /** Patches i, i + 1, ... all span one segment. */
  ghost predicate Units<E>(ps: seq<Ranged<E>>, i: nat) {
    forall k | i <= k < |ps| :: ps[k].to == ps[k].from + 1
  }

  /** A patch for a segment that has been split is no longer a unit: duplicates show. */
  lemma {:induction false} UnitsAfterShift<E>(ps: seq<Ranged<E>>, i: nat, f: nat, m: nat)
    requires i <= |ps| && m >= 1
    ensures Units(ShiftByAll(ps, f + 1, m), i) <==> Units(ps, i) && forall k | i <= k < |ps| :: ps[k].from != f
  {
    var r := ShiftByAll(ps, f + 1, m);
    if Units(r, i) {
      forall k | i <= k < |ps| ensures ps[k].to == ps[k].from + 1 && ps[k].from != f {
        assert r[k].to == r[k].from + 1;
      }
    }
    if Units(ps, i) && forall k | i <= k < |ps| :: ps[k].from != f {
      forall k | i <= k < |r| ensures r[k].to == r[k].from + 1 {
        assert ps[k].to == ps[k].from + 1 && ps[k].from != f;
      }
    }
  }

  /** What the whole list makes of a journey, list by list. */
  function Patched(j: JourneyV, plans: seq<Plan>): JourneyV {
    JourneyV(StopsAfter(j.stops, plans), TransportsAfter(j.transports, plans), RangesAfter(j.trips, plans),
             RangesAfter(j.attributes, plans), RangesAfter(j.freeTexts, plans), RangesAfter(j.problems, plans))
  }

  lemma {:induction false} PatchedStep(j: JourneyV, plans: seq<Plan>, k: nat)
    requires plans != [] && CanSplit(j, k) && k == Find(j.transports, plans[0].at, plans[0].at + 1)
    ensures Patched(j, plans) == Patched(InsertJourney(j, k, plans[0]), Rest(plans))
  {}

  /** Inserting stops elsewhere does not change the plan of a patch, only its place. */
  lemma {:induction false} ParkingPlanMoves(stops: seq<Stop>, f: nat, mid: seq<Stop>, p: Ranged<ParkingEdge>,
                                            index: nat)
    requires f + 1 < |stops|
    ensures var m := |mid|;
      ParkingPlan(InsertStops(stops, f + 1, mid), ShiftRange(p, f + 1, m), index)
      == ParkingPlan(stops, p, index).(at := ShiftBy(p.from, f + 1, m))
  {
    if p.from < |stops| { InsertKeepsStops(stops, f, mid, p.from); }
  }

  lemma {:induction false} BikePlanMoves(stops: seq<Stop>, f: nat, mid: seq<Stop>, p: Ranged<GbfsEdge>)
    requires f + 1 < |stops|
    ensures var m := |mid|;
      BikePlan(InsertStops(stops, f + 1, mid), ShiftRange(p, f + 1, m)) ==
        BikePlan(stops, p).(at := ShiftBy(p.from, f + 1, m))
  {
    if p.from < |stops| { InsertKeepsStops(stops, f, mid, p.from); }
  }

  lemma {:induction false} ParkingPlansRestAt(stops: seq<Stop>, ps: seq<Ranged<ParkingEdge>>, i: nat, x: nat)
    requires i < |ps| && ps[i].from + 1 < |stops| && i + 1 + x < |ps|
    ensures var plan, f := ParkingPlan(stops, ps[i], i), ps[i].from;
      ParkingPlans(InsertStops(stops, f + 1, plan.stops), ShiftByAll(ps, f + 1, |plan.stops|), i + 1)[x] ==
        Rest(ParkingPlans(stops, ps, i))[x]
  {
    var plans, f, mid := ParkingPlans(stops, ps, i), ps[i].from, ParkingPlan(stops, ps[i], i).stops;
    ParkingPlanMoves(stops, f, mid, ps[i + 1 + x], i + 1 + x);
    assert plans[0] == ParkingPlan(stops, ps[i + 0], i + 0);
    assert plans[x + 1] == ParkingPlan(stops, ps[i + (x + 1)], i + (x + 1));
  }

  lemma {:induction false} ParkingPlansRest(stops: seq<Stop>, ps: seq<Ranged<ParkingEdge>>, i: nat)
    requires i < |ps| && ps[i].from + 1 < |stops|
    ensures var plan, f := ParkingPlan(stops, ps[i], i), ps[i].from;
      ParkingPlans(InsertStops(stops, f + 1, plan.stops), ShiftByAll(ps, f + 1, |plan.stops|), i + 1) ==
        Rest(ParkingPlans(stops, ps, i))
  {
    forall x: nat | i + 1 + x < |ps| { ParkingPlansRestAt(stops, ps, i, x); }
  }

  lemma {:induction false} BikePlansRestAt(stops: seq<Stop>, ps: seq<Ranged<GbfsEdge>>, i: nat, x: nat)
    requires i < |ps| && ps[i].from + 1 < |stops| && i + 1 + x < |ps|
    ensures var plan, f := BikePlan(stops, ps[i]), ps[i].from;
      BikePlans(InsertStops(stops, f + 1, plan.stops), ShiftByAll(ps, f + 1, |plan.stops|), i + 1)[x] ==
        Rest(BikePlans(stops, ps, i))[x]
  {
    var plans, f, mid := BikePlans(stops, ps, i), ps[i].from, BikePlan(stops, ps[i]).stops;
    BikePlanMoves(stops, f, mid, ps[i + 1 + x]);
    assert plans[0] == BikePlan(stops, ps[i + 0]);
    assert plans[x + 1] == BikePlan(stops, ps[i + (x + 1)]);
  }

  lemma {:induction false} BikePlansRest(stops: seq<Stop>, ps: seq<Ranged<GbfsEdge>>, i: nat)
    requires i < |ps| && ps[i].from + 1 < |stops|
    ensures var plan, f := BikePlan(stops, ps[i]), ps[i].from;
      BikePlans(InsertStops(stops, f + 1, plan.stops), ShiftByAll(ps, f + 1, |plan.stops|), i + 1) ==
        Rest(BikePlans(stops, ps, i))
  {
    forall x: nat | i + 1 + x < |ps| { BikePlansRestAt(stops, ps, i, x); }
  }

  lemma {:induction false} AvoidsAts<E>(plans: seq<Plan>, ps: seq<Ranged<E>>, i: nat)
    requires i < |ps| && |plans| == |ps| - i && forall x | 0 <= x < |plans| :: plans[x].at == ps[i + x].from
    ensures Avoids(plans[1..], plans[0].at) <==> forall k | i + 1 <= k < |ps| :: ps[k].from != ps[i].from
  {
    if Avoids(plans[1..], plans[0].at) {
      forall k | i + 1 <= k < |ps| ensures ps[k].from != ps[i].from {
        assert plans[1..][k - i - 1] == plans[k - i] && plans[k - i].at == ps[i + (k - i)].from;
      }
    }
    if forall k | i + 1 <= k < |ps| :: ps[k].from != ps[i].from {
      forall x | 0 <= x < |plans[1..]| ensures plans[1..][x].at != plans[0].at {
        assert plans[x + 1].at == ps[i + (x + 1)].from;
      }
    }
  }

  /** Whether patches i, i + 1, ... apply is decided by patch i and by the rest, as renumbered. */
  lemma {:induction false} ApplicableStep<E>(ts: Transports, plans: seq<Plan>, ps: seq<Ranged<E>>, i: nat, k: nat)
    requires i < |ps| && |plans| == |ps| - i && forall x | 0 <= x < |plans| :: plans[x].at == ps[i + x].from
    requires ps[i].to == ps[i].from + 1 && k < |ts| && ts[k].from == ps[i].from && ts[k].to == ps[i].to
    ensures
      Units(ShiftByAll(ps, ps[i].from + 1, |plans[0].stops|), i + 1)
      && Fits(InsertTransports(ts, k, plans[0].mumos), Rest(plans))
      <==> Units(ps, i) && Fits(ts, plans)
  {
    UnitsAfterShift(ps, i + 1, ps[i].from, |plans[0].stops|);
    AvoidsAts(plans, ps, i);
    assert plans[0].at == ps[i + 0].from;
    FitsRest(ts, plans, k);
    assert Units(ps, i) <==> Units(ps, i + 1);
  }

  lemma {:induction false} ParkingStep(j: JourneyV, ps: seq<Ranged<ParkingEdge>>, i: nat, k: nat)
    requires InRange(j) && i < |ps| <= MAX_PARKING_PATCHES
    requires k == Find(j.transports, ps[i].from, ps[i].to) < |j.transports| && ps[i].to == ps[i].from + 1
    ensures var plan := ParkingPlan(j.stops, ps[i], i); var j' := InsertJourney(j, k, plan);
      InRange(j') && ApplyParking(j, ps, i) == ApplyParking(j', ShiftByAll(ps, ps[i].from + 1, |plan.stops|), i + 1)
  {
    ShiftIsShiftBy(ps, ps[i].from + 1);
    ParkingSplitIsInsert(j, k, ps[i], i);
  }

  /** One parking patch applied: what remains to be done, and what it means. */
  lemma {:induction false} ParkingStepReduces(j: JourneyV, ps: seq<Ranged<ParkingEdge>>, i: nat, k: nat)
      returns (j': JourneyV, ps': seq<Ranged<ParkingEdge>>)
    requires InRange(j) && i < |ps| <= MAX_PARKING_PATCHES
    requires k == Find(j.transports, ps[i].from, ps[i].to) < |j.transports| && ps[i].to == ps[i].from + 1
    ensures InRange(j') && |ps'| == |ps| && ApplyParking(j, ps, i) == ApplyParking(j', ps', i + 1)
    ensures var plans, plans' := ParkingPlans(j.stops, ps, i), ParkingPlans(j'.stops, ps', i + 1);
      && (Units(ps', i + 1) && Fits(j'.transports, plans') <==> Units(ps, i) && Fits(j.transports, plans))
      && Patched(j, plans) == Patched(j', plans')
  {
    var plans := ParkingPlans(j.stops, ps, i);
    assert plans[0] == ParkingPlan(j.stops, ps[i + 0], i + 0);
    j', ps' := InsertJourney(j, k, plans[0]), ShiftByAll(ps, ps[i].from + 1, |plans[0].stops|);
    ParkingStep(j, ps, i, k);
    ParkingPlansRest(j.stops, ps, i);
    ApplicableStep(j.transports, plans, ps, i, k);
    PatchedStep(j, plans, k);
  }

  lemma {:induction false} FittingParkingStep(j: JourneyV, ps: seq<Ranged<ParkingEdge>>, i: nat)
      returns (j': JourneyV, ps': seq<Ranged<ParkingEdge>>)
    requires InRange(j) && i < |ps| <= MAX_PARKING_PATCHES
    requires Units(ps, i) && Fits(j.transports, ParkingPlans(j.stops, ps, i))
    ensures InRange(j') && |ps'| == |ps| && ApplyParking(j, ps, i) == ApplyParking(j', ps', i + 1)
    ensures var plans' := ParkingPlans(j'.stops, ps', i + 1);
      Units(ps', i + 1) && Fits(j'.transports, plans')
        && Patched(j, ParkingPlans(j.stops, ps, i)) == Patched(j', plans')
  {
    var k, plan := Find(j.transports, ps[i].from, ps[i].to), ParkingPlans(j.stops, ps, i)[0];
    assert plan == ParkingPlan(j.stops, ps[i + 0], i + 0);
    assert HasTransport(j.transports, plan.at, plan.at + 1);
    j', ps' := ParkingStepReduces(j, ps, i, k);
  }

  /** Parking patches i, i + 1, ... that are units and fit do what their plans say. */
  lemma {:induction false} FittingParkingApplies(j: JourneyV, ps: seq<Ranged<ParkingEdge>>, i: nat)
    requires InRange(j) && i <= |ps| && (i == |ps| || |ps| <= MAX_PARKING_PATCHES)
    requires Units(ps, i) && Fits(j.transports, ParkingPlans(j.stops, ps, i))
    ensures ApplyParking(j, ps, i) == Ok(Patched(j, ParkingPlans(j.stops, ps, i)))
    decreases |ps| - i
  {
    if i < |ps| {
      var j', ps' := FittingParkingStep(j, ps, i);
      FittingParkingApplies(j', ps', i + 1);
    }
  }

  /** Those that are not, or do not, fail. */
  lemma {:induction false} OtherParkingFails(j: JourneyV, ps: seq<Ranged<ParkingEdge>>, i: nat)
    requires InRange(j) && i <= |ps| && (i == |ps| || |ps| <= MAX_PARKING_PATCHES)
    requires !(Units(ps, i) && Fits(j.transports, ParkingPlans(j.stops, ps, i)))
    ensures ApplyParking(j, ps, i).Failed?
    decreases |ps| - i
  {
    if i < |ps| {
      var k := Find(j.transports, ps[i].from, ps[i].to);
      if k < |j.transports| && ps[i].to == ps[i].from + 1 {
        var j', ps' := ParkingStepReduces(j, ps, i, k);
        OtherParkingFails(j', ps', i + 1);
      }
    }
  }

  lemma {:induction false} TooManyParkingPatches(j: JourneyV, ps: seq<Ranged<ParkingEdge>>, i: nat)
    requires InRange(j) && i < |ps| && |ps| > MAX_PARKING_PATCHES
    ensures ApplyParking(j, ps, i).Failed?
    decreases |ps| - i
  {
    var k := Find(j.transports, ps[i].from, ps[i].to);
    if k < |j.transports| && ps[i].to == ps[i].from + 1 && i < MAX_PARKING_PATCHES {
      hide ParkingSplit, FindFrom, Find, ShiftAll;
      var j', ps' := ParkingSplit(j, k, ps[i].val, i), ShiftAll(ps, ps[i].from + 1);
      assert ApplyParking(j, ps, i) == ApplyParking(j', ps', i + 1);
      assert ApplyParking(j', ps', i + 1).Failed? by { TooManyParkingPatches(j', ps', i + 1); }
    }
  }

  lemma {:induction false} FreeBikeStep(j: JourneyV, ps: seq<Ranged<GbfsEdge>>, i: nat, k: nat)
    requires InRange(j) && i < |ps| && ps[i].val.bike.FreeBike?
    requires k == Find(j.transports, ps[i].from, ps[i].to) < |j.transports| && ps[i].to == ps[i].from + 1
    ensures var j' := InsertJourney(j, k, BikePlan(j.stops, ps[i]));
      InRange(j') && ApplyGbfs(j, ps, i) == ApplyGbfs(j', ShiftByAll(ps, ps[i].from + 1, 1), i + 1)
  {
    ShiftIsShiftBy(ps, ps[i].from + 1);
    FreeBikeSplitIsInsert(j, k, ps[i]);
  }

  lemma {:induction false} StationBikeStep(j: JourneyV, ps: seq<Ranged<GbfsEdge>>, i: nat, k: nat)
    requires InRange(j) && i < |ps| && ps[i].val.bike.StationBike?
    requires k == Find(j.transports, ps[i].from, ps[i].to) < |j.transports| && ps[i].to == ps[i].from + 1
    ensures var j' := InsertJourney(j, k, BikePlan(j.stops, ps[i]));
      InRange(j') && ApplyGbfs(j, ps, i) == ApplyGbfs(j', ShiftByAll(ps, ps[i].from + 1, 2), i + 1)
  {
    ShiftIsShiftBy(ps, ps[i].from + 1);
    StationBikeSplitIsInsert(j, k, ps[i]);
    assert ShiftAll(ShiftAll(ps, ps[i].from + 1), ps[i].from + 2) == ShiftByAll(ps, ps[i].from + 1, 2);
    assert ApplyGbfs(j, ps, i) == ApplyGbfs(StationBikeSplit(j, k, ps[i].val.vehicleType, ps[i].val.bike),
                                            ShiftAll(ShiftAll(ps, ps[i].from + 1), ps[i].from + 2), i + 1);
  }

  lemma {:induction false} GbfsStep(j: JourneyV, ps: seq<Ranged<GbfsEdge>>, i: nat, k: nat)
    requires InRange(j) && i < |ps|
    requires k == Find(j.transports, ps[i].from, ps[i].to) < |j.transports| && ps[i].to == ps[i].from + 1
    ensures var plan := BikePlan(j.stops, ps[i]); var j' := InsertJourney(j, k, plan);
      InRange(j') && ApplyGbfs(j, ps, i) == ApplyGbfs(j', ShiftByAll(ps, ps[i].from + 1, |plan.stops|), i + 1)
  {
    if ps[i].val.bike.FreeBike? { FreeBikeStep(j, ps, i, k); } else { StationBikeStep(j, ps, i, k); }
  }

  /** One bike patch applied: what remains to be done, and what it means. */
  lemma {:induction false} GbfsStepReduces(j: JourneyV, ps: seq<Ranged<GbfsEdge>>, i: nat, k: nat)
      returns (j': JourneyV, ps': seq<Ranged<GbfsEdge>>)
    requires InRange(j) && i < |ps|
    requires k == Find(j.transports, ps[i].from, ps[i].to) < |j.transports| && ps[i].to == ps[i].from + 1
    ensures InRange(j') && |ps'| == |ps| && ApplyGbfs(j, ps, i) == ApplyGbfs(j', ps', i + 1)
    ensures var plans, plans' := BikePlans(j.stops, ps, i), BikePlans(j'.stops, ps', i + 1);
      && (Units(ps', i + 1) && Fits(j'.transports, plans') <==> Units(ps, i) && Fits(j.transports, plans))
      && Patched(j, plans) == Patched(j', plans')
  {
    hide *;
    var plans := BikePlans(j.stops, ps, i);
    FirstBikePlan(j.stops, ps, i);
    UnitIsSplit(j, ps[i], k);
    j', ps' := InsertJourney(j, k, plans[0]), ShiftByAll(ps, ps[i].from + 1, |plans[0].stops|);
    InsertedFields(j, k, plans[0]);
    GbfsStep(j, ps, i, k);
    BikePlansRest(j.stops, ps, i);
    BikePlanPlaces(j.stops, ps, i);
    ApplicableStep(j.transports, plans, ps, i, k);
    PatchedStep(j, plans, k);
  }

  lemma {:induction false} FirstBikePlan(stops: seq<Stop>, ps: seq<Ranged<GbfsEdge>>, i: nat)
    requires i < |ps|
    ensures BikePlans(stops, ps, i)[0] == BikePlan(stops, ps[i]) && BikePlan(stops, ps[i]).at == ps[i].from
  {
    assert BikePlans(stops, ps, i)[0] == BikePlan(stops, ps[i + 0]);
  }

  lemma {:induction false} BikePlanPlaces(stops: seq<Stop>, ps: seq<Ranged<GbfsEdge>>, i: nat)
    requires i <= |ps|
    ensures forall x | 0 <= x < |BikePlans(stops, ps, i)| :: BikePlans(stops, ps, i)[x].at == ps[i + x].from
  {
    forall x | 0 <= x < |BikePlans(stops, ps, i)| ensures BikePlans(stops, ps, i)[x].at == ps[i + x].from {
      assert BikePlans(stops, ps, i)[x] == BikePlan(stops, ps[i + x]);
    }
  }

  lemma {:induction false} UnitIsSplit<E>(j: JourneyV, p: Ranged<E>, k: nat)
    requires InRange(j) && k == Find(j.transports, p.from, p.to) < |j.transports| && p.to == p.from + 1
    ensures CanSplit(j, k) && j.transports[k].from == p.from && j.transports[k].to == p.to && p.from + 1 < |j.stops|
  {}

  lemma {:induction false} InsertedFields(j: JourneyV, k: nat, p: Plan)
    requires CanSplit(j, k)
    ensures var r := InsertJourney(j, k, p);
      && r.stops == InsertStops(j.stops, j.transports[k].to, p.stops)
        && r.transports == InsertTransports(j.transports, k, p.mumos)
  {}

  lemma {:induction false} FittingGbfsStep(j: JourneyV, ps: seq<Ranged<GbfsEdge>>, i: nat)
      returns (j': JourneyV, ps': seq<Ranged<GbfsEdge>>)
    requires InRange(j) && i < |ps|
    requires Units(ps, i) && Fits(j.transports, BikePlans(j.stops, ps, i))
    ensures InRange(j') && |ps'| == |ps| && ApplyGbfs(j, ps, i) == ApplyGbfs(j', ps', i + 1)
    ensures var plans' := BikePlans(j'.stops, ps', i + 1);
      Units(ps', i + 1) && Fits(j'.transports, plans') && Patched(j, BikePlans(j.stops, ps, i)) == Patched(j', plans')
  {
    var k, plan := Find(j.transports, ps[i].from, ps[i].to), BikePlans(j.stops, ps, i)[0];
    assert plan == BikePlan(j.stops, ps[i + 0]);
    assert HasTransport(j.transports, plan.at, plan.at + 1);
    j', ps' := GbfsStepReduces(j, ps, i, k);
  }

  /** Likewise for bike patches, with no limit on their number. */
  lemma {:induction false} FittingGbfsApplies(j: JourneyV, ps: seq<Ranged<GbfsEdge>>, i: nat)
    requires InRange(j) && i <= |ps|
    requires Units(ps, i) && Fits(j.transports, BikePlans(j.stops, ps, i))
    ensures ApplyGbfs(j, ps, i) == Ok(Patched(j, BikePlans(j.stops, ps, i)))
    decreases |ps| - i
  {
    if i < |ps| {
      var j', ps' := FittingGbfsStep(j, ps, i);
      assert ApplyGbfs(j, ps, i) == Ok(Patched(j, BikePlans(j.stops, ps, i))) by {
        FittingGbfsApplies(j', ps', i + 1);
        assert ApplyGbfs(j, ps, i) == ApplyGbfs(j', ps', i + 1);
      }
    }
  }

  lemma {:induction false} OtherGbfsStep(j: JourneyV, ps: seq<Ranged<GbfsEdge>>, i: nat, k: nat)
      returns (j': JourneyV, ps': seq<Ranged<GbfsEdge>>)
    requires InRange(j) && i < |ps|
    requires k == Find(j.transports, ps[i].from, ps[i].to) < |j.transports| && ps[i].to == ps[i].from + 1
    requires !(Units(ps, i) && Fits(j.transports, BikePlans(j.stops, ps, i)))
    ensures InRange(j') && |ps'| == |ps| && ApplyGbfs(j, ps, i) == ApplyGbfs(j', ps', i + 1)
    ensures !(Units(ps', i + 1) && Fits(j'.transports, BikePlans(j'.stops, ps', i + 1)))
  {
    j', ps' := GbfsStepReduces(j, ps, i, k);
  }

  /** Bike patches that are no units, or do not fit, fail. */
  lemma {:induction false} OtherGbfsFails(j: JourneyV, ps: seq<Ranged<GbfsEdge>>, i: nat)
    requires InRange(j) && i <= |ps|
    requires !(Units(ps, i) && Fits(j.transports, BikePlans(j.stops, ps, i)))
    ensures ApplyGbfs(j, ps, i).Failed?
    decreases |ps| - i
  {
    if i < |ps| {
      var k := Find(j.transports, ps[i].from, ps[i].to);
      if k < |j.transports| && ps[i].to == ps[i].from + 1 {
        var j', ps' := OtherGbfsStep(j, ps, i, k);
        OtherGbfsFails(j', ps', i + 1);
      }
    }
  }

  // ---------------------------------------------------------------- main theorems

  /** Patches name pairwise different segments, each ridden by a transport of just that segment. */
  ghost predicate NamesUnits<E>(ts: Transports, ps: seq<Ranged<E>>) {
    && (forall k | 0 <= k < |ps| :: ps[k].to == ps[k].from + 1 && HasTransport(ts, ps[k].from, ps[k].from + 1))
    && (forall k, l | 0 <= k < l < |ps| :: ps[k].from != ps[l].from)
  }

  lemma {:induction false} NamesUnitsIsFits<E>(j: JourneyV, ps: seq<Ranged<E>>, plans: seq<Plan>)
    requires InRange(j) && |plans| == |ps| && forall x | 0 <= x < |plans| :: plans[x].at == ps[x].from
    ensures NamesUnits(j.transports, ps) <==> Units(ps, 0) && Fits(j.transports, plans)
    ensures NamesUnits(j.transports, ps) ==> Within(|j.stops|, plans)
  {
    if Units(ps, 0) && Fits(j.transports, plans) {
      forall k | 0 <= k < |ps| ensures HasTransport(j.transports, ps[k].from, ps[k].from + 1) {
        assert HasTransport(j.transports, plans[k].at, plans[k].at + 1);
      }
      forall k, l | 0 <= k < l < |ps| ensures ps[k].from != ps[l].from { assert plans[k].at != plans[l].at; }
    }
    if NamesUnits(j.transports, ps) {
      forall k | 0 <= k < |plans|
        ensures HasTransport(j.transports, plans[k].at, plans[k].at + 1) && plans[k].at + 1 < |j.stops|
      {
        assert HasTransport(j.transports, ps[k].from, ps[k].from + 1);
      }
      forall k, l | 0 <= k < l < |plans| ensures plans[k].at != plans[l].at { assert ps[k].from != ps[l].from; }
    }
  }

  /** No error is raised exactly for at most four patches that name different unit transports. */
  lemma {:induction false} ParkingAppliesIff(j: JourneyV, ps: seq<Ranged<ParkingEdge>>)
    requires InRange(j)
    ensures ApplyParking(j, ps, 0).Ok? <==> |ps| <= MAX_PARKING_PATCHES && NamesUnits(j.transports, ps)
  {
    NamesUnitsIsFits(j, ps, ParkingPlans(j.stops, ps, 0));
    if |ps| > MAX_PARKING_PATCHES {
      TooManyParkingPatches(j, ps, 0);
    } else if NamesUnits(j.transports, ps) {
      FittingParkingApplies(j, ps, 0);
    } else {
      OtherParkingFails(j, ps, 0);
    }
  }

  lemma {:induction false} GbfsAppliesIff(j: JourneyV, ps: seq<Ranged<GbfsEdge>>)
    requires InRange(j)
    ensures ApplyGbfs(j, ps, 0).Ok? <==> NamesUnits(j.transports, ps)
  {
    NamesUnitsIsFits(j, ps, BikePlans(j.stops, ps, 0));
    if NamesUnits(j.transports, ps) {
      FittingGbfsApplies(j, ps, 0);
    } else {
      OtherGbfsFails(j, ps, 0);
    }
  }

  /** Patched journeys are accepted iff the journey was and each plan has time enough. */
  lemma {:induction false} PatchedAccepted(j: JourneyV, plans: seq<Plan>)
    requires InRange(j) && Fits(j.transports, plans) && Within(|j.stops|, plans) && AllChained(j.stops, plans)
    ensures InRange(Patched(j, plans)) && |Patched(j, plans).stops| == |j.stops| + InsertedStops(plans)
    ensures Accepted(Patched(j, plans)) <==> Accepted(j) && AllSlack(j.stops, plans)
  {
    TimesAfter(j.stops, plans);
    assert EndsBefore(j.transports, |j.stops|);
    EndsAfter(j.transports, plans, |j.stops|);
    CoverageAfter(|j.stops|, j.transports, plans, |j.stops| + InsertedStops(plans));
  }

  lemma {:induction false} OneStopEach(plans: seq<Plan>)
    requires forall x | 0 <= x < |plans| :: |plans[x].stops| == 1
    ensures InsertedStops(plans) == |plans|
    decreases |plans|
  {
    if plans != [] {
      forall x | 0 <= x < |Rest(plans)| ensures |Rest(plans)[x].stops| == 1 { assert |plans[x + 1].stops| == 1; }
      OneStopEach(Rest(plans));
    }
  }

  /** There is time to get to the car park: departure plus the first leg is no later than the arrival. */
  ghost predicate ParkingSlack(stops: seq<Stop>, p: Ranged<ParkingEdge>)
    requires p.from + 1 < |stops|
  {
    stops[p.from + 1].arrival.timestamp >= stops[p.from].departure.timestamp + ParkingSeconds(stops[p.from], p.val)
  }

  lemma {:induction false} ParkingPlanTimes(stops: seq<Stop>, p: Ranged<ParkingEdge>, index: nat)
    requires p.from + 1 < |stops| && index < MAX_PARKING_PATCHES
    ensures |ParkingPlan(stops, p, index).stops| == 1
    ensures Chained(stops[p.from], ParkingPlan(stops, p, index).stops)
    ensures SlackOk(stops, ParkingPlan(stops, p, index)) <==> ParkingSlack(stops, p)
  {}

  /** One stop is added for each patch, and the result is accepted iff the journey was and every first leg fits in
      time. */
  lemma {:induction false} ParkingKeepsValidity(j: JourneyV, ps: seq<Ranged<ParkingEdge>>)
    requires InRange(j) && ApplyParking(j, ps, 0).Ok?
    ensures var r := ApplyParking(j, ps, 0).value;
      && InRange(r) && |r.stops| == |j.stops| + |ps|
      && NamesUnits(j.transports, ps) && Within(|j.stops|, ParkingPlans(j.stops, ps, 0))
      && (Accepted(r) <==> Accepted(j) && forall k | 0 <= k < |ps| ::
            ps[k].from + 1 < |j.stops| && ParkingSlack(j.stops, ps[k]))
  {
    var plans := ParkingPlans(j.stops, ps, 0);
    ParkingAppliesIff(j, ps);
    NamesUnitsIsFits(j, ps, plans);
    FittingParkingApplies(j, ps, 0);
    forall k | 0 <= k < |ps|
      ensures |plans[k].stops| == 1 && ps[k].from + 1 < |j.stops| && Chained(j.stops[plans[k].at], plans[k].stops)
      ensures SlackOk(j.stops, plans[k]) <==> ParkingSlack(j.stops, ps[k])
    {
      assert plans[k] == ParkingPlan(j.stops, ps[0 + k], 0 + k) && plans[k].at + 1 < |j.stops|;
      ParkingPlanTimes(j.stops, ps[k], k);
    }
    OneStopEach(plans);
    PatchedAccepted(j, plans);
    if AllSlack(j.stops, plans) {
      forall k | 0 <= k < |ps| ensures ParkingSlack(j.stops, ps[k]) { assert SlackOk(j.stops, plans[k]); }
    }
    if forall k | 0 <= k < |ps| :: ps[k].from + 1 < |j.stops| && ParkingSlack(j.stops, ps[k]) {
      forall k | 0 <= k < |plans| ensures SlackOk(j.stops, plans[k]) { assert ParkingSlack(j.stops, ps[k]); }
    }
  }

  function BikeSeconds(b: Bike): nat {
    if b.FreeBike? then b.walk * 60 else (b.firstWalk + b.bike) * 60
  }

  /** There is time to get to the last inserted stop. */
  ghost predicate BikeSlack(stops: seq<Stop>, p: Ranged<GbfsEdge>)
    requires p.from + 1 < |stops|
  {
    stops[p.from + 1].arrival.timestamp >= stops[p.from].departure.timestamp + BikeSeconds(p.val.bike)
  }

  lemma {:induction false} BikePlanTimes(stops: seq<Stop>, p: Ranged<GbfsEdge>)
    requires p.from + 1 < |stops|
    ensures Chained(stops[p.from], BikePlan(stops, p).stops)
    ensures SlackOk(stops, BikePlan(stops, p)) <==> BikeSlack(stops, p)
  {}

  lemma {:induction false} GbfsKeepsValidity(j: JourneyV, ps: seq<Ranged<GbfsEdge>>)
    requires InRange(j) && ApplyGbfs(j, ps, 0).Ok?
    ensures var r := ApplyGbfs(j, ps, 0).value;
      && InRange(r) && |r.stops| == |j.stops| + InsertedStops(BikePlans(j.stops, ps, 0))
      && NamesUnits(j.transports, ps) && Within(|j.stops|, BikePlans(j.stops, ps, 0))
      && (Accepted(r) <==> Accepted(j) && forall k | 0 <= k < |ps| ::
            ps[k].from + 1 < |j.stops| && BikeSlack(j.stops, ps[k]))
  {
    var plans := BikePlans(j.stops, ps, 0);
    GbfsAppliesIff(j, ps);
    NamesUnitsIsFits(j, ps, plans);
    FittingGbfsApplies(j, ps, 0);
    forall k | 0 <= k < |ps|
      ensures ps[k].from + 1 < |j.stops| && Chained(j.stops[plans[k].at], plans[k].stops)
      ensures SlackOk(j.stops, plans[k]) <==> BikeSlack(j.stops, ps[k])
    {
      assert plans[k] == BikePlan(j.stops, ps[0 + k]) && plans[k].at + 1 < |j.stops|;
      BikePlanTimes(j.stops, ps[k]);
    }
    PatchedAccepted(j, plans);
    if AllSlack(j.stops, plans) {
      forall k | 0 <= k < |ps| ensures BikeSlack(j.stops, ps[k]) { assert SlackOk(j.stops, plans[k]); }
    }
    if forall k | 0 <= k < |ps| :: ps[k].from + 1 < |j.stops| && BikeSlack(j.stops, ps[k]) {
      forall k | 0 <= k < |plans| ensures SlackOk(j.stops, plans[k]) { assert BikeSlack(j.stops, ps[k]); }
    }
  }
}
