/**
 Choosing bikes: for each target the best of all journeys by a bike parked anywhere or by a bike from a station.
 Costs are whole minutes; tables are row-major.
 */
module GbfsModel {
  import opened Wrappers

  const BIKE_READY_TIME := 3
  const NO_DURATION := 65535  // the largest value of the total's type

  datatype Info =
    | Invalid
    | FreeBike(walk: nat, ride: nat, b: nat, p: nat)
    | StationBike(firstWalk: nat, ride: nat, secondWalk: nat, sx: nat, sp: nat, p: nat)

  datatype Journey = Journey(total: int, info: Info)

  const NO_JOURNEY := Journey(NO_DURATION, Invalid)

  /**
   Forward journeys lead from x to the targets, backward ones from the targets to x.  The first `stops` targets are
   stations of public transport, the others places asked for directly.  `near` has one cost per free bike: the walk
   from x to it forward, the ride from it to x backward; `nearTable` the other leg, bikes by targets forward, targets by
   bikes backward.  `xWalks` has the walk between x and each bike station sx near it, `rides` the rides sx by sp
   forward, sp by sx backward, `walks` the walks sp by targets forward, targets by sp backward.  `bikes` tells for each
   sp how many bikes it has.
   */
  datatype Query = Query(fwd: bool, maxWalk: nat, maxBike: nat, targets: nat, stops: nat, near: seq<nat>,
    nearTable: seq<nat>,
                         xWalks: seq<nat>, sps: nat, rides: seq<nat>, walks: seq<nat>, bikes: seq<nat>)

  predicate Wf(q: Query) {
    && q.stops <= q.targets && |q.bikes| == q.sps
    && |q.nearTable| == |q.near| * q.targets
    && |q.rides| == |q.xWalks| * q.sps
    && |q.walks| == q.sps * q.targets
  }

  /** A table read is in bounds. */
  lemma {:induction false} InTable(rows: nat, cols: nat, r: nat, c: nat)
    requires r < rows && c < cols
    ensures r * cols + c < rows * cols && r * cols + c < cols * rows
  {
    assert (rows - 1 - r) * cols >= 0;
    assert rows * cols == (rows - 1 - r) * cols + r * cols + cols;
  }

  function Cell(t: seq<nat>, rows: nat, cols: nat, r: nat, c: nat): nat
    requires |t| == rows * cols && r < rows && c < cols
  {
    InTable(rows, cols, r, c);
    t[r * cols + c]
  }

  function FreeOther(q: Query, b: nat, p: nat): nat
    requires Wf(q) && b < |q.near| && p < q.targets
  {
    if q.fwd then Cell(q.nearTable, |q.near|, q.targets, b, p)
    else (assert q.targets * |q.near| == |q.near| * q.targets; Cell(q.nearTable, q.targets, |q.near|, p, b))
  }

  function Ride(q: Query, sx: nat, sp: nat): nat
    requires Wf(q) && sx < |q.xWalks| && sp < q.sps
  {
    if q.fwd then Cell(q.rides, |q.xWalks|, q.sps, sx, sp)
    else (assert q.sps * |q.xWalks| == |q.xWalks| * q.sps; Cell(q.rides, q.sps, |q.xWalks|, sp, sx))
  }

  function TargetWalk(q: Query, sp: nat, p: nat): nat
    requires Wf(q) && sp < q.sps && p < q.targets
  {
    if q.fwd then Cell(q.walks, q.sps, q.targets, sp, p)
    else (assert q.targets * q.sps == q.sps * q.targets; Cell(q.walks, q.targets, q.sps, p, sp))
  }

  /** The journey by free bike b, if it is within the limits; backward only stations are served. */
  function FreeOffer(q: Query, b: nat, p: nat): Option<Journey>
    requires Wf(q) && b < |q.near| && p < q.targets
  {
    var near, other := q.near[b], FreeOther(q, b, p);
    if q.fwd then
      if near > q.maxWalk || other > q.maxBike then None
      else Some(Journey(BIKE_READY_TIME + near + other, FreeBike(near, other, b, p)))
    else
      if p >= q.stops || near > q.maxBike || other > q.maxWalk then None
      else Some(Journey(other + near, FreeBike(other, near, b, p)))
  }

  /** The journey by a bike of station sx or sp; only backward is it asked whether there is one. */
  function StationOffer(q: Query, sx: nat, sp: nat, p: nat): Option<Journey>
    requires Wf(q) && sx < |q.xWalks| && sp < q.sps && p < q.targets
  {
    var xWalk, ride, walk := q.xWalks[sx], Ride(q, sx, sp), TargetWalk(q, sp, p);
    if xWalk > q.maxWalk || ride > q.maxBike || walk > q.maxWalk || xWalk + walk > q.maxWalk then None
    else if q.fwd then Some(Journey(BIKE_READY_TIME + xWalk + ride + walk, StationBike(xWalk, ride, walk, sx, sp, p)))
    else if p >= q.stops || q.bikes[sp] == 0 then None
    else Some(Journey(BIKE_READY_TIME + walk + ride + xWalk, StationBike(walk, ride, xWalk, sx, sp, p)))
  }

  // ---------------------------------------------------------------- the best of those seen

  /** One of the first `free` free bikes offers j. */
  ghost predicate FreeSeen(q: Query, p: nat, free: nat, j: Journey)
    requires Wf(q) && p < q.targets
  {
    exists b :: 0 <= b < free && b < |q.near| && FreeOffer(q, b, p) == Some(j)
  }

  /** Of the pairs of stations before (sx, sp), one offers j. */
  ghost predicate StationSeen(q: Query, p: nat, sx: nat, sp: nat, j: Journey)
    requires Wf(q) && p < q.targets
  {
    exists x, y :: 0 <= x < |q.xWalks| && 0 <= y < q.sps && StationOffer(q, x, y, p) == Some(j)
      && (x < sx || (x == sx && y < sp))
  }

  ghost predicate Seen(q: Query, p: nat, free: nat, sx: nat, sp: nat, j: Journey)
    requires Wf(q) && p < q.targets
  {
    FreeSeen(q, p, free, j) || StationSeen(q, p, sx, sp, j)
  }

  /** None, or one of those seen; and none of those seen is shorter. */
  ghost predicate BestSeen(q: Query, p: nat, free: nat, sx: nat, sp: nat, best: Journey)
    requires Wf(q) && p < q.targets
  {
    && (best == NO_JOURNEY || (best.total < NO_DURATION && Seen(q, p, free, sx, sp, best)))
    && forall j | Seen(q, p, free, sx, sp, j) :: best.total <= j.total
  }

  function Better(best: Journey, offer: Option<Journey>): Journey {
    if offer.Some? && best.total > offer.value.total then offer.value else best
  }

  // ---------------------------------------------------------------- theorems

  lemma {:induction false} NothingSeen(q: Query, p: nat)
    requires Wf(q) && p < q.targets
    ensures BestSeen(q, p, 0, 0, 0, NO_JOURNEY)
  {}

  lemma {:induction false} FreeNext(q: Query, p: nat, b: nat, best: Journey)
    requires Wf(q) && p < q.targets && b < |q.near| && BestSeen(q, p, b, 0, 0, best)
    ensures BestSeen(q, p, b + 1, 0, 0, Better(best, FreeOffer(q, b, p)))
  {
    hide FreeOffer, StationOffer;
    forall j ensures Seen(q, p, b + 1, 0, 0, j) <==> Seen(q, p, b, 0, 0, j) || FreeOffer(q, b, p) == Some(j) {
      if FreeOffer(q, b, p) == Some(j) { assert FreeSeen(q, p, b + 1, j); }
      if FreeSeen(q, p, b, j) { assert FreeSeen(q, p, b + 1, j); }
    }
  }

  lemma {:induction false} StationNext(q: Query, p: nat, free: nat, sx: nat, sp: nat, best: Journey)
    requires Wf(q) && p < q.targets && sx < |q.xWalks| && sp < q.sps && BestSeen(q, p, free, sx, sp, best)
    ensures BestSeen(q, p, free, sx, sp + 1, Better(best, StationOffer(q, sx, sp, p)))
  {
    hide FreeOffer, StationOffer, FreeSeen;
    forall j ensures Seen(q, p, free, sx, sp + 1, j) <==>
        Seen(q, p, free, sx, sp, j) || StationOffer(q, sx, sp, p) == Some(j) {
      if StationOffer(q, sx, sp, p) == Some(j) { assert StationSeen(q, p, sx, sp + 1, j); }
      if StationSeen(q, p, sx, sp, j) { assert StationSeen(q, p, sx, sp + 1, j); }
    }
  }

  /** After the last sp of a row comes the next row. */
  lemma {:induction false} NextRow(q: Query, p: nat, free: nat, sx: nat, best: Journey)
    requires Wf(q) && p < q.targets && BestSeen(q, p, free, sx, q.sps, best)
    ensures BestSeen(q, p, free, sx + 1, 0, best)
  {
    hide FreeOffer, StationOffer, FreeSeen;
    forall j ensures Seen(q, p, free, sx + 1, 0, j) <==> Seen(q, p, free, sx, q.sps, j) {
      if StationSeen(q, p, sx, q.sps, j) { assert StationSeen(q, p, sx + 1, 0, j); }
    }
  }

  /** A station too far from x offers nothing, so its row may be skipped. */
  lemma {:induction false} SkipRow(q: Query, p: nat, free: nat, sx: nat, best: Journey)
    requires Wf(q) && p < q.targets && sx < |q.xWalks| && q.xWalks[sx] > q.maxWalk && BestSeen(q, p, free, sx, 0, best)
    ensures BestSeen(q, p, free, sx + 1, 0, best)
  {
    hide FreeOffer, FreeSeen, Ride, TargetWalk;
    forall j ensures Seen(q, p, free, sx + 1, 0, j) <==> Seen(q, p, free, sx, 0, j) {
      if StationSeen(q, p, sx, 0, j) { assert StationSeen(q, p, sx + 1, 0, j); }
    }
  }

  /** Rows of stations the loops get to: backward they are skipped altogether if there is no free bike. */
  function StationRows(q: Query): nat {
    if q.fwd || |q.near| > 0 then |q.xWalks| else 0
  }

  /** The best of what the loops get to see. */
  ghost predicate IsResult(q: Query, p: nat, best: Journey)
    requires Wf(q) && p < q.targets
  {
    BestSeen(q, p, |q.near|, StationRows(q), 0, best)
  }

  /** The best of all that is offered. */
  ghost predicate IsBest(q: Query, p: nat, best: Journey)
    requires Wf(q) && p < q.targets
  {
    BestSeen(q, p, |q.near|, |q.xWalks|, 0, best)
  }

  ghost predicate OffersStation(q: Query, p: nat)
    requires Wf(q) && p < q.targets
  {
    exists sx, sp :: 0 <= sx < |q.xWalks| && 0 <= sp < q.sps && StationOffer(q, sx, sp, p).Some?
      && StationOffer(q, sx, sp, p).value.total < NO_DURATION
  }

  /** The result is the best there is, unless backward there is no free bike and a station has a bike to offer. */
  lemma {:induction false} ResultIsBestIff(q: Query, p: nat, best: Journey)
    requires Wf(q) && p < q.targets && IsResult(q, p, best)
    ensures IsBest(q, p, best) <==> q.fwd || |q.near| > 0 || !OffersStation(q, p)
  {
    hide FreeOffer, StationOffer;
    if !q.fwd && |q.near| == 0 {
      assert best == NO_JOURNEY;
      if OffersStation(q, p) {
        var sx, sp :| 0 <= sx < |q.xWalks| && 0 <= sp < q.sps && StationOffer(q, sx, sp, p).Some?
            && StationOffer(q, sx, sp, p).value.total < NO_DURATION;
        assert StationSeen(q, p, |q.xWalks|, 0, StationOffer(q, sx, sp, p).value);
      }
    }
  }

  /** Backward, one station with a bike near the place, no free bike: the seven minutes by station bike are not found.
      */
  lemma {:induction false} StationMissed()
    ensures var q := Query(false, 10, 10, 1, 1, [], [], [1], 1, [2], [1], [1]);
      && Wf(q) && StationOffer(q, 0, 0, 0) == Some(Journey(7, StationBike(1, 2, 1, 0, 0, 0)))
      && IsResult(q, 0, NO_JOURNEY) && !IsBest(q, 0, NO_JOURNEY)
      && forall best | IsResult(q, 0, best) :: best == NO_JOURNEY
  {
    var q := Query(false, 10, 10, 1, 1, [], [], [1], 1, [2], [1], [1]);
    assert Ride(q, 0, 0) == 2 && TargetWalk(q, 0, 0) == 1;
    assert StationOffer(q, 0, 0, 0) == Some(Journey(7, StationBike(1, 2, 1, 0, 0, 0)));
    assert OffersStation(q, 0);
    assert IsResult(q, 0, NO_JOURNEY);
    ResultIsBestIff(q, 0, NO_JOURNEY);
  }

  /** No journey is found iff none shorter than the limit is on offer. */
  lemma {:induction false} InvalidIff(q: Query, p: nat, best: Journey)
    requires Wf(q) && p < q.targets && IsResult(q, p, best)
    ensures best.info.Invalid? <==> forall j | Seen(q, p, |q.near|, StationRows(q), 0, j) :: j.total >= NO_DURATION
  {
    assert best == NO_JOURNEY ==> best.info.Invalid?;
    if best != NO_JOURNEY { SeenIsValid(q, p, |q.near|, StationRows(q), 0, best); }
  }

  lemma {:induction false} SeenIsValid(q: Query, p: nat, free: nat, sx: nat, sp: nat, j: Journey)
    requires Wf(q) && p < q.targets && Seen(q, p, free, sx, sp, j)
    ensures !j.info.Invalid?
  {}

  /** The legs add up to the total; but backward with a free bike nothing is added for getting the bike ready. */
  lemma {:induction false} LegsAddUp(q: Query, p: nat, best: Journey)
    requires Wf(q) && p < q.targets && IsResult(q, p, best) && !best.info.Invalid?
    ensures best.info.FreeBike? ==> best.total == best.info.walk + best.info.ride + if q.fwd then BIKE_READY_TIME else 0
    ensures best.info.StationBike? ==>
        best.total == best.info.firstWalk + best.info.ride + best.info.secondWalk + BIKE_READY_TIME
    ensures best.info.p == p && (q.fwd || p < q.stops)
  {}

  // ---------------------------------------------------------------- the journeys there are, written out

  /** By free bike: the bike is ready after three minutes, but only forward this counts; tables are bikes by targets
      forward, targets by bikes backward. */
  ghost predicate OffersFree(q: Query, p: nat, j: Journey)
    requires Wf(q) && p < q.targets && j.info.FreeBike?
  {
    var FreeBike(walk, ride, b, target) := j.info;
    && target == p && b < |q.near| && walk <= q.maxWalk && ride <= q.maxBike
    && if q.fwd then
         && b * q.targets + p < |q.nearTable| && walk == q.near[b] && ride == q.nearTable[b * q.targets + p]
         && j.total == 3 + walk + ride
       else
         && p < q.stops && p * |q.near| + b < |q.nearTable|
         && walk == q.nearTable[p * |q.near| + b] && ride == q.near[b] && j.total == walk + ride
  }

  /** By a bike from station to station: from the place to sx, by bike to sp, to the target; or the other way round,
      where sp must have a bike.  Both walks together are limited too. */
  ghost predicate OffersStationBike(q: Query, p: nat, j: Journey)
    requires Wf(q) && p < q.targets && j.info.StationBike?
  {
    var StationBike(first, ride, second, sx, sp, target) := j.info;
    && target == p && sx < |q.xWalks| && sp < q.sps
    && first + second <= q.maxWalk && ride <= q.maxBike && j.total == 3 + first + ride + second
    && if q.fwd then
         && sx * q.sps + sp < |q.rides| && sp * q.targets + p < |q.walks|
         && first == q.xWalks[sx] && ride == q.rides[sx * q.sps + sp] && second == q.walks[sp * q.targets + p]
       else
         && p < q.stops && q.bikes[sp] > 0 && sp * |q.xWalks| + sx < |q.rides| && p * q.sps + sp < |q.walks|
         && first == q.walks[p * q.sps + sp] && ride == q.rides[sp * |q.xWalks| + sx] && second == q.xWalks[sx]
  }

  /** A journey to (or from) target p that is looked at: backward none is if there is no free bike. */
  ghost predicate IsOffered(q: Query, p: nat, j: Journey)
    requires Wf(q) && p < q.targets
  {
    && (q.fwd || |q.near| > 0)
    && match j.info
       case Invalid => false
       case FreeBike(_, _, _, _) => OffersFree(q, p, j)
       case StationBike(_, _, _, _, _, _) => OffersStationBike(q, p, j)
  }

  lemma {:induction false} FreeOfferWrittenOut(q: Query, b: nat, p: nat, j: Journey)
    requires Wf(q) && b < |q.near| && p < q.targets
    ensures FreeOffer(q, b, p) == Some(j) <==> j.info.FreeBike? && j.info.b == b && OffersFree(q, p, j)
  {
    if q.fwd { InTable(|q.near|, q.targets, b, p); } else { InTable(q.targets, |q.near|, p, b); }
  }

  lemma {:induction false} StationOfferWrittenOut(q: Query, sx: nat, sp: nat, p: nat, j: Journey)
    requires Wf(q) && sx < |q.xWalks| && sp < q.sps && p < q.targets
    ensures StationOffer(q, sx, sp, p) == Some(j) <==>
      j.info.StationBike? && j.info.sx == sx && j.info.sp == sp && OffersStationBike(q, p, j)
  {
    if q.fwd {
      InTable(|q.xWalks|, q.sps, sx, sp);
      InTable(q.sps, q.targets, sp, p);
    } else {
      InTable(q.sps, |q.xWalks|, sp, sx);
      InTable(q.targets, q.sps, p, sp);
    }
  }

  lemma {:induction false} SeenIsOffered(q: Query, p: nat, j: Journey)
    requires Wf(q) && p < q.targets
    ensures Seen(q, p, |q.near|, StationRows(q), 0, j) <==> IsOffered(q, p, j)
  {
    hide FreeOffer, StationOffer, OffersFree, OffersStationBike;
    forall b: nat | b < |q.near|
      ensures FreeOffer(q, b, p) == Some(j) <==> j.info.FreeBike? && j.info.b == b && OffersFree(q, p, j)
    {
      FreeOfferWrittenOut(q, b, p, j);
    }
    forall sx: nat, sp: nat | sx < |q.xWalks| && sp < q.sps
      ensures StationOffer(q, sx, sp, p) == Some(j) <==>
        j.info.StationBike? && j.info.sx == sx && j.info.sp == sp && OffersStationBike(q, p, j)
    {
      StationOfferWrittenOut(q, sx, sp, p, j);
    }
    if IsOffered(q, p, j) {
      OfferedInRange(q, p, j);
      if j.info.FreeBike? {
        assert FreeOffer(q, j.info.b, p) == Some(j);
      } else {
        assert StationOffer(q, j.info.sx, j.info.sp, p) == Some(j);
      }
    }
  }

  lemma {:induction false} OfferedInRange(q: Query, p: nat, j: Journey)
    requires Wf(q) && p < q.targets && IsOffered(q, p, j)
    ensures j.info.FreeBike? ==> j.info.b < |q.near| && OffersFree(q, p, j)
    ensures j.info.StationBike? ==> j.info.sx < |q.xWalks| && j.info.sp < q.sps && OffersStationBike(q, p, j)
  {}

  /** One of the journeys looked at that is shorter than the longest time there is; or that time and no journey. */
  ghost predicate IsBestOffered(q: Query, p: nat, best: Journey)
    requires Wf(q) && p < q.targets
  {
    && (best == Journey(65535, Invalid) || (IsOffered(q, p, best) && best.total < 65535))
    && forall j | IsOffered(q, p, j) :: best.total <= j.total
  }

  /** The result for a target is one of the journeys looked at that is shorter than the longest time there is, and
      none of them is shorter; or there is none, and the result is the longest time and no journey. */
  lemma {:induction false} ResultWrittenOut(q: Query, p: nat, best: Journey)
    requires Wf(q) && p < q.targets
    ensures IsResult(q, p, best) <==> IsBestOffered(q, p, best)
  {
    hide Seen, IsOffered;
    forall j ensures Seen(q, p, |q.near|, StationRows(q), 0, j) <==> IsOffered(q, p, j) { SeenIsOffered(q, p, j); }
  }
}
