/**
 Journeys as the program patches them: stops are inserted in place, and all ranges, those of the patch list
 being walked included, are renumbered by loops.  Each method is tied to its value form in `JourneyModel`.
 */
module JourneyPatching {
  import opened JourneyModel
  import JourneyDetails

  const NO_EVENT := Event(false, 0, 0, 0)
  const NO_STOP := Stop("", "", 0.0, 0.0, NO_EVENT, NO_EVENT)

  /** Nothing is known of the stop: as scheduled, but not valid. */
  ghost predicate IsBlank(s: Stop) {
    && s.name == "" && s.evaNo == "" && s.lat == 0.0 && s.lng == 0.0 && s.arrival == s.departure
    && !s.arrival.valid && s.arrival.timestamp == 0 && s.arrival.scheduleTimestamp == 0 && s.arrival.reason == 0
  }

  /** No errors are reported iff every segment has a transport, none runs backwards, and times never decrease. */
  method CheckJourney(j: JourneyV) returns (ok: bool)
    requires |j.stops| >= 2 ==> forall k | 0 <= k < |j.transports| :: j.transports[k].to < |j.stops|
    ensures ok <==> Accepted(j)
  {
    var broken := false;
    if |j.stops| >= 2 {
      var n := |j.stops| - 1;
      var segmentTransports := new int[n](_ => 0);
      for i := 0 to |j.transports|
        invariant forall s | 0 <= s < n :: segmentTransports[s] == CountTo(j.transports, s, i)
        invariant broken <==> exists k | 0 <= k < i :: j.transports[k].from >= j.transports[k].to
      {
        var t := j.transports[i];
        if t.to <= t.from {
          broken := true;
        }
        var s := t.from;
        while s < t.to
          invariant t.from <= s
          invariant s <= t.to || s == t.from
          invariant forall x | 0 <= x < n ::
              segmentTransports[x] == CountTo(j.transports, x, i) + if t.from <= x < s then 1 else 0
        {
          segmentTransports[s] := segmentTransports[s] + 1;
          s := s + 1;
        }
      }
      assert CoverageOk(|j.stops|, j.transports) <==> !broken && forall s | 0 <= s < n :: segmentTransports[s] >= 1 by {
        forall s | 0 <= s < n ensures segmentTransports[s] == Count(j.transports, s) {}
      }
      ghost var backwards := broken;
      for i := 0 to n
        invariant broken <==> backwards || exists s | 0 <= s < i :: segmentTransports[s] < 1
      {
        if segmentTransports[i] < 1 {
          broken := true;
        }
      }
    } else if |j.stops| == 1 {
      broken := true;
    }
    assert !broken <==> CoverageOk(|j.stops|, j.transports);

    ghost var uncovered := broken;
    var i := 1;
    while i < |j.stops|
      invariant 1 <= i
      invariant broken <==> uncovered || exists x | 1 <= x < i && x < |j.stops| :: !LegAt(j.stops, x)
    {
      if j.stops[i].arrival.timestamp < j.stops[i - 1].departure.timestamp {
        broken := true;
      }
      assert LegAt(j.stops, i) <==> j.stops[i].arrival.timestamp >= j.stops[i - 1].departure.timestamp;
      i := i + 1;
    }
    assert !broken <==> !uncovered && LegsOk(j.stops);

    ghost var early := broken;
    for x := 0 to |j.stops|
      invariant broken <==> early || exists y | 0 <= y < x :: !StayOk(j.stops[y])
    {
      var stop := j.stops[x];
      if stop.arrival.valid && stop.departure.valid {
        if stop.departure.timestamp < stop.arrival.timestamp {
          broken := true;
        }
      }
    }
    ok := !broken;
  }

  method UpdateIndices<T>(v: seq<Ranged<T>>, n: nat) returns (r: seq<Ranged<T>>)
    ensures r == ShiftAll(v, n)
  {
    r := v;
    for i := 0 to |v|
      invariant |r| == |v|
      invariant forall k | 0 <= k < i :: r[k] == ShiftOne(v[k], n)
      invariant forall k | i <= k < |v| :: r[k] == v[k]
    {
      if r[i].from >= n {
        r := r[i := r[i].(from := r[i].from + 1)];
      }
      if r[i].to >= n {
        r := r[i := r[i].(to := r[i].to + 1)];
      }
    }
  }

  method UpdatePatches<E>(patches: array<Ranged<E>>, n: nat)
    modifies patches
    ensures patches[..] == ShiftAll(old(patches[..]), n)
  {
    for i := 0 to patches.Length
      invariant forall k | 0 <= k < i :: patches[k] == ShiftOne(old(patches[k]), n)
      invariant forall k | i <= k < patches.Length :: patches[k] == old(patches[k])
    {
      if patches[i].from >= n {
        patches[i] := patches[i].(from := patches[i].from + 1);
      }
      if patches[i].to >= n {
        patches[i] := patches[i].(to := patches[i].to + 1);
      }
    }
  }

  function GetParkingStation(index: nat): (r: Result<string>) {
    if index < MAX_PARKING_PATCHES then Ok(ViaName(index)) else Failed(ParkingEdgeError)
  }

  /** A stop that is filled in after the split might as well have been inserted whole. */
  lemma {:induction false} FilledStop(j: JourneyV, k: nat, s: Stop)
    requires CanSplit(j, k)
    ensures var r := SplitJourney(j, k, NO_STOP);
      r.(stops := r.stops[j.transports[k].to := s]) == SplitJourney(j, k, s)
  {
    var n := j.transports[k].to;
    assert (j.stops[..n] + [NO_STOP] + j.stops[n..])[n := s] == j.stops[..n] + [s] + j.stops[n..];
  }

  /** After a split the lookups find the two new transports, nothing before them. */
  lemma {:induction false} SplitIsFound(ts: Transports, k: nat)
    requires k < |ts| && ts[k].to == ts[k].from + 1 && Find(ts, ts[k].from, ts[k].to) == k
    ensures var f, r := ts[k].from, SplitTransports(ts, k);
      Find(r, f, f + 1) == k && Find(r, f + 1, f + 2) == k + 1
  {
    var f, r := ts[k].from, SplitTransports(ts, k);
    assert r[k] == Ranged(f, f + 1, ts[k].val) && r[k + 1] == Ranged(f + 1, f + 2, ts[k].val);
    forall x | 0 <= x < k
      ensures r[x].from != f + 1 && r[x].to != f + 1
    {
      assert r[x] == ShiftOne(ts[x], f + 1);
    }
  }

  lemma {:induction false} MumoCommutes(j: JourneyV, a: nat, m: string, b: nat, n: string)
    requires InRange(j) && a < |j.transports| && b < |j.transports| && a != b
    ensures SetMumo(SetMumo(j, a, m), b, n) == SetMumo(SetMumo(j, b, n), a, m)
  {
    var ts := j.transports;
    assert WithMumo(WithMumo(ts, a, m), b, n) == WithMumo(WithMumo(ts, b, n), a, m);
  }

  /** Renumbering, inserting a copy and moving one end of either copy makes the two new transports. */
  lemma {:induction false} SplitInPlace(ts: Transports, k: nat)
    requires k < |ts| && ts[k].to == ts[k].from + 1
    ensures var s := ShiftAll(ts, ts[k].to); var r := s[..k] + [s[k]] + s[k..];
      && r[k] == s[k] && r[k + 1] == s[k]
      && r[k := r[k].(to := ts[k].to)][k + 1 := r[k + 1].(from := ts[k].to)] == SplitTransports(ts, k)
  {
    var s := ShiftAll(ts, ts[k].to);
    assert s[k] == ShiftOne(ts[k], ts[k].to);
    var r := s[..k] + [s[k]] + s[k..];
    assert r[k := r[k].(to := ts[k].to)][k + 1 := r[k + 1].(from := ts[k].to)]
        == s[..k] + [Ranged(ts[k].from, ts[k].to, ts[k].val), Ranged(ts[k].to, ts[k].to + 1, ts[k].val)] + s[k + 1..];
  }

  /** Whether patch p can be applied, and to which transport. */
  function CheckPatch<E>(ts: Transports, p: Ranged<E>): Result<nat> {
    var k := Find(ts, p.from, p.to);
    if k == |ts| then Failed(ParkingEdgeError)
    else if p.to != p.from + 1 then Failed(InvalidTransport)
    else Ok(k)
  }

  function CheckParkingPatch(ts: Transports, p: Ranged<ParkingEdge>, i: nat): Result<nat> {
    var k := CheckPatch(ts, p);
    if k.Ok? && i >= MAX_PARKING_PATCHES then Failed(ParkingEdgeError) else k
  }

  lemma {:induction false} ParkingRound(j: JourneyV, ps: seq<Ranged<ParkingEdge>>, i: nat)
    requires InRange(j) && i < |ps|
    ensures match CheckParkingPatch(j.transports, ps[i], i)
      case Ok(k) => ApplyParking(j, ps, i) ==
        ApplyParking(ParkingSplit(j, k, ps[i].val, i), ShiftAll(ps, ps[i].to), i + 1)
      case Failed(e) => ApplyParking(j, ps, i) == Failed(e)
  {
    hide ParkingSplit, FindFrom, Find, ShiftAll;
  }

  lemma {:induction false} ParkingDone(j: JourneyV, ps: seq<Ranged<ParkingEdge>>)
    requires InRange(j)
    ensures ApplyParking(j, ps, |ps|) == Ok(j)
  {}

  lemma {:induction false} GbfsDone(j: JourneyV, ps: seq<Ranged<GbfsEdge>>)
    requires InRange(j)
    ensures ApplyGbfs(j, ps, |ps|) == Ok(j)
  {}

  lemma {:induction false} GbfsRound(j: JourneyV, ps: seq<Ranged<GbfsEdge>>, i: nat)
    requires InRange(j) && i < |ps|
    ensures match CheckPatch(j.transports, ps[i])
      case Ok(k) =>
        var shifted := ShiftAll(ps, ps[i].to);
        ApplyGbfs(j, ps, i) == (match ps[i].val.bike
          case FreeBike(_, _, _, _) => ApplyGbfs(FreeBikeSplit(j, k, ps[i].val.bike), shifted, i + 1)
          case StationBike(_, _, _, _, _, _, _, _, _) =>
            ApplyGbfs(StationBikeSplit(j, k, ps[i].val.vehicleType, ps[i].val.bike), ShiftAll(shifted, ps[i].to + 1), i
              + 1))
      case Failed(e) => ApplyGbfs(j, ps, i) == Failed(e)
  {
    hide FreeBikeSplit, StationBikeSplit, FindFrom, Find, ShiftAll;
  }

  lemma {:induction false} FilledStops(j: JourneyV, k: nat, s: Stop, t: Stop)
    requires CanSplit(j, k)
    ensures var n := j.transports[k].to; var r := SplitJourney(SplitJourney(j, k, NO_STOP), k + 1, NO_STOP);
      && n + 1 < |r.stops|
      && r.(stops := r.stops[n := s][n + 1 := t]) == SplitJourney(SplitJourney(j, k, s), k + 1, t)
  {
    var n, stops := j.transports[k].to, j.stops;
    var one, one' := stops[..n] + [NO_STOP] + stops[n..], stops[..n] + [s] + stops[n..];
    assert (one[..n + 1] + [NO_STOP] + one[n + 1..])[n := s][n + 1 := t] == one'[..n + 1] + [t] + one'[n + 1..];
  }

  /** After two splits the lookups find the three new transports. */
  lemma {:induction false} LegsAreFound(ts: Transports, k: nat)
    requires k < |ts| && ts[k].to == ts[k].from + 1 && Find(ts, ts[k].from, ts[k].to) == k
    ensures var f, r := ts[k].from, SplitTransports(SplitTransports(ts, k), k + 1);
      Find(r, f, f + 1) == k && Find(r, f + 1, f + 2) == k + 1 && Find(r, f + 2, f + 3) == k + 2
  {
    var f, one := ts[k].from, SplitTransports(ts, k);
    SplitIsFound(ts, k);
    SplitIsFound(one, k + 1);
    var r := SplitTransports(one, k + 1);
    assert one[k] == Ranged(f, f + 1, ts[k].val) && r[k] == ShiftOne(one[k], f + 2);
    forall x | 0 <= x < k
      ensures r[x].to != f + 1
    {
      assert one[x] == ShiftOne(ts[x], f + 1) && r[x] == ShiftOne(one[x], f + 2);
    }
  }

  /** What two splits with blank stops leave of transports and stops. */
  lemma {:induction false} SplitSplits(j: JourneyV, k: nat)
    requires CanSplit(j, k)
    ensures var f := j.transports[k].from; var r := SplitJourney(SplitJourney(j, k, NO_STOP), k + 1, NO_STOP);
      && r.transports == SplitTransports(SplitTransports(j.transports, k), k + 1)
        && |r.transports| == |j.transports| + 2
      && |r.stops| == |j.stops| + 2 && f + 2 < |r.stops| && r.stops[f] == j.stops[f]
  {}

  lemma {:induction false} MumoKeepsFind(ts: Transports, a: nat, m: string, from: nat, to: nat)
    requires a < |ts|
    ensures Find(WithMumo(ts, a, m), from, to) == Find(ts, from, to)
  {
    var r := WithMumo(ts, a, m);
    var x, y := Find(ts, from, to), Find(r, from, to);
    assert forall z | 0 <= z < |ts| :: r[z].from == ts[z].from && r[z].to == ts[z].to;
  }

  class Journey {
    var stops: seq<Stop>
    var transports: Transports
    var trips: seq<Ranged<string>>
    var attributes: seq<Ranged<string>>
    var freeTexts: seq<Ranged<string>>
    var problems: seq<Ranged<string>>

    ghost function Value(): JourneyV
      reads this
    {
      JourneyV(stops, transports, trips, attributes, freeTexts, problems)
    }

    constructor (j: JourneyV)
      ensures Value() == j
    {
      stops, transports, trips := j.stops, j.transports, j.trips;
      attributes, freeTexts, problems := j.attributes, j.freeTexts, j.problems;
    }

    /** Inserts a blank stop and renumbers everything, the patch list included. */
    method MakeRoom<E>(patches: array<Ranged<E>>, n: nat)
      requires n <= |stops|
      modifies this, patches
      ensures stops == old(stops[..n] + [NO_STOP] + stops[n..]) && transports == ShiftAll(old(transports), n)
      ensures trips == ShiftAll(old(trips), n) && attributes == ShiftAll(old(attributes), n)
      ensures freeTexts == ShiftAll(old(freeTexts), n) && problems == ShiftAll(old(problems), n)
      ensures patches[..] == ShiftAll(old(patches[..]), n)
    {
      stops := stops[..n] + [NO_STOP] + stops[n..];
      transports := UpdateIndices(transports, n);
      trips := UpdateIndices(trips, n);
      attributes := UpdateIndices(attributes, n);
      freeTexts := UpdateIndices(freeTexts, n);
      problems := UpdateIndices(problems, n);
      UpdatePatches(patches, n);
    }

    /** The index of the transport that was found and split; the new stop stands at index `to` and is still blank. */
    method SplitTransport<E>(patches: array<Ranged<E>>, from: nat, to: nat) returns (r: Result<nat>)
      requires InRange(Value()) && HasTransport(transports, from, to)
      modifies this, patches
      ensures r == if to == from + 1 then Ok(Find(old(transports), from, to)) else Failed(InvalidTransport)
      ensures r.Ok? ==> CanSplit(old(Value()), r.value) && Value() == SplitJourney(old(Value()), r.value, NO_STOP)
      ensures r.Ok? ==> to < |stops| && IsBlank(stops[to])
      ensures r.Ok? ==> patches[..] == ShiftAll(old(patches[..]), to)
      ensures r.Failed? ==> Value() == old(Value()) && patches[..] == old(patches[..])
    {
      hide Find, FindFrom;
      if to != from + 1 {
        return Failed(InvalidTransport);
      }
      ghost var j := Value();
      var idx := 0;
      while !(transports[idx].from == from && transports[idx].to == to)
        invariant 0 <= idx < |transports|
        invariant forall x | 0 <= x < idx :: transports[x].from != from || transports[x].to != to
        invariant unchanged(this) && patches[..] == old(patches[..])
        decreases |transports| - idx
      {
        idx := idx + 1;
      }
      MakeRoom(patches, to);
      SplitInPlace(j.transports, idx);
      hide HasTransport;
      transports := transports[..idx] + [transports[idx]] + transports[idx..];
      transports := transports[idx := transports[idx].(to := transports[idx].to - 1)];
      transports := transports[idx + 1 := transports[idx + 1].(from := transports[idx + 1].from + 1)];
      r := Ok(idx);
    }

    method GetTransport(from: nat, to: nat) returns (r: Result<nat>)
      ensures var k := Find(transports, from, to); r == if k < |transports| then Ok(k) else Failed(ParkingEdgeError)
    {
      var k := 0;
      while k < |transports|
        invariant 0 <= k <= |transports|
        invariant forall x | 0 <= x < k :: transports[x].from != from || transports[x].to != to
      {
        if transports[k].from == from && transports[k].to == to {
          return Ok(k);
        }
        k := k + 1;
      }
      r := Failed(ParkingEdgeError);
    }

    method SetMumoType(k: nat, mumo: string)
      requires InRange(Value()) && k < |transports|
      modifies this
      ensures Value() == SetMumo(old(Value()), k, mumo)
    {
      transports := transports[k := transports[k].(val := transports[k].val.(mumoType := mumo))];
    }

    /** Fills in the blank stop: the car park is reached `seconds` after stop `from` is left. */
    method PlaceCarPark(at: nat, from: nat, e: ParkingEdge, station: string, seconds: nat)
      requires at < |stops| && from < |stops|
      modifies this`stops
      ensures var d := old(stops[from]).departure;
        var ev := Event(true, d.timestamp + seconds, d.scheduleTimestamp + seconds, d.reason);
        stops == old(stops)[at := Stop(station, station, e.parkingPos.lat, e.parkingPos.lng, ev, ev)]
    {
      stops := stops[at := stops[at].(evaNo := station, name := station)];
      stops := stops[at := stops[at].(lat := e.parkingPos.lat, lng := e.parkingPos.lng)];
      var departure := stops[from].departure;
      stops := stops[at := stops[at].(arrival := Event(true, departure.timestamp + seconds, departure.scheduleTimestamp
        + seconds, departure.reason))];
      stops := stops[at := stops[at].(departure := stops[at].arrival)];
    }

    /** One round of the loop over the parking patches. */
    method ApplyParkingPatch(patches: array<Ranged<ParkingEdge>>, i: nat) returns (r: Result<nat>)
      requires InRange(Value()) && i < patches.Length
      modifies this, patches
      ensures r == CheckParkingPatch(old(transports), old(patches[i]), i)
      ensures r.Ok? ==>
          CanSplit(old(Value()), r.value)
          && Value() == ParkingSplit(old(Value()), r.value, old(patches[i]).val, i)
      ensures r.Ok? ==> patches[..] == ShiftAll(old(patches[..]), old(patches[i]).to)
    {
      hide SplitTransports, FindFrom, Find, ShiftAll, ParkingSplit;
      ghost var j := Value();
      var from, to, e := patches[i].from, patches[i].to, patches[i].val;
      var t := GetTransport(from, to);
      if t.Failed? { return t; }
      var carFirst := IsVirtual(stops[from]);
      var firstEdgeDuration := (if carFirst then e.carDuration else e.footDuration) * 60;
      var str := SplitTransport(patches, from, to);
      if str.Failed? { return str; }
      var parkingStation := GetParkingStation(i);
      if parkingStation.Failed? { return Failed(parkingStation.error); }
      PlaceCarPark(to, from, e, parkingStation.value, firstEdgeDuration);

      FilledStop(j, str.value, ParkingStop(j.stops[from], e, i));
      assert Value() == SplitJourney(j, str.value, ParkingStop(j.stops[from], e, i));
      hide *;
      MarkParked(j, str.value, e, i, carFirst);
      r := str;
    }

    /** The car park stands; its two legs are marked. */
    method MarkParked(ghost j: JourneyV, k: nat, ghost e: ParkingEdge, ghost i: nat, carFirst: bool)
      requires CanSplit(j, k) && i < MAX_PARKING_PATCHES && carFirst == IsVirtual(j.stops[j.transports[k].from])
      requires Value() == SplitJourney(j, k, ParkingStop(j.stops[j.transports[k].from], e, i))
      modifies this
      ensures Value() == ParkingSplit(j, k, e, i)
    {
      hide SplitJourney, ParkingStop;
      MarkDriveAndWalk(k, carFirst);
    }

    /** The two legs to and from the car park. */
    method MarkDriveAndWalk(first: nat, carFirst: bool)
      requires InRange(Value()) && first + 1 < |transports|
      modifies this
      ensures Value() == if carFirst then SetMumo(SetMumo(old(Value()), first, "car"), first + 1, "foot")
                         else SetMumo(SetMumo(old(Value()), first, "foot"), first + 1, "car")
    {
      var second := first + 1;
      ghost var split := Value();
      if carFirst {
        SetMumoType(first, "car");
        SetMumoType(second, "foot");
      } else {
        SetMumoType(second, "car");
        SetMumoType(first, "foot");
        MumoCommutes(split, first, "foot", second, "car");
      }
    }

    /** The loop over the parking patches computes `ApplyParking`. */
    method ApplyParkingPatches(patches: array<Ranged<ParkingEdge>>) returns (r: Result<()>)
      requires InRange(Value())
      modifies this, patches
      ensures r.Ok? ==> ApplyParking(old(Value()), old(patches[..]), 0) == Ok(Value())
      ensures r.Ok? ==> patches.Length <= 4 && forall c | 0 <= c < patches.Length ::
        JourneyDetails.ParkingStands(old(Value()), Value(), old(patches[..]), c)
      ensures r.Failed? ==> ApplyParking(old(Value()), old(patches[..]), 0) == Failed(r.error)
    {
      hide ApplyParking, ParkingSplit, CheckParkingPatch, CheckPatch, Find, FindFrom, ShiftAll, CanSplit,
        JourneyDetails.RestMoved, JourneyDetails.TransportsMoved, JourneyDetails.ParkingStands;
      var i := 0;
      while i < patches.Length
        invariant 0 <= i <= patches.Length
        invariant InRange(Value())
        invariant ApplyParking(old(Value()), old(patches[..]), 0) == ApplyParking(Value(), patches[..], i)
      {
        ParkingRound(Value(), patches[..], i);
        var p := ApplyParkingPatch(patches, i);
        if p.Failed? { return Failed(p.error); }
        i := i + 1;
      }
      ParkingDone(Value(), patches[..]);
      JourneyDetails.ParkingWrittenOut(old(Value()), old(patches[..]));
      r := Ok(());
    }

    /** Looks the transport up again, as the bike patches do, and marks it. */
    method MarkTransport(from: nat, to: nat, mumo: string) returns (r: Result<()>)
      requires InRange(Value())
      modifies this
      ensures var k := Find(old(transports), from, to);
        if k < old(|transports|) then r == Ok(()) && Value() == SetMumo(old(Value()), k, mumo)
            else r == Failed(ParkingEdgeError)
    {
      var t := GetTransport(from, to);
      if t.Failed? { return Failed(t.error); }
      SetMumoType(t.value, mumo);
      r := Ok(());
    }

    method PlaceBikeStop(at: nat, from: nat, name: string, id: string, pos: Pos, seconds: nat)
      requires at < |stops| && from < |stops|
      modifies this`stops
      ensures stops == old(stops)[at := BikeStop(old(stops[from]), seconds, name, id, pos)]
    {
      stops := stops[at := stops[at].(evaNo := id, name := name)];
      stops := stops[at := stops[at].(lat := pos.lat, lng := pos.lng)];
      stops := stops[at := stops[at].(arrival := stops[at].arrival.(valid := true,
        timestamp := stops[from].departure.timestamp + seconds))];
      stops := stops[at := stops[at].(arrival := stops[at].arrival.(scheduleTimestamp := stops[at].arrival.timestamp))];
      stops := stops[at := stops[at].(arrival := stops[at].arrival.(reason := stops[from].departure.reason))];
      stops := stops[at := stops[at].(departure := stops[at].arrival)];
    }

    /** The three legs of a station bike, by number of the segment they run over. */
    method MarkLegs(ghost k: nat, from: nat, vehicleType: string)
      requires InRange(Value()) && k + 2 < |transports| && Find(transports, from, from + 1) == k
      requires Find(transports, from + 1, from + 2) == k + 1 && Find(transports, from + 2, from + 3) == k + 2
      modifies this
      ensures Value() == SetMumo(SetMumo(SetMumo(old(Value()), k, "foot"), k + 1, vehicleType), k + 2, "foot")
    {
      MumoKeepsFind(transports, k, "foot", from + 1, from + 2);
      MumoKeepsFind(transports, k, "foot", from + 2, from + 3);
      MumoKeepsFind(WithMumo(transports, k, "foot"), k + 1, vehicleType, from + 2, from + 3);
      hide Find, FindFrom;
      var mark := MarkTransport(from, from + 1, "foot");
      mark := MarkTransport(from + 1, from + 2, vehicleType);
      mark := MarkTransport(from + 2, from + 3, "foot");
    }

    /** Splits a transport and then its second half. */
    method SplitTwice(patches: array<Ranged<GbfsEdge>>, from: nat, to: nat) returns (r: Result<nat>)
      requires InRange(Value()) && HasTransport(transports, from, to)
      modifies this, patches
      ensures r == if to == from + 1 then Ok(Find(old(transports), from, to)) else Failed(InvalidTransport)
      ensures r.Ok? ==> CanSplit(old(Value()), r.value)
      ensures r.Ok? ==> Value() == SplitJourney(SplitJourney(old(Value()), r.value, NO_STOP), r.value + 1, NO_STOP)
      ensures r.Ok? ==> patches[..] == ShiftAll(ShiftAll(old(patches[..]), to), to + 1)
      ensures r.Failed? ==> Value() == old(Value()) && patches[..] == old(patches[..])
    {
      var str1 := SplitTransport(patches, from, to);
      if str1.Failed? { return str1; }
      SplitIsFound(old(transports), str1.value);
      var second := transports[str1.value + 1];
      var str2 := SplitTransport(patches, second.from, second.to);
      r := str1;
    }

    /** Fills in the two blank stops and marks the three legs. */
    method FillStationBike(ghost j: JourneyV, ghost k: nat, from: nat, vehicleType: string, s: Bike)
      requires CanSplit(j, k) && k == Find(j.transports, from, from + 1) && s.StationBike?
      requires Value() == SplitJourney(SplitJourney(j, k, NO_STOP), k + 1, NO_STOP)
      modifies this
      ensures Value() == StationBikeSplit(j, k, vehicleType, s)
    {
      hide SplitJourney, SplitTransports, FindFrom, Find, ShiftAll;
      LegsAreFound(j.transports, k);
      SplitSplits(j, k);
      PlaceBikeStop(from + 1, from, s.fromName, s.fromId, s.fromPos, s.firstWalk * 60);
      PlaceBikeStop(from + 2, from + 1, s.toName, s.toId, s.toPos, s.bike * 60);
      FilledStops(j, k, stops[from + 1], stops[from + 2]);
      MarkLegs(k, from, vehicleType);
    }

    /** One round of the loop over the bike patches, for a station bike. */
    method ApplyStationBike(patches: array<Ranged<GbfsEdge>>, i: nat) returns (r: Result<nat>)
      requires InRange(Value()) && i < patches.Length && patches[i].val.bike.StationBike?
      modifies this, patches
      ensures r == CheckPatch(old(transports), old(patches[i]))
      ensures r.Ok? ==> CanSplit(old(Value()), r.value)
      ensures r.Ok? ==>
          Value() ==
          StationBikeSplit(old(Value()), r.value, old(patches[i]).val.vehicleType, old(patches[i]).val.bike)
      ensures r.Ok? ==> patches[..] == ShiftAll(ShiftAll(old(patches[..]), old(patches[i]).to), old(patches[i]).to + 1)
      ensures r.Failed? ==> Value() == old(Value()) && patches[..] == old(patches[..])
    {
      hide StationBikeSplit, SplitJourney, SplitTransports, FindFrom, ShiftAll;
      ghost var j := Value();
      var from, to, e := patches[i].from, patches[i].to, patches[i].val;
      var s := e.bike;
      var t := GetTransport(from, to);
      if t.Failed? { return t; }
      r := SplitTwice(patches, from, to);
      if r.Failed? { return; }
      FillStationBike(j, r.value, from, e.vehicleType, s);
    }

    /** One round of the loop over the bike patches, for a bike parked anywhere. */
    method ApplyFreeBike(patches: array<Ranged<GbfsEdge>>, i: nat) returns (r: Result<nat>)
      requires InRange(Value()) && i < patches.Length && patches[i].val.bike.FreeBike?
      modifies this, patches
      ensures r == CheckPatch(old(transports), old(patches[i]))
      ensures r.Ok? ==>
          CanSplit(old(Value()), r.value)
          && Value() == FreeBikeSplit(old(Value()), r.value, old(patches[i]).val.bike)
      ensures r.Ok? ==> patches[..] == ShiftAll(old(patches[..]), old(patches[i]).to)
      ensures r.Failed? ==> Value() == old(Value()) && patches[..] == old(patches[..])
    {
      hide IsBlank, FindFrom, ShiftAll, SplitTransports;
      ghost var j := Value();
      var from, to, b := patches[i].from, patches[i].to, patches[i].val.bike;
      var t := GetTransport(from, to);
      if t.Failed? { return t; }
      var str := SplitTransport(patches, from, to);
      if str.Failed? { return str; }
      PlaceBikeStop(to, from, b.id, b.id, b.pos, b.walk * 60);
      FilledStop(j, str.value, stops[to]);
      SetMumoType(str.value, "foot");
      SetMumoType(str.value + 1, "bike");
      r := str;
    }

    /** The loop over the bike patches computes `ApplyGbfs`. */
    method ApplyGbfsPatches(patches: array<Ranged<GbfsEdge>>) returns (r: Result<()>)
      requires InRange(Value())
      modifies this, patches
      ensures r.Ok? ==> ApplyGbfs(old(Value()), old(patches[..]), 0) == Ok(Value())
      ensures r.Ok? ==> forall c | 0 <= c < patches.Length ::
        JourneyDetails.RideStands(old(Value()), Value(), old(patches[..]), c)
      ensures r.Failed? ==> ApplyGbfs(old(Value()), old(patches[..]), 0) == Failed(r.error)
    {
      hide ApplyGbfs, FreeBikeSplit, StationBikeSplit, CheckPatch, Find, FindFrom, ShiftAll, CanSplit,
        JourneyDetails.RestMoved, JourneyDetails.TransportsMoved, JourneyDetails.RideStands;
      var i := 0;
      while i < patches.Length
        invariant 0 <= i <= patches.Length
        invariant InRange(Value())
        invariant ApplyGbfs(old(Value()), old(patches[..]), 0) == ApplyGbfs(Value(), patches[..], i)
      {
        GbfsRound(Value(), patches[..], i);
        var p;
        if patches[i].val.bike.StationBike? {
          p := ApplyStationBike(patches, i);
        } else {
          p := ApplyFreeBike(patches, i);
        }
        if p.Failed? { return Failed(p.error); }
        i := i + 1;
      }
      GbfsDone(Value(), patches[..]);
      JourneyDetails.GbfsWrittenOut(old(Value()), old(patches[..]));
      r := Ok(());
    }
  }
}
