/**
 Journeys as values: the validity check, the split of one walk into two or three legs, and what a whole
 list of patches does.  `JourneyPatching` (JourneyPatching.dfy) holds the in-place form.
 */
module JourneyModel {

  const STATION_START := "START"
  const STATION_END := "END"
  const MAX_PARKING_PATCHES := 4  // VIA0 .. VIA3

  datatype Event = Event(valid: bool, timestamp: int, scheduleTimestamp: int, reason: int)

  datatype Stop = Stop(name: string, evaNo: string, lat: real, lng: real, arrival: Event, departure: Event)

  /** Anything that spans the stops from..to of a journey. */
  datatype Ranged<T> = Ranged(from: nat, to: nat, val: T)

  /** `detail` stands for the fields of a transport that patching only copies. */
  datatype TransportInfo = TransportInfo(mumoType: string, detail: string)

  type Transports = seq<Ranged<TransportInfo>>

  datatype JourneyV = JourneyV(stops: seq<Stop>, transports: Transports, trips: seq<Ranged<string>>,
                               attributes: seq<Ranged<string>>, freeTexts: seq<Ranged<string>>,
                                 problems: seq<Ranged<string>>)

  datatype Pos = Pos(lat: real, lng: real)

  datatype ParkingEdge = ParkingEdge(carDuration: nat, footDuration: nat, parkingPos: Pos)

  datatype Bike =
    | StationBike(firstWalk: nat, bike: nat, secondWalk: nat,
                  fromName: string, fromId: string, fromPos: Pos, toName: string, toId: string, toPos: Pos)
    | FreeBike(walk: nat, ride: nat, id: string, pos: Pos)

  datatype GbfsEdge = GbfsEdge(vehicleType: string, bike: Bike)

  datatype Error = ParkingEdgeError | InvalidTransport

  datatype Result<+T> = Ok(value: T) | Failed(error: Error)

  // ---------------------------------------------------------------- validity

  predicate Covers<T>(r: Ranged<T>, s: nat) {
    r.from <= s < r.to
  }

  /** How many of the first n ranges cover segment s, the one between stops s and s + 1. */
  function CountTo<T>(v: seq<Ranged<T>>, s: nat, n: nat): nat
    requires n <= |v|
  {
    if n == 0 then 0 else CountTo(v, s, n - 1) + if Covers(v[n - 1], s) then 1 else 0
  }

  function Count<T>(v: seq<Ranged<T>>, s: nat): nat {
    CountTo(v, s, |v|)
  }

  /** The journeys that are patched: at least two stops, and every transport runs between two of them. */
  predicate InRange(j: JourneyV) {
    |j.stops| >= 2 && forall k | 0 <= k < |j.transports| ::
      j.transports[k].from < |j.stops|
      && j.transports[k].to < |j.stops|
  }

  predicate CoverageOk(stops: nat, ts: Transports) {
    && stops != 1
    && (stops >= 2 ==>
          && (forall k | 0 <= k < |ts| :: ts[k].from < ts[k].to)
          && (forall s | 0 <= s < stops - 1 :: Count(ts, s) >= 1))
  }

  predicate LegOk(a: Stop, b: Stop) {
    b.arrival.timestamp >= a.departure.timestamp
  }

  predicate StayOk(s: Stop) {
    s.arrival.valid && s.departure.valid ==> s.departure.timestamp >= s.arrival.timestamp
  }

  /** Stop i is not reached before stop i - 1 is left. */
  predicate LegAt(stops: seq<Stop>, i: nat)
    requires 1 <= i < |stops|
  {
    LegOk(stops[i - 1], stops[i])
  }

  predicate LegsOk(stops: seq<Stop>) {
    forall i | 1 <= i < |stops| :: LegAt(stops, i)
  }

  predicate StaysOk(stops: seq<Stop>) {
    forall i | 0 <= i < |stops| :: StayOk(stops[i])
  }

  predicate TimesOk(stops: seq<Stop>) {
    LegsOk(stops) && StaysOk(stops)
  }

  predicate Accepted(j: JourneyV) {
    CoverageOk(|j.stops|, j.transports) && TimesOk(j.stops)
  }

  // ---------------------------------------------------------------- one split

  function Shift(i: nat, n: nat): nat {
    if i >= n then i + 1 else i
  }

  function ShiftOne<T>(r: Ranged<T>, n: nat): Ranged<T> {
    r.(from := Shift(r.from, n), to := Shift(r.to, n))
  }

  function ShiftAll<T>(v: seq<Ranged<T>>, n: nat): (r: seq<Ranged<T>>)
    ensures |r| == |v| && forall k | 0 <= k < |v| :: r[k] == ShiftOne(v[k], n)
  {
    seq(|v|, k requires 0 <= k < |v| => ShiftOne(v[k], n))
  }

  /** The first transport from..to at or after i, or |ts| if there is none. */
  function FindFrom(ts: Transports, from: nat, to: nat, i: nat): (k: nat)
    requires i <= |ts|
    ensures i <= k <= |ts|
    ensures k < |ts| ==> ts[k].from == from && ts[k].to == to
    ensures forall x | i <= x < k :: ts[x].from != from || ts[x].to != to
    decreases |ts| - i
  {
    if i == |ts| || (ts[i].from == from && ts[i].to == to) then i else FindFrom(ts, from, to, i + 1)
  }

  function Find(ts: Transports, from: nat, to: nat): (k: nat)
    ensures k <= |ts|
    ensures k < |ts| ==> ts[k].from == from && ts[k].to == to
    ensures forall x | 0 <= x < k :: ts[x].from != from || ts[x].to != to
  {
    FindFrom(ts, from, to, 0)
  }

  predicate HasTransport(ts: Transports, from: nat, to: nat) {
    exists k :: 0 <= k < |ts| && ts[k].from == from && ts[k].to == to
  }

  /** Transport k, which runs f -> f + 1, becomes the two transports f -> f + 1 and f + 1 -> f + 2. */
  function SplitTransports(ts: Transports, k: nat): Transports
    requires k < |ts| && ts[k].to == ts[k].from + 1
  {
    var f := ts[k].from;
    var shifted := ShiftAll(ts, f + 1);
    shifted[..k] + [Ranged(f, f + 1, ts[k].val), Ranged(f + 1, f + 2, ts[k].val)] + shifted[k + 1..]
  }

  predicate CanSplit(j: JourneyV, k: nat) {
    InRange(j) && k < |j.transports| && j.transports[k].to == j.transports[k].from + 1
  }

  function SplitJourney(j: JourneyV, k: nat, stop: Stop): (r: JourneyV)
    requires CanSplit(j, k)
    ensures InRange(r) && |r.stops| == |j.stops| + 1 && |r.transports| == |j.transports| + 1
    ensures r.transports[k].from == j.transports[k].from && r.transports[k].to == j.transports[k].to
    ensures r.transports[k + 1].from == j.transports[k].to && r.transports[k + 1].to == j.transports[k].to + 1
  {
    var n := j.transports[k].to;
    JourneyV(j.stops[..n] + [stop] + j.stops[n..], SplitTransports(j.transports, k), ShiftAll(j.trips, n),
             ShiftAll(j.attributes, n), ShiftAll(j.freeTexts, n), ShiftAll(j.problems, n))
  }

  function WithMumo(ts: Transports, k: nat, mumo: string): Transports
    requires k < |ts|
  {
    ts[k := ts[k].(val := ts[k].val.(mumoType := mumo))]
  }

  function SetMumo(j: JourneyV, k: nat, mumo: string): (r: JourneyV)
    requires InRange(j) && k < |j.transports|
    ensures InRange(r) && |r.transports| == |j.transports|
  {
    j.(transports := WithMumo(j.transports, k, mumo))
  }

  // ---------------------------------------------------------------- parking patches

  predicate IsVirtual(s: Stop) {
    s.name == STATION_START || s.name == STATION_END
  }

  function ViaName(index: nat): string
    requires index < MAX_PARKING_PATCHES
  {
    if index == 0 then "VIA0" else if index == 1 then "VIA1" else if index == 2 then "VIA2" else "VIA3"
  }

  /** Seconds of the first leg: by car when coming from the start or end point, on foot otherwise. */
  function ParkingSeconds(from: Stop, e: ParkingEdge): nat {
    (if IsVirtual(from) then e.carDuration else e.footDuration) * 60
  }

  function ParkingStop(from: Stop, e: ParkingEdge, index: nat): Stop
    requires index < MAX_PARKING_PATCHES
  {
    var d := ParkingSeconds(from, e);
    var ev := Event(true, from.departure.timestamp + d, from.departure.scheduleTimestamp + d, from.departure.reason);
    Stop(ViaName(index), ViaName(index), e.parkingPos.lat, e.parkingPos.lng, ev, ev)
  }

  function ParkingSplit(j: JourneyV, k: nat, e: ParkingEdge, index: nat): (r: JourneyV)
    requires CanSplit(j, k) && index < MAX_PARKING_PATCHES
    ensures InRange(r)
  {
    var from := j.stops[j.transports[k].from];
    var j1 := SplitJourney(j, k, ParkingStop(from, e, index));
    if IsVirtual(from) then SetMumo(SetMumo(j1, k, "car"), k + 1, "foot")
    else SetMumo(SetMumo(j1, k, "foot"), k + 1, "car")
  }

  /** Patches i, i + 1, ... are applied; each split also renumbers the patch list. */
  function ApplyParking(j: JourneyV, ps: seq<Ranged<ParkingEdge>>, i: nat): Result<JourneyV>
    requires InRange(j) && i <= |ps|
    decreases |ps| - i
  {
    if i == |ps| then Ok(j)
    else
      var k := Find(j.transports, ps[i].from, ps[i].to);
      if k == |j.transports| then Failed(ParkingEdgeError)
      else if ps[i].to != ps[i].from + 1 then Failed(InvalidTransport)
      else if i >= MAX_PARKING_PATCHES then Failed(ParkingEdgeError)
      else ApplyParking(ParkingSplit(j, k, ps[i].val, i), ShiftAll(ps, ps[i].from + 1), i + 1)
  }

  // ---------------------------------------------------------------- bike patches

  function BikeEvent(from: Stop, d: nat): Event {
    Event(true, from.departure.timestamp + d, from.departure.timestamp + d, from.departure.reason)
  }

  function BikeStop(from: Stop, d: nat, name: string, id: string, pos: Pos): Stop {
    Stop(name, id, pos.lat, pos.lng, BikeEvent(from, d), BikeEvent(from, d))
  }

  function FreeBikeSplit(j: JourneyV, k: nat, b: Bike): (r: JourneyV)
    requires CanSplit(j, k) && b.FreeBike?
    ensures InRange(r)
  {
    var from := j.stops[j.transports[k].from];
    SetMumo(SetMumo(SplitJourney(j, k, BikeStop(from, b.walk * 60, b.id, b.id, b.pos)), k, "foot"), k + 1, "bike")
  }

  /** X --walk--> (SX) --bike--> (SP) --walk--> P: two splits. */
  function StationBikeSplit(j: JourneyV, k: nat, vehicleType: string, b: Bike): (r: JourneyV)
    requires CanSplit(j, k) && b.StationBike?
    ensures InRange(r)
  {
    var f := j.transports[k].from;
    var s1 := BikeStop(j.stops[f], b.firstWalk * 60, b.fromName, b.fromId, b.fromPos);
    var s2 := BikeStop(s1, b.bike * 60, b.toName, b.toId, b.toPos);
    var j2 := SplitJourney(SplitJourney(j, k, s1), k + 1, s2);
    SetMumo(SetMumo(SetMumo(j2, k, "foot"), k + 1, vehicleType), k + 2, "foot")
  }

  function ApplyGbfs(j: JourneyV, ps: seq<Ranged<GbfsEdge>>, i: nat): Result<JourneyV>
    requires InRange(j) && i <= |ps|
    decreases |ps| - i
  {
    if i == |ps| then Ok(j)
    else
      var k := Find(j.transports, ps[i].from, ps[i].to);
      if k == |j.transports| then Failed(ParkingEdgeError)
      else if ps[i].to != ps[i].from + 1 then Failed(InvalidTransport)
      else
        var shifted := ShiftAll(ps, ps[i].from + 1);
        if ps[i].val.bike.FreeBike? then ApplyGbfs(FreeBikeSplit(j, k, ps[i].val.bike), shifted, i + 1)
        else ApplyGbfs(StationBikeSplit(j, k, ps[i].val.vehicleType, ps[i].val.bike),
                       ShiftAll(shifted, ps[i].from + 2), i + 1)
  }
}
