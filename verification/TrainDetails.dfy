/**
 Trains on the map against a walker: the coordinates of a way one after the other in the order of travel, and the
 distance walked along them.  A train is drawn where the walker is when the same share of the time has passed.
 */
module TrainDetails {
  import RailvizIndex
  import opened TrainModel
  import opened TrainTheorems

  /** The l-th coordinate on the way along a polyline. */
  function Passed(r: PolylineRef, l: nat): Point
    requires l < |r.polyline.coords|
  {
    r.polyline.coords[if r.fwd then l else |r.polyline.coords| - 1 - l]
  }

  /** The distance walked along a polyline up to its l-th coordinate. */
  function Walked(r: PolylineRef, dist: (Point, Point) -> real, l: nat): real
    requires l < |r.polyline.coords|
  {
    if l == 0 then 0.0 else Walked(r, dist, l - 1) + dist(Passed(r, l - 1), Passed(r, l))
  }

  /** The distance walked along the first k polylines. */
  function WalkedAll(refs: seq<PolylineRef>, dist: (Point, Point) -> real, k: nat): real
    requires k <= |refs| && forall i | 0 <= i < |refs| :: |refs[i].polyline.coords| >= 1
  {
    if k == 0 then 0.0
    else WalkedAll(refs, dist, k - 1) + Walked(refs[k - 1], dist, |refs[k - 1].polyline.coords| - 1)
  }

  /** The lengths of the lines are the distances of their ends, in either direction. */
  ghost predicate MeasuredBy(p: Polyline, dist: (Point, Point) -> real) {
    |p.lengths| == |p.coords| - 1
      && forall i | 0 <= i < |p.lengths| :: p.lengths[i] == dist(p.coords[i], p.coords[i + 1])
  }

  ghost predicate Symmetric(dist: (Point, Point) -> real) {
    forall a, b :: dist(a, b) == dist(b, a)
  }

  ghost predicate Surveyed(p: Path, dist: (Point, Point) -> real) {
    WfPath(p) && Symmetric(dist) && forall k | 0 <= k < |p.refs| :: MeasuredBy(p.refs[k].polyline, dist)
  }

  // ---------------------------------------------------------------- lines

  /** Line l leads from coordinate l of the way to the next, and is as long as these are apart. */
  lemma {:induction false} LineIsPassed(r: PolylineRef, dist: (Point, Point) -> real, l: nat)
    requires HasLine(r, l) && MeasuredBy(r.polyline, dist) && Symmetric(dist)
    ensures LineFrom(r, l) == Passed(r, l) && LineTo(r, l) == Passed(r, l + 1)
    ensures LineLength(r, l) == dist(Passed(r, l), Passed(r, l + 1))
  {}

  lemma {:induction false} LineStartWalked(r: PolylineRef, dist: (Point, Point) -> real, l: nat)
    requires HasLine(r, l) && MeasuredBy(r.polyline, dist) && Symmetric(dist)
    ensures LineStart(r, l) == r.offset + Walked(r, dist, l)
  {
    LinesTile(r, l);
    if l == 0 {
      LinesTile(r, 0);
    } else {
      LineStartWalked(r, dist, l - 1);
      LinesTile(r, l - 1);
      LineIsPassed(r, dist, l - 1);
    }
  }

  lemma {:induction false} TotalWalked(r: PolylineRef, dist: (Point, Point) -> real)
    requires WfPolyline(r.polyline) && MeasuredBy(r.polyline, dist) && Symmetric(dist)
    ensures r.polyline.total == Walked(r, dist, |r.polyline.coords| - 1)
  {
    var last: nat := r.polyline.LineCount() - 1;
    LineStartWalked(r, dist, last);
    LineIsPassed(r, dist, last);
    LinesTile(r, last);
  }

  /** Each polyline starts where those before it end. */
  lemma {:induction false} OffsetWalked(p: Path, dist: (Point, Point) -> real, k: nat)
    requires Surveyed(p, dist) && k <= |p.refs|
    ensures (if k < |p.refs| then p.refs[k].offset else p.total) == WalkedAll(p.refs, dist, k)
  {
    if k > 0 {
      OffsetWalked(p, dist, k - 1);
      TotalWalked(p.refs[k - 1], dist);
      assert RefOk(p, k - 1);
    }
  }

  // ---------------------------------------------------------------- the theorem

  /** The cursor stands on the segment from coordinate l of polyline k to the next, at a share of it such that the way
      up to there is `way`. */
  ghost predicate StandsAfter(p: Path, dist: (Point, Point) -> real, c: Cursor, way: real) {
    && c.At? && c.progress.Finite? && 0.0 <= c.progress.value <= 1.0
    && c.poly < |p.refs| && c.line + 1 < |p.refs[c.poly].polyline.coords|
    && (forall i | 0 <= i < |p.refs| :: |p.refs[i].polyline.coords| >= 1)
    && var r := p.refs[c.poly];
    && var a, b := Passed(r, c.line), Passed(r, c.line + 1);
    && WalkedAll(p.refs, dist, c.poly) + Walked(r, dist, c.line) + c.progress.value * dist(a, b) == way
  }

  lemma {:induction false} PlacedStands(p: Path, dist: (Point, Point) -> real, c: Cursor, pos: real)
    requires Surveyed(p, dist) && InBounds(p, c) && Placed(p, c, pos)
    ensures StandsAfter(p, dist, c, pos)
    ensures MercatorLine(p, c) == Segment(Passed(p.refs[c.poly], c.line), Passed(p.refs[c.poly], c.line + 1))
  {
    LineIsPassed(p.refs[c.poly], dist, c.line);
    LineStartWalked(p.refs[c.poly], dist, c.line);
    OffsetWalked(p, dist, c.poly);
  }

  /** After any run of times that does not go backwards, a train on its way stands, and is drawn, where a walker stands
      who has walked the same share of the whole way as has passed of the time. */
  lemma {:induction false} DrawnWhereWalked(p: Path, dist: (Point, Point) -> real, times: seq<real>, n: nat)
    returns (way: real)
    requires Surveyed(p, dist) && Nondecreasing(times) && 0 < n <= |times|
    requires p.dTime <= times[n - 1] <= p.aTime
    ensures var c, whole := Run(p, times, n), WalkedAll(p.refs, dist, |p.refs|);
      && StandsAfter(p, dist, c, way) && way * (p.aTime - p.dTime) == (times[n - 1] - p.dTime) * whole
      && MercatorLine(p, c) == Segment(Passed(p.refs[c.poly], c.line), Passed(p.refs[c.poly], c.line + 1))
  {
    hide *;
    SurveyedPath(p, dist);
    RunPlaces(p, times, n);
    OffsetWalked(p, dist, |p.refs|);
    OnTheWay(p, times[n - 1]);
    DueWrittenOut(p, times[n - 1]);
    way := Due(p, times[n - 1]);
    PlacedStands(p, dist, Run(p, times, n), way);
  }

  lemma {:induction false} SurveyedPath(p: Path, dist: (Point, Point) -> real)
    requires Surveyed(p, dist)
    ensures WfPath(p) && |p.refs| >= 1 && p.dTime < p.aTime
    ensures InBounds(p, Hidden) && forall i | 0 <= i < |p.refs| :: |p.refs[i].polyline.coords| >= 1
  {}

  lemma {:induction false} OnTheWay(p: Path, time: real)
    ensures Visible(p, time) <==> p.dTime <= time <= p.aTime
  {}

  lemma {:induction false} DueWrittenOut(p: Path, time: real)
    requires p.dTime < p.aTime
    ensures Due(p, time) * (p.aTime - p.dTime) == (time - p.dTime) * p.total
  {
    var share := (time - p.dTime) / (p.aTime - p.dTime);
    DividedBack(time - p.dTime, p.aTime - p.dTime);
    assert share * p.total * (p.aTime - p.dTime) == share * (p.aTime - p.dTime) * p.total;
  }

  lemma {:induction false} DividedBack(a: real, b: real)
    requires b > 0.0
    ensures a / b * b == a
  {}

  lemma {:induction false} DueAtEnds(p: Path)
    requires p.dTime < p.aTime
    ensures Due(p, p.dTime) == 0.0 && Due(p, p.aTime) == p.total
  {
    var span := p.aTime - p.dTime;
    DividedBack(p.dTime - p.dTime, span);
    DividedBack(span, span);
    var none, all := (p.dTime - p.dTime) / span, span / span;
    assert none == 0.0 by { NoFactor(none, span); }
    assert all == 1.0 by {
      assert (all - 1.0) * span == 0.0;
      NoFactor(all - 1.0, span);
    }
  }

  lemma {:induction false} NoFactor(x: real, y: real)
    requires y > 0.0 && x * y == 0.0
    ensures x == 0.0
  {}

  /** Progress is the share of the line; on a line without length it is none at its place, and without bound off it. */
  lemma {:induction false} QuotientWrittenOut(a: real, b: real)
    ensures b != 0.0 ==> Quotient(a, b).Finite? && Quotient(a, b).value * b == a
    ensures b == 0.0 ==> Quotient(a, b) == if a < 0.0 then NegInfinity else if a > 0.0 then PosInfinity else Finite(0.0)
  {}

  // ---------------------------------------------------------------- where the way begins and ends

  /** Each polyline starts at the point where the one before ends, and no two points are at the same place. */
  ghost predicate Connected(p: Path, dist: (Point, Point) -> real) {
    && (forall k | 0 <= k < |p.refs| :: |p.refs[k].polyline.coords| >= 1)
    && (forall k | 0 <= k < |p.refs| - 1 ::
          Passed(p.refs[k], |p.refs[k].polyline.coords| - 1) == Passed(p.refs[k + 1], 0))
    && forall a, b | dist(a, b) == 0.0 :: a == b
  }

  lemma {:induction false} ConnectedIsJoinedUp(p: Path, dist: (Point, Point) -> real)
    requires Surveyed(p, dist) && Connected(p, dist)
    ensures JoinedUp(p)
  {
    forall k | 0 <= k < |p.refs| - 1
      ensures LineTo(p.refs[k], p.refs[k].polyline.LineCount() - 1) == LineFrom(p.refs[k + 1], 0)
    {
      LineIsPassed(p.refs[k], dist, p.refs[k].polyline.LineCount() - 1);
      LineIsPassed(p.refs[k + 1], dist, 0);
    }
    forall k, l | 0 <= k < |p.refs| && 0 <= l < p.refs[k].polyline.LineCount() && LineLength(p.refs[k], l) == 0.0
      ensures LineFrom(p.refs[k], l) == LineTo(p.refs[k], l)
    {
      LineIsPassed(p.refs[k], dist, l);
    }
  }

  /** The polylines of a way are those of the server's signed indices. */
  ghost predicate FromIndices(p: Path, coords: seq<seq<Point>>, indices: seq<int>) {
    && |p.refs| == |indices| >= 1
    && forall k | 0 <= k < |indices| :: IsIndexed(p.refs[k], coords, indices[k])
  }

  ghost predicate IsIndexed(r: PolylineRef, coords: seq<seq<Point>>, index: int) {
    RailvizIndex.Abs(index) < |coords| && r.polyline.coords == coords[RailvizIndex.Abs(index)] && (r.fwd <==> index > 0)
  }

  /** At its departure a train is drawn at the client's first coordinate, at its arrival at the last one. */
  lemma {:induction false} DrawnAtEnds(p: Path, dist: (Point, Point) -> real, coords: seq<seq<Point>>,
                                       indices: seq<int>)
    requires Surveyed(p, dist) && Connected(p, dist) && FromIndices(p, coords, indices)
    ensures var c, d := Update(p, Hidden, p.dTime), Update(p, Hidden, p.aTime);
      && c.At? && c.progress.Finite? && d.At? && d.progress.Finite?
      && HasCoordinates(coords, indices[0]) && HasCoordinates(coords, indices[|indices| - 1])
      && DrawnPoint(p, c) == RailvizIndex.FirstCoordinate(coords, indices[0])
      && DrawnPoint(p, d) == RailvizIndex.LastCoordinate(coords, indices[|indices| - 1])
  {
    hide *;
    SurveyedPath(p, dist);
    ConnectedIsJoinedUp(p, dist);
    DrawnAtStart(p, dist);
    DrawnAtEnd(p, dist);
    FirstOfIndices(p, coords, indices);
  }

  predicate HasCoordinates(coords: seq<seq<Point>>, index: int) {
    RailvizIndex.Abs(index) < |coords| && |coords[RailvizIndex.Abs(index)]| > 0
  }

  lemma {:induction false} FirstOfIndices(p: Path, coords: seq<seq<Point>>, indices: seq<int>)
    requires FromIndices(p, coords, indices) && forall i | 0 <= i < |p.refs| :: |p.refs[i].polyline.coords| >= 1
    ensures |p.refs| == |indices| >= 1
    ensures HasCoordinates(coords, indices[0]) && HasCoordinates(coords, indices[|indices| - 1])
    ensures Passed(p.refs[0], 0) == RailvizIndex.FirstCoordinate(coords, indices[0])
    ensures var last := p.refs[|p.refs| - 1];
      Passed(last, |last.polyline.coords| - 1) == RailvizIndex.LastCoordinate(coords, indices[|indices| - 1])
  {
    assert IsIndexed(p.refs[0], coords, indices[0]) && IsIndexed(p.refs[|indices| - 1], coords, indices[|indices| - 1]);
  }

  lemma {:induction false} DrawnAtStart(p: Path, dist: (Point, Point) -> real)
    requires Surveyed(p, dist) && JoinedUp(p)
    ensures var c := Update(p, Hidden, p.dTime);
      c.At? && c.progress.Finite? && DrawnPoint(p, c) == Passed(p.refs[0], 0)
  {
    hide *;
    SurveyedPath(p, dist);
    var c, first := Update(p, Hidden, p.dTime), At(0, 0, Finite(0.0));
    OnTheWay(p, p.dTime);
    UpdatePlaced(p, p.dTime);
    DueAtEnds(p);
    FirstPlaced(p, dist);
    SamePoint(p, c, first, 0.0);
  }

  lemma {:induction false} UpdatePlaced(p: Path, time: real)
    requires WfPath(p) && Visible(p, time)
    ensures var c := Update(p, Hidden, time); Placed(p, c, Due(p, time)) && c.At? && c.progress.Finite?
  {
    UpdatePlacesIff(p, Hidden, time);
  }

  lemma {:induction false} FirstPlaced(p: Path, dist: (Point, Point) -> real)
    requires Surveyed(p, dist)
    ensures var c := At(0, 0, Finite(0.0));
      InBounds(p, c) && Placed(p, c, 0.0) && DrawnPoint(p, c) == Passed(p.refs[0], 0)
  {
    LineIsPassed(p.refs[0], dist, 0);
    LineStartWalked(p.refs[0], dist, 0);
    LinesTile(p.refs[0], 0);
  }

  lemma {:induction false} DrawnAtEnd(p: Path, dist: (Point, Point) -> real)
    requires Surveyed(p, dist) && JoinedUp(p)
    ensures var d, last := Update(p, Hidden, p.aTime), p.refs[|p.refs| - 1];
      d.At? && d.progress.Finite? && DrawnPoint(p, d) == Passed(last, |last.polyline.coords| - 1)
  {
    hide *;
    SurveyedPath(p, dist);
    OnTheWay(p, p.aTime);
    UpdatePlaced(p, p.aTime);
    DueAtEnds(p);
    var end := LastPlaced(p, dist);
    SamePoint(p, Update(p, Hidden, p.aTime), end, p.total);
  }

  lemma {:induction false} LastPlaced(p: Path, dist: (Point, Point) -> real) returns (c: Cursor)
    requires Surveyed(p, dist)
    ensures var last := p.refs[|p.refs| - 1];
      c.At? && c.progress.Finite? && InBounds(p, c) && Placed(p, c, p.total)
      && DrawnPoint(p, c) == Passed(last, |last.polyline.coords| - 1)
  {
    var k: nat := |p.refs| - 1;
    var l: nat := p.refs[k].polyline.LineCount() - 1;
    c := At(k, l, Finite(1.0));
    LineIsPassed(p.refs[k], dist, l);
    LinesTile(p.refs[k], l);
    assert RefOk(p, k);
    assert LineStart(p.refs[k], l) + LineLength(p.refs[k], l) == p.total;
    assert LineStart(p.refs[k], l) + 1.0 * LineLength(p.refs[k], l) == p.total;
  }
}
