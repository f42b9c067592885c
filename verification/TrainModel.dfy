/**
 A train on the map: polylines, each run through forwards or backwards, laid end to end, and a cursor on them that
 is moved along with the time.  Lengths are exact reals.
 */
module TrainModel {

  datatype Point = Point(x: real, y: real)

  /** `offsets[i]` is the arc length up to line i, which runs from coordinate i to i + 1. */
  datatype Polyline = Polyline(coords: seq<Point>, lengths: seq<real>, offsets: seq<real>, total: real) {
    function LineCount(): int {
      |coords| - 1
    }
  }

  datatype PolylineRef = PolylineRef(fwd: bool, offset: real, polyline: Polyline)

  datatype Path = Path(refs: seq<PolylineRef>, total: real, dTime: real, aTime: real)

  /** What a division may give in JavaScript, but for NaN. */
  datatype Num = Finite(value: real) | PosInfinity | NegInfinity

  datatype Cursor = Hidden | At(poly: nat, line: nat, progress: Num)

  // ---------------------------------------------------------------- well-formedness

  /** Offsets are running sums of the lengths; a single coordinate makes no line. */
  ghost predicate Measured(p: Polyline) {
    && p.LineCount() >= 0
    && |p.lengths| == p.LineCount() && |p.offsets| == p.LineCount() + 1
    && p.offsets[0] == 0.0 && p.total == p.offsets[p.LineCount()]
    && forall i | 0 <= i < p.LineCount() :: StepOk(p, i)
  }

  ghost predicate WfPolyline(p: Polyline) {
    p.LineCount() >= 1 && Measured(p)
  }

  ghost predicate StepOk(p: Polyline, i: nat)
    requires i < |p.lengths| && i + 1 < |p.offsets|
  {
    p.lengths[i] >= 0.0 && p.offsets[i + 1] == p.offsets[i] + p.lengths[i]
  }

  ghost predicate WfPath(p: Path) {
    && |p.refs| >= 1 && p.dTime < p.aTime
    && (forall k | 0 <= k < |p.refs| :: WfPolyline(p.refs[k].polyline))
    && p.refs[0].offset == 0.0
    && (forall k | 0 <= k < |p.refs| :: RefOk(p, k))
  }

  ghost predicate RefOk(p: Path, k: nat)
    requires k < |p.refs|
  {
    RefEnd(p.refs[k]) == if k + 1 < |p.refs| then p.refs[k + 1].offset else p.total
  }

  function RefEnd(r: PolylineRef): real {
    r.offset + r.polyline.total
  }

  predicate InBounds(p: Path, c: Cursor) {
    c.At? ==> c.poly < |p.refs| && c.line < p.refs[c.poly].polyline.LineCount()
  }

  // ---------------------------------------------------------------- lines in the order they are run through

  ghost predicate HasLine(r: PolylineRef, l: nat) {
    WfPolyline(r.polyline) && l < r.polyline.LineCount()
  }

  function LineStart(r: PolylineRef, l: nat): real
    requires HasLine(r, l)
  {
    if r.fwd then r.offset + r.polyline.offsets[l]
    else
      var idx := r.polyline.LineCount() - 1 - l;
      r.offset + r.polyline.total - (r.polyline.offsets[idx] + r.polyline.lengths[idx])
  }

  function LineLength(r: PolylineRef, l: nat): real
    requires HasLine(r, l)
  {
    r.polyline.lengths[if r.fwd then l else r.polyline.LineCount() - 1 - l]
  }

  function LineFrom(r: PolylineRef, l: nat): Point
    requires HasLine(r, l)
  {
    r.polyline.coords[if r.fwd then l else r.polyline.LineCount() - l]
  }

  function LineTo(r: PolylineRef, l: nat): Point
    requires HasLine(r, l)
  {
    r.polyline.coords[if r.fwd then l + 1 else r.polyline.LineCount() - l - 1]
  }

  predicate OnPolyline(r: PolylineRef, pos: real) {
    pos >= r.offset && pos <= r.offset + r.polyline.total
  }

  predicate OnLine(r: PolylineRef, l: nat, pos: real)
    requires HasLine(r, l)
  {
    pos >= LineStart(r, l) && pos <= LineStart(r, l) + LineLength(r, l)
  }

  // ---------------------------------------------------------------- one update

  /** `a / b || 0` */
  function Quotient(a: real, b: real): Num {
    if b != 0.0 then Finite(a / b) else if a == 0.0 then Finite(0.0) else if a > 0.0 then PosInfinity else NegInfinity
  }

  /** How far the train is to have come at a time. */
  function Due(p: Path, time: real): real
    requires p.dTime < p.aTime
  {
    (time - p.dTime) / (p.aTime - p.dTime) * p.total
  }

  predicate Visible(p: Path, time: real) {
    p.dTime <= time <= p.aTime
  }

  /** The first polyline from k on that has pos, or |refs|. */
  function SeekPolyline(refs: seq<PolylineRef>, k: nat, pos: real): (r: nat)
    requires k <= |refs|
    ensures k <= r <= |refs| && (r < |refs| ==> OnPolyline(refs[r], pos))
    ensures forall x | k <= x < r :: !OnPolyline(refs[x], pos)
    decreases |refs| - k
  {
    if k == |refs| || OnPolyline(refs[k], pos) then k else SeekPolyline(refs, k + 1, pos)
  }

  /** The first line from l on that has pos, or the line count. */
  function SeekLine(r: PolylineRef, l: nat, pos: real): (m: nat)
    requires WfPolyline(r.polyline)
    ensures l <= m && (m < r.polyline.LineCount() ==> OnLine(r, m, pos))
        && (l <= r.polyline.LineCount() ==> m <= r.polyline.LineCount())
    ensures forall x | l <= x < m :: x < r.polyline.LineCount() && !OnLine(r, x, pos)
    decreases r.polyline.LineCount() - l
  {
    if l >= r.polyline.LineCount() || OnLine(r, l, pos) then l else SeekLine(r, l + 1, pos)
  }

  function Min(a: int, b: int): int {
    if a < b then a else b
  }

  function Place(p: Path, k: nat, l: nat, pos: real): Cursor
    requires k < |p.refs| && HasLine(p.refs[k], l)
  {
    At(k, l, Quotient(pos - LineStart(p.refs[k], l), LineLength(p.refs[k], l)))
  }

  function PolyOf(c: Cursor): nat {
    if c.At? then c.poly else 0
  }

  function LineOf(c: Cursor): nat {
    if c.At? then c.line else 0
  }

  /** The search for a new line: polylines first, then the lines of the polyline found. */
  function Resume(p: Path, c: Cursor, pos: real): (r: Cursor)
    requires WfPath(p) && InBounds(p, c)
    ensures r.At? && InBounds(p, r)
  {
    var k' := SeekPolyline(p.refs, PolyOf(c), pos);
    var l := if k' < |p.refs| && k' != PolyOf(c) then 0 else LineOf(c);
    var k := Min(k', |p.refs| - 1);
    Place(p, k, Min(SeekLine(p.refs[k], l, pos), p.refs[k].polyline.LineCount() - 1), pos)
  }

  predicate StaysOnLine(p: Path, c: Cursor, pos: real)
    requires WfPath(p) && InBounds(p, c)
  {
    c.At? && OnLine(p.refs[c.poly], c.line, pos)
  }

  function Update(p: Path, c: Cursor, time: real): (r: Cursor)
    requires WfPath(p) && InBounds(p, c)
    ensures InBounds(p, r) && (r.At? <==> Visible(p, time))
  {
    if !Visible(p, time) then Hidden
    else if StaysOnLine(p, c, Due(p, time)) then Place(p, c.poly, c.line, Due(p, time))
    else Resume(p, c, Due(p, time))
  }

  /** What `updatePosition` returns: whether another line has to be drawn. */
  predicate Updated(p: Path, c: Cursor, time: real)
    requires WfPath(p) && InBounds(p, c)
  {
    if Visible(p, time) then !StaysOnLine(p, c, Due(p, time)) else c.At?
  }

  /** The cursor after the first n of the given times. */
  function Run(p: Path, times: seq<real>, n: nat): (c: Cursor)
    requires WfPath(p) && n <= |times|
    ensures InBounds(p, c)
  {
    if n == 0 then Hidden else Update(p, Run(p, times, n - 1), times[n - 1])
  }

  datatype Drawn = Nothing | Segment(from: Point, to: Point)

  function MercatorLine(p: Path, c: Cursor): Drawn
    requires WfPath(p) && InBounds(p, c)
  {
    if c.Hidden? then Nothing else Segment(LineFrom(p.refs[c.poly], c.line), LineTo(p.refs[c.poly], c.line))
  }
}
