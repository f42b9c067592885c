/**
 Trains as the map keeps them: a cursor of three fields that `UpdatePosition` moves, and the drawing buffers that
 are rewritten only where an update reports a change.
 */
module TrainCursor {
  import opened Wrappers
  import RailvizIndex
  import opened TrainModel
  import opened TrainTheorems

  /** The length of the first n lines. */
  ghost function LengthTo(mc: seq<Point>, dist: (Point, Point) -> real, n: nat): real
    requires n < |mc|
  {
    if n == 0 then 0.0 else LengthTo(mc, dist, n - 1) + dist(mc[n - 1], mc[n])
  }

  /** Lengths and running sums of a decoded polyline; no coordinates make no polyline.  `dist` is the distance of two
      points. */
  method PreprocessPolyline(mc: seq<Point>, dist: (Point, Point) -> real) returns (r: Option<Polyline>)
    requires forall a, b :: dist(a, b) >= 0.0
    ensures r.None? <==> |mc| == 0
    ensures r.Some? ==> r.value.coords == mc && Measured(r.value)
    ensures r.Some? ==> forall i {:trigger r.value.lengths[i]} | 0 <= i < |mc| - 1 ::
        r.value.lengths[i] == dist(mc[i], mc[i + 1])
    ensures r.Some? ==> forall i {:trigger r.value.offsets[i]} | 0 <= i < |mc| ::
        r.value.offsets[i] == LengthTo(mc, dist, i)
  {
    if |mc| == 0 {
      return None;
    }
    var lineCount := |mc| - 1;
    var lineLengths := new real[lineCount];
    var lineOffsets := new real[lineCount + 1];
    var offset := 0.0;
    for i := 0 to lineCount
      invariant offset == LengthTo(mc, dist, i)
      invariant forall k {:trigger lineLengths[k]} | 0 <= k < i :: lineLengths[k] == dist(mc[k], mc[k + 1])
      invariant forall k {:trigger lineOffsets[k]} | 0 <= k < i :: lineOffsets[k] == LengthTo(mc, dist, k)
    {
      var length := dist(mc[i], mc[i + 1]);
      lineLengths[i] := length;
      lineOffsets[i] := offset;
      offset := offset + length;
    }
    lineOffsets[lineCount] := offset;
    var p := Polyline(mc, lineLengths[..], lineOffsets[..], offset);
    forall k | 0 <= k < p.LineCount() ensures StepOk(p, k) {
      assert lineOffsets[k + 1] == LengthTo(mc, dist, k + 1);
    }
    r := Some(p);
  }

  ghost predicate RefersTo(r: PolylineRef, data: seq<Polyline>, i: int) {
    RailvizIndex.Abs(i) < |data| && r.polyline == data[RailvizIndex.Abs(i)] && (r.fwd <==> i > 0)
  }

  /** The length of the first n polylines of a way. */
  ghost function TotalTo(data: seq<Polyline>, indices: seq<int>, n: nat): real
    requires n <= |indices| && forall k | 0 <= k < |indices| :: RailvizIndex.Abs(indices[k]) < |data|
  {
    if n == 0 then 0.0 else TotalTo(data, indices, n - 1) + data[RailvizIndex.Abs(indices[n - 1])].total
  }

  /** The k-th polyline of a way, starting where those before it end. */
  ghost predicate PlacedRef(r: PolylineRef, data: seq<Polyline>, indices: seq<int>, k: nat)
    requires k < |indices| && forall i | 0 <= i < |indices| :: RailvizIndex.Abs(indices[i]) < |data|
  {
    RefersTo(r, data, indices[k]) && r.offset == TotalTo(data, indices, k)
  }

  lemma {:induction false} PathOfRefs(data: seq<Polyline>, indices: seq<int>, refs: seq<PolylineRef>, p: Path)
    requires forall k | 0 <= k < |indices| ::
        RailvizIndex.Abs(indices[k]) < |data|
        && WfPolyline(data[RailvizIndex.Abs(indices[k])])
    requires |refs| == |indices| >= 1 && forall k | 0 <= k < |refs| :: PlacedRef(refs[k], data, indices, k)
    requires p.refs == refs && p.total == TotalTo(data, indices, |indices|) && p.dTime < p.aTime
    ensures WfPath(p) && forall k | 0 <= k < |indices| :: RefersTo(refs[k], data, indices[k])
  {
    hide WfPolyline;
    assert PlacedRef(refs[0], data, indices, 0);
    forall k | 0 <= k < |refs| ensures RefOk(p, k) && RefersTo(refs[k], data, indices[k]) {
      assert PlacedRef(refs[k], data, indices, k);
      assert RefEnd(refs[k]) == TotalTo(data, indices, k + 1);
      if k + 1 < |refs| { assert PlacedRef(refs[k + 1], data, indices, k + 1); }
    }
  }

  class Train {
    const dTime: real
    const aTime: real
    const polylines: seq<PolylineRef>
    const totalLength: real
    var currPolyline: Option<nat>
    var currLine: Option<nat>
    var currProgress: Option<Num>

    ghost function Way(): Path {
      Path(polylines, totalLength, dTime, aTime)
    }

    ghost predicate Valid()
      reads this
    {
      && WfPath(Way())
      && (currPolyline.Some? <==> currLine.Some?) && (currPolyline.Some? <==> currProgress.Some?)
      && InBounds(Way(), Position())
    }

    ghost function Position(): Cursor
      reads this
    {
      if currPolyline.Some? && currLine.Some?
          && currProgress.Some? then At(currPolyline.value, currLine.value, currProgress.value) else Hidden
    }

    /** The server's signed index i stands for polyline |i|, run through forwards iff i > 0. */
    constructor (data: seq<Polyline>, indices: seq<int>, dTime: real, aTime: real)
      requires dTime < aTime && |indices| >= 1
      requires forall k | 0 <= k < |indices| ::
          RailvizIndex.Abs(indices[k]) < |data|
          && WfPolyline(data[RailvizIndex.Abs(indices[k])])
      ensures Valid() && Position() == Hidden && this.dTime == dTime && this.aTime == aTime && |polylines| == |indices|
      ensures forall k | 0 <= k < |indices| :: RefersTo(polylines[k], data, indices[k])
    {
      var offset, refs: seq<PolylineRef> := 0.0, [];
      for i := 0 to |indices|
        invariant |refs| == i && offset == TotalTo(data, indices, i)
        invariant forall k | 0 <= k < i :: PlacedRef(refs[k], data, indices, k)
      {
        hide WfPolyline;
        var pr := PolylineRef(indices[i] > 0, offset, data[RailvizIndex.Abs(indices[i])]);
        assert PlacedRef(pr, data, indices, i);
        refs := refs + [pr];
        offset := offset + pr.polyline.total;
      }
      PathOfRefs(data, indices, refs, Path(refs, offset, dTime, aTime));
      this.dTime, this.aTime, polylines, totalLength := dTime, aTime, refs, offset;
      currPolyline, currLine, currProgress := None, None, None;
    }

    method UpdatePosition(time: real) returns (updated: bool)
      requires Valid()
      modifies this
      ensures Valid()
      ensures Position() == Update(Way(), old(Position()), time)
      ensures updated <==> Updated(Way(), old(Position()), time)
    {
      hide Resume, WfPolyline, LineStart, LineLength, Quotient;
      if time < dTime || time > aTime {
        updated := currPolyline.Some?;
        currPolyline, currLine, currProgress := None, None, None;
        return;
      }
      var progress := (time - dTime) / (aTime - dTime);
      var pos := progress * totalLength;
      assert pos == Due(Way(), time);
      if currPolyline.Some? {
        var lOffset, lLength := GetCurrLinePos(polylines[currPolyline.value]);
        if pos >= lOffset && pos <= lOffset + lLength {
          currProgress := Some(Quotient(pos - lOffset, lLength));
          return false;
        }
      }
      SeekPosition(pos);
      updated := true;
    }

    /** The part of an update that looks for another line. */
    method SeekPosition(pos: real)
      requires Valid()
      modifies this
      ensures Valid() && Position() == Resume(Way(), old(Position()), pos)
    {
      hide SeekPolyline, SeekLine, WfPolyline, LineStart, LineLength, Quotient;
      UpdateCurrPolyline(pos);
      UpdateCurrLine(pos);
      var lOffset, lLength := GetCurrLinePos(polylines[currPolyline.value]);
      currProgress := Some(Quotient(pos - lOffset, lLength));
    }

    method UpdateCurrPolyline(pos: real)
      requires Valid()
      modifies this
      ensures var c, k' := old(Position()), SeekPolyline(polylines, PolyOf(old(Position())), pos);
        && currPolyline == Some(Min(k', |polylines| - 1))
        && (if k' < |polylines| && k' != PolyOf(c) then currLine == Some(0) else currLine == old(currLine))
    {
      var oldPolyline := if currPolyline.Some? then currPolyline.value else 0;
      var curr := oldPolyline;
      while curr < |polylines|
        invariant oldPolyline <= curr <= |polylines| && currLine == old(currLine)
        invariant SeekPolyline(polylines, oldPolyline, pos) == SeekPolyline(polylines, curr, pos)
      {
        var p := polylines[curr];
        if pos >= p.offset && pos <= p.offset + p.polyline.total {
          if curr != oldPolyline {
            currLine := Some(0);
          }
          break;
        }
        curr := curr + 1;
      }
      currPolyline := Some(Min(curr, |polylines| - 1));
    }

    method UpdateCurrLine(pos: real)
      requires WfPath(Way()) && currPolyline.Some? && currPolyline.value < |polylines|
      modifies this
      ensures currPolyline == old(currPolyline)
      ensures var r, l := polylines[currPolyline.value], if old(currLine).Some? then old(currLine).value else 0;
        currLine == Some(Min(SeekLine(r, l, pos), r.polyline.LineCount() - 1))
    {
      var p := polylines[currPolyline.value];
      currLine := Some(if currLine.Some? then currLine.value else 0);
      ghost var l := currLine.value;
      while currLine.value < p.polyline.LineCount()
        invariant currPolyline == old(currPolyline) && currLine.Some? && l <= currLine.value
        invariant SeekLine(p, l, pos) == SeekLine(p, currLine.value, pos)
        decreases p.polyline.LineCount() - currLine.value
      {
        var lOffset, lLength := GetCurrLinePos(p);
        if pos >= lOffset && pos <= lOffset + lLength {
          break;
        }
        currLine := Some(currLine.value + 1);
      }
      currLine := Some(Min(currLine.value, p.polyline.LineCount() - 1));
    }

    method GetCurrLinePos(p: PolylineRef) returns (lOffset: real, lLength: real)
      requires currLine.Some? && HasLine(p, currLine.value)
      ensures lOffset == LineStart(p, currLine.value) && lLength == LineLength(p, currLine.value)
    {
      if p.fwd {
        return p.offset + p.polyline.offsets[currLine.value], p.polyline.lengths[currLine.value];
      } else {
        var idx := p.polyline.LineCount() - 1 - currLine.value;
        var offset, length := p.polyline.offsets[idx], p.polyline.lengths[idx];
        return p.offset + p.polyline.total - (offset + length), length;
      }
    }

    method GetMercatorLine() returns (line: Drawn)
      requires Valid()
      ensures line == MercatorLine(Way(), Position())
      ensures line.Nothing? <==> currPolyline.None?
      ensures currPolyline.Some? ==>
        var r, l := polylines[currPolyline.value], currLine.value;
        var coords, n := r.polyline.coords, |r.polyline.coords|;
        l + 1 < n && line == if r.fwd then Segment(coords[l], coords[l + 1])
          else Segment(coords[n - 1 - l], coords[n - 2 - l])
    {
      if currPolyline.None? {
        return Nothing;
      }
      var p := polylines[currPolyline.value];
      var mc := p.polyline.coords;
      if p.fwd {
        var offset := currLine.value;
        line := Segment(mc[offset], mc[offset + 1]);
      } else {
        var offset := p.polyline.LineCount() - currLine.value;
        line := Segment(mc[offset], mc[offset - 1]);
      }
    }
  }

  /** The simulation in one go: the trains of a map moved through nondecreasing times are where they are due. */
  method Simulate(train: Train, times: seq<real>)
    requires train.Valid() && train.Position() == Hidden && Nondecreasing(times)
    modifies train
    ensures train.Valid() && train.Position() == Run(train.Way(), times, |times|)
    ensures |times| > 0 && Visible(train.Way(), times[|times| - 1]) ==>
      Placed(train.Way(), train.Position(), Due(train.Way(), times[|times| - 1]))
  {
    for i := 0 to |times|
      invariant train.Valid() && train.Position() == Run(train.Way(), times, i)
    {
      var _ := train.UpdatePosition(times[i]);
    }
    if |times| > 0 { RunPlaces(train.Way(), times, |times|); }
  }

  // ---------------------------------------------------------------- the drawing buffers

  /** The five numbers drawn for a train: both ends of its line, seen from the anchor, and the angle. */
  function Quint(line: Drawn, anchor: Point, atan2: (real, real) -> real): (q: seq<real>)
    ensures |q| == 5
  {
    if line.Nothing? then [-100.0, -100.0, -100.0, -100.0, 0.0]
    else [line.from.x - anchor.x, line.from.y - anchor.y, line.to.x - anchor.x, line.to.y - anchor.y,
          -atan2(line.to.y - line.from.y, line.to.x - line.from.x)]
  }

  ghost predicate Holds(data: seq<real>, i: nat, q: seq<real>)
    requires 5 * i + 5 <= |data| && |q| == 5
  {
    && data[5 * i] == q[0] && data[5 * i + 1] == q[1] && data[5 * i + 2] == q[2]
    && data[5 * i + 3] == q[3] && data[5 * i + 4] == q[4]
  }

  /** Five numbers from 5 * i on: both ends less the anchor and the angle between the axes, mirrored; or what is drawn
      far off. */
  ghost predicate Shows(data: seq<real>, i: nat, line: Drawn, anchor: Point, atan2: (real, real) -> real)
    requires 5 * i + 5 <= |data|
  {
    var n := 5 * i;
    match line
    case Nothing =>
      data[n] == -100.0 && data[n + 1] == -100.0 && data[n + 2] == -100.0 && data[n + 3] == -100.0 && data[n + 4] == 0.0
    case Segment(a, b) =>
      && data[n] == a.x - anchor.x && data[n + 1] == a.y - anchor.y
      && data[n + 2] == b.x - anchor.x && data[n + 3] == b.y - anchor.y && data[n + 4] == -atan2(b.y - a.y, b.x - a.x)
  }

  lemma {:induction false} HoldsIsShown(data: seq<real>, i: nat, line: Drawn, anchor: Point,
                                        atan2: (real, real) -> real)
    requires 5 * i + 5 <= |data|
    ensures Holds(data, i, Quint(line, anchor, atan2)) <==> Shows(data, i, line, anchor, atan2)
  {}

  method WriteSlot(data: array<real>, i: nat, a: real, b: real, c: real, d: real, e: real)
    requires 5 * i + 5 <= data.Length
    modifies data
    ensures Holds(data[..], i, [a, b, c, d, e])
    ensures forall x | 0 <= x < data.Length && !(5 * i <= x < 5 * i + 5) :: data[x] == old(data[x])
  {
    data[5 * i], data[5 * i + 1], data[5 * i + 2] := a, b, c;
    data[5 * i + 3], data[5 * i + 4] := d, e;
  }

  lemma {:induction false} SlotsApart(d: seq<real>, d': seq<real>, i: nat, k: nat, q: seq<real>)
    requires k != i && 5 * k + 5 <= |d| == |d'| && |q| == 5 && Holds(d, k, q)
    requires forall x | 0 <= x < |d| && !(5 * i <= x < 5 * i + 5) :: d'[x] == d[x]
    ensures Holds(d', k, q)
  {}

  function ProgressShown(c: Cursor): Num {
    if c.At? then c.progress else Finite(-1.0)
  }

  class TrainsDrawer {
    const atan2: (real, real) -> real
    var trains: seq<Train>
    var anchor: Option<Point>
    var positionData: array<real>
    var progressData: array<Num>

    ghost predicate Valid()
      reads this, trains
    {
      && (forall i, j | 0 <= i < j < |trains| :: trains[i] != trains[j])
      && (forall i | 0 <= i < |trains| :: trains[i].Valid())
      && (anchor.Some? ==> positionData.Length == 5 * |trains| && progressData.Length == |trains|)
    }

    /** What a rewrite of the whole buffer would leave for train i is what it holds. */
    ghost predicate PositionUpToDate(i: nat)
      requires Valid() && anchor.Some? && i < |trains|
      reads this, trains, positionData
    {
      Holds(positionData[..], i, Quint(MercatorLine(trains[i].Way(), trains[i].Position()), anchor.value, atan2))
    }

    /** Where train i is drawn, number by number. */
    ghost predicate IsDrawn(i: nat)
      requires Valid() && anchor.Some? && i < |trains|
      reads this, trains, positionData, progressData
    {
      && Shows(positionData[..], i, MercatorLine(trains[i].Way(), trains[i].Position()), anchor.value, atan2)
      && progressData[i] == if trains[i].currProgress.Some? then trains[i].currProgress.value else Finite(-1.0)
    }

    ghost predicate UpToDate()
      requires Valid()
      reads this, trains, positionData
    {
      anchor.Some? ==> forall i | 0 <= i < |trains| :: PositionUpToDate(i)
    }

    constructor (atan2: (real, real) -> real)
      ensures Valid() && UpToDate() && trains == [] && anchor.None?
      ensures fresh(positionData) && fresh(progressData)
    {
      this.atan2, trains, anchor := atan2, [], None;
      positionData, progressData := new real[0], new Num[0];
    }

    method SetData(trains: seq<Train>)
      requires forall i, j | 0 <= i < j < |trains| :: trains[i] != trains[j]
      requires forall i | 0 <= i < |trains| :: trains[i].Valid()
      modifies this
      ensures Valid() && UpToDate() && this.trains == trains && anchor.None?
    {
      this.trains, anchor := trains, None;
      positionData, progressData := new real[0], new Num[0];
    }

    /** Buffers are up to date after every call, though only those lines are rewritten that an update reports. */
    method Update(time: real, middle: Point)
      requires Valid() && UpToDate()
      modifies this, trains, positionData, progressData
      ensures Valid() && UpToDate() && trains == old(trains) && anchor.Some?
      ensures forall i | 0 <= i < |trains| ::
          trains[i].Position() == TrainModel.Update(trains[i].Way(), old(trains[i].Position()), time)
      ensures forall i | 0 <= i < |trains| :: progressData[i] == ProgressShown(trains[i].Position())
      ensures forall i | 0 <= i < |trains| :: IsDrawn(i)
    {
      hide WfPath, WfPolyline, TrainModel.Update, MercatorLine, InBounds, Quint, Holds, TrainsDrawer.PositionUpToDate,
        TrainsDrawer.IsDrawn, ProgressShown;
      var first := anchor.None?;
      if first {
        anchor := Some(middle);
        positionData, progressData := new real[5 * |trains|], new Num[|trains|];
      }
      var i := 0;
      while i < |trains|
        invariant 0 <= i <= |trains| && Valid() && trains == old(trains) && anchor.Some?
        invariant first ==> fresh(positionData) && fresh(progressData)
        invariant !first ==> positionData == old(positionData) && progressData == old(progressData)
        invariant forall k | i <= k < |trains| :: trains[k].Position() == old(trains[k].Position())
        invariant forall k | 0 <= k < i ::
            trains[k].Position() == TrainModel.Update(trains[k].Way(), old(trains[k].Position()), time)
        invariant forall k | 0 <= k < i :: progressData[k] == ProgressShown(trains[k].Position())
        invariant forall k | 0 <= k < |trains| && (k < i || !first) :: PositionUpToDate(k)
      {
        UpdateTrain(i, time, first);
        i := i + 1;
      }
      forall k | 0 <= k < |trains| ensures IsDrawn(k) { UpToDateIsDrawn(k); }
    }

    lemma {:induction false} UpToDateIsDrawn(i: nat)
      requires Valid() && anchor.Some? && i < |trains| && PositionUpToDate(i)
      requires progressData[i] == ProgressShown(trains[i].Position())
      ensures IsDrawn(i)
    {
      hide MercatorLine, Quint, Holds, Shows, WfPath;
      HoldsIsShown(positionData[..], i, MercatorLine(trains[i].Way(), trains[i].Position()), anchor.value, atan2);
    }

    method UpdateTrain(i: nat, time: real, first: bool)
      requires Valid() && anchor.Some? && i < |trains| && (first || PositionUpToDate(i))
      modifies trains[i], positionData, progressData
      ensures Valid() && PositionUpToDate(i)
      ensures trains[i].Position() == TrainModel.Update(trains[i].Way(), old(trains[i].Position()), time)
      ensures progressData[i] == ProgressShown(trains[i].Position())
      ensures forall k | 0 <= k < |trains| && k != i :: old(PositionUpToDate(k)) ==> PositionUpToDate(k)
      ensures forall k | 0 <= k < |trains| && k != i :: progressData[k] == old(progressData[k])
    {
      hide WfPath, TrainModel.Update, Updated, MercatorLine, InBounds, Quint, Holds;
      ghost var before := trains[i].Position();
      var updated := trains[i].UpdatePosition(time);
      if !updated { UnreportedKeepsLine(trains[i].Way(), before, time); }
      if first || updated {
        WritePositionToBuffer(i);
      }
      progressData[i] := if trains[i].currProgress.Some? then trains[i].currProgress.value else Finite(-1.0);
    }

    method WritePositionToBuffer(i: nat)
      requires Valid() && anchor.Some? && i < |trains|
      modifies positionData
      ensures Valid() && PositionUpToDate(i)
      ensures Shows(positionData[..], i, MercatorLine(trains[i].Way(), trains[i].Position()), anchor.value, atan2)
      ensures forall k | 0 <= k < |trains| && k != i :: old(PositionUpToDate(k)) ==> PositionUpToDate(k)
    {
      hide WfPath, WfPolyline, MercatorLine, InBounds, Holds, Shows;
      ghost var before := positionData[..];
      var line := trains[i].GetMercatorLine();
      if line.Segment? {
        var angle := -atan2(line.to.y - line.from.y, line.to.x - line.from.x);
        WriteSlot(positionData, i, line.from.x - anchor.value.x, line.from.y - anchor.value.y,
                  line.to.x - anchor.value.x, line.to.y - anchor.value.y, angle);
      } else {
        WriteSlot(positionData, i, -100.0, -100.0, -100.0, -100.0, 0.0);
      }
      hide Quint;
      HoldsIsShown(positionData[..], i, line, anchor.value, atan2);
      forall k | 0 <= k < |trains| && k != i && old(PositionUpToDate(k)) ensures PositionUpToDate(k) {
        SlotsApart(before, positionData[..], i, k,
          Quint(MercatorLine(trains[k].Way(), trains[k].Position()), anchor.value, atan2));
      }
    }
  }
}
