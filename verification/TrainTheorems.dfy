/** The resumed cursor is where a scan from the start would put it. */
module TrainTheorems {
  import opened TrainModel

  // ---------------------------------------------------------------- the lines tile the way

  /** Forwards and backwards alike, each line starts where the one before ends, and the last ends with its polyline. */
  lemma {:induction false} LinesTile(r: PolylineRef, l: nat)
    requires HasLine(r, l)
    ensures LineStart(r, 0) == r.offset && LineLength(r, l) >= 0.0
    ensures LineStart(r, l) + LineLength(r, l) == if l + 1 < r.polyline.LineCount() then LineStart(r, l + 1)
        else RefEnd(r)
  {
    var n := r.polyline.LineCount();
    assert StepOk(r.polyline, l) && StepOk(r.polyline, n - 1 - l) && StepOk(r.polyline, n - 1);
    if l + 1 < n { assert StepOk(r.polyline, n - 2 - l); }
  }

  lemma {:induction false} LineStartsAscend(r: PolylineRef, l: nat, m: nat)
    requires HasLine(r, m) && l <= m
    ensures r.offset <= LineStart(r, l) <= LineStart(r, m) && LineStart(r, m) + LineLength(r, m) <= RefEnd(r)
    ensures l < m ==> LineStart(r, l) + LineLength(r, l) <= LineStart(r, m)
  {
    LineStartsUpTo(r, l, m);
    LineStartsUpTo(r, 0, l);
    LineStartsUpTo(r, m, r.polyline.LineCount() - 1);
    LinesTile(r, m);
    LinesTile(r, r.polyline.LineCount() - 1);
  }

  lemma {:induction false} LineStartsUpTo(r: PolylineRef, l: nat, m: nat)
    requires HasLine(r, m) && l <= m
    ensures LineStart(r, l) <= LineStart(r, m) && (l < m ==> LineStart(r, l) + LineLength(r, l) <= LineStart(r, m))
    ensures l == 0 ==> LineStart(r, l) == r.offset
    ensures m == r.polyline.LineCount() - 1 ==> LineStart(r, l) + LineLength(r, l) <= RefEnd(r)
    decreases m - l
  {
    LinesTile(r, l);
    if l < m {
      LineStartsUpTo(r, l + 1, m);
      LinesTile(r, l + 1);
    }
  }

  lemma {:induction false} OffsetsAscend(p: Path, j: nat, k: nat)
    requires WfPath(p) && j <= k < |p.refs|
    ensures 0.0 <= p.refs[j].offset <= p.refs[k].offset <= RefEnd(p.refs[k]) <= p.total
    ensures j < k ==> RefEnd(p.refs[j]) <= p.refs[k].offset
  {
    OffsetsUpTo(p, j, k);
    OffsetsUpTo(p, 0, j);
    OffsetsUpTo(p, k, |p.refs| - 1);
  }

  lemma {:induction false} OffsetsUpTo(p: Path, j: nat, k: nat)
    requires WfPath(p) && j <= k < |p.refs|
    ensures p.refs[j].offset <= p.refs[k].offset && p.refs[j].offset <= RefEnd(p.refs[j])
    ensures j < k ==> RefEnd(p.refs[j]) <= p.refs[k].offset
    ensures k == |p.refs| - 1 ==> RefEnd(p.refs[j]) <= p.total
    decreases k - j
  {
    LineStartsAscend(p.refs[j], 0, 0);
    LinesTile(p.refs[j], 0);
    assert RefOk(p, j);
    if j < k { OffsetsUpTo(p, j + 1, k); }
  }

  lemma {:induction false} MulSign(z: real, d: real)
    requires d > 0.0
    ensures z >= 0.0 <==> z * d >= 0.0
  {
    if z < 0.0 { assert (-z) * d > 0.0; }
  }

  lemma {:induction false} MulOrder(x: real, y: real, d: real)
    requires d > 0.0
    ensures x <= y <==> x * d <= y * d
  {
    var l, r := x * d, y * d;
    assert (y - x) * d == r - l;
    MulSign(y - x, d);
    assert y - x >= 0.0 <==> r - l >= 0.0;
  }

  lemma {:induction false} Ratio(a: real, n: real)
    requires n > 0.0
    ensures a / n * n == a && (a >= 0.0 <==> a / n >= 0.0) && (a <= n <==> a / n <= 1.0)
  {
    RatioOf(a, n, a / n);
  }

  lemma {:induction false} RatioOf(a: real, n: real, q: real)
    requires n > 0.0 && q * n == a
    ensures (a >= 0.0 <==> q >= 0.0) && (a <= n <==> q <= 1.0)
  {
    MulSign(q, n);
    MulSign(1.0 - q, n);
    assert (1.0 - q) * n == n - a;
  }

  lemma {:induction false} MulGrows(x: real, y: real, t: real)
    requires x <= y && t >= 0.0
    ensures x * t <= y * t
  {
    if t > 0.0 { MulOrder(x, y, t); }
  }

  lemma {:induction false} DueInRange(p: Path, time: real)
    requires WfPath(p) && Visible(p, time)
    ensures 0.0 <= Due(p, time) <= p.total
  {
    OffsetsAscend(p, 0, 0);
    Ratio(time - p.dTime, p.aTime - p.dTime);
    var q := (time - p.dTime) / (p.aTime - p.dTime);
    MulGrows(0.0, q, p.total);
    MulGrows(q, 1.0, p.total);
  }

  lemma {:induction false} DueAscends(p: Path, t: real, u: real)
    requires WfPath(p) && t <= u
    ensures Due(p, t) <= Due(p, u)
  {
    OffsetsAscend(p, 0, 0);
    var d := p.aTime - p.dTime;
    Ratio(t - p.dTime, d);
    Ratio(u - p.dTime, d);
    var a, b := (t - p.dTime) / d, (u - p.dTime) / d;
    MulOrder(a, b, d);
    MulGrows(a, b, p.total);
  }

  // ---------------------------------------------------------------- the searches

  lemma {:induction false} SeekLineFinds(r: PolylineRef, l: nat, pos: real)
    requires HasLine(r, l) && LineStart(r, l) <= pos <= RefEnd(r)
    ensures SeekLine(r, l, pos) < r.polyline.LineCount()
    decreases r.polyline.LineCount() - l
  {
    LinesTile(r, l);
    if !OnLine(r, l, pos) { SeekLineFinds(r, l + 1, pos); }
  }

  lemma {:induction false} SeekPolylineFinds(p: Path, k: nat, pos: real)
    requires WfPath(p) && k < |p.refs| && p.refs[k].offset <= pos <= p.total
    ensures SeekPolyline(p.refs, k, pos) < |p.refs|
    decreases |p.refs| - k
  {
    if !OnPolyline(p.refs[k], pos) {
      assert RefOk(p, k);
      SeekPolylineFinds(p, k + 1, pos);
    }
  }

  // ---------------------------------------------------------------- one update

  /** The cursor marks exactly the arc length pos. */
  ghost predicate Placed(p: Path, c: Cursor, pos: real)
    requires WfPath(p) && InBounds(p, c)
  {
    && c.At? && c.progress.Finite? && 0.0 <= c.progress.value <= 1.0
    && LineStart(p.refs[c.poly], c.line) + c.progress.value * LineLength(p.refs[c.poly], c.line) == pos
    && OnLine(p.refs[c.poly], c.line, pos)
  }

  lemma {:induction false} PlaceOnLine(p: Path, k: nat, l: nat, pos: real)
    requires WfPath(p) && k < |p.refs| && HasLine(p.refs[k], l)
    ensures OnLine(p.refs[k], l, pos) ==> Placed(p, Place(p, k, l, pos), pos)
    ensures pos < LineStart(p.refs[k], l) ==>
      var pr := Place(p, k, l, pos).progress; pr == NegInfinity || (pr.Finite? && pr.value < 0.0)
  {
    LinesTile(p.refs[k], l);
    var a, n := pos - LineStart(p.refs[k], l), LineLength(p.refs[k], l);
    if n != 0.0 { Ratio(a, n); }
  }

  /** Not before the start of the line the cursor is on. */
  predicate NotBehind(p: Path, c: Cursor, pos: real)
    requires WfPath(p) && InBounds(p, c)
  {
    c.At? ==> pos >= LineStart(p.refs[c.poly], c.line)
  }

  /** Neither search runs out, so neither clamp takes effect; and another line is found than the one searched from. */
  lemma {:induction false} ResumeFinds(p: Path, c: Cursor, pos: real)
    requires WfPath(p) && InBounds(p, c) && NotBehind(p, c, pos) && 0.0 <= pos <= p.total
    ensures Placed(p, Resume(p, c, pos), pos)
    ensures var k' := SeekPolyline(p.refs, PolyOf(c), pos);
      k' < |p.refs| && SeekLine(p.refs[k'], if k' != PolyOf(c) then 0
        else LineOf(c), pos) < p.refs[k'].polyline.LineCount()
  {
    if c.At? { LineStartsAscend(p.refs[c.poly], 0, c.line); LinesTile(p.refs[c.poly], 0); }
    SeekPolylineFinds(p, PolyOf(c), pos);
    var k := SeekPolyline(p.refs, PolyOf(c), pos);
    var l := if k != PolyOf(c) then 0 else LineOf(c);
    LinesTile(p.refs[k], 0);
    SeekLineFinds(p.refs[k], l, pos);
    var m := SeekLine(p.refs[k], l, pos);
    PlaceOnLine(p, k, m, pos);
    assert Resume(p, c, pos) ==
        Place(p, k, m, pos) by { hide WfPath, LineStart, LineLength, OnPolyline, OnLine, SeekLine, SeekPolyline,
        Quotient; }
    hide *;
  }

  /** Lines of later polylines start no earlier. */
  lemma {:induction false} LaterLinesStartLater(p: Path, k: nat, l: nat, k': nat, l': nat)
    requires WfPath(p) && k <= k' < |p.refs| && HasLine(p.refs[k], l) && HasLine(p.refs[k'], l')
        && (k == k' ==> l <= l')
    ensures LineStart(p.refs[k], l) <= LineStart(p.refs[k'], l')
    ensures k < k' ==> LineStart(p.refs[k], l) <= p.refs[k'].offset
  {
    if k == k' {
      LineStartsAscend(p.refs[k], l, l');
    } else {
      LineStartsAscend(p.refs[k], l, l);
      LinesTile(p.refs[k], l);
      OffsetsAscend(p, k, k');
      LineStartsAscend(p.refs[k'], l', l');
    }
  }

  /** If the time has been turned back past the current line, the search runs out and a point before the last line is
      drawn. */
  lemma {:induction false} ResumeMisses(p: Path, c: Cursor, pos: real)
    requires WfPath(p) && InBounds(p, c) && !NotBehind(p, c, pos)
    ensures var r := Resume(p, c, pos).progress; r == NegInfinity || (r.Finite? && r.value < 0.0)
  {
    var k' := SeekPolyline(p.refs, c.poly, pos);
    assert k' == c.poly || k' == |p.refs| by {
      if c.poly < k' < |p.refs| { LaterLinesStartLater(p, c.poly, c.line, k', 0); }
    }
    var k := Min(k', |p.refs| - 1);
    var m := SeekLine(p.refs[k], c.line, pos);
    assert m >= p.refs[k].polyline.LineCount() by {
      if m < p.refs[k].polyline.LineCount() { LaterLinesStartLater(p, c.poly, c.line, k, m); }
    }
    var last := p.refs[k].polyline.LineCount() - 1;
    LaterLinesStartLater(p, c.poly, c.line, k, last);
    PlaceOnLine(p, k, last, pos);
  }

  /** An update puts the cursor exactly where it is due iff the time was not turned back past the start of its line. */
  lemma {:induction false} UpdatePlacesIff(p: Path, c: Cursor, time: real)
    requires WfPath(p) && InBounds(p, c) && Visible(p, time)
    ensures Placed(p, Update(p, c, time), Due(p, time)) <==> NotBehind(p, c, Due(p, time))
  {
    var pos := Due(p, time);
    DueInRange(p, time);
    if StaysOnLine(p, c, pos) {
      PlaceOnLine(p, c.poly, c.line, pos);
    } else if NotBehind(p, c, pos) {
      ResumeFinds(p, c, pos);
    } else {
      ResumeMisses(p, c, pos);
    }
  }

  // ---------------------------------------------------------------- whole runs

  ghost predicate Nondecreasing(times: seq<real>) {
    forall i, j | 0 <= i <= j < |times| :: times[i] <= times[j]
  }

  /** While time does not run backwards, every update that shows the train shows it where it is due. */
  lemma {:induction false} RunPlaces(p: Path, times: seq<real>, n: nat)
    requires WfPath(p) && Nondecreasing(times) && 0 < n <= |times|
    ensures if Visible(p, times[n - 1]) then Placed(p, Run(p, times, n), Due(p, times[n - 1]))
        else Run(p, times, n) == Hidden
  {
    if Visible(p, times[n - 1]) {
      var c := Run(p, times, n - 1);
      if n > 1 {
        RunPlaces(p, times, n - 1);
        DueAscends(p, times[n - 2], times[n - 1]);
      }
      UpdatePlacesIff(p, c, times[n - 1]);
    }
  }

  /** If an update reports nothing to draw, the line drawn last is still the right one: for any times. */
  lemma {:induction false} UnreportedKeepsLine(p: Path, c: Cursor, time: real)
    requires WfPath(p) && InBounds(p, c) && !Updated(p, c, time)
    ensures MercatorLine(p, Update(p, c, time)) == MercatorLine(p, c)
  {}

  /** While time does not run backwards, it reports exactly the changes of polyline or line. */
  lemma {:induction false} ReportsExactlyChanges(p: Path, c: Cursor, time: real)
    requires WfPath(p) && InBounds(p, c) && (Visible(p, time) ==> NotBehind(p, c, Due(p, time)))
    ensures var r := Update(p, c, time);
      Updated(p, c, time) <==> r.At? != c.At? || (r.At? && (r.poly, r.line) != (c.poly, c.line))
  {
    if Visible(p, time) { UpdatePlacesIff(p, c, time); }
  }

  // ---------------------------------------------------------------- agreement with a scan from the start

  /** Line (k, l) comes before line (k', l'). */
  predicate Before(k: nat, l: nat, k': nat, l': nat) {
    k < k' || (k == k' && l < l')
  }

  lemma {:induction false} LinesAscend(p: Path, k: nat, l: nat, k': nat, l': nat)
    requires WfPath(p) && k < |p.refs| && k' < |p.refs| && HasLine(p.refs[k], l) && HasLine(p.refs[k'], l')
        && Before(k, l, k', l')
    ensures LineStart(p.refs[k], l) + LineLength(p.refs[k], l) <= LineStart(p.refs[k'], l')
  {
    if k == k' {
      LineStartsAscend(p.refs[k], l, l');
    } else {
      LineStartsAscend(p.refs[k], l, l);
      OffsetsAscend(p, k, k');
      LineStartsAscend(p.refs[k'], 0, l');
      LinesTile(p.refs[k'], 0);
    }
  }

  /** The next polyline starts where this one ends, and lines of no length have one end point. */
  ghost predicate JoinedUp(p: Path)
    requires WfPath(p)
  {
    && (forall k | 0 <= k < |p.refs| - 1 ::
          LineTo(p.refs[k], p.refs[k].polyline.LineCount() - 1) == LineFrom(p.refs[k + 1], 0))
    && (forall k, l | 0 <= k < |p.refs| && 0 <= l < p.refs[k].polyline.LineCount() && LineLength(p.refs[k], l) == 0.0 ::
          LineFrom(p.refs[k], l) == LineTo(p.refs[k], l))
  }

  /** Between two lines that touch at the same arc length there is only a single point. */
  lemma {:induction false} OnlyOnePointBetween(p: Path, k: nat, l: nat, k': nat, l': nat)
    requires WfPath(p) && JoinedUp(p) && k < |p.refs| && k' < |p.refs| && HasLine(p.refs[k], l)
        && HasLine(p.refs[k'], l')
    requires Before(k, l, k', l') && LineStart(p.refs[k], l) + LineLength(p.refs[k], l) == LineStart(p.refs[k'], l')
    ensures LineTo(p.refs[k], l) == LineFrom(p.refs[k'], l')
    decreases k' - k, p.refs[k].polyline.LineCount() - l
  {
    LinesTile(p.refs[k], l);
    assert RefOk(p, k);
    var j, m := if l + 1 < p.refs[k].polyline.LineCount() then k
        else k + 1, if l + 1 < p.refs[k].polyline.LineCount() then l + 1 else 0;
    LinesTile(p.refs[j], m);
    LinesTile(p.refs[j], 0);
    if (j, m) != (k', l') {
      LinesAscend(p, j, m, k', l');
      OnlyOnePointBetween(p, j, m, k', l');
    }
  }

  function DrawnPoint(p: Path, c: Cursor): Point
    requires WfPath(p) && InBounds(p, c) && c.At? && c.progress.Finite?
  {
    var a, b := LineFrom(p.refs[c.poly], c.line), LineTo(p.refs[c.poly], c.line);
    Point(a.x + c.progress.value * (b.x - a.x), a.y + c.progress.value * (b.y - a.y))
  }

  lemma {:induction false} PointAtEnds(p: Path, c: Cursor, pos: real)
    requires WfPath(p) && InBounds(p, c) && Placed(p, c, pos) && JoinedUp(p)
    ensures pos == LineStart(p.refs[c.poly], c.line) ==> DrawnPoint(p, c) == LineFrom(p.refs[c.poly], c.line)
    ensures pos == LineStart(p.refs[c.poly], c.line) + LineLength(p.refs[c.poly], c.line)
        ==> DrawnPoint(p, c) == LineTo(p.refs[c.poly], c.line)
  {
    var n, q := LineLength(p.refs[c.poly], c.line), c.progress.value;
    LinesTile(p.refs[c.poly], c.line);
    if n != 0.0 {
      if q * n == 0.0 { assert q == 0.0; }
      if q * n == n { assert (q - 1.0) * n == 0.0; assert q == 1.0; }
    }
  }

  /** Any two cursors that mark the same arc length draw the train at the same point. */
  lemma {:induction false} SamePoint(p: Path, c: Cursor, d: Cursor, pos: real)
    requires WfPath(p) && JoinedUp(p) && InBounds(p, c) && InBounds(p, d) && Placed(p, c, pos) && Placed(p, d, pos)
    ensures DrawnPoint(p, c) == DrawnPoint(p, d)
  {
    PointAtEnds(p, c, pos);
    PointAtEnds(p, d, pos);
    if (c.poly, c.line) == (d.poly, d.line) {
      var n := LineLength(p.refs[c.poly], c.line);
      assert (c.progress.value - d.progress.value) * n == 0.0;
      assert n != 0.0 ==> c.progress == d.progress;
    } else if Before(c.poly, c.line, d.poly, d.line) {
      LinesAscend(p, c.poly, c.line, d.poly, d.line);
      OnlyOnePointBetween(p, c.poly, c.line, d.poly, d.line);
    } else {
      LinesAscend(p, d.poly, d.line, c.poly, c.line);
      OnlyOnePointBetween(p, d.poly, d.line, c.poly, c.line);
    }
  }

  /** So after any run of nondecreasing times the train is drawn where a scan from the start would draw it. */
  lemma {:induction false} ResumedAgreesWithScan(p: Path, times: seq<real>, n: nat)
    requires WfPath(p) && JoinedUp(p) && Nondecreasing(times) && 0 < n <= |times| && Visible(p, times[n - 1])
    ensures var c, s := Run(p, times, n), Update(p, Hidden, times[n - 1]);
      c.At? && c.progress.Finite? && s.At? && s.progress.Finite? && DrawnPoint(p, c) == DrawnPoint(p, s)
  {
    RunPlaces(p, times, n);
    UpdatePlacesIff(p, Hidden, times[n - 1]);
    SamePoint(p, Run(p, times, n), Update(p, Hidden, times[n - 1]), Due(p, times[n - 1]));
  }

  // A way of two lines: turning the time back from the second to the first.

  function TwoLines(): Path {
    Path([PolylineRef(true, 0.0,
      Polyline([Point(0.0, 0.0), Point(1.0, 0.0), Point(2.0, 0.0)], [1.0, 1.0], [0.0, 1.0, 2.0], 2.0))],
         2.0, 0.0, 2.0)
  }

  lemma {:induction false} TwoLinesWf()
    ensures WfPath(TwoLines())
  {
    var p := TwoLines();
    assert StepOk(p.refs[0].polyline, 0) && StepOk(p.refs[0].polyline, 1);
    assert WfPolyline(p.refs[0].polyline);
    assert RefOk(p, 0);
  }

  /** At 1.5 the cursor is halfway along the second line. */
  lemma {:induction false} ForwardOnTwoLines()
    ensures WfPath(TwoLines()) && Update(TwoLines(), Hidden, 1.5) == At(0, 1, Finite(0.5))
  {
    TwoLinesWf();
    hide WfPath, WfPolyline;
    var p := TwoLines();
    assert Due(p, 1.5) == 1.5;
    assert SeekPolyline(p.refs, 0, 1.5) == 0;
    assert SeekLine(p.refs[0], 1, 1.5) == 1;
    assert SeekLine(p.refs[0], 0, 1.5) == 1;
  }

  /** At 0.5 again it is still on the second line, half a line before its start. */
  lemma {:induction false} BackOnTwoLines()
    ensures WfPath(TwoLines()) && InBounds(TwoLines(), At(0, 1, Finite(0.5)))
    ensures Update(TwoLines(), At(0, 1, Finite(0.5)), 0.5) == At(0, 1, Finite(-0.5))
  {
    TwoLinesWf();
    hide WfPath, WfPolyline;
    var p := TwoLines();
    assert Due(p, 0.5) == 0.5;
    assert SeekPolyline(p.refs, 0, 0.5) == 0;
    assert SeekLine(p.refs[0], 1, 0.5) == 2;
  }

  lemma {:induction false} TurningBackMisplaces()
    ensures WfPath(TwoLines()) && Nondecreasing([1.5]) && !Nondecreasing([1.5, 0.5])
    ensures Run(TwoLines(), [1.5, 0.5], 2) == At(0, 1, Finite(-0.5))
  {
    ForwardOnTwoLines();
    BackOnTwoLines();
    hide WfPath, Update, TwoLines;
    var p, times := TwoLines(), [1.5, 0.5];
    assert !(times[0] <= times[1]);
    RunTwice(p, times);
  }

  lemma {:induction false} RunTwice(p: Path, times: seq<real>)
    requires WfPath(p) && |times| == 2
    ensures Run(p, times, 2) == Update(p, Update(p, Hidden, times[0]), times[1])
  {
    hide WfPath, Update;
    assert Run(p, times, 0) == Hidden;
    assert Run(p, times, 1) == Update(p, Hidden, times[0]);
  }
}
