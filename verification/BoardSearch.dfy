/** The search of an event iterator as a machine that moves step by step, and when it comes to an end. */
module BoardSearch {
  import opened Wrappers
  import opened BoardModel
  import opened BoardTheorems

  datatype Pos = Pos(day: int, i: int)

  /** What an iterator looks for: the end is tested by equality. */
  datatype Search = Search(line: Line, fwd: bool, end: int, start: Option<int>)

  /** The inner loop goes on; backwards not for transport 0. */
  predicate InLoop(l: Line, fwd: bool, i: int) {
    i < |l.mam| && if fwd then i >= 0 else i > 0
  }

  predicate InTime(fwd: bool, start: Option<int>, time: int) {
    start.None? || if fwd then time >= start.value else time <= start.value
  }

  /** An event that the search stops at. */
  predicate IsHit(s: Search, p: Pos) {
    InLoop(s.line, s.fwd, p.i) && InTime(s.fwd, s.start, At(s.line, p.day, p.i).time) && IsActive(s.line, p.day, p.i)
  }

  predicate Stops(s: Search, p: Pos) {
    p.day == s.end || IsHit(s, p)
  }

  function Next(l: Line, fwd: bool, p: Pos): Pos {
    if InLoop(l, fwd, p.i) then Pos(p.day, if fwd then p.i + 1 else p.i - 1)
    else if fwd then Pos(p.day + 1, 0)
    else Pos(p.day - 1, |l.mam| - 1)
  }

  function Moved(l: Line, fwd: bool, p: Pos, n: nat): Pos {
    if n == 0 then p else Next(l, fwd, Moved(l, fwd, p, n - 1))
  }

  ghost predicate Ends(s: Search, p: Pos) {
    exists n: nat :: Stops(s, Moved(s.line, s.fwd, p, n))
  }

  /** The n-th position is the first to stop at. */
  ghost predicate StopsAfter(s: Search, p: Pos, n: nat) {
    Stops(s, Moved(s.line, s.fwd, p, n)) && forall m: nat | m < n :: !Stops(s, Moved(s.line, s.fwd, p, m))
  }

  /** Positions a search may be at. */
  predicate InBounds(s: Search, p: Pos) {
    if s.fwd then p.i >= 0 else p.i < |s.line.mam|
  }

  /** Position q is p or lies ahead of it in the direction of the search. */
  predicate NotBehind(fwd: bool, p: Pos, q: Pos) {
    if fwd then p.day < q.day || (p.day == q.day && p.i <= q.i) else p.day > q.day || (p.day == q.day && p.i >= q.i)
  }

  lemma {:induction false} FirstStop(s: Search, p: Pos, k: nat) returns (n: nat)
    requires Stops(s, Moved(s.line, s.fwd, p, k))
    ensures StopsAfter(s, p, n)
  {
    n := 0;
    while !Stops(s, Moved(s.line, s.fwd, p, n))
      invariant n <= k && forall m: nat | m < n :: !Stops(s, Moved(s.line, s.fwd, p, m))
      decreases k - n
    {
      n := n + 1;
    }
  }

  lemma {:induction false} MovedNext(l: Line, fwd: bool, p: Pos, n: nat)
    ensures Moved(l, fwd, p, n + 1) == Moved(l, fwd, Next(l, fwd, p), n)
  {
    if n > 0 { MovedNext(l, fwd, p, n - 1); }
  }

  lemma {:induction false} EndsLater(s: Search, p: Pos)
    requires Ends(s, Next(s.line, s.fwd, p))
    ensures Ends(s, p)
  {
    var n: nat :| Stops(s, Moved(s.line, s.fwd, Next(s.line, s.fwd, p), n));
    MovedNext(s.line, s.fwd, p, n);
    assert Stops(s, Moved(s.line, s.fwd, p, n + 1));
  }

  lemma {:induction false} EndsHere(s: Search, p: Pos)
    requires Stops(s, p)
    ensures Ends(s, p)
  {
    assert Moved(s.line, s.fwd, p, 0) == p;
  }

  /** From a day not behind the end the search gets to the end, if not to an event. */
  lemma {:induction false} EndIsReached(s: Search, p: Pos)
    requires InBounds(s, p) && if s.fwd then p.day <= s.end else p.day >= s.end
    ensures Ends(s, p)
    decreases if s.fwd then s.end - p.day else p.day - s.end, if s.fwd then |s.line.mam| - p.i else p.i
  {
    if p.day == s.end {
      EndsHere(s, p);
    } else {
      EndIsReached(s, Next(s.line, s.fwd, p));
      EndsLater(s, p);
    }
  }

  /** An event ahead is reached, if nothing stops the search before. */
  lemma {:induction false} HitIsReached(s: Search, p: Pos, q: Pos)
    requires InBounds(s, p) && IsHit(s, q) && NotBehind(s.fwd, p, q)
    ensures Ends(s, p)
    decreases if s.fwd then q.day - p.day else p.day - q.day, if s.fwd then |s.line.mam| - p.i else p.i
  {
    if p == q {
      EndsHere(s, p);
    } else {
      HitIsReached(s, Next(s.line, s.fwd, p), q);
      EndsLater(s, p);
    }
  }

  lemma {:induction false} MovesAhead(s: Search, p: Pos, n: nat)
    requires InBounds(s, p)
    ensures var q := Moved(s.line, s.fwd, p, n); InBounds(s, q) && NotBehind(s.fwd, p, q)
  {
    if n > 0 { MovesAhead(s, p, n - 1); }
  }

  /** A search ends iff it starts on a day not behind the end, or there is an event to stop at ahead. */
  lemma {:induction false} SearchEndsIff(s: Search, p: Pos)
    requires InBounds(s, p)
    ensures Ends(s, p) <==> (if s.fwd then p.day <= s.end else p.day >= s.end) || exists q ::
        IsHit(s, q)
        && NotBehind(s.fwd, p, q)
  {
    if if s.fwd then p.day <= s.end else p.day >= s.end { EndIsReached(s, p); }
    if q :| IsHit(s, q) && NotBehind(s.fwd, p, q) { HitIsReached(s, p, q); }
    if Ends(s, p) {
      var n: nat :| Stops(s, Moved(s.line, s.fwd, p, n));
      MovesAhead(s, p, n);
    }
  }

  /** Where the search does not stop it goes on, and has not passed the first position to stop at. */
  lemma {:induction false} Step(s: Search, p: Pos, n: nat, last: nat)
    requires StopsAfter(s, p, last) && n <= last
    ensures Stops(s, Moved(s.line, s.fwd, p, n)) <==> n == last
    ensures Moved(s.line, s.fwd, p, n + 1) == Next(s.line, s.fwd, Moved(s.line, s.fwd, p, n))
  {}

  // ---------------------------------------------------------------- what a search passes over

  /** A search that is not past its end. */
  predicate Within(s: Search, p: Pos) {
    if s.fwd then p.day <= s.end && 0 <= p.i else s.end == -1 <= p.day && p.i < |s.line.mam|
  }

  /** The events from the first one to stop at. */
  function RestAt(s: Search, p: Pos): seq<Event>
    requires Within(s, p)
  {
    if s.start.None? then (if s.fwd then Ahead(s.line, p.day, p.i, s.end) else Behind(s.line, p.day, p.i))
    else if s.fwd then AheadFrom(s.line, p.day, p.i, s.end, s.start.value)
    else BehindFrom(s.line, p.day, p.i, s.start.value)
  }

  lemma {:induction false} RestOfNext(s: Search, p: Pos)
    requires Within(s, p) && !Stops(s, p)
    ensures var q := Next(s.line, s.fwd, p); Within(s, q) && RestAt(s, q) == RestAt(s, p)
  {}

  /** Going on to the first position to stop at loses nothing, and from there on everything counts. */
  lemma {:induction false} RestKept(s: Search, p: Pos, last: nat)
    requires Within(s, p) && StopsAfter(s, p, last)
    ensures var q, all := Moved(s.line, s.fwd, p, last), s.(start := None);
      Within(s, q) && Stops(all, q) && RestAt(all, q) == RestAt(s, p)
  {
    RestSame(s, p, last, last);
  }

  lemma {:induction false} RestSame(s: Search, p: Pos, n: nat, last: nat)
    requires Within(s, p) && StopsAfter(s, p, last) && n <= last
    ensures var q := Moved(s.line, s.fwd, p, n); Within(s, q) && RestAt(s, q) == RestAt(s, p)
  {
    if n > 0 {
      RestSame(s, p, n - 1, last);
      RestOfNext(s, Moved(s.line, s.fwd, p, n - 1));
    }
  }

  // ---------------------------------------------------------------- searches of a board

  /** The search an iterator begins with: `lastDay` is the end of the timetable; backwards the end is before day 0. */
  function FirstSearch(l: Line, fwd: bool, lastDay: int, start: int): Search {
    Search(l, fwd, if fwd then lastDay else -1, Some(start))
  }

  function FirstPos(l: Line, fwd: bool, start: int): Pos {
    Pos(start / DAY, if fwd then 0 else |l.mam| - 1)
  }

  /** No transport runs on days outside the timetable. */
  ghost predicate WithinTimetable(l: Line, lastDay: int) {
    forall k, d | 0 <= k < |l.mam| && l.active(k, d) :: 0 <= d < lastDay
  }

  /** The first search of a line that stops at the stop on the day itself ends iff it starts not behind the last day;
      or, backwards, not more than a day before the first. */
  lemma {:induction false} FirstSearchEndsIff(l: Line, fwd: bool, lastDay: int, start: int)
    requires SameDay(l.mam) && WithinTimetable(l, lastDay)
    ensures Ends(FirstSearch(l, fwd, lastDay, start), FirstPos(l, fwd, start)) <==>
      if fwd then start / DAY <= lastDay else start >= -DAY
  {
    var s, p := FirstSearch(l, fwd, lastDay, start), FirstPos(l, fwd, start);
    SearchEndsIff(s, p);
    forall q | IsHit(s, q) ensures 0 <= q.day < lastDay {
      assert l.mam[q.i] < DAY && l.mam[q.i] / DAY == 0;
    }
  }

  /** One transport, which runs on day 0 of a timetable of one day: a search forwards from day 2 never ends. */
  lemma {:induction false} NeverEnds()
    ensures var l := Line(0, [60], (i, d) => d == 0);
      SameDay(l.mam) && WithinTimetable(l, 1) && !Ends(FirstSearch(l, true, 1, 2 * DAY), FirstPos(l, true, 2 * DAY))
  {
    var l := Line(0, [60], (i, d) => d == 0);
    FirstSearchEndsIff(l, true, 1, 2 * DAY);
  }
}
