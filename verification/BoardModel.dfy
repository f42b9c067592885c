/**
 The departure board of a station: the events of one route at one stop, day after day, and the merge of several
 such streams.  Days count from the first of the timetable; times are minutes from its midnight.
 */
module BoardModel {

  const DAY := 1440

  /** Transport `transport` of a route on a day, at the stop `line` stands for; or a transport known in real time
      only. */
  datatype Run = StaticRun(line: nat, transport: nat, day: int) | RtRun(rtTransport: nat)

  datatype Event = Event(time: int, run: Run)

  /** The transports of a route: minutes after midnight at the stop, and whether one runs on a day. */
  datatype Line = Line(id: nat, mam: seq<nat>, active: (nat, int) -> bool)

  function At(l: Line, day: int, i: nat): Event
    requires i < |l.mam|
  {
    Event(day * DAY + l.mam[i], StaticRun(l.id, i, day))
  }

  /** The program asks whether the transport runs on the day that its departure past midnight belongs to. */
  predicate IsActive(l: Line, day: int, i: nat)
    requires i < |l.mam|
  {
    l.active(i, day - l.mam[i] / DAY)
  }

  // ---------------------------------------------------------------- streams

  /** The events from transport i of a day on, up to the end day. */
  function Ahead(l: Line, day: int, i: nat, end: int): seq<Event>
    requires day <= end
    decreases end - day, |l.mam| - i
  {
    if day == end then []
    else if i >= |l.mam| then Ahead(l, day + 1, 0, end)
    else if IsActive(l, day, i) then [At(l, day, i)] + Ahead(l, day, i + 1, end)
    else Ahead(l, day, i + 1, end)
  }

  /** Events before `start` are passed over until the first that is not. */
  function AheadFrom(l: Line, day: int, i: nat, end: int, start: int): seq<Event>
    requires day <= end
    decreases end - day, |l.mam| - i
  {
    if day == end then []
    else if i >= |l.mam| then AheadFrom(l, day + 1, 0, end, start)
    else if At(l, day, i).time >= start && IsActive(l, day, i) then Ahead(l, day, i, end)
    else AheadFrom(l, day, i + 1, end, start)
  }

  /** The events from transport i of a day backwards; transport 0 is never looked at. */
  function Behind(l: Line, day: int, i: int): seq<Event>
    requires day >= -1 && i < |l.mam|
    decreases day, i
  {
    if day == -1 then []
    else if i <= 0 then Behind(l, day - 1, |l.mam| - 1)
    else if IsActive(l, day, i) then [At(l, day, i)] + Behind(l, day, i - 1)
    else Behind(l, day, i - 1)
  }

  function BehindFrom(l: Line, day: int, i: int, start: int): seq<Event>
    requires day >= -1 && i < |l.mam|
    decreases day, i
  {
    if day == -1 then []
    else if i <= 0 then BehindFrom(l, day - 1, |l.mam| - 1, start)
    else if At(l, day, i).time <= start && IsActive(l, day, i) then Behind(l, day, i)
    else BehindFrom(l, day, i - 1, start)
  }

  // ---------------------------------------------------------------- the merge

  /** Whether a stream comes before another: finished ones last, then by the time of the first event. */
  predicate Precedes(a: seq<Event>, b: seq<Event>, fwd: bool) {
    if a == [] || b == [] then a != [] && b == []
    else if fwd then a[0].time < b[0].time else a[0].time > b[0].time
  }

  /** The first of the minimal streams among the first n. */
  function MinElement(streams: seq<seq<Event>>, fwd: bool, n: nat): (m: nat)
    requires 0 < n <= |streams|
    ensures m < n
  {
    if n == 1 then 0
    else
      var m := MinElement(streams, fwd, n - 1);
      if Precedes(streams[n - 1], streams[m], fwd) then n - 1 else m
  }

  predicate AllFinished(streams: seq<seq<Event>>) {
    forall k | 0 <= k < |streams| :: streams[k] == []
  }

  /** The streams chosen, in order, for at most `count` events. */
  function Picks(streams: seq<seq<Event>>, fwd: bool, count: nat): (r: seq<nat>)
    ensures forall b | 0 <= b < |r| :: r[b] < |streams|
    decreases count
  {
    if AllFinished(streams) || count == 0 then []
    else
      var m := MinElement(streams, fwd, |streams|);
      if streams[m] == [] then []
      else [m] + Picks(streams[m := streams[m][1..]], fwd, count - 1)
  }

  function Merge(streams: seq<seq<Event>>, fwd: bool, count: nat): seq<Event>
    decreases count
  {
    if AllFinished(streams) || count == 0 then []
    else
      var m := MinElement(streams, fwd, |streams|);
      if streams[m] == [] then []
      else [streams[m][0]] + Merge(streams[m := streams[m][1..]], fwd, count - 1)
  }

  /** What the merge leaves in the streams. */
  function Left(streams: seq<seq<Event>>, fwd: bool, count: nat): (r: seq<seq<Event>>)
    ensures |r| == |streams|
    decreases count
  {
    if AllFinished(streams) || count == 0 then streams
    else
      var m := MinElement(streams, fwd, |streams|);
      if streams[m] == [] then streams
      else Left(streams[m := streams[m][1..]], fwd, count - 1)
  }
}
