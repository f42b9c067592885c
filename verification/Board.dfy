/** The iterators of the departure board, moved step by step, and the loop that merges them. */
module Board {
  import opened Wrappers
  import opened BoardModel
  import opened BoardTheorems
  import opened BoardSearch

  class StaticEvIterator {
    const line: Line
    const fwd: bool
    const endDay: int
    var day: int
    var i: int

    /** Positions a search may start from. */
    ghost predicate Loose()
      reads this
    {
      Within(Looking(None), Pos(day, i))
    }

    /** Finished, or at an event. */
    ghost predicate Valid()
      reads this
    {
      Loose() && Stops(Looking(None), Pos(day, i))
    }

    /** The events still to come. */
    ghost function Stream(): seq<Event>
      requires Loose()
      reads this
    {
      Rest(None)
    }

    /** The events from the first one in time for `start`. */
    ghost function Rest(start: Option<int>): seq<Event>
      requires Loose()
      reads this
    {
      RestAt(Looking(start), Pos(day, i))
    }

    /** Where the iterator stands, and what it looks for. */
    ghost predicate StandsAt(p: Pos)
      reads this
    {
      day == p.day && i == p.i
    }

    ghost function Looking(start: Option<int>): Search {
      Search(line, fwd, endDay, start)
    }

    /** `lastDay` is the end of the timetable; backwards the search ends before day 0.  Wherever the start: if the
        search ends at all, then at the first position to stop at. */
    constructor (line: Line, start: int, lastDay: int, fwd: bool)
      requires Ends(FirstSearch(line, fwd, lastDay, start), FirstPos(line, fwd, start))
      ensures this.line == line && this.fwd == fwd && endDay == if fwd then lastDay else -1
      ensures exists n: nat :: StopsAfter(FirstSearch(line, fwd, lastDay, start), FirstPos(line, fwd, start), n)
                            && StandsAt(Moved(line, fwd, FirstPos(line, fwd, start), n))
      ensures fwd && start / DAY <= lastDay ==> Valid() && Stream() == AheadFrom(line, start / DAY, 0, lastDay, start)
      ensures !fwd && start >= -DAY ==> Valid() && Stream() == BehindFrom(line, start / DAY, |line.mam| - 1, start)
    {
      this.line, this.fwd := line, fwd;
      day := start / DAY;
      endDay := if fwd then lastDay else -1;
      i := if fwd then 0 else |line.mam| - 1;
      new;
      SeekNext(Some(start));
    }

    predicate Finished()
      reads this
    {
      day == endDay
    }

    function Time(): int
      requires Valid() && !Finished()
      reads this
    {
      At(line, day, i).time
    }

    function Get(): Event
      requires Valid() && !Finished()
      reads this
    {
      At(line, day, i)
    }

    /** Passes over what is not active, and over what is not in time for `start` if that is given, up to the first
        position to stop at. */
    method SeekNext(start: Option<int>)
      requires InBounds(Looking(start), Pos(day, i)) && Ends(Looking(start), Pos(day, i))
      modifies this
      ensures exists n: nat ::
          StopsAfter(Looking(start), old(Pos(day, i)), n)
          && StandsAt(Moved(line, fwd, old(Pos(day, i)), n))
      ensures old(Loose()) ==> Valid() && Stream() == old(Rest(start))
    {
      ghost var s, p := Looking(start), Pos(day, i);
      ghost var k: nat :| Stops(s, Moved(line, fwd, p, k));
      ghost var last := FirstStop(s, p, k);
      if Within(s, p) { RestKept(s, p, last); }
      hide *;
      if fwd {
        SeekForward(start, p, last);
      } else {
        SeekBackward(start, p, last);
      }
    }

    method SeekForward(start: Option<int>, ghost p: Pos, ghost last: nat)
      requires fwd && StandsAt(p) && InBounds(Looking(start), p) && StopsAfter(Looking(start), p, last)
      modifies this
      ensures StandsAt(Moved(line, fwd, p, last))
    {
      ghost var s, n: nat := Looking(start), 0;
      assert Moved(line, fwd, p, 0) == p;
      hide Moved, StopsAfter;
      while !Finished()
        invariant n <= last && StandsAt(Moved(line, fwd, p, n)) && 0 <= i
        decreases last - n
      {
        while i < |line.mam|
          invariant n <= last && StandsAt(Moved(line, fwd, p, n)) && 0 <= i && !Finished()
          decreases last - n
        {
          Step(s, p, n, last);
          if start.Some? && At(line, day, i).time < start.value {
            i, n := i + 1, n + 1;
            continue;
          }
          if IsActive(line, day, i) {
            return;
          }
          i, n := i + 1, n + 1;
        }
        Step(s, p, n, last);
        day, i, n := day + 1, 0, n + 1;
      }
      Step(s, p, n, last);
    }

    method SeekBackward(start: Option<int>, ghost p: Pos, ghost last: nat)
      requires !fwd && StandsAt(p) && InBounds(Looking(start), p) && StopsAfter(Looking(start), p, last)
      modifies this
      ensures StandsAt(Moved(line, fwd, p, last))
    {
      ghost var s, n: nat := Looking(start), 0;
      assert Moved(line, fwd, p, 0) == p;
      hide Moved, StopsAfter;
      while !Finished()
        invariant n <= last && StandsAt(Moved(line, fwd, p, n)) && i < |line.mam|
        decreases last - n
      {
        while i > 0
          invariant n <= last && StandsAt(Moved(line, fwd, p, n)) && i < |line.mam| && !Finished()
          decreases last - n
        {
          Step(s, p, n, last);
          if start.Some? && At(line, day, i).time > start.value {
            i, n := i - 1, n + 1;
            continue;
          }
          if IsActive(line, day, i) {
            return;
          }
          i, n := i - 1, n + 1;
        }
        Step(s, p, n, last);
        day, i, n := day - 1, |line.mam| - 1, n + 1;
      }
      Step(s, p, n, last);
    }

    method Increment()
      requires Valid() && !Finished()
      modifies this
      ensures Valid() && old(Stream()) == [old(Get())] + Stream()
    {
      i := if fwd then i + 1 else i - 1;
      EndIsReached(Looking(None), Pos(day, i));
      SeekNext(None);
    }
  }

  /** A transport known in real time only: one event, if it is in time. */
  class RtEvIterator {
    const event: Event
    var finished: bool

    constructor (event: Event, start: int, fwd: bool)
      ensures this.event == event && (finished <==> if fwd then event.time < start else event.time > start)
    {
      this.event := event;
      finished := if fwd then event.time < start else event.time > start;
    }

    method Increment()
      modifies this
      ensures finished
    {
      finished := true;
    }
  }

  datatype EvIterator = Static(s: StaticEvIterator) | RealTime(r: RtEvIterator) {
    function Obj(): object {
      if Static? then s else r
    }

    ghost predicate Valid()
      reads Obj()
    {
      Static? ==> s.Valid()
    }

    ghost function Stream(): seq<Event>
      requires Valid()
      reads Obj()
    {
      if Static? then s.Stream() else if r.finished then [] else [r.event]
    }

    predicate Finished()
      reads Obj()
    {
      if Static? then s.Finished() else r.finished
    }

    function Get(): Event
      requires Valid() && !Finished()
      reads Obj()
    {
      if Static? then s.Get() else r.event
    }

    method Increment()
      requires Valid() && !Finished()
      modifies Obj()
      ensures Valid() && Stream() == old(Stream())[1..]
    {
      StreamHead(this);
      if Static? { s.Increment(); } else { r.Increment(); }
    }
  }

  /** An iterator stands at the first event of its stream. */
  lemma {:induction false} StreamHead(it: EvIterator)
    requires it.Valid()
    ensures it.Finished() <==> it.Stream() == []
    ensures !it.Finished() ==> it.Stream()[0] == it.Get()
  {}

  predicate ComesBefore(a: EvIterator, b: EvIterator, fwd: bool)
    requires a.Valid() && b.Valid()
    reads a.Obj(), b.Obj()
  {
    if a.Finished() || b.Finished() then !a.Finished() && b.Finished()
    else if fwd then a.Get().time < b.Get().time else a.Get().time > b.Get().time
  }

  lemma {:induction false} ComesBeforeByStream(a: EvIterator, b: EvIterator, fwd: bool)
    requires a.Valid() && b.Valid()
    ensures ComesBefore(a, b, fwd) <==> Precedes(a.Stream(), b.Stream(), fwd)
  {
    StreamHead(a);
    StreamHead(b);
  }

  ghost predicate Distinct(its: seq<EvIterator>) {
    forall j, k | 0 <= j < k < |its| :: its[j].Obj() != its[k].Obj()
  }

  ghost function Objs(its: seq<EvIterator>): set<object> {
    set k | 0 <= k < |its| :: its[k].Obj()
  }

  ghost predicate Streaming(its: seq<EvIterator>, streams: seq<seq<Event>>)
    reads Objs(its)
  {
    |streams| == |its| && forall k | 0 <= k < |its| :: its[k].Valid() && its[k].Stream() == streams[k]
  }

  method AllIteratorsFinished(its: seq<EvIterator>, ghost streams: seq<seq<Event>>) returns (all: bool)
    requires Streaming(its, streams)
    ensures Streaming(its, streams) && (all <==> AllFinished(streams))
  {
    hide EvIterator.Stream, EvIterator.Valid, EvIterator.Finished;
    for k := 0 to |its|
      invariant Streaming(its, streams) && forall x | 0 <= x < k :: streams[x] == []
    {
      StreamHead(its[k]);
      if !its[k].Finished() {
        return false;
      }
    }
    all := true;
  }

  method MinIterator(its: seq<EvIterator>, fwd: bool, ghost streams: seq<seq<Event>>) returns (m: nat)
    requires Streaming(its, streams) && |its| > 0
    ensures Streaming(its, streams) && m == MinElement(streams, fwd, |streams|)
  {
    hide EvIterator.Stream, EvIterator.Valid, ComesBefore, Precedes;
    m := 0;
    for k := 1 to |its|
      invariant Streaming(its, streams) && m < k && m == MinElement(streams, fwd, k)
    {
      ComesBeforeByStream(its[k], its[m], fwd);
      if ComesBefore(its[k], its[m], fwd) {
        m := k;
      }
    }
  }

  /** Takes the first event of iterator m; the others stay where they are. */
  method TakeFrom(its: seq<EvIterator>, m: nat, ghost streams: seq<seq<Event>>) returns (e: Event)
    requires Streaming(its, streams) && m < |its| && streams[m] != []
    requires Distinct(its)
    modifies its[m].Obj()
    ensures e == streams[m][0] && Streaming(its, streams[m := streams[m][1..]])
  {
    hide EvIterator.Stream, EvIterator.Valid, EvIterator.Finished, EvIterator.Get;
    StreamHead(its[m]);
    e := its[m].Get();
    its[m].Increment();
  }

  lemma {:induction false} MergeEnds(now: seq<seq<Event>>, fwd: bool, count: nat)
    requires AllFinished(now) || count == 0
    ensures Merge(now, fwd, count) == [] && Left(now, fwd, count) == now
  {}

  /** The next event of the merge, of at most `count` still to come. */
  method NextEvent(its: seq<EvIterator>, fwd: bool, ghost count: nat, ghost now: seq<seq<Event>>)
      returns (e: Event, ghost now': seq<seq<Event>>)
    requires Streaming(its, now) && Distinct(its) && !AllFinished(now) && count > 0
    modifies Objs(its)
    ensures |now'| == |its| && Streaming(its, now')
    ensures Merge(now, fwd, count) == [e] + Merge(now', fwd, count - 1)
    ensures Left(now, fwd, count) == Left(now', fwd, count - 1)
  {
    hide EvIterator.Stream, EvIterator.Valid;
    PickedHasEvent(now, fwd);
    var m := MinIterator(its, fwd, now);
    e := TakeFrom(its, m, now);
    now' := now[m := now[m][1..]];
  }

  lemma {:induction false} Reassociate(evs: seq<Event>, e: Event, rest: seq<Event>)
    ensures (evs + [e]) + rest == evs + ([e] + rest)
  {}

  /** What has been listed and what is left to merge make up the whole merge. */
  ghost predicate Progress(streams: seq<seq<Event>>, fwd: bool, count: nat, evs: seq<Event>, now: seq<seq<Event>>) {
    && |evs| <= count
    && Merge(streams, fwd, count) == evs + Merge(now, fwd, count - |evs|)
    && Left(streams, fwd, count) == Left(now, fwd, count - |evs|)
  }

  lemma {:induction false} ProgressStarts(streams: seq<seq<Event>>, fwd: bool, count: nat)
    ensures Progress(streams, fwd, count, [], streams)
  {}

  lemma {:induction false} ProgressNext(streams: seq<seq<Event>>, fwd: bool, count: nat, evs: seq<Event>,
                                        now: seq<seq<Event>>, e: Event, now': seq<seq<Event>>)
    requires Progress(streams, fwd, count, evs, now) && |evs| < count
    requires Merge(now, fwd, count - |evs|) == [e] + Merge(now', fwd, count - |evs| - 1)
    requires Left(now, fwd, count - |evs|) == Left(now', fwd, count - |evs| - 1)
    ensures Progress(streams, fwd, count, evs + [e], now')
  {
    hide Merge, Left;
    Reassociate(evs, e, Merge(now', fwd, count - |evs| - 1));
  }

  lemma {:induction false} ProgressEnds(streams: seq<seq<Event>>, fwd: bool, count: nat, evs: seq<Event>,
                                        now: seq<seq<Event>>)
    requires Progress(streams, fwd, count, evs, now) && (AllFinished(now) || |evs| >= count)
    ensures evs == Merge(streams, fwd, count) && now == Left(streams, fwd, count)
  {
    MergeEnds(now, fwd, count - |evs|);
  }

  /** The events listed are the merge of what the iterators have to give. */
  method GetEvents(its: seq<EvIterator>, fwd: bool, count: nat, ghost streams: seq<seq<Event>>)
      returns (evs: seq<Event>)
    requires Streaming(its, streams) && Distinct(its)
    modifies Objs(its)
    ensures evs == Merge(streams, fwd, count)
    ensures Streaming(its, Left(streams, fwd, count))
  {
    hide *;
    evs := [];
    ghost var now := streams;
    ProgressStarts(streams, fwd, count);
    var finished := AllIteratorsFinished(its, now);
    while !finished && |evs| < count
      invariant Progress(streams, fwd, count, evs, now) && Streaming(its, now) && (finished <==> AllFinished(now))
      decreases count - |evs|
    {
      var e;
      ghost var before := now;
      e, now := NextEvent(its, fwd, count - |evs|, now);
      ProgressNext(streams, fwd, count, evs, before, e, now);
      evs := evs + [e];
      finished := AllIteratorsFinished(its, now);
    }
    ProgressEnds(streams, fwd, count, evs, now);
  }
}
