/** Tags and ids are unambiguous exactly under stated conditions, and a trip's id and time lead back to it. */
module TripTheorems {
  import opened StringOrder
  import opened Wrappers
  import opened TripModel

  // ---------------------------------------------------------------- tags

  ghost predicate DistinctTags(tags: seq<string>, n: nat)
    requires n <= |tags|
  {
    forall i, k | 0 <= i < k < n :: tags[i] != tags[k]
  }

  ghost predicate TagsRoundTrip(t: Tags) {
    forall s | 0 <= s < |t.srcToTag| :: GetSrc(t, t.srcToTag[s]) == s
  }

  ghost function TagSet(tags: seq<string>, n: nat): set<string>
    requires n <= |tags|
  {
    if n == 0 then {} else TagSet(tags, n - 1) + {tags[n - 1]}
  }

  lemma {:induction false} TagSetHas(tags: seq<string>, n: nat, k: string)
    requires n <= |tags|
    ensures k in TagSet(tags, n) <==> exists i :: 0 <= i < n && tags[i] == k
  {
    if n > 0 { TagSetHas(tags, n - 1, k); }
  }

  /** What the map holds after the first n tags: each tag with a source that has it. */
  ghost predicate HoldsTags(t: Tags, tags: seq<string>, n: nat)
    requires n <= |tags|
  {
    && t.srcToTag == tags[..n] && t.tagToSrc.Keys == TagSet(tags, n)
    && forall k | k in t.tagToSrc :: t.tagToSrc[k] < n && tags[t.tagToSrc[k]] == k
  }

  lemma {:induction false} HoldsOneMore(t: Tags, tags: seq<string>, n: nat)
    requires n < |tags| && HoldsTags(t, tags, n) && AddTag(t, n, tags[n]).Some?
    ensures HoldsTags(AddTag(t, n, tags[n]).value, tags, n + 1)
  {
    var r := AddTag(t, n, tags[n]).value;
    assert tags[..n + 1] == tags[..n] + [tags[n]];
    assert r.tagToSrc.Keys == t.tagToSrc.Keys + {tags[n]};
  }

  lemma {:induction false} TagsAdded(tags: seq<string>, n: nat)
    requires n <= |tags| && AddTags(tags, n).Some?
    ensures HoldsTags(AddTags(tags, n).value, tags, n)
  {
    hide AddTag;
    if n > 0 {
      hide HoldsTags;
      TagsAdded(tags, n - 1);
      HoldsOneMore(AddTags(tags, n - 1).value, tags, n - 1);
    }
  }

  lemma {:induction false} CountDistinct(tags: seq<string>, n: nat)
    requires n <= |tags|
    ensures |TagSet(tags, n)| <= n && (|TagSet(tags, n)| == n <==> DistinctTags(tags, n))
  {
    if n > 0 {
      CountDistinct(tags, n - 1);
      TagSetHas(tags, n - 1, tags[n - 1]);
      var before := TagSet(tags, n - 1);
      if tags[n - 1] in before {
        assert TagSet(tags, n) == before;
        var i :| 0 <= i < n - 1 && tags[i] == tags[n - 1];
      } else {
        assert |TagSet(tags, n)| == |before| + 1;
      }
    }
  }

  /** All tags are accepted iff all but the last are different: a repeated tag is noticed only when the next one
      comes. */
  lemma {:induction false} TagsAcceptedIff(tags: seq<string>, n: nat)
    requires 0 < n <= |tags|
    ensures AddTags(tags, n).Some? <==> DistinctTags(tags, n - 1)
  {
    if n > 1 { TagsAcceptedIff(tags, n - 1); } else { assert AddTags(tags, 0).Some?; }
    assert AddTags(tags, n).Some? <==> AddTags(tags, n - 1).Some? && |AddTags(tags, n - 1).value.tagToSrc| == n - 1;
    hide AddTags, TagSet;
    if AddTags(tags, n - 1).Some? {
      TagsAdded(tags, n - 1);
      CountDistinct(tags, n - 1);
      var m := AddTags(tags, n - 1).value.tagToSrc;
      assert |m| == |m.Keys|;
    }
  }

  /** Accepted tags lead back to their sources iff they are all different. */
  lemma {:induction false} TagsRoundTripIff(tags: seq<string>)
    requires AddTags(tags, |tags|).Some?
    ensures TagsRoundTrip(AddTags(tags, |tags|).value) <==> DistinctTags(tags, |tags|)
  {
    TagsAdded(tags, |tags|);
    var t := AddTags(tags, |tags|).value;
    assert tags[..|tags|] == tags;
    if DistinctTags(tags, |tags|) {
      forall s | 0 <= s < |t.srcToTag| ensures GetSrc(t, t.srcToTag[s]) == s {
        TagSetHas(tags, |tags|, tags[s]);
        assert tags[s] in t.tagToSrc.Keys;
      }
    } else {
      var i, k :| 0 <= i < k < |tags| && tags[i] == tags[k];
      assert GetSrc(t, t.srcToTag[i]) == GetSrc(t, t.srcToTag[k]);
    }
  }

  /** One tag for two schedules is accepted, and leads to the first. */
  lemma {:induction false} RepeatedTagAccepted(tag: string)
    ensures var t := AddTags([tag, tag], 2);
      t.Some? && t.value.srcToTag == [tag, tag] && GetSrc(t.value, tag) == 0 && !TagsRoundTrip(t.value)
  {
    var tags := [tag, tag];
    assert AddTags(tags, 1) == AddTag(AddTags(tags, 0).value, 0, tag);
    assert AddTags(tags, 1).value.tagToSrc == map[][tag := 0];
    TagsAcceptedIff(tags, 2);
    TagsAdded(tags, 2);
    assert tags[..2] == tags;
    assert AddTags(tags, 2) == AddTag(AddTags(tags, 1).value, 1, tag);
    assert !DistinctTags(tags, 2) by { assert tags[0] == tags[1]; }
    TagsRoundTripIff(tags);
  }

  // ---------------------------------------------------------------- ids

  /** The tag's only underscore is its last character. */
  predicate EndsInOnlyUnderscore(tag: string) {
    |tag| > 0 && FindUnderscore(tag, 0) == |tag| - 1
  }

  /** An id splits into the tag and the name it was made of iff the tag ends in its only underscore, or there is
      neither tag nor underscore. */
  lemma {:induction false} SplitsBackIff(tag: string, name: string)
    ensures SplitTag(tag + name) == (tag, name) <==> EndsInOnlyUnderscore(tag) || (tag == "" && '_' !in name)
  {
    var id := tag + name;
    var p := FindUnderscore(id, 0);
    if EndsInOnlyUnderscore(tag) {
      var q := |tag| - 1;
      assert id[q] == '_' && forall x | 0 <= x < q :: id[x] == tag[x];
      assert p == q;
      assert id[..q + 1] == tag && id[q + 1..] == name;
    } else if tag == "" {
      assert id == name;
      if '_' in name {
        assert p < |id|;
        assert |SplitTag(id).0| == p + 1;
      }
    }
  }

  /** A tag with another underscore is cut at that. */
  lemma {:induction false} TagIsCut(name: string)
    ensures SplitTag("a_b_" + name) == ("a_", "b_" + name)
  {
    var id := "a_b_" + name;
    assert id[0] == 'a' && id[1] == '_';
    assert FindUnderscore(id, 0) == 1;
    assert id[..2] == "a_" && id[2..] == "b_" + name;
  }

  lemma {:induction false} SplitIsWhole(id: string)
    ensures SplitTag(id).0 + SplitTag(id).1 == id
    ensures SplitTag(id).0 == "" || EndsInOnlyUnderscore(SplitTag(id).0)
    ensures SplitTag(id).0 == "" ==> '_' !in id
  {
    var p := FindUnderscore(id, 0);
    if p < |id| { assert id[..p + 1][p] == '_'; }
  }

  /** A station's id leads back to its source and name iff the tag ends in its only underscore, or there is neither
      tag nor underscore and the empty tag belongs to the source. */
  lemma {:induction false} StationIdLeadsBackIff(tags: Tags, src: Source, name: string)
    requires TagsRoundTrip(tags) && (src == INVALID_SOURCE || src < |tags.srcToTag|)
    ensures StationId(tags, src, name).Some?
    ensures StationToNigiri(tags, StationId(tags, src, name).value) == TripId(src, name) <==>
      EndsInOnlyUnderscore(GetTag(tags, src).value)
        || (GetTag(tags, src).value == "" && '_' !in name && GetSrc(tags, "") == src)
  {
    var tag := GetTag(tags, src).value;
    SplitsBackIff(tag, name);
    SplitIsWhole(tag + name);
  }

  // ---------------------------------------------------------------- trips

  ghost predicate SortedTable(table: seq<Entry>) {
    forall i, k | 0 <= i < k < |table| :: !IdLess(table[k].id, table[i].id)
  }

  lemma {:induction false} IdTrichotomy(a: TripId, b: TripId)
    ensures !(IdLess(a, b) && IdLess(b, a)) && (IdLess(a, b) || IdLess(b, a) || a == b)
  {
    LessTrichotomy(a.name, b.name);
  }

  /** Nothing is between: what is not greater than something less is less. */
  lemma {:induction false} IdLessTransitive(a: TripId, b: TripId, c: TripId)
    requires !IdLess(b, a) && IdLess(b, c)
    ensures IdLess(a, c)
  {
    IdTrichotomy(a, b);
    if a != b && a.src == b.src && b.src == c.src { LessTransitive(a.name, b.name, c.name); }
  }

  /** The leg departs at that time on some day on which its transport runs. */
  ghost predicate DepartsAt(tt: Timetable, leg: Leg, time: int, day: int) {
    tt.active(leg.transport, day) && EventTime(tt, leg.transport, day, leg.from) == time
  }

  ghost predicate LegDeparts(tt: Timetable, leg: Leg, time: int) {
    exists day :: DepartsAt(tt, leg, time, day)
  }

  ghost predicate TripDeparts(tt: Timetable, trip: nat, time: int) {
    trip < |tt.legs| && exists l :: 0 <= l < |tt.legs[trip]| && LegDeparts(tt, tt.legs[trip][l], time)
  }

  /** A trip of that id departs at that time. */
  ghost predicate Resolvable(tt: Timetable, id: TripId, time: int) {
    exists e :: 0 <= e < |tt.table| && tt.table[e].id == id && TripDeparts(tt, tt.table[e].trip, time)
  }

  /** The day the program tries: that of the departure, less the days the departure is after midnight. */
  function DayTried(tt: Timetable, leg: Leg, time: int): int {
    DayIdx(tt, time) - tt.mam(leg.transport, leg.from) / DAY
  }

  /** The one day tried is the only one that can be right, also for departures past midnight; before 1970 only at
      midnight. */
  lemma {:induction false} OneDayTried(tt: Timetable, leg: Leg, time: int)
    requires time >= 0 || time % DAY == 0
    ensures LegDeparts(tt, leg, time) <==> DepartsAt(tt, leg, time, DayTried(tt, leg, time))
  {
    var m := tt.mam(leg.transport, leg.from);
    assert TruncDiv(time, DAY) == time / DAY;
    forall day | EventTime(tt, leg.transport, day, leg.from) == time
      ensures day == DayTried(tt, leg, time)
    {
      assert time == (tt.base + day + m / DAY) * DAY + m % DAY;
      assert time / DAY == tt.base + day + m / DAY;
    }
  }

  /** Otherwise the day tried is wrong. */
  lemma {:induction false} NoDayTried(tt: Timetable, leg: Leg, time: int)
    requires time < 0 && time % DAY != 0
    ensures EventTime(tt, leg.transport, DayTried(tt, leg, time), leg.from) != time
  {
    var m := tt.mam(leg.transport, leg.from);
    assert TruncDiv(time, DAY) == time / DAY + 1;
    assert EventTime(tt, leg.transport, DayTried(tt, leg, time), leg.from) == (time / DAY + 1) * DAY + m % DAY;
  }

  /** A departure one minute after midnight of the last day of 1969 is looked for on the first day of 1970. */
  lemma {:induction false} BeforeEpochMissed()
    ensures var id := TripId(0, "x");
      var tt := Timetable(-1, [Entry(id, 0)], [[Leg(0, 0, 1)]], [[id]], (u, s) => 1, (u, d) => d == 0);
      && EventTime(tt, 0, 0, 0) == -1439 && DayTried(tt, tt.legs[0][0], -1439) == 1
      && Resolvable(tt, id, -1439) && !FindsRun(tt, id, -1439)
  {
    var id := TripId(0, "x");
    var tt := Timetable(-1, [Entry(id, 0)], [[Leg(0, 0, 1)]], [[id]], (u, s) => 1, (u, d) => d == 0);
    assert DepartsAt(tt, tt.legs[0][0], -1439, 0);
    assert TripDeparts(tt, tt.table[0].trip, -1439);
  }

  lemma {:induction false} MinutesBack(minutes: int)
    ensures ToMinutes(ToSeconds(minutes)) == minutes
  {}

  /** The program's own reading of the departure: it finds no run for a time before 1970 but at midnight. */
  predicate TimeIsRead(time: int) {
    time >= 0 || time % DAY == 0
  }

  /** The search finds a run for this id and departure. */
  ghost predicate FindsRun(tt: Timetable, id: TripId, time: int) {
    TimeIsRead(time) && Resolvable(tt, id, time)
  }

  /** A trip's first id is in the table, and its tag leads back to the source. */
  ghost predicate Listed(tags: Tags, tt: Timetable, trip: nat) {
    && trip < |tt.legs| && |tt.legs[trip]| > 0 && trip < |tt.ids| && |tt.ids[trip]| > 0
    && Entry(tt.ids[trip][0], trip) in tt.table
    && TagsRoundTrip(tags) && tt.ids[trip][0].src < |tags.srcToTag| && tt.ids[trip][0].src != INVALID_SOURCE
    && EndsInOnlyUnderscore(tags.srcToTag[tt.ids[trip][0].src])
  }

  /** The id handed out leads back to the trip's first id. */
  lemma {:induction false} ExternTripId(tags: Tags, tt: Timetable, trip: nat, transport: nat, day: int)
    requires Listed(tags, tt, trip)
    ensures var et := ToExternTrip(tags, tt, trip, transport, day);
      && et.Some?
      && StationToNigiri(tags, et.value.id) == tt.ids[trip][0]
      && ToMinutes(et.value.time) == EventTime(tt, transport, day, tt.legs[trip][0].from)
  {
    var id := tt.ids[trip][0];
    SplitsBackIff(tags.srcToTag[id.src], id.name);
    MinutesBack(EventTime(tt, transport, day, tt.legs[trip][0].from));
  }

  /** The time handed out for a transport is taken where the trip's first leg starts; it is the departure of the leg on
      that transport iff that departs there, or at another stop at the same time. */
  lemma {:induction false} ExternTripTimeIff(tags: Tags, tt: Timetable, trip: nat, l: nat, day: int)
    requires Listed(tags, tt, trip) && l < |tt.legs[trip]|
    ensures var leg := tt.legs[trip][l];
      ToMinutes(ToExternTrip(tags, tt, trip, leg.transport, day).value.time) ==
        EventTime(tt, leg.transport, day, leg.from)
      <==> tt.mam(leg.transport, tt.legs[trip][0].from) == tt.mam(leg.transport, leg.from)
  {
    ExternTripId(tags, tt, trip, tt.legs[trip][l].transport, day);
  }

  /** Some trip of that id has a leg on the transport that starts at the stop. */
  ghost predicate Serves(tt: Timetable, id: TripId, transport: nat, stop: nat) {
    exists e: nat, l: nat :: ServesAt(tt, id, transport, stop, e, l)
  }

  ghost predicate ServesAt(tt: Timetable, id: TripId, transport: nat, stop: nat, e: nat, l: nat) {
    && e < |tt.table| && tt.table[e].id == id && tt.table[e].trip < |tt.legs| && l < |tt.legs[tt.table[e].trip]|
    && tt.legs[tt.table[e].trip][l].transport == transport && tt.legs[tt.table[e].trip][l].from == stop
  }

  /** Id and departure of a trip on a transport that runs that day are found again, except before 1970, if a trip of
      that id has a leg on the transport that starts where its first leg does. */
  lemma {:induction false} ExternTripResolves(tags: Tags, tt: Timetable, trip: nat, transport: nat, day: int)
    requires Listed(tags, tt, trip) && tt.active(transport, day)
    requires Serves(tt, tt.ids[trip][0], transport, tt.legs[trip][0].from)
    ensures var et := ToExternTrip(tags, tt, trip, transport, day);
      && et.Some?
      && StationToNigiri(tags, et.value.id) == tt.ids[trip][0]
      && ToMinutes(et.value.time) == EventTime(tt, transport, day, tt.legs[trip][0].from)
      && Resolvable(tt, StationToNigiri(tags, et.value.id), ToMinutes(et.value.time))
      && (FindsRun(tt, StationToNigiri(tags, et.value.id), ToMinutes(et.value.time)) <==>
        TimeIsRead(ToMinutes(et.value.time)))
  {
    ExternTripId(tags, tt, trip, transport, day);
    var e: nat, l: nat :| ServesAt(tt, tt.ids[trip][0], transport, tt.legs[trip][0].from, e, l);
    var t := tt.table[e].trip;
    assert DepartsAt(tt, tt.legs[t][l], EventTime(tt, transport, day, tt.legs[trip][0].from), day);
    assert TripDeparts(tt, t, EventTime(tt, transport, day, tt.legs[trip][0].from));
  }

  /** The same trips, at any times and on any days. */
  ghost predicate SameTrips(a: Timetable, b: Timetable) {
    a.base == b.base && a.table == b.table && a.legs == b.legs && a.ids == b.ids
  }

  /** Stops are numbered along the way: no transport is earlier at a later one. */
  ghost predicate InTravelOrder(tt: Timetable) {
    forall u, s, t | s <= t :: tt.mam(u, s) <= tt.mam(u, t)
  }

  /** What is handed out for the transport on that day is found again. */
  ghost predicate LeadsBack(tags: Tags, tt: Timetable, trip: nat, transport: nat, day: int)
    requires Listed(tags, tt, trip)
  {
    var et := ToExternTrip(tags, tt, trip, transport, day);
    tt.active(transport, day) && et.Some? && TimeIsRead(ToMinutes(et.value.time))
    ==> FindsRun(tt, StationToNigiri(tags, et.value.id), ToMinutes(et.value.time))
  }

  /** What is handed out for a transport leads back in every timetable with these trips, as long as times do not run
      backwards, iff some trip of that id has a leg on the transport that starts where the first leg does. */
  lemma {:induction false} ExternTripResolvesIff(tags: Tags, tt: Timetable, trip: nat, transport: nat)
    requires Listed(tags, tt, trip)
    ensures (forall world, day | SameTrips(tt, world) && InTravelOrder(world) ::
               LeadsBack(tags, world, trip, transport, day))
      <==> Serves(tt, tt.ids[trip][0], transport, tt.legs[trip][0].from)
  {
    var stop := tt.legs[trip][0].from;
    if Serves(tt, tt.ids[trip][0], transport, stop) {
      forall world, day | SameTrips(tt, world) && InTravelOrder(world)
        ensures LeadsBack(tags, world, trip, transport, day) {
        var e: nat, l: nat :| ServesAt(tt, tt.ids[trip][0], transport, stop, e, l);
        assert ServesAt(world, tt.ids[trip][0], transport, stop, e, l);
        if world.active(transport, day) { ExternTripResolves(tags, world, trip, transport, day); }
      }
    } else {
      var world, day := StopMissed(tags, tt, trip, transport);
    }
  }

  /** Times that tell all stops apart: nothing of that id departs when the stop of the first leg is left. */
  lemma {:induction false} StopMissed(tags: Tags, tt: Timetable, trip: nat, transport: nat)
      returns (world: Timetable, day: int)
    requires Listed(tags, tt, trip) && !Serves(tt, tt.ids[trip][0], transport, tt.legs[trip][0].from)
    ensures SameTrips(tt, world) && InTravelOrder(world) && !LeadsBack(tags, world, trip, transport, day)
  {
    var stop, id := tt.legs[trip][0].from, tt.ids[trip][0];
    day := if tt.base < 0 then -tt.base else 0;
    var running := day;
    world := Timetable(tt.base, tt.table, tt.legs, tt.ids, (u, s) => s, (u, d) => u == transport && d == running);
    ExternTripId(tags, world, trip, transport, day);
    var time := EventTime(world, transport, day, stop);
    if Resolvable(world, id, time) {
      var e :| 0 <= e < |world.table| && world.table[e].id == id && TripDeparts(world, world.table[e].trip, time);
      var t := world.table[e].trip;
      var l :| 0 <= l < |world.legs[t]| && LegDeparts(world, world.legs[t][l], time);
      assert ServesAt(tt, id, transport, stop, e, l);
    }
  }

  /** A trip whose second leg, on another transport, starts one stop later: what is handed out for the second transport
      names a departure that is none of the trip's. */
  lemma {:induction false} OtherStopIsMissed()
    ensures var tags := Tags(map["a_" := 0], ["a_"]);
      var id := TripId(0, "x");
      var tt := Timetable(0, [Entry(id, 0)], [[Leg(0, 0, 2), Leg(1, 1, 3)]], [[id]],
                          (u, s) => if s == 0 then 100 else 200, (u, d) => u == 1 && d == 0);
      && Listed(tags, tt, 0) && tt.active(1, 0)
      && var et := ToExternTrip(tags, tt, 0, 1, 0).value;
      && ToMinutes(et.time) == 100 && EventTime(tt, 1, 0, tt.legs[0][1].from) == 200
      && !FindsRun(tt, StationToNigiri(tags, et.id), ToMinutes(et.time))
  {
    var tags := Tags(map["a_" := 0], ["a_"]);
    var id := TripId(0, "x");
    var tt := Timetable(0, [Entry(id, 0)], [[Leg(0, 0, 2), Leg(1, 1, 3)]], [[id]],
                        (u, s) => if s == 0 then 100 else 200, (u, d) => u == 1 && d == 0);
    assert tt.table[0] in tt.table;
    assert Listed(tags, tt, 0);
    ExternTripId(tags, tt, 0, 1, 0);
  }
}
