/** Looking trips up, written out in seconds, minutes and days, and in the characters of an id. */
module TripDetails {
  import opened Wrappers
  import opened StringOrder
  import opened TripModel
  import opened TripTheorems

  // ---------------------------------------------------------------- ids

  /** The id is cut behind its first underscore; an unknown tag stands for source 255. */
  ghost predicate IdReads(tags: Tags, id: string, trip: TripId) {
    || (exists p: nat :: CutAt(tags, id, trip, p))
    || ('_' !in id && trip == TripId(if "" in tags.tagToSrc then tags.tagToSrc[""] else 255, id))
  }

  ghost predicate CutAt(tags: Tags, id: string, trip: TripId, p: nat) {
    && p < |id| && id[p] == '_' && '_' !in id[..p] && trip.name == id[p + 1..]
    && trip.src == if id[..p + 1] in tags.tagToSrc then tags.tagToSrc[id[..p + 1]] else 255
  }

  lemma {:induction false} IdReadsIff(tags: Tags, id: string, trip: TripId)
    ensures IdReads(tags, id, trip) <==> trip == StationToNigiri(tags, id)
  {
    var q := FindUnderscore(id, 0);
    forall p: nat | q < p <= |id| ensures '_' in id[..p] {
      assert id[..p][q] == '_';
    }
    if q < |id| {
      assert '_' !in id[..q];
      assert trip == StationToNigiri(tags, id) ==> CutAt(tags, id, trip, q);
    } else {
      assert '_' !in id;
    }
  }

  // ---------------------------------------------------------------- departures

  /** Full minutes; before 1970 they are rounded up. */
  ghost predicate IsMinute(time: int, minute: int) {
    if time >= 0 then minute * 60 <= time < (minute + 1) * 60 else (minute - 1) * 60 < time <= minute * 60
  }

  /** A run of a trip in row e of the table, on its leg l, that leaves in that minute since 1970. */
  ghost predicate Leaves(tt: Timetable, trip: TripId, minute: int, e: nat, l: nat, run: Run) {
    && e < |tt.table| && tt.table[e].id == trip && tt.table[e].trip < |tt.legs| && l < |tt.legs[tt.table[e].trip]|
    && tt.legs[tt.table[e].trip][l] == Leg(run.transport, run.from, run.to)
    && tt.active(run.transport, run.day)
    && minute == (tt.base + run.day) * 1440 + tt.mam(run.transport, run.from)
  }

  /** The run meant by an id and a number of seconds since 1970. */
  ghost predicate IsMeant(tags: Tags, tt: Timetable, id: string, time: int, run: Run) {
    exists trip, minute, e: nat, l: nat ::
      IdReads(tags, id, trip) && IsMinute(time, minute) && Leaves(tt, trip, minute, e, l, run)
  }

  /** Before 1970 only what leaves at midnight is found. */
  ghost predicate IsReadable(time: int) {
    exists minute :: IsMinute(time, minute) && (minute >= 0 || minute % 1440 == 0)
  }

  lemma {:induction false} MinuteIff(time: int, minute: int)
    ensures IsMinute(time, minute) <==> minute == ToMinutes(time)
  {}

  lemma {:induction false} ReadableIff(time: int)
    ensures IsReadable(time) <==> TimeIsRead(ToMinutes(time))
  {
    hide ToMinutes;
    MinuteIff(time, ToMinutes(time));
    forall minute | IsMinute(time, minute) ensures minute == ToMinutes(time) {
      MinuteIff(time, minute);
    }
  }

  /** What is searched for is what is meant. */
  lemma {:induction false} FindsMeant(tags: Tags, tt: Timetable, id: string, time: int)
    requires forall e | 0 <= e < |tt.table| :: tt.table[e].trip < |tt.legs|
    ensures FindsRun(tt, StationToNigiri(tags, id), ToMinutes(time)) <==>
      IsReadable(time) && exists run :: IsMeant(tags, tt, id, time, run)
  {
    hide TimeIsRead, IsReadable, IdReads, IsMinute, StationToNigiri, ToMinutes;
    ReadableIff(time);
    if run :| IsMeant(tags, tt, id, time, run) {
      MeantIsResolvable(tags, tt, id, time, run);
    }
    if Resolvable(tt, StationToNigiri(tags, id), ToMinutes(time)) {
      var run := ResolvableIsMeant(tags, tt, id, time);
    }
  }

  lemma {:induction false} MeantIsResolvable(tags: Tags, tt: Timetable, id: string, time: int, run: Run)
    requires IsMeant(tags, tt, id, time, run)
    ensures Resolvable(tt, StationToNigiri(tags, id), ToMinutes(time))
  {
    hide IdReads, IsMinute, StationToNigiri, ToMinutes;
    var trip, minute, e: nat, l: nat :|
      IdReads(tags, id, trip) && IsMinute(time, minute) && Leaves(tt, trip, minute, e, l, run);
    IdReadsIff(tags, id, trip);
    MinuteIff(time, minute);
    var t := tt.table[e].trip;
    assert DepartsAt(tt, tt.legs[t][l], minute, run.day);
    assert TripDeparts(tt, t, minute);
  }

  lemma {:induction false} ResolvableIsMeant(tags: Tags, tt: Timetable, id: string, time: int) returns (run: Run)
    requires Resolvable(tt, StationToNigiri(tags, id), ToMinutes(time))
    ensures IsMeant(tags, tt, id, time, run)
  {
    hide IdReads, IsMinute, StationToNigiri, ToMinutes;
    var minute := ToMinutes(time);
    var e :| 0 <= e < |tt.table| && tt.table[e].id == StationToNigiri(tags, id)
             && TripDeparts(tt, tt.table[e].trip, minute);
    var legs := tt.legs[tt.table[e].trip];
    var l :| 0 <= l < |legs| && LegDeparts(tt, legs[l], minute);
    var day :| DepartsAt(tt, legs[l], minute, day);
    run := Run(legs[l].transport, day, legs[l].from, legs[l].to);
    FoundIsMeant(tags, tt, id, time, e, l, run);
  }

  lemma {:induction false} FoundIsMeant(tags: Tags, tt: Timetable, id: string, time: int, e: nat, l: nat, run: Run)
    requires e < |tt.table| && tt.table[e].id == StationToNigiri(tags, id) && tt.table[e].trip < |tt.legs|
    requires l < |tt.legs[tt.table[e].trip]|
        && tt.legs[tt.table[e].trip][l] == Leg(run.transport, run.from, run.to)
    requires DepartsAt(tt, Leg(run.transport, run.from, run.to), ToMinutes(time), run.day)
    ensures IsMeant(tags, tt, id, time, run)
  {
    hide IdReads, IsMinute, StationToNigiri, ToMinutes;
    IdReadsIff(tags, id, tt.table[e].id);
    MinuteIff(time, ToMinutes(time));
    assert Leaves(tt, tt.table[e].id, ToMinutes(time), e, l, run);
  }

  // ---------------------------------------------------------------- what is handed out

  /** The id is made of the source's tag and the name, and the time is the departure at the stop where the trip's first
      leg starts, in seconds since 1970. */
  lemma {:induction false} ExternTripWrittenOut(tags: Tags, tt: Timetable, trip: nat, transport: nat, day: int,
                                                et: ExternTrip)
    requires trip < |tt.legs| && |tt.legs[trip]| > 0 && trip < |tt.ids| && |tt.ids[trip]| > 0
    requires tt.ids[trip][0].src < 255
    ensures var id := tt.ids[trip][0];
      ToExternTrip(tags, tt, trip, transport, day) == Some(et) <==>
        && id.src < |tags.srcToTag| && et.id == tags.srcToTag[id.src] + id.name
        && et.time == 60 * (1440 * (tt.base + day) + tt.mam(transport, tt.legs[trip][0].from))
  {
    assert et == ExternTrip(et.id, et.time);
  }

  // ---------------------------------------------------------------- the order of the table

  /** The table is ordered by source, and within a source by name. */
  lemma {:induction false} TableOrderWrittenOut(table: seq<Entry>)
    ensures SortedTable(table) <==> forall i, k | 0 <= i < k < |table| :: InOrder(table[i].id, table[k].id)
  {
    hide IdLess;
    forall i, k | 0 <= i < k < |table|
      ensures IdLess(table[k].id, table[i].id) <==> !InOrder(table[i].id, table[k].id) {
      InOrderIff(table[i].id, table[k].id);
    }
  }

  ghost predicate InOrder(a: TripId, b: TripId) {
    a.src < b.src || (a.src == b.src && (a.name == b.name || exists k: nat :: LessAt(a.name, b.name, k)))
  }

  lemma {:induction false} InOrderIff(a: TripId, b: TripId)
    ensures IdLess(b, a) <==> !InOrder(a, b)
  {
    hide LessAt;
    LessIff(a.name, b.name);
    LessTrichotomy(a.name, b.name);
  }
}
