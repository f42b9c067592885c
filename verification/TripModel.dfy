/** Tags of schedules, ids made of a tag and a name, and the timetable's trips as far as looking them up goes. */
module TripModel {
  import opened StringOrder
  import opened Wrappers

  // ---------------------------------------------------------------- tags

  type Source = nat

  const INVALID_SOURCE: Source := 255

  /** `srcToTag` has one tag per source; `tagToSrc` finds the source again. */
  datatype Tags = Tags(tagToSrc: map<string, Source>, srcToTag: seq<string>)

  const NO_TAGS := Tags(map[], [])

  /** The check compares with the size of the map, which a repeated tag does not make grow. */
  function AddTag(t: Tags, src: Source, str: string): Option<Tags> {
    if |t.tagToSrc| != src then None
    else Some(Tags(if str in t.tagToSrc then t.tagToSrc else t.tagToSrc[str := src], t.srcToTag + [str]))
  }

  /** Tags for sources 0, 1, ... one after the other, as schedules are loaded. */
  function AddTags(tags: seq<string>, n: nat): Option<Tags>
    requires n <= |tags|
  {
    if n == 0 then Some(NO_TAGS)
    else
      var t := AddTags(tags, n - 1);
      if t.None? then None else AddTag(t.value, n - 1, tags[n - 1])
  }

  function GetSrc(t: Tags, tag: string): Source {
    if tag in t.tagToSrc then t.tagToSrc[tag] else INVALID_SOURCE
  }

  /** An unknown source other than the invalid one is an error. */
  function GetTag(t: Tags, src: Source): Option<string> {
    if src == INVALID_SOURCE then Some("")
    else if src < |t.srcToTag| then Some(t.srcToTag[src])
    else None
  }

  // ---------------------------------------------------------------- ids

  function FindUnderscore(s: string, i: nat): (r: nat)
    requires i <= |s|
    ensures i <= r <= |s| && (r < |s| ==> s[r] == '_') && forall x | i <= x < r :: s[x] != '_'
    decreases |s| - i
  {
    if i == |s| || s[i] == '_' then i else FindUnderscore(s, i + 1)
  }

  /** Splits after the first underscore. */
  function SplitTag(id: string): (string, string) {
    var p := FindUnderscore(id, 0);
    if p < |id| then (id[..p + 1], id[p + 1..]) else ("", id)
  }

  // ---------------------------------------------------------------- trips

  const DAY := 1440

  /** Trips and stops have ids of this form. */
  datatype TripId = TripId(src: Source, name: string)

  /** The id of a stop as others see it. */
  function StationId(tags: Tags, src: Source, name: string): Option<string> {
    var tag := GetTag(tags, src);
    if tag.None? then None else Some(tag.value + name)
  }

  /** ... and as it is looked up. */
  function StationToNigiri(tags: Tags, id: string): TripId {
    var (tag, name) := SplitTag(id);
    TripId(GetSrc(tags, tag), name)
  }

  /** A row of the table that leads from ids to trips. */
  datatype Entry = Entry(id: TripId, trip: nat)

  /** A trip runs on a transport between two of its stops. */
  datatype Leg = Leg(transport: nat, from: nat, to: nat)

  /** `base` is day 0 in days since 1970; `mam` is the departure in minutes after midnight of the operating day. */
  datatype Timetable = Timetable(base: int, table: seq<Entry>, legs: seq<seq<Leg>>, ids: seq<seq<TripId>>,
                                 mam: (nat, nat) -> nat, active: (nat, int) -> bool)

  datatype Run = Run(transport: nat, day: int, from: nat, to: nat)

  function EventTime(tt: Timetable, transport: nat, day: int, stop: nat): int {
    (tt.base + day) * DAY + tt.mam(transport, stop)
  }

  predicate IdLess(a: TripId, b: TripId) {
    a.src < b.src || (a.src == b.src && Less(a.name, b.name))
  }

  /** Division of C++: towards zero. */
  function TruncDiv(a: int, b: int): int
    requires b > 0
  {
    if a >= 0 then a / b else -((-a) / b)
  }

  /** Seconds since 1970 to minutes. */
  function ToMinutes(seconds: int): int {
    TruncDiv(seconds, 60)
  }

  function ToSeconds(minutes: int): int {
    minutes * 60
  }

  /** The day index of a point in time. */
  function DayIdx(tt: Timetable, time: int): int {
    TruncDiv(time, DAY) - tt.base
  }

  /** Id and departure of a trip on a transport of a day; both taken from the trip's first leg. */
  datatype ExternTrip = ExternTrip(id: string, time: int)

  function ToExternTrip(tags: Tags, tt: Timetable, trip: nat, transport: nat, day: int): Option<ExternTrip>
    requires trip < |tt.legs| && |tt.legs[trip]| > 0 && trip < |tt.ids| && |tt.ids[trip]| > 0
  {
    var id := tt.ids[trip][0];
    var tag := GetTag(tags, id.src);
    if tag.None? then None
    else Some(ExternTrip(tag.value + id.name, ToSeconds(EventTime(tt, transport, day, tt.legs[trip][0].from))))
  }
}
