/** Looking trips up: tags added one by one, and a binary search followed by a scan of the block of equal ids. */
module TripLookup {
  import opened Wrappers
  import opened TripModel
  import opened TripTheorems
  import opened TripDetails

  class TagLookup {
    var tagToSrc: map<string, Source>
    var srcToTag: seq<string>

    ghost function Value(): Tags
      reads this
    {
      Tags(tagToSrc, srcToTag)
    }

    constructor ()
      ensures Value() == NO_TAGS
    {
      tagToSrc, srcToTag := map[], [];
    }

    /** Nothing changes if the check fails. */
    method Add(src: Source, str: string) returns (ok: bool)
      modifies this
      ensures var r := AddTag(old(Value()), src, str); ok == r.Some? && Value() == if ok then r.value else old(Value())
    {
      if |tagToSrc| != src {
        return false;
      }
      if str !in tagToSrc {
        tagToSrc := tagToSrc[str := src];
      }
      srcToTag := srcToTag + [str];
      ok := true;
    }

    /** The source of a tag: the invalid one for a tag never added. */
    method FindSrc(tag: string) returns (src: Source)
      ensures src == GetSrc(Value(), tag)
    {
      src := if tag in tagToSrc then tagToSrc[tag] else INVALID_SOURCE;
    }
  }

  /** `std::lower_bound`: the first row that is not less than id. */
  method LowerBound(table: seq<Entry>, id: TripId) returns (lb: nat)
    requires SortedTable(table)
    ensures lb <= |table|
    ensures forall i | 0 <= i < lb :: IdLess(table[i].id, id)
    ensures forall i | lb <= i < |table| :: !IdLess(table[i].id, id)
  {
    hide IdLess;
    var first, len := 0, |table|;
    while len > 0
      invariant 0 <= first && 0 <= len && first + len <= |table|
      invariant forall i | 0 <= i < first :: IdLess(table[i].id, id)
      invariant forall i | first + len <= i < |table| :: !IdLess(table[i].id, id)
      decreases len
    {
      var half := len / 2;
      var middle := first + half;
      if IdLess(table[middle].id, id) {
        forall i | first <= i < middle ensures IdLess(table[i].id, id) {
          IdLessTransitive(table[i].id, table[middle].id, id);
        }
        first, len := middle + 1, len - half - 1;
      } else {
        forall i | middle < i < |table| ensures !IdLess(table[i].id, id) {
          if IdLess(table[i].id, id) { IdLessTransitive(table[middle].id, table[i].id, id); }
        }
        len := half;
      }
    }
    lb := first;
  }

  ghost predicate Found(tt: Timetable, trip: nat, time: int) {
    TimeIsRead(time) && TripDeparts(tt, trip, time)
  }

  ghost predicate IsRunOf(tt: Timetable, trip: nat, time: int, run: Run) {
    && trip < |tt.legs| && Leg(run.transport, run.from, run.to) in tt.legs[trip]
    && DepartsAt(tt, Leg(run.transport, run.from, run.to), time, run.day)
  }

  method RunOfTrip(tt: Timetable, trip: nat, depTime: int) returns (run: Option<Run>)
    requires trip < |tt.legs|
    ensures run.Some? <==> Found(tt, trip, depTime)
    ensures run.Some? ==> IsRunOf(tt, trip, depTime, run.value)
  {
    hide TruncDiv;
    var dayIdx := DayIdx(tt, depTime);
    for l := 0 to |tt.legs[trip]|
      invariant (depTime >= 0 || depTime % DAY == 0) ==>
          forall x | 0 <= x < l :: !LegDeparts(tt, tt.legs[trip][x], depTime)
    {
      var leg := tt.legs[trip][l];
      var day := dayIdx - tt.mam(leg.transport, leg.from) / DAY;
      if depTime >= 0 || depTime % DAY == 0 { OneDayTried(tt, leg, depTime); } else { NoDayTried(tt, leg, depTime); }
      if depTime != EventTime(tt, leg.transport, day, leg.from) {
        continue;
      }
      if !tt.active(leg.transport, day) {
        continue;
      }
      assert LegDeparts(tt, tt.legs[trip][l], depTime);
      return Some(Run(leg.transport, day, leg.from, leg.to));
    }
    run := None;
  }

  /** In a sorted table the rows of one id stand together, from the lower bound on. */
  lemma {:induction false} BlockOfId(table: seq<Entry>, id: TripId, lb: nat, e: nat, x: nat)
    requires SortedTable(table) && lb <= x <= e < |table| && table[e].id == id && !IdLess(table[lb].id, id)
    ensures table[x].id == id
  {
    IdTrichotomy(table[x].id, id);
    if x < e && IdLess(table[x].id, id) && lb < x {
      IdLessTransitive(table[lb].id, table[x].id, id);
    }
  }

  /** A run is found iff a trip of that id departs at exactly that minute, and then it is a run of such a trip. */
  method ResolveRun(tags: TagLookup, tt: Timetable, id: string, time: int) returns (run: Option<Run>)
    requires SortedTable(tt.table) && forall e | 0 <= e < |tt.table| :: tt.table[e].trip < |tt.legs|
    ensures var tripId, t := StationToNigiri(tags.Value(), id), ToMinutes(time);
      && (run.Some? <==> FindsRun(tt, tripId, t))
      && (run.Some? ==> exists e ::
        0 <= e < |tt.table| && tt.table[e].id == tripId
        && IsRunOf(tt, tt.table[e].trip, t, run.value))
    ensures run.Some? <==> IsReadable(time) && exists r :: IsMeant(tags.Value(), tt, id, time, r)
    ensures run.Some? ==> IsMeant(tags.Value(), tt, id, time, run.value)
  {
    hide SplitTag, TruncDiv, IdLess, TripDeparts, SortedTable, IsReadable, IsMeant;
    FindsMeant(tags.Value(), tt, id, time);
    var split := SplitTag(id);
    var src := tags.FindSrc(split.0);
    var tripId, depTime := TripId(src, split.1), ToMinutes(time);
    var lb := LowerBound(tt.table, tripId);
    IdTrichotomy(tripId, tripId);
    var i := lb;
    while i < |tt.table| && tt.table[i].id == tripId
      invariant lb <= i <= |tt.table|
      invariant forall e | lb <= e < i :: !Found(tt, tt.table[e].trip, depTime)
    {
      run := RunOfTrip(tt, tt.table[i].trip, depTime);
      if run.Some? {
        RunIsMeant(tags.Value(), tt, id, time, i, run.value);
        return;
      }
      i := i + 1;
    }
    forall e | i <= e < |tt.table| && tt.table[e].id == tripId ensures false {
      BlockOfId(tt.table, tripId, lb, e, i);
    }
    run := None;
  }

  lemma {:induction false} RunIsMeant(tags: Tags, tt: Timetable, id: string, time: int, e: nat, run: Run)
    requires e < |tt.table| && tt.table[e].id == StationToNigiri(tags, id)
    requires IsRunOf(tt, tt.table[e].trip, ToMinutes(time), run)
    ensures IsMeant(tags, tt, id, time, run)
  {
    hide StationToNigiri, ToMinutes;
    var legs := tt.legs[tt.table[e].trip];
    var l :| 0 <= l < |legs| && legs[l] == Leg(run.transport, run.from, run.to);
    FoundIsMeant(tags, tt, id, time, e, l, run);
  }
}
