/** The database, the list of lots and the update loop as the program has them. */
module Parking {
  import opened Wrappers
  import opened ParkingModel
  import opened ParkingTheorems
  import opened FootEdgeCache
  import opened FootEdgeRuns
  import opened ParkingDetails

  class Database {
    var store: Store
    var highest: int

    ghost function Value(): Db
      reads this
    {
      Db(store, highest)
    }

    /** Opens the tables; the cursor's last key is the highest id. */
    constructor (store: Store)
      ensures this.store == store && IsLastId(store.lots, highest)
    {
      this.store := store;
      if store.lots == map[] {
        highest := 0;
      } else {
        MaxExists(store.lots.Keys);
        var last :| last in store.lots && forall x | x in store.lots :: x <= last;
        highest := last;
      }
    }

    /** Known lots get their id, unknown ones the next; the lots given are changed in place.  `breaks` says after how
        many lots an exception comes, the last time for it being the commit; then the transaction is dropped, and
        nothing undone but the tables. */
    method AddParkingLots(lots: array<Lot>, breaks: Option<nat>) returns (ok: bool, added: seq<nat>)
      modifies this, lots
      ensures ok <==> breaks.None? || breaks.value > lots.Length
      ensures ok ==> Value() == AddTo(old(Value()), old(lots[..]), lots.Length)
      ensures ok ==> added == AddedIndices(old(Value()), old(lots[..]), lots.Length)
      ensures ok ==> forall i | 0 <= i < lots.Length :: lots[i] == Assigned(old(Value()), old(lots[..]), i)
      ensures !ok ==> Value() == Aborted(old(Value()), old(lots[..]), breaks.value)
      ensures ok && Keyed(old(Value())) ==> BatchStands(old(Value()), old(lots[..]), Value(), lots[..], added)
    {
      hide AddTo, AddedIndices, Assigned, AddOne, Find, Aborted, IdFor, Keyed, BatchStands;
      added := [];
      var txn := store;
      ghost var before, given := Value(), lots[..];
      NothingAddedYet(before, given);
      for idx := 0 to lots.Length
        invariant Value() == AddTo(before, given, idx) && added == AddedIndices(before, given, idx)
        invariant forall i | 0 <= i < idx :: lots[i] == Assigned(before, given, i)
        invariant forall i | idx <= i < lots.Length :: lots[i] == given[i]
        invariant breaks.Some? ==> breaks.value >= idx
      {
        if breaks == Some(idx) {
          Abort(txn, before, given, idx);
          return false, [];
        }
        NextAdded(before, given, idx);
        var lot, isNew := AddLot(lots[idx]);
        lots[idx] := lot;
        if isNew {
          added := added + [idx];
        }
      }
      assert lots.Length == |given| && given == old(lots[..]);
      if breaks == Some(lots.Length) {
        Abort(txn, before, given, lots.Length);
        return false, [];
      }
      ok := true;
      if Keyed(before) { BatchWrittenOut(before, given, lots[..]); }
    }

    /** One lot: it gets the id it has, or the next and is stored. */
    method AddLot(lot: Lot) returns (r: Lot, isNew: bool)
      modifies this
      ensures Value() == AddOne(old(Value()), lot) && r == lot.(id := IdFor(old(Value()), lot.info))
      ensures isNew <==> Find(old(store), lot.info).None?
    {
      hide Find, OsmKey, Put;
      var known := StoredId(lot.info);
      isNew := known.None?;
      if known.Some? {
        r := lot.(id := known.value);
      } else {
        highest := highest + 1;
        r := lot.(id := highest);
        StoreLot(r);
      }
    }

    /** The transaction is dropped: the tables are as they were when it began. */
    method Abort(txn: Store, ghost before: Db, ghost given: seq<Lot>, ghost n: nat)
      requires n <= |given| && Value() == AddTo(before, given, n) && txn == before.store
      modifies this`store
      ensures Value() == Aborted(before, given, n)
    {
      store := txn;
    }

    method StoredId(info: Info) returns (r: Option<int>)
      ensures r == Find(store, info)
    {
      if info.Osm? {
        var osmKey := OsmKey(info);
        r := if osmKey in store.osm then Some(store.osm[osmKey]) else None;
      } else {
        r := if info.key in store.parkendd then Some(store.parkendd[info.key]) else None;
      }
    }

    method StoreLot(lot: Lot)
      modifies this`store
      ensures store == Put(old(store), lot)
    {
      store := store.(lots := store.lots[lot.id := lot]);
      if lot.info.Osm? {
        store := store.(osm := store.osm[OsmKey(lot.info) := lot.id]);
      } else {
        store := store.(parkendd := store.parkendd[lot.info.key := lot.id]);
      }
    }

    /** A cursor over the table, from the first key to the last, gaps or not. */
    method GetParkingLots() returns (r: seq<Lot>)
      requires Keyed(Value())
      ensures r == Ascending(store.lots, 1, highest + 1)
    {
      KeyedIds(Value());
      r := VisitAll(store.lots, highest);
    }

    method PutFootEdges(t: Task, e: FootEdges)
      modifies this`store
      ensures store == PutEdges(old(store), t, e)
    {
      store := store.(edges := store.edges[KeyOf(t) := e]);
      store := store.(stations := store.stations[KeyOf(t) := SerializedAll(t.stations)]);
    }

    method GetFootEdgeTasks(lots: seq<Lot>, profiles: seq<string>, near: InRadius) returns (tasks: seq<Task>)
      ensures tasks == Tasks(store, lots, profiles, near)
      ensures TasksStand(store, tasks, lots, profiles, near)
    {
      hide SerializedAll, EdgesKey, DecimalNat, TasksStand;
      AllTasksStand(store, lots, profiles, near);
      tasks := [];
      for j := 0 to |profiles|
        invariant tasks == TasksTo(store, lots, profiles, j, near)
      {
        ghost var before, found: seq<Task> := tasks, [];
        for i := 0 to |lots|
          invariant tasks == before + found && found == TasksOf(store, lots, i, profiles[j], near)
        {
          var task := TaskFor(lots[i], profiles[j], near);
          var key := EdgesKey(lots[i].id, profiles[j]);
          if key in store.stations && store.stations[key] == SerializedAll(task.stations) {
            if key in store.edges {
              continue;
            }
          }
          tasks := tasks + [task];
          found := found + [task];
          assert tasks == before + found;
        }
      }
    }
  }

  /** One round of adding lots. */
  lemma {:induction false} NextAdded(db: Db, lots: seq<Lot>, n: nat)
    requires n < |lots|
    ensures var p := AddTo(db, lots, n);
      && AddTo(db, lots, n + 1) == AddOne(p, lots[n])
      && Assigned(db, lots, n) == lots[n].(id := IdFor(p, lots[n].info))
      && AddedIndices(db, lots, n + 1) == AddedIndices(db, lots, n) + if Find(p.store, lots[n].info).None? then [n]
        else []
  {}

  lemma {:induction false} NothingAddedYet(db: Db, lots: seq<Lot>)
    ensures AddTo(db, lots, 0) == db && AddedIndices(db, lots, 0) == []
  {}

  /** A cursor over a table of lots with ids up to `highest`. */
  method VisitAll(lots: map<int, Lot>, ghost highest: int) returns (r: seq<Lot>)
    requires highest >= 0 && forall id | id in lots :: 1 <= id <= highest
    ensures r == Ascending(lots, 1, highest + 1)
  {
    hide *;
    r := [];
    var last := 0;
    while exists k :: k in lots && k > last
      invariant 0 <= last <= highest && r + Ascending(lots, last + 1, highest + 1) == Ascending(lots, 1, highest + 1)
      decreases highest - last
    {
      var next := NextKey(lots.Keys, last);
      NextLot(lots, last, next, highest + 1);
      r := r + [lots[next]];
      last := next;
    }
    AscendingNone(lots, last + 1, highest + 1);
  }

  /** What a cursor does not pass over. */
  lemma {:induction false} NextLot(lots: map<int, Lot>, last: int, next: int, end: int)
    requires last < next < end && next in lots && forall k | last < k < next :: k !in lots
    ensures Ascending(lots, last + 1, end) == [lots[next]] + Ascending(lots, next + 1, end)
  {
    AscendingSplits(lots, last + 1, next, end);
    AscendingNone(lots, last + 1, next);
  }

  lemma {:induction false} MinExists(s: set<int>)
    requires s != {}
    ensures exists k :: k in s && forall x | x in s :: k <= x
    decreases |s|
  {
    Inhabited(s);
    var k :| k in s;
    var rest, n := s - {k}, k;
    if rest != {} {
      MinExists(rest);
      var m :| m in rest && forall x | x in rest :: m <= x;
      n := if m < k then m else k;
    }
    assert n in s;
    forall x | x in s ensures n <= x {
      if x != k { assert x in rest; }
    }
  }

  /** The next key of a cursor. */
  method NextKey(keys: set<int>, last: int) returns (next: int)
    requires exists k :: k in keys && k > last
    ensures next in keys && next > last && forall x | x in keys && x > last :: next <= x
  {
    var above := set k | k in keys && k > last;
    var k :| k in keys && k > last;
    assert k in above;
    MinExists(above);
    next :| next in above && forall x | x in above :: next <= x;
    forall x | x in keys && x > last ensures next <= x {
      assert x in above;
    }
  }

  /** Ascending positions below n. */
  ghost predicate IsSelection(kept: seq<int>, n: nat) {
    (forall t | 0 <= t < |kept| :: 0 <= kept[t] < n) && forall t, u | 0 <= t < u < |kept| :: kept[t] < kept[u]
  }

  class Parkings {
    var parkings: seq<Lot>
    var idByKey: map<string, int>
    var unavailable: set<int>

    ghost function Value(): Listing
      reads this
    {
      Listing(parkings, idByKey, unavailable)
    }

    constructor (db: Database)
      requires Keyed(db.Value())
      ensures Value() == Reloaded(db.Value()).listing && Lists(db.Value(), Value())
      ensures Sound(db.Value()) ==> InLine(db.Value(), Value())
    {
      parkings, idByKey, unavailable := [], map[], {};
      new;
      var lots := db.GetParkingLots();
      AddParkings(lots);
      ReloadedLists(db.Value());
      if Sound(db.Value()) { SoundListsInLine(db.Value(), Value()); }
    }

    method AddParkings(lots: seq<Lot>)
      modifies this
      ensures Value() == Append(old(Value()), lots, |lots|)
    {
      for i := 0 to |lots|
        invariant Value() == Append(old(Value()), lots, i)
      {
        parkings := parkings + [lots[i]];
        if lots[i].info.ParkenDD? {
          idByKey := idByKey[lots[i].info.key := lots[i].id];
        }
      }
    }

    method GetParking(id: int) returns (r: Option<Lot>)
      ensures r == ParkingModel.GetParking(Value(), id)
    {
      if id > 0 && id <= |parkings| {
        r := Some(parkings[id - 1]);
      } else {
        r := None;
      }
    }

    /** The lots at these places of those given, which are all that are not unavailable. */
    ghost predicate Selects(r: seq<Lot>, kept: seq<int>, inRadius: seq<nat>)
      requires forall i | 0 <= i < |inRadius| :: inRadius[i] < |parkings|
      reads this
    {
      && IsSelection(kept, |inRadius|) && |r| == |kept|
      && (forall t | 0 <= t < |r| :: r[t] == parkings[inRadius[kept[t]]])
      && forall i | 0 <= i < |inRadius| :: i in kept <==> parkings[inRadius[i]].id !in unavailable
    }

    /** Of the lots in a radius, given by their positions in the list, those that are not unavailable, in the same
        order. */
    method GetParkings(inRadius: seq<nat>) returns (r: seq<Lot>)
      requires forall i | 0 <= i < |inRadius| :: inRadius[i] < |parkings|
      ensures exists kept :: Selects(r, kept, inRadius)
    {
      r := [];
      ghost var kept: seq<int> := [];
      for i := 0 to |inRadius|
        invariant IsSelection(kept, i) && |r| == |kept|
            && forall t | 0 <= t < |r| :: r[t] == parkings[inRadius[kept[t]]]
        invariant forall k | 0 <= k < i :: k in kept <==> parkings[inRadius[k]].id !in unavailable
      {
        var lot := parkings[inRadius[i]];
        if lot.id !in unavailable {
          r := r + [lot];
          kept := kept + [i];
        }
      }
      assert Selects(r, kept, inRadius);
    }

    /** `at` throws for an unknown key; callers make sure there is none. */
    method GetParkenddLotId(key: string) returns (id: int)
      requires key in idByKey
      ensures id == idByKey[key]
    {
      id := idByKey[key];
    }
  }

  // ---------------------------------------------------------------- updates

  datatype ApiLot = ApiLot(key: string, detail: string, pos: Pos, open: bool, free: int)

  function ToParkingLot(a: ApiLot): Lot {
    Lot(0, a.pos, ParkenDD(a.key, a.detail))
  }

  predicate IsUsable(a: ApiLot) {
    a.open && a.free > 0
  }

  /** An endpoint does not answer, or answers with lots; `breaks` says after how many lots the database breaks off,
      `fails` after how many tasks the routing does. */
  datatype Response = NoAnswer | Answer(lots: seq<ApiLot>, breaks: Option<nat>, fails: Option<nat>)

  /** Nothing breaks off. */
  predicate IsWhole(r: Response) {
    r.Answer? && r.breaks.None? && r.fails.None?
  }

  function ToLots(api: seq<ApiLot>): (r: seq<Lot>)
    ensures |r| == |api|
    ensures forall i {:trigger r[i]} | 0 <= i < |api| ::
      r[i] == ToParkingLot(api[i]) && r[i] == Lot(0, api[i].pos, ParkenDD(api[i].key, api[i].detail))
  {
    seq(|api|, i requires 0 <= i < |api| => ToParkingLot(api[i]))
  }

  /** The ids of the lots that the first n responses call unusable. */
  ghost predicate Reported(idByKey: map<string, int>, rs: seq<Response>, n: nat, id: int)
    requires n <= |rs|
  {
    exists e :: 0 <= e < n && rs[e].Answer? && ReportedBy(idByKey, rs[e].lots, id)
  }

  ghost predicate ReportedBy(idByKey: map<string, int>, api: seq<ApiLot>, id: int) {
    exists i :: 0 <= i < |api| && Unusable(idByKey, api[i], id)
  }

  ghost predicate Unusable(idByKey: map<string, int>, a: ApiLot, id: int) {
    !IsUsable(a) && a.key in idByKey && idByKey[a.key] == id
  }

  /** Response e has a lot of this id that is closed, or open without a free space. */
  ghost predicate CalledFull(idByKey: map<string, int>, rs: seq<Response>, e: nat, i: nat, id: int) {
    && e < |rs| && rs[e].Answer? && i < |rs[e].lots|
    && (!rs[e].lots[i].open || rs[e].lots[i].free <= 0)
    && rs[e].lots[i].key in idByKey && idByKey[rs[e].lots[i].key] == id
  }

  lemma {:induction false} ReportedIffFull(idByKey: map<string, int>, rs: seq<Response>, id: int)
    ensures Reported(idByKey, rs, |rs|, id) <==> exists e: nat, i: nat :: CalledFull(idByKey, rs, e, i, id)
  {
    if Reported(idByKey, rs, |rs|, id) {
      var e :| 0 <= e < |rs| && rs[e].Answer? && ReportedBy(idByKey, rs[e].lots, id);
      var i :| 0 <= i < |rs[e].lots| && Unusable(idByKey, rs[e].lots[i], id);
      assert CalledFull(idByKey, rs, e, i, id);
    }
    if e: nat, i: nat :| CalledFull(idByKey, rs, e, i, id) {
      assert Unusable(idByKey, rs[e].lots[i], id);
      assert ReportedBy(idByKey, rs[e].lots, id);
    }
  }

  ghost predicate AllKnown(idByKey: map<string, int>, rs: seq<Response>, n: nat)
    requires n <= |rs|
  {
    forall e | 0 <= e < n && rs[e].Answer? :: Known(idByKey, rs[e].lots)
  }

  ghost predicate Known(idByKey: map<string, int>, api: seq<ApiLot>) {
    forall i | 0 <= i < |api| :: api[i].key in idByKey
  }

  /** More ids do not change what has been reported. */
  lemma {:induction false} ReportedStays(m: map<string, int>, m': map<string, int>, rs: seq<Response>, n: nat, id: int)
    requires n <= |rs| && AllKnown(m, rs, n) && forall k | k in m :: k in m' && m'[k] == m[k]
    ensures AllKnown(m', rs, n) && (Reported(m', rs, n, id) <==> Reported(m, rs, n, id))
  {
    forall e | 0 <= e < n && rs[e].Answer?
      ensures Known(m', rs[e].lots) && (ReportedBy(m', rs[e].lots, id) <==> ReportedBy(m, rs[e].lots, id))
    {
      assert Known(m, rs[e].lots);
      assert forall i | 0 <= i < |rs[e].lots| :: Unusable(m', rs[e].lots[i], id) <==> Unusable(m, rs[e].lots[i], id);
    }
  }

  /** The lots seen for the first time are stored, with position, key and the rest as in the answer. */
  ghost predicate ApiStands(before: Db, api: seq<ApiLot>, after: Db, newLots: seq<Lot>) {
    exists lots, withIds, firsts ::
      && IsGiven(lots, api) && BatchStands(before, lots, after, withIds, firsts)
      && IsThose(newLots, withIds, firsts)
  }

  ghost predicate IsGiven(lots: seq<Lot>, api: seq<ApiLot>) {
    |lots| == |api| && forall i | 0 <= i < |api| :: lots[i] == Lot(0, api[i].pos, ParkenDD(api[i].key, api[i].detail))
  }

  ghost predicate IsThose(some: seq<Lot>, all: seq<Lot>, places: seq<nat>) {
    |some| == |places| && forall t | 0 <= t < |some| :: places[t] < |all| && some[t] == all[places[t]]
  }

  lemma {:induction false} NewAreThose(before: Db, api: seq<ApiLot>, after: Db, withIds: seq<Lot>, firsts: seq<nat>,
                                       newLots: seq<Lot>)
    requires BatchStands(before, ToLots(api), after, withIds, firsts) && |withIds| == |api|
    requires forall i | 0 <= i < |api| :: withIds[i] == Assigned(before, ToLots(api), i)
    requires firsts == AddedIndices(before, ToLots(api), |api|) && newLots == NewLots(before, ToLots(api), |api|)
    ensures ApiStands(before, api, after, newLots)
  {
    hide BatchStands, Assigned, AddedIndices, NewLots;
    NewLotsByIndex(before, ToLots(api), |api|);
    assert IsThose(newLots, withIds, firsts);
    assert IsGiven(ToLots(api), api);
  }

  // ---------------------------------------------------------------- edges

  type RouteFn = (Lot, seq<Station>, string, bool) -> seq<seq<Route>>

  /** The router has a list of routes for each station. */
  ghost predicate Answers(routeFn: RouteFn) {
    forall lot, st, profile, fwd :: |routeFn(lot, st, profile, fwd)| == |st|
  }

  function Computed(t: Task, routeFn: RouteFn, exact: bool): FootEdges
    requires Answers(routeFn)
  {
    EdgesOf(t, routeFn(t.lot, t.stations, t.profile, true),
            if exact then Some(routeFn(t.lot, t.stations, t.profile, false)) else None)
  }

  function ComputeWith(routeFn: RouteFn, exact: bool): Task -> FootEdges
    requires Answers(routeFn)
  {
    t => Computed(t, routeFn, exact)
  }

  /** Collects the edges of all stations that have routes. */
  method CollectEdges(stations: seq<Station>, fwd: seq<seq<Route>>, bwd: Option<seq<seq<Route>>>)
      returns (outward: seq<FootEdge>, returning: seq<FootEdge>)
    requires |fwd| == |stations| && (bwd.Some? ==> |bwd.value| == |stations|)
    ensures outward == EdgesTo(stations, fwd, |stations|)
    ensures bwd.Some? ==> returning == EdgesTo(stations, bwd.value, |stations|)
  {
    outward, returning := [], [];
    for i := 0 to |stations|
      invariant outward == EdgesTo(stations, fwd, i)
      invariant bwd.Some? ==> returning == EdgesTo(stations, bwd.value, i)
    {
      if |fwd[i]| == 0 && (bwd.None? || |bwd.value[i]| == 0) {
        continue;
      }
      var there := StationEdges(stations[i], fwd[i]);
      outward := outward + there;
      if bwd.Some? {
        var back := StationEdges(stations[i], bwd.value[i]);
        returning := returning + back;
      }
    }
  }

  /** Routes from a lot to its stations, and in exact mode back; what results is stored, one edge for every route of
      every station. */
  method ComputeEdges(task: Task, db: Database, routeFn: RouteFn, exact: bool)
    requires Answers(routeFn)
    modifies db`store
    ensures db.store == PutEdges(old(db.store), task, Computed(task, routeFn, exact))
    ensures IsStored(db.store, task, routeFn(task.lot, task.stations, task.profile, true),
                     routeFn(task.lot, task.stations, task.profile, !exact))
        && OnlyStored(old(db.store), db.store, task)
  {
    var outward, returning: seq<FootEdge> := [], [];
    if |task.stations| > 0 {
      var fwd := routeFn(task.lot, task.stations, task.profile, true);
      var bwd: Option<seq<seq<Route>>> := if exact then Some(routeFn(task.lot, task.stations, task.profile, false))
          else None;
      outward, returning := CollectEdges(task.stations, fwd, bwd);
    }
    hide PutEdges, EdgesKey, SerializedAll, IsStored, OnlyStored;
    PutIsStored(db.store, task, routeFn(task.lot, task.stations, task.profile, true),
                if exact then Some(routeFn(task.lot, task.stations, task.profile, false)) else None);
    db.PutFootEdges(task, FootEdges(task.lot.id, task.profile, outward, if exact then returning else outward));
  }

  method StationEdges(st: Station, routes: seq<Route>) returns (r: seq<FootEdge>)
    ensures r == RouteEdges(st, routes, |routes|)
  {
    r := [];
    for m := 0 to |routes|
      invariant r == RouteEdges(st, routes, m)
    {
      r := r + [EdgeOf(st, routes[m])];
    }
  }

  // ---------------------------------------------------------------- the server

  class ParkingServer {
    const db: Database
    const parkings: Parkings
    const profiles: seq<string>
    const near: InRadius

    /** List and tables belong together; ids may be missing, if the database has broken off. */
    ghost predicate Valid()
      reads db, parkings
    {
      Keyed(db.Value()) && Lists(db.Value(), parkings.Value())
    }

    ghost function Value(): World
      reads db, parkings
    {
      World(db.Value(), parkings.Value())
    }

    /** Starts on the tables of a server with counter h. */
    constructor (store: Store, ghost h: int, profiles: seq<string>, near: InRadius)
      requires Keyed(Db(store, h))
      ensures Valid() && Value() == Reloaded(Reopened(store)) && fresh(db) && fresh(parkings)
      ensures Gapless(store.lots) ==> Consistent(Value())
    {
      this.profiles, this.near := profiles, near;
      var d := new Database(store);
      ReopenedKeyed(Db(store, h));
      OneLastId(store.lots, d.highest);
      var p := new Parkings(d);
      db, parkings := d, p;
    }

    /** Adds the lots of one endpoint to the tables, and the new ones to the list; or the database breaks off. */
    method AddLots(api: seq<ApiLot>, breaks: Option<nat>) returns (ok: bool, newLots: seq<Lot>)
      requires Valid()
      modifies db, parkings
      ensures Valid() && (ok <==> breaks.None? || breaks.value > |api|)
      ensures ok ==> Value() == After(old(Value()), Received(ToLots(api))) && Known(parkings.idByKey, api)
      ensures ok ==> newLots == NewLots(old(db.Value()), ToLots(api), |ToLots(api)|)
      ensures !ok ==> Value() == After(old(Value()), BrokenOff(ToLots(api)[..breaks.value]))
      ensures ok ==> ApiStands(old(db.Value()), api, db.Value(), newLots)
    {
      hide Keyed, Sound, Lists, Extends, Find, Stored, NewLots, Append, BatchStands, ApiStands,
        AddTo, AddedIndices, Assigned;
      var lots := new Lot[|api|](i requires 0 <= i < |api| => ToParkingLot(api[i]));
      ghost var before, list, given := db.Value(), parkings.Value(), ToLots(api);
      assert lots[..] == given;
      var added;
      ok, added := db.AddParkingLots(lots, breaks);
      newLots := [];
      if !ok {
        AbortedPrefix(before, given, breaks.value);
        StepKeepsLinked(World(before, list), BrokenOff(given[..breaks.value]));
        return;
      }
      NewLotsByIndex(before, given, |given|);
      ghost var after := db.Value();
      for t := 0 to |added|
        invariant newLots == NewLots(before, given, |given|)[..t]
      {
        newLots := newLots + [lots[added[t]]];
      }
      assert newLots == NewLots(before, given, |given|);
      NewAreThose(before, api, after, lots[..], added, newLots);
      if |newLots| > 0 {
        parkings.AddParkings(newLots);
      } else {
        AppendNothing(list, newLots);
      }
      AllAdded(before, list, given, api, db.Value(), parkings.Value());
    }

    /** What stays the same while the server runs. */
    ghost function SettingFor(routeFn: RouteFn, exact: bool): Setting
      requires Answers(routeFn)
    {
      Setting(profiles, near, ComputeWith(routeFn, exact))
    }

    /** Computes the edges of new lots, up to where routing breaks off; returns whether it went through. */
    method ComputeTasks(newLots: seq<Lot>, fails: Option<nat>, routeFn: RouteFn, exact: bool) returns (ok: bool)
      requires Valid() && Answers(routeFn)
      modifies db`store
      ensures Valid() && Extends(old(db.store), db.store)
      ensures Sound(old(db.Value())) ==> Sound(db.Value())
      ensures var tasks := Tasks(old(db.store), newLots, profiles, near);
        && (ok <==> fails.None? || fails.value >= |tasks|)
        && db.store == RunTasks(old(db.store), tasks, ComputeWith(routeFn, exact), DoneOf(tasks, fails))
    {
      hide Keyed, Sound, Lists, Extends, PutEdges, Tasks, Computed, Answers;
      var tasks := db.GetFootEdgeTasks(newLots, profiles, near);
      ghost var compute := ComputeWith(routeFn, exact);
      ghost var s, before := db.store, db.Value();
      ExtendsSelf(s);
      for n := 0 to |tasks|
        invariant Valid() && Extends(s, db.store) && db.store == RunTasks(s, tasks, compute, n)
        invariant (Sound(before) ==> Sound(db.Value())) && (fails.Some? ==> fails.value >= n)
      {
        if fails == Some(n) {
          return false;
        }
        EdgesKeepLots(db.Value(), parkings.Value(), tasks[n], Computed(tasks[n], routeFn, exact));
        ExtendsTrans(s, db.store, PutEdges(db.store, tasks[n], Computed(tasks[n], routeFn, exact)));
        ComputeEdges(tasks[n], db, routeFn, exact);
      }
      ok := true;
    }

    /** Takes in the lots of one endpoint; unless the database breaks off each is known by its key afterwards, even if
        the routing breaks off, and edges have been computed for the new ones as far as routing came. */
    method TakeIn(api: seq<ApiLot>, breaks: Option<nat>, fails: Option<nat>, routeFn: RouteFn, exact: bool)
        returns (ok: bool)
      requires Valid() && Answers(routeFn)
      modifies db, parkings
      ensures Valid() && Extends(old(db.store), db.store)
      ensures breaks.None? ==> Known(parkings.idByKey, api) && (Sound(old(db.Value())) ==> Sound(db.Value()))
      ensures breaks.None? ==> db.Value() == Served(old(db.Value()), ToLots(api), fails, SettingFor(routeFn, exact))
      ensures (breaks.None? && fails.None? ==> ok) && (ok ==> Known(parkings.idByKey, api))
      ensures parkings.unavailable == old(parkings.unavailable)
    {
      hide Keyed, Sound, Lists, Extends, Append, NewLots, Tasks, RunTasks;
      ghost var before := Value();
      var newLots;
      ok, newLots := AddLots(api, breaks);
      ghost var t := db.store;
      AddedExtends(before, ToLots(api), breaks);
      if ok && |newLots| > 0 {
        ok := ComputeTasks(newLots, fails, routeFn, exact);
        ExtendsTrans(before.db.store, t, db.store);
      } else if ok {
        NothingAsked(before.db, ToLots(api), fails, SettingFor(routeFn, exact));
      }
    }

    /** After a complete update exactly the lots reported unusable are unavailable; a broken one changes none. */
    method UpdateParkendd(responses: seq<Response>, routeFn: RouteFn, exact: bool) returns (complete: bool)
      requires Valid() && Answers(routeFn)
      modifies db, parkings
      ensures Valid() && Extends(old(db.store), db.store)
      ensures (forall e | 0 <= e < |responses| && responses[e].Answer? :: responses[e].breaks.None?)
          && Sound(old(db.Value()))
        ==> Sound(db.Value()) && InLine(db.Value(), parkings.Value())
      ensures (forall e | 0 <= e < |responses| :: IsWhole(responses[e])) ==> complete
      ensures complete ==> AllKnown(parkings.idByKey, responses, |responses|)
      ensures complete ==> forall id :: id in parkings.unavailable <==>
          Reported(parkings.idByKey, responses, |responses|, id)
      ensures complete ==> forall id :: id in parkings.unavailable <==>
          exists e: nat, i: nat :: CalledFull(parkings.idByKey, responses, e, i, id)
      ensures !complete ==> parkings.unavailable == old(parkings.unavailable)
    {
      hide Reported, CalledFull;
      ghost var safe := (forall e | 0 <= e < |responses| && responses[e].Answer? :: responses[e].breaks.None?)
          && Sound(db.Value());
      complete := TakeAllIn(responses, routeFn, exact, safe);
      if safe { SoundListsInLine(db.Value(), parkings.Value()); }
      forall id
        ensures Reported(parkings.idByKey, responses, |responses|, id) <==>
          exists e: nat, i: nat :: CalledFull(parkings.idByKey, responses, e, i, id) {
        ReportedIffFull(parkings.idByKey, responses, id);
      }
    }

    method TakeAllIn(responses: seq<Response>, routeFn: RouteFn, exact: bool, ghost safe: bool) returns (complete: bool)
      requires Valid() && Answers(routeFn)
      requires safe ==> Sound(db.Value())
      requires safe ==> forall e | 0 <= e < |responses| && responses[e].Answer? :: responses[e].breaks.None?
      modifies db, parkings
      ensures Valid() && Extends(old(db.store), db.store) && (safe ==> Sound(db.Value()))
      ensures (forall e | 0 <= e < |responses| :: IsWhole(responses[e])) ==> complete
      ensures complete ==> AllKnown(parkings.idByKey, responses, |responses|)
      ensures complete ==> forall id :: id in parkings.unavailable <==>
          Reported(parkings.idByKey, responses, |responses|, id)
      ensures !complete ==> parkings.unavailable == old(parkings.unavailable)
    {
      hide Keyed, Sound, Lists, Extends, Reported;
      var unavailable: set<int> := {};
      ghost var s := db.store;
      ExtendsSelf(s);
      NothingReported(parkings.idByKey, responses);
      for e := 0 to |responses|
        invariant Valid() && Extends(s, db.store) && parkings.unavailable == old(parkings.unavailable)
        invariant safe ==> Sound(db.Value())
        invariant AllKnown(parkings.idByKey, responses, e)
        invariant forall id :: id in unavailable <==> Reported(parkings.idByKey, responses, e, id)
      {
        if responses[e].NoAnswer? {
          return false;
        }
        ghost var before, list := db.Value(), parkings.Value();
        var ok := TakeIn(responses[e].lots, responses[e].breaks, responses[e].fails, routeFn, exact);
        ExtendsTrans(s, before.store, db.store);
        if !ok {
          return false;
        }
        var found := UnusableIds(responses[e].lots);
        KeysGrow(before, list, db.Value(), parkings.Value());
        ReportedStep(list.idByKey, parkings.idByKey, responses, e);
        unavailable := unavailable + found;
      }
      ListsAnyway(db.Value(), parkings.Value(), unavailable);
      parkings.unavailable := unavailable;
      complete := true;
    }

    /** Looks up every lot that is not usable: no lookup misses. */
    method UnusableIds(api: seq<ApiLot>) returns (r: set<int>)
      requires Known(parkings.idByKey, api)
      ensures forall id :: id in r <==> ReportedBy(parkings.idByKey, api, id)
    {
      r := {};
      for i := 0 to |api|
        invariant forall id :: id in r <==> exists k :: 0 <= k < i && Unusable(parkings.idByKey, api[k], id)
      {
        if !IsUsable(api[i]) {
          var id := parkings.GetParkenddLotId(api[i].key);
          r := r + {id};
        }
      }
    }
  }

  lemma {:induction false} ListsAnyway(db: Db, l: Listing, unavailable: set<int>)
    requires Lists(db, l)
    ensures Lists(db, l.(unavailable := unavailable))
  {}

  lemma {:induction false} KeysGrow(db: Db, l: Listing, db': Db, l': Listing)
    requires Lists(db, l) && Lists(db', l') && Extends(db.store, db'.store)
    ensures forall k | k in l.idByKey :: k in l'.idByKey && l'.idByKey[k] == l.idByKey[k]
  {}

  /** Without new lots nothing is asked for. */
  lemma {:induction false} NothingAsked(db: Db, lots: seq<Lot>, fails: Option<nat>, x: Setting)
    requires NewLots(db, lots, |lots|) == []
    ensures Served(db, lots, fails, x) == AddTo(db, lots, |lots|)
  {
    hide AddTo, NewLots;
    NoTasks(AddTo(db, lots, |lots|).store, x.profiles, |x.profiles|, x.near);
  }

  lemma {:induction false} NoTasks(s: Store, profiles: seq<string>, m: nat, near: InRadius)
    requires m <= |profiles|
    ensures TasksTo(s, [], profiles, m, near) == []
  {
    if m > 0 { NoTasks(s, profiles, m - 1, near); }
  }

  lemma {:induction false} OneLastId(lots: map<int, Lot>, k: int)
    requires IsLastId(lots, k)
    ensures k == LastId(lots)
  {
    assert IsLastId(lots, LastId(lots));
  }

  /** An exception after n lots leaves what one after all of the first n does. */
  lemma {:induction false} AbortedPrefix(db: Db, lots: seq<Lot>, n: nat)
    requires n <= |lots|
    ensures Aborted(db, lots, n) == Aborted(db, lots[..n], n)
  {
    AddToPrefix(db, lots, n, n);
  }

  lemma {:induction false} AddToPrefix(db: Db, lots: seq<Lot>, m: nat, n: nat)
    requires m <= n <= |lots|
    ensures AddTo(db, lots[..n], m) == AddTo(db, lots, m)
  {
    hide AddOne;
    if m > 0 {
      AddToPrefix(db, lots, m - 1, n);
      assert lots[..n][m - 1] == lots[m - 1];
    }
  }

  lemma {:induction false} AppendNothing(l: Listing, lots: seq<Lot>)
    requires lots == []
    ensures Append(l, lots, 0) == l
  {}

  /** What holds when a batch has been added to tables and list. */
  lemma {:induction false} AllAdded(before: Db, list: Listing, given: seq<Lot>, api: seq<ApiLot>, db: Db, l: Listing)
    requires Keyed(before) && Lists(before, list) && given == ToLots(api)
    requires db == AddTo(before, given, |given|)
    requires l == Append(list, NewLots(before, given, |given|), |NewLots(before, given, |given|)|)
    ensures Keyed(db) && Lists(db, l) && Known(l.idByKey, api)
    ensures World(db, l) == After(World(before, list), Received(given))
  {
    hide Keyed, Lists, Find, AddTo, Append, NewLots;
    AddKeepsSound(before, given, |given|);
    BatchKeepsLists(before, given, list, |given|);
    forall i | 0 <= i < |api| ensures api[i].key in l.idByKey {
      AssignedKnown(before, given, i, l);
    }
  }

  /** What a batch, whole or broken off, leaves of tables and list. */
  lemma {:induction false} AddedExtends(w: World, lots: seq<Lot>, breaks: Option<nat>)
    requires Linked(w)
    ensures Extends(w.db.store, After(w, Received(lots)).db.store)
    ensures After(w, Received(lots)).listing.unavailable == w.listing.unavailable
    ensures Sound(w.db) ==> Sound(After(w, Received(lots)).db)
    ensures breaks.Some? && breaks.value <= |lots| ==> var r := After(w, BrokenOff(lots[..breaks.value]));
      Extends(w.db.store, r.db.store) && r.listing == w.listing
  {
    AddKeepsSound(w.db, lots, |lots|);
    AppendKeepsUnavailable(w.listing, NewLots(w.db, lots, |lots|), |NewLots(w.db, lots, |lots|)|);
    ExtendsSelf(w.db.store);
  }

  lemma {:induction false} ReportedStep(m: map<string, int>, m': map<string, int>, rs: seq<Response>, e: nat)
    requires e < |rs| && rs[e].Answer? && AllKnown(m, rs, e) && Known(m', rs[e].lots)
    requires forall k | k in m :: k in m' && m'[k] == m[k]
    ensures AllKnown(m', rs, e + 1)
    ensures forall id :: Reported(m', rs, e + 1, id) <==>
      Reported(m, rs, e, id) || ReportedBy(m', rs[e].lots, id)
  {
    ReportedStays(m, m', rs, e, 0);
    forall id
      ensures Reported(m', rs, e + 1, id) <==>
        Reported(m, rs, e, id) || ReportedBy(m', rs[e].lots, id)
    {
      ReportedStays(m, m', rs, e, id);
      ReportedNext(m', rs, e, id);
    }
  }

  lemma {:induction false} ReportedNext(m: map<string, int>, rs: seq<Response>, e: nat, id: int)
    requires e < |rs| && rs[e].Answer?
    ensures Reported(m, rs, e + 1, id) <==>
      Reported(m, rs, e, id) || ReportedBy(m, rs[e].lots, id)
  {
    if d :| 0 <= d < e && rs[d].Answer? && ReportedBy(m, rs[d].lots, id) {
      assert Reported(m, rs, e + 1, id);
    }
  }

  lemma {:induction false} ExtendsSelf(s: Store)
    ensures Extends(s, s)
  {}

  lemma {:induction false} ExtendsTrans(s: Store, t: Store, u: Store)
    requires Extends(s, t) && Extends(t, u)
    ensures Extends(s, u)
  {}

  lemma {:induction false} NothingReported(m: map<string, int>, rs: seq<Response>)
    ensures forall id :: !Reported(m, rs, 0, id)
  {}

  lemma {:induction false} NewLotsByIndex(db: Db, lots: seq<Lot>, n: nat)
    requires n <= |lots|
    ensures var a, r := AddedIndices(db, lots, n), NewLots(db, lots, n);
      |r| == |a| && forall t | 0 <= t < |a| :: r[t] == Assigned(db, lots, a[t])
  {
    hide IsNew, Assigned;
    if n > 0 { NewLotsByIndex(db, lots, n - 1); }
  }

  lemma {:induction false} AppendKeepsUnavailable(l: Listing, lots: seq<Lot>, n: nat)
    requires n <= |lots|
    ensures Append(l, lots, n).unavailable == l.unavailable
  {
    if n > 0 { AppendKeepsUnavailable(l, lots, n - 1); }
  }

  lemma {:induction false} AssignedKnown(db: Db, lots: seq<Lot>, i: nat, l: Listing)
    requires Keyed(db) && i < |lots| && lots[i].info.ParkenDD? && Lists(AddTo(db, lots, |lots|), l)
    ensures lots[i].info.key in l.idByKey
  {
    AssignedIsFound(db, lots, i, |lots|);
  }
}
