/**
 Which pairs of lot and profile have their foot edges after a run of updates.  Edges are asked for when a lot is new,
   and
 never again, so whatever routing did not come to then stays undone.
 */
module FootEdgeRuns {
  import opened Wrappers
  import opened ParkingModel
  import opened ParkingTheorems
  import opened FootEdgeCache

  /** A step of the server; `fails` says after how many tasks routing breaks off, if lots come in. */
  datatype Turn = Turn(step: Step, fails: Option<nat>)

  /** The profiles, the stations around a place, and what is computed for a task: the same during a run. */
  datatype Setting = Setting(profiles: seq<string>, near: InRadius, compute: Task -> FootEdges)

  // ---------------------------------------------------------------- one turn

  /** The tasks of the new lots of a batch. */
  function Asked(db: Db, lots: seq<Lot>, x: Setting): seq<Task> {
    Tasks(AddTo(db, lots, |lots|).store, NewLots(db, lots, |lots|), x.profiles, x.near)
  }

  function DoneOf(tasks: seq<Task>, fails: Option<nat>): (n: nat)
    ensures n <= |tasks|
  {
    if fails.Some? && fails.value < |tasks| then fails.value else |tasks|
  }

  /** A batch is added, and the edges of its new lots are computed. */
  function Served(db: Db, lots: seq<Lot>, fails: Option<nat>, x: Setting): Db {
    var added, tasks := AddTo(db, lots, |lots|), Asked(db, lots, x);
    Db(RunTasks(added.store, tasks, x.compute, DoneOf(tasks, fails)), added.highest)
  }

  ghost function Turned(db: Db, t: Turn, x: Setting): Db {
    match t.step
    case Restart => Reopened(db.store)
    case Received(lots) => Served(db, lots, t.fails, x)
    case BrokenOff(lots) => Aborted(db, lots, |lots|)
  }

  ghost function TurnedAll(db: Db, turns: seq<Turn>, n: nat, x: Setting): Db
    requires n <= |turns|
  {
    if n == 0 then db else Turned(TurnedAll(db, turns, n - 1, x), turns[n - 1], x)
  }

  /** Lots come in, and routing does not get through the tasks of the new ones. */
  predicate RoutingFails(db: Db, t: Turn, x: Setting) {
    t.step.Received? && t.fails.Some? && t.fails.value < |Asked(db, t.step.lots, x)|
  }

  // ---------------------------------------------------------------- what a turn keeps

  /** Edges and station lists are stored for lots only. */
  ghost predicate EdgesOfLots(s: Store) {
    forall id, p | EdgesKey(id, p) in s.stations || EdgesKey(id, p) in s.edges :: id in s.lots
  }

  /** The pair of a stored lot and a profile is up to date. */
  ghost predicate PairCached(s: Store, id: int, profile: string, x: Setting)
    requires id in s.lots
  {
    Cached(s, TaskFor(s.lots[id], profile, x.near))
  }

  ghost predicate AllCached(s: Store, x: Setting) {
    forall id, j | id in s.lots && 0 <= j < |x.profiles| :: PairCached(s, id, x.profiles[j], x)
  }

  ghost predicate Orderly(db: Db) {
    Keyed(db) && EdgesOfLots(db.store)
  }

  lemma {:induction false} AddKeepsEdges(db: Db, lots: seq<Lot>, n: nat)
    requires n <= |lots|
    ensures var r := AddTo(db, lots, n).store; r.stations == db.store.stations && r.edges == db.store.edges
  {
    hide Find, OsmKey;
    if n > 0 { AddKeepsEdges(db, lots, n - 1); }
  }

  lemma {:induction false} TasksKeepLots(s: Store, tasks: seq<Task>, compute: Task -> FootEdges, n: nat)
    requires n <= |tasks|
    ensures var r := RunTasks(s, tasks, compute, n); r.lots == s.lots && r.osm == s.osm && r.parkendd == s.parkendd
  {
    hide EdgesKey, SerializedAll;
    if n > 0 { TasksKeepLots(s, tasks, compute, n - 1); }
  }

  lemma {:induction false} KeyedAnyway(db: Db, s: Store)
    requires Keyed(db) && s.lots == db.store.lots && s.osm == db.store.osm && s.parkendd == db.store.parkendd
    ensures Keyed(Db(s, db.highest))
  {
    var r := Db(s, db.highest);
    forall id | id in s.lots ensures Stored(r, id) { assert Stored(db, id); }
    forall k | k in s.osm ensures OsmIndexed(s, k) { assert OsmIndexed(db.store, k); }
    forall k | k in s.parkendd ensures ParkenddIndexed(s, k) { assert ParkenddIndexed(db.store, k); }
  }

  /** A task that is asked for is one for a new lot, which has an id above all there were. */
  ghost predicate IsAsked(db: Db, lots: seq<Lot>, x: Setting, t: Task, i: nat, j: nat) {
    var added := NewLots(db, lots, |lots|);
    && i < |added| && j < |x.profiles| && t == TaskFor(added[i], x.profiles[j], x.near)
    && added[i].id == db.highest + 1 + i
  }

  lemma {:induction false} NewLotAt(db: Db, lots: seq<Lot>, i: nat)
    requires Keyed(db) && i < |NewLots(db, lots, |lots|)|
    ensures var added, r := NewLots(db, lots, |lots|), AddTo(db, lots, |lots|);
      StoredAs(r.store, db.highest + 1 + i, added[i]) && |added| == r.highest - db.highest
  {
    hide StoredAs, Keyed, NewLots, AddTo;
    NewLotsAreNext(db, lots, |lots|);
  }

  lemma {:induction false} AskedFor(db: Db, lots: seq<Lot>, x: Setting, t: Task) returns (i: nat, j: nat)
    requires Keyed(db) && t in Asked(db, lots, x)
    ensures IsAsked(db, lots, x, t, i, j)
  {
    hide Tasks, TasksTo, AddTo, NewLots, Keyed, Cached;
    var s, added := AddTo(db, lots, |lots|).store, NewLots(db, lots, |lots|);
    assert t in Tasks(s, added, x.profiles, x.near);
    i, j := TaskFrom(s, added, x.profiles, x.near, t);
    NewLotAt(db, lots, i);
  }

  lemma {:induction false} TaskFrom(s: Store, lots: seq<Lot>, profiles: seq<string>, near: InRadius, t: Task)
      returns (i: nat, j: nat)
    requires t in Tasks(s, lots, profiles, near)
    ensures i < |lots| && j < |profiles| && t == TaskFor(lots[i], profiles[j], near) && !Cached(s, t)
  {
    TasksToHas(s, lots, profiles, |profiles|, near, t);
    var a, b :| b < |profiles| && IsTaskOf(t, lots, a, profiles, b, near);
    i, j := a, b;
  }

  // ---------------------------------------------------------------- known lots

  /** No task of a batch is about a lot that was known. */
  lemma {:induction false} NotWritten(db: Db, lots: seq<Lot>, x: Setting, id: int, profile: string, n: nat)
    requires Keyed(db) && id <= db.highest && n <= |Asked(db, lots, x)|
    ensures !Writes(Asked(db, lots, x), n, EdgesKey(id, profile))
  {
    hide Asked, Keyed, EdgesKey;
    var tasks := Asked(db, lots, x);
    forall y | 0 <= y < n ensures KeyOf(tasks[y]) != EdgesKey(id, profile) {
      var i, j := AskedFor(db, lots, x, tasks[y]);
      EdgesKeyInjective(tasks[y].lot.id, tasks[y].profile, id, profile);
    }
  }

  /** What a batch leaves under the keys of a lot that was known, or of no lot at all: what was there. */
  lemma {:induction false} KeyStays(db: Db, lots: seq<Lot>, fails: Option<nat>, x: Setting, id: int, profile: string)
    requires Keyed(db) && id <= db.highest
    ensures var r, s, key := Served(db, lots, fails, x).store, db.store, EdgesKey(id, profile);
      && (key in r.stations <==> key in s.stations) && (key in r.edges <==> key in s.edges)
      && (key in s.stations ==> r.stations[key] == s.stations[key])
  {
    hide Asked, Keyed, EdgesKey, AddTo, RunTasks;
    var tasks, added := Asked(db, lots, x), AddTo(db, lots, |lots|).store;
    var n := DoneOf(tasks, fails);
    NotWritten(db, lots, x, id, profile, n);
    RunTasksAt(added, tasks, x.compute, n, EdgesKey(id, profile), "");
    AddKeepsEdges(db, lots, |lots|);
  }

  lemma {:induction false} ServedLots(db: Db, lots: seq<Lot>, fails: Option<nat>, x: Setting)
    ensures var r, a := Served(db, lots, fails, x), AddTo(db, lots, |lots|);
      r.highest == a.highest && r.store.lots == a.store.lots && r.store.osm == a.store.osm
        && r.store.parkendd == a.store.parkendd
  {
    hide Asked, AddTo, RunTasks;
    TasksKeepLots(AddTo(db, lots, |lots|).store, Asked(db, lots, x), x.compute, DoneOf(Asked(db, lots, x), fails));
  }

  lemma {:induction false} ServedOrderly(db: Db, lots: seq<Lot>, fails: Option<nat>, x: Setting)
    requires Orderly(db)
    ensures Orderly(Served(db, lots, fails, x))
  {
    hide Keyed, Served, AddTo, EdgesKey;
    var r, a := Served(db, lots, fails, x), AddTo(db, lots, |lots|);
    ServedLots(db, lots, fails, x);
    AddKeepsSound(db, lots, |lots|);
    KeyedAnyway(a, r.store);
    forall id, p | EdgesKey(id, p) in r.store.stations || EdgesKey(id, p) in r.store.edges ensures id in r.store.lots {
      BatchIds(db, lots, |lots|, id);
      if id <= db.highest { KeyStays(db, lots, fails, x, id, p); } else { KeyIsOfNewLot(db, lots, fails, x, id, p); }
    }
  }

  /** A key above the old ids is that of a new lot. */
  lemma {:induction false} KeyIsOfNewLot(db: Db, lots: seq<Lot>, fails: Option<nat>, x: Setting, id: int,
                                         profile: string)
    requires Orderly(db) && id > db.highest
    requires var r := Served(db, lots, fails, x).store;
        EdgesKey(id, profile) in r.stations
        || EdgesKey(id, profile) in r.edges
    ensures id <= AddTo(db, lots, |lots|).highest
  {
    KeyedIds(db);
    NothingAbove(db, id, profile);
    hide Asked, Keyed, EdgesKey, AddTo, RunTasks, EdgesOfLots, NewLots;
    var tasks, added, key := Asked(db, lots, x), AddTo(db, lots, |lots|).store, EdgesKey(id, profile);
    var n := DoneOf(tasks, fails);
    AddKeepsEdges(db, lots, |lots|);
    if forall y | 0 <= y < n :: KeyOf(tasks[y]) != key {
      RunTasksAt(added, tasks, x.compute, n, key, "");
    } else {
      var y :| 0 <= y < n && KeyOf(tasks[y]) == key;
      var i, j := AskedFor(db, lots, x, tasks[y]);
      EdgesKeyInjective(tasks[y].lot.id, tasks[y].profile, id, profile);
      NewLotAt(db, lots, i);
    }
  }

  lemma {:induction false} NothingAbove(db: Db, id: int, profile: string)
    requires Orderly(db) && id > db.highest
    ensures EdgesKey(id, profile) !in db.store.stations && EdgesKey(id, profile) !in db.store.edges
  {
    KeyedIds(db);
    hide Keyed, EdgesKey;
    assert id !in db.store.lots;
  }

  lemma {:induction false} TurnedOrderly(db: Db, t: Turn, x: Setting)
    requires Orderly(db)
    ensures Orderly(Turned(db, t, x))
  {
    hide Keyed, EdgesKey;
    match t.step
    case Restart => ReopenedKeyed(db);
    case Received(lots) => ServedOrderly(db, lots, t.fails, x);
    case BrokenOff(lots) => AbortKeepsKeyed(db, lots, |lots|);
  }

  /** A turn changes nothing about a lot that was known: it stays the same lot, and its edges stay as they are. */
  lemma {:induction false} KnownLotStays(db: Db, t: Turn, x: Setting, id: int, profile: string)
    requires Orderly(db) && id in db.store.lots
    ensures var r := Turned(db, t, x).store;
      id in r.lots && r.lots[id] == db.store.lots[id]
        && (PairCached(r, id, profile, x) <==> PairCached(db.store, id, profile, x))
  {
    if t.step.Received? {
      var lots := t.step.lots;
      KeyedIds(db);
      hide Keyed, EdgesKey, Served, AddTo, SerializedAll;
      ServedLots(db, lots, t.fails, x);
      AddKeepsSound(db, lots, |lots|);
      KeyStays(db, lots, t.fails, x, id, profile);
    }
  }

  // ---------------------------------------------------------------- new lots

  ghost predicate DistinctTaskKeys(tasks: seq<Task>) {
    forall y, z | 0 <= y < z < |tasks| :: KeyOf(tasks[y]) != KeyOf(tasks[z])
  }

  lemma {:induction false} DistinctTaskKeysConcat(a: seq<Task>, b: seq<Task>)
    requires DistinctTaskKeys(a) && DistinctTaskKeys(b) && forall t, u | t in a && u in b :: KeyOf(t) != KeyOf(u)
    ensures DistinctTaskKeys(a + b)
  {
    hide EdgesKey;
    forall y, z | 0 <= y < z < |a + b| ensures KeyOf((a + b)[y]) != KeyOf((a + b)[z]) {
      if y < |a| && z >= |a| { assert a[y] in a && b[z - |a|] in b; }
    }
  }

  ghost predicate DistinctIds(lots: seq<Lot>) {
    forall i, k | 0 <= i < k < |lots| :: lots[i].id != lots[k].id
  }

  ghost predicate DistinctProfiles(profiles: seq<string>) {
    forall i, k | 0 <= i < k < |profiles| :: profiles[i] != profiles[k]
  }

  lemma {:induction false} TaskKeysDiffer(t: Task, u: Task)
    requires t.lot.id != u.lot.id || t.profile != u.profile
    ensures KeyOf(t) != KeyOf(u)
  {
    EdgesKeyInjective(t.lot.id, t.profile, u.lot.id, u.profile);
  }

  lemma {:induction false} TaskOfProfile(s: Store, lots: seq<Lot>, n: nat, profile: string, near: InRadius, t: Task)
    returns (i: nat)
    requires n <= |lots| && t in TasksOf(s, lots, n, profile, near)
    ensures i < n && t == TaskFor(lots[i], profile, near)
  {
    TasksOfHas(s, lots, n, profile, near, t);
    var k :| k < n && IsTaskFor(t, lots, k, profile, near);
    i := k;
  }

  lemma {:induction false} TasksOfDistinct(s: Store, lots: seq<Lot>, n: nat, profile: string, near: InRadius)
    requires n <= |lots| && DistinctIds(lots)
    ensures DistinctTaskKeys(TasksOf(s, lots, n, profile, near))
  {
    hide Cached, KeyOf;
    if n > 0 {
      TasksOfDistinct(s, lots, n - 1, profile, near);
      var last := TaskFor(lots[n - 1], profile, near);
      forall t | t in TasksOf(s, lots, n - 1, profile, near) ensures KeyOf(t) != KeyOf(last) {
        var i := TaskOfProfile(s, lots, n - 1, profile, near, t);
        TaskKeysDiffer(t, last);
      }
      DistinctTaskKeysConcat(TasksOf(s, lots, n - 1, profile, near), if Cached(s, last) then [] else [last]);
    }
  }

  lemma {:induction false} TasksToDistinct(s: Store, lots: seq<Lot>, profiles: seq<string>, m: nat, near: InRadius)
    requires m <= |profiles| && DistinctIds(lots) && DistinctProfiles(profiles)
    ensures DistinctTaskKeys(TasksTo(s, lots, profiles, m, near))
  {
    hide Cached, EdgesKey, TasksOf, DistinctTaskKeys;
    if m == 0 {
      NoTaskKeys();
    } else {
      TasksToDistinct(s, lots, profiles, m - 1, near);
      TasksOfDistinct(s, lots, |lots|, profiles[m - 1], near);
      var a, b := TasksTo(s, lots, profiles, m - 1, near), TasksOf(s, lots, |lots|, profiles[m - 1], near);
      forall t, u | t in a && u in b ensures KeyOf(t) != KeyOf(u) {
        OtherProfile(s, lots, profiles, m, near, t, u);
      }
      DistinctTaskKeysConcat(a, b);
    }
  }

  lemma {:induction false} NoTaskKeys()
    ensures DistinctTaskKeys([])
  {}

  lemma {:induction false} TaskOfProfiles(s: Store, lots: seq<Lot>, profiles: seq<string>, m: nat, near: InRadius,
                                          t: Task)
    returns (j: nat)
    requires m <= |profiles| && t in TasksTo(s, lots, profiles, m, near)
    ensures j < m && t.profile == profiles[j]
  {
    TasksToHas(s, lots, profiles, m, near, t);
    var i, k :| k < m && IsTaskOf(t, lots, i, profiles, k, near);
    j := k;
  }

  lemma {:induction false} OtherProfile(s: Store, lots: seq<Lot>, profiles: seq<string>, m: nat, near: InRadius,
                                        t: Task, u: Task)
    requires 0 < m <= |profiles| && DistinctProfiles(profiles)
    requires t in TasksTo(s, lots, profiles, m - 1, near) && u in TasksOf(s, lots, |lots|, profiles[m - 1], near)
    ensures KeyOf(t) != KeyOf(u)
  {
    hide TasksTo, TasksOf, KeyOf;
    var j := TaskOfProfiles(s, lots, profiles, m - 1, near, t);
    var k := TaskOfProfile(s, lots, |lots|, profiles[m - 1], near, u);
    TaskKeysDiffer(t, u);
  }

  lemma {:induction false} NewIdsDiffer(db: Db, lots: seq<Lot>)
    requires Keyed(db)
    ensures DistinctIds(NewLots(db, lots, |lots|))
  {
    hide Keyed, NewLots, AddTo;
    forall i: nat | i < |NewLots(db, lots, |lots|)| ensures NewLots(db, lots, |lots|)[i].id == db.highest + 1 + i {
      NewLotAt(db, lots, i);
    }
  }

  /** If routing gets through, every new lot has its edges. */
  lemma {:induction false} NewLotCached(db: Db, lots: seq<Lot>, fails: Option<nat>, x: Setting, id: int, j: nat)
    requires Orderly(db) && !RoutingFails(db, Turn(Received(lots), fails), x)
    requires db.highest < id <= AddTo(db, lots, |lots|).highest && j < |x.profiles|
    ensures var r := Served(db, lots, fails, x).store; id in r.lots && PairCached(r, id, x.profiles[j], x)
  {
    hide Keyed, EdgesKey, EdgesOfLots, SerializedAll, AddTo, NewLots, RunTasks, Tasks, Cached;
    var s, added, i: nat := AddTo(db, lots, |lots|).store, NewLots(db, lots, |lots|), id - db.highest - 1;
    ServedLots(db, lots, fails, x);
    NewIdsDiffer(db, lots);
    NewLotsCount(db, lots);
    NewLotAt(db, lots, i);
    var tasks := Asked(db, lots, x);
    assert PlacedOnce(added);
    AllCachedAfter(s, added, x.profiles, x.near, tasks, x.compute, i, j);
  }

  lemma {:induction false} NewLotsCount(db: Db, lots: seq<Lot>)
    requires Keyed(db)
    ensures |NewLots(db, lots, |lots|)| == AddTo(db, lots, |lots|).highest - db.highest
  {
    hide Keyed, NewLots, AddTo, StoredAs;
    NewLotsAreNext(db, lots, |lots|);
  }

  /** If it does not, some new lot has none. */
  lemma {:induction false} SomeLotNotCached(db: Db, lots: seq<Lot>, fails: Option<nat>, x: Setting)
      returns (id: int, j: nat)
    requires Orderly(db) && DistinctProfiles(x.profiles) && RoutingFails(db, Turn(Received(lots), fails), x)
    ensures var r := Served(db, lots, fails, x).store;
      id in r.lots && j < |x.profiles| && !PairCached(r, id, x.profiles[j], x)
  {
    var tasks, added, n := Asked(db, lots, x), AddTo(db, lots, |lots|).store, fails.value;
    NewIdsDiffer(db, lots);
    TasksToDistinct(added, NewLots(db, lots, |lots|), x.profiles, |x.profiles|, x.near);
    assert DistinctTaskKeys(tasks);
    hide Keyed, EdgesKey, EdgesOfLots, SerializedAll, AddTo, NewLots, RunTasks, Asked, Tasks;
    var i: nat;
    i, j := AskedFor(db, lots, x, tasks[n]);
    NewLotAt(db, lots, i);
    ServedLots(db, lots, fails, x);
    id := db.highest + 1 + i;
    NothingAbove(db, id, x.profiles[j]);
    AddKeepsEdges(db, lots, |lots|);
    var key := EdgesKey(id, x.profiles[j]);
    assert KeyOf(tasks[n]) == key;
    RunTasksAt(added, tasks, x.compute, n, key, "");
  }

  // ---------------------------------------------------------------- whole runs

  /** After a turn all pairs are up to date iff they were before, and routing got through the tasks of all new lots. */
  lemma {:induction false} TurnCachedIff(db: Db, t: Turn, x: Setting)
    requires Orderly(db) && DistinctProfiles(x.profiles)
    ensures AllCached(Turned(db, t, x).store, x) <==> AllCached(db.store, x) && !RoutingFails(db, t, x)
  {
    hide Orderly, PairCached, Turned, RoutingFails;
    var r := Turned(db, t, x).store;
    forall id, j: nat | id in db.store.lots && j < |x.profiles|
      ensures id in r.lots && (PairCached(r, id, x.profiles[j], x) <==> PairCached(db.store, id, x.profiles[j], x))
    {
      KnownLotStays(db, t, x, id, x.profiles[j]);
    }
    if RoutingFails(db, t, x) {
      var id, j := FailureShows(db, t, x);
    } else {
      forall id, j: nat | id in r.lots && id !in db.store.lots && j < |x.profiles|
        ensures PairCached(r, id, x.profiles[j], x) {
        NewPairCached(db, t, x, id, j);
      }
    }
  }

  lemma {:induction false} FailureShows(db: Db, t: Turn, x: Setting) returns (id: int, j: nat)
    requires Orderly(db) && DistinctProfiles(x.profiles) && RoutingFails(db, t, x)
    ensures var r := Turned(db, t, x).store; id in r.lots && j < |x.profiles| && !PairCached(r, id, x.profiles[j], x)
  {
    hide Orderly, PairCached, Served, Asked;
    assert t == Turn(Received(t.step.lots), t.fails);
    id, j := SomeLotNotCached(db, t.step.lots, t.fails, x);
  }

  lemma {:induction false} NewPairCached(db: Db, t: Turn, x: Setting, id: int, j: nat)
    requires Orderly(db) && !RoutingFails(db, t, x)
    requires id in Turned(db, t, x).store.lots && id !in db.store.lots && j < |x.profiles|
    ensures PairCached(Turned(db, t, x).store, id, x.profiles[j], x)
  {
    if t.step.Received? {
      hide Keyed, EdgesOfLots, PairCached, Served, Asked, AddTo;
      var lots := t.step.lots;
      assert t == Turn(Received(lots), t.fails);
      ServedLots(db, lots, t.fails, x);
      BatchIds(db, lots, |lots|, id);
      NewLotCached(db, lots, t.fails, x, id, j);
    }
  }

  lemma {:induction false} RunOrderly(db: Db, turns: seq<Turn>, n: nat, x: Setting)
    requires Orderly(db) && n <= |turns|
    ensures Orderly(TurnedAll(db, turns, n, x))
  {
    hide Orderly, Turned;
    if n > 0 {
      RunOrderly(db, turns, n - 1, x);
      TurnedOrderly(TurnedAll(db, turns, n - 1, x), turns[n - 1], x);
    }
  }

  /** After a run of restarts, updates and updates that break off, every known lot has its edges for every profile iff
      all had them before, and no update with a new lot failed in routing. */
  lemma {:induction false} RunCachedIff(db: Db, turns: seq<Turn>, n: nat, x: Setting)
    requires Orderly(db) && DistinctProfiles(x.profiles) && n <= |turns|
    ensures AllCached(TurnedAll(db, turns, n, x).store, x) <==>
      AllCached(db.store, x) && forall m | 0 <= m < n :: !RoutingFails(TurnedAll(db, turns, m, x), turns[m], x)
  {
    hide Orderly, Turned, AllCached, RoutingFails;
    if n > 0 {
      RunCachedIff(db, turns, n - 1, x);
      RunOrderly(db, turns, n - 1, x);
      TurnCachedIff(TurnedAll(db, turns, n - 1, x), turns[n - 1], x);
    }
  }

  /** Whatever happens, a known lot has its edges for a profile iff it had them when it came to be known. */
  lemma {:induction false} KnownForEver(db: Db, turns: seq<Turn>, m: nat, n: nat, x: Setting, id: int, profile: string)
    requires Orderly(db) && m <= n <= |turns| && id in TurnedAll(db, turns, m, x).store.lots
    ensures id in TurnedAll(db, turns, n, x).store.lots
    ensures PairCached(TurnedAll(db, turns, n, x).store, id, profile, x) <==>
        PairCached(TurnedAll(db, turns, m, x).store, id, profile, x)
    decreases n - m
  {
    hide Orderly, Turned, PairCached;
    if m < n {
      KnownForEver(db, turns, m, n - 1, x, id, profile);
      RunOrderly(db, turns, n - 1, x);
      KnownLotStays(TurnedAll(db, turns, n - 1, x), turns[n - 1], x, id, profile);
    }
  }

  const EMPTY_DB := Db(EMPTY_STORE, 0)

  lemma {:induction false} EmptyOrderly(x: Setting)
    ensures Orderly(EMPTY_DB) && AllCached(EMPTY_DB.store, x)
  {}

  /** An empty server, one lot, and routing that fails at once: the lot is known, and never gets its edges, not even
      if it is received again. */
  lemma {:induction false} LotWithoutEdges(near: InRadius, compute: Task -> FootEdges, more: seq<Turn>)
    ensures var x := Setting(["foot"], near, compute);
      var turns := [Turn(Received([Lot(0, Pos(0.0, 0.0), ParkenDD("a", ""))]), Some(0))] + more;
      var r := TurnedAll(EMPTY_DB, turns, |turns|, x).store;
      1 in r.lots && !PairCached(r, 1, "foot", x)
  {
    var x, lot := Setting(["foot"], near, compute), Lot(0, Pos(0.0, 0.0), ParkenDD("a", ""));
    var turns := [Turn(Received([lot]), Some(0))] + more;
    FirstLotWithout(x, lot);
    EmptyOrderly(x);
    assert TurnedAll(EMPTY_DB, turns, 0, x) == EMPTY_DB;
    assert TurnedAll(EMPTY_DB, turns, 1, x) == Turned(EMPTY_DB, turns[0], x);
    hide *;
    KnownForEver(EMPTY_DB, turns, 1, |turns|, x, 1, "foot");
  }

  lemma {:induction false} FirstLotWithout(x: Setting, lot: Lot)
    requires lot.info.ParkenDD? && x.profiles == ["foot"]
    ensures var r := Turned(EMPTY_DB, Turn(Received([lot]), Some(0)), x).store;
        1 in r.lots
        && !PairCached(r, 1, "foot", x)
  {
    OneNew(EMPTY_DB, lot);
    hide EdgesKey, SerializedAll;
    var tasks := Asked(EMPTY_DB, [lot], x);
    assert DoneOf(tasks, Some(0)) == 0;
  }
}
