/**
 The cache of foot edges between car parks and stations: which pairs of lot and profile have to be computed, and
 what the cache holds once they are.
 */
module FootEdgeCache {
  import opened Wrappers
  import opened ParkingModel
  import opened ParkingTheorems

  datatype Station = Station(id: string, distance: real)

  datatype Task = Task(lot: Lot, stations: seq<Station>, profile: string)

  datatype Route = Route(duration: nat, accessibility: nat, length: real)

  /** The stations a walker of a profile reaches from a place, with their distances. */
  type InRadius = (Pos, string) -> seq<Station>

  function EdgesKey(id: int, profile: string): string {
    Decimal(id) + ":" + profile
  }

  function Serialized(st: seq<Station>, n: nat): string
    requires n <= |st|
  {
    if n == 0 then "" else Serialized(st, n - 1) + st[n - 1].id + "|"
  }

  function SerializedAll(st: seq<Station>): string {
    Serialized(st, |st|)
  }

  function TaskFor(lot: Lot, profile: string, near: InRadius): Task {
    Task(lot, near(lot.pos, profile), profile)
  }

  function KeyOf(t: Task): string {
    EdgesKey(t.lot.id, t.profile)
  }

  /** The stored station list is the current one, and edges are stored. */
  predicate Cached(s: Store, t: Task) {
    KeyOf(t) in s.stations && s.stations[KeyOf(t)] == SerializedAll(t.stations) && KeyOf(t) in s.edges
  }

  function TasksOf(s: Store, lots: seq<Lot>, n: nat, profile: string, near: InRadius): seq<Task>
    requires n <= |lots|
  {
    if n == 0 then []
    else
      var t := TaskFor(lots[n - 1], profile, near);
      TasksOf(s, lots, n - 1, profile, near) + if Cached(s, t) then [] else [t]
  }

  function TasksTo(s: Store, lots: seq<Lot>, profiles: seq<string>, m: nat, near: InRadius): seq<Task>
    requires m <= |profiles|
  {
    if m == 0 then [] else TasksTo(s, lots, profiles, m - 1, near) + TasksOf(s, lots, |lots|, profiles[m - 1], near)
  }

  function Tasks(s: Store, lots: seq<Lot>, profiles: seq<string>, near: InRadius): seq<Task> {
    TasksTo(s, lots, profiles, |profiles|, near)
  }

  function PutEdges(s: Store, t: Task, e: FootEdges): Store {
    s.(edges := s.edges[KeyOf(t) := e], stations := s.stations[KeyOf(t) := SerializedAll(t.stations)])
  }

  /** After the first n of the given tasks. */
  function RunTasks(s: Store, tasks: seq<Task>, compute: Task -> FootEdges, n: nat): Store
    requires n <= |tasks|
  {
    if n == 0 then s else PutEdges(RunTasks(s, tasks, compute, n - 1), tasks[n - 1], compute(tasks[n - 1]))
  }

  // ---------------------------------------------------------------- the edges of a task

  function EdgeOf(st: Station, r: Route): FootEdge {
    FootEdge(st.id, st.distance, r.duration, r.accessibility, r.length)
  }

  function RouteEdges(st: Station, routes: seq<Route>, m: nat): (r: seq<FootEdge>)
    requires m <= |routes|
    ensures |r| == m && forall x | 0 <= x < m :: r[x] == EdgeOf(st, routes[x])
  {
    if m == 0 then [] else RouteEdges(st, routes, m - 1) + [EdgeOf(st, routes[m - 1])]
  }

  /** The edges of the first n stations, each with all its routes. */
  function EdgesTo(stations: seq<Station>, routes: seq<seq<Route>>, n: nat): seq<FootEdge>
    requires n <= |stations| == |routes|
  {
    if n == 0 then [] else
        EdgesTo(stations, routes, n - 1)
        + RouteEdges(stations[n - 1], routes[n - 1], |routes[n - 1]|)
  }

  /** Without exact mode the way back is taken to be the way there. */
  function EdgesOf(t: Task, fwd: seq<seq<Route>>, bwd: Option<seq<seq<Route>>>): FootEdges
    requires |fwd| == |t.stations| && (bwd.Some? ==> |bwd.value| == |t.stations|)
  {
    var outward := EdgesTo(t.stations, fwd, |t.stations|);
    FootEdges(t.lot.id, t.profile, outward, if bwd.Some? then EdgesTo(t.stations, bwd.value, |t.stations|) else outward)
  }

  // ---------------------------------------------------------------- keys and lists are unambiguous

  lemma {:induction false} DecimalHasNoColon(n: int, i: nat)
    requires i < |Decimal(n)|
    ensures Decimal(n)[i] != ':'
  {
    if n < 0 {
      if i > 0 { DigitsOnly(-n, i - 1); }
    } else {
      DigitsOnly(n, i);
    }
  }

  lemma {:induction false} ShorterIdDiffers(i: int, p: string, j: int, q: string)
    requires |Decimal(i)| < |Decimal(j)|
    ensures EdgesKey(i, p) != EdgesKey(j, q)
  {
    var n := |Decimal(i)|;
    DecimalHasNoColon(j, n);
    assert EdgesKey(i, p)[n] == ':' && EdgesKey(j, q)[n] == Decimal(j)[n];
  }

  /** The first colon ends the id, whatever the profile is called. */
  lemma {:induction false} EdgesKeyInjective(i: int, p: string, j: int, q: string)
    ensures EdgesKey(i, p) == EdgesKey(j, q) <==> i == j && p == q
  {
    var a, b := Decimal(i), Decimal(j);
    if EdgesKey(i, p) == EdgesKey(j, q) {
      if |a| < |b| {
        ShorterIdDiffers(i, p, j, q);
      } else if |b| < |a| {
        ShorterIdDiffers(j, q, i, p);
      } else {
        assert EdgesKey(i, p)[..|a|] == a && EdgesKey(j, q)[..|a|] == b;
        assert EdgesKey(i, p)[|a| + 1..] == p && EdgesKey(j, q)[|a| + 1..] == q;
        DecimalInjective(i, j);
      }
    }
  }

  predicate NoBar(st: seq<Station>) {
    forall i | 0 <= i < |st| :: '|' !in st[i].id
  }

  predicate SameIds(a: seq<Station>, b: seq<Station>) {
    |a| == |b| && forall i | 0 <= i < |a| :: a[i].id == b[i].id
  }

  lemma {:induction false} ShorterRestDiffers(r: string, x: string, s: string, y: string)
    requires '|' !in x && |r| < |s| && s[|s| - 1] == '|'
    ensures r + x + "|" != s + y + "|"
  {
    var v, w := r + x + "|", s + y + "|";
    if |v| == |w| {
      assert v[|s| - 1] == x[|s| - 1 - |r|] && w[|s| - 1] == '|';
      assert x[|s| - 1 - |r|] in x;
    }
  }

  /** A string that ends in a bar splits in one way only into a rest and a last id without bars. */
  lemma {:induction false} LastIdUnique(r: string, x: string, s: string, y: string)
    requires '|' !in x && '|' !in y && r + x + "|" == s + y + "|"
    requires r == "" || r[|r| - 1] == '|'
    requires s == "" || s[|s| - 1] == '|'
    ensures r == s && x == y
  {
    var w := r + x + "|";
    if |r| < |s| {
      ShorterRestDiffers(r, x, s, y);
    } else if |s| < |r| {
      ShorterRestDiffers(s, y, r, x);
    } else {
      assert w[..|r|] == r && w[..|r|] == s;
      assert w[|r|..|w| - 1] == x && w[|r|..|w| - 1] == y;
    }
  }

  lemma {:induction false} EndsInBar(st: seq<Station>, n: nat)
    requires n <= |st|
    ensures var s := Serialized(st, n); (n == 0 <==> s == "") && (s == "" || s[|s| - 1] == '|')
  {}

  /** Without bars in the ids, stored lists are equal iff the stations are the same in the same order. */
  lemma {:induction false} SerializedInjective(a: seq<Station>, m: nat, b: seq<Station>, n: nat)
    requires NoBar(a) && NoBar(b) && m <= |a| && n <= |b|
    ensures Serialized(a, m) == Serialized(b, n) <==> SameIds(a[..m], b[..n])
  {
    EndsInBar(a, m);
    EndsInBar(b, n);
    if m > 0 && n > 0 {
      var r, x, s, y := Serialized(a, m - 1), a[m - 1].id, Serialized(b, n - 1), b[n - 1].id;
      SerializedInjective(a, m - 1, b, n - 1);
      EndsInBar(a, m - 1);
      EndsInBar(b, n - 1);
      if Serialized(a, m) == Serialized(b, n) {
        LastIdUnique(r, x, s, y);
        forall i | 0 <= i < m ensures a[..m][i].id == b[..n][i].id {
          if i < m - 1 { assert a[..m - 1][i].id == b[..n - 1][i].id; }
        }
      } else if SameIds(a[..m], b[..n]) {
        assert a[..m][m - 1].id == b[..n][m - 1].id;
        var c, d := a[..m - 1], b[..n - 1];
        forall i | 0 <= i < |c| ensures c[i].id == d[i].id {
          assert a[..m][i].id == b[..n][i].id;
        }
      }
    }
  }

  lemma {:induction false} SerializedAllInjective(a: seq<Station>, b: seq<Station>)
    requires NoBar(a) && NoBar(b)
    ensures SerializedAll(a) == SerializedAll(b) <==> SameIds(a, b)
  {
    SerializedInjective(a, |a|, b, |b|);
    assert a[..|a|] == a && b[..|b|] == b;
  }

  /** With a bar in an id, one station passes for two. */
  lemma {:induction false} BarConfuses()
    ensures var one, two := [Station("a|b", 0.0)], [Station("a", 0.0), Station("b", 0.0)];
      SerializedAll(one) == SerializedAll(two) && !SameIds(one, two)
  {
    var one, two := [Station("a|b", 0.0)], [Station("a", 0.0), Station("b", 0.0)];
    assert Serialized(one, 0) == "" && Serialized(two, 0) == "";
    assert Serialized(two, 1) == "a|";
    assert Serialized(one, 1) == "a|b|" && Serialized(two, 2) == "a|b|";
  }

  // ---------------------------------------------------------------- tasks

  ghost predicate IsTaskFor(t: Task, lots: seq<Lot>, i: int, profile: string, near: InRadius) {
    0 <= i < |lots| && t == TaskFor(lots[i], profile, near)
  }

  ghost predicate IsTaskOf(t: Task, lots: seq<Lot>, i: int, profiles: seq<string>, j: int, near: InRadius) {
    0 <= j < |profiles| && IsTaskFor(t, lots, i, profiles[j], near)
  }

  /** A pair of lot and profile gets a task iff it is not cached. */
  lemma {:induction false} TasksOfHas(s: Store, lots: seq<Lot>, n: nat, profile: string, near: InRadius, t: Task)
    requires n <= |lots|
    ensures t in TasksOf(s, lots, n, profile, near) <==>
        !Cached(s, t) && exists i :: i < n && IsTaskFor(t, lots, i, profile, near)
  {
    hide Cached;
    if n > 0 {
      TasksOfHas(s, lots, n - 1, profile, near, t);
      if t == TaskFor(lots[n - 1], profile, near) { assert IsTaskFor(t, lots, n - 1, profile, near); }
    }
  }

  lemma {:induction false} TasksToHas(s: Store, lots: seq<Lot>, profiles: seq<string>, m: nat, near: InRadius, t: Task)
    requires m <= |profiles|
    ensures t in TasksTo(s, lots, profiles, m, near) <==>
      !Cached(s, t) && exists i, j :: j < m && IsTaskOf(t, lots, i, profiles, j, near)
  {
    hide Cached, TasksOf, IsTaskFor;
    if m > 0 {
      TasksToHas(s, lots, profiles, m - 1, near, t);
      TasksOfHas(s, lots, |lots|, profiles[m - 1], near, t);
      var profile, last := profiles[m - 1], m - 1;
      forall i | IsTaskFor(t, lots, i, profile, near) ensures i < |lots| && IsTaskOf(t, lots, i, profiles, last, near) {
        IsTaskForInRange(t, lots, i, profile, near);
      }
    }
  }

  lemma {:induction false} IsTaskForInRange(t: Task, lots: seq<Lot>, i: int, profile: string, near: InRadius)
    requires IsTaskFor(t, lots, i, profile, near)
    ensures 0 <= i < |lots|
  {}

  lemma {:induction false} TasksHas(s: Store, lots: seq<Lot>, profiles: seq<string>, near: InRadius, i: nat, j: nat)
    requires i < |lots| && j < |profiles|
    ensures var t := TaskFor(lots[i], profiles[j], near); t in Tasks(s, lots, profiles, near) <==> !Cached(s, t)
  {
    var t := TaskFor(lots[i], profiles[j], near);
    assert IsTaskOf(t, lots, i, profiles, j, near);
    TasksToHas(s, lots, profiles, |profiles|, near, t);
  }

  predicate Writes(tasks: seq<Task>, n: nat, key: string)
    requires n <= |tasks|
  {
    exists x :: 0 <= x < n && KeyOf(tasks[x]) == key
  }

  /** What a sequence of tasks leaves under a key, if all those that write it have the same station list. */
  lemma {:induction false} RunTasksAt(s: Store, tasks: seq<Task>, compute: Task -> FootEdges, n: nat, key: string,
                                      list: string)
    requires n <= |tasks| && forall x | 0 <= x < n && KeyOf(tasks[x]) == key :: SerializedAll(tasks[x].stations) == list
    ensures var r := RunTasks(s, tasks, compute, n);
      && (Writes(tasks, n, key) ==> key in r.stations && r.stations[key] == list && key in r.edges)
      && (!Writes(tasks, n, key) ==> (key in r.stations <==> key in s.stations) && (key in r.edges <==> key in s.edges))
      && (!Writes(tasks, n, key) && key in s.stations ==> r.stations[key] == s.stations[key])
  {
    hide SerializedAll, EdgesKey;
    if n > 0 {
      RunTasksAt(s, tasks, compute, n - 1, key, list);
      var t := tasks[n - 1];
      assert Writes(tasks, n, key) <==> Writes(tasks, n - 1, key) || KeyOf(t) == key;
      PutAt(RunTasks(s, tasks, compute, n - 1), t, compute(t), key);
    }
  }

  lemma {:induction false} PutAt(s: Store, t: Task, e: FootEdges, key: string)
    ensures var r := PutEdges(s, t, e);
      if KeyOf(t) == key then key in r.stations && r.stations[key] == SerializedAll(t.stations) && key in r.edges
      else (key in r.stations <==> key in s.stations) && (key in r.edges <==> key in s.edges)
           && (key in s.stations ==> r.stations[key] == s.stations[key])
  {}

  /** Lots with one id are in one place. */
  ghost predicate PlacedOnce(lots: seq<Lot>) {
    forall i, k | 0 <= i < |lots| && 0 <= k < |lots| && lots[i].id == lots[k].id :: lots[i].pos == lots[k].pos
  }

  /** The tasks carried out are those asked for, in any order. */
  ghost predicate Carries(order: seq<Task>, tasks: seq<Task>) {
    (forall t | t in order :: t in tasks) && (forall t | t in tasks :: t in order)
  }

  /** All tasks of the same key have the same stations. */
  lemma {:induction false} SameKeySameStations(s: Store, lots: seq<Lot>, profiles: seq<string>, near: InRadius,
                                               t: Task, i: nat, j: nat)
    requires PlacedOnce(lots) && t in Tasks(s, lots, profiles, near) && i < |lots| && j < |profiles|
    requires KeyOf(t) == EdgesKey(lots[i].id, profiles[j])
    ensures t.stations == near(lots[i].pos, profiles[j])
  {
    TasksToHas(s, lots, profiles, |profiles|, near, t);
    var k, l :| l < |profiles| && IsTaskOf(t, lots, k, profiles, l, near);
    EdgesKeyInjective(lots[k].id, profiles[l], lots[i].id, profiles[j]);
  }

  /** Once all tasks have been carried out, every pair is cached, with the current station list. */
  lemma {:induction false} AllCachedAfter(s: Store, lots: seq<Lot>, profiles: seq<string>, near: InRadius,
                                          order: seq<Task>, compute: Task -> FootEdges, i: nat, j: nat)
    requires PlacedOnce(lots) && Carries(order, Tasks(s, lots, profiles, near)) && i < |lots| && j < |profiles|
    ensures Cached(RunTasks(s, order, compute, |order|), TaskFor(lots[i], profiles[j], near))
  {
    var t := TaskFor(lots[i], profiles[j], near);
    forall x | 0 <= x < |order| && KeyOf(order[x]) == KeyOf(t)
      ensures SerializedAll(order[x].stations) == SerializedAll(t.stations)
    {
      assert order[x] in order;
      SameKeySameStations(s, lots, profiles, near, order[x], i, j);
    }
    RunTasksAt(s, order, compute, |order|, KeyOf(t), SerializedAll(t.stations));
    TasksHas(s, lots, profiles, near, i, j);
    if !Cached(s, t) {
      assert t in order;
      var x :| 0 <= x < |order| && order[x] == t;
    }
  }

  /** So asking again gives no tasks. */
  lemma {:induction false} NoTasksRemain(s: Store, lots: seq<Lot>, profiles: seq<string>, near: InRadius,
                                         order: seq<Task>, compute: Task -> FootEdges)
    requires PlacedOnce(lots) && Carries(order, Tasks(s, lots, profiles, near))
    ensures Tasks(RunTasks(s, order, compute, |order|), lots, profiles, near) == []
  {
    var r := RunTasks(s, order, compute, |order|);
    var left := Tasks(r, lots, profiles, near);
    if left != [] {
      var t := left[0];
      TasksToHas(r, lots, profiles, |profiles|, near, t);
      var i, j :| j < |profiles| && IsTaskOf(t, lots, i, profiles, j, near);
      AllCachedAfter(s, lots, profiles, near, order, compute, i, j);
    }
  }

  /** And if the stations change, a pair is computed again iff other station ids are in reach, or in another order. */
  lemma {:induction false} RecomputedIffStationsChange(s: Store, lots: seq<Lot>, profiles: seq<string>, near: InRadius,
                                                       near': InRadius,
                                                       order: seq<Task>, compute: Task -> FootEdges, i: nat, j: nat)
    requires PlacedOnce(lots) && Carries(order, Tasks(s, lots, profiles, near)) && i < |lots| && j < |profiles|
    requires NoBar(near(lots[i].pos, profiles[j])) && NoBar(near'(lots[i].pos, profiles[j]))
    ensures TaskFor(lots[i], profiles[j], near') in Tasks(RunTasks(s, order, compute, |order|), lots, profiles, near')
       <==> !SameIds(near(lots[i].pos, profiles[j]), near'(lots[i].pos, profiles[j]))
  {
    AllCachedAfter(s, lots, profiles, near, order, compute, i, j);
    TasksHas(RunTasks(s, order, compute, |order|), lots, profiles, near', i, j);
    SerializedAllInjective(near(lots[i].pos, profiles[j]), near'(lots[i].pos, profiles[j]));
  }

  /** Computing edges does not touch lots and ids. */
  lemma {:induction false} EdgesKeepLots(db: Db, l: Listing, t: Task, e: FootEdges)
    requires Keyed(db) && Lists(db, l)
    ensures var r := Db(PutEdges(db.store, t, e), db.highest);
      Keyed(r) && Lists(r, l) && Extends(db.store, r.store) && (Sound(db) ==> Sound(r))
  {
    var r := Db(PutEdges(db.store, t, e), db.highest);
    forall id | id in r.store.lots ensures Stored(r, id) { assert Stored(db, id); }
    forall k | k in r.store.osm ensures OsmIndexed(r.store, k) { assert OsmIndexed(db.store, k); }
    forall k | k in r.store.parkendd ensures ParkenddIndexed(r.store, k) { assert ParkenddIndexed(db.store, k); }
  }
}
