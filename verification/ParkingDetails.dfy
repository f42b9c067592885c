/** Keys, edges and lots of the parking store, written out in characters and fields. */
module ParkingDetails {
  import opened Wrappers
  import opened ParkingModel
  import opened ParkingTheorems
  import opened FootEdgeCache

  // ---------------------------------------------------------------- numbers and keys

  /** The number that a text of digits stands for. */
  function NumberOf(text: string): int {
    if text == "" then 0 else 10 * NumberOf(text[..|text| - 1]) + (text[|text| - 1] as int - '0' as int)
  }

  lemma {:induction false} DigitReads(d: nat)
    requires d < 10
    ensures '0' <= Digit(d) <= '9' && Digit(d) as int - '0' as int == d
  {}

  /** Digits, without zeros in front, that stand for the number. */
  lemma {:induction false} DecimalNatReads(n: nat)
    ensures var t := DecimalNat(n);
      && |t| > 0 && (forall i | 0 <= i < |t| :: '0' <= t[i] <= '9') && NumberOf(t) == n
      && (n > 0 ==> t[0] != '0') && (n == 0 ==> t == "0")
  {
    var last := [Digit(n % 10)];
    DigitReads(n % 10);
    if n < 10 {
      assert last[..0] == "" && DecimalNat(n) == last;
    } else {
      DecimalNatReads(n / 10);
      assert (DecimalNat(n / 10) + last)[..|DecimalNat(n / 10)|] == DecimalNat(n / 10);
    }
  }

  /** Lots of OpenStreetMap are found by "n:", "w:" or "r:" and their number, edges by the id, a colon and the profile,
      and station lists by the ids, each with a bar behind it. */
  lemma {:induction false} KeysWrittenOut(osmType: OsmType, osmId: int, fee: string, id: int, profile: string,
                                          st: seq<Station>, last: Station)
    ensures OsmKey(Osm(osmType, osmId, fee))
      == (if osmType == Node then "n:" else if osmType == Way then "w:" else "r:") + Decimal(osmId)
    ensures EdgesKey(id, profile) == Decimal(id) + ":" + profile
    ensures SerializedAll([]) == "" && SerializedAll(st + [last]) == SerializedAll(st) + last.id + "|"
    ensures Decimal(id) == if id < 0 then "-" + DecimalNat(-id) else DecimalNat(id)
  {
    SerializedPrefix(st, st + [last], |st|);
  }

  lemma {:induction false} SerializedPrefix(a: seq<Station>, b: seq<Station>, n: nat)
    requires n <= |a| && a <= b
    ensures Serialized(a, n) == Serialized(b, n)
  {
    if n > 0 { SerializedPrefix(a, b, n - 1); }
  }

  // ---------------------------------------------------------------- edges

  /** Station i with its route m. */
  datatype Pair = Pair(i: nat, m: nat)

  predicate Before(a: Pair, b: Pair) {
    a.i < b.i || (a.i == b.i && a.m < b.m)
  }

  ghost predicate IsPair(stations: seq<Station>, routes: seq<seq<Route>>, p: Pair)
    requires |routes| == |stations|
  {
    p.i < |stations| && p.m < |routes[p.i]|
  }

  /** The edge has id and distance of the station, and duration, accessibility and length of the route. */
  ghost predicate EdgeStands(e: FootEdge, stations: seq<Station>, routes: seq<seq<Route>>, p: Pair)
    requires |routes| == |stations| && IsPair(stations, routes, p)
  {
    var st, r := stations[p.i], routes[p.i][p.m];
    && e.station == st.id && e.distance == st.distance
    && e.duration == r.duration && e.accessibility == r.accessibility && e.length == r.length
  }

  /** One edge for every route of every station, in order. */
  ghost predicate EdgesFor(edges: seq<FootEdge>, stations: seq<Station>, routes: seq<seq<Route>>, pairs: seq<Pair>)
    requires |routes| == |stations|
  {
    && |pairs| == |edges|
    && (forall x | 0 <= x < |pairs| ::
          IsPair(stations, routes, pairs[x]) && EdgeStands(edges[x], stations, routes, pairs[x]))
    && (forall x, y | 0 <= x < y < |pairs| :: Before(pairs[x], pairs[y]))
    && forall p | IsPair(stations, routes, p) :: p in pairs
  }

  ghost predicate EdgesStand(edges: seq<FootEdge>, stations: seq<Station>, routes: seq<seq<Route>>) {
    |routes| == |stations| && exists pairs :: EdgesFor(edges, stations, routes, pairs)
  }

  /** Pairs of stations before n. */
  function PairsTo(routes: seq<seq<Route>>, n: nat): seq<Pair>
    requires n <= |routes|
  {
    if n == 0 then [] else PairsTo(routes, n - 1) + seq(|routes[n - 1]|, m requires m >= 0 => Pair(n - 1, m))
  }

  lemma {:induction false} PairsOf(routes: seq<seq<Route>>, n: nat)
    requires n <= |routes|
    ensures var ps := PairsTo(routes, n);
      && (forall x | 0 <= x < |ps| :: ps[x].i < n && ps[x].m < |routes[ps[x].i]|)
      && (forall x, y | 0 <= x < y < |ps| :: Before(ps[x], ps[y]))
      && forall p: Pair | p.i < n && p.m < |routes[p.i]| :: p in ps
  {
    if n > 0 {
      PairsOf(routes, n - 1);
      var front, ps := PairsTo(routes, n - 1), PairsTo(routes, n);
      forall p: Pair | p.i < n && p.m < |routes[p.i]| ensures p in ps {
        if p.i == n - 1 { assert ps[|front| + p.m] == p; }
      }
    }
  }

  lemma {:induction false} EdgesAt(stations: seq<Station>, routes: seq<seq<Route>>, n: nat)
    requires n <= |stations| == |routes|
    ensures var es, ps := EdgesTo(stations, routes, n), PairsTo(routes, n);
      && |es| == |ps|
      && forall x | 0 <= x < |ps| :: IsPair(stations, routes, ps[x]) && EdgeStands(es[x], stations, routes, ps[x])
  {
    if n > 0 { EdgesAt(stations, routes, n - 1); }
  }

  lemma {:induction false} EdgesAreFor(stations: seq<Station>, routes: seq<seq<Route>>)
    requires |routes| == |stations|
    ensures EdgesStand(EdgesTo(stations, routes, |stations|), stations, routes)
  {
    PairsOf(routes, |stations|);
    EdgesAt(stations, routes, |stations|);
    assert EdgesFor(EdgesTo(stations, routes, |stations|), stations, routes, PairsTo(routes, |stations|));
  }

  /** What is stored for a task: edges out, and back the routes given, under the id, a colon and the profile. */
  ghost predicate IsStored(s: Store, t: Task, fwd: seq<seq<Route>>, bwd: seq<seq<Route>>) {
    var key := Decimal(t.lot.id) + ":" + t.profile;
    && key in s.edges
    && s.edges[key].parkingId == t.lot.id && s.edges[key].profile == t.profile
    && EdgesStand(s.edges[key].outward, t.stations, fwd) && EdgesStand(s.edges[key].returning, t.stations, bwd)
    && key in s.stations && s.stations[key] == SerializedAll(t.stations)
  }

  /** Nothing else has been changed. */
  ghost predicate OnlyStored(before: Store, s: Store, t: Task) {
    var key := Decimal(t.lot.id) + ":" + t.profile;
    && s.lots == before.lots && s.osm == before.osm && s.parkendd == before.parkendd
    && s.edges - {key} == before.edges - {key} && s.stations - {key} == before.stations - {key}
  }

  lemma {:induction false} PutIsStored(s: Store, t: Task, fwd: seq<seq<Route>>, bwd: Option<seq<seq<Route>>>)
    requires |fwd| == |t.stations| && (bwd.Some? ==> |bwd.value| == |t.stations|)
    ensures var r := PutEdges(s, t, EdgesOf(t, fwd, bwd));
      IsStored(r, t, fwd, if bwd.Some? then bwd.value else fwd) && OnlyStored(s, r, t)
  {
    hide EdgesTo, SerializedAll, EdgesStand, Decimal;
    EdgesAreFor(t.stations, fwd);
    if bwd.Some? { EdgesAreFor(t.stations, bwd.value); }
    var key := Decimal(t.lot.id) + ":" + t.profile;
    assert key == EdgesKey(t.lot.id, t.profile);
  }

  // ---------------------------------------------------------------- tasks

  /** The stations are those the profile reaches from the lot, and edges for just these are not stored. */
  ghost predicate TaskStands(s: Store, t: Task, lots: seq<Lot>, profiles: seq<string>, near: InRadius) {
    && t.lot in lots && t.profile in profiles && t.stations == near(t.lot.pos, t.profile)
    && IsMissing(s, t.lot, t.profile, t.stations)
  }

  ghost predicate IsMissing(s: Store, lot: Lot, profile: string, stations: seq<Station>) {
    var key := Decimal(lot.id) + ":" + profile;
    !(key in s.edges && key in s.stations && s.stations[key] == SerializedAll(stations))
  }

  ghost predicate TasksStand(s: Store, tasks: seq<Task>, lots: seq<Lot>, profiles: seq<string>, near: InRadius) {
    && (forall t | t in tasks :: TaskStands(s, t, lots, profiles, near))
    && forall lot, profile | lot in lots && profile in profiles && IsMissing(s, lot, profile, near(lot.pos, profile)) ::
         Task(lot, near(lot.pos, profile), profile) in tasks
  }

  lemma {:induction false} TasksOfStand(s: Store, lots: seq<Lot>, n: nat, profile: string, near: InRadius)
    requires n <= |lots|
    ensures forall t :: t in TasksOf(s, lots, n, profile, near) <==>
      t.lot in lots[..n] && t.profile == profile && t.stations == near(t.lot.pos, profile)
      && IsMissing(s, t.lot, profile, t.stations)
  {
    hide SerializedAll, Decimal;
    if n > 0 {
      TasksOfStand(s, lots, n - 1, profile, near);
      assert lots[..n] == lots[..n - 1] + [lots[n - 1]];
    }
  }

  lemma {:induction false} TasksToStand(s: Store, lots: seq<Lot>, profiles: seq<string>, m: nat, near: InRadius)
    requires m <= |profiles|
    ensures forall t :: t in TasksTo(s, lots, profiles, m, near) <==>
      t.lot in lots && t.profile in profiles[..m] && t.stations == near(t.lot.pos, t.profile)
      && IsMissing(s, t.lot, t.profile, t.stations)
  {
    hide IsMissing;
    if m > 0 {
      TasksToStand(s, lots, profiles, m - 1, near);
      TasksOfStand(s, lots, |lots|, profiles[m - 1], near);
      assert lots[..|lots|] == lots && profiles[..m] == profiles[..m - 1] + [profiles[m - 1]];
    }
  }

  lemma {:induction false} AllTasksStand(s: Store, lots: seq<Lot>, profiles: seq<string>, near: InRadius)
    ensures TasksStand(s, Tasks(s, lots, profiles, near), lots, profiles, near)
  {
    hide IsMissing;
    TasksToStand(s, lots, profiles, |profiles|, near);
    assert profiles[..|profiles|] == profiles;
  }

  // ---------------------------------------------------------------- lots

  function OsmText(osmType: OsmType, osmId: int): string {
    (if osmType == Node then "n:" else if osmType == Way then "w:" else "r:") + Decimal(osmId)
  }

  /** Lot i comes from where no lot in the tables comes from, and none before it. */
  ghost predicate IsFirst(s: Store, lots: seq<Lot>, i: nat)
    requires i < |lots|
  {
    match lots[i].info
    case Osm(osmType, osmId, _) =>
      OsmText(osmType, osmId) !in s.osm
      && forall j | 0 <= j < i :: !(lots[j].info.Osm? && lots[j].info.osmType == osmType && lots[j].info.osmId == osmId)
    case ParkenDD(key, _) =>
      key !in s.parkendd && forall j | 0 <= j < i :: !(lots[j].info.ParkenDD? && lots[j].info.key == key)
  }

  /** The lot's source leads to this id. */
  ghost predicate LeadsTo(s: Store, info: Info, id: int) {
    match info
    case Osm(osmType, osmId, _) =>
      OsmText(osmType, osmId) in s.osm && s.osm[OsmText(osmType, osmId)] == id
    case ParkenDD(key, _) => key in s.parkendd && s.parkendd[key] == id
  }

  /** `firsts` are the lots not seen before, in order: they are stored as they are but for their ids, which are the
      next ones.  Every lot given has afterwards the id its source leads to. */
  ghost predicate BatchStands(before: Db, lots: seq<Lot>, after: Db, withIds: seq<Lot>, firsts: seq<nat>) {
    && (forall i: nat :: i in firsts <==> i < |lots| && IsFirst(before.store, lots, i))
    && (forall t, u | 0 <= t < u < |firsts| :: firsts[t] < firsts[u])
    && (forall t | 0 <= t < |firsts| :: IsPut(before, lots, after, t, firsts[t]))
    && after.highest == before.highest + |firsts| && Extends(before.store, after.store)
    && (forall id :: id in after.store.lots <==> id in before.store.lots || before.highest < id <= after.highest)
    && |withIds| == |lots|
    && forall i | 0 <= i < |lots| ::
         withIds[i] == lots[i].(id := withIds[i].id) && LeadsTo(after.store, lots[i].info, withIds[i].id)
  }

  ghost predicate IsPut(before: Db, lots: seq<Lot>, after: Db, t: nat, i: nat) {
    var id := before.highest + 1 + t;
    i < |lots| && id in after.store.lots && after.store.lots[id] == lots[i].(id := id)
  }

  lemma {:induction false} FindWrittenOut(s: Store, info: Info, id: int)
    ensures Find(s, info) == Some(id) <==> LeadsTo(s, info, id)
  {
    if info.Osm? { KeysWrittenOut(info.osmType, info.osmId, info.fee, 0, "", [], Station("", 0.0)); }
  }

  lemma {:induction false} FoundOneMore(db: Db, lot: Lot, info: Info)
    ensures Find(AddOne(db, lot).store, info).Some? <==> Find(db.store, info).Some? || SameSource(lot.info, info)
  {
    hide OsmKey;
    if lot.info.Osm? && info.Osm? { OsmKeyInjective(lot.info, info); }
  }

  lemma {:induction false} FoundAfter(db: Db, lots: seq<Lot>, n: nat, info: Info)
    requires n <= |lots|
    ensures Find(AddTo(db, lots, n).store, info).Some? <==>
      Find(db.store, info).Some? || exists j :: 0 <= j < n && SameSource(lots[j].info, info)
  {
    hide Find, SameSource, AddOne;
    if n > 0 {
      FoundAfter(db, lots, n - 1, info);
      FoundOneMore(AddTo(db, lots, n - 1), lots[n - 1], info);
    }
  }

  lemma {:induction false} NewIff(db: Db, lots: seq<Lot>, i: nat)
    requires i < |lots|
    ensures IsNew(db, lots, i) <==> IsFirst(db.store, lots, i)
  {
    hide AddTo, OsmKey;
    var info := lots[i].info;
    FoundAfter(db, lots, i, info);
    if info.Osm? { KeysWrittenOut(info.osmType, info.osmId, info.fee, 0, "", [], Station("", 0.0)); }
  }

  lemma {:induction false} AddedAre(db: Db, lots: seq<Lot>, n: nat)
    requires n <= |lots|
    ensures var a := AddedIndices(db, lots, n);
      && (forall i: nat :: i in a <==> i < n && IsFirst(db.store, lots, i))
      && (forall t, u | 0 <= t < u < |a| :: a[t] < a[u])
      && |a| == |NewLots(db, lots, n)| && forall t | 0 <= t < |a| :: NewLots(db, lots, n)[t] == Assigned(db, lots, a[t])
  {
    hide IsNew, IsFirst, Assigned;
    if n > 0 {
      AddedAre(db, lots, n - 1);
      NewIff(db, lots, n - 1);
    }
  }

  lemma {:induction false} IdsAfter(db: Db, lots: seq<Lot>, n: nat)
    requires Keyed(db) && n <= |lots|
    ensures var r := AddTo(db, lots, n);
      forall id :: id in r.store.lots <==> id in db.store.lots || db.highest < id <= r.highest
  {
    hide Keyed, Find, AddTo;
    if n == 0 {
      AddedNone(db, lots);
    } else {
      IdsAfter(db, lots, n - 1);
      BatchStep(db, lots, n);
      AddKeepsSound(db, lots, n - 1);
    }
  }

  /** What a batch of lots leaves. */
  lemma {:induction false} BatchWrittenOut(db: Db, lots: seq<Lot>, withIds: seq<Lot>)
    requires Keyed(db) && |withIds| == |lots|
    requires forall i | 0 <= i < |lots| :: withIds[i] == Assigned(db, lots, i)
    ensures BatchStands(db, lots, AddTo(db, lots, |lots|), withIds, AddedIndices(db, lots, |lots|))
  {
    hide Keyed, Find, AddTo, AddedIndices, NewLots, IsFirst, LeadsTo;
    var n, after, firsts := |lots|, AddTo(db, lots, |lots|), AddedIndices(db, lots, |lots|);
    AddedAre(db, lots, n);
    AddKeepsSound(db, lots, n);
    NewLotsAreNext(db, lots, n);
    IdsAfter(db, lots, n);
    forall t | 0 <= t < |firsts| ensures IsPut(db, lots, after, t, firsts[t]) {
      assert StoredAs(after.store, db.highest + 1 + t, NewLots(db, lots, n)[t]);
    }
    forall i | 0 <= i < n
      ensures withIds[i] == lots[i].(id := withIds[i].id) && LeadsTo(after.store, lots[i].info, withIds[i].id) {
      AssignedIsFound(db, lots, i, n);
      FindWrittenOut(after.store, lots[i].info, withIds[i].id);
    }
  }
}
