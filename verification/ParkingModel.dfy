/**
 The parking store: lots get ids in the order they are first seen, an index by source key finds them again, and the
 server keeps all lots in a list where lot number `id` stands at position id - 1.
 */
module ParkingModel {
  import opened Wrappers

  datatype Pos = Pos(lat: real, lng: real)

  datatype OsmType = Node | Way | Relation

  /** Where a lot comes from; `detail` stands for what is only stored. */
  datatype Info = Osm(osmType: OsmType, osmId: int, fee: string) | ParkenDD(key: string, detail: string)

  datatype Lot = Lot(id: int, pos: Pos, info: Info)

  datatype FootEdge = FootEdge(station: string, distance: real, duration: nat, accessibility: nat, length: real)

  datatype FootEdges = FootEdges(parkingId: int, profile: string, outward: seq<FootEdge>, returning: seq<FootEdge>)

  /** The five tables on disk. */
  datatype Store = Store(lots: map<int, Lot>, osm: map<string, int>, parkendd: map<string, int>,
                         stations: map<string, string>, edges: map<string, FootEdges>)

  const EMPTY_STORE := Store(map[], map[], map[], map[], map[])

  datatype Db = Db(store: Store, highest: int)

  // ---------------------------------------------------------------- keys

  function Digit(d: nat): char
    requires d < 10
  {
    "0123456789"[d]
  }

  function DecimalNat(n: nat): string {
    if n < 10 then [Digit(n)] else DecimalNat(n / 10) + [Digit(n % 10)]
  }

  function Decimal(n: int): string {
    if n < 0 then "-" + DecimalNat(-n) else DecimalNat(n)
  }

  function TypeChar(t: OsmType): char {
    match t
    case Node => 'n'
    case Way => 'w'
    case Relation => 'r'
  }

  function OsmKey(info: Info): string
    requires info.Osm?
  {
    [TypeChar(info.osmType), ':'] + Decimal(info.osmId)
  }

  /** The same lot of the same source. */
  predicate SameSource(a: Info, b: Info) {
    match (a, b)
    case (Osm(t, i, _), Osm(u, j, _)) => t == u && i == j
    case (ParkenDD(k, _), ParkenDD(l, _)) => k == l
    case _ => false
  }

  function Find(s: Store, info: Info): Option<int> {
    match info
    case Osm(_, _, _) => if OsmKey(info) in s.osm then Some(s.osm[OsmKey(info)]) else None
    case ParkenDD(key, _) => if key in s.parkendd then Some(s.parkendd[key]) else None
  }

  // ---------------------------------------------------------------- adding lots

  function IdFor(db: Db, info: Info): int {
    var r := Find(db.store, info);
    if r.Some? then r.value else db.highest + 1
  }

  function Put(s: Store, lot: Lot): Store {
    var t := s.(lots := s.lots[lot.id := lot]);
    if lot.info.Osm? then t.(osm := t.osm[OsmKey(lot.info) := lot.id])
        else t.(parkendd := t.parkendd[lot.info.key := lot.id])
  }

  function AddOne(db: Db, lot: Lot): Db {
    if Find(db.store, lot.info).Some? then db
    else Db(Put(db.store, lot.(id := db.highest + 1)), db.highest + 1)
  }

  /** After the first n of the given lots. */
  function AddTo(db: Db, lots: seq<Lot>, n: nat): Db
    requires n <= |lots|
  {
    if n == 0 then db else AddOne(AddTo(db, lots, n - 1), lots[n - 1])
  }

  /** Lot i with the id it is given. */
  function Assigned(db: Db, lots: seq<Lot>, i: nat): Lot
    requires i < |lots|
  {
    lots[i].(id := IdFor(AddTo(db, lots, i), lots[i].info))
  }

  predicate IsNew(db: Db, lots: seq<Lot>, i: nat)
    requires i < |lots|
  {
    Find(AddTo(db, lots, i).store, lots[i].info).None?
  }

  /** Indices of those of the first n lots that were not known. */
  function AddedIndices(db: Db, lots: seq<Lot>, n: nat): (r: seq<nat>)
    requires n <= |lots|
    ensures forall t | 0 <= t < |r| :: r[t] < n
  {
    if n == 0 then [] else AddedIndices(db, lots, n - 1) + if IsNew(db, lots, n - 1) then [n - 1] else []
  }

  function NewLots(db: Db, lots: seq<Lot>, n: nat): seq<Lot>
    requires n <= |lots|
  {
    if n == 0 then []
    else NewLots(db, lots, n - 1) + if IsNew(db, lots, n - 1) then [Assigned(db, lots, n - 1)] else []
  }

  /** An exception after the first n lots: the transaction is undone, the counter is not. */
  function Aborted(db: Db, lots: seq<Lot>, n: nat): Db
    requires n <= |lots|
  {
    Db(db.store, AddTo(db, lots, n).highest)
  }

  /** The lots with ids from..to - 1, in the order a cursor visits them. */
  function Ascending(lots: map<int, Lot>, from: int, to: int): seq<Lot>
    decreases to - from
  {
    if from >= to then [] else (if from in lots then [lots[from]] else []) + Ascending(lots, from + 1, to)
  }

  /** `k` is what `highest` is set to when the tables are opened. */
  ghost predicate IsLastId(lots: map<int, Lot>, k: int) {
    if lots == map[] then k == 0 else k in lots && forall x | x in lots :: x <= k
  }

  // ---------------------------------------------------------------- the list in memory

  datatype Listing = Listing(parkings: seq<Lot>, idByKey: map<string, int>, unavailable: set<int>)

  function Append(l: Listing, lots: seq<Lot>, n: nat): Listing
    requires n <= |lots|
  {
    if n == 0 then l
    else
      var m := Append(l, lots, n - 1);
      var lot := lots[n - 1];
      Listing(m.parkings + [lot], if lot.info.ParkenDD? then m.idByKey[lot.info.key := lot.id]
        else m.idByKey, m.unavailable)
  }

  function GetParking(l: Listing, id: int): Option<Lot> {
    if 0 < id <= |l.parkings| then Some(l.parkings[id - 1]) else None
  }

  const NO_LISTING := Listing([], map[], {})

  // ---------------------------------------------------------------- whole runs

  datatype World = World(db: Db, listing: Listing)

  /** The server is restarted on the tables; the lots of one endpoint come in; or, while they are being added to the
      tables, an exception comes after these. */
  datatype Step = Restart | Received(lots: seq<Lot>) | BrokenOff(lots: seq<Lot>)

  /** The highest id in the table, 0 if there is none. */
  ghost function LastId(lots: map<int, Lot>): (k: int)
    ensures IsLastId(lots, k)
  {
    if lots == map[] then 0
    else
      MaxExists(lots.Keys);
      var k :| k in lots && forall x | x in lots :: x <= k;
      k
  }

  lemma {:induction false} Inhabited(s: set<int>)
    ensures s == {} || exists k :: k in s
  {
    if forall k :: k !in s { assert s == {}; }
  }

  lemma {:induction false} MaxExists(s: set<int>)
    requires s != {}
    ensures exists k :: k in s && forall x | x in s :: x <= k
    decreases |s|
  {
    Inhabited(s);
    var k :| k in s;
    var rest, n := s - {k}, k;
    if rest != {} {
      MaxExists(rest);
      var m :| m in rest && forall x | x in rest :: x <= m;
      n := if m < k then k else m;
    }
    assert n in s;
    forall x | x in s ensures x <= n {
      if x != k { assert x in rest; }
    }
  }

  /** The counter starts again at the highest id there is. */
  ghost function Reopened(s: Store): Db {
    Db(s, LastId(s.lots))
  }

  function Reloaded(db: Db): World {
    var lots := Ascending(db.store.lots, 1, db.highest + 1);
    World(db, Append(NO_LISTING, lots, |lots|))
  }

  ghost function After(w: World, step: Step): World {
    match step
    case Restart => Reloaded(Reopened(w.db.store))
    case Received(lots) =>
      var added := NewLots(w.db, lots, |lots|);
      World(AddTo(w.db, lots, |lots|), Append(w.listing, added, |added|))
    case BrokenOff(lots) => World(Aborted(w.db, lots, |lots|), w.listing)
  }

  ghost function Run(w: World, steps: seq<Step>, n: nat): World
    requires n <= |steps|
  {
    if n == 0 then w else After(Run(w, steps, n - 1), steps[n - 1])
  }
}
