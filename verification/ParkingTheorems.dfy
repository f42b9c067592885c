/** Ids are dense and permanent, and the list in memory stays in line with the tables. */
module ParkingTheorems {
  import opened Wrappers
  import opened ParkingModel

  // ---------------------------------------------------------------- keys are unambiguous

  lemma {:induction false} DecimalNatInjective(m: nat, n: nat)
    ensures DecimalNat(m) == DecimalNat(n) <==> m == n
  {
    if DecimalNat(m) == DecimalNat(n) {
      DigitsNonempty(m);
      DigitsNonempty(n);
      var s := DecimalNat(m);
      if m >= 10 && n >= 10 {
        assert s[..|s| - 1] == DecimalNat(m / 10) && DecimalNat(n)[..|s| - 1] == DecimalNat(n / 10);
        DecimalNatInjective(m / 10, n / 10);
      } else if m >= 10 {
        DigitsNonempty(m / 10);
      } else if n >= 10 {
        DigitsNonempty(n / 10);
      }
      DigitsDiffer(m % 10, n % 10);
      assert s[|s| - 1] == Digit(m % 10);
    }
  }

  lemma {:induction false} DigitsDiffer(a: nat, b: nat)
    requires a < 10 && b < 10
    ensures Digit(a) == Digit(b) ==> a == b
  {}

  lemma {:induction false} DigitsNonempty(n: nat)
    ensures |DecimalNat(n)| >= 1
  {}

  lemma {:induction false} DigitsOnly(n: nat, i: nat)
    requires i < |DecimalNat(n)|
    ensures '0' <= DecimalNat(n)[i] <= '9'
  {
    if n >= 10 && i < |DecimalNat(n)| - 1 { DigitsOnly(n / 10, i); }
  }

  lemma {:induction false} SignShows(m: int)
    ensures |Decimal(m)| > 0 && (Decimal(m)[0] == '-' <==> m < 0)
    ensures if m < 0 then Decimal(m)[1..] == DecimalNat(-m) else Decimal(m) == DecimalNat(m)
  {
    if m >= 0 { DigitsNonempty(m); DigitsOnly(m, 0); }
  }

  lemma {:induction false} DecimalInjective(m: int, n: int)
    ensures Decimal(m) == Decimal(n) <==> m == n
  {
    hide *;
    SignShows(m);
    SignShows(n);
    if Decimal(m) == Decimal(n) {
      if m < 0 { DecimalNatInjective(-m, -n); } else { DecimalNatInjective(m, n); }
    }
  }

  lemma {:induction false} OsmKeyInjective(a: Info, b: Info)
    requires a.Osm? && b.Osm?
    ensures OsmKey(a) == OsmKey(b) <==> SameSource(a, b)
  {
    if OsmKey(a) == OsmKey(b) {
      assert OsmKey(a)[0] == TypeChar(a.osmType) && OsmKey(b)[0] == TypeChar(b.osmType);
      assert OsmKey(a)[2..] == Decimal(a.osmId) && OsmKey(b)[2..] == Decimal(b.osmId);
      DecimalInjective(a.osmId, b.osmId);
    }
  }

  // ---------------------------------------------------------------- the tables

  /** Lot number id is stored as such, and found under its source key. */
  ghost predicate Stored(db: Db, id: int) {
    id in db.store.lots && db.store.lots[id].id == id && Find(db.store, db.store.lots[id].info) == Some(id)
  }

  /** Key k leads to a stored lot of that key. */
  ghost predicate OsmIndexed(s: Store, k: string)
    requires k in s.osm
  {
    s.osm[k] in s.lots && s.lots[s.osm[k]].info.Osm? && OsmKey(s.lots[s.osm[k]].info) == k
  }

  ghost predicate ParkenddIndexed(s: Store, k: string)
    requires k in s.parkendd
  {
    s.parkendd[k] in s.lots && s.lots[s.parkendd[k]].info.ParkenDD? && s.lots[s.parkendd[k]].info.key == k
  }

  /** No id is above the counter, and lots and source keys correspond one to one. */
  ghost predicate Keyed(db: Db) {
    && db.highest >= 0
    && (forall id | id in db.store.lots :: 1 <= id <= db.highest && Stored(db, id))
    && (forall k | k in db.store.osm :: OsmIndexed(db.store, k))
    && (forall k | k in db.store.parkendd :: ParkenddIndexed(db.store, k))
  }

  /** Ids are exactly 1..highest besides. */
  ghost predicate Sound(db: Db) {
    Keyed(db) && forall id | 1 <= id <= db.highest :: id in db.store.lots
  }

  lemma {:induction false} KeyedIds(db: Db)
    requires Keyed(db)
    ensures db.highest >= 0 && forall id | id in db.store.lots :: 1 <= id <= db.highest && db.store.lots[id].id == id
  {
    forall id | id in db.store.lots ensures db.store.lots[id].id == id { assert Stored(db, id); }
  }

  /** Nothing known is forgotten or given another id. */
  ghost predicate Extends(s: Store, t: Store) {
    && (forall id | id in s.lots :: id in t.lots && t.lots[id] == s.lots[id])
    && (forall k | k in s.osm :: k in t.osm && t.osm[k] == s.osm[k])
    && (forall k | k in s.parkendd :: k in t.parkendd && t.parkendd[k] == s.parkendd[k])
  }

  lemma {:induction false} StoredStays(db: Db, lot: Lot, x: int)
    requires Stored(db, x) && x <= db.highest && Find(db.store, lot.info).None?
    ensures Stored(AddOne(db, lot), x)
  {
    var other := db.store.lots[x].info;
    assert !(other.Osm? && lot.info.Osm? && OsmKey(other) == OsmKey(lot.info));
    hide OsmKey;
  }

  lemma {:induction false} IndexStays(db: Db, lot: Lot, k: string)
    requires Find(db.store, lot.info).None? && db.highest + 1 !in db.store.lots
    ensures k in AddOne(db, lot).store.osm && (k in db.store.osm ==> OsmIndexed(db.store, k)) ==>
        OsmIndexed(AddOne(db, lot).store, k)
    ensures k in AddOne(db, lot).store.parkendd && (k in db.store.parkendd ==> ParkenddIndexed(db.store, k)) ==>
      ParkenddIndexed(AddOne(db, lot).store, k)
  {
    hide OsmKey;
  }

  lemma {:induction false} NewLotStored(db: Db, lot: Lot)
    requires Keyed(db) && Find(db.store, lot.info).None?
    ensures var r := AddOne(db, lot); Keyed(r) && Extends(db.store, r.store) && (Sound(db) ==> Sound(r))
    ensures Stored(AddOne(db, lot), db.highest + 1)
  {
    hide OsmKey, Stored, OsmIndexed, ParkenddIndexed;
    var r, id := AddOne(db, lot), db.highest + 1;
    assert Stored(r, id) by { NewIsStored(db, lot); }
    forall x | x in r.store.lots ensures 1 <= x <= r.highest && Stored(r, x) {
      if x != id { StoredStays(db, lot, x); }
    }
    forall k | k in r.store.osm ensures OsmIndexed(r.store, k) { IndexStays(db, lot, k); }
    forall k | k in r.store.parkendd ensures ParkenddIndexed(r.store, k) { IndexStays(db, lot, k); }
  }

  lemma {:induction false} NewIsStored(db: Db, lot: Lot)
    requires Find(db.store, lot.info).None?
    ensures Stored(AddOne(db, lot), db.highest + 1)
  {
    hide OsmKey;
  }

  lemma {:induction false} AddOneSound(db: Db, lot: Lot)
    requires Keyed(db)
    ensures Keyed(AddOne(db, lot)) && Extends(db.store, AddOne(db, lot).store) && (Sound(db) ==> Sound(AddOne(db, lot)))
    ensures AddOne(db, lot).highest == db.highest + if Find(db.store, lot.info).None? then 1 else 0
  {
    hide Sound, Keyed;
    if Find(db.store, lot.info).None? { NewLotStored(db, lot); }
  }

  lemma {:induction false} AddKeepsSound(db: Db, lots: seq<Lot>, n: nat)
    requires Keyed(db) && n <= |lots|
    ensures var r := AddTo(db, lots, n);
      Keyed(r) && Extends(db.store, r.store) && r.highest >= db.highest && (Sound(db) ==> Sound(r))
  {
    hide Sound, Keyed, AddOne;
    if n > 0 {
      AddKeepsSound(db, lots, n - 1);
      AddOneSound(AddTo(db, lots, n - 1), lots[n - 1]);
    }
  }

  lemma {:induction false} FoundStays(s: Store, t: Store, info: Info)
    requires Extends(s, t) && Find(s, info).Some?
    ensures Find(t, info) == Find(s, info)
  {}

  lemma {:induction false} AddStepExtends(db: Db, lots: seq<Lot>, i: nat, n: nat)
    requires Keyed(db) && i <= n <= |lots|
    ensures Keyed(AddTo(db, lots, i)) && Extends(AddTo(db, lots, i).store, AddTo(db, lots, n).store)
    decreases n - i
  {
    hide Sound, Keyed, AddOne;
    AddKeepsSound(db, lots, i);
    if i < n {
      AddStepExtends(db, lots, i, n - 1);
      AddKeepsSound(db, lots, n - 1);
      AddOneSound(AddTo(db, lots, n - 1), lots[n - 1]);
    }
  }

  /** The id a lot is given is the one its source is stored under from then on. */
  lemma {:induction false} AssignedIsFound(db: Db, lots: seq<Lot>, i: nat, n: nat)
    requires Keyed(db) && i < n <= |lots|
    ensures Find(AddTo(db, lots, n).store, lots[i].info) == Some(Assigned(db, lots, i).id)
  {
    AddStepExtends(db, lots, i + 1, n);
    AddStepExtends(db, lots, i, i);
    var p, q := AddTo(db, lots, i), AddTo(db, lots, i + 1);
    assert Find(q.store, lots[i].info).Some? by {
      if Find(p.store, lots[i].info).None? { NewLotStored(p, lots[i]); }
    }
    FoundStays(q.store, AddTo(db, lots, n).store, lots[i].info);
  }

  /** One source has one id for ever, and no two sources share one. */
  lemma {:induction false} IdsIdentifySources(db: Db, a: Info, b: Info)
    requires Keyed(db) && Find(db.store, a).Some? && Find(db.store, b).Some?
    ensures Find(db.store, a) == Find(db.store, b) <==> SameSource(a, b)
  {
    if a.Osm? && b.Osm? { OsmKeyInjective(a, b); }
    if a.Osm? { assert OsmIndexed(db.store, OsmKey(a)); } else { assert ParkenddIndexed(db.store, a.key); }
    if b.Osm? { assert OsmIndexed(db.store, OsmKey(b)); } else { assert ParkenddIndexed(db.store, b.key); }
  }

  lemma {:induction false} BatchStep(db: Db, lots: seq<Lot>, n: nat)
    requires 0 < n <= |lots|
    ensures var p, lot := AddTo(db, lots, n - 1), lots[n - 1];
      if Find(p.store, lot.info).None?
      then AddTo(db, lots, n) == AddOne(p, lot)
        && NewLots(db, lots, n) == NewLots(db, lots, n - 1) + [lot.(id := p.highest + 1)]
      else AddTo(db, lots, n) == p && NewLots(db, lots, n) == NewLots(db, lots, n - 1)
  {}

  /** The new lots are those with the new ids, in order: the t-th has id highest + 1 + t. */
  lemma {:induction false} NewLotsAreNext(db: Db, lots: seq<Lot>, n: nat)
    requires Keyed(db) && n <= |lots|
    ensures AreNext(AddTo(db, lots, n), db.highest, NewLots(db, lots, n))
  {
    if n == 0 {
      assert AreNext(db, db.highest, []);
    } else {
      hide *;
      NewLotsAreNext(db, lots, n - 1);
      AddKeepsSound(db, lots, n - 1);
      NextIsNext(db, lots, n);
    }
  }

  lemma {:induction false} NextIsNext(db: Db, lots: seq<Lot>, n: nat)
    requires 0 < n <= |lots| && Keyed(AddTo(db, lots, n - 1))
        && AreNext(AddTo(db, lots, n - 1), db.highest, NewLots(db, lots, n - 1))
    ensures AreNext(AddTo(db, lots, n), db.highest, NewLots(db, lots, n))
  {
    hide *;
    BatchStep(db, lots, n);
    var p, lot := AddTo(db, lots, n - 1), lots[n - 1];
    if Find(p.store, lot.info).None? { OneMoreNew(p, lot, db.highest, NewLots(db, lots, n - 1)); }
  }

  lemma {:induction false} OneMoreNew(p: Db, lot: Lot, before: int, added: seq<Lot>)
    requires Keyed(p) && Find(p.store, lot.info).None? && AreNext(p, before, added)
    ensures AreNext(AddOne(p, lot), before, added + [lot.(id := p.highest + 1)])
  {
    hide Keyed, Find, OsmKey;
    var all := added + [lot.(id := p.highest + 1)];
    forall t | 0 <= t < |all| ensures StoredAs(AddOne(p, lot).store, before + 1 + t, all[t]) {
      if t < |added| { assert StoredAs(p.store, before + 1 + t, added[t]); }
    }
  }

  /** These lots have the ids from the one after `before` up to the counter. */
  ghost predicate AreNext(db: Db, before: int, added: seq<Lot>) {
    |added| == db.highest - before && forall t | 0 <= t < |added| :: StoredAs(db.store, before + 1 + t, added[t])
  }

  ghost predicate StoredAs(s: Store, id: int, lot: Lot) {
    id in s.lots && s.lots[id] == lot && lot.id == id
  }

  /** An abort leaves the tables sound iff it comes before the first new lot: otherwise an id is skipped. */
  lemma {:induction false} AbortSoundIff(db: Db, lots: seq<Lot>, n: nat)
    requires Sound(db) && n <= |lots|
    ensures Sound(Aborted(db, lots, n)) <==> forall i | 0 <= i < n :: !IsNew(db, lots, i)
  {
    HighestGrowsIff(db, lots, n);
    AbortKeepsKeyed(db, lots, n);
    var r := Aborted(db, lots, n);
    if r.highest > db.highest { assert r.highest !in db.store.lots; }
  }

  /** Whatever was undone, ids and keys still belong together. */
  lemma {:induction false} AbortKeepsKeyed(db: Db, lots: seq<Lot>, n: nat)
    requires Keyed(db) && n <= |lots|
    ensures Keyed(Aborted(db, lots, n)) && Aborted(db, lots, n).highest >= db.highest
  {
    AddKeepsSound(db, lots, n);
    var r := Aborted(db, lots, n);
    forall id | id in r.store.lots ensures Stored(r, id) { assert Stored(db, id); }
  }

  lemma {:induction false} HighestGrowsIff(db: Db, lots: seq<Lot>, n: nat)
    requires Keyed(db) && n <= |lots|
    ensures AddTo(db, lots, n).highest == db.highest <==> forall i | 0 <= i < n :: !IsNew(db, lots, i)
  {
    hide *;
    if n == 0 {
      AddedNone(db, lots);
    } else {
      HighestGrowsIff(db, lots, n - 1);
      HighestNext(db, lots, n);
    }
  }

  lemma {:induction false} AddedNone(db: Db, lots: seq<Lot>)
    ensures AddTo(db, lots, 0) == db
  {}

  lemma {:induction false} HighestNext(db: Db, lots: seq<Lot>, n: nat)
    requires Keyed(db) && 0 < n <= |lots|
    ensures var before, after := AddTo(db, lots, n - 1).highest, AddTo(db, lots, n).highest;
      db.highest <= before && after == before + if IsNew(db, lots, n - 1) then 1 else 0
  {
    hide *;
    AddKeepsSound(db, lots, n - 1);
    BatchStep(db, lots, n);
    NewIsUnknown(db, lots, n - 1);
    AddOneSound(AddTo(db, lots, n - 1), lots[n - 1]);
  }

  lemma {:induction false} NewIsUnknown(db: Db, lots: seq<Lot>, i: nat)
    requires i < |lots|
    ensures IsNew(db, lots, i) <==> Find(AddTo(db, lots, i).store, lots[i].info).None?
  {}

  // ---------------------------------------------------------------- the list in memory

  /** The list has all lots of the table, by ascending id, and the keys are those of the table. */
  ghost predicate Lists(db: Db, l: Listing) {
    l.parkings == Ascending(db.store.lots, 1, db.highest + 1) && l.idByKey == db.store.parkendd
  }

  /** Lot number id stands at position id - 1, and the keys are those of the table. */
  ghost predicate InLine(db: Db, l: Listing) {
    && |l.parkings| == db.highest
    && (forall i | 0 <= i < |l.parkings| :: AtPlace(db, l.parkings, i))
    && l.idByKey == db.store.parkendd
  }

  ghost predicate AtPlace(db: Db, parkings: seq<Lot>, i: nat)
    requires i < |parkings|
  {
    i + 1 in db.store.lots && parkings[i] == db.store.lots[i + 1]
  }

  lemma {:induction false} AscendingSplits(lots: map<int, Lot>, from: int, mid: int, end: int)
    requires from <= mid <= end
    ensures Ascending(lots, from, end) == Ascending(lots, from, mid) + Ascending(lots, mid, end)
    decreases mid - from
  {
    if from < mid { AscendingSplits(lots, from + 1, mid, end); }
  }

  lemma {:induction false} AscendingSame(lots: map<int, Lot>, lots': map<int, Lot>, from: int, end: int)
    requires forall id | from <= id < end :: (id in lots <==> id in lots') && (id in lots ==> lots[id] == lots'[id])
    ensures Ascending(lots, from, end) == Ascending(lots', from, end)
    decreases end - from
  {
    if from < end { AscendingSame(lots, lots', from + 1, end); }
  }

  /** No more lots than ids; and just as many iff no id is left out. */
  lemma {:induction false} AscendingLength(lots: map<int, Lot>, from: int, end: int)
    requires from <= end
    ensures |Ascending(lots, from, end)| <= end - from
    ensures |Ascending(lots, from, end)| == end - from <==> (forall id | from <= id < end :: id in lots)
    decreases end - from
  {
    if from < end { AscendingLength(lots, from + 1, end); }
  }

  lemma {:induction false} AscendingNone(lots: map<int, Lot>, from: int, end: int)
    requires forall id | from <= id < end :: id !in lots
    ensures Ascending(lots, from, end) == []
    decreases end - from
  {
    if from < end { AscendingNone(lots, from + 1, end); }
  }

  /** Lot number id stands behind all lots of lower ids. */
  lemma {:induction false} AscendingAt(lots: map<int, Lot>, id: int, end: int)
    requires 1 <= id < end && id in lots
    ensures var s, p := Ascending(lots, 1, end), |Ascending(lots, 1, id)|; p < |s| && s[p] == lots[id]
  {
    AscendingSplits(lots, 1, id, end);
  }

  /** Every lot listed is stored. */
  lemma {:induction false} AscendingHas(lots: map<int, Lot>, from: int, end: int, p: nat) returns (id: int)
    requires p < |Ascending(lots, from, end)|
    ensures from <= id < end && id in lots && Ascending(lots, from, end)[p] == lots[id]
    decreases end - from
  {
    if from in lots && p == 0 {
      id := from;
    } else {
      id := AscendingHas(lots, from + 1, end, if from in lots then p - 1 else p);
    }
  }

  lemma {:induction false} AppendOneMore(l: Listing, lots: seq<Lot>, lot: Lot, n: nat)
    requires n <= |lots|
    ensures Append(l, lots + [lot], n) == Append(l, lots, n)
  {
    if n > 0 {
      AppendOneMore(l, lots, lot, n - 1);
      assert (lots + [lot])[n - 1] == lots[n - 1];
    }
  }

  lemma {:induction false} NewLotKeepsLists(db: Db, lot: Lot, l: Listing)
    requires Keyed(db) && Lists(db, l) && Find(db.store, lot.info).None?
    ensures Lists(AddOne(db, lot), Append(l, [lot.(id := db.highest + 1)], 1))
  {
    var r, id := AddOne(db, lot), db.highest + 1;
    assert Append(l, [lot.(id := id)], 0) == l;
    AscendingSplits(r.store.lots, 1, id, id + 1);
    AscendingSame(db.store.lots, r.store.lots, 1, id);
    assert Ascending(r.store.lots, id + 1, id + 1) == [];
    assert Ascending(r.store.lots, id, id + 1) == [lot.(id := id)];
  }

  lemma {:induction false} AppendLast(l: Listing, lots: seq<Lot>, lot: Lot)
    ensures Append(l, lots + [lot], |lots| + 1) == Append(Append(l, lots, |lots|), [lot], 1)
  {
    AppendOneMore(l, lots, lot, |lots|);
    var m := Append(l, lots, |lots|);
    assert Append(m, [lot], 0) == m;
  }

  /** Appending the new lots of a batch keeps all lots listed, by ascending id. */
  lemma {:induction false} BatchKeepsLists(db: Db, lots: seq<Lot>, l: Listing, n: nat)
    requires Keyed(db) && Lists(db, l) && n <= |lots|
    ensures var added := NewLots(db, lots, n); Lists(AddTo(db, lots, n), Append(l, added, |added|))
  {
    hide Keyed, Sound, Lists, Find, AddOne, IsNew, Assigned;
    if n > 0 {
      BatchStep(db, lots, n);
      AddKeepsSound(db, lots, n - 1);
      hide *;
      BatchKeepsLists(db, lots, l, n - 1);
      var p, added := AddTo(db, lots, n - 1), NewLots(db, lots, n - 1);
      if Find(p.store, lots[n - 1].info).None? {
        var m, lot := Append(l, added, |added|), lots[n - 1].(id := p.highest + 1);
        AppendLast(l, added, lot);
        NewLotKeepsLists(p, lots[n - 1], m);
      }
    }
  }

  /** A list appended to nothing, with the keys of its last lots. */
  lemma {:induction false} AppendToNothing(lots: seq<Lot>, n: nat)
    requires n <= |lots|
    ensures var r := Append(NO_LISTING, lots, n);
      && r.parkings == lots[..n]
      && (forall k :: k in r.idByKey <==> exists i :: 0 <= i < n && HasKey(lots[i], k))
      && (forall k | k in r.idByKey :: exists i :: 0 <= i < n && HasKey(lots[i], k) && r.idByKey[k] == lots[i].id)
  {
    if n > 0 {
      AppendToNothing(lots, n - 1);
      assert lots[..n] == lots[..n - 1] + [lots[n - 1]];
      var r, p := Append(NO_LISTING, lots, n), Append(NO_LISTING, lots, n - 1);
      forall k | k in r.idByKey
        ensures exists i :: 0 <= i < n && HasKey(lots[i], k) && r.idByKey[k] == lots[i].id
      {
        if HasKey(lots[n - 1], k) {
          assert r.idByKey[k] == lots[n - 1].id;
        } else {
          var i :| 0 <= i < n - 1 && HasKey(lots[i], k) && p.idByKey[k] == lots[i].id;
          assert r.idByKey[k] == lots[i].id;
        }
      }
    }
  }

  predicate HasKey(lot: Lot, k: string) {
    lot.info.ParkenDD? && lot.info.key == k
  }

  /** The keys of all lots are those of the key table. */
  lemma {:induction false} KeysOfAllLots(db: Db, lots: seq<Lot>, m: map<string, int>)
    requires Keyed(db) && lots == Ascending(db.store.lots, 1, db.highest + 1)
    requires forall k :: k in m <==> exists i :: 0 <= i < |lots| && HasKey(lots[i], k)
    requires forall k | k in m :: exists i :: 0 <= i < |lots| && HasKey(lots[i], k) && m[k] == lots[i].id
    ensures m == db.store.parkendd
  {
    hide Ascending;
    forall k | k in m ensures k in db.store.parkendd && m[k] == db.store.parkendd[k] {
      var i :| 0 <= i < |lots| && HasKey(lots[i], k) && m[k] == lots[i].id;
      var id := AscendingHas(db.store.lots, 1, db.highest + 1, i);
      assert Stored(db, id);
    }
    forall k | k in db.store.parkendd ensures k in m {
      assert ParkenddIndexed(db.store, k);
      AscendingAt(db.store.lots, db.store.parkendd[k], db.highest + 1);
      assert HasKey(lots[|Ascending(db.store.lots, 1, db.store.parkendd[k])|], k);
    }
  }

  /** Loading the tables lists all lots. */
  lemma {:induction false} ReloadedLists(db: Db)
    requires Keyed(db)
    ensures Lists(db, Reloaded(db).listing)
  {
    hide Append, Ascending, HasKey, Keyed;
    var lots := Ascending(db.store.lots, 1, db.highest + 1);
    AppendToNothing(lots, |lots|);
    assert lots[..|lots|] == lots;
    KeysOfAllLots(db, lots, Reloaded(db).listing.idByKey);
  }

  lemma {:induction false} ReopenedKeyed(db: Db)
    requires Keyed(db)
    ensures Keyed(Reopened(db.store)) && Reopened(db.store).highest <= db.highest
    ensures Sound(Reopened(db.store)) <==> Gapless(db.store.lots)
  {
    var r := Reopened(db.store);
    assert IsLastId(db.store.lots, r.highest);
    forall id | id in r.store.lots ensures 1 <= id <= r.highest && Stored(r, id) { assert Stored(db, id); }
    if r.highest > 0 { assert r.highest in db.store.lots; }
  }

  // ---------------------------------------------------------------- lookups by position

  /** No id below one that is stored is missing. */
  ghost predicate Gapless(lots: map<int, Lot>) {
    forall id, x | id in lots && 1 <= x <= id :: x in lots
  }

  ghost predicate LooksUp(db: Db, l: Listing, id: int) {
    GetParking(l, id) == if id in db.store.lots then Some(db.store.lots[id]) else None
  }

  /** Each lookup by id finds just the stored lot of that id iff no id is missing below another; with a gap, the lots
      above it are not found under their ids. */
  lemma {:induction false} LookupsRightIff(db: Db, l: Listing)
    requires Keyed(db) && Lists(db, l)
    ensures (forall id :: LooksUp(db, l, id)) <==> Gapless(db.store.lots)
    ensures forall id, x | id in db.store.lots && 1 <= x <= id
        && x !in db.store.lots :: GetParking(l, id) != Some(db.store.lots[id])
  {
    hide Keyed, Lists, GetParking;
    var lots := db.store.lots;
    forall id, x | id in lots && 1 <= x <= id && x !in lots ensures GetParking(l, id) != Some(lots[id]) {
      AboveGap(db, l, id, x);
    }
    if Gapless(lots) {
      forall id ensures LooksUp(db, l, id) { NoGap(db, l, id); }
    } else {
      var id, x :| id in lots && 1 <= x <= id && x !in lots;
      assert !LooksUp(db, l, id);
    }
  }

  /** Above a gap there are lots of higher ids at the places. */
  lemma {:induction false} PlaceAboveGap(lots: map<int, Lot>, id: int, x: int, end: int)
    requires (forall k | k in lots :: lots[k].id == k) && 1 <= x <= id < end && x !in lots
    ensures var s := Ascending(lots, 1, end); id - 1 < |s| ==> s[id - 1].id > id
  {
    hide Ascending;
    AscendingSplits(lots, 1, id + 1, end);
    AscendingLength(lots, 1, id + 1);
    var s, p := Ascending(lots, 1, end), |Ascending(lots, 1, id + 1)|;
    if id - 1 < |s| {
      assert s[id - 1] == Ascending(lots, id + 1, end)[id - 1 - p];
      var y := AscendingHas(lots, id + 1, end, id - 1 - p);
    }
  }

  lemma {:induction false} AboveGap(db: Db, l: Listing, id: int, x: int)
    requires Keyed(db) && Lists(db, l) && id in db.store.lots && 1 <= x <= id && x !in db.store.lots
    ensures GetParking(l, id) != Some(db.store.lots[id])
  {
    KeyedIds(db);
    PlaceAboveGap(db.store.lots, id, x, db.highest + 1);
  }

  /** Without a gap below it, a lot has its place; and a number that is not given has none, if there is no gap at all.
      */
  lemma {:induction false} PlaceOf(lots: map<int, Lot>, id: int, end: int)
    requires 1 <= id < end && forall x | 1 <= x <= id :: x in lots
    ensures var s := Ascending(lots, 1, end); id - 1 < |s| && s[id - 1] == lots[id]
  {
    AscendingLength(lots, 1, id);
    AscendingAt(lots, id, end);
  }

  lemma {:induction false} NoPlaceOf(lots: map<int, Lot>, id: int, end: int)
    requires 1 <= id && 1 <= end && id !in lots && Gapless(lots)
    ensures |Ascending(lots, 1, end)| < id
  {
    hide Ascending;
    if end <= id {
      AscendingLength(lots, 1, end);
    } else {
      AscendingSplits(lots, 1, id, end);
      AscendingLength(lots, 1, id);
      AscendingNone(lots, id, end);
    }
  }

  lemma {:induction false} AllBelow(lots: map<int, Lot>, id: int)
    requires Gapless(lots) && id in lots
    ensures forall x | 1 <= x <= id :: x in lots
  {}

  /** What a lookup gives that finds the lot at its place, or nothing as there is no such lot. */
  lemma {:induction false} PlaceIsLookedUp(db: Db, l: Listing, id: int, all: seq<Lot>)
    requires Lists(db, l) && all == Ascending(db.store.lots, 1, db.highest + 1)
    requires if id in db.store.lots then 1 <= id <= |all| && all[id - 1] == db.store.lots[id] else id < 1 || |all| < id
    ensures LooksUp(db, l, id)
  {
    hide Ascending;
  }

  lemma {:induction false} NoGap(db: Db, l: Listing, id: int)
    requires Keyed(db) && Lists(db, l) && Gapless(db.store.lots)
    ensures LooksUp(db, l, id)
  {
    hide *;
    KeyedIds(db);
    var lots := db.store.lots;
    if id in lots {
      AllBelow(lots, id);
      PlaceOf(lots, id, db.highest + 1);
    } else if id >= 1 {
      NoPlaceOf(lots, id, db.highest + 1);
    }
    PlaceIsLookedUp(db, l, id, Ascending(lots, 1, db.highest + 1));
  }

  lemma {:induction false} SoundIsGapless(db: Db)
    requires Keyed(db)
    ensures Sound(db) <==> Gapless(db.store.lots) && (db.highest == 0 || db.highest in db.store.lots)
  {}

  /** Where ids are exactly 1..highest, the list of all lots has each at its place. */
  lemma {:induction false} SoundListsInLine(db: Db, l: Listing)
    requires Sound(db) && Lists(db, l)
    ensures InLine(db, l)
  {
    AscendingLength(db.store.lots, 1, db.highest + 1);
    forall i | 0 <= i < |l.parkings| ensures AtPlace(db, l.parkings, i) {
      assert Stored(db, i + 1);
      NoGap(db, l, i + 1);
    }
  }

  // ---------------------------------------------------------------- whole runs

  /** List and tables belong together, though ids may be missing. */
  ghost predicate Linked(w: World) {
    Keyed(w.db) && Lists(w.db, w.listing)
  }

  ghost predicate Consistent(w: World) {
    Sound(w.db) && Lists(w.db, w.listing)
  }

  lemma {:induction false} EmptyConsistent()
    ensures Consistent(EMPTY_SERVER)
  {}

  ghost predicate HasNew(db: Db, lots: seq<Lot>) {
    exists i :: 0 <= i < |lots| && IsNew(db, lots, i)
  }

  /** The counter is ahead of the ids: an addition has been undone since the tables were opened. */
  ghost predicate CounterAhead(db: Db) {
    db.highest != LastId(db.store.lots)
  }

  lemma {:induction false} CounterAheadIff(db: Db)
    requires Keyed(db)
    ensures CounterAhead(db) <==> db.highest > 0 && db.highest !in db.store.lots
    ensures Sound(db) <==> Gapless(db.store.lots) && !CounterAhead(db)
  {
    assert IsLastId(db.store.lots, LastId(db.store.lots));
    SoundIsGapless(db);
  }

  /** Every step keeps list and tables together, and forgets nothing. */
  lemma {:induction false} StepKeepsLinked(w: World, step: Step)
    requires Linked(w)
    ensures var r := After(w, step); Linked(r) && Extends(w.db.store, r.db.store)
  {
    hide Keyed, Sound, Lists, Append, Ascending;
    match step
    case Restart =>
      ReopenedKeyed(w.db);
      ReloadedLists(Reopened(w.db.store));
    case Received(lots) =>
      AddKeepsSound(w.db, lots, |lots|);
      BatchKeepsLists(w.db, lots, w.listing, |lots|);
    case BrokenOff(lots) =>
      AbortKeepsKeyed(w.db, lots, |lots|);
      AbortKeepsLists(w.db, lots, w.listing);
  }

  lemma {:induction false} AbortKeepsLists(db: Db, lots: seq<Lot>, l: Listing)
    requires Keyed(db) && Lists(db, l)
    ensures Lists(Aborted(db, lots, |lots|), l)
  {
    AbortKeepsKeyed(db, lots, |lots|);
    var r := Aborted(db, lots, |lots|);
    AscendingSplits(db.store.lots, 1, db.highest + 1, r.highest + 1);
    if |Ascending(db.store.lots, db.highest + 1, r.highest + 1)| > 0 {
      var id := AscendingHas(db.store.lots, db.highest + 1, r.highest + 1, 0);
    }
  }

  /** Over any sequence of restarts, updates and broken updates, list and tables stay together, and nothing is lost. */
  lemma {:induction false} RunKeepsLinked(w: World, steps: seq<Step>, m: nat, n: nat)
    requires Linked(w) && m <= n <= |steps|
    ensures Linked(Run(w, steps, n)) && Extends(Run(w, steps, m).db.store, Run(w, steps, n).db.store)
    decreases n
  {
    hide Linked, After;
    if n > 0 {
      if m < n { RunKeepsLinked(w, steps, m, n - 1); } else { RunKeepsLinked(w, steps, n - 1, n - 1); }
      StepKeepsLinked(Run(w, steps, n - 1), steps[n - 1]);
    }
  }

  // ---------------------------------------------------------------- which runs leave gaps

  /** A new lot comes in while the counter is ahead. */
  ghost predicate LeavesGap(w: World, step: Step) {
    step.Received? && CounterAhead(w.db) && HasNew(w.db, step.lots)
  }

  /** The tables after a batch: the ids above the old counter have all been given. */
  lemma {:induction false} BatchIds(db: Db, lots: seq<Lot>, n: nat, id: int)
    requires Keyed(db) && n <= |lots|
    ensures id in AddTo(db, lots, n).store.lots <==>
        id in db.store.lots || db.highest < id <= AddTo(db, lots, n).highest
  {
    hide Keyed, Find;
    if n > 0 {
      BatchIds(db, lots, n - 1, id);
      AddKeepsSound(db, lots, n - 1);
      BatchStep(db, lots, n);
    }
  }

  lemma {:induction false} StepGaplessIff(w: World, step: Step)
    requires Linked(w)
    ensures Gapless(After(w, step).db.store.lots) <==> Gapless(w.db.store.lots) && !LeavesGap(w, step)
  {
    if step.Received? {
      var db, lots := w.db, step.lots;
      var r := AddTo(db, lots, |lots|);
      HighestGrowsIff(db, lots, |lots|);
      AddKeepsSound(db, lots, |lots|);
      CounterAheadIff(db);
      hide CounterAhead, AddTo, IsNew;
      forall id ensures id in r.store.lots <==> id in db.store.lots || db.highest < id <= r.highest {
        BatchIds(db, lots, |lots|, id);
      }
      if r.highest > db.highest { assert r.highest in r.store.lots; }
    }
  }

  /** After a run no id is missing below another iff none was before, and no new lot came in while the counter was
      ahead; a gap once there stays for ever, restarts included. */
  lemma {:induction false} RunGaplessIff(w: World, steps: seq<Step>, n: nat)
    requires Linked(w) && n <= |steps|
    ensures Gapless(Run(w, steps, n).db.store.lots) <==>
      Gapless(w.db.store.lots) && forall m | 0 <= m < n :: !LeavesGap(Run(w, steps, m), steps[m])
  {
    hide Linked, After, Gapless, LeavesGap;
    if n > 0 {
      RunGaplessIff(w, steps, n - 1);
      RunKeepsLinked(w, steps, n - 1, n - 1);
      StepGaplessIff(Run(w, steps, n - 1), steps[n - 1]);
    }
  }

  /** The counter gets ahead when an addition with a new lot is undone, and a restart or another new lot ends that. */
  lemma {:induction false} StepAheadIff(w: World, step: Step)
    requires Linked(w)
    ensures CounterAhead(After(w, step).db) <==>
      !step.Restart? && if HasNew(w.db, step.lots) then step.BrokenOff? else CounterAhead(w.db)
  {
    if !step.Restart? {
      var db, lots := w.db, step.lots;
      HighestGrowsIff(db, lots, |lots|);
      AddKeepsSound(db, lots, |lots|);
      AbortKeepsKeyed(db, lots, |lots|);
      CounterAheadIff(db);
      CounterAheadIff(After(w, step).db);
      var r := AddTo(db, lots, |lots|);
      BatchIds(db, lots, |lots|, r.highest);
    }
  }

  /** Where no addition breaks off, tables and list stay consistent; and a restart at once makes good one that did. */
  lemma {:induction false} StepKeepsConsistent(w: World, step: Step)
    requires Linked(w)
    ensures Consistent(w) && !step.BrokenOff? ==> Consistent(After(w, step))
    ensures Gapless(w.db.store.lots) ==> Consistent(After(w, Restart))
  {
    hide Keyed, Lists, After, Gapless, CounterAhead;
    StepKeepsLinked(w, step);
    StepGaplessIff(w, step);
    StepAheadIff(w, step);
    StepKeepsLinked(w, Restart);
    StepGaplessIff(w, Restart);
    StepAheadIff(w, Restart);
    CounterAheadIff(w.db);
    CounterAheadIff(After(w, step).db);
    CounterAheadIff(After(w, Restart).db);
  }

  /** Over any sequence of restarts and updates that do not break off, tables and list stay consistent, nothing is
      lost. */
  lemma {:induction false} RunKeepsConsistent(w: World, steps: seq<Step>, m: nat, n: nat)
    requires Consistent(w) && m <= n <= |steps| && forall x | 0 <= x < n :: !steps[x].BrokenOff?
    ensures Consistent(Run(w, steps, n)) && InLine(Run(w, steps, n).db, Run(w, steps, n).listing)
    ensures Extends(Run(w, steps, m).db.store, Run(w, steps, n).db.store)
    decreases n
  {
    hide Keyed, InLine, Lists, After;
    RunKeepsLinked(w, steps, m, n);
    if n > 0 {
      RunKeepsConsistent(w, steps, 0, n - 1);
      StepKeepsConsistent(Run(w, steps, n - 1), steps[n - 1]);
    }
    SoundListsInLine(Run(w, steps, n).db, Run(w, steps, n).listing);
  }

  const EMPTY_SERVER := World(Db(EMPTY_STORE, 0), NO_LISTING)

  /** From an empty server on, whatever happens: list and tables stay together; and where no addition breaks off, ids
      are exactly 1..highest and each lot stands at its place. */
  lemma {:induction false} RunFromEmpty(steps: seq<Step>, n: nat)
    requires n <= |steps|
    ensures var r := Run(EMPTY_SERVER, steps, n);
      Linked(r) && ((forall x | 0 <= x < n :: !steps[x].BrokenOff?) ==> Sound(r.db) && InLine(r.db, r.listing))
  {
    EmptyConsistent();
    hide Keyed, InLine, Lists, After, Run;
    RunKeepsLinked(EMPTY_SERVER, steps, n, n);
    if forall x | 0 <= x < n :: !steps[x].BrokenOff? { RunKeepsConsistent(EMPTY_SERVER, steps, 0, n); }
  }

  /** After a run all lookups by id find exactly what is stored iff no new lot came in while the counter was ahead. */
  lemma {:induction false} GetParkingIsStored(w: World, steps: seq<Step>, n: nat)
    requires Linked(w) && Gapless(w.db.store.lots) && n <= |steps|
    ensures var r := Run(w, steps, n);
      (forall id :: LooksUp(r.db, r.listing, id)) <==> forall m | 0 <= m < n :: !LeavesGap(Run(w, steps, m), steps[m])
  {
    hide Gapless, LooksUp, LeavesGap;
    RunKeepsLinked(w, steps, n, n);
    RunGaplessIff(w, steps, n);
    LookupsRightIff(Run(w, steps, n).db, Run(w, steps, n).listing);
  }

  /** Whether a batch has a new lot does not depend on the counter. */
  lemma {:induction false} HasNewIff(db: Db, lots: seq<Lot>)
    ensures HasNew(db, lots) <==> exists i :: 0 <= i < |lots| && Find(db.store, lots[i].info).None?
  {
    hide Find;
    if forall i | 0 <= i < |lots| :: Find(db.store, lots[i].info).Some? {
      forall i | 0 <= i < |lots| ensures !IsNew(db, lots, i) { NothingAdded(db, lots, i); }
    }
    if !HasNew(db, lots) {
      forall i | 0 <= i < |lots| ensures Find(db.store, lots[i].info).Some? {
        NothingAdded(db, lots, i);
        assert !IsNew(db, lots, i);
      }
    }
  }

  lemma {:induction false} NothingAdded(db: Db, lots: seq<Lot>, n: nat)
    requires n <= |lots|
    requires (forall i | 0 <= i < n :: !IsNew(db, lots, i))
        || forall i | 0 <= i < n :: Find(db.store, lots[i].info).Some?
    ensures AddTo(db, lots, n) == db
  {
    hide Find;
    if n > 0 {
      NothingAdded(db, lots, n - 1);
      assert IsNew(db, lots, n - 1) <==> Find(db.store, lots[n - 1].info).None?;
    }
  }

  /** An id that is missing below another. */
  ghost predicate Missing(lots: map<int, Lot>, x: int) {
    1 <= x && x !in lots && exists id :: id in lots && id > x
  }

  lemma {:induction false} MissingStays(w: World, steps: seq<Step>, m: nat, n: nat, x: int)
    requires Linked(w) && m <= n <= |steps| && Missing(Run(w, steps, m).db.store.lots, x)
    ensures Missing(Run(w, steps, n).db.store.lots, x)
    decreases n - m
  {
    hide Linked, After;
    if m < n {
      MissingStays(w, steps, m, n - 1, x);
      RunKeepsLinked(w, steps, n - 1, n - 1);
      MissingStep(Run(w, steps, n - 1), steps[n - 1], x);
    }
  }

  lemma {:induction false} MissingStep(w: World, step: Step, x: int)
    requires Linked(w) && Missing(w.db.store.lots, x)
    ensures Missing(After(w, step).db.store.lots, x)
  {
    StepKeepsLinked(w, step);
    var id :| id in w.db.store.lots && id > x;
    assert Stored(w.db, id);
    if step.Received? { BatchIds(w.db, step.lots, |step.lots|, x); }
    assert id in After(w, step).db.store.lots;
  }

  /** The ids that were undone are left out by the next batch. */
  lemma {:induction false} UndoneIdsAreMissing(db: Db, broken: seq<Lot>, lots: seq<Lot>)
    requires Sound(db) && HasNew(db, broken) && HasNew(db, lots)
    ensures var r := AddTo(Aborted(db, broken, |broken|), lots, |lots|).store.lots;
      Missing(r, db.highest + 1) && AddTo(db, broken, |broken|).highest + 1 in r
  {
    AbortKeepsKeyed(db, broken, |broken|);
    GrowsIfNew(db, broken);
    SkippedIsMissing(db, Aborted(db, broken, |broken|), lots);
  }

  /** The same tables with the counter further on. */
  lemma {:induction false} SkippedIsMissing(db: Db, p: Db, lots: seq<Lot>)
    requires Keyed(db) && Keyed(p) && p.store == db.store && p.highest > db.highest && HasNew(db, lots)
    ensures var r := AddTo(p, lots, |lots|).store.lots; Missing(r, db.highest + 1) && p.highest + 1 in r
  {
    hide *;
    KeyedIds(db);
    HasNewIff(db, lots);
    HasNewIff(p, lots);
    GrowsIfNew(p, lots);
    BatchIds(p, lots, |lots|, p.highest + 1);
    BatchIds(p, lots, |lots|, db.highest + 1);
    IsMissing(AddTo(p, lots, |lots|).store.lots, db.highest + 1, p.highest + 1);
  }

  lemma {:induction false} IsMissing(lots: map<int, Lot>, x: int, id: int)
    requires 1 <= x < id && x !in lots && id in lots
    ensures Missing(lots, x)
  {}

  lemma {:induction false} GrowsIfNew(db: Db, lots: seq<Lot>)
    requires Keyed(db) && HasNew(db, lots)
    ensures AddTo(db, lots, |lots|).highest > db.highest
  {
    HighestGrowsIff(db, lots, |lots|);
    AddKeepsSound(db, lots, |lots|);
  }

  /** An addition with a new lot breaks off, and the next batch has a new lot: its first new lot is stored, but not
      found under its id, whatever happens afterwards. */
  lemma {:induction false} GapIsForEver(w: World, broken: seq<Lot>, lots: seq<Lot>, more: seq<Step>)
    requires Consistent(w) && HasNew(w.db, broken) && HasNew(w.db, lots)
    ensures var steps := [BrokenOff(broken), Received(lots)] + more;
      var r, id := Run(w, steps, |steps|), AddTo(w.db, broken, |broken|).highest + 1;
      id in r.db.store.lots && GetParking(r.listing, id) != Some(r.db.store.lots[id])
  {
    hide *;
    var steps := [BrokenOff(broken), Received(lots)] + more;
    var r, x, id := Run(w, steps, |steps|), w.db.highest + 1, AddTo(w.db, broken, |broken|).highest + 1;
    ConsistentLinked(w, broken);
    UndoneIdsAreMissing(w.db, broken, lots);
    TwoSteps(w, broken, lots, more);
    RunKeepsLinked(w, steps, 2, |steps|);
    MissingStays(w, steps, 2, |steps|, x);
    GapIsSeen(w, r, steps, x, id);
  }

  lemma {:induction false} ConsistentLinked(w: World, lots: seq<Lot>)
    requires Consistent(w)
    ensures Linked(w) && Sound(w.db) && w.db.highest + 1 <= AddTo(w.db, lots, |lots|).highest + 1
  {
    AddKeepsSound(w.db, lots, |lots|);
  }

  lemma {:induction false} TwoSteps(w: World, broken: seq<Lot>, lots: seq<Lot>, more: seq<Step>)
    ensures var steps := [BrokenOff(broken), Received(lots)] + more;
      Run(w, steps, 2).db == AddTo(Aborted(w.db, broken, |broken|), lots, |lots|)
  {
    var steps := [BrokenOff(broken), Received(lots)] + more;
    assert Run(w, steps, 0) == w;
    assert Run(w, steps, 1) == After(w, steps[0]);
  }

  lemma {:induction false} GapIsSeen(w: World, r: World, steps: seq<Step>, x: int, id: int)
    requires |steps| >= 2 && Linked(r) && Extends(Run(w, steps, 2).db.store, r.db.store)
        && id in Run(w, steps, 2).db.store.lots
    requires Missing(r.db.store.lots, x) && x <= id
    ensures id in r.db.store.lots && GetParking(r.listing, id) != Some(r.db.store.lots[id])
  {
    LookupsRightIff(r.db, r.listing);
  }

  // ---------------------------------------------------------------- keys

  /** After an update has been taken in, every lot in it is known by its key; and it keeps that id ever after, also when
      later updates break off. */
  lemma {:induction false} KeyNeverMisses(w: World, steps: seq<Step>, m: nat, n: nat, i: nat)
    requires Linked(w) && m < n <= |steps| && steps[m].Received? && i < |steps[m].lots|
        && steps[m].lots[i].info.ParkenDD?
    ensures var before, r := Run(w, steps, m), Run(w, steps, n); var key := steps[m].lots[i].info.key;
      && key in r.listing.idByKey && r.listing.idByKey[key] == Assigned(before.db, steps[m].lots, i).id
      && r.listing.idByKey[key] in r.db.store.lots && HasKey(r.db.store.lots[r.listing.idByKey[key]], key)
      && (Gapless(r.db.store.lots) ==>
        GetParking(r.listing, r.listing.idByKey[key]) == Some(r.db.store.lots[r.listing.idByKey[key]]))
  {
    var lots, before := steps[m].lots, Run(w, steps, m);
    RunKeepsLinked(w, steps, m, m);
    AssignedIsFound(before.db, lots, i, |lots|);
    RunKeepsLinked(w, steps, m + 1, n);
    FoundStays(Run(w, steps, m + 1).db.store, Run(w, steps, n).db.store, lots[i].info);
    var r := Run(w, steps, n);
    assert ParkenddIndexed(r.db.store, lots[i].info.key);
    LookupsRightIff(r.db, r.listing);
    if Gapless(r.db.store.lots) { assert LooksUp(r.db, r.listing, r.listing.idByKey[lots[i].info.key]); }
  }

  /** An empty server, an addition of one lot that breaks off, then another lot: number 2 is stored, but number 2 is not
      found, and number 1 is it. */
  lemma {:induction false} SecondLotIsLost()
    ensures var w := EMPTY_SERVER;
      var a, b := Lot(0, Pos(0.0, 0.0), ParkenDD("a", "")), Lot(0, Pos(0.0, 0.0), ParkenDD("b", ""));
      var r := After(After(w, BrokenOff([a])), Received([b]));
      && r.db.store.lots == map[2 := b.(id := 2)]
      && GetParking(r.listing, 2) == None && GetParking(r.listing, 1) == Some(b.(id := 2))
      && !Sound(Aborted(w.db, [a], 1))
  {
    var w := EMPTY_SERVER;
    var a, b := Lot(0, Pos(0.0, 0.0), ParkenDD("a", "")), Lot(0, Pos(0.0, 0.0), ParkenDD("b", ""));
    OneNew(w.db, a);
    var p := Aborted(w.db, [a], 1);
    assert p == Db(EMPTY_STORE, 1);
    OneNew(p, b);
    AppendOne(NO_LISTING, b.(id := 2));
    assert 1 !in p.store.lots;
  }

  lemma {:induction false} OneNew(db: Db, lot: Lot)
    requires Find(db.store, lot.info).None?
    ensures AddTo(db, [lot], 1) == AddOne(db, lot) && NewLots(db, [lot], 1) == [lot.(id := db.highest + 1)]
  {
    assert AddTo(db, [lot], 0) == db && NewLots(db, [lot], 0) == [];
  }

  lemma {:induction false} AppendOne(l: Listing, lot: Lot)
    ensures Append(l, [lot], 1).parkings == l.parkings + [lot]
  {
    assert Append(l, [lot], 0) == l;
  }
}
