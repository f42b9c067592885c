/**
 What is published, message by message: what has been put in from outside, and then, delivery by delivery, what the file
 importer makes of it and what an operation that it starts publishes; nothing else, nothing twice, and in that order.
 */
module ImportDetails {
  import opened ImportModel
  import opened ImportTheorems

  // ---------------------------------------------------------------- the file importer

  /** Path i, published as street data (0), coastlines (1) or elevation (2). */
  datatype Place = Place(kind: nat, i: nat)

  ghost predicate IsPlace(fs: FileSystem, paths: seq<ImportPath>, p: Place) {
    p.i < |paths| &&
    var path := paths[p.i];
    || (p.kind == 0 && path.tag == "osm" && fs.isFile(path.path))
    || (p.kind == 1 && path.tag == "coastline" && fs.isFile(path.path))
    || (p.kind == 2 && path.tag == "dem" && fs.isDem(path.path))
  }

  ghost predicate IsEventOf(paths: seq<ImportPath>, p: Place, m: Msg) {
    p.i < |paths| &&
    m == if p.kind == 0 then OSMEvent(paths[p.i].path)
         else if p.kind == 1 then CoastlineEvent(paths[p.i].path)
         else DEMEvent(paths[p.i].path)
  }

  predicate Earlier(p: Place, q: Place) {
    p.kind < q.kind || (p.kind == q.kind && p.i < q.i)
  }

  /** One event for every path of a known tag that is there, kind after kind, and within a kind as the paths come. */
  ghost predicate IsFileBlock(fs: FileSystem, paths: seq<ImportPath>, out: seq<Msg>, places: seq<Place>) {
    && |places| == |out|
    && (forall x | 0 <= x < |out| :: IsPlace(fs, paths, places[x]) && IsEventOf(paths, places[x], out[x]))
    && (forall x, y | 0 <= x < y < |places| :: Earlier(places[x], places[y]))
    && forall p | IsPlace(fs, paths, p) :: p in places
  }

  ghost predicate FileBlock(fs: FileSystem, paths: seq<ImportPath>, out: seq<Msg>) {
    exists places :: IsFileBlock(fs, paths, out, places)
  }

  /** Where paths of a tag stand, from the i-th path on. */
  function Tagged(paths: seq<ImportPath>, i: nat, kind: nat, tag: string, keep: string -> bool): (r: seq<Place>)
    requires i <= |paths|
    decreases |paths| - i
  {
    if i == |paths| then []
    else
      (if paths[i].tag == tag && keep(paths[i].path) then [Place(kind, i)] else [])
      + Tagged(paths, i + 1, kind, tag, keep)
  }

  lemma {:induction false} TaggedAre(paths: seq<ImportPath>, i: nat, kind: nat, tag: string, keep: string -> bool)
    requires i <= |paths|
    ensures var r, names := Tagged(paths, i, kind, tag, keep), PathsTagged(paths[i..], tag, keep);
      && |r| == |names| && (forall x | 0 <= x < |r| :: i <= r[x].i < |paths| && names[x] == paths[r[x].i].path)
      && (forall x, y | 0 <= x < y < |r| :: r[x].i < r[y].i)
      && forall p: Place :: p in r <==>
           p.kind == kind && i <= p.i < |paths| && paths[p.i].tag == tag && keep(paths[p.i].path)
    decreases |paths| - i
  {
    if i < |paths| {
      assert paths[i..][1..] == paths[i + 1..];
      TaggedAre(paths, i + 1, kind, tag, keep);
    }
  }

  /** The places of one kind, and the paths that stand there. */
  ghost predicate AreOfKind(paths: seq<ImportPath>, r: seq<Place>, kind: nat, tag: string, keep: string -> bool) {
    && |r| == |PathsTagged(paths, tag, keep)|
    && (forall x | 0 <= x < |r| :: r[x].i < |paths| && PathsTagged(paths, tag, keep)[x] == paths[r[x].i].path)
    && (forall x, y | 0 <= x < y < |r| :: r[x].i < r[y].i)
    && forall p: Place :: p in r <==>
         p.kind == kind && p.i < |paths| && paths[p.i].tag == tag && keep(paths[p.i].path)
  }

  lemma {:induction false} OfKind(paths: seq<ImportPath>, kind: nat, tag: string, keep: string -> bool)
    ensures AreOfKind(paths, Tagged(paths, 0, kind, tag, keep), kind, tag, keep)
  {
    assert paths[0..] == paths;
    TaggedAre(paths, 0, kind, tag, keep);
  }

  ghost predicate AllKinds(fs: FileSystem, paths: seq<ImportPath>, osm: seq<Place>, coast: seq<Place>,
                           dem: seq<Place>) {
    && AreOfKind(paths, osm, 0, "osm", fs.isFile) && AreOfKind(paths, coast, 1, "coastline", fs.isFile)
    && AreOfKind(paths, dem, 2, "dem", fs.isDem)
  }

  lemma {:induction false} EventAt(fs: FileSystem, paths: seq<ImportPath>, osm: seq<Place>, coast: seq<Place>,
                                   dem: seq<Place>, x: nat)
    requires AllKinds(fs, paths, osm, coast, dem) && x < |osm + coast + dem|
    ensures |FilePublications(fs, paths)| == |osm + coast + dem|
    ensures var p := (osm + coast + dem)[x];
      IsPlace(fs, paths, p) && IsEventOf(paths, p, FilePublications(fs, paths)[x])
  {
    hide PathsTagged, FilePublications;
    SameLength(fs, paths, osm, coast, dem);
    PublishedInOrder(fs, paths, x);
    if x < |osm| {
      assert osm[x] in osm;
    } else if x < |osm| + |coast| {
      assert coast[x - |osm|] in coast;
    } else {
      assert dem[x - |osm| - |coast|] in dem;
    }
  }

  lemma {:induction false} LengthOf(fs: FileSystem, paths: seq<ImportPath>)
    ensures |FilePublications(fs, paths)| == |PathsTagged(paths, "osm", fs.isFile)|
        + |PathsTagged(paths, "coastline", fs.isFile)| + |PathsTagged(paths, "dem", fs.isDem)|
  {}

  lemma {:induction false} InTurn(fs: FileSystem, paths: seq<ImportPath>, osm: seq<Place>, coast: seq<Place>,
                                  dem: seq<Place>, x: nat, y: nat)
    requires AllKinds(fs, paths, osm, coast, dem) && x < y < |osm + coast + dem|
    ensures Earlier((osm + coast + dem)[x], (osm + coast + dem)[y])
  {
    hide PathsTagged;
    var places, n := osm + coast + dem, |osm| + |coast|;
    assert y < |osm| ==> places[y] == osm[y] && osm[y] in osm;
    assert |osm| <= y < n ==> places[y] == coast[y - |osm|] && coast[y - |osm|] in coast;
    assert n <= y ==> places[y] == dem[y - n] && dem[y - n] in dem;
    assert x < |osm| ==> places[x] == osm[x] && osm[x] in osm;
    assert |osm| <= x < n ==> places[x] == coast[x - |osm|] && coast[x - |osm|] in coast;
    assert n <= x ==> places[x] == dem[x - n] && dem[x - n] in dem;
  }

  lemma {:induction false} NoneMissing(fs: FileSystem, paths: seq<ImportPath>, osm: seq<Place>, coast: seq<Place>,
                                       dem: seq<Place>, p: Place)
    requires AllKinds(fs, paths, osm, coast, dem) && IsPlace(fs, paths, p)
    ensures p in osm + coast + dem
  {
    hide PathsTagged;
    assert p in osm || p in coast || p in dem;
  }

  /** The file importer makes exactly one event of every path that is to become one. */
  lemma {:induction false} FilesPublish(fs: FileSystem, paths: seq<ImportPath>)
    ensures FileBlock(fs, paths, FilePublications(fs, paths))
  {
    hide *;
    OfKind(paths, 0, "osm", fs.isFile);
    OfKind(paths, 1, "coastline", fs.isFile);
    OfKind(paths, 2, "dem", fs.isDem);
    var osm := Tagged(paths, 0, 0, "osm", fs.isFile);
    var coast := Tagged(paths, 0, 1, "coastline", fs.isFile);
    var dem := Tagged(paths, 0, 2, "dem", fs.isDem);
    KindsMakeBlock(fs, paths, osm, coast, dem);
  }

  lemma {:induction false} KindsMakeBlock(fs: FileSystem, paths: seq<ImportPath>, osm: seq<Place>, coast: seq<Place>,
                                          dem: seq<Place>)
    requires AreOfKind(paths, osm, 0, "osm", fs.isFile) && AreOfKind(paths, coast, 1, "coastline", fs.isFile)
        && AreOfKind(paths, dem, 2, "dem", fs.isDem)
    ensures FileBlock(fs, paths, FilePublications(fs, paths))
  {
    hide PathsTagged, FilePublications, AreOfKind, IsPlace, IsEventOf, Earlier;
    assert AllKinds(fs, paths, osm, coast, dem);
    var places, out := osm + coast + dem, FilePublications(fs, paths);
    SameLength(fs, paths, osm, coast, dem);
    forall x | 0 <= x < |places| ensures IsPlace(fs, paths, places[x]) && IsEventOf(paths, places[x], out[x]) {
      EventAt(fs, paths, osm, coast, dem, x);
    }
    forall x, y | 0 <= x < y < |places| ensures Earlier(places[x], places[y]) {
      InTurn(fs, paths, osm, coast, dem, x, y);
    }
    forall p | IsPlace(fs, paths, p) ensures p in places {
      NoneMissing(fs, paths, osm, coast, dem, p);
    }
    assert IsFileBlock(fs, paths, out, places);
  }

  lemma {:induction false} SameLength(fs: FileSystem, paths: seq<ImportPath>, osm: seq<Place>, coast: seq<Place>,
                                      dem: seq<Place>)
    requires AllKinds(fs, paths, osm, coast, dem)
    ensures |FilePublications(fs, paths)| == |osm + coast + dem|
  {
    LengthOf(fs, paths);
  }

  // ---------------------------------------------------------------- the accounts

  /** What the at-th delivery makes the program publish. */
  ghost predicate Yields(cfg: Config, d: Delivery, at: nat, runs: seq<OpRun>, out: seq<Msg>) {
    d.importer < |cfg.importers| &&
    match cfg.importers[d.importer]
    case Files => if d.msg.FileEvent? then FileBlock(cfg.fs, d.msg.paths, out) else out == []
    case Waits(c, _, _) =>
      || (exists i :: StartedAt(cfg, runs, i, c, at, out))
      || (out == [] && forall i | 0 <= i < |runs| :: runs[i].at != at)
  }

  /** Run i is of collector c, was started at that delivery, and published just this. */
  ghost predicate StartedAt(cfg: Config, runs: seq<OpRun>, i: int, c: nat, at: nat, out: seq<Msg>) {
    && 0 <= i < |runs| && runs[i].c == c < |cfg.collectors| && runs[i].at == at
    && out == cfg.collectors[c].op(runs[i].deps).published
  }

  function Joined(outs: seq<seq<Msg>>): seq<Msg> {
    if outs == [] then [] else Joined(outs[..|outs| - 1]) + outs[|outs| - 1]
  }

  lemma {:induction false} JoinedConcat(a: seq<seq<Msg>>, b: seq<seq<Msg>>)
    ensures Joined(a + b) == Joined(a) + Joined(b)
  {
    if b == [] {
      assert a + b == a;
    } else {
      JoinedConcat(a, b[..|b| - 1]);
      assert (a + b)[..|a + b| - 1] == a + b[..|b| - 1];
    }
  }

  /** From a to b the deliveries have published `outs`, one after the other. */
  ghost predicate Accounts(cfg: Config, a: State, b: State, outs: seq<seq<Msg>>) {
    && a.trace <= b.trace && a.runs <= b.runs && |outs| == |b.trace| - |a.trace|
    && (forall t | 0 <= t < |outs| :: Yields(cfg, b.trace[|a.trace| + t], |a.trace| + t + 1, b.runs, outs[t]))
    && b.published == a.published + Joined(outs)
    && forall i | |a.runs| <= i < |b.runs| :: |a.trace| < b.runs[i].at
  }

  ghost predicate RunsPast(st: State) {
    forall i | 0 <= i < |st.runs| :: st.runs[i].at <= |st.trace|
  }

  lemma {:induction false} YieldsStill(cfg: Config, d: Delivery, at: nat, b: State, c: State, out: seq<Msg>)
    requires Yields(cfg, d, at, b.runs, out) && b.runs <= c.runs && at <= |b.trace|
    requires forall i | |b.runs| <= i < |c.runs| :: |b.trace| < c.runs[i].at
    ensures Yields(cfg, d, at, c.runs, out)
  {
    hide FileBlock;
    if cfg.importers[d.importer].Waits? {
      var k := cfg.importers[d.importer].c;
      if i :| StartedAt(cfg, b.runs, i, k, at, out) { assert StartedAt(cfg, c.runs, i, k, at, out); }
    }
  }

  lemma {:induction false} AccountsOn(cfg: Config, a: State, b: State, c: State, o: seq<seq<Msg>>, p: seq<seq<Msg>>)
    requires Accounts(cfg, a, b, o) && Accounts(cfg, b, c, p)
    ensures Accounts(cfg, a, c, o + p)
  {
    hide Yields;
    JoinedConcat(o, p);
    var n := |a.trace|;
    forall t | 0 <= t < |o + p| ensures Yields(cfg, c.trace[n + t], n + t + 1, c.runs, (o + p)[t]) {
      if t < |o| {
        YieldsStill(cfg, b.trace[n + t], n + t + 1, b, c, o[t]);
      } else {
        assert c.trace[|b.trace| + (t - |o|)] == c.trace[n + t] && (o + p)[t] == p[t - |o|];
        assert Yields(cfg, c.trace[|b.trace| + (t - |o|)], |b.trace| + (t - |o|) + 1, c.runs, p[t - |o|]);
      }
    }
  }

  lemma {:induction false} NothingYet(cfg: Config, st: State)
    ensures Accounts(cfg, st, st, [])
  {}

  lemma {:induction false} HandleAccounts(cfg: Config, st: State, k: nat, m: Msg) returns (out: seq<Msg>)
    requires Indexed(cfg, st) && k < |cfg.importers| && RunsPast(st)
    ensures var r := Handle(cfg, st, k, m); RunsPast(r) && Accounts(cfg, st, r, [out])
    ensures Handle(cfg, st, k, m).queue == st.queue + out
  {
    hide FileBlock, FilePublications;
    var r := Handle(cfg, st, k, m);
    var at := |st.trace| + 1;
    assert r.trace == st.trace + [Delivery(k, m)];
    out := r.published[|st.published|..];
    if cfg.importers[k].Files? {
      if m.FileEvent? {
        FilesPublish(cfg.fs, m.paths);
        assert out == FilePublications(cfg.fs, m.paths);
      }
    } else if |r.runs| > |st.runs| {
      assert StartedAt(cfg, r.runs, |st.runs|, cfg.importers[k].c, at, out);
    }
    assert Yields(cfg, r.trace[|st.trace|], at, r.runs, out);
    assert [out][..0] == [] && Joined([out]) == Joined([]) + out;
  }

  lemma {:induction false} DeliverAccounts(cfg: Config, st: State, m: Msg, k: nat) returns (outs: seq<seq<Msg>>)
    requires Indexed(cfg, st) && k <= |cfg.importers| && RunsPast(st)
    ensures var r := DeliverFrom(cfg, st, m, k); RunsPast(r) && Accounts(cfg, st, r, outs)
    decreases |cfg.importers| - k
  {
    hide Handle, Accounts;
    if k == |cfg.importers| {
      NothingYet(cfg, st);
      outs := [];
    } else {
      var st1 := Handle(cfg, st, k, m);
      var out := HandleAccounts(cfg, st, k, m);
      var rest := DeliverAccounts(cfg, st1, m, k + 1);
      AccountsOn(cfg, st, st1, DeliverFrom(cfg, st1, m, k + 1), [out], rest);
      outs := [out] + rest;
    }
  }

  lemma {:induction false} PopAccounts(cfg: Config, st: State, r: State, outs: seq<seq<Msg>>)
    requires st.queue != [] && Accounts(cfg, PopFront(st), r, outs)
    ensures Accounts(cfg, st, r, outs)
  {
    hide Yields;
  }

  lemma {:induction false} PumpAccounts(cfg: Config, st: State) returns (outs: seq<seq<Msg>>)
    requires Indexed(cfg, st) && RunsPast(st)
    ensures var r := Pump(cfg, st); RunsPast(r) && Accounts(cfg, st, r, outs)
    decreases Unexecuted(st.cs), FileEvents(st.queue), |st.queue|
  {
    hide Accounts, DeliverFrom;
    if st.queue == [] {
      NothingYet(cfg, st);
      outs := [];
    } else {
      DeliverDecreases(cfg, st);
      var st1 := DeliverFrom(cfg, PopFront(st), st.queue[0], 0);
      var first := DeliverAccounts(cfg, PopFront(st), st.queue[0], 0);
      PopAccounts(cfg, st, st1, first);
      var rest := PumpAccounts(cfg, st1);
      AccountsOn(cfg, st, st1, Pump(cfg, st1), first, rest);
      outs := first + rest;
    }
  }

  lemma {:induction false} RunsArePast(cfg: Config, batches: seq<seq<Msg>>)
    requires WfConfig(cfg)
    ensures RunsPast(RunAll(cfg, batches))
    decreases |batches|
  {
    hide Pump;
    if batches != [] {
      var front := batches[..|batches| - 1];
      RunsArePast(cfg, front);
      RunAllKeeps(cfg, front);
      var outs := PumpAccounts(cfg, Enqueue(RunAll(cfg, front), batches[|batches| - 1]));
    }
  }

  // ---------------------------------------------------------------- main theorem

  /** A run with one more batch publishes the batch, and then for each delivery, in order, what that makes the file
      importer or an operation publish. */
  lemma {:induction false} BatchIsAccountedFor(cfg: Config, batches: seq<seq<Msg>>, batch: seq<Msg>)
    requires WfConfig(cfg)
    ensures var a, b := RunAll(cfg, batches), RunAll(cfg, batches + [batch]);
      exists outs :: Accounts(cfg, a.(published := a.published + batch), b, outs)
  {
    hide Pump;
    assert (batches + [batch])[..|batches|] == batches;
    RunsArePast(cfg, batches);
    RunAllKeeps(cfg, batches);
    var a := RunAll(cfg, batches);
    var outs := PumpAccounts(cfg, Enqueue(a, batch));
    assert Accounts(cfg, a.(published := a.published + batch), RunAll(cfg, batches + [batch]), outs);
  }
}
