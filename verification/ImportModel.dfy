/**
 The import engine as a state machine over values: collectors that wait for named messages, an event
 queue, and the loop that empties it.  `ImportEngine` (ImportEngine.dfy) is the imperative form that
 refines it.

 The main results are in `ImportTheorems` and `ImportHistory`: which collectors have run when the queue is
 empty is a least fixpoint, hence independent of subscription order, publication order and batching; and
 every operation runs at most once, on the latest message each of its requirements accepted.
 */
module ImportModel {

  datatype ImportPath = ImportPath(tag: string, options: string, path: string)

  /** `ModuleEvent` stands for every event a module's own operation publishes. */
  datatype Msg =
    | MotisSuccess
    | FileEvent(paths: seq<ImportPath>)
    | OSMEvent(path: string)
    | CoastlineEvent(path: string)
    | DEMEvent(path: string)
    | ModuleEvent(name: string, detail: string)

  /** What the file importer asks the file system: regular files, and directories holding .hdr/.bil files. */
  datatype FileSystem = FileSystem(isFile: string -> bool, isDem: string -> bool)

  /** An operation publishes messages and then returns or throws; either way they have been published. */
  datatype Outcome = Finished(published: seq<Msg>) | Failed(published: seq<Msg>)

  type Deps = map<string, Msg>

  /** What a collector waits for, and what it does then. */
  datatype Collector = Collector(names: set<string>, op: Deps -> Outcome)

  /** One entry of the dispatcher's importer list: the file importer, or a closure made by `require`. */
  datatype Importer = Files | Waits(c: nat, name: string, matcher: Msg -> bool)

  datatype Config = Config(fs: FileSystem, collectors: seq<Collector>, importers: seq<Importer>)

  datatype CState = CState(dependencies: Deps, waitingFor: set<string>, executed: bool)

  datatype Delivery = Delivery(importer: nat, msg: Msg)

  /** An operation that was started: by whom, on what, and after how many deliveries. */
  datatype OpRun = OpRun(c: nat, deps: Deps, at: nat)

  /** `queue` is the program's state; `published`, `delivered`, `trace` and `runs` record its history. */
  datatype State = State(cs: seq<CState>, queue: seq<Msg>,
                         published: seq<Msg>, delivered: seq<Msg>, trace: seq<Delivery>, runs: seq<OpRun>)

  // ---------------------------------------------------------------- the steps

  function PathsTagged(paths: seq<ImportPath>, tag: string, keep: string -> bool): seq<string> {
    if paths == [] then []
    else (if paths[0].tag == tag && keep(paths[0].path) then [paths[0].path] else [])
         + PathsTagged(paths[1..], tag, keep)
  }

  /** What the file importer publishes for a FileEvent: OSM first, then coastlines, then elevation. */
  function FilePublications(fs: FileSystem, paths: seq<ImportPath>): (r: seq<Msg>)
    ensures forall m | m in r :: !m.FileEvent?
  {
    var osm := PathsTagged(paths, "osm", fs.isFile);
    var coast := PathsTagged(paths, "coastline", fs.isFile);
    var dem := PathsTagged(paths, "dem", fs.isDem);
    seq(|osm|, i requires 0 <= i < |osm| => OSMEvent(osm[i]))
    + seq(|coast|, i requires 0 <= i < |coast| => CoastlineEvent(coast[i]))
    + seq(|dem|, i requires 0 <= i < |dem| => DEMEvent(dem[i]))
  }

  ghost predicate Names(paths: seq<ImportPath>, tag: string, path: string) {
    exists i :: 0 <= i < |paths| && paths[i].tag == tag && paths[i].path == path
  }

  lemma {:induction false} PathsTaggedHas(paths: seq<ImportPath>, tag: string, keep: string -> bool, path: string)
    ensures path in PathsTagged(paths, tag, keep) <==> keep(path) && Names(paths, tag, path)
  {
    if paths != [] {
      PathsTaggedHas(paths[1..], tag, keep, path);
      if Names(paths[1..], tag, path) {
        var i :| 0 <= i < |paths[1..]| && paths[1..][i].tag == tag && paths[1..][i].path == path;
        assert paths[i + 1] == paths[1..][i];
      }
      if Names(paths, tag, path) {
        var i :| 0 <= i < |paths| && paths[i].tag == tag && paths[i].path == path;
        assert i > 0 ==> paths[1..][i - 1] == paths[i];
      }
    }
  }

  ghost predicate Wanted(fs: FileSystem, paths: seq<ImportPath>, m: Msg) {
    match m
    case OSMEvent(p) => fs.isFile(p) && Names(paths, "osm", p)
    case CoastlineEvent(p) => fs.isFile(p) && Names(paths, "coastline", p)
    case DEMEvent(p) => fs.isDem(p) && Names(paths, "dem", p)
    case _ => false
  }

  /** What stands where: street data first, then coastlines, then elevation. */
  lemma {:induction false} PublishedInOrder(fs: FileSystem, paths: seq<ImportPath>, i: nat)
    requires i < |FilePublications(fs, paths)|
    ensures var osm, coast, dem := PathsTagged(paths, "osm", fs.isFile), PathsTagged(paths, "coastline", fs.isFile),
        PathsTagged(paths, "dem", fs.isDem);
      && |FilePublications(fs, paths)| == |osm| + |coast| + |dem|
      && FilePublications(fs, paths)[i] ==
           if i < |osm| then OSMEvent(osm[i])
           else if i < |osm| + |coast| then CoastlineEvent(coast[i - |osm|])
           else DEMEvent(dem[i - |osm| - |coast|])
  {
    hide PathsTagged;
  }

  /** A path becomes an event iff it has the tag of that kind and is a regular file, or a directory with elevation
      data. */
  lemma {:induction false} PublishedIff(fs: FileSystem, paths: seq<ImportPath>, m: Msg)
    ensures m in FilePublications(fs, paths) <==> Wanted(fs, paths, m)
  {
    var osm := PathsTagged(paths, "osm", fs.isFile);
    var coast := PathsTagged(paths, "coastline", fs.isFile);
    var dem := PathsTagged(paths, "dem", fs.isDem);
    var r := FilePublications(fs, paths);
    assert |r| == |osm| + |coast| + |dem|;
    forall i | 0 <= i < |r| { PublishedInOrder(fs, paths, i); }
    hide PathsTagged, FilePublications, Names;
    match m
    case OSMEvent(p) =>
      PathsTaggedHas(paths, "osm", fs.isFile, p);
      if p in osm { var i :| 0 <= i < |osm| && osm[i] == p; assert r[i] == m; }
    case CoastlineEvent(p) =>
      PathsTaggedHas(paths, "coastline", fs.isFile, p);
      if p in coast { var i :| 0 <= i < |coast| && coast[i] == p; assert r[|osm| + i] == m; }
    case DEMEvent(p) =>
      PathsTaggedHas(paths, "dem", fs.isDem, p);
      if p in dem { var i :| 0 <= i < |dem| && dem[i] == p; assert r[|osm| + |coast| + i] == m; }
    case _ =>
  }

  /** Every closure belongs to a collector. */
  predicate Indexed(cfg: Config, st: State) {
    && |st.cs| == |cfg.collectors|
    && forall k | 0 <= k < |cfg.importers| && cfg.importers[k].Waits? :: cfg.importers[k].c < |cfg.collectors|
  }

  /** A status request never reaches a matcher. */
  predicate Accepts(i: Importer, m: Msg)
    requires i.Waits?
  {
    !m.MotisSuccess? && i.matcher(m)
  }

  function Enqueue(st: State, ms: seq<Msg>): State {
    st.(queue := st.queue + ms, published := st.published + ms)
  }

  /** A collector not yet executed takes an accepted message; it starts when it waits for nothing more. */
  function Take(s: CState, name: string, m: Msg): CState {
    var waiting := s.waitingFor - {name};
    CState(s.dependencies[name := m], waiting, waiting == {})
  }

  /** One importer sees one message. */
  function Handle(cfg: Config, st: State, k: nat, m: Msg): (r: State)
    requires Indexed(cfg, st) && k < |cfg.importers|
    ensures |r.cs| == |st.cs|
  {
    var st := st.(trace := st.trace + [Delivery(k, m)]);
    match cfg.importers[k]
    case Files => if m.FileEvent? then Enqueue(st, FilePublications(cfg.fs, m.paths)) else st
    case Waits(c, name, _) =>
      if !Accepts(cfg.importers[k], m) || st.cs[c].executed then st
      else
        var s := Take(st.cs[c], name, m);
        var st1 := st.(cs := st.cs[c := s]);
        if !s.executed then st1
        else Enqueue(st1.(runs := st.runs + [OpRun(c, s.dependencies, |st.trace|)]),
                     cfg.collectors[c].op(s.dependencies).published)
  }

  /** Importers k, k+1, ... see message m in subscription order. */
  function DeliverFrom(cfg: Config, st: State, m: Msg, k: nat): (r: State)
    requires Indexed(cfg, st) && k <= |cfg.importers|
    ensures |r.cs| == |st.cs|
    decreases |cfg.importers| - k
  {
    if k == |cfg.importers| then st else DeliverFrom(cfg, Handle(cfg, st, k, m), m, k + 1)
  }

  function PopFront(st: State): State
    requires st.queue != []
  {
    st.(queue := st.queue[1..], delivered := st.delivered + [st.queue[0]])
  }

  /** The `run` loop.  It terminates for all operations: see DeliverDecreases. */
  function Pump(cfg: Config, st: State): (r: State)
    requires Indexed(cfg, st)
    ensures |r.cs| == |st.cs|
    decreases Unexecuted(st.cs), FileEvents(st.queue), |st.queue|
  {
    if st.queue == [] then st
    else
      DeliverDecreases(cfg, st);
      Pump(cfg, DeliverFrom(cfg, PopFront(st), st.queue[0], 0))
  }

  function Initial(cfg: Config): State {
    State(seq(|cfg.collectors|, c requires 0 <= c < |cfg.collectors| =>
                CState(map[], cfg.collectors[c].names, false)), [], [], [], [], [])
  }

  /** Publish a batch of messages and run; then the next batch; and so on. */
  function RunAll(cfg: Config, batches: seq<seq<Msg>>): (r: State)
    requires Indexed(cfg, Initial(cfg))
    ensures |r.cs| == |cfg.collectors|
  {
    if batches == [] then Initial(cfg)
    else
      var n := |batches| - 1;
      Pump(cfg, Enqueue(RunAll(cfg, batches[..n]), batches[n]))
  }

  // ---------------------------------------------------------------- termination

  function Unexecuted(cs: seq<CState>): nat {
    if cs == [] then 0 else (if cs[0].executed then 0 else 1) + Unexecuted(cs[1..])
  }

  function FileEvents(q: seq<Msg>): nat {
    if q == [] then 0 else (if q[0].FileEvent? then 1 else 0) + FileEvents(q[1..])
  }

  lemma {:induction false} UnexecutedUpdate(cs: seq<CState>, c: nat, s: CState)
    requires c < |cs|
    ensures Unexecuted(cs[c := s]) ==
            Unexecuted(cs) - (if cs[c].executed then 0 else 1) + (if s.executed then 0 else 1)
  {
    if c == 0 {
      assert cs[c := s][1..] == cs[1..];
    } else {
      assert cs[c := s][1..] == cs[1..][c - 1 := s];
      UnexecutedUpdate(cs[1..], c - 1, s);
    }
  }

  lemma {:induction false} FileEventsConcat(p: seq<Msg>, q: seq<Msg>)
    ensures FileEvents(p + q) == FileEvents(p) + FileEvents(q)
  {
    if p == [] {
      assert p + q == q;
    } else {
      assert (p + q)[1..] == p[1..] + q;
      FileEventsConcat(p[1..], q);
    }
  }

  lemma {:induction false} NoFileEvents(q: seq<Msg>)
    requires forall m | m in q :: !m.FileEvent?
    ensures FileEvents(q) == 0
  {
    if q != [] {
      assert q[0] in q;
      NoFileEvents(q[1..]);
    }
  }

  /** Either an operation ran, or only a FileEvent made the queue longer, by messages that are no FileEvents. */
  ghost predicate Progress(st: State, m: Msg, r: State) {
    || Unexecuted(r.cs) < Unexecuted(st.cs)
    || (Unexecuted(r.cs) == Unexecuted(st.cs)
        && FileEvents(r.queue) == FileEvents(st.queue)
        && (!m.FileEvent? ==> r.queue == st.queue))
  }

  lemma {:induction false} HandleProgress(cfg: Config, st: State, m: Msg, k: nat)
    requires Indexed(cfg, st) && k < |cfg.importers|
    ensures Progress(st, m, Handle(cfg, st, k, m))
  {
    var r := Handle(cfg, st, k, m);
    match cfg.importers[k]
    case Files =>
      if m.FileEvent? {
        NoFileEvents(FilePublications(cfg.fs, m.paths));
        FileEventsConcat(st.queue, FilePublications(cfg.fs, m.paths));
      }
    case Waits(c, _, _) =>
      UnexecutedUpdate(st.cs, c, r.cs[c]);
      assert r.cs == st.cs || r.cs == st.cs[c := r.cs[c]];
  }

  lemma {:induction false} DeliverProgress(cfg: Config, st: State, m: Msg, k: nat)
    requires Indexed(cfg, st) && k <= |cfg.importers|
    ensures Progress(st, m, DeliverFrom(cfg, st, m, k))
    decreases |cfg.importers| - k
  {
    if k < |cfg.importers| {
      HandleProgress(cfg, st, m, k);
      DeliverProgress(cfg, Handle(cfg, st, k, m), m, k + 1);
    }
  }

  /** The measure of Pump falls, whatever the operations publish: only the file importer must not publish
      FileEvents, and by FilePublications it does not. */
  lemma {:induction false} DeliverDecreases(cfg: Config, st: State)
    requires Indexed(cfg, st) && st.queue != []
    ensures var r := DeliverFrom(cfg, PopFront(st), st.queue[0], 0);
      || Unexecuted(r.cs) < Unexecuted(st.cs)
      || (Unexecuted(r.cs) == Unexecuted(st.cs) && FileEvents(r.queue) < FileEvents(st.queue))
      || (Unexecuted(r.cs) == Unexecuted(st.cs) && FileEvents(r.queue) == FileEvents(st.queue)
        && |r.queue| < |st.queue|)
  {
    DeliverProgress(cfg, PopFront(st), st.queue[0], 0);
  }
}
