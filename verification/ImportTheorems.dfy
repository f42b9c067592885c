/**
 Which collectors have run whenever the event queue has been emptied, over any sequence of published batches.
 */
module ImportTheorems {
  import opened ImportModel

  function Flatten(batches: seq<seq<Msg>>): seq<Msg> {
    if batches == [] then [] else Flatten(batches[..|batches| - 1]) + batches[|batches| - 1]
  }

  ghost function ExecutedSet(st: State): set<nat> {
    set c: nat | c < |st.cs| && st.cs[c].executed
  }

  /** What collector c has published so far. */
  ghost function Published(cfg: Config, st: State, c: nat): seq<Msg>
    requires Indexed(cfg, st) && c < |st.cs|
  {
    if st.cs[c].executed then cfg.collectors[c].op(st.cs[c].dependencies).published else []
  }

  ghost function Publications(cfg: Config, st: State): seq<seq<Msg>>
    requires Indexed(cfg, st)
  {
    seq(|st.cs|, c requires 0 <= c < |st.cs| => Published(cfg, st, c))
  }

  // ---------------------------------------------------------------- the specification

  /** m is published from outside, or by a collector of S. */
  ghost predicate Direct(init: seq<Msg>, pubs: seq<seq<Msg>>, S: set<nat>, m: Msg) {
    m in init || exists c: nat :: c in S && c < |pubs| && m in pubs[c]
  }

  /** m arises if exactly the collectors of S run: directly, or through the file importer. */
  ghost predicate Supplied(cfg: Config, init: seq<Msg>, pubs: seq<seq<Msg>>, S: set<nat>, m: Msg) {
    || Direct(init, pubs, S, m)
    || (Files in cfg.importers
        && exists f: Msg :: Direct(init, pubs, S, f) && f.FileEvent? && m in FilePublications(cfg.fs, f.paths))
  }

  /** Some closure of collector c for `name` accepts a supplied message. */
  ghost predicate Met(cfg: Config, init: seq<Msg>, pubs: seq<seq<Msg>>, S: set<nat>, c: nat, name: string) {
    exists k, m: Msg :: 0 <= k < |cfg.importers| && IsFor(cfg.importers[k], c, name)
      && Accepts(cfg.importers[k], m) && Supplied(cfg, init, pubs, S, m)
  }

  predicate IsFor(i: Importer, c: nat, name: string) {
    i.Waits? && i.c == c && i.name == name
  }

  /** Every collector that waits for something and whose requirements are all met by S is in S. */
  ghost predicate Closed(cfg: Config, init: seq<Msg>, pubs: seq<seq<Msg>>, S: set<nat>) {
    forall c: nat | c < |cfg.collectors| && cfg.collectors[c].names != {} && AllMet(cfg, init, pubs, S, c) :: c in S
  }

  ghost predicate AllMet(cfg: Config, init: seq<Msg>, pubs: seq<seq<Msg>>, S: set<nat>, c: nat)
    requires c < |cfg.collectors|
  {
    forall name | name in cfg.collectors[c].names :: Met(cfg, init, pubs, S, c, name)
  }

  ghost predicate IsLeastClosed(cfg: Config, init: seq<Msg>, pubs: seq<seq<Msg>>, S: set<nat>) {
    && Closed(cfg, init, pubs, S)
    && forall T: set<nat> | Closed(cfg, init, pubs, T) :: S <= T
  }

  // ---------------------------------------------------------------- what every step keeps

  /** Closures name collectors that exist, and wait for names of theirs. */
  ghost predicate WfConfig(cfg: Config) {
    forall k | 0 <= k < |cfg.importers| && cfg.importers[k].Waits? ::
      cfg.importers[k].c < |cfg.collectors| && cfg.importers[k].name in cfg.collectors[cfg.importers[k].c].names
  }

  /** A name is waited for until a message for it is held; whoever waits for nothing more has run. */
  ghost predicate WfCState(col: Collector, s: CState) {
    && (forall name :: name in col.names <==> name in s.dependencies || name in s.waitingFor)
    && (forall name | name in s.dependencies :: name !in s.waitingFor)
    && (s.executed ==> s.waitingFor == {})
    && (s.waitingFor == {} && col.names != {} ==> s.executed)
  }

  ghost predicate Wf(cfg: Config, cs: seq<CState>) {
    && WfConfig(cfg)
    && |cs| == |cfg.collectors|
    && forall c | 0 <= c < |cs| :: WfCState(cfg.collectors[c], cs[c])
  }

  lemma {:induction false} TakeWf(col: Collector, s: CState, name: string, m: Msg)
    requires WfCState(col, s) && name in col.names && !s.executed
    ensures WfCState(col, Take(s, name, m))
  {
    var r := Take(s, name, m);
    forall n ensures n in r.waitingFor <==> n in s.waitingFor && n != name {}
    forall n ensures n in r.dependencies <==> n in s.dependencies || n == name {}
  }

  /** Executed collectors are frozen, dependencies only gain names, published messages stay published. */
  ghost predicate Grows(st: State, st': State) {
    && |st.cs| == |st'.cs|
    && (forall c | 0 <= c < |st.cs| :: GrowsC(st.cs[c], st'.cs[c]))
    && st.published <= st'.published
    && st.delivered <= st'.delivered
  }

  ghost predicate GrowsC(s: CState, s': CState) {
    && (s.executed ==> s' == s)
    && forall name | name in s.dependencies :: name in s'.dependencies
  }

  lemma {:induction false} DeliverKeeps(cfg: Config, st: State, m: Msg, k: nat)
    requires Wf(cfg, st.cs) && k <= |cfg.importers|
    ensures var r := DeliverFrom(cfg, st, m, k); Wf(cfg, r.cs) && Grows(st, r) && r.delivered == st.delivered
    decreases |cfg.importers| - k
  {
    if k < |cfg.importers| {
      HandleKeeps(cfg, st, m, k);
      DeliverKeeps(cfg, Handle(cfg, st, k, m), m, k + 1);
    }
  }

  lemma {:induction false} HandleKeeps(cfg: Config, st: State, m: Msg, k: nat)
    requires Wf(cfg, st.cs) && k < |cfg.importers|
    ensures var r := Handle(cfg, st, k, m); Wf(cfg, r.cs) && Grows(st, r) && r.delivered == st.delivered
  {
    if cfg.importers[k].Waits? && !st.cs[cfg.importers[k].c].executed {
      TakeWf(cfg.collectors[cfg.importers[k].c], st.cs[cfg.importers[k].c], cfg.importers[k].name, m);
    }
  }

  lemma {:induction false} PumpKeeps(cfg: Config, st: State)
    requires Wf(cfg, st.cs)
    ensures var r := Pump(cfg, st); Wf(cfg, r.cs) && Grows(st, r) && r.queue == []
    decreases Unexecuted(st.cs), FileEvents(st.queue), |st.queue|
  {
    if st.queue != [] {
      DeliverDecreases(cfg, st);
      DeliverKeeps(cfg, PopFront(st), st.queue[0], 0);
      PumpKeeps(cfg, DeliverFrom(cfg, PopFront(st), st.queue[0], 0));
    }
  }

  lemma {:induction false} RunAllKeeps(cfg: Config, batches: seq<seq<Msg>>)
    requires WfConfig(cfg)
    ensures Wf(cfg, RunAll(cfg, batches).cs) && RunAll(cfg, batches).queue == []
    decreases |batches|
  {
    if batches != [] {
      RunAllKeeps(cfg, batches[..|batches| - 1]);
      PumpKeeps(cfg, Enqueue(RunAll(cfg, batches[..|batches| - 1]), batches[|batches| - 1]));
    }
  }

  // ---------------------------------------------------------------- soundness: nothing runs without need

  /** Every dependency held by collector c was accepted, and is supplied by T. */
  ghost predicate DepsSound(cfg: Config, init: seq<Msg>, pubs: seq<seq<Msg>>, T: set<nat>, c: nat, deps: Deps) {
    forall name | name in deps :: Met(cfg, init, pubs, T, c, name)
  }

  ghost predicate MsgSound(cfg: Config, init: seq<Msg>, pubs: seq<seq<Msg>>, T: set<nat>, m: Msg) {
    Supplied(cfg, init, pubs, T, m) && (m.FileEvent? ==> Direct(init, pubs, T, m))
  }

  /** Everything that happened so far is forced on the closed set T; pubs are the final publications. */
  ghost predicate SoundFor(cfg: Config, st: State, init: seq<Msg>, pubs: seq<seq<Msg>>, T: set<nat>) {
    && (forall c: nat | c < |st.cs| && st.cs[c].executed :: c in T)
    && (forall m | m in st.queue :: MsgSound(cfg, init, pubs, T, m))
    && (forall c: nat | c < |st.cs| :: DepsSound(cfg, init, pubs, T, c, st.cs[c].dependencies))
  }

  /** What has been published so far is what is recorded in pubs. */
  ghost predicate Agrees(cfg: Config, st: State, pubs: seq<seq<Msg>>)
    requires Indexed(cfg, st)
  {
    |pubs| == |st.cs| && forall c: nat | c < |st.cs| && st.cs[c].executed :: Published(cfg, st, c) == pubs[c]
  }

  lemma {:induction false} AgreesBackwards(cfg: Config, st: State, st': State, pubs: seq<seq<Msg>>)
    requires Indexed(cfg, st) && Indexed(cfg, st') && Grows(st, st') && Agrees(cfg, st', pubs)
    ensures Agrees(cfg, st, pubs)
  {
    forall c: nat | c < |st.cs| && st.cs[c].executed ensures Published(cfg, st, c) == pubs[c] {
      assert st'.cs[c] == st.cs[c] && Published(cfg, st', c) == pubs[c];
    }
  }

  lemma {:induction false} MetByAccepted(cfg: Config, init: seq<Msg>, pubs: seq<seq<Msg>>, T: set<nat>, k: nat, m: Msg)
    requires k < |cfg.importers| && cfg.importers[k].Waits? && Accepts(cfg.importers[k], m)
    requires Supplied(cfg, init, pubs, T, m)
    ensures Met(cfg, init, pubs, T, cfg.importers[k].c, cfg.importers[k].name)
  {
    assert IsFor(cfg.importers[k], cfg.importers[k].c, cfg.importers[k].name);
  }

  lemma {:induction false} FileSound(cfg: Config, init: seq<Msg>, pubs: seq<seq<Msg>>, T: set<nat>, k: nat, m: Msg)
    requires k < |cfg.importers| && cfg.importers[k] == Files && m.FileEvent? && Direct(init, pubs, T, m)
    ensures forall x | x in FilePublications(cfg.fs, m.paths) :: MsgSound(cfg, init, pubs, T, x)
  {
    assert cfg.importers[k] in cfg.importers;
  }

  lemma {:induction false} PublishedSound(cfg: Config, init: seq<Msg>, pubs: seq<seq<Msg>>, T: set<nat>, c: nat)
    requires c in T && c < |pubs|
    ensures forall x | x in pubs[c] :: MsgSound(cfg, init, pubs, T, x)
  {
    forall x | x in pubs[c] ensures Direct(init, pubs, T, x) {}
  }

  lemma {:induction false} HandleSound(cfg: Config, st: State, k: nat, m: Msg, init: seq<Msg>, pubs: seq<seq<Msg>>,
                                       T: set<nat>)
    requires Wf(cfg, st.cs) && k < |cfg.importers| && SoundFor(cfg, st, init, pubs, T)
    requires Closed(cfg, init, pubs, T) && MsgSound(cfg, init, pubs, T, m)
    requires Agrees(cfg, Handle(cfg, st, k, m), pubs)
    ensures SoundFor(cfg, Handle(cfg, st, k, m), init, pubs, T)
  {
    var r := Handle(cfg, st, k, m);
    match cfg.importers[k]
    case Files =>
      if m.FileEvent? { FileSound(cfg, init, pubs, T, k, m); }
    case Waits(c, name, _) =>
      if Accepts(cfg.importers[k], m) && !st.cs[c].executed {
        MetByAccepted(cfg, init, pubs, T, k, m);
        assert DepsSound(cfg, init, pubs, T, c, st.cs[c].dependencies);
        assert DepsSound(cfg, init, pubs, T, c, r.cs[c].dependencies);
        if r.cs[c].executed {
          TakeWf(cfg.collectors[c], st.cs[c], name, m);
          assert AllMet(cfg, init, pubs, T, c);
          assert Published(cfg, r, c) == pubs[c];
          PublishedSound(cfg, init, pubs, T, c);
        }
      }
  }

  lemma {:induction false} HandleAgrees(cfg: Config, st: State, m: Msg, k: nat, pubs: seq<seq<Msg>>)
    requires Wf(cfg, st.cs) && k < |cfg.importers|
    requires Agrees(cfg, DeliverFrom(cfg, st, m, k), pubs)
    ensures Agrees(cfg, Handle(cfg, st, k, m), pubs)
  {
    var st1 := Handle(cfg, st, k, m);
    HandleKeeps(cfg, st, m, k);
    DeliverKeeps(cfg, st1, m, k + 1);
    AgreesBackwards(cfg, st1, DeliverFrom(cfg, st1, m, k + 1), pubs);
  }

  lemma {:induction false} DeliverSound(cfg: Config, st: State, m: Msg, k: nat, init: seq<Msg>, pubs: seq<seq<Msg>>,
                                        T: set<nat>)
    requires Wf(cfg, st.cs) && k <= |cfg.importers| && SoundFor(cfg, st, init, pubs, T)
    requires Closed(cfg, init, pubs, T) && MsgSound(cfg, init, pubs, T, m)
    requires Agrees(cfg, DeliverFrom(cfg, st, m, k), pubs)
    ensures SoundFor(cfg, DeliverFrom(cfg, st, m, k), init, pubs, T)
    decreases |cfg.importers| - k
  {
    if k < |cfg.importers| {
      var st1 := Handle(cfg, st, k, m);
      HandleKeeps(cfg, st, m, k);
      HandleAgrees(cfg, st, m, k, pubs);
      HandleSound(cfg, st, k, m, init, pubs, T);
      DeliverSound(cfg, st1, m, k + 1, init, pubs, T);
    }
  }

  lemma {:induction false} PumpSound(cfg: Config, st: State, init: seq<Msg>, pubs: seq<seq<Msg>>, T: set<nat>)
    requires Wf(cfg, st.cs) && SoundFor(cfg, st, init, pubs, T)
    requires Closed(cfg, init, pubs, T)
    requires Agrees(cfg, Pump(cfg, st), pubs)
    ensures SoundFor(cfg, Pump(cfg, st), init, pubs, T)
    decreases Unexecuted(st.cs), FileEvents(st.queue), |st.queue|
  {
    if st.queue != [] {
      DeliverDecreases(cfg, st);
      var p, m := PopFront(st), st.queue[0];
      var st1 := DeliverFrom(cfg, p, m, 0);
      assert m in st.queue;
      DeliverKeeps(cfg, p, m, 0);
      PumpKeeps(cfg, st1);
      AgreesBackwards(cfg, st1, Pump(cfg, st1), pubs);
      assert SoundFor(cfg, p, init, pubs, T);
      DeliverSound(cfg, p, m, 0, init, pubs, T);
      PumpSound(cfg, st1, init, pubs, T);
    }
  }

  lemma {:induction false} RunAllSound(cfg: Config, batches: seq<seq<Msg>>, init: seq<Msg>, pubs: seq<seq<Msg>>,
                                       T: set<nat>)
    requires WfConfig(cfg) && Closed(cfg, init, pubs, T)
    requires forall m | m in Flatten(batches) :: m in init
    requires Agrees(cfg, RunAll(cfg, batches), pubs)
    ensures SoundFor(cfg, RunAll(cfg, batches), init, pubs, T)
    decreases |batches|
  {
    if batches != [] {
      var n := |batches| - 1;
      var st := RunAll(cfg, batches[..n]);
      var st1 := Enqueue(st, batches[n]);
      RunAllKeeps(cfg, batches[..n]);
      PumpKeeps(cfg, st1);
      AgreesBackwards(cfg, st1, Pump(cfg, st1), pubs);
      assert Agrees(cfg, st, pubs) by { AgreesBackwards(cfg, st, st1, pubs); }
      RunAllSound(cfg, batches[..n], init, pubs, T);
      assert SoundFor(cfg, st1, init, pubs, T);
      PumpSound(cfg, st1, init, pubs, T);
    }
  }

  // ---------------------------------------------------------------- completeness: nothing that could run waits

  /** Importer j has dealt with message m. */
  ghost predicate Done(cfg: Config, st: State, m: Msg, j: nat)
    requires Indexed(cfg, st) && j < |cfg.importers|
  {
    match cfg.importers[j]
    case Files => m.FileEvent? ==> forall x | x in FilePublications(cfg.fs, m.paths) :: x in st.published
    case Waits(c, name, _) => Accepts(cfg.importers[j], m) ==> name in st.cs[c].dependencies
  }

  ghost predicate PublishedAll(cfg: Config, st: State)
    requires Indexed(cfg, st)
  {
    forall c: nat, m | c < |st.cs| && m in Published(cfg, st, c) :: m in st.published
  }

  lemma {:induction false} DoneGrows(cfg: Config, st: State, st': State, m: Msg, j: nat)
    requires Indexed(cfg, st) && Indexed(cfg, st') && Grows(st, st') && j < |cfg.importers| && Done(cfg, st, m, j)
    ensures Done(cfg, st', m, j)
  {
    forall x | x in st.published ensures x in st'.published {}
    match cfg.importers[j]
    case Files =>
    case Waits(c, name, _) => assert GrowsC(st.cs[c], st'.cs[c]);
  }

  /** What was published on the way from st to r stands at the end of r's queue. */
  ghost predicate Appends(st: State, r: State) {
    st.queue <= r.queue && r.published == st.published + r.queue[|st.queue|..]
  }

  lemma {:induction false} AppendsTransitive(a: State, b: State, c: State)
    requires Appends(a, b) && Appends(b, c)
    ensures Appends(a, c)
  {
    assert c.queue[|a.queue|..] == b.queue[|a.queue|..] + c.queue[|b.queue|..];
  }

  lemma {:induction false} HandlePublishes(cfg: Config, st: State, m: Msg, k: nat)
    requires Wf(cfg, st.cs) && k < |cfg.importers| && PublishedAll(cfg, st)
    ensures var r := Handle(cfg, st, k, m); PublishedAll(cfg, r) && Appends(st, r)
  {
    var r := Handle(cfg, st, k, m);
    forall c: nat, x | c < |r.cs| && x in Published(cfg, r, c) ensures x in r.published {
      if st.cs[c].executed {
        assert r.cs[c] == st.cs[c] && x in Published(cfg, st, c);
      }
    }
  }

  lemma {:induction false} HandleDone(cfg: Config, st: State, m: Msg, k: nat)
    requires Wf(cfg, st.cs) && k < |cfg.importers|
    ensures Done(cfg, Handle(cfg, st, k, m), m, k)
  {
    if cfg.importers[k].Waits? {
      assert WfCState(cfg.collectors[cfg.importers[k].c], st.cs[cfg.importers[k].c]);
    }
  }

  lemma {:induction false} DeliverPublishes(cfg: Config, st: State, m: Msg, k: nat)
    requires Wf(cfg, st.cs) && k <= |cfg.importers| && PublishedAll(cfg, st)
    ensures var r := DeliverFrom(cfg, st, m, k); PublishedAll(cfg, r) && Appends(st, r)
    decreases |cfg.importers| - k
  {
    if k < |cfg.importers| {
      var st1 := Handle(cfg, st, k, m);
      HandleKeeps(cfg, st, m, k);
      HandlePublishes(cfg, st, m, k);
      DeliverPublishes(cfg, st1, m, k + 1);
      AppendsTransitive(st, st1, DeliverFrom(cfg, st1, m, k + 1));
    }
  }

  lemma {:induction false} DeliverDone(cfg: Config, st: State, m: Msg, k: nat, j: nat)
    requires Wf(cfg, st.cs) && k <= j < |cfg.importers|
    ensures Done(cfg, DeliverFrom(cfg, st, m, k), m, j)
    decreases |cfg.importers| - k
  {
    var st1 := Handle(cfg, st, k, m);
    HandleKeeps(cfg, st, m, k);
    if k == j {
      HandleDone(cfg, st, m, k);
      DeliverKeeps(cfg, st1, m, k + 1);
      DoneGrows(cfg, st1, DeliverFrom(cfg, st1, m, k + 1), m, j);
    } else {
      DeliverDone(cfg, st1, m, k + 1, j);
    }
  }

  /** Between two messages: the queue is what is published and not yet delivered, and delivered means dealt with. */
  ghost predicate Boundary(cfg: Config, st: State)
    requires Indexed(cfg, st)
  {
    && st.published == st.delivered + st.queue
    && PublishedAll(cfg, st)
    && forall m, j: nat | m in st.delivered && j < |cfg.importers| :: Done(cfg, st, m, j)
  }

  /** Taking a message off the queue undoes nothing that has been published. */
  lemma {:induction false} PopKeepsPublished(cfg: Config, st: State)
    requires Wf(cfg, st.cs) && PublishedAll(cfg, st) && st.queue != []
    ensures PublishedAll(cfg, PopFront(st))
  {
    var p := PopFront(st);
    forall c: nat, x | c < |p.cs| && x in Published(cfg, p, c) ensures x in p.published {
      assert x in Published(cfg, st, c);
    }
  }

  lemma {:induction false} DeliverBoundary(cfg: Config, st: State)
    requires Wf(cfg, st.cs) && Boundary(cfg, st) && st.queue != []
    ensures Boundary(cfg, DeliverFrom(cfg, PopFront(st), st.queue[0], 0))
  {
    hide DeliverFrom, Handle, Done, PublishedAll, Published;
    var p, m := PopFront(st), st.queue[0];
    var r := DeliverFrom(cfg, p, m, 0);
    PopKeepsPublished(cfg, st);
    DeliverPublishes(cfg, p, m, 0);
    DeliverKeeps(cfg, p, m, 0);
    assert r.published == r.delivered + r.queue by {
      assert st.queue == [m] + p.queue;
      assert r.queue == p.queue + r.queue[|p.queue|..];
    }
    forall x, j: nat | x in r.delivered && j < |cfg.importers| ensures Done(cfg, r, x, j) {
      if x == m {
        DeliverDone(cfg, p, m, 0, j);
      } else {
        assert Done(cfg, st, x, j);
        DoneGrows(cfg, st, r, x, j);
      }
    }
  }

  lemma {:induction false} PumpBoundary(cfg: Config, st: State)
    requires Wf(cfg, st.cs) && Boundary(cfg, st)
    ensures Boundary(cfg, Pump(cfg, st))
    decreases Unexecuted(st.cs), FileEvents(st.queue), |st.queue|
  {
    if st.queue != [] {
      DeliverDecreases(cfg, st);
      DeliverKeeps(cfg, PopFront(st), st.queue[0], 0);
      DeliverBoundary(cfg, st);
      PumpBoundary(cfg, DeliverFrom(cfg, PopFront(st), st.queue[0], 0));
    }
  }

  lemma {:induction false} EnqueueBoundary(cfg: Config, st: State, ms: seq<Msg>)
    requires Indexed(cfg, st) && Boundary(cfg, st)
    ensures Boundary(cfg, Enqueue(st, ms))
  {
    var st1 := Enqueue(st, ms);
    forall m, j: nat | m in st1.delivered && j < |cfg.importers| ensures Done(cfg, st1, m, j) {
      assert Done(cfg, st, m, j);
      DoneGrows(cfg, st, st1, m, j);
    }
    forall c: nat, x | c < |st1.cs| && x in Published(cfg, st1, c) ensures x in st1.published {
      assert x in Published(cfg, st, c);
    }
  }

  lemma {:induction false} RunAllBoundary(cfg: Config, batches: seq<seq<Msg>>)
    requires WfConfig(cfg)
    ensures var st := RunAll(cfg, batches);
      Boundary(cfg, st) && forall m | m in Flatten(batches) :: m in st.published
    decreases |batches|
  {
    if batches != [] {
      var n := |batches| - 1;
      var st := RunAll(cfg, batches[..n]);
      RunAllBoundary(cfg, batches[..n]);
      RunAllKeeps(cfg, batches[..n]);
      var st1 := Enqueue(st, batches[n]);
      EnqueueBoundary(cfg, st, batches[n]);
      PumpBoundary(cfg, st1);
      PumpKeeps(cfg, st1);
      forall m | m in Flatten(batches) ensures m in Pump(cfg, st1).published {
        assert m in st1.published;
      }
    }
  }

  lemma {:induction false} SuppliedIsDelivered(cfg: Config, st: State, init: seq<Msg>, m: Msg)
    requires Indexed(cfg, st) && Boundary(cfg, st) && st.queue == []
    requires forall x | x in init :: x in st.published
    requires Supplied(cfg, init, Publications(cfg, st), ExecutedSet(st), m)
    ensures m in st.delivered
  {
    var pubs, E := Publications(cfg, st), ExecutedSet(st);
    assert st.published == st.delivered;
    forall x | Direct(init, pubs, E, x) ensures x in st.delivered {
      if x !in init {
        var c: nat :| c in E && c < |pubs| && x in pubs[c];
        assert x in Published(cfg, st, c);
      }
    }
    if !Direct(init, pubs, E, m) {
      var f: Msg :| Direct(init, pubs, E, f) && f.FileEvent? && m in FilePublications(cfg.fs, f.paths);
      var j :| 0 <= j < |cfg.importers| && cfg.importers[j] == Files;
      assert Done(cfg, st, f, j);
    }
  }

  // ---------------------------------------------------------------- main theorems

  lemma {:induction false} ExecutedIsClosed(cfg: Config, batches: seq<seq<Msg>>)
    requires WfConfig(cfg)
    ensures var st := RunAll(cfg, batches); Closed(cfg, Flatten(batches), Publications(cfg, st), ExecutedSet(st))
  {
    var st := RunAll(cfg, batches);
    var init, pubs, E := Flatten(batches), Publications(cfg, st), ExecutedSet(st);
    RunAllBoundary(cfg, batches);
    RunAllKeeps(cfg, batches);
    forall c: nat | c < |cfg.collectors| && cfg.collectors[c].names != {} && AllMet(cfg, init, pubs, E, c)
      ensures c in E
    {
      forall name | name in cfg.collectors[c].names ensures name in st.cs[c].dependencies {
        assert Met(cfg, init, pubs, E, c, name);
        var k, m: Msg :| 0 <= k < |cfg.importers| && IsFor(cfg.importers[k], c, name)
                         && Accepts(cfg.importers[k], m) && Supplied(cfg, init, pubs, E, m);
        SuppliedIsDelivered(cfg, st, init, m);
        assert Done(cfg, st, m, k);
      }
      assert WfCState(cfg.collectors[c], st.cs[c]);
    }
  }

  /** When the queue is empty, exactly the collectors of the least closed set have run. */
  lemma {:induction false} ExecutedIsLeastClosed(cfg: Config, batches: seq<seq<Msg>>)
    requires WfConfig(cfg)
    ensures var st := RunAll(cfg, batches);
      IsLeastClosed(cfg, Flatten(batches), Publications(cfg, st), ExecutedSet(st))
  {
    var st := RunAll(cfg, batches);
    var init, pubs := Flatten(batches), Publications(cfg, st);
    ExecutedIsClosed(cfg, batches);
    forall T: set<nat> | Closed(cfg, init, pubs, T) ensures ExecutedSet(st) <= T {
      RunAllSound(cfg, batches, init, pubs, T);
    }
  }

  /** Collector c publishes the same messages whatever its dependencies hold. */
  ghost predicate FixedPublications(cfg: Config, pubs: seq<seq<Msg>>) {
    |pubs| == |cfg.collectors|
    && forall c: nat, d: Deps | c < |pubs| :: cfg.collectors[c].op(d).published == pubs[c]
  }

  /** If everything S supplies in one setting is supplied by it in the other, closedness carries over. */
  lemma {:induction false} ClosedBySupply(cfg: Config, cfg': Config, init: seq<Msg>, pubs: seq<seq<Msg>>,
                       init': seq<Msg>, pubs': seq<seq<Msg>>, S: set<nat>)
    requires cfg.collectors == cfg'.collectors
    requires forall i | i in cfg'.importers :: i in cfg.importers
    requires forall m: Msg | Supplied(cfg', init', pubs', S, m) :: Supplied(cfg, init, pubs, S, m)
    requires Closed(cfg, init, pubs, S)
    ensures Closed(cfg', init', pubs', S)
  {
    forall c: nat, name | Met(cfg', init', pubs', S, c, name)
      ensures Met(cfg, init, pubs, S, c, name)
    {
      var k', m: Msg :| 0 <= k' < |cfg'.importers| && IsFor(cfg'.importers[k'], c, name)
                        && Accepts(cfg'.importers[k'], m) && Supplied(cfg', init', pubs', S, m);
      assert cfg'.importers[k'] in cfg'.importers;
      var k :| 0 <= k < |cfg.importers| && cfg.importers[k] == cfg'.importers[k'];
      assert IsFor(cfg.importers[k], c, name);
    }
    forall c: nat | c < |cfg'.collectors| && cfg'.collectors[c].names != {} && AllMet(cfg', init', pubs', S, c)
      ensures c in S
    {
      assert AllMet(cfg, init, pubs, S, c);
    }
  }

  lemma {:induction false} LeastForFixed(cfg: Config, batches: seq<seq<Msg>>, pubs: seq<seq<Msg>>)
    requires WfConfig(cfg) && FixedPublications(cfg, pubs)
    ensures IsLeastClosed(cfg, Flatten(batches), pubs, ExecutedSet(RunAll(cfg, batches)))
  {
    ExecutedIsLeastClosed(cfg, batches);
    var st, init := RunAll(cfg, batches), Flatten(batches);
    var actual, E := Publications(cfg, st), ExecutedSet(st);
    assert forall c: nat | c < |actual| :: actual[c] == if c in E then pubs[c] else [];
    forall m: Msg | Supplied(cfg, init, pubs, E, m) ensures Supplied(cfg, init, actual, E, m) {
      assert forall x: Msg | Direct(init, pubs, E, x) :: Direct(init, actual, E, x);
    }
    ClosedBySupply(cfg, cfg, init, actual, init, pubs, E);
    forall T: set<nat> | Closed(cfg, init, pubs, T) ensures E <= T {
      forall m: Msg | Supplied(cfg, init, actual, T, m) ensures Supplied(cfg, init, pubs, T, m) {
        assert forall x: Msg | Direct(init, actual, T, x) :: Direct(init, pubs, T, x);
      }
      ClosedBySupply(cfg, cfg, init, pubs, init, actual, T);
    }
  }

  lemma {:induction false} ClosedOrderIndependent(cfg: Config, cfg': Config, init: seq<Msg>, init': seq<Msg>,
                                                  pubs: seq<seq<Msg>>, S: set<nat>)
    requires cfg.fs == cfg'.fs && cfg.collectors == cfg'.collectors
    requires multiset(cfg.importers) == multiset(cfg'.importers) && multiset(init) == multiset(init')
    requires Closed(cfg, init, pubs, S)
    ensures Closed(cfg', init', pubs, S)
  {
    forall i | i in cfg'.importers ensures i in cfg.importers {
      assert i in multiset(cfg'.importers);
    }
    forall m: Msg | Supplied(cfg', init', pubs, S, m) ensures Supplied(cfg, init, pubs, S, m) {
      forall x | x in init' ensures x in init { assert x in multiset(init'); }
      assert forall x: Msg | Direct(init', pubs, S, x) :: Direct(init, pubs, S, x);
    }
    ClosedBySupply(cfg, cfg', init, pubs, init', pubs, S);
  }

  /** Subscription order, publication order and batching do not matter for which collectors run. */
  lemma {:induction false} OrderIndependence(cfg: Config, cfg': Config, batches: seq<seq<Msg>>,
                                             batches': seq<seq<Msg>>, pubs: seq<seq<Msg>>)
    requires WfConfig(cfg) && WfConfig(cfg') && FixedPublications(cfg, pubs)
    requires cfg.fs == cfg'.fs && cfg.collectors == cfg'.collectors
    requires multiset(cfg.importers) == multiset(cfg'.importers)
    requires multiset(Flatten(batches)) == multiset(Flatten(batches'))
    ensures ExecutedSet(RunAll(cfg, batches)) == ExecutedSet(RunAll(cfg', batches'))
  {
    LeastForFixed(cfg, batches, pubs);
    LeastForFixed(cfg', batches', pubs);
    var init, init' := Flatten(batches), Flatten(batches');
    ClosedOrderIndependent(cfg, cfg', init, init', pubs, ExecutedSet(RunAll(cfg, batches)));
    ClosedOrderIndependent(cfg', cfg, init', init, pubs, ExecutedSet(RunAll(cfg', batches')));
  }

  // Two street files, and a collector that asks for more only if the first one it gets is "a".

  const GO := ModuleEvent("GO", "")

  function Choice(d: Deps): seq<Msg> {
    if "OSM" in d && d["OSM"] == OSMEvent("a") then [GO] else []
  }

  function Chooser(): Config {
    Config(FileSystem(p => false, p => false),
           [Collector({"OSM"}, d => Finished(Choice(d))), Collector({"GO"}, d => Finished([]))],
           [Waits(0, "OSM", (m: Msg) => m.OSMEvent?), Waits(1, "GO", (m: Msg) => m.ModuleEvent?)])
  }

  lemma {:induction false} SeenByBoth(st: State, m: Msg)
    requires Indexed(Chooser(), st)
    ensures DeliverFrom(Chooser(), st, m, 0) == Handle(Chooser(), Handle(Chooser(), st, 0, m), 1, m)
  {
    var st1 := Handle(Chooser(), st, 0, m);
    hide Handle;
    assert DeliverFrom(Chooser(), st1, m, 1) == DeliverFrom(Chooser(), Handle(Chooser(), st1, 1, m), m, 2);
  }

  const WAITING := [CState(map[], {"OSM"}, false), CState(map[], {"GO"}, false)]

  /** The first street file starts the first collector. */
  lemma {:induction false} FirstFileTaken(st: State, path: string)
    requires st.cs == WAITING
    ensures var m := OSMEvent(path); var r := DeliverFrom(Chooser(), st, m, 0);
      r.cs == [CState(map["OSM" := m], {}, true), WAITING[1]] && r.queue == st.queue + Choice(map["OSM" := m])
  {
    SeenByBoth(st, OSMEvent(path));
    assert {"OSM"} - {"OSM"} == {};
  }

  lemma {:induction false} NextFileIgnored(st: State, path: string)
    requires |st.cs| == 2 && st.cs[0].executed
    ensures var r := DeliverFrom(Chooser(), st, OSMEvent(path), 0); r.cs == st.cs && r.queue == st.queue
  {
    SeenByBoth(st, OSMEvent(path));
  }

  lemma {:induction false} GoTaken(st: State)
    requires |st.cs| == 2 && st.cs[1] == WAITING[1]
    ensures var r := DeliverFrom(Chooser(), st, GO, 0);
        |r.cs| == 2 && r.cs[0] == st.cs[0] && r.cs[1].executed
        && r.queue == st.queue
  {
    SeenByBoth(st, GO);
    assert {"GO"} - {"GO"} == {};
  }

  /** What two street files leave to do. */
  lemma {:induction false} TwoFilesTaken(p: string, q: string) returns (st: State)
    ensures var start := Enqueue(Initial(Chooser()), [OSMEvent(p), OSMEvent(q)]);
      Indexed(Chooser(), start) && Indexed(Chooser(), st) && Pump(Chooser(), start) == Pump(Chooser(), st)
    ensures st.cs == [CState(map["OSM" := OSMEvent(p)], {}, true), WAITING[1]]
    ensures st.queue == Choice(map["OSM" := OSMEvent(p)])
  {
    var start := Enqueue(Initial(Chooser()), [OSMEvent(p), OSMEvent(q)]);
    assert Initial(Chooser()).cs == WAITING;
    FirstFileTaken(PopFront(start), p);
    var st1 := DeliverFrom(Chooser(), PopFront(start), OSMEvent(p), 0);
    NextFileIgnored(PopFront(st1), q);
    st := DeliverFrom(Chooser(), PopFront(st1), OSMEvent(q), 0);
    hide DeliverFrom, Choice;
    assert Pump(Chooser(), start) == Pump(Chooser(), st1) == Pump(Chooser(), st);
  }

  /** After two street files, the second collector has run iff the first file was "a". */
  lemma {:induction false} FirstFileDecides(p: string, q: string)
    ensures WfConfig(Chooser())
    ensures ExecutedSet(RunAll(Chooser(), [[OSMEvent(p), OSMEvent(q)]])) == if p == "a" then {0, 1} else {0}
  {
    var cfg, batch := Chooser(), [OSMEvent(p), OSMEvent(q)];
    var st := TwoFilesTaken(p, q);
    RunOne(cfg, batch);
    hide DeliverFrom, RunAll;
    if p == "a" {
      GoTaken(PopFront(st));
      assert Pump(cfg, st) == DeliverFrom(cfg, PopFront(st), GO, 0);
    } else {
      assert Pump(cfg, st) == st;
    }
  }

  lemma {:induction false} RunOne(cfg: Config, batch: seq<Msg>)
    requires Indexed(cfg, Initial(cfg))
    ensures RunAll(cfg, [batch]) == Pump(cfg, Enqueue(Initial(cfg), batch))
  {
    hide Pump;
    assert [batch][..0] == [];
  }

  /** Where what is published depends on what was gathered, the order of publication decides which collectors run. */
  lemma {:induction false} OrderMatters()
    ensures var a, b := OSMEvent("a"), OSMEvent("b");
      && WfConfig(Chooser()) && multiset(Flatten([[a, b]])) == multiset(Flatten([[b, a]]))
      && ExecutedSet(RunAll(Chooser(), [[a, b]])) == {0, 1} && ExecutedSet(RunAll(Chooser(), [[b, a]])) == {0}
      && forall pubs :: !FixedPublications(Chooser(), pubs)
  {
    var a, b := OSMEvent("a"), OSMEvent("b");
    FirstFileDecides("a", "b");
    FirstFileDecides("b", "a");
    hide RunAll, ExecutedSet;
    forall pubs ensures !FixedPublications(Chooser(), pubs) {
      assert Chooser().collectors[0].op(map["OSM" := a]).published == [GO];
      assert Chooser().collectors[0].op(map[]).published == [];
    }
    FlattenOne([a, b]);
    FlattenOne([b, a]);
  }

  lemma {:induction false} FlattenOne(batch: seq<Msg>)
    ensures Flatten([batch]) == batch
  {
    assert [batch][..0] == [] && Flatten([]) == [];
  }
}
