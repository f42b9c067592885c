/**
 What a whole run of the import engine did: who saw which message, and which operation ran on what.
 */
module ImportHistory {
  import opened Wrappers
  import opened ImportModel
  import opened ImportTheorems

  /** The messages importer k has seen, in order. */
  function SeenBy(trace: seq<Delivery>, k: nat): seq<Msg> {
    if trace == [] then []
    else
      var last := trace[|trace| - 1];
      SeenBy(trace[..|trace| - 1], k) + if last.importer == k then [last.msg] else []
  }

  lemma {:induction false} SeenByAppend(trace: seq<Delivery>, d: Delivery, k: nat)
    ensures SeenBy(trace + [d], k) == SeenBy(trace, k) + if d.importer == k then [d.msg] else []
  {
    assert (trace + [d])[..|trace|] == trace;
  }

  /** The latest message that a closure of collector c for `name` has seen and accepted. */
  function LastAccepted(cfg: Config, trace: seq<Delivery>, c: nat, name: string): Option<Msg> {
    if trace == [] then None
    else
      var last := trace[|trace| - 1];
      if TakenFor(cfg, last, c, name) then Some(last.msg) else LastAccepted(cfg, trace[..|trace| - 1], c, name)
  }

  predicate TakenFor(cfg: Config, d: Delivery, c: nat, name: string) {
    d.importer < |cfg.importers| && IsFor(cfg.importers[d.importer], c, name)
      && Accepts(cfg.importers[d.importer], d.msg)
  }

  lemma {:induction false} LastAcceptedAppend(cfg: Config, trace: seq<Delivery>, d: Delivery, c: nat, name: string)
    ensures LastAccepted(cfg, trace + [d], c, name) ==
            if TakenFor(cfg, d, c, name) then Some(d.msg) else LastAccepted(cfg, trace, c, name)
  {
    assert (trace + [d])[..|trace|] == trace;
  }

  /** deps holds, for each of the names, exactly the latest message accepted for it. */
  ghost predicate HoldsLatest(cfg: Config, trace: seq<Delivery>, c: nat, deps: Deps)
    requires c < |cfg.collectors|
  {
    forall name | name in cfg.collectors[c].names ::
      LastAccepted(cfg, trace, c, name) == if name in deps then Some(deps[name]) else None
  }

  /** The run r took place on the latest accepted message of every requirement, all of which had one. */
  ghost predicate RanOnLatest(cfg: Config, trace: seq<Delivery>, r: OpRun) {
    && r.c < |cfg.collectors|
    && r.at <= |trace|
    && r.deps.Keys == cfg.collectors[r.c].names
    && HoldsLatest(cfg, trace[..r.at], r.c, r.deps)
  }

  ghost predicate WaitersHoldLatest(cfg: Config, trace: seq<Delivery>, cs: seq<CState>)
    requires |cs| == |cfg.collectors|
  {
    forall c | 0 <= c < |cs| && !cs[c].executed :: HoldsLatest(cfg, trace, c, cs[c].dependencies)
  }

  predicate HasRun(runs: seq<OpRun>, c: nat) {
    exists i :: 0 <= i < |runs| && runs[i].c == c
  }

  /** No collector runs twice, and `executed` says exactly who has run. */
  ghost predicate RunOnce(runs: seq<OpRun>, cs: seq<CState>) {
    && (forall i, j | 0 <= i < j < |runs| :: runs[i].c != runs[j].c)
    && (forall i | 0 <= i < |runs| :: runs[i].c < |cs|)
    && (forall c | 0 <= c < |cs| :: cs[c].executed == HasRun(runs, c))
  }

  ghost predicate RunsOnLatest(cfg: Config, trace: seq<Delivery>, runs: seq<OpRun>) {
    forall i | 0 <= i < |runs| :: RanOnLatest(cfg, trace, runs[i])
  }

  ghost predicate History(cfg: Config, cs: seq<CState>, trace: seq<Delivery>, runs: seq<OpRun>) {
    && |cs| == |cfg.collectors|
    && WaitersHoldLatest(cfg, trace, cs)
    && RunOnce(runs, cs)
    && RunsOnLatest(cfg, trace, runs)
  }

  lemma {:induction false} HandleHoldsLatest(cfg: Config, st: State, k: nat, m: Msg, c: nat)
    requires Wf(cfg, st.cs) && k < |cfg.importers| && c < |st.cs| && !st.cs[c].executed
    requires HoldsLatest(cfg, st.trace, c, st.cs[c].dependencies)
    ensures HoldsLatest(cfg, st.trace + [Delivery(k, m)], c, Handle(cfg, st, k, m).cs[c].dependencies)
  {
    forall name | name in cfg.collectors[c].names {
      LastAcceptedAppend(cfg, st.trace, Delivery(k, m), c, name);
    }
  }

  lemma {:induction false} HandleRunOnce(cfg: Config, st: State, k: nat, m: Msg)
    requires Indexed(cfg, st) && k < |cfg.importers| && RunOnce(st.runs, st.cs)
    ensures RunOnce(Handle(cfg, st, k, m).runs, Handle(cfg, st, k, m).cs)
  {
    var r := Handle(cfg, st, k, m);
    forall c | 0 <= c < |r.cs| ensures r.cs[c].executed == HasRun(r.runs, c) {
      assert st.cs[c].executed == HasRun(st.runs, c);
      if HasRun(st.runs, c) {
        var i :| 0 <= i < |st.runs| && st.runs[i].c == c;
        assert r.runs[i].c == c;
      } else if r.cs[c].executed {
        assert r.runs[|st.runs|].c == c;
      }
    }
  }

  lemma {:induction false} NewRun(cfg: Config, st: State, k: nat, m: Msg)
    requires Wf(cfg, st.cs) && k < |cfg.importers| && WaitersHoldLatest(cfg, st.trace, st.cs)
    requires |Handle(cfg, st, k, m).runs| > |st.runs|
    ensures var r := Handle(cfg, st, k, m); RanOnLatest(cfg, r.trace, r.runs[|st.runs|])
  {
    var r := Handle(cfg, st, k, m);
    var c := cfg.importers[k].c;
    assert r.trace[..|r.trace|] == st.trace + [Delivery(k, m)];
    HandleHoldsLatest(cfg, st, k, m, c);
    TakeWf(cfg.collectors[c], st.cs[c], cfg.importers[k].name, m);
    assert r.cs[c].dependencies.Keys == cfg.collectors[c].names;
  }

  lemma {:induction false} HandleRunsOnLatest(cfg: Config, st: State, k: nat, m: Msg)
    requires Wf(cfg, st.cs) && k < |cfg.importers|
    requires WaitersHoldLatest(cfg, st.trace, st.cs) && RunsOnLatest(cfg, st.trace, st.runs)
    ensures var r := Handle(cfg, st, k, m); RunsOnLatest(cfg, r.trace, r.runs)
  {
    var r := Handle(cfg, st, k, m);
    assert r.trace == st.trace + [Delivery(k, m)];
    forall i | 0 <= i < |r.runs| ensures RanOnLatest(cfg, r.trace, r.runs[i]) {
      if i < |st.runs| {
        assert RanOnLatest(cfg, st.trace, st.runs[i]);
        assert r.runs[i] == st.runs[i] && r.trace[..r.runs[i].at] == st.trace[..r.runs[i].at];
      } else {
        NewRun(cfg, st, k, m);
      }
    }
  }

  lemma {:induction false} HandleHistory(cfg: Config, st: State, k: nat, m: Msg)
    requires Wf(cfg, st.cs) && k < |cfg.importers| && History(cfg, st.cs, st.trace, st.runs)
    ensures var r := Handle(cfg, st, k, m); History(cfg, r.cs, r.trace, r.runs)
  {
    var r := Handle(cfg, st, k, m);
    HandleRunOnce(cfg, st, k, m);
    HandleRunsOnLatest(cfg, st, k, m);
    assert r.trace == st.trace + [Delivery(k, m)];
    forall c | 0 <= c < |r.cs| && !r.cs[c].executed ensures HoldsLatest(cfg, r.trace, c, r.cs[c].dependencies) {
      HandleHoldsLatest(cfg, st, k, m, c);
    }
  }

  /** Importers before k have seen the message being delivered, the others have not yet. */
  ghost predicate SeenUpTo(cfg: Config, trace: seq<Delivery>, delivered: seq<Msg>, k: nat) {
    forall j: nat | j < |cfg.importers| ::
      if j < k then SeenBy(trace, j) == delivered
      else delivered != [] && SeenBy(trace, j) == delivered[..|delivered| - 1]
  }

  lemma {:induction false} SeenOneMore(cfg: Config, trace: seq<Delivery>, delivered: seq<Msg>, m: Msg, k: nat)
    requires k < |cfg.importers| && SeenUpTo(cfg, trace, delivered, k)
    requires delivered != [] && delivered[|delivered| - 1] == m
    ensures SeenUpTo(cfg, trace + [Delivery(k, m)], delivered, k + 1)
  {
    forall j: nat | j < |cfg.importers| { SeenByAppend(trace, Delivery(k, m), j); }
    assert delivered[..|delivered| - 1] + [m] == delivered;
  }

  lemma {:induction false} DeliverHistory(cfg: Config, st: State, m: Msg, k: nat)
    requires Wf(cfg, st.cs) && k <= |cfg.importers| && History(cfg, st.cs, st.trace, st.runs)
    ensures var r := DeliverFrom(cfg, st, m, k); History(cfg, r.cs, r.trace, r.runs)
    decreases |cfg.importers| - k
  {
    if k < |cfg.importers| {
      HandleHistory(cfg, st, k, m);
      HandleKeeps(cfg, st, m, k);
      DeliverHistory(cfg, Handle(cfg, st, k, m), m, k + 1);
    }
  }

  lemma {:induction false} DeliverSeen(cfg: Config, st: State, m: Msg, k: nat)
    requires Indexed(cfg, st) && k <= |cfg.importers| && SeenUpTo(cfg, st.trace, st.delivered, k)
    requires st.delivered != [] && st.delivered[|st.delivered| - 1] == m
    ensures var r := DeliverFrom(cfg, st, m, k);
      SeenUpTo(cfg, r.trace, r.delivered, |cfg.importers|) && r.delivered == st.delivered
    decreases |cfg.importers| - k
  {
    if k < |cfg.importers| {
      SeenOneMore(cfg, st.trace, st.delivered, m, k);
      DeliverSeen(cfg, Handle(cfg, st, k, m), m, k + 1);
    }
  }

  lemma {:induction false} PumpHistory(cfg: Config, st: State)
    requires Wf(cfg, st.cs) && History(cfg, st.cs, st.trace, st.runs)
        && SeenUpTo(cfg, st.trace, st.delivered, |cfg.importers|)
    ensures var r := Pump(cfg, st);
        History(cfg, r.cs, r.trace, r.runs)
        && SeenUpTo(cfg, r.trace, r.delivered, |cfg.importers|)
    decreases Unexecuted(st.cs), FileEvents(st.queue), |st.queue|
  {
    if st.queue != [] {
      DeliverDecreases(cfg, st);
      assert SeenUpTo(cfg, st.trace, PopFront(st).delivered, 0);
      DeliverKeeps(cfg, PopFront(st), st.queue[0], 0);
      DeliverHistory(cfg, PopFront(st), st.queue[0], 0);
      DeliverSeen(cfg, PopFront(st), st.queue[0], 0);
      PumpHistory(cfg, DeliverFrom(cfg, PopFront(st), st.queue[0], 0));
    }
  }

  lemma {:induction false} RunAllHistory(cfg: Config, batches: seq<seq<Msg>>)
    requires WfConfig(cfg)
    ensures var r := RunAll(cfg, batches);
        History(cfg, r.cs, r.trace, r.runs)
        && SeenUpTo(cfg, r.trace, r.delivered, |cfg.importers|)
    decreases |batches|
  {
    if batches != [] {
      RunAllHistory(cfg, batches[..|batches| - 1]);
      RunAllKeeps(cfg, batches[..|batches| - 1]);
      PumpHistory(cfg, Enqueue(RunAll(cfg, batches[..|batches| - 1]), batches[|batches| - 1]));
    }
  }

  // ---------------------------------------------------------------- main theorems

  /** When the queue is empty, every importer has seen every published message once, in publication order. */
  lemma {:induction false} EveryImporterSeesEverything(cfg: Config, batches: seq<seq<Msg>>, k: nat)
    requires WfConfig(cfg) && k < |cfg.importers|
    ensures var st := RunAll(cfg, batches); SeenBy(st.trace, k) == st.published
  {
    RunAllHistory(cfg, batches);
    RunAllKeeps(cfg, batches);
    RunAllBoundary(cfg, batches);
  }

  /** No operation is started twice, and each is started on the latest accepted message of every requirement. */
  lemma {:induction false} OperationsRunOnceOnLatest(cfg: Config, batches: seq<seq<Msg>>, i: nat)
    requires WfConfig(cfg) && i < |RunAll(cfg, batches).runs|
    ensures var st := RunAll(cfg, batches);
      && RanOnLatest(cfg, st.trace, st.runs[i])
      && st.runs[i].c in ExecutedSet(st)
      && forall j | 0 <= j < |st.runs| && st.runs[j].c == st.runs[i].c :: j == i
  {
    RunAllHistory(cfg, batches);
    var st := RunAll(cfg, batches);
    assert HasRun(st.runs, st.runs[i].c);
  }
}
