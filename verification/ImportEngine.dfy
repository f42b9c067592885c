/**
 The import engine as the program has it: collectors whose fields the subscription closures update, and a
 dispatcher whose `Run` loop erases the front of the queue while importers append to it.  The ghost fields
 `cfg` and `st` of the dispatcher are its configuration and state in the sense of `ImportModel`.
 */
module ImportEngine {
  import opened ImportModel
  import opened ImportTheorems

  /** A subscribed callback: the file importer, or the closure made by one `Require` call. */
  datatype Callback = FileCallback | CollectorCallback(collector: EventCollector, name: string, matcher: Msg -> bool)

  ghost function WithCollector(cfg: Config, op: Deps -> Outcome): Config {
    cfg.(collectors := cfg.collectors + [Collector({}, op)])
  }

  ghost function WithRequirement(cfg: Config, c: nat, name: string, matcher: Msg -> bool): Config
    requires c < |cfg.collectors|
  {
    cfg.(collectors := cfg.collectors[c := cfg.collectors[c].(names := cfg.collectors[c].names + {name})],
         importers := cfg.importers + [Waits(c, name, matcher)])
  }

  lemma {:induction false} WithRequirementWf(cfg: Config, c: nat, name: string, matcher: Msg -> bool)
    requires WfConfig(cfg) && c < |cfg.collectors|
    ensures var r := WithRequirement(cfg, c, name, matcher);
      && Wf(r, Initial(r).cs)
      && Initial(r).cs == Initial(cfg).cs[c := CState(map[], cfg.collectors[c].names + {name}, false)]
  {
    var r := WithRequirement(cfg, c, name, matcher);
    assert Initial(r).cs == Initial(cfg).cs[c := CState(map[], cfg.collectors[c].names + {name}, false)];
  }

  class EventCollector {
    ghost const id: nat  // position among the dispatcher's collectors
    const op: Deps -> Outcome
    var matchers: map<string, Msg -> bool>
    var dependencies: Deps
    var waitingFor: set<string>
    var executed: bool

    constructor (reg: ImportDispatcher, op: Deps -> Outcome)
      requires reg.Valid() && reg.st == Initial(reg.cfg)
      modifies reg
      ensures fresh(this) && reg.Valid() && reg.st == Initial(reg.cfg)
      ensures reg.cfg == WithCollector(old(reg.cfg), op) && reg.collectors == old(reg.collectors) + [this]
      ensures id == |old(reg.collectors)| && this.op == op && matchers == map[]
    {
      id := |reg.collectors|;
      this.op := op;
      matchers, dependencies, waitingFor, executed := map[], map[], {}, false;
      new;
      reg.collectors := reg.collectors + [this];
      reg.cfg := WithCollector(reg.cfg, op);
      reg.st := Initial(reg.cfg);
    }

    ghost function Config(): Collector
      reads this
    {
      Collector(matchers.Keys, op)
    }

    ghost predicate Mirrors(i: nat, col: Collector, s: CState)
      reads this
    {
      id == i && Config() == col && CurrentState() == s
    }

    ghost function CurrentState(): CState
      reads this
    {
      CState(dependencies, waitingFor, executed)
    }

    /** `emplace` keeps the matcher of an earlier requirement of the same name; the new closure then uses that one. */
    method Require(reg: ImportDispatcher, name: string, matcher: Msg -> bool)
      requires reg.Valid() && reg.st == Initial(reg.cfg) && this in reg.collectors
      modifies this, reg
      ensures reg.Valid() && reg.st == Initial(reg.cfg) && reg.collectors == old(reg.collectors)
      ensures matchers == if name in old(matchers) then old(matchers) else old(matchers)[name := matcher]
      ensures reg.cfg == WithRequirement(old(reg.cfg), id, name, matchers[name])
    {
      assert reg.collectors[id] == this;
      if name !in matchers {
        matchers := matchers[name := matcher];
      }
      WithRequirementWf(reg.cfg, id, name, matchers[name]);
      waitingFor := waitingFor + {name};
      reg.Subscribe(CollectorCallback(this, name, matchers[name]));
      reg.cfg := WithRequirement(reg.cfg, id, name, matchers[name]);
      reg.st := Initial(reg.cfg);
      assert matchers.Keys == old(matchers.Keys) + {name};
      forall i | 0 <= i < |reg.collectors|
        ensures reg.collectors[i].Mirrors(i, reg.cfg.collectors[i], reg.st.cs[i])
      {
        assert old(reg.collectors[i].Mirrors(i, reg.cfg.collectors[i], reg.st.cs[i]));
      }
    }

    /** The body of the closure subscribed by `Require`.  An operation that throws has published a prefix. */
    method OnMessage(reg: ImportDispatcher, name: string, matcher: Msg -> bool, msg: Msg)
      modifies this`dependencies, this`waitingFor, this`executed, reg`publishQueue
      ensures
        if msg.MotisSuccess? || !matcher(msg) || old(executed) then
          CurrentState() == old(CurrentState()) && reg.publishQueue == old(reg.publishQueue)
        else
          && CurrentState() == Take(old(CurrentState()), name, msg)
          && reg.publishQueue == old(reg.publishQueue) + if executed then op(dependencies).published else []
    {
      if msg.MotisSuccess? {
        return;
      }
      if !matcher(msg) {
        return;
      }
      if executed {
        return;  // prevent double execution
      }
      dependencies := dependencies[name := msg];
      waitingFor := waitingFor - {name};
      if waitingFor != {} {
        return;  // still waiting for a message
      }
      executed := true;
      var out := op(dependencies);
      reg.PublishEach(out.published);
    }
  }

  class ImportDispatcher {
    var importers: seq<Callback>
    var publishQueue: seq<Msg>
    const fs: FileSystem

    /** All collectors made for this dispatcher; the program keeps them alive through their closures. */
    ghost var collectors: seq<EventCollector>
    ghost var cfg: Config
    ghost var st: State

    ghost predicate Valid()
      reads this, collectors
    {
      && Wf(cfg, st.cs)
      && cfg.fs == fs && st.queue == publishQueue
      && |collectors| == |cfg.collectors|
      && (forall i | 0 <= i < |collectors| :: collectors[i].Mirrors(i, cfg.collectors[i], st.cs[i]))
      && |importers| == |cfg.importers|
      && (forall k | 0 <= k < |importers| :: Implements(importers[k], cfg.importers[k]))
    }

    ghost predicate Implements(cb: Callback, i: Importer)
      reads this
    {
      match i
      case Files => cb == FileCallback
      case Waits(c, name, f) => c < |collectors| && cb == CollectorCallback(collectors[c], name, f)
    }

    constructor (fs: FileSystem)
      ensures Valid() && importers == [] && collectors == [] && this.fs == fs
      ensures cfg == ImportModel.Config(fs, [], []) && st == Initial(cfg)
    {
      importers, publishQueue, collectors := [], [], [];
      this.fs := fs;
      cfg := ImportModel.Config(fs, [], []);
      st := State([], [], [], [], [], []);
    }

    /** `emplace_back` only; who subscribes also says what the callback stands for. */
    method Subscribe(cb: Callback)
      modifies this`importers
      ensures importers == old(importers) + [cb]
    {
      importers := importers + [cb];
    }

    method SubscribeFiles()
      requires Valid() && st == Initial(cfg)
      modifies this
      ensures Valid() && st == Initial(cfg) && collectors == old(collectors)
      ensures cfg == old(cfg).(importers := old(cfg).importers + [Files])
    {
      Subscribe(FileCallback);
      cfg := cfg.(importers := cfg.importers + [Files]);
    }

    method Publish(m: Msg)
      modifies this`publishQueue
      ensures publishQueue == old(publishQueue) + [m]
    {
      publishQueue := publishQueue + [m];
    }

    method PublishEach(ms: seq<Msg>)
      modifies this`publishQueue
      ensures publishQueue == old(publishQueue) + ms
    {
      var i := 0;
      while i < |ms|
        invariant 0 <= i <= |ms| && publishQueue == old(publishQueue) + ms[..i]
      {
        Publish(ms[i]);
        i := i + 1;
      }
    }

    /** Publication from outside a run. */
    method PublishExternal(m: Msg)
      requires Valid()
      modifies this
      ensures Valid() && cfg == old(cfg) && collectors == old(collectors) && importers == old(importers)
      ensures st == Enqueue(old(st), [m])
    {
      Publish(m);
      st := Enqueue(st, [m]);
    }

    /** `i(m)` for the k-th importer. */
    method Call(k: nat, m: Msg)
      requires Valid() && k < |importers|
      modifies this, collectors
      ensures Valid() && cfg == old(cfg) && collectors == old(collectors) && importers == old(importers)
      ensures st == Handle(cfg, old(st), k, m)
    {
      HandleKeeps(cfg, st, m, k);
      assert Implements(importers[k], cfg.importers[k]);
      match importers[k] {
        case FileCallback =>
          if m.FileEvent? {
            PublishEach(FilePublications(fs, m.paths));
          }
          st := Handle(cfg, st, k, m);
        case CollectorCallback(_, _, _) =>
          CallCollector(k, m);
      }
    }

    method CallCollector(k: nat, m: Msg)
      requires Valid() && k < |importers| && cfg.importers[k].Waits? && Wf(cfg, Handle(cfg, st, k, m).cs)
      modifies this, collectors
      ensures Valid() && cfg == old(cfg) && collectors == old(collectors) && importers == old(importers)
      ensures st == Handle(cfg, old(st), k, m)
    {
      assert Implements(importers[k], cfg.importers[k]);
      var c := importers[k].collector;
      assert forall j | 0 <= j < |collectors| && j != cfg.importers[k].c :: collectors[j] != c;
      c.OnMessage(this, importers[k].name, importers[k].matcher, m);
      st := Handle(cfg, st, k, m);
    }

    /** The inner loop of `Run`: all importers see the message, in subscription order. */
    method CallAll(m: Msg)
      requires Valid()
      modifies this, collectors
      ensures Valid() && cfg == old(cfg) && collectors == old(collectors) && importers == old(importers)
      ensures st == DeliverFrom(cfg, old(st), m, 0)
    {
      var k := 0;
      while k < |importers|
        invariant 0 <= k <= |importers|
        invariant Valid() && cfg == old(cfg) && collectors == old(collectors) && importers == old(importers)
        invariant DeliverFrom(cfg, st, m, k) == DeliverFrom(cfg, old(st), m, 0)
      {
        Call(k, m);
        k := k + 1;
      }
    }

    /** One round of `Run`: the front message is erased from the queue and delivered. */
    method RunOne()
      requires Valid() && publishQueue != []
      modifies this, collectors
      ensures Valid() && cfg == old(cfg) && collectors == old(collectors) && importers == old(importers)
      ensures st == DeliverFrom(cfg, PopFront(old(st)), old(st.queue[0]), 0)
    {
      var m := publishQueue[0];
      publishQueue := publishQueue[1..];
      st := PopFront(st);
      CallAll(m);
    }

    method Run()
      requires Valid()
      modifies this, collectors
      ensures Valid() && cfg == old(cfg) && collectors == old(collectors) && importers == old(importers)
      ensures st == Pump(cfg, old(st)) && publishQueue == []
    {
      while publishQueue != []
        invariant Valid() && cfg == old(cfg) && collectors == old(collectors) && importers == old(importers)
        invariant Pump(cfg, st) == Pump(cfg, old(st))
        decreases Unexecuted(st.cs), FileEvents(st.queue), |st.queue|
      {
        DeliverDecreases(cfg, st);
        RunOne();
      }
    }
  }
}
