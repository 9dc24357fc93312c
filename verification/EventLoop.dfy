/** The agent in place: the infrastructure's record, one context a module, and the
    libraries they share. Handling an event is a step of module System. */
module EventLoop {
  import opened Event
  import opened Infra
  import opened Lifecycle
  import opened Contexts
  import opened System
  import opened Runs

  function Values(cs: seq<Context>): (xs: seq<Ctx>)
    reads set c <- cs
    ensures |xs| == |cs| && forall i :: 0 <= i < |cs| ==> xs[i] == cs[i].Value()
  {
    if cs == [] then [] else [cs[0].Value()] + Values(cs[1..])
  }

  /** A callback of the infrastructure into one module. */
  method CallContext(c: Context, call: Call)
    modifies c, c.lib
    ensures (c.Value(), c.lib.Pool()) == CallOn(c.kind, old(c.Value()), old(c.lib.Pool()), call)
  {
    hide Reset, Init, Zeroed, Balanced, Own, Clean;
    match call {
      case ResetCb(_) => c.ResetModule();
      case GetVec(_) => c.GetVec();
      case InitCb(_) => c.InitModule();
      case FlashCb(_) =>
    }
  }

  /** The start timers' callbacks. */
  method TimerCallback(c: Context, o: Outcome) returns (report: Report)
    modifies c, c.lib
    ensures Effect(c.Value(), c.lib.Pool(), report) == TimerFires(c.kind, old(c.Value()), old(c.lib.Pool()), o)
  {
    hide TimerFires, Proper, InOrder;
    match c.kind {
      case TcpClient => report := c.ClientConnect(o);
      case TcpServer => report := c.ServerListener(o);
      case Kernel => report := c.KernelConnect(o);
      case Prpd => report := c.PrpdConnect(o);
    }
  }

  /** The callback of a module that an event runs. */
  method Callback(c: Context, e: SysEvent) returns (report: Report)
    requires e.ManagerRuns? ==> c.manager.Some?
    requires e.PipeReads? ==> c.queue != []
    modifies c, c.lib
    ensures !e.ReinitFires? ==>
              Effect(c.Value(), c.lib.Pool(), report) == EffectOf(c.kind, old(c.Value()), old(c.lib.Pool()), e)
  {
    hide TimerFires, BevEvent, Accept, ListenerError, ManagerActs, PipeReadable, Proper, InOrder, Balanced, JustStarted;
    report := Nothing;
    match e {
      case ReinitFires =>
      case TimerExpires(_, o) => report := TimerCallback(c, o);
      case BevReports(_, what) => report := c.EventCb(what);
      case Accepts(_, ok) => report := c.AcceptConnection(ok);
      case ListenerFails(_) => report := c.AcceptError();
      case ManagerRuns(_, ch) => c.RunManager(ch);
      case PipeReads(_) => report := c.ReadPipe();
    }
  }

  lemma OneChanged(xs: seq<Ctx>, ys: seq<Ctx>, m: nat)
    requires |xs| == |ys| && m < |xs|
    requires forall i :: 0 <= i < |xs| && i != m ==> ys[i] == xs[i]
    ensures ys == xs[m := ys[m]]
  {}

  lemma AllEmpty(cs: seq<Context>)
    requires forall i :: 0 <= i < |cs| ==> cs[i].Value() == EMPTY
    ensures Values(cs) == seq(|cs|, _ => EMPTY)
  {}

  method NewContexts(kinds: seq<Kind>, lib: Library) returns (cs: seq<Context>)
    ensures |cs| == |kinds| && fresh(cs)
    ensures forall i :: 0 <= i < |cs| ==>
              cs[i].kind == kinds[i] && cs[i].lib == lib && cs[i].Value() == EMPTY
    ensures forall i, j :: 0 <= i < j < |cs| ==> cs[i] != cs[j]
  {
    cs := [];
    for i := 0 to |kinds|
      invariant |cs| == i && fresh(cs)
      invariant forall j :: 0 <= j < i ==>
                  cs[j].kind == kinds[j] && cs[j].lib == lib && cs[j].Value() == EMPTY
      invariant forall j, k :: 0 <= j < k < i ==> cs[j] != cs[k]
    {
      var x := new Context(kinds[i], lib);
      cs := cs + [x];
    }
  }

  class Loop {
    const agent: Agent
    const modules: Modules
    const lib: Library
    const contexts: seq<Context>

    ghost predicate Valid()
      reads this, modules
    {
      && agent.Valid() && modules.cfg == agent.c && modules.Valid()
      && |contexts| == agent.c.N()
      && (forall i :: 0 <= i < |contexts| ==> contexts[i].kind == agent.kinds[i] && contexts[i].lib == lib)
      && (forall i, j :: 0 <= i < j < |contexts| ==> contexts[i] != contexts[j])
    }

    function State(): Sys
      reads this, modules, lib, set c <- contexts
    {
      Sys(modules.Now(), Values(contexts), lib.Pool())
    }

    constructor (a: Agent)
      requires a.Valid()
      ensures Valid() && fresh(modules) && fresh(lib) && fresh(contexts)
      ensures agent == a && State() == InitialSys(a)
    {
      var infra := new Modules(a.c);
      var library := new Library();
      var cs := NewContexts(a.kinds, library);
      agent, modules, lib, contexts := a, infra, library, cs;
      new;
      AllEmpty(contexts);
    }

    /** A callback of the infrastructure into a module. */
    method MakeCall(call: Call)
      requires Valid()
      modifies lib, contexts
      ensures (Values(contexts), lib.Pool()) == ApplyCall(agent, old(Values(contexts)), old(lib.Pool()), call)
    {
      hide CallOn;
      if call.m < |contexts| {
        ghost var xs := Values(contexts);
        CallContext(contexts[call.m], call);
        forall i | 0 <= i < |contexts| && i != call.m ensures contexts[i].Value() == xs[i] {
          assert contexts[i] != contexts[call.m];
        }
        OneChanged(xs, Values(contexts), call.m);
      }
    }

    method MakeCalls(calls: seq<Call>)
      requires Valid()
      modifies lib, contexts
      ensures (Values(contexts), lib.Pool()) == ApplyCalls(agent, old(Values(contexts)), old(lib.Pool()), calls)
    {
      hide ApplyCall;
      for i := 0 to |calls|
        invariant ApplyCalls(agent, Values(contexts), lib.Pool(), calls[i..])
               == ApplyCalls(agent, old(Values(contexts)), old(lib.Pool()), calls)
      {
        assert calls[i..][1..] == calls[i + 1..];
        MakeCall(calls[i]);
      }
    }

    /** The module's own part of an event. */
    method RunCallback(e: SysEvent) returns (report: Report)
      requires Valid() && !e.ReinitFires? && e.m < |contexts|
      requires e.ManagerRuns? ==> contexts[e.m].manager.Some?
      requires e.PipeReads? ==> contexts[e.m].queue != []
      modifies lib, contexts
      ensures var f := EffectOf(agent.kinds[e.m], old(Values(contexts)[e.m]), old(lib.Pool()), e);
              && report == f.report && lib.Pool() == f.pool
              && Values(contexts) == old(Values(contexts))[e.m := f.ctx]
    {
      hide EffectOf;
      ghost var xs := Values(contexts);
      report := Callback(contexts[e.m], e);
      forall i | 0 <= i < |contexts| && i != e.m ensures contexts[i].Value() == xs[i] {
        assert contexts[i] != contexts[e.m];
      }
      OneChanged(xs, Values(contexts), e.m);
    }

    /** What a module reports is recorded. */
    method Record(m: nat, report: Report)
      requires Valid() && m < agent.c.N()
      modifies modules
      ensures Valid() && modules.Now() == Told(agent.c, old(modules.Now()), m, report)
    {
      hide OnUp, OnDown;
      if report != Nothing {
        var kind := if report == ReportUp then CONNECTION_UP else CONNECTION_DOWN;
        var _ := modules.ProcessConnectionStatusChange(m, kind);
      }
    }

    /** What a module reports is recorded, and the callbacks that sets off made. */
    method Tell(m: nat, report: Report)
      requires Valid() && m < agent.c.N()
      modifies modules, lib, contexts
      ensures Valid()
      ensures modules.Now() == Told(agent.c, old(modules.Now()), m, report)
      ensures (Values(contexts), lib.Pool())
           == ApplyCalls(agent, old(Values(contexts)), old(lib.Pool()),
                         modules.calls[old(|modules.calls|)..])
    {
      hide ApplyCalls, Told;
      var seen := |modules.calls|;
      ToldExtends(agent.c, modules.Now(), m, report);
      Record(m, report);
      MakeCalls(modules.calls[seen..]);
    }

    /** The reinit event. */
    method HandleReinit()
      requires Valid() && Fits(agent, State()) && CanHappen(agent, State(), ReinitFires)
      modifies modules, lib, contexts
      ensures Valid() && State() == NextSys(agent, old(State()), ReinitFires)
    {
      hide ApplyCalls, OnReinit;
      ghost var s := State();
      modules.ReinitEvent();
      assert Values(contexts) == s.ctx && lib.Pool() == s.pool && modules.calls == OnReinit(agent.c, s.infra).calls;
      MakeCalls(modules.calls);
    }

    /** An event of a module: its callback, what that reports to the infrastructure,
        and the callbacks that sets off. */
    method HandleModule(e: SysEvent)
      requires Valid() && Fits(agent, State()) && CanHappen(agent, State(), e) && !e.ReinitFires?
      modifies modules, lib, contexts
      ensures Valid() && State() == NextSys(agent, old(State()), e)
    {
      hide EffectOf, ApplyCalls, Told;
      var report := RunCallback(e);
      Tell(e.m, report);
    }

    /** One event. */
    method Handle(e: SysEvent)
      requires Valid() && Fits(agent, State()) && CanHappen(agent, State(), e)
      modifies modules, lib, contexts
      ensures Valid() && State() == NextSys(agent, old(State()), e)
    {
      if e.ReinitFires? {
        HandleReinit();
      } else {
        HandleModule(e);
      }
    }
  }

  lemma ToldExtends(c: Config, s: Infra.State, m: nat, r: Report)
    requires c.Valid() && s.status.Fits(c.N()) && m < c.N()
    ensures |s.calls| <= |Told(c, s, m, r).calls|
  {}
}
