/** Runs of the whole agent: they are runs of the infrastructure, in which nothing
    leaks and what is recorded as up can be written to. */
module Runs {
  import opened Bytes
  import opened Infra
  import opened Dispatch
  import opened Pipe
  import opened Lifecycle
  import opened System
  import Policy
  import Bringup
  import Progress

  // ----- runs of the agent -----------------------------------------------------------------

  function InitialSys(a: Agent): Sys
    requires a.Valid()
  {
    Sys(Bringup.Initial(a.c), seq(a.c.N(), _ => EMPTY), Pool(0, multiset{}))
  }

  predicate CanRunSys(a: Agent, s: Sys, es: seq<SysEvent>)
    requires Fits(a, s)
    decreases |es|
  {
    es != [] ==> CanHappen(a, s, es[0]) && CanRunSys(a, NextSys(a, s, es[0]), es[1..])
  }

  function AfterSys(a: Agent, s: Sys, es: seq<SysEvent>): (s': Sys)
    requires Fits(a, s) && CanRunSys(a, s, es)
    ensures Fits(a, s')
    decreases |es|
  {
    if es == [] then s else AfterSys(a, NextSys(a, s, es[0]), es[1..])
  }

  lemma RunCons(a: Agent, s: Sys, e: SysEvent, es: seq<SysEvent>)
    requires Fits(a, s) && CanHappen(a, s, e) && CanRunSys(a, NextSys(a, s, e), es)
    ensures CanRunSys(a, s, [e] + es) && AfterSys(a, s, [e] + es) == AfterSys(a, NextSys(a, s, e), es)
  {
    hide NextSys, CanHappen;
    assert ([e] + es)[1..] == es;
  }

  lemma {:induction false} RunsInTwo(a: Agent, s: Sys, es: seq<SysEvent>, more: seq<SysEvent>)
    requires Fits(a, s) && CanRunSys(a, s, es) && CanRunSys(a, AfterSys(a, s, es), more)
    ensures CanRunSys(a, s, es + more)
    ensures AfterSys(a, s, es + more) == AfterSys(a, AfterSys(a, s, es), more)
    decreases |es|
  {
    hide NextSys, CanHappen;
    if es == [] {
      assert es + more == more;
    } else {
      assert (es + more)[1..] == es[1..] + more;
      RunsInTwo(a, NextSys(a, s, es[0]), es[1..], more);
    }
  }

  lemma {:induction false} HeldNowhere(xs: seq<Ctx>, h: Handle)
    requires forall i :: 0 <= i < |xs| ==> xs[i] == EMPTY
    ensures HeldAll(xs, h) == 0
  {
    if xs != [] {
      HeldNowhere(xs[1..], h);
    }
  }

  lemma InitialOk(a: Agent)
    requires a.Valid()
    ensures Fits(a, InitialSys(a)) && SysInv(a, InitialSys(a))
  {
    var s := InitialSys(a);
    forall h: Handle ensures HeldAll(s.ctx, h) == 0 { HeldNowhere(s.ctx, h); }
    Bringup.InitialBringsUp(a.c);
    forall m | 0 <= m < a.c.N()
      ensures ModuleOk(a.kinds[m], Unset, Bringup.Started(s.infra, m), s.ctx[m])
    {
      EmptyOk(a.kinds[m], Unset, Bringup.Started(s.infra, m));
    }
  }

  /** Over every run of the agent, with retries, errors and reinitialisations:
      each timer, listener, bufferevent, read event, socket and gRPC object is
      freed exactly once or still held in exactly one place; only started modules
      hold anything or report; what is recorded up, a server apart, can be written
      to; and every pipe is in step with its manager. */
  lemma {:induction false} SystemInvariant(a: Agent, s: Sys, es: seq<SysEvent>)
    requires Fits(a, s) && SysInv(a, s) && CanRunSys(a, s, es)
    ensures SysInv(a, AfterSys(a, s, es))
    decreases |es|
  {
    hide SysInv;
    if es != [] {
      NextOk(a, s, es[0]);
      SystemInvariant(a, NextSys(a, s, es[0]), es[1..]);
    }
  }

  /** The infrastructure's side of a run. */
  function InfraRun(a: Agent, s: Sys, es: seq<SysEvent>): seq<Bringup.InfraEvent>
    requires Fits(a, s) && CanRunSys(a, s, es)
    decreases |es|
  {
    if es == [] then []
    else InfraSide(a, s, es[0]) + InfraRun(a, NextSys(a, s, es[0]), es[1..])
  }

  lemma {:induction false} RunInTwo(c: Config, s: State, es: seq<Bringup.InfraEvent>, more: seq<Bringup.InfraEvent>)
    requires c.Valid() && s.status.Fits(c.N()) && Bringup.CanRun(c, s, es)
    requires Bringup.CanRun(c, Bringup.After(c, s, es), more)
    ensures Bringup.CanRun(c, s, es + more)
    ensures Bringup.After(c, s, es + more) == Bringup.After(c, Bringup.After(c, s, es), more)
    decreases |es|
  {
    if es == [] {
      assert es + more == more;
    } else {
      assert (es + more)[1..] == es[1..] + more;
      RunInTwo(c, Bringup.Next(c, s, es[0]), es[1..], more);
    }
  }

  /** Every run of the agent is a run of the infrastructure in which only started
      modules report: all that modules Bringup and Progress prove of such runs
      holds of the agent. */
  lemma {:induction false} SystemRefinesInfra(a: Agent, s: Sys, es: seq<SysEvent>)
    requires Fits(a, s) && SysInv(a, s) && CanRunSys(a, s, es)
    ensures Bringup.CanRun(a.c, s.infra, InfraRun(a, s, es))
    ensures AfterSys(a, s, es).infra == Bringup.After(a.c, s.infra, InfraRun(a, s, es))
    decreases |es|
  {
    hide SysInv, InfraSide, NextSys, CanHappen;
    if es != [] {
      NextOk(a, s, es[0]);
      InfraFollows(a, s, es[0]);
      SystemRefinesInfra(a, NextSys(a, s, es[0]), es[1..]);
      RunInTwo(a.c, s.infra, InfraSide(a, s, es[0]), InfraRun(a, NextSys(a, s, es[0]), es[1..]));
    }
  }

  /** Of the agent itself, from its start: the bring-up rule; flashes neither lost
      nor repeated; and, with no two modules interdependent, no second init. */
  lemma AgentBringsUp(a: Agent, es: seq<SysEvent>)
    requires a.Valid() && CanRunSys(a, InitialSys(a), es)
    ensures var s := AfterSys(a, InitialSys(a), es).infra;
            && (!s.reinitDue ==> Bringup.StartedIsMayStart(a.c, s) && Bringup.FlashOnce(a.c, s))
            && (Bringup.NoMutual(a.c) ==> Bringup.InitOnce(a.c, s))
  {
    InitialOk(a);
    SystemRefinesInfra(a, InitialSys(a), es);
    Bringup.InitialBringsUp(a.c);
    hide Bringup.StartedIsMayStart, Bringup.NoMutual;
    var s0, run := Bringup.Initial(a.c), InfraRun(a, InitialSys(a), es);
    Bringup.BringUpInvariant(a.c, s0, run);
    Bringup.FlashExactlyOnce(a.c, s0, run);
    if Bringup.NoMutual(a.c) { Bringup.InitAtMostOnce(a.c, s0, run); }
  }

  /** In terms of what is configured and recorded: in every run of the agent, with
      no reinit pending, a module has been started if and only if it is enabled and
      every enabled module that wants its events, and whose events it does not want,
      is up; and it has been asked for its flash if and only if it is up and so is
      every enabled module that wants its events, of which there must be one: once,
      if it does not want its own. */
  lemma AgentStartsAndFlashes(a: Agent, es: seq<SysEvent>, m: nat)
    requires a.Valid() && CanRunSys(a, InitialSys(a), es) && m < a.c.N()
    ensures var c, s := a.c, AfterSys(a, InitialSys(a), es).infra;
            var conn := s.status.conn;
            !s.reinitDue ==>
              && (InitCb(m) in s.calls <==>
                    && c.enable[m]
                    && forall i: nat :: i < c.N() && c.enable[i] && c.notify[i][m] && !c.notify[m][i] ==> conn[i] == Up)
              && var due := && conn[m] == Up
                            && (exists i: nat :: i < c.N() && c.enable[i] && c.notify[i][m])
                            && forall i: nat :: i < c.N() && c.enable[i] && c.notify[i][m] ==> conn[i] == Up;
                 && (FlashCb(m) in s.calls <==> due)
                 && (!c.notify[m][m] ==> Bringup.Count(s.calls, FlashCb(m)) == if due then 1 else 0)
  {
    InitialOk(a);
    SystemRefinesInfra(a, InitialSys(a), es);
    Bringup.InitialBringsUp(a.c);
    hide Bringup.StartedIsMayStart, Bringup.Sound, MayFlash, CanRunSys, AfterSys, InfraRun;
    hide Bringup.After, Bringup.CanRun;
    var s0, run := Bringup.Initial(a.c), InfraRun(a, InitialSys(a), es);
    Bringup.BringUpInvariant(a.c, s0, run);
    Bringup.FlashExactlyOnce(a.c, s0, run);
    Bringup.FlashAsked(a.c, s0, run);
    var s := AfterSys(a, InitialSys(a), es).infra;
    if !s.reinitDue {
      Bringup.FlashDue(a.c, s, m);
      Bringup.StartDue(a.c, s, m);
    }
  }

  /** Hence, once everything is up, exactly the enabled modules whose events some
      enabled module wants have been asked for their flash. */
  lemma AllUpAllFlashed(a: Agent, es: seq<SysEvent>, m: nat)
    requires a.Valid() && CanRunSys(a, InitialSys(a), es) && m < a.c.N()
    requires var s := AfterSys(a, InitialSys(a), es).infra;
             !s.reinitDue && forall i: nat :: i < a.c.N() && a.c.enable[i] ==> s.status.conn[i] == Up
    ensures FlashCb(m) in AfterSys(a, InitialSys(a), es).infra.calls <==>
              a.c.enable[m] && exists i: nat :: i < a.c.N() && a.c.enable[i] && a.c.notify[i][m]
  {
    hide CanRunSys, AfterSys, InitialSys;
    AgentStartsAndFlashes(a, es, m);
    if !a.c.enable[m] { DisabledIsNotUp(a, es, m); }
  }

  lemma DisabledIsNotUp(a: Agent, es: seq<SysEvent>, m: nat)
    requires a.Valid() && CanRunSys(a, InitialSys(a), es) && m < a.c.N() && !a.c.enable[m]
    ensures AfterSys(a, InitialSys(a), es).infra.status.conn[m] != Up
  {
    InitialOk(a);
    SystemInvariant(a, InitialSys(a), es);
  }

  /** And with no reinit pending it has everything up or has a started module that
      is not up, if the subscriptions have no cycle of modules that are not
      interdependent; the modules of such a cycle are never started. Whether a
      started module can come up is the subject of module Recovery. */
  lemma AgentProgress(a: Agent, es: seq<SysEvent>)
    requires a.Valid() && CanRunSys(a, InitialSys(a), es)
    ensures var s := AfterSys(a, InitialSys(a), es).infra;
            && (Progress.Acyclic(a.c) && !s.reinitDue ==>
                  Progress.Waiting(a.c, s) == {} || Progress.Underway(a.c, s))
            && (forall p :: Progress.IsCycle(a.c, p) ==> Progress.Dormant(s, p))
  {
    InitialOk(a);
    SystemRefinesInfra(a, InitialSys(a), es);
    Bringup.InitialBringsUp(a.c);
    hide Bringup.StartedIsMayStart, Progress.Acyclic, Progress.IsCycle, Progress.Dormant;
    var s0, run := Bringup.Initial(a.c), InfraRun(a, InitialSys(a), es);
    Bringup.BringUpInvariant(a.c, s0, run);
    var s := Bringup.After(a.c, s0, run);
    if Progress.Acyclic(a.c) && !s.reinitDue { Progress.NoDeadlock(a.c, s); }
    forall p | Progress.IsCycle(a.c, p) ensures Progress.Dormant(s, p) {
      Progress.CycleDormantAtFirst(a.c, p);
      Progress.CycleNeverStarts(a.c, s0, run, p);
    }
  }

  /** And in it, every message that can be read from a pipe changes what is
      recorded; with the pipe drained and no write under way, the two agree. */
  lemma AgentPipe(a: Agent, es: seq<SysEvent>, m: nat)
    requires a.Valid() && CanRunSys(a, InitialSys(a), es) && m < a.c.N() && a.kinds[m] == Prpd
    ensures var s := AfterSys(a, InitialSys(a), es);
            var x, conn := s.ctx[m], s.infra.status.conn[m];
            && (x.queue != [] ==> x.manager.Some? && x.queue[0] != conn)
            && (x.manager.Some? && x.queue == [] && x.manager.value.pc != Write ==>
                  conn == x.manager.value.connectionState)
  {
    InitialOk(a);
    SystemInvariant(a, InitialSys(a), es);
    var s := AfterSys(a, InitialSys(a), es);
    var x, conn := s.ctx[m], s.infra.status.conn[m];
    assert ModuleOk(a.kinds[m], conn, Bringup.Started(s.infra, m), x);
    if x.queue != [] { ReadKeepsStep(conn, x.queue, x.manager.value); }
  }

  // ----- up means live ------------------------------------------------------------------------

  ghost predicate UpIsLive(a: Agent, s: Sys)
    requires Fits(a, s)
  {
    forall m :: 0 <= m < a.c.N() && s.infra.status.conn[m] == Up ==> Live(a.kinds[m], s.ctx[m])
  }

  /** What the callbacks of a server keep, a listener error apart. */
  lemma ServerStaysLive(conn: Conn, x: Ctx, p: Pool, e: SysEvent)
    requires InOrder(TcpServer, x) && (conn == Up ==> Live(TcpServer, x)) && !e.ListenerFails?
    requires match e
      case TimerExpires(_, _) => x.timerPending
      case BevReports(_, _) => x.bev.Some?
      case Accepts(_, _) => x.listener.Some?
      case _ => false
    ensures var f := EffectOf(TcpServer, x, p, e);
            Recorded(conn, f.report) == Up ==> Live(TcpServer, f.ctx)
  {
    match e
    case TimerExpires(_, o) => TimerFiresProper(TcpServer, x, p, o);
    case BevReports(_, what) => BevEventProper(TcpServer, x, p, what);
    case Accepts(_, ok) => AcceptProper(x, p, ok);
  }

  lemma NextUpIsLive(a: Agent, s: Sys, e: SysEvent)
    requires Fits(a, s) && SysInv(a, s) && UpIsLive(a, s) && CanHappen(a, s, e) && !e.ListenerFails?
    ensures UpIsLive(a, NextSys(a, s, e))
  {
    NextOk(a, s, e);
    var u := NextSys(a, s, e);
    if e.ReinitFires? {
      forall m: nat | m < a.c.N() ensures u.infra.status.conn[m] != Up { NotUpAfterReinit(a, s, m); }
    } else {
      AfterEvent(a, s, e);
      hide NextSys, EffectOf, CallsOf, Bringup.BringUp, Conserved;
      forall m: nat | m < a.c.N() && u.infra.status.conn[m] == Up ensures Live(a.kinds[m], u.ctx[m]) {
        assert ModuleOk(a.kinds[m], u.infra.status.conn[m], Bringup.Started(u.infra, m), u.ctx[m]);
        assert ModuleOk(a.kinds[m], s.infra.status.conn[m], Bringup.Started(s.infra, m), s.ctx[m]);
        if m == e.m && a.kinds[m] == TcpServer {
          ServerStaysLive(s.infra.status.conn[m], s.ctx[m], s.pool, e);
        }
      }
    }
  }

  /** A listener error keeps this exactly when the server was not up. */
  lemma ListenerFailureExact(a: Agent, s: Sys, m: nat)
    requires Fits(a, s) && SysInv(a, s) && UpIsLive(a, s) && CanHappen(a, s, ListenerFails(m))
    ensures UpIsLive(a, NextSys(a, s, ListenerFails(m))) <==> s.infra.status.conn[m] != Up
  {
    var e := ListenerFails(m);
    var u := NextSys(a, s, e);
    assert ModuleOk(a.kinds[m], s.infra.status.conn[m], Bringup.Started(s.infra, m), s.ctx[m]);
    ListenerErrorProper(s.ctx[m], s.pool);
    AfterEvent(a, s, e);
    hide NextSys, Bringup.BringUp, Conserved, EffectOf;
    assert u.ctx[m].bev.None?;
  }

  ghost predicate LiveThroughout(a: Agent, s: Sys, es: seq<SysEvent>)
    requires Fits(a, s) && CanRunSys(a, s, es)
    decreases |es|
  {
    UpIsLive(a, s) && (es != [] ==> LiveThroughout(a, NextSys(a, s, es[0]), es[1..]))
  }

  /** No listener of a server that is recorded as up fails. */
  predicate NoUpListenerFails(a: Agent, s: Sys, es: seq<SysEvent>)
    requires Fits(a, s) && CanRunSys(a, s, es)
    decreases |es|
  {
    es != [] ==>
      && !(es[0].ListenerFails? && s.infra.status.conn[es[0].m] == Up)
      && NoUpListenerFails(a, NextSys(a, s, es[0]), es[1..])
  }

  /** At every event boundary of a run each module recorded as up can be written
      to, if and only if no listener of an up server fails in it. */
  lemma {:induction false} UpImpliesLive(a: Agent, s: Sys, es: seq<SysEvent>)
    requires Fits(a, s) && SysInv(a, s) && UpIsLive(a, s) && CanRunSys(a, s, es)
    ensures LiveThroughout(a, s, es) <==> NoUpListenerFails(a, s, es)
    decreases |es|
  {
    if es != [] {
      var e, u := es[0], NextSys(a, s, es[0]);
      NextOk(a, s, e);
      if e.ListenerFails? {
        ListenerFailureExact(a, s, e.m);
      } else {
        NextUpIsLive(a, s, e);
      }
      hide SysInv, UpIsLive, NextSys, CanHappen;
      if UpIsLive(a, u) { UpImpliesLive(a, u, es[1..]); }
    }
  }

  lemma {:induction false} LiveInTheEnd(a: Agent, s: Sys, es: seq<SysEvent>)
    requires Fits(a, s) && CanRunSys(a, s, es) && LiveThroughout(a, s, es)
    ensures UpIsLive(a, AfterSys(a, s, es))
    decreases |es|
  {
    hide NextSys, CanHappen, UpIsLive;
    if es != [] { LiveInTheEnd(a, NextSys(a, s, es[0]), es[1..]); }
  }

  /** Hence every delivery of a dispatched message is made to a live module. */
  lemma DeliveriesReachLive(a: Agent, s: Sys, from: nat, kind: int, m: bytes)
    requires Fits(a, s) && UpIsLive(a, s) && from < a.c.N() && Policy.IsRoute(m)
    ensures forall d <- Deliveries(a.c, s.infra.status, from, kind, m, 0) ::
              d.to < a.c.N() && Live(a.kinds[d.to], s.ctx[d.to])
  {
    hide Live, Deliveries;
    DeliveriesMeaning(a.c, s.infra.status, from, kind, m, 0);
  }

  /** Of the agent from its start: handles are conserved, and as long as no
      listener of an up server has failed, every delivery goes to a live module. */
  lemma AgentSafe(a: Agent, es: seq<SysEvent>, from: nat, kind: int, m: bytes)
    requires a.Valid() && CanRunSys(a, InitialSys(a), es) && from < a.c.N() && Policy.IsRoute(m)
    ensures var s := AfterSys(a, InitialSys(a), es);
            && Conserved(s.ctx, s.pool)
            && (NoUpListenerFails(a, InitialSys(a), es) ==>
                  forall d <- Deliveries(a.c, s.infra.status, from, kind, m, 0) ::
                    d.to < a.c.N() && Live(a.kinds[d.to], s.ctx[d.to]))
  {
    InitialOk(a);
    SystemInvariant(a, InitialSys(a), es);
    hide SysInv;
    if NoUpListenerFails(a, InitialSys(a), es) {
      UpImpliesLive(a, InitialSys(a), es);
      LiveInTheEnd(a, InitialSys(a), es);
      DeliveriesReachLive(a, AfterSys(a, InitialSys(a), es), from, kind, m);
    }
  }

  /** The kernel module and a server, which want each other's events. */
  const KERNEL_AND_SERVER: Agent := Agent(Bringup.PAIR, [Kernel, TcpServer])

  lemma KernelStarts() returns (s1: Sys)
    ensures KERNEL_AND_SERVER.Valid() && CanHappen(KERNEL_AND_SERVER, InitialSys(KERNEL_AND_SERVER), ReinitFires)
    ensures s1 == NextSys(KERNEL_AND_SERVER, InitialSys(KERNEL_AND_SERVER), ReinitFires)
    ensures s1.infra == OnReinit(Bringup.PAIR, Bringup.Initial(Bringup.PAIR)) && s1.ctx[0].timerPending
  {
    var a := KERNEL_AND_SERVER;
    var s0 := InitialSys(a);
    InitialOk(a);
    ReinitContexts(a, s0);
    Bringup.StartedAfterReinit(a.c, s0.infra, 0);
    s1 := NextSys(a, s0, ReinitFires);
    assert MayInit(a.c, s1.infra.status, 0);
  }

  /** Once the kernel module is connected, the server is started a second time. */
  lemma ServerInitedTwice()
    ensures KERNEL_AND_SERVER.Valid()
    ensures var a, es := KERNEL_AND_SERVER, [ReinitFires, TimerExpires(0, Good)];
            && CanRunSys(a, InitialSys(a), es)
            && var s := AfterSys(a, InitialSys(a), es).infra;
               !s.reinitDue && Bringup.Count(s.calls, InitCb(1)) == 2
  {
    var a, es := KERNEL_AND_SERVER, [ReinitFires, TimerExpires(0, Good)];
    var s1 := KernelStarts();
    var e := TimerExpires(0, Good);
    assert NextSys(a, s1, e).infra == OnUp(a.c, s1.infra, 0);
    hide NextSys, OnUp, OnReinit, InitialSys;
    Bringup.MutualPairInitsTwice();
    var run := [Bringup.Reinit, Bringup.Report(0, true)];
    assert run[1..] == [Bringup.Report(0, true)] && run[1..][1..] == [];
    assert es[1..] == [e] && es[1..][1..] == [];
  }

  /** One TCP server, on its own. */
  const SERVER: Agent :=
    Agent(Config([true], [[false]], [Policy.NO_POLICY]), [TcpServer])

  /** A client connects, then the listener fails: the server is recorded as up,
      with no connection to write to. */
  lemma ListenerFailureLosesServer()
    ensures SERVER.Valid()
    ensures var es := [ReinitFires, TimerExpires(0, Good), Accepts(0, true), ListenerFails(0)];
            && CanRunSys(SERVER, InitialSys(SERVER), es)
            && !UpIsLive(SERVER, AfterSys(SERVER, InitialSys(SERVER), es))
  {
    hide NextSys, SysInv, UpIsLive, CanHappen;
    InitialOk(SERVER);
    var s1 := ServerStarts();
    var s2 := ServerListens(s1);
    var s3 := ServerAccepts(s2);
    ListenerFailureExact(SERVER, s3, 0);
    var s4 := NextSys(SERVER, s3, ListenerFails(0));
    RunOfFour(SERVER, InitialSys(SERVER), s1, s2, s3, s4,
              [ReinitFires, TimerExpires(0, Good), Accepts(0, true), ListenerFails(0)]);
  }

  lemma ServerListens(s1: Sys) returns (s2: Sys)
    requires Fits(SERVER, s1) && SysInv(SERVER, s1) && s1.infra.status.conn[0] == Down
    requires s1.ctx[0].timerPending && s1.ctx[0].listener.None? && s1.ctx[0].bev.None?
    ensures CanHappen(SERVER, s1, TimerExpires(0, Good)) && s2 == NextSys(SERVER, s1, TimerExpires(0, Good))
    ensures SysInv(SERVER, s2) && s2.infra.status.conn[0] == Down
    ensures s2.ctx[0].listener.Some? && s2.ctx[0].bev.None?
  {
    var e := TimerExpires(0, Good);
    NextOk(SERVER, s1, e);
    s2 := NextSys(SERVER, s1, e);
    assert EffectOf(TcpServer, s1.ctx[0], s1.pool, e).report == Nothing;
  }

  lemma ServerAccepts(s2: Sys) returns (s3: Sys)
    requires Fits(SERVER, s2) && SysInv(SERVER, s2) && s2.infra.status.conn[0] == Down
    requires s2.ctx[0].listener.Some? && s2.ctx[0].bev.None?
    ensures CanHappen(SERVER, s2, Accepts(0, true)) && s3 == NextSys(SERVER, s2, Accepts(0, true))
    ensures SysInv(SERVER, s3) && UpIsLive(SERVER, s3) && s3.infra.status.conn[0] == Up
    ensures CanHappen(SERVER, s3, ListenerFails(0))
  {
    var e := Accepts(0, true);
    NextOk(SERVER, s2, e);
    AfterEvent(SERVER, s2, e);
    s3 := NextSys(SERVER, s2, e);
    hide NextSys, Bringup.BringUp, Conserved;
  }

  lemma RunOfFour(a: Agent, s0: Sys, s1: Sys, s2: Sys, s3: Sys, s4: Sys, es: seq<SysEvent>)
    requires |es| == 4 && Fits(a, s0) && CanHappen(a, s0, es[0]) && s1 == NextSys(a, s0, es[0])
    requires CanHappen(a, s1, es[1]) && s2 == NextSys(a, s1, es[1])
    requires CanHappen(a, s2, es[2]) && s3 == NextSys(a, s2, es[2])
    requires CanHappen(a, s3, es[3]) && s4 == NextSys(a, s3, es[3])
    ensures CanRunSys(a, s0, es) && AfterSys(a, s0, es) == s4
  {
    hide NextSys, CanHappen;
    var es1 := es[1..];
    var es2 := es1[1..];
    var es3 := es2[1..];
    assert es3[1..] == [];
    assert CanRunSys(a, s4, []) && AfterSys(a, s4, []) == s4;
    assert CanRunSys(a, s3, es3) && AfterSys(a, s3, es3) == s4;
    assert CanRunSys(a, s2, es2) && AfterSys(a, s2, es2) == s4;
    assert CanRunSys(a, s1, es1) && AfterSys(a, s1, es1) == s4;
  }

  lemma ServerStarts() returns (s1: Sys)
    ensures CanHappen(SERVER, InitialSys(SERVER), ReinitFires)
    ensures s1 == NextSys(SERVER, InitialSys(SERVER), ReinitFires)
    ensures SysInv(SERVER, s1) && UpIsLive(SERVER, s1)
    ensures s1.ctx[0].timerPending && s1.ctx[0].listener.None? && s1.ctx[0].bev.None?
    ensures s1.infra.status.conn[0] == Down && !s1.infra.reinitDue && Bringup.Started(s1.infra, 0)
  {
    var a, s0 := SERVER, InitialSys(SERVER);
    InitialOk(a);
    NextOk(a, s0, ReinitFires);
    s1 := NextSys(a, s0, ReinitFires);
    Bringup.StartedAfterReinit(a.c, s0.infra, 0);
    assert MayInit(a.c, s1.infra.status, 0);
    ReinitContexts(a, s0);
  }
}
