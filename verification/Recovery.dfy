/** What a started module can do to come up, or down, by its own events, and how
    far the agent gets by that without a reinitialisation. */
module Recovery {
  import opened Bytes
  import opened Infra
  import opened Pipe
  import opened Lifecycle
  import opened System
  import opened Runs
  import Bringup
  import Progress

  // ----- what a started module waits for ---------------------------------------------

  /** A server whose listener could not be created: it has neither a timer nor a
      listener left that could call it. */
  predicate Dead(k: Kind, x: Ctx) {
    k == TcpServer && x.infravec && !x.timerPending && x.listener.None?
  }

  /** What a started module is left with by its own callbacks. */
  predicate Responsive(k: Kind, conn: Conn, started: bool, x: Ctx) {
    && (started ==> x.infravec)
    && (x.infravec ==>
          match k
          case Kernel => x.timerPending || conn == Up
          case Prpd => x.timerPending || x.manager.Some?
          case TcpServer => x.bev.Some? ==> conn == Up
          case TcpClient => x.timerPending || x.bev.Some?)
    && (x.manager.Some? ==> x.manager.value.pc != Exited)
  }

  ghost predicate Inv(a: Agent, s: Sys)
    requires Fits(a, s)
  {
    && SysInv(a, s)
    && forall m :: 0 <= m < a.c.N() ==>
         Responsive(a.kinds[m], s.infra.status.conn[m], Bringup.Started(s.infra, m), s.ctx[m])
  }

  lemma JustStartedResponsive(k: Kind, conn: Conn, x: Ctx)
    requires JustStarted(x)
    ensures Responsive(k, conn, true, x)
  {}

  lemma AgainResponsive(k: Kind, conn: Conn, x: Ctx, p: Pool, report: Lifecycle.Report)
    requires Own(k, x) && x.infravec
    ensures Responsive(k, conn, true, Again(k, x, p, report).ctx)
  {
    TimerStartBalanced(k, x, p);
    hide TimerStart, Responsive, Own, JustStarted;
    JustStartedResponsive(k, conn, TimerStart(k, x, p).0);
  }

  lemma TimerResponsive(k: Kind, conn: Conn, x: Ctx, p: Pool, o: Outcome)
    requires InOrder(k, x) && x.timerPending && x.infravec
    ensures var f := TimerFires(k, x, p, o); Responsive(k, Recorded(conn, f.report), true, f.ctx)
  {
    hide TimerStart;
    var y, h := x.(timerPending := false), p.next;
    match k
    case TcpClient =>
      if o == AllocationFails {
        AgainResponsive(k, conn, y.(bev := None), p, Nothing);
      } else if o == ConnectFails {
        AgainResponsive(k, conn, y.(bev := Some(h)), p.(next := h + 1), Nothing);
      }
    case TcpServer =>
    case Kernel =>
      if o == ConnectFails {
        AgainResponsive(k, Down, y.(nlsock := Some(h)), p.(next := h + 1), ReportDown);
      } else if o == AllocationFails {
        AgainResponsive(k, Down, y.(nlsock := Some(h), socketRead := None), p.(next := h + 1), ReportDown);
      }
    case Prpd =>
      var (ok, z, q) := RibClientInit(y, p, o);
      if !ok { AgainResponsive(k, conn, z, q, Nothing); }
  }

  lemma CallbackResponsive(k: Kind, conn: Conn, x: Ctx, p: Pool, e: SysEvent)
    requires InOrder(k, x) && x.infravec && Responsive(k, conn, true, x)
    requires !e.ReinitFires? && (e.TimerExpires? ==> x.timerPending)
    ensures var f := EffectOf(k, x, p, e); Responsive(k, Recorded(conn, f.report), true, f.ctx)
  {
    InOrderOwn(k, x);
    hide Own, Again, TimerFires, InOrder;
    match e
    case TimerExpires(_, o) => TimerResponsive(k, conn, x, p, o);
    case BevReports(_, what) => if what == Eof || what == Error { AgainResponsive(k, Down, x, p, ReportDown); }
    case Accepts(_, _) =>
    case ListenerFails(_) => AgainResponsive(k, conn, x, p, Nothing);
    case ManagerRuns(_, _) =>
    case PipeReads(_) =>
  }

  lemma EventResponsive(a: Agent, s: Sys, e: SysEvent)
    requires Fits(a, s) && Inv(a, s) && !e.ReinitFires? && CanHappen(a, s, e)
    ensures var f := EffectOf(a.kinds[e.m], s.ctx[e.m], s.pool, e);
            Responsive(a.kinds[e.m], Recorded(s.infra.status.conn[e.m], f.report), true, f.ctx)
  {
    EventOk(a, s, e);
    var k, x, conn := a.kinds[e.m], s.ctx[e.m], s.infra.status.conn[e.m];
    assert ModuleOk(k, conn, true, x) && Responsive(k, conn, true, x);
    hide SysInv, EffectOf, InOrder, InStep, StaysOk, Live;
    CallbackResponsive(k, conn, x, s.pool, e);
  }

  lemma InitialInv(a: Agent)
    requires a.Valid()
    ensures Fits(a, InitialSys(a)) && Inv(a, InitialSys(a))
  {
    InitialOk(a);
  }

  lemma NextInv(a: Agent, s: Sys, e: SysEvent)
    requires Fits(a, s) && Inv(a, s) && CanHappen(a, s, e)
    ensures Inv(a, NextSys(a, s, e))
  {
    NextOk(a, s, e);
    if e.ReinitFires? { ReinitInv(a, s); } else { ModuleEventInv(a, s, e); }
  }

  lemma ReinitInv(a: Agent, s: Sys)
    requires Fits(a, s) && Inv(a, s) && s.infra.reinitDue
    ensures Inv(a, NextSys(a, s, ReinitFires))
  {
    NextOk(a, s, ReinitFires);
    ReinitContexts(a, s);
    var u := NextSys(a, s, ReinitFires);
    hide NextSys, SysInv, JustStarted;
    forall m: nat | m < a.c.N()
      ensures Responsive(a.kinds[m], u.infra.status.conn[m], Bringup.Started(u.infra, m), u.ctx[m])
    {
      if Bringup.Started(u.infra, m) { JustStartedResponsive(a.kinds[m], u.infra.status.conn[m], u.ctx[m]); }
    }
  }

  lemma ModuleEventInv(a: Agent, s: Sys, e: SysEvent)
    requires Fits(a, s) && Inv(a, s) && !e.ReinitFires? && CanHappen(a, s, e)
    ensures Inv(a, NextSys(a, s, e))
  {
    NextOk(a, s, e);
    EventOk(a, s, e);
    AfterEvent(a, s, e);
    EventResponsive(a, s, e);
    var u := NextSys(a, s, e);
    hide NextSys, SysInv, JustStarted, EffectOf, CallsOf, InOrder, Responsive, Conserved, StaysOk;
    forall m: nat | m < a.c.N()
      ensures Responsive(a.kinds[m], u.infra.status.conn[m], Bringup.Started(u.infra, m), u.ctx[m])
    {
      if InitCb(m) in CallsOf(a, s, e) {
        JustStartedResponsive(a.kinds[m], u.infra.status.conn[m], u.ctx[m]);
      }
      assert Responsive(a.kinds[m], s.infra.status.conn[m], Bringup.Started(s.infra, m), s.ctx[m]);
    }
  }

  lemma {:induction false} RunInv(a: Agent, s: Sys, es: seq<SysEvent>)
    requires Fits(a, s) && Inv(a, s) && CanRunSys(a, s, es)
    ensures Inv(a, AfterSys(a, s, es))
    decreases |es|
  {
    hide Inv, NextSys, CanHappen;
    if es != [] {
      NextInv(a, s, es[0]);
      RunInv(a, NextSys(a, s, es[0]), es[1..]);
    }
  }

  // ----- the way of a started module up, and down again --------------------------------

  function Reported(up: bool): Conn {
    if up then Up else Down
  }

  /** The next event on a module's way to reporting `up`: its timer fires and
      what that tries succeeds; then its peer connects, or closes; the kernel
      module is up at once; the manager thread is run and the pipe read. */
  function Towards(k: Kind, x: Ctx, m: nat, up: bool): SysEvent {
    if x.timerPending then TimerExpires(m, Good)
    else
      match k
      case TcpClient => BevReports(m, if up then Connected else Eof)
      case TcpServer => if x.bev.None? then Accepts(m, true) else BevReports(m, Eof)
      case Kernel => TimerExpires(m, Good)
      case Prpd => if x.queue != [] then PipeReads(m) else ManagerRuns(m, Channel(up, true))
  }

  /** How many steps the thread is from writing the state it is about to sample. */
  function StepsToWrite(g: Manager, up: bool): nat {
    match g.pc
    case Write => 1
    case Compare => if g.newConnectionState == Reported(up) then 2 else 7
    case Sample => 3
    case OuterTest => 4
    case Wait => 5
    case InnerTest => 6
    case Exited => 0
  }

  function StepsToReport(k: Kind, x: Ctx, up: bool): nat {
    if x.timerPending then 8
    else if k == TcpServer && x.bev.None? then 1
    else if k == Prpd && x.queue == [] && x.manager.Some? then StepsToWrite(x.manager.value, up)
    else 0
  }

  /** A started module that is recorded the other way, and is neither a dead
      server nor, to go down, the kernel module. */
  ghost predicate CanTurn(a: Agent, s: Sys, m: nat, up: bool)
    requires Fits(a, s)
  {
    && m < a.c.N() && Bringup.Started(s.infra, m)
    && s.infra.status.conn[m] == Reported(!up)
    && !Dead(a.kinds[m], s.ctx[m]) && (a.kinds[m] == Kernel ==> up)
  }

  /** The report `up`, or a step closer to it. */
  ghost predicate Closer(k: Kind, conn: Conn, x: Ctx, up: bool, f: Effect) {
    && !Dead(k, f.ctx)
    && (|| f.report == (if up then ReportUp else ReportDown)
        || (Recorded(conn, f.report) == conn && StepsToReport(k, f.ctx, up) < StepsToReport(k, x, up)))
  }

  lemma TowardsCloser(a: Agent, s: Sys, m: nat, up: bool)
    requires Fits(a, s) && Inv(a, s) && CanTurn(a, s, m, up)
    ensures var k, x := a.kinds[m], s.ctx[m];
            var e := Towards(k, x, m, up);
            && CanHappen(a, s, e) && e.m == m && !e.ReinitFires?
            && Closer(k, s.infra.status.conn[m], x, up, EffectOf(k, x, s.pool, e))
  {
    var k, x, conn := a.kinds[m], s.ctx[m], s.infra.status.conn[m];
    assert ModuleOk(k, conn, true, x) && Responsive(k, conn, true, x);
    hide SysInv, TimerStart;
    match k
    case TcpClient =>
    case TcpServer =>
    case Kernel =>
    case Prpd => if !x.timerPending { ManagerCloser(conn, x, s.pool, m, up); }
  }

  lemma ManagerCloser(conn: Conn, x: Ctx, p: Pool, m: nat, up: bool)
    requires InOrder(Prpd, x) && x.infravec && !x.timerPending && x.manager.Some?
    requires InStep(conn, x.queue, x.manager.value) && x.manager.value.pc != Exited && conn == Reported(!up)
    ensures Closer(Prpd, conn, x, up, EffectOf(Prpd, x, p, Towards(Prpd, x, m, up)))
  {
    if x.queue != [] { ReadKeepsStep(conn, x.queue, x.manager.value); }
  }

  // ----- dead servers, from event to event ------------------------------------------------

  lemma DeadSilent(a: Agent, s: Sys, e: SysEvent)
    requires Fits(a, s) && Inv(a, s) && !e.ReinitFires? && CanHappen(a, s, e)
    ensures !Dead(a.kinds[e.m], s.ctx[e.m])
  {
    assert ModuleOk(a.kinds[e.m], s.infra.status.conn[e.m], Bringup.Started(s.infra, e.m), s.ctx[e.m]);
  }

  /** The event brings up a module with which server j, not up, is interdependent:
      the init callback that j is then given starts it afresh. */
  predicate Revives(a: Agent, s: Sys, e: SysEvent, j: nat)
    requires Fits(a, s) && CanHappen(a, s, e) && !e.ReinitFires? && j < a.c.N()
  {
    && EffectOf(a.kinds[e.m], s.ctx[e.m], s.pool, e).report == ReportUp
    && s.infra.status.conn[e.m] != Up && s.infra.status.conn[j] != Up && Bringup.Mutual(a.c, e.m, j)
  }

  /** Short of a reinitialisation nothing else helps a dead server, and no server
      dies but by its own events. */
  lemma DeadExact(a: Agent, s: Sys, e: SysEvent, j: nat)
    requires Fits(a, s) && Inv(a, s) && !s.infra.reinitDue && !e.ReinitFires? && CanHappen(a, s, e)
    requires j < a.c.N() && j != e.m
    ensures Dead(a.kinds[j], NextSys(a, s, e).ctx[j]) <==> Dead(a.kinds[j], s.ctx[j]) && !Revives(a, s, e, j)
  {
    AfterEvent(a, s, e);
    if Dead(a.kinds[j], s.ctx[j]) {
      assert ModuleOk(a.kinds[j], s.infra.status.conn[j], Bringup.Started(s.infra, j), s.ctx[j]);
      RevivesExact(a, s, e, j);
    }
  }

  lemma RevivesExact(a: Agent, s: Sys, e: SysEvent, j: nat)
    requires Fits(a, s) && Inv(a, s) && !s.infra.reinitDue && !e.ReinitFires? && CanHappen(a, s, e)
    requires j < a.c.N() && Bringup.Started(s.infra, j)
    ensures InitCb(j) in CallsOf(a, s, e) <==> Revives(a, s, e, j)
  {
    EventOk(a, s, e);
    var r, calls := EffectOf(a.kinds[e.m], s.ctx[e.m], s.pool, e).report, CallsOf(a, s, e);
    NewCalls(a.c, s.infra, e.m, r);
    assert Bringup.BringUp(a.c, s.infra);
    hide EffectOf, Inv, Bringup.BringUp, StaysOk;
    if r == ReportUp && s.infra.status.conn[e.m] != Up {
      Bringup.SecondInit(a.c, s.infra, e.m, j);
      Bringup.CountAppend(s.infra.calls, calls, InitCb(j));
      Bringup.CountIn(calls, InitCb(j));
    } else {
      assert calls == [];
    }
  }

  // ----- a module's own run ------------------------------------------------------------------

  predicate OnlyOf(es: seq<SysEvent>, m: nat) {
    forall i :: 0 <= i < |es| ==> !es[i].ReinitFires? && es[i].m == m
  }

  function ReportOf(up: bool): Lifecycle.Report {
    if up then ReportUp else ReportDown
  }

  lemma QuietStep(a: Agent, s: Sys, e: SysEvent)
    requires Fits(a, s) && CanHappen(a, s, e) && !e.ReinitFires?
    requires var f, conn := EffectOf(a.kinds[e.m], s.ctx[e.m], s.pool, e), s.infra.status.conn[e.m];
             Recorded(conn, f.report) == conn
    ensures var f, u := EffectOf(a.kinds[e.m], s.ctx[e.m], s.pool, e), NextSys(a, s, e);
            u.infra == s.infra && u.ctx == s.ctx[e.m := f.ctx]
  {
    hide EffectOf;
  }

  /** The module has no part in the death of any server, and the ones it was
      interdependent with are no longer dead. */
  ghost predicate DeadLess(a: Agent, s: Sys, t: Sys, m: nat)
    requires Fits(a, s) && Fits(a, t) && m < a.c.N()
  {
    && !Dead(a.kinds[m], t.ctx[m])
    && forall j: nat :: j < a.c.N() && j != m && Dead(a.kinds[j], t.ctx[j]) ==>
         && Dead(a.kinds[j], s.ctx[j])
         && (t.infra.status.conn[m] == Up && t.infra.status.conn[j] != Up ==> !Bringup.Mutual(a.c, m, j))
  }

  /** The run is of the module's own events, turns it, and does nothing else to the
      infrastructure. */
  ghost predicate TurnedBy(a: Agent, s: Sys, m: nat, up: bool, es: seq<SysEvent>)
    requires Fits(a, s) && m < a.c.N()
  {
    && OnlyOf(es, m) && CanRunSys(a, s, es)
    && var t := AfterSys(a, s, es);
       Inv(a, t) && t.infra == Told(a.c, s.infra, m, ReportOf(up)) && DeadLess(a, s, t, m)
  }

  /** A started module that is not dead can be turned so. */
  lemma {:induction false} Turns(a: Agent, s: Sys, m: nat, up: bool) returns (es: seq<SysEvent>)
    requires Fits(a, s) && Inv(a, s) && !s.infra.reinitDue && CanTurn(a, s, m, up)
    ensures TurnedBy(a, s, m, up, es)
    decreases StepsToReport(a.kinds[m], s.ctx[m], up)
  {
    TowardsCloser(a, s, m, up);
    var e := Towards(a.kinds[m], s.ctx[m], m, up);
    var f := EffectOf(a.kinds[m], s.ctx[m], s.pool, e);
    NextInv(a, s, e);
    hide Inv, NextSys, EffectOf, Towards, Dead, StepsToReport, TurnedBy, CanHappen;
    if f.report == ReportOf(up) {
      TurnsNow(a, s, m, up, e);
      es := [e];
    } else {
      QuietStep(a, s, e);
      var rest := Turns(a, NextSys(a, s, e), m, up);
      TurnsLater(a, s, m, up, e, f, rest);
      es := [e] + rest;
    }
  }

  lemma TurnsNow(a: Agent, s: Sys, m: nat, up: bool, e: SysEvent)
    requires Fits(a, s) && Inv(a, s) && !s.infra.reinitDue && CanTurn(a, s, m, up)
    requires CanHappen(a, s, e) && e.m == m && !e.ReinitFires? && Inv(a, NextSys(a, s, e))
    requires var f := EffectOf(a.kinds[m], s.ctx[m], s.pool, e); f.report == ReportOf(up) && !Dead(a.kinds[m], f.ctx)
    ensures TurnedBy(a, s, m, up, [e])
  {
    hide Inv, NextSys, EffectOf, Dead, CanRunSys, AfterSys, CanHappen;
    LastStep(a, s, e, up);
    RunNothing(a, NextSys(a, s, e));
    RunCons(a, s, e, []);
    assert [e] + [] == [e];
  }

  lemma TurnsLater(a: Agent, s: Sys, m: nat, up: bool, e: SysEvent, f: Effect, rest: seq<SysEvent>)
    requires Fits(a, s) && CanTurn(a, s, m, up) && CanHappen(a, s, e) && !e.ReinitFires? && e.m == m
    requires var u := NextSys(a, s, e); u.infra == s.infra && u.ctx == s.ctx[m := f.ctx]
    requires TurnedBy(a, NextSys(a, s, e), m, up, rest)
    ensures TurnedBy(a, s, m, up, [e] + rest)
  {
    hide Inv, NextSys, EffectOf, Dead, CanRunSys, AfterSys, CanHappen, Told;
    RunCons(a, s, e, rest);
  }

  lemma RunNothing(a: Agent, s: Sys)
    requires Fits(a, s)
    ensures CanRunSys(a, s, []) && AfterSys(a, s, []) == s
  {}

  lemma LastStep(a: Agent, s: Sys, e: SysEvent, up: bool)
    requires Fits(a, s) && Inv(a, s) && !s.infra.reinitDue && CanHappen(a, s, e) && !e.ReinitFires?
    requires s.infra.status.conn[e.m] == Reported(!up)
    requires var f := EffectOf(a.kinds[e.m], s.ctx[e.m], s.pool, e);
             f.report == ReportOf(up) && !Dead(a.kinds[e.m], f.ctx)
    ensures var u := NextSys(a, s, e);
            u.infra == Told(a.c, s.infra, e.m, ReportOf(up)) && DeadLess(a, s, u, e.m)
  {
    var u := NextSys(a, s, e);
    AfterEvent(a, s, e);
    assert u.infra == Told(a.c, s.infra, e.m, ReportOf(up));
    hide Inv, NextSys, EffectOf, Bringup.Mutual, InOrder;
    forall j: nat | j < a.c.N() && j != e.m && Dead(a.kinds[j], u.ctx[j])
      ensures Dead(a.kinds[j], s.ctx[j])
      ensures u.infra.status.conn[e.m] == Up && u.infra.status.conn[j] != Up ==> !Bringup.Mutual(a.c, e.m, j)
    {
      DeadExact(a, s, e, j);
    }
  }

  lemma StartedIsEnabled(a: Agent, s: Sys, m: nat)
    requires Fits(a, s) && Inv(a, s) && !s.infra.reinitDue && m < a.c.N() && Bringup.Started(s.infra, m)
    ensures a.c.enable[m] && s.infra.status.conn[m] != Unset
  {}

  /** A started module that is not up, with no reinit pending: an event of its own
      can happen, and a run of its own events brings it up, if and only if it is
      not a dead server. */
  lemma OwnEventExact(a: Agent, es: seq<SysEvent>, m: nat)
    requires a.Valid() && CanRunSys(a, InitialSys(a), es)
    requires var s := AfterSys(a, InitialSys(a), es);
             && !s.infra.reinitDue && m < a.c.N()
             && Bringup.Started(s.infra, m) && s.infra.status.conn[m] != Up
    ensures var s := AfterSys(a, InitialSys(a), es);
            && (!Dead(a.kinds[m], s.ctx[m]) <==>
                  exists e: SysEvent :: !e.ReinitFires? && e.m == m && CanHappen(a, s, e))
            && (!Dead(a.kinds[m], s.ctx[m]) <==> ComesUpByItself(a, s, m))
  {
    InitialInv(a);
    RunInv(a, InitialSys(a), es);
    var s := AfterSys(a, InitialSys(a), es);
    StartedIsEnabled(a, s, m);
    hide Inv, Bringup.Started, InitialSys, CanRunSys, AfterSys;
    forall e: SysEvent | !e.ReinitFires? && e.m == m && CanHappen(a, s, e) ensures !Dead(a.kinds[m], s.ctx[m]) {
      DeadSilent(a, s, e);
    }
    if !Dead(a.kinds[m], s.ctx[m]) {
      TowardsCloser(a, s, m, true);
      var own := Turns(a, s, m, true);
    }
    DeadNotByItself(a, s, m);
  }

  ghost predicate ComesUpByItself(a: Agent, s: Sys, m: nat)
    requires Fits(a, s) && m < a.c.N()
  {
    exists es: seq<SysEvent> ::
      OnlyOf(es, m) && CanRunSys(a, s, es) && AfterSys(a, s, es).infra.status.conn[m] == Up
  }

  lemma DeadNotByItself(a: Agent, s: Sys, m: nat)
    requires Fits(a, s) && Inv(a, s) && m < a.c.N() && s.infra.status.conn[m] != Up
    ensures Dead(a.kinds[m], s.ctx[m]) ==> !ComesUpByItself(a, s, m)
  {
    forall es: seq<SysEvent> | Dead(a.kinds[m], s.ctx[m]) && OnlyOf(es, m) && CanRunSys(a, s, es) ensures es == [] {
      if es != [] { DeadSilent(a, s, es[0]); }
    }
  }

  // ----- as far as one gets without starting everything afresh -----------------------------------

  /** Every started module that is not up is dead. */
  ghost predicate Settled(a: Agent, s: Sys)
    requires Fits(a, s)
  {
    forall m: nat :: m < a.c.N() && Bringup.Started(s.infra, m) && s.infra.status.conn[m] != Up ==>
      Dead(a.kinds[m], s.ctx[m])
  }

  /** From s to t modules have only come up. What is dead in t was so in s, and if
      it is waited for, then so is all it is interdependent with that was. */
  ghost predicate Onward(a: Agent, s: Sys, t: Sys)
    requires Fits(a, s) && Fits(a, t)
  {
    && Progress.Waiting(a.c, t.infra) <= Progress.Waiting(a.c, s.infra)
    && forall j: nat :: j < a.c.N() && Dead(a.kinds[j], t.ctx[j]) ==>
         && Dead(a.kinds[j], s.ctx[j]) && t.infra.status.conn[j] == s.infra.status.conn[j]
         && forall p <- Progress.Waiting(a.c, s.infra) - Progress.Waiting(a.c, t.infra) ::
              t.infra.status.conn[j] != Up ==> !Bringup.Mutual(a.c, p, j)
  }

  lemma OneOnward(a: Agent, s: Sys, t: Sys, m: nat)
    requires Fits(a, s) && Fits(a, t) && m in Progress.Waiting(a.c, s.infra)
    requires t.infra == OnUp(a.c, s.infra, m) && DeadLess(a, s, t, m)
    ensures Onward(a, s, t)
    ensures Progress.Waiting(a.c, t.infra) == Progress.Waiting(a.c, s.infra) - {m}
  {
    hide Bringup.Mutual, Dead;
    Progress.UpIsProgress(a.c, s.infra, m);
    assert Progress.Waiting(a.c, s.infra) - Progress.Waiting(a.c, t.infra) == {m};
  }

  lemma TwiceOnward(a: Agent, s: Sys, t: Sys, u: Sys)
    requires Fits(a, s) && Fits(a, t) && Fits(a, u) && Onward(a, s, t) && Onward(a, t, u)
    ensures Onward(a, s, u)
  {
    hide Bringup.Mutual, Dead, Progress.Waiting;
  }

  /** The run gets as far as one gets. */
  ghost predicate BroughtOn(a: Agent, s: Sys, es: seq<SysEvent>)
    requires Fits(a, s)
  {
    && CanRunSys(a, s, es)
    && var t := AfterSys(a, s, es);
       Inv(a, t) && !t.infra.reinitDue && Settled(a, t) && Onward(a, s, t)
  }

  /** Let everything come up that can. */
  lemma {:induction false} BringOn(a: Agent, s: Sys) returns (es: seq<SysEvent>)
    requires Fits(a, s) && Inv(a, s) && !s.infra.reinitDue
    ensures BroughtOn(a, s, es)
    decreases Progress.Waiting(a.c, s.infra)
  {
    if Settled(a, s) {
      es := [];
    } else {
      var m: nat :| m < a.c.N() && Bringup.Started(s.infra, m)
                    && s.infra.status.conn[m] != Up && !Dead(a.kinds[m], s.ctx[m]);
      StartedIsEnabled(a, s, m);
      hide Inv, Settled, Onward, Dead, DeadLess, OnUp, CanRunSys, AfterSys, BroughtOn;
      var first := Turns(a, s, m, true);
      TurnIsOnward(a, s, m, first);
      var rest := BringOn(a, AfterSys(a, s, first));
      BringOnLater(a, s, first, rest);
      es := first + rest;
    }
  }

  lemma TurnIsOnward(a: Agent, s: Sys, m: nat, es: seq<SysEvent>)
    requires Fits(a, s) && m < a.c.N() && !s.infra.reinitDue && TurnedBy(a, s, m, true, es)
    requires m in Progress.Waiting(a.c, s.infra)
    ensures CanRunSys(a, s, es)
    ensures var t := AfterSys(a, s, es);
            && Inv(a, t) && !t.infra.reinitDue && Onward(a, s, t)
            && Progress.Waiting(a.c, t.infra) < Progress.Waiting(a.c, s.infra)
  {
    hide Inv, Onward, Dead, DeadLess, CanRunSys, AfterSys, Progress.Waiting;
    OneOnward(a, s, AfterSys(a, s, es), m);
  }

  lemma BringOnLater(a: Agent, s: Sys, first: seq<SysEvent>, rest: seq<SysEvent>)
    requires Fits(a, s) && CanRunSys(a, s, first) && Onward(a, s, AfterSys(a, s, first))
    requires BroughtOn(a, AfterSys(a, s, first), rest)
    ensures BroughtOn(a, s, first + rest)
  {
    hide Inv, Settled, Onward, CanRunSys, AfterSys;
    var t := AfterSys(a, s, first);
    RunsInTwo(a, s, first, rest);
    TwiceOnward(a, s, t, AfterSys(a, t, rest));
  }
}
