/** What every event does to the agent, in terms of what is configured, recorded and
    held. */
module Events {
  import opened Bytes
  import opened Infra
  import opened Pipe
  import opened Lifecycle
  import opened System
  import opened Recovery
  import Bringup

  /** Nothing of another module changes, and no callback is made. */
  predicate OnlyOwn(s: Sys, u: Sys, m: nat)
    requires |s.ctx| == |u.ctx|
  {
    && u.infra.calls == s.infra.calls && u.infra.status.registered == s.infra.status.registered
    && forall j :: 0 <= j < |s.ctx| && j != m ==> u.ctx[j] == s.ctx[j]
  }

  /** What is recorded, of module m alone. */
  predicate Records(s: Sys, u: Sys, m: nat, conn: Conn) {
    m < |s.infra.status.conn| && u.infra.status.conn == s.infra.status.conn[m := conn]
  }

  // ----- connections -----------------------------------------------------------------

  lemma AgainStarts(a: Agent, s: Sys, m: nat, y: Ctx, q: Pool, r: Lifecycle.Report)
    requires Fits(a, s) && m < a.c.N() && Own(a.kinds[m], y) && y.infravec
    ensures JustStarted(Again(a.kinds[m], y, q, r).ctx)
  {
    TimerStartBalanced(a.kinds[m], y, q);
  }

  /** A connection that is closed or breaks: the module is recorded as down, holds
      nothing but a pending timer, and everything is to be started afresh unless it
      was down already. */
  lemma ConnectionLost(a: Agent, s: Sys, m: nat, what: What)
    requires Fits(a, s) && Inv(a, s) && !s.infra.reinitDue && m < a.c.N() && s.ctx[m].bev.Some?
    requires what == Eof || what == Error
    ensures CanHappen(a, s, BevReports(m, what))
    ensures var u := NextSys(a, s, BevReports(m, what));
            && Records(s, u, m, Down) && JustStarted(u.ctx[m]) && OnlyOwn(s, u, m)
            && (u.infra.reinitDue <==> s.infra.status.conn[m] != Down)
  {
    var e := BevReports(m, what);
    EventOk(a, s, e);
    InOrderOwn(a.kinds[m], s.ctx[m]);
    AgainStarts(a, s, m, s.ctx[m], s.pool, ReportDown);
    AfterEvent(a, s, e);
    hide Inv, TimerStart, InOrder, Conserved, StaysOk, JustStarted;
    assert CallsOf(a, s, e) == [];
  }

  /** A client whose connection is established is recorded as up. */
  lemma ClientConnected(a: Agent, s: Sys, m: nat)
    requires Fits(a, s) && Inv(a, s) && !s.infra.reinitDue && m < a.c.N() && s.ctx[m].bev.Some?
    requires a.kinds[m] == TcpClient
    ensures CanHappen(a, s, BevReports(m, Connected))
    ensures var u := NextSys(a, s, BevReports(m, Connected));
            Records(s, u, m, Up) && u.ctx[m] == s.ctx[m] && !u.infra.reinitDue
  {
    var e := BevReports(m, Connected);
    AfterEvent(a, s, e);
    hide Inv, InOrder, Conserved, JustStarted;
  }

  /** Any other event of a connection changes nothing. */
  lemma ConnectionOther(a: Agent, s: Sys, m: nat, what: What)
    requires Fits(a, s) && Inv(a, s) && m < a.c.N() && s.ctx[m].bev.Some?
    requires what == Other || (what == Connected && a.kinds[m] != TcpClient)
    ensures CanHappen(a, s, BevReports(m, what)) && NextSys(a, s, BevReports(m, what)) == s
  {
    QuietStep(a, s, BevReports(m, what));
  }

  // ----- timers ------------------------------------------------------------------------

  /** A client's timer: a connection is under way, or the client waits for a timer
      afresh. */
  lemma ClientTimer(a: Agent, s: Sys, m: nat, o: Outcome)
    requires Fits(a, s) && Inv(a, s) && m < a.c.N() && a.kinds[m] == TcpClient && s.ctx[m].timerPending
    ensures CanHappen(a, s, TimerExpires(m, o))
    ensures var x, u := s.ctx[m], NextSys(a, s, TimerExpires(m, o));
            && u.infra == s.infra && OnlyOwn(s, u, m)
            && if o == Good
               then u.ctx[m].bev.Some? && u.ctx[m] == x.(timerPending := false, bev := u.ctx[m].bev)
               else JustStarted(u.ctx[m])
  {
    var x, h := s.ctx[m], s.pool.next;
    assert ModuleOk(a.kinds[m], s.infra.status.conn[m], Bringup.Started(s.infra, m), x);
    QuietStep(a, s, TimerExpires(m, o));
    var y := x.(timerPending := false);
    hide Inv, TimerStart, NextSys;
    AgainStarts(a, s, m, y.(bev := None), s.pool, Nothing);
    AgainStarts(a, s, m, y.(bev := Some(h)), s.pool.(next := h + 1), Nothing);
  }

  /** A server's: it listens, or is left with nothing that could call it. */
  lemma ServerTimer(a: Agent, s: Sys, m: nat, o: Outcome)
    requires Fits(a, s) && Inv(a, s) && m < a.c.N() && a.kinds[m] == TcpServer && s.ctx[m].timerPending
    ensures CanHappen(a, s, TimerExpires(m, o))
    ensures var x, u := s.ctx[m], NextSys(a, s, TimerExpires(m, o));
            && u.infra == s.infra && OnlyOwn(s, u, m)
            && (u.ctx[m].listener.Some? <==> o == Good)
            && u.ctx[m] == x.(timerPending := false, listener := u.ctx[m].listener)
  {
    assert ModuleOk(a.kinds[m], s.infra.status.conn[m], Bringup.Started(s.infra, m), s.ctx[m]);
    QuietStep(a, s, TimerExpires(m, o));
    hide Inv, NextSys;
  }

  /** The kernel module's: it is up, with a socket and a read event, or waits for a
      timer afresh. */
  lemma KernelTimer(a: Agent, s: Sys, m: nat, o: Outcome)
    requires Fits(a, s) && Inv(a, s) && !s.infra.reinitDue
    requires m < a.c.N() && a.kinds[m] == Kernel && s.ctx[m].timerPending
    ensures CanHappen(a, s, TimerExpires(m, o))
    ensures var x, u := s.ctx[m], NextSys(a, s, TimerExpires(m, o));
            if o == Good
            then && Records(s, u, m, Up) && !u.infra.reinitDue
                 && u.ctx[m].nlsock.Some? && u.ctx[m].socketRead.Some?
                 && u.ctx[m] == x.(timerPending := false, nlsock := u.ctx[m].nlsock, socketRead := u.ctx[m].socketRead)
            else u.infra == s.infra && OnlyOwn(s, u, m) && JustStarted(u.ctx[m])
  {
    var x, h := s.ctx[m], s.pool.next;
    var e := TimerExpires(m, o);
    EventOk(a, s, e);
    assert ModuleOk(a.kinds[m], s.infra.status.conn[m], Bringup.Started(s.infra, m), x);
    assert s.infra.status.conn[m] == Down;
    if o == Good {
      KernelConnects(a, s, m);
    } else {
      var y := x.(timerPending := false, nlsock := Some(h));
      QuietStep(a, s, e);
      hide Inv, TimerStart, NextSys;
      AgainStarts(a, s, m, y, s.pool.(next := h + 1), ReportDown);
      AgainStarts(a, s, m, y.(socketRead := None), s.pool.(next := h + 1), ReportDown);
    }
  }

  lemma KernelConnects(a: Agent, s: Sys, m: nat)
    requires Fits(a, s) && Inv(a, s) && !s.infra.reinitDue
    requires m < a.c.N() && a.kinds[m] == Kernel && s.ctx[m].timerPending && s.infra.status.conn[m] != Up
    ensures var x, u := s.ctx[m], NextSys(a, s, TimerExpires(m, Good));
            && Records(s, u, m, Up) && !u.infra.reinitDue
            && u.ctx[m].nlsock.Some? && u.ctx[m].socketRead.Some?
            && u.ctx[m] == x.(timerPending := false, nlsock := u.ctx[m].nlsock, socketRead := u.ctx[m].socketRead)
  {
    AfterEvent(a, s, TimerExpires(m, Good));
    hide Inv, InOrder, Conserved, JustStarted;
  }

  /** The programmable-RPD client's: the manager thread starts out as down on an
      empty pipe, or the module waits for a timer afresh. */
  lemma PrpdTimer(a: Agent, s: Sys, m: nat, o: Outcome)
    requires Fits(a, s) && Inv(a, s) && m < a.c.N() && a.kinds[m] == Prpd && s.ctx[m].timerPending
    ensures CanHappen(a, s, TimerExpires(m, o))
    ensures var u := NextSys(a, s, TimerExpires(m, o));
            var y := u.ctx[m];
            && u.infra == s.infra && OnlyOwn(s, u, m)
            && if o != Good then JustStarted(y)
               else && y.manager.Some? && y.manager.value.connectionState == Down && y.manager.value.pc == OuterTest
                    && y.queue == [] && !y.timerPending && y.startTimer == s.ctx[m].startTimer
                    && y.channel.Some? && y.exitSignal.Some? && y.futureObj.Some? && y.thread.Some?
                    && y.pipeIn.Some? && y.pipeOut.Some? && y.pipeRead.Some?
  {
    var x := s.ctx[m];
    assert ModuleOk(a.kinds[m], s.infra.status.conn[m], Bringup.Started(s.infra, m), x);
    QuietStep(a, s, TimerExpires(m, o));
    var (ok, y, q) := RibClientInit(x.(timerPending := false), s.pool, o);
    hide Inv, TimerStart, NextSys;
    if !ok { AgainStarts(a, s, m, y, q, Nothing); }
  }

  // ----- servers ---------------------------------------------------------------------------

  /** A first connection is taken and the server recorded as up; while it lasts, and
      where it cannot be taken, nothing changes. */
  lemma Accepting(a: Agent, s: Sys, m: nat, ok: bool)
    requires Fits(a, s) && Inv(a, s) && !s.infra.reinitDue
    requires m < a.c.N() && a.kinds[m] == TcpServer && s.ctx[m].listener.Some?
    ensures CanHappen(a, s, Accepts(m, ok))
    ensures var x, u := s.ctx[m], NextSys(a, s, Accepts(m, ok));
            if ok && x.bev.None?
            then && Records(s, u, m, Up) && !u.infra.reinitDue
                 && u.ctx[m].bev.Some? && u.ctx[m] == x.(bev := u.ctx[m].bev)
            else u == s
  {
    var x, e := s.ctx[m], Accepts(m, ok);
    if ok && x.bev.None? {
      AfterEvent(a, s, e);
      hide Inv, InOrder, Conserved, JustStarted;
    } else {
      assert x == x.(bev := x.bev);
      QuietStep(a, s, e);
    }
  }

  /** A listener error leaves the server with a pending timer alone, and what is
      recorded as it was. */
  lemma ListenerLost(a: Agent, s: Sys, m: nat)
    requires Fits(a, s) && Inv(a, s) && m < a.c.N() && a.kinds[m] == TcpServer && s.ctx[m].listener.Some?
    ensures CanHappen(a, s, ListenerFails(m))
    ensures var u := NextSys(a, s, ListenerFails(m));
            u.infra == s.infra && OnlyOwn(s, u, m) && JustStarted(u.ctx[m])
  {
    assert ModuleOk(a.kinds[m], s.infra.status.conn[m], Bringup.Started(s.infra, m), s.ctx[m]);
    InOrderOwn(a.kinds[m], s.ctx[m]);
    QuietStep(a, s, ListenerFails(m));
    hide Inv, TimerStart, NextSys, InOrder;
    AgainStarts(a, s, m, s.ctx[m], s.pool, Nothing);
  }

  // ----- the pipe --------------------------------------------------------------------------

  /** The first message in the pipe is taken out and recorded; if it says DOWN,
      everything is to be started afresh. */
  lemma PipeRead(a: Agent, s: Sys, m: nat)
    requires Fits(a, s) && Inv(a, s) && !s.infra.reinitDue
    requires m < a.c.N() && a.kinds[m] == Prpd && s.ctx[m].queue != []
    ensures CanHappen(a, s, PipeReads(m))
    ensures var x, u := s.ctx[m], NextSys(a, s, PipeReads(m));
            && Records(s, u, m, x.queue[0]) && u.ctx[m] == x.(queue := x.queue[1..])
            && (u.infra.reinitDue <==> x.queue[0] == Down)
  {
    var x, e := s.ctx[m], PipeReads(m);
    assert ModuleOk(a.kinds[m], s.infra.status.conn[m], Bringup.Started(s.infra, m), x);
    PipeOk(s.infra.status.conn[m], x, s.pool);
    AfterEvent(a, s, e);
    OwnNotRestarted(a, s, e);
    hide Inv, InOrder, Conserved, JustStarted, InStep;
  }

  /** A step of the thread changes its own state and the pipe, where it may add one
      message, and nothing else. */
  lemma ManagerSteps(a: Agent, s: Sys, m: nat, ch: Channel)
    requires Fits(a, s) && Inv(a, s) && m < a.c.N() && a.kinds[m] == Prpd && s.ctx[m].manager.Some?
    ensures CanHappen(a, s, ManagerRuns(m, ch))
    ensures var x, u := s.ctx[m], NextSys(a, s, ManagerRuns(m, ch));
            && u.infra == s.infra && OnlyOwn(s, u, m)
            && u.ctx[m] == x.(manager := u.ctx[m].manager, queue := u.ctx[m].queue)
            && x.queue <= u.ctx[m].queue && |u.ctx[m].queue| <= |x.queue| + 1
  {
    QuietStep(a, s, ManagerRuns(m, ch));
    hide Inv, NextSys;
  }

  // ----- what a module's coming up starts ------------------------------------------------------

  /** An init callback goes to no module that is up, so never to the event's own. */
  lemma OwnNotRestarted(a: Agent, s: Sys, e: SysEvent)
    requires Fits(a, s) && Inv(a, s) && !e.ReinitFires? && CanHappen(a, s, e)
    ensures InitCb(e.m) !in CallsOf(a, s, e)
  {
    EventOk(a, s, e);
    NewCalls(a.c, s.infra, e.m, EffectOf(a.kinds[e.m], s.ctx[e.m], s.pool, e).report);
    hide Inv, EffectOf, StaysOk;
  }

  /** Module j wants the events of k, and with k up everything enabled is that wants
      the events of j, and whose events j does not want. */
  predicate StartsWith(a: Agent, s: Sys, k: nat, j: nat)
    requires Fits(a, s) && k < a.c.N() && j < a.c.N()
  {
    var c, conn := a.c, s.infra.status.conn;
    && c.enable[j] && c.notify[k][j] && j != k && conn[j] != Up
    && forall i: nat :: i < c.N() && i != k && c.enable[i] && c.notify[i][j] && !c.notify[j][i] ==> conn[i] == Up
  }

  /** When a module comes up, exactly the modules it wants the events of that nothing
      else holds back are started; all others stay as they were. */
  lemma ComesUp(a: Agent, s: Sys, e: SysEvent, j: nat)
    requires Fits(a, s) && Inv(a, s) && !s.infra.reinitDue && !e.ReinitFires? && CanHappen(a, s, e)
    requires s.infra.status.conn[e.m] != Up && NextSys(a, s, e).infra.status.conn[e.m] == Up
    requires j < a.c.N() && j != e.m
    ensures var u := NextSys(a, s, e);
            if StartsWith(a, s, e.m, j) then JustStarted(u.ctx[j]) else u.ctx[j] == s.ctx[j]
  {
    EventOk(a, s, e);
    AfterEvent(a, s, e);
    hide EffectOf, NextSys, InOrder, Conserved, JustStarted, StaysOk, SysInv;
    StartsExactly(a, s, e, j);
  }

  lemma StartsExactly(a: Agent, s: Sys, e: SysEvent, j: nat)
    requires Fits(a, s) && Inv(a, s) && !s.infra.reinitDue && !e.ReinitFires? && CanHappen(a, s, e)
    requires s.infra.status.conn[e.m] != Up && EffectOf(a.kinds[e.m], s.ctx[e.m], s.pool, e).report == ReportUp
    requires j < a.c.N() && j != e.m
    ensures InitCb(j) in CallsOf(a, s, e) <==> StartsWith(a, s, e.m, j)
  {
    assert Bringup.Sound(a.c, s.infra);
    assert CallsOf(a, s, e) == OnUp(a.c, s.infra, e.m).calls[|s.infra.calls|..];
    hide EffectOf, Inv, CallsOf, OnUp, CanHappen;
    UpStarts(a.c, s.infra, e.m, j);
    MayInitInFields(a, s, e.m, j, s.infra.status.(conn := s.infra.status.conn[e.m := Up]));
  }

  lemma UpStarts(c: Config, s: State, k: nat, j: nat)
    requires c.Valid() && s.status.Fits(c.N()) && k < c.N() && j < c.N() && s.status.conn[k] != Up
    ensures |s.calls| <= |OnUp(c, s, k).calls|
    ensures InitCb(j) in OnUp(c, s, k).calls[|s.calls|..] <==>
              c.notify[k][j] && MayInit(c, s.status.(conn := s.status.conn[k := Up]), j)
  {
    hide Inits, Flashes, MayInit, MayFlash;
    var t := s.status.(conn := s.status.conn[k := Up]);
    var ins, fs := Inits(c, t, c.notify[k], 0), Flash(c, t, k) + Flashes(c, t, c.notify[k], 0);
    InInits(c, t, c.notify[k], j);
    OnlyFlashes(c, t, c.notify[k], 0);
    assert OnUp(c, s, k).calls == s.calls + (ins + fs);
    assert OnUp(c, s, k).calls[|s.calls|..] == ins + fs;
  }

  lemma MayInitInFields(a: Agent, s: Sys, k: nat, j: nat, t: Status)
    requires Fits(a, s) && Bringup.Sound(a.c, s.infra) && !s.infra.reinitDue && k < a.c.N() && j < a.c.N() && j != k
    requires t == s.infra.status.(conn := s.infra.status.conn[k := Up])
    ensures a.c.notify[k][j] && MayInit(a.c, t, j) <==> StartsWith(a, s, k, j)
  {
    var c := a.c;
    assert forall i: nat :: i < c.N() ==>
             (HoldsBack(c, t, i, j) <==> c.enable[i] && c.notify[i][j] && !c.notify[j][i]);
  }

  // ----- reinitialisation ------------------------------------------------------------------------

  /** Every enabled module is recorded as down; those that no other enabled module
      holds back start with a timer alone, and the others with nothing. */
  lemma Reinitialised(a: Agent, s: Sys, m: nat)
    requires Fits(a, s) && Inv(a, s) && s.infra.reinitDue && m < a.c.N()
    ensures CanHappen(a, s, ReinitFires)
    ensures var c, u := a.c, NextSys(a, s, ReinitFires);
            && !u.infra.reinitDue && u.infra.status.registered == c.enable
            && (c.enable[m] ==> u.infra.status.conn[m] == Down)
            && if c.enable[m] && !exists i: nat :: i < c.N() && c.enable[i] && c.notify[i][m] && !c.notify[m][i]
               then JustStarted(u.ctx[m])
               else u.ctx[m] == EMPTY
  {
    ReinitContexts(a, s);
    NextInv(a, s, ReinitFires);
    var c, u := a.c, NextSys(a, s, ReinitFires);
    assert Bringup.BringUp(c, u.infra) && !u.infra.reinitDue;
    hide Inv, NextSys, JustStarted;
    Bringup.StartDue(c, u.infra, m);
    forall i: nat | i < c.N() ensures u.infra.status.conn[i] != Up { NotUpAfterReinitNow(a, s, i); }
    ReinitRegisters(a, s);
  }

  lemma ReinitRegisters(a: Agent, s: Sys)
    requires Fits(a, s) && Inv(a, s) && s.infra.reinitDue
    ensures var u := NextSys(a, s, ReinitFires).infra.status;
            u.registered == a.c.enable && forall m: nat :: m < a.c.N() && a.c.enable[m] ==> u.conn[m] == Down
  {
    assert Bringup.Sound(a.c, s.infra);
    hide ApplyCalls, Inits, Inv;
    assert NextSys(a, s, ReinitFires).infra.status.registered == a.c.enable;
  }

  lemma NotUpAfterReinitNow(a: Agent, s: Sys, i: nat)
    requires Fits(a, s) && Inv(a, s) && s.infra.reinitDue && i < a.c.N()
    ensures NextSys(a, s, ReinitFires).infra.status.conn[i] != Up
  {
    NotUpAfterReinit(a, s, i);
  }
}
