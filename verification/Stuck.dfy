/** Exactly which agents can get into a state from which they do not get all their
    modules up any more. */
module Stuck {
  import opened Infra
  import opened Lifecycle
  import opened System
  import opened Runs
  import opened Recovery
  import opened Completion
  import Bringup
  import Progress

  // ----- which agents never get stuck ----------------------------------------------------------------

  /** There is a server among the modules that m must wait for, m included. */
  ghost predicate BehindServer(a: Agent, m: nat)
    requires a.Valid()
  {
    exists p: seq<nat> :: LeadsToServer(a, p) && p[0] == m
  }

  predicate LeadsToServer(a: Agent, p: seq<nat>)
    requires a.Valid()
  {
    p != [] && Progress.IsPath(a.c, p) && p[|p| - 1] < a.c.N() && a.kinds[p[|p| - 1]] == TcpServer
  }

  lemma BehindOne(a: Agent, i: nat, m: nat)
    requires a.Valid() && Progress.Before(a.c, i, m) && BehindServer(a, i)
    ensures BehindServer(a, m)
  {
    var p: seq<nat> :| LeadsToServer(a, p) && p[0] == i;
    var q := [m] + p;
    forall k: nat | k + 1 < |q| ensures Progress.Link(a.c, q, k) {
      if k > 0 { assert Progress.Link(a.c, p, k - 1); }
    }
    assert LeadsToServer(a, q);
  }

  predicate NoServer(a: Agent)
    requires a.Valid()
  {
    forall m: nat :: m < a.c.N() && a.c.enable[m] ==> a.kinds[m] != TcpServer
  }

  /** A module that no server can keep from coming up, and that can go down. */
  ghost predicate HasSpare(a: Agent)
    requires a.Valid()
  {
    exists m: nat :: m < a.c.N() && a.c.enable[m] && a.kinds[m] != Kernel && !BehindServer(a, m)
  }

  ghost predicate NeverStuck(a: Agent)
    requires a.Valid()
  {
    forall es: seq<SysEvent> :: CanRunSys(a, InitialSys(a), es) ==> CompletesFrom(a, AfterSys(a, InitialSys(a), es))
  }

  lemma SpareHasHope(a: Agent, s: Sys, m: nat)
    requires Fits(a, s) && Progress.Acyclic(a.c) && m < a.c.N() && !BehindServer(a, m)
    ensures !Hopeless(a, s, m)
  {
    hide Progress.Acyclic, BehindServer;
    forall ws: set<nat> | Blocked(a, s, ws) && m in ws ensures false {
      var vs := set i | i in ws && !BehindServer(a, i);
      forall i <- vs ensures Progress.WaitsIn(a.c, vs, i) {
        assert Stays(a, s, ws, i);
        ServerBehindItself(a, i);
        assert Progress.WaitsIn(a.c, ws, i);
        var j :| j in ws && Progress.Before(a.c, j, i);
        if BehindServer(a, j) { BehindOne(a, j, i); }
      }
      assert m in vs;
      Progress.DeadlockHasCycle(a.c, vs);
    }
  }

  lemma ServerBehindItself(a: Agent, m: nat)
    requires a.Valid() && m < a.c.N()
    ensures a.kinds[m] == TcpServer ==> BehindServer(a, m)
  {
    assert [m][0] == m;
    if a.kinds[m] == TcpServer { assert LeadsToServer(a, [m]); }
  }

  lemma OnlyServersDie(a: Agent, s: Sys, m: nat)
    requires Fits(a, s) && Inv(a, s) && !s.infra.reinitDue && m < a.c.N() && Dead(a.kinds[m], s.ctx[m])
    ensures a.c.enable[m] && a.kinds[m] == TcpServer
  {
    assert ModuleOk(a.kinds[m], s.infra.status.conn[m], Bringup.Started(s.infra, m), s.ctx[m]);
    StartedIsEnabled(a, s, m);
  }

  lemma SpareNeverStuck(a: Agent, es: seq<SysEvent>)
    requires a.Valid() && CanRunSys(a, InitialSys(a), es)
    requires Progress.Acyclic(a.c) && (NoServer(a) || HasSpare(a))
    ensures CompletesFrom(a, AfterSys(a, InitialSys(a), es))
  {
    InitialInv(a);
    RunInv(a, InitialSys(a), es);
    CompletesExact(a, es);
    var s := AfterSys(a, InitialSys(a), es);
    hide Inv, Progress.Acyclic, BehindServer, Hopeless, CompletesFrom, InitialSys, AllHopeful;
    if !s.infra.reinitDue {
      if NoServer(a) {
        forall m: nat | m < a.c.N() ensures !Dead(a.kinds[m], s.ctx[m]) {
          if Dead(a.kinds[m], s.ctx[m]) { OnlyServersDie(a, s, m); }
        }
        NobodyDead(a, s);
      } else {
        var m: nat :| m < a.c.N() && a.c.enable[m] && a.kinds[m] != Kernel && !BehindServer(a, m);
        SpareHasHope(a, s, m);
        ServerBehindItself(a, m);
        assert MayGoDown(a, s, m);
      }
    }
  }

  /** The run that is as bad as can be: every kernel module comes up, and no server
      gets its listener. */
  ghost predicate Barren(a: Agent, s: Sys)
    requires Fits(a, s)
  {
    && Inv(a, s) && !s.infra.reinitDue
    && (forall m: nat :: m < a.c.N() && s.infra.status.conn[m] == Up ==> a.kinds[m] == Kernel)
    && (forall m: nat :: m < a.c.N() && a.kinds[m] == TcpServer && s.ctx[m].infravec ==>
          s.ctx[m].timerPending || Dead(a.kinds[m], s.ctx[m]))
  }

  /** The servers whose listener is yet to be tried. */
  function Untried(a: Agent, s: Sys): set<nat>
    requires Fits(a, s)
  {
    set m: nat | 0 <= m < a.c.N() && a.kinds[m] == TcpServer && s.ctx[m].timerPending
  }

  lemma ListenerNotCreated(a: Agent, s: Sys, m: nat)
    requires Fits(a, s) && Barren(a, s) && m in Untried(a, s)
    ensures var e := TimerExpires(m, ConnectFails);
            && CanHappen(a, s, e)
            && var u := NextSys(a, s, e);
               Barren(a, u) && u.infra == s.infra && Untried(a, u) == Untried(a, s) - {m}
  {
    var e := TimerExpires(m, ConnectFails);
    assert ModuleOk(a.kinds[m], s.infra.status.conn[m], Bringup.Started(s.infra, m), s.ctx[m]);
    NextInv(a, s, e);
    QuietStep(a, s, e);
    hide Inv, NextSys;
  }

  lemma KernelComesUp(a: Agent, s: Sys, m: nat)
    requires Fits(a, s) && Barren(a, s) && m < a.c.N() && a.kinds[m] == Kernel
    requires Bringup.Started(s.infra, m) && s.infra.status.conn[m] != Up
    ensures var e := TimerExpires(m, Good);
            && CanHappen(a, s, e)
            && var u := NextSys(a, s, e);
               Barren(a, u) && Progress.Waiting(a.c, u.infra) < Progress.Waiting(a.c, s.infra)
  {
    var e := TimerExpires(m, Good);
    assert Responsive(a.kinds[m], s.infra.status.conn[m], true, s.ctx[m]);
    NextInv(a, s, e);
    AfterEvent(a, s, e);
    StartedIsEnabled(a, s, m);
    assert NextSys(a, s, e).infra == OnUp(a.c, s.infra, m);
    Progress.UpIsProgress(a.c, s.infra, m);
    hide Inv, NextSys, Progress.Waiting;
  }

  /** While only kernel modules are up, nothing behind a server is started. */
  lemma {:induction false} BehindServerNotStarted(a: Agent, s: Sys, p: seq<nat>)
    requires Fits(a, s) && Barren(a, s) && LeadsToServer(a, p) && |p| > 1
    ensures p[0] < a.c.N() && !Bringup.Started(s.infra, p[0])
    decreases |p|
  {
    assert Progress.Link(a.c, p, 0);
    var i, q := p[1], p[1..];
    assert HoldsBack(a.c, s.infra.status, i, p[0]);
    if Bringup.Started(s.infra, p[0]) {
      assert s.infra.status.conn[i] == Up;
      assert |q| > 1;
      forall k: nat | k + 1 < |q| ensures Progress.Link(a.c, q, k) { assert Progress.Link(a.c, p, k + 1); }
      BehindServerNotStarted(a, s, q);
    }
  }

  lemma BarrenSettled(a: Agent, s: Sys)
    requires Fits(a, s) && Barren(a, s) && Untried(a, s) == {} && !HasSpare(a)
    requires forall m: nat :: m < a.c.N() && a.kinds[m] == Kernel && Bringup.Started(s.infra, m) ==>
               s.infra.status.conn[m] == Up
    ensures Settled(a, s)
  {
    forall m: nat | m < a.c.N() && Bringup.Started(s.infra, m) && s.infra.status.conn[m] != Up
      ensures Dead(a.kinds[m], s.ctx[m])
    {
      StartedIsEnabled(a, s, m);
      assert BehindServer(a, m);
      var p: seq<nat> :| LeadsToServer(a, p) && p[0] == m;
      if |p| > 1 { BehindServerNotStarted(a, s, p); }
      assert Responsive(a.kinds[m], s.infra.status.conn[m], true, s.ctx[m]);
      assert m !in Untried(a, s);
    }
  }

  lemma {:induction false} RunBarren(a: Agent, s: Sys) returns (es: seq<SysEvent>)
    requires Fits(a, s) && Barren(a, s) && !HasSpare(a)
    ensures CanRunSys(a, s, es)
    ensures var t := AfterSys(a, s, es); Barren(a, t) && Settled(a, t)
    decreases Progress.Waiting(a.c, s.infra), Untried(a, s)
  {
    hide Barren, Settled, HasSpare, NextSys, Dead, CanRunSys, AfterSys, CanHappen;
    if m: nat :| m < a.c.N() && a.kinds[m] == Kernel && Bringup.Started(s.infra, m) && s.infra.status.conn[m] != Up {
      KernelComesUp(a, s, m);
      var e := TimerExpires(m, Good);
      var rest := RunBarren(a, NextSys(a, s, e));
      RunCons(a, s, e, rest);
      es := [e] + rest;
    } else if m :| m in Untried(a, s) {
      ListenerNotCreated(a, s, m);
      var e := TimerExpires(m, ConnectFails);
      var rest := RunBarren(a, NextSys(a, s, e));
      RunCons(a, s, e, rest);
      es := [e] + rest;
    } else {
      es := [];
      RunNothing(a, s);
      BarrenSettled(a, s);
    }
  }

  lemma BarrenAtFirst(a: Agent)
    requires a.Valid()
    ensures Fits(a, InitialSys(a)) && CanHappen(a, InitialSys(a), ReinitFires)
    ensures Barren(a, NextSys(a, InitialSys(a), ReinitFires))
  {
    var s0 := InitialSys(a);
    InitialInv(a);
    NextInv(a, s0, ReinitFires);
    ReinitContexts(a, s0);
    var s := NextSys(a, s0, ReinitFires);
    assert !s.infra.reinitDue;
    forall m: nat | m < a.c.N() ensures s.infra.status.conn[m] != Up { NotUpAfterReinit(a, s0, m); }
    hide NextSys, Inv, InitialSys;
  }

  lemma GetsStuck(a: Agent)
    requires a.Valid() && !NoServer(a) && !HasSpare(a)
    ensures !NeverStuck(a)
  {
    BarrenAtFirst(a);
    var s := NextSys(a, InitialSys(a), ReinitFires);
    hide NextSys, Barren, Settled, HasSpare, NoServer, CompletesFrom, InitialSys, CanRunSys, AfterSys, CanHappen;
    var rest := RunBarren(a, s);
    RunCons(a, InitialSys(a), ReinitFires, rest);
    BarrenIsFinal(a, [ReinitFires] + rest);
  }

  lemma BarrenIsHopeless(a: Agent, s: Sys)
    requires Fits(a, s) && Barren(a, s) && Settled(a, s) && !NoServer(a)
    ensures !s.infra.reinitDue && !AllHopeful(a, s) && !CanRestart(a, s)
  {
    SettledIsBlocked(a, s, s);
    var ws := Progress.Waiting(a.c, s.infra);
    hide Blocked, Settled, Inv;
    assert forall m <- ws :: Hopeless(a, s, m);
    var m: nat :| m < a.c.N() && a.c.enable[m] && a.kinds[m] == TcpServer;
    assert m in ws;
  }

  lemma BarrenIsFinal(a: Agent, es: seq<SysEvent>)
    requires a.Valid() && CanRunSys(a, InitialSys(a), es) && !NoServer(a)
    requires Barren(a, AfterSys(a, InitialSys(a), es)) && Settled(a, AfterSys(a, InitialSys(a), es))
    ensures !CompletesFrom(a, AfterSys(a, InitialSys(a), es))
  {
    assert Fits(a, InitialSys(a));
    hide CompletesFrom, Settled, Barren, NoServer, AllHopeful, CanRestart, AfterSys, CanRunSys, InitialSys;
    BarrenIsHopeless(a, AfterSys(a, InitialSys(a), es));
    CompletesExact(a, es);
  }

  /** Exactly which agents never get into a state from which not everything can
      come up any more: those whose subscriptions have no cycle and which have no
      server, or have besides the kernel module one that waits for no server. */
  lemma NeverStuckExact(a: Agent)
    requires a.Valid()
    ensures NeverStuck(a) <==> Progress.Acyclic(a.c) && (NoServer(a) || HasSpare(a))
  {
    hide Progress.Acyclic, NoServer, HasSpare, CompletesFrom;
    if NeverStuck(a) {
      assert CompletesFrom(a, AfterSys(a, InitialSys(a), []));
      AgentCompletes(a);
      if !NoServer(a) && !HasSpare(a) { GetsStuck(a); }
    }
    if Progress.Acyclic(a.c) && (NoServer(a) || HasSpare(a)) {
      forall es: seq<SysEvent> | CanRunSys(a, InitialSys(a), es)
        ensures CompletesFrom(a, AfterSys(a, InitialSys(a), es))
      {
        SpareNeverStuck(a, es);
      }
    }
  }

  // ----- a dead server ---------------------------------------------------------------------------------------

  lemma ServerAcyclic()
    ensures SERVER.Valid() && Progress.Acyclic(SERVER.c)
  {
    assert forall i: nat, m: nat :: !Progress.Before(SERVER.c, i, m);
    forall p: seq<nat> | |p| >= 2 ensures !Progress.IsCycle(SERVER.c, p) {
      assert !Progress.Link(SERVER.c, p, 0);
    }
  }

  lemma ServerLosesListener(s1: Sys) returns (s2: Sys)
    requires Fits(SERVER, s1) && s1.ctx[0].timerPending && s1.ctx[0].listener.None? && s1.ctx[0].bev.None?
    requires SysInv(SERVER, s1) && s1.infra.status.conn[0] == Down
    requires !s1.infra.reinitDue && Bringup.Started(s1.infra, 0)
    ensures CanHappen(SERVER, s1, TimerExpires(0, ConnectFails))
    ensures s2 == NextSys(SERVER, s1, TimerExpires(0, ConnectFails)) && s2.infra == s1.infra
    ensures forall e: SysEvent :: !CanHappen(SERVER, s2, e)
    ensures Progress.Waiting(SERVER.c, s2.infra) == {0} && Progress.Underway(SERVER.c, s2.infra)
  {
    s2 := NextSys(SERVER, s1, TimerExpires(0, ConnectFails));
    assert 0 in Progress.Waiting(SERVER.c, s2.infra);
  }

  /** One server, whose listener cannot be created: nothing subscribes to
      anything, and yet nothing ever happens again. */
  lemma ServerStuck()
    ensures Progress.Acyclic(SERVER.c)
    ensures var es := [ReinitFires, TimerExpires(0, ConnectFails)];
            && CanRunSys(SERVER, InitialSys(SERVER), es)
            && var s := AfterSys(SERVER, InitialSys(SERVER), es);
               && !s.infra.reinitDue && Progress.Waiting(SERVER.c, s.infra) == {0}
               && Progress.Underway(SERVER.c, s.infra)
               && !CompletesFrom(SERVER, s) && forall e: SysEvent :: !CanHappen(SERVER, s, e)
  {
    ServerAcyclic();
    var s1 := ServerStarts();
    var s2 := ServerLosesListener(s1);
    hide NextSys, Progress.Acyclic, Progress.IsCycle, CanHappen;
    var es := [ReinitFires, TimerExpires(0, ConnectFails)];
    assert es[1..][1..] == [];
    assert forall more: seq<SysEvent> :: CanRunSys(SERVER, s2, more) ==> more == [];
  }
}
