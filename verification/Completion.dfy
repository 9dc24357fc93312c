/** From exactly which states the agent still gets all its modules up. */
module Completion {
  import opened Infra
  import opened Lifecycle
  import opened System
  import opened Runs
  import opened Recovery
  import Bringup
  import Progress

  // ----- what keeps modules from coming up ----------------------------------------------------------

  /** Each of these waiting modules is held back by another of them, or is a dead
      server that none of the others waited for would revive. */
  ghost predicate Blocked(a: Agent, s: Sys, ws: set<nat>)
    requires Fits(a, s)
  {
    && ws <= Progress.Waiting(a.c, s.infra)
    && forall m <- ws :: Stays(a, s, ws, m)
  }

  ghost predicate Stays(a: Agent, s: Sys, ws: set<nat>, m: nat)
    requires Fits(a, s) && ws <= Progress.Waiting(a.c, s.infra) && m in ws
  {
    || Progress.WaitsIn(a.c, ws, m)
    || (&& Dead(a.kinds[m], s.ctx[m])
        && forall p <- Progress.Waiting(a.c, s.infra) - ws :: !Bringup.Mutual(a.c, p, m))
  }

  /** Module m does not come up again in this epoch. */
  ghost predicate Hopeless(a: Agent, s: Sys, m: nat)
    requires Fits(a, s)
  {
    exists ws: set<nat> :: Blocked(a, s, ws) && m in ws
  }

  /** Some module can go down, which starts everything afresh: one that has hope,
      is not the kernel module, and is not up with its listener gone. */
  ghost predicate CanRestart(a: Agent, s: Sys)
    requires Fits(a, s)
  {
    exists m: nat :: m < a.c.N() && MayGoDown(a, s, m)
  }

  ghost predicate MayGoDown(a: Agent, s: Sys, m: nat)
    requires Fits(a, s) && m < a.c.N()
  {
    && a.c.enable[m] && a.kinds[m] != Kernel && !Hopeless(a, s, m)
    && !(s.infra.status.conn[m] == Up && Dead(a.kinds[m], s.ctx[m]))
  }

  lemma SettledIsBlocked(a: Agent, s: Sys, t: Sys)
    requires Fits(a, s) && Fits(a, t) && Inv(a, t) && !t.infra.reinitDue && Settled(a, t) && Onward(a, s, t)
    ensures Blocked(a, s, Progress.Waiting(a.c, t.infra))
  {
    var ws := Progress.Waiting(a.c, t.infra);
    assert Bringup.BringUp(a.c, t.infra);
    hide Inv, Bringup.Mutual, Dead;
    forall m <- ws ensures Stays(a, s, ws, m) {
      if !Bringup.Started(t.infra, m) {
        var i: nat :| i < a.c.N() && HoldsBack(a.c, t.infra.status, i, m) && t.infra.status.conn[i] != Up;
        assert i in ws && Progress.Before(a.c, i, m);
      }
    }
  }

  /** No event of its own ever happens to a blocked module, nor any that helps it. */
  lemma BlockedSilent(a: Agent, s: Sys, ws: set<nat>, e: SysEvent)
    requires Fits(a, s) && Inv(a, s) && !s.infra.reinitDue && Blocked(a, s, ws)
    requires !e.ReinitFires? && CanHappen(a, s, e)
    ensures e.m !in ws
  {
    EventOk(a, s, e);
    DeadSilent(a, s, e);
  }

  lemma StaysBlocked(a: Agent, s: Sys, ws: set<nat>, e: SysEvent)
    requires Fits(a, s) && Inv(a, s) && !s.infra.reinitDue && Blocked(a, s, ws)
    requires !e.ReinitFires? && CanHappen(a, s, e) && !NextSys(a, s, e).infra.reinitDue
    ensures Blocked(a, NextSys(a, s, e), ws)
  {
    BlockedSilent(a, s, ws, e);
    WaitingShrinks(a, s, e);
    hide Inv, NextSys, Dead, CanHappen, Stays;
    forall m <- ws ensures Stays(a, NextSys(a, s, e), ws, m) {
      OneStays(a, s, ws, e, m);
    }
  }

  /** Short of a DOWN change, at most the event's own module is no longer waited for. */
  lemma WaitingShrinks(a: Agent, s: Sys, e: SysEvent)
    requires Fits(a, s) && Inv(a, s) && !s.infra.reinitDue
    requires !e.ReinitFires? && CanHappen(a, s, e) && !NextSys(a, s, e).infra.reinitDue
    ensures var u := NextSys(a, s, e);
            Progress.Waiting(a.c, s.infra) - {e.m} <= Progress.Waiting(a.c, u.infra) <= Progress.Waiting(a.c, s.infra)
  {
    EventOk(a, s, e);
    hide Inv, EffectOf, ApplyCalls, StaysOk;
  }

  lemma OneStays(a: Agent, s: Sys, ws: set<nat>, e: SysEvent, m: nat)
    requires Fits(a, s) && Inv(a, s) && !s.infra.reinitDue && m in ws
    requires !e.ReinitFires? && CanHappen(a, s, e) && e.m !in ws && m < a.c.N()
    requires ws <= Progress.Waiting(a.c, s.infra) && ws <= Progress.Waiting(a.c, NextSys(a, s, e).infra)
    requires Progress.Waiting(a.c, NextSys(a, s, e).infra) <= Progress.Waiting(a.c, s.infra)
    requires Stays(a, s, ws, m)
    ensures Stays(a, NextSys(a, s, e), ws, m)
  {
    if !Progress.WaitsIn(a.c, ws, m) {
      EventOk(a, s, e);
      hide Inv, NextSys, EffectOf, Bringup.Mutual, Dead, StaysOk;
      DeadExact(a, s, e, m);
      assert s.infra.status.conn[e.m] != Up ==> e.m in Progress.Waiting(a.c, s.infra);
    }
  }

  // ----- exactly when the agent gets everything up -------------------------------------------------------

  predicate Complete(a: Agent, s: Sys)
    requires Fits(a, s)
  {
    !s.infra.reinitDue && Progress.Waiting(a.c, s.infra) == {}
  }

  ghost predicate CompletesFrom(a: Agent, s: Sys)
    requires Fits(a, s)
  {
    exists es: seq<SysEvent> :: CanRunSys(a, s, es) && Complete(a, AfterSys(a, s, es))
  }

  ghost predicate AllHopeful(a: Agent, s: Sys)
    requires Fits(a, s)
  {
    forall m: nat :: !Hopeless(a, s, m)
  }

  lemma HopelessStays(a: Agent, s: Sys, e: SysEvent, m: nat)
    requires Fits(a, s) && Inv(a, s) && !s.infra.reinitDue && !e.ReinitFires? && CanHappen(a, s, e)
    requires !NextSys(a, s, e).infra.reinitDue && Hopeless(a, s, m)
    ensures Hopeless(a, NextSys(a, s, e), m)
  {
    hide Inv, NextSys, Blocked, CanHappen;
    var ws: set<nat> :| Blocked(a, s, ws) && m in ws;
    StaysBlocked(a, s, ws, e);
  }

  /** What hope there is after an event of a module there was before it; and an
      event after which everything is to be started afresh is a module going down. */
  lemma HopeBefore(a: Agent, s: Sys, e: SysEvent)
    requires Fits(a, s) && Inv(a, s) && !s.infra.reinitDue && CanHappen(a, s, e)
    ensures var u := NextSys(a, s, e);
            if u.infra.reinitDue then CanRestart(a, s)
            else (AllHopeful(a, u) ==> AllHopeful(a, s)) && (CanRestart(a, u) ==> CanRestart(a, s))
  {
    var u := NextSys(a, s, e);
    if u.infra.reinitDue {
      GoesDown(a, s, e);
    } else {
      assert !e.ReinitFires?;
      hide Inv, NextSys, Hopeless, CanHappen, Dead;
      forall m: nat | Hopeless(a, s, m) ensures Hopeless(a, u, m) { HopelessStays(a, s, e, m); }
      if CanRestart(a, u) {
        var m: nat :| m < a.c.N() && MayGoDown(a, u, m);
        if s.infra.status.conn[m] == Up && Dead(a.kinds[m], s.ctx[m]) { UpAndDeadStays(a, s, e, m); }
        assert MayGoDown(a, s, m);
      }
    }
  }

  lemma UpAndDeadStays(a: Agent, s: Sys, e: SysEvent, m: nat)
    requires Fits(a, s) && Inv(a, s) && !s.infra.reinitDue && !e.ReinitFires? && CanHappen(a, s, e) && m < a.c.N()
    requires s.infra.status.conn[m] == Up && Dead(a.kinds[m], s.ctx[m])
    ensures var u := NextSys(a, s, e); u.infra.status.conn[m] == Up && Dead(a.kinds[m], u.ctx[m])
  {
    DeadSilent(a, s, e);
    AfterEvent(a, s, e);
    DeadExact(a, s, e, m);
  }

  lemma GoesDown(a: Agent, s: Sys, e: SysEvent)
    requires Fits(a, s) && Inv(a, s) && !s.infra.reinitDue && CanHappen(a, s, e) && NextSys(a, s, e).infra.reinitDue
    ensures CanRestart(a, s)
  {
    EventOk(a, s, e);
    DeadSilent(a, s, e);
    var k, x, conn := a.kinds[e.m], s.ctx[e.m], s.infra.status.conn[e.m];
    assert ModuleOk(k, conn, true, x);
    assert EffectOf(k, x, s.pool, e).report == ReportDown && conn == Up;
    forall ws: set<nat> | Blocked(a, s, ws) ensures e.m !in ws { BlockedSilent(a, s, ws, e); }
    assert MayGoDown(a, s, e.m);
  }

  lemma {:induction false} HopeAtFirst(a: Agent, s: Sys, es: seq<SysEvent>)
    requires Fits(a, s) && Inv(a, s) && !s.infra.reinitDue
    requires CanRunSys(a, s, es) && Complete(a, AfterSys(a, s, es))
    ensures AllHopeful(a, s) || CanRestart(a, s)
    decreases |es|
  {
    if es != [] {
      hide Inv, Complete, AllHopeful, CanRestart, NextSys;
      HopeBefore(a, s, es[0]);
      NextInv(a, s, es[0]);
      var u := NextSys(a, s, es[0]);
      if !u.infra.reinitDue { HopeAtFirst(a, u, es[1..]); }
    }
  }

  /** Where no server is dead, only a cycle of subscriptions is in the way. */
  lemma NobodyDead(a: Agent, s: Sys)
    requires Fits(a, s) && Progress.Acyclic(a.c)
    requires forall m: nat :: m < a.c.N() ==> !Dead(a.kinds[m], s.ctx[m])
    ensures AllHopeful(a, s)
  {
    hide Progress.Acyclic, Dead;
    forall ws: set<nat>, m: nat | Blocked(a, s, ws) && m in ws ensures false {
      forall i <- ws ensures Progress.WaitsIn(a.c, ws, i) { assert Stays(a, s, ws, i); }
      Progress.DeadlockHasCycle(a.c, ws);
    }
  }

  lemma HopeCompletes(a: Agent, s: Sys)
    requires Fits(a, s) && Inv(a, s) && !s.infra.reinitDue && AllHopeful(a, s)
    ensures CompletesFrom(a, s)
  {
    var es := BringOn(a, s);
    var t := AfterSys(a, s, es);
    SettledIsBlocked(a, s, t);
    hide Inv, Blocked, Settled, Onward, Progress.Waiting;
    assert forall m <- Progress.Waiting(a.c, t.infra) :: Hopeless(a, s, m);
  }

  /** A reinitialisation leaves no server dead. */
  lemma RestartCompletes(a: Agent, s: Sys)
    requires Fits(a, s) && Inv(a, s) && s.infra.reinitDue && Progress.Acyclic(a.c)
    ensures CompletesFrom(a, s)
  {
    var u := NextSys(a, s, ReinitFires);
    NextInv(a, s, ReinitFires);
    ReinitContexts(a, s);
    hide Inv, Progress.Acyclic, SysInv, NextSys;
    NobodyDead(a, u);
    HopeCompletes(a, u);
    assert !u.infra.reinitDue;
    Prepend(a, s, [ReinitFires], u);
  }

  lemma Prepend(a: Agent, s: Sys, es: seq<SysEvent>, u: Sys)
    requires Fits(a, s) && CanRunSys(a, s, es) && AfterSys(a, s, es) == u && CompletesFrom(a, u)
    ensures CompletesFrom(a, s)
  {
    var more: seq<SysEvent> :| CanRunSys(a, u, more) && Complete(a, AfterSys(a, u, more));
    hide Complete;
    RunsInTwo(a, s, es, more);
  }

  /** Where a module can go down, it does, and then everything starts afresh. */
  lemma GoingDownCompletes(a: Agent, s: Sys)
    requires Fits(a, s) && Inv(a, s) && !s.infra.reinitDue && Progress.Acyclic(a.c) && CanRestart(a, s)
    ensures CompletesFrom(a, s)
  {
    hide Inv, Progress.Acyclic, MayGoDown, Dead, BroughtOn, TurnedBy, CompletesFrom, CanRunSys, AfterSys;
    var m: nat :| m < a.c.N() && MayGoDown(a, s, m);
    var es := BringOn(a, s);
    BroughtUp(a, s, es, m);
    var t := AfterSys(a, s, es);
    var down := Turns(a, t, m, false);
    DownCompletes(a, t, m, down);
    Prepend(a, s, es, t);
  }

  lemma BroughtUp(a: Agent, s: Sys, es: seq<SysEvent>, m: nat)
    requires Fits(a, s) && BroughtOn(a, s, es) && m < a.c.N() && MayGoDown(a, s, m)
    ensures CanRunSys(a, s, es)
    ensures var t := AfterSys(a, s, es); Inv(a, t) && !t.infra.reinitDue && CanTurn(a, t, m, false)
  {
    hide Inv, Settled, Onward, MayGoDown, CanRunSys, AfterSys, Blocked;
    var t := AfterSys(a, s, es);
    SettledIsBlocked(a, s, t);
    UpInTheEnd(a, s, t, m);
  }

  lemma DownCompletes(a: Agent, t: Sys, m: nat, down: seq<SysEvent>)
    requires Fits(a, t) && m < a.c.N() && TurnedBy(a, t, m, false, down) && Progress.Acyclic(a.c)
    requires t.infra.status.conn[m] == Up
    ensures CompletesFrom(a, t)
  {
    hide Inv, Progress.Acyclic, DeadLess, CompletesFrom, CanRunSys, AfterSys;
    var u := AfterSys(a, t, down);
    RestartCompletes(a, u);
    Prepend(a, t, down, u);
  }

  lemma UpInTheEnd(a: Agent, s: Sys, t: Sys, m: nat)
    requires Fits(a, s) && Fits(a, t) && Inv(a, t) && !t.infra.reinitDue && Onward(a, s, t)
    requires Blocked(a, s, Progress.Waiting(a.c, t.infra)) && m < a.c.N() && MayGoDown(a, s, m)
    ensures CanTurn(a, t, m, false)
  {
    assert Bringup.BringUp(a.c, t.infra);
    hide Inv, Blocked;
  }

  lemma CompletesNeedsNoCycle(a: Agent, es: seq<SysEvent>)
    requires a.Valid() && CanRunSys(a, InitialSys(a), es) && Complete(a, AfterSys(a, InitialSys(a), es))
    ensures Progress.Acyclic(a.c)
  {
    InitialOk(a);
    SystemRefinesInfra(a, InitialSys(a), es);
    var run := InfraRun(a, InitialSys(a), es);
    hide SysInv, Progress.IsCycle, InfraRun, AfterSys, CanRunSys, Bringup.After;
    forall p: seq<nat> ensures !Progress.IsCycle(a.c, p) {
      if Progress.IsCycle(a.c, p) { Progress.CycleKeepsWaiting(a.c, run, p); }
    }
  }

  /** From a state the agent can be in, some run gets every enabled module up if
      and only if the subscriptions have no cycle of modules that are not
      interdependent, and everything is to be started afresh anyway, or no module
      is hopeless, or there is one that can still go down. */
  lemma CompletesExact(a: Agent, es: seq<SysEvent>)
    requires a.Valid() && CanRunSys(a, InitialSys(a), es)
    ensures var s := AfterSys(a, InitialSys(a), es);
            CompletesFrom(a, s) <==>
              Progress.Acyclic(a.c) && (s.infra.reinitDue || AllHopeful(a, s) || CanRestart(a, s))
  {
    InitialInv(a);
    RunInv(a, InitialSys(a), es);
    var s := AfterSys(a, InitialSys(a), es);
    hide Inv, Progress.Acyclic, AllHopeful, CanRestart, Complete, InitialSys;
    if CompletesFrom(a, s) {
      var more: seq<SysEvent> :| CanRunSys(a, s, more) && Complete(a, AfterSys(a, s, more));
      RunsInTwo(a, InitialSys(a), es, more);
      CompletesNeedsNoCycle(a, es + more);
      if !s.infra.reinitDue { HopeAtFirst(a, s, more); }
    } else if Progress.Acyclic(a.c) {
      if s.infra.reinitDue {
        RestartCompletes(a, s);
      } else if AllHopeful(a, s) {
        HopeCompletes(a, s);
      } else if CanRestart(a, s) {
        GoingDownCompletes(a, s);
      }
    }
  }

  /** From its start the agent gets everything up in some run if and only if there
      is no such cycle. */
  lemma AgentCompletes(a: Agent)
    requires a.Valid()
    ensures CompletesFrom(a, InitialSys(a)) <==> Progress.Acyclic(a.c)
  {
    CompletesExact(a, []);
  }

  /** And from any state in which no server is dead. */
  lemma CompletesUnlessDead(a: Agent, es: seq<SysEvent>)
    requires a.Valid() && CanRunSys(a, InitialSys(a), es)
    requires forall m: nat :: m < a.c.N() ==> !Dead(a.kinds[m], AfterSys(a, InitialSys(a), es).ctx[m])
    ensures CompletesFrom(a, AfterSys(a, InitialSys(a), es)) <==> Progress.Acyclic(a.c)
  {
    CompletesExact(a, es);
    if Progress.Acyclic(a.c) { NobodyDead(a, AfterSys(a, InitialSys(a), es)); }
  }
}
