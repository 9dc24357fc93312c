/** Exactly which configurations let a module be initialised twice in one epoch. */
module Twice {
  import opened Infra
  import opened Bringup
  import opened Progress
  import opened System
  import opened Runs
  import opened Recovery

  /** Module m must wait for module k, directly or not. */
  ghost predicate Leads(c: Config, m: nat, k: nat)
    requires c.Valid()
  {
    exists p: seq<nat> :: IsPath(c, p) && |p| >= 2 && p[0] == m && p[|p| - 1] == k
  }

  /** A path that comes back to itself. */
  predicate Lasso(c: Config, p: seq<nat>)
    requires c.Valid()
  {
    IsPath(c, p) && |p| >= 2 && p[|p| - 1] in p[..|p| - 1]
  }

  ghost predicate BehindCycle(c: Config, m: nat)
    requires c.Valid()
  {
    exists p: seq<nat> :: Lasso(c, p) && p[0] == m
  }

  /** Two interdependent modules that can both be started before either is up. */
  ghost predicate FreePair(c: Config, k: nat, m: nat)
    requires c.Valid()
  {
    && k < c.N() && m < c.N() && c.enable[k] && c.enable[m] && Mutual(c, k, m)
    && !BehindCycle(c, k) && !BehindCycle(c, m) && !Leads(c, k, m) && !Leads(c, m, k)
  }

  ghost predicate HasFreePair(c: Config)
    requires c.Valid()
  {
    exists k: nat, m: nat :: FreePair(c, k, m)
  }

  // ----- a second init needs such a pair ------------------------------------------

  ghost predicate AllDormant(c: Config, s: State)
    requires c.Valid()
  {
    forall p: seq<nat> :: IsCycle(c, p) ==> Dormant(s, p)
  }

  /** Everything that a started module must wait for, directly or not, is up. */
  lemma {:induction false} UpstreamUp(c: Config, s: State, p: seq<nat>, i: nat)
    requires c.Valid() && BringUp(c, s) && !s.reinitDue && IsPath(c, p) && 1 <= i < |p|
    requires p[0] < c.N() && Started(s, p[0])
    ensures p[i] < c.N() && s.status.conn[p[i]] == Up
  {
    assert Link(c, p, i - 1);
    if i > 1 { UpstreamUp(c, s, p, i - 1); }
    assert Started(s, p[i - 1]);
    assert HoldsBack(c, s.status, p[i], p[i - 1]);
  }

  lemma StartedIsClear(c: Config, s: State, m: nat)
    requires c.Valid() && BringUp(c, s) && !s.reinitDue && AllDormant(c, s)
    requires m < c.N() && Started(s, m)
    ensures !BehindCycle(c, m)
    ensures forall k: nat :: k < c.N() && s.status.conn[k] != Up ==> !Leads(c, m, k)
  {
    assert s.status.Fits(c.N());
    hide BringUp, Dormant;
    forall p: seq<nat> | IsPath(c, p) && |p| >= 2 && p[0] == m
      ensures p[|p| - 1] < c.N() && s.status.conn[p[|p| - 1]] == Up
    {
      UpstreamUp(c, s, p, |p| - 1);
    }
    forall p: seq<nat> | Lasso(c, p) && p[0] == m ensures false {
      LassoHasCycle(c, s, p);
    }
  }

  lemma LassoHasCycle(c: Config, s: State, p: seq<nat>)
    requires c.Valid() && Lasso(c, p) && AllDormant(c, s)
    ensures p[|p| - 1] < |s.status.conn| && s.status.conn[p[|p| - 1]] != Up
  {
    var i: nat :| i < |p| - 1 && p[i] == p[|p| - 1];
    PartIsPath(c, p, i, |p|);
    var q := p[i..|p|];
    assert IsCycle(c, q) && q[|q| - 1] == p[|p| - 1] && q[|q| - 1] in q;
  }

  lemma CrossingIsFree(c: Config, s: State, e: InfraEvent)
    requires c.Valid() && BringUp(c, s) && !s.reinitDue && AllDormant(c, s)
    requires Allowed(c, s, e) && Crosses(c, s, e)
    ensures HasFreePair(c)
  {
    var m: nat :| m < c.N() && Mutual(c, e.m, m) && Started(s, m) && s.status.conn[m] != Up;
    assert c.enable[m] && c.enable[e.m];
    hide BringUp, AllDormant, Leads, BehindCycle;
    StartedIsClear(c, s, e.m);
    StartedIsClear(c, s, m);
    assert FreePair(c, e.m, m);
  }

  lemma StaysDormant(c: Config, s: State, e: InfraEvent)
    requires c.Valid() && BringUp(c, s) && Steady(c, s) && AllDormant(c, s) && Allowed(c, s, e)
    ensures AllDormant(c, Next(c, s, e))
  {
    assert s.status.Fits(c.N()) && (e.Report? ==> e.m < c.N());
    hide BringUp, Steady, IsCycle, Dormant;
    forall p: seq<nat> | IsCycle(c, p) ensures Dormant(Next(c, s, e), p) {
      CycleStaysDormant(c, s, e, p);
    }
  }

  lemma StepInitOnce(c: Config, s: State, e: InfraEvent)
    requires c.Valid() && BringUp(c, s) && AllDormant(c, s) && InitOnce(c, s) && Allowed(c, s, e)
    ensures InitOnce(c, Next(c, s, e)) || HasFreePair(c)
  {
    var u := Next(c, s, e);
    match e
    case Reinit =>
      forall m: nat | m < c.N() ensures Count(u.calls, InitCb(m)) <= 1 { CountReinit(c, s, InitCb(m)); }
    case Report(_, _) =>
      if !u.reinitDue {
        CrossingInitsTwice(c, s, e);
        if Crosses(c, s, e) { CrossingIsFree(c, s, e); }
      }
  }

  lemma {:induction false} TwiceNeedsFreePair(c: Config, s: State, es: seq<InfraEvent>)
    requires c.Valid() && BringUp(c, s) && Steady(c, s) && AllDormant(c, s) && InitOnce(c, s) && CanRun(c, s, es)
    ensures InitOnce(c, After(c, s, es)) || HasFreePair(c)
    decreases |es|
  {
    if es != [] {
      hide BringUp, Steady, AllDormant, InitOnce, HasFreePair;
      NextBringsUp(c, s, es[0]);
      StaysSteady(c, s, es[0]);
      StaysDormant(c, s, es[0]);
      StepInitOnce(c, s, es[0]);
      if InitOnce(c, Next(c, s, es[0])) { TwiceNeedsFreePair(c, Next(c, s, es[0]), es[1..]); }
    }
  }

  // ----- and such a pair is enough ---------------------------------------------------

  /** What the two must wait for. */
  ghost function Upstream(c: Config, k: nat, m: nat): set<nat>
    requires c.Valid()
  {
    set x: nat | 0 <= x < c.N() && (Leads(c, k, x) || Leads(c, m, x))
  }

  lemma LeadsOn(c: Config, m: nat, x: nat, i: nat)
    requires c.Valid() && Before(c, i, x) && (x == m || Leads(c, m, x))
    ensures Leads(c, m, i)
  {
    var p: seq<nat> := [m];
    if x != m {
      p :| IsPath(c, p) && |p| >= 2 && p[0] == m && p[|p| - 1] == x;
    }
    var q := p + [i];
    forall n: nat | n + 1 < |q| ensures Link(c, q, n) {
      if n + 1 < |p| { assert Link(c, p, n); }
    }
    assert IsPath(c, q);
  }

  lemma UpstreamClosed(c: Config, k: nat, m: nat, x: nat, i: nat)
    requires c.Valid() && Before(c, i, x) && (x == k || x == m || x in Upstream(c, k, m))
    ensures i in Upstream(c, k, m)
  {
    hide Before;
    if x == k || Leads(c, k, x) {
      LeadsOn(c, k, x, i);
    } else {
      LeadsOn(c, m, x, i);
    }
    assert i < c.N() by { BeforeFits(c, i, x); }
  }

  lemma BeforeFits(c: Config, i: nat, x: nat)
    requires c.Valid() && Before(c, i, x)
    ensures i < c.N()
  {}

  lemma NotUpstreamOfItself(c: Config, k: nat, m: nat)
    requires c.Valid() && FreePair(c, k, m)
    ensures k !in Upstream(c, k, m) && m !in Upstream(c, k, m)
  {
    forall x: nat, p: seq<nat> | IsPath(c, p) && |p| >= 2 && p[0] == x && p[|p| - 1] == x ensures BehindCycle(c, x) {
      assert Lasso(c, p);
    }
  }

  /** Modules that wait for one another, and that m must wait for, are a cycle that m
      is behind. */
  lemma DeadlockBehind(c: Config, ws: set<nat>, k: nat, m: nat)
    requires c.Valid() && ws != {} && Deadlock(c, ws) && ws <= Upstream(c, k, m)
    ensures BehindCycle(c, k) || BehindCycle(c, m)
  {
    hide Deadlock, Before;
    var p := WalkBack(c, ws, |ws|);
    Pigeonhole(p, ws);
    var i: nat, j: nat :| i < j < |p| && p[i] == p[j];
    assert p[0] in ws;
    var x := if Leads(c, k, p[0]) then k else m;
    var q: seq<nat> :| IsPath(c, q) && |q| >= 2 && q[0] == x && q[|q| - 1] == p[0];
    JoinedIsLasso(c, q, p, i, j);
  }

  lemma JoinedIsLasso(c: Config, q: seq<nat>, p: seq<nat>, i: nat, j: nat)
    requires c.Valid() && IsPath(c, q) && IsPath(c, p) && |q| >= 2 && i < j < |p| && p[i] == p[j]
    requires q[|q| - 1] == p[0]
    ensures BehindCycle(c, q[0])
  {
    var r := q + p[1..j + 1];
    forall n: nat | n + 1 < |r| ensures Link(c, r, n) {
      if n + 1 < |q| { assert Link(c, q, n); } else { assert Link(c, p, n + 1 - |q|); }
    }
    assert r[|q| - 1 + i] == p[i] && r[|r| - 1] == p[j];
    assert r[|q| - 1 + i] in r[..|r| - 1];
    assert Lasso(c, r);
  }

  predicate OnlyUps(es: seq<InfraEvent>) {
    forall i :: 0 <= i < |es| ==> es[i].Report? && es[i].up
  }

  /** The run brings everything up that the two must wait for, and not the two. */
  ghost predicate UpstreamBroughtUp(c: Config, s: State, k: nat, m: nat, es: seq<InfraEvent>)
    requires c.Valid() && s.status.Fits(c.N())
  {
    && k < c.N() && m < c.N() && CanRun(c, s, es) && OnlyUps(es)
    && var t := After(c, s, es);
       && BringUp(c, t) && !t.reinitDue
       && (forall x <- Upstream(c, k, m) :: x < c.N() && t.status.conn[x] == Up)
       && t.status.conn[k] == s.status.conn[k] && t.status.conn[m] == s.status.conn[m]
  }

  lemma {:induction false} BringUpstream(c: Config, s: State, k: nat, m: nat) returns (es: seq<InfraEvent>)
    requires c.Valid() && BringUp(c, s) && !s.reinitDue && FreePair(c, k, m)
    ensures s.status.Fits(c.N()) && UpstreamBroughtUp(c, s, k, m, es)
    decreases Upstream(c, k, m) * Waiting(c, s)
  {
    assert s.status.Fits(c.N());
    hide BringUp, FreePair, Upstream, Waiting, OnUp, UpstreamBroughtUp;
    if Upstream(c, k, m) * Waiting(c, s) == {} {
      UpstreamIsUp(c, s, k, m);
      es := [];
    } else {
      var x := SomeStarted(c, s, k, m);
      LessWaiting(c, s, Upstream(c, k, m), x);
      NextBringsUp(c, s, Report(x, true));
      var rest := BringUpstream(c, OnUp(c, s, x), k, m);
      UpstreamLater(c, s, k, m, x, rest);
      es := [Report(x, true)] + rest;
    }
  }

  lemma UpstreamIsUp(c: Config, s: State, k: nat, m: nat)
    requires c.Valid() && BringUp(c, s) && !s.reinitDue && FreePair(c, k, m)
    requires Upstream(c, k, m) * Waiting(c, s) == {}
    ensures UpstreamBroughtUp(c, s, k, m, [])
  {
    FreePairFits(c, k, m);
    UpstreamDone(c, s, k, m);
    RunNone(c, s);
    hide Upstream, BringUp, FreePair, Waiting;
  }

  lemma UpstreamLater(c: Config, s: State, k: nat, m: nat, x: nat, rest: seq<InfraEvent>)
    requires c.Valid() && BringUp(c, s) && FreePair(c, k, m) && x in Upstream(c, k, m) && x < c.N() && Started(s, x)
    requires UpstreamBroughtUp(c, OnUp(c, s, x), k, m, rest)
    ensures UpstreamBroughtUp(c, s, k, m, [Report(x, true)] + rest)
  {
    assert s.status.Fits(c.N());
    hide BringUp, FreePair, Upstream, OnUp, CanRun, After;
    NotUpstreamOfItself(c, k, m);
    UpChanges(c, s, x);
    Bringup.RunCons(c, s, Report(x, true), rest);
  }

  lemma RunNone(c: Config, s: State)
    requires c.Valid() && s.status.Fits(c.N())
    ensures CanRun(c, s, []) && After(c, s, []) == s
  {}

  lemma LessWaiting(c: Config, s: State, xs: set<nat>, x: nat)
    requires c.Valid() && s.status.Fits(c.N()) && x in xs * Waiting(c, s)
    ensures x < c.N()
    ensures var u := OnUp(c, s, x);
            && u.status.Fits(c.N()) && xs * Waiting(c, u) < xs * Waiting(c, s)
            && u.status.conn == s.status.conn[x := Up] && u.reinitDue == s.reinitDue
  {
    UpIsProgress(c, s, x);
    UpChanges(c, s, x);
    hide OnUp;
    assert xs * Waiting(c, OnUp(c, s, x)) == xs * Waiting(c, s) - {x};
  }

  lemma UpChanges(c: Config, s: State, x: nat)
    requires c.Valid() && s.status.Fits(c.N()) && x < c.N()
    ensures OnUp(c, s, x).status.conn == s.status.conn[x := Up] && OnUp(c, s, x).reinitDue == s.reinitDue
  {}

  lemma NotInBoth(xs: set<nat>, ys: set<nat>, x: nat)
    requires xs * ys == {} && x in xs
    ensures x !in ys
  {
    assert x in ys ==> x in xs * ys;
  }

  lemma UpstreamDone(c: Config, s: State, k: nat, m: nat)
    requires c.Valid() && s.status.Fits(c.N()) && Upstream(c, k, m) * Waiting(c, s) == {}
    ensures forall x <- Upstream(c, k, m) :: x < c.N() && s.status.conn[x] == Up
  {
    UpstreamEnabled(c, k, m);
    forall x <- Upstream(c, k, m) ensures s.status.conn[x] == Up {
      NotInBoth(Upstream(c, k, m), Waiting(c, s), x);
    }
  }

  lemma UpstreamEnabled(c: Config, k: nat, m: nat)
    requires c.Valid()
    ensures forall x <- Upstream(c, k, m) :: x < c.N() && c.enable[x]
  {
    forall x <- Upstream(c, k, m) ensures c.enable[x] {
      var y := if Leads(c, k, x) then k else m;
      var p: seq<nat> :| IsPath(c, p) && |p| >= 2 && p[0] == y && p[|p| - 1] == x;
      assert Link(c, p, |p| - 2);
    }
  }

  lemma SomeStarted(c: Config, s: State, k: nat, m: nat) returns (x: nat)
    requires c.Valid() && BringUp(c, s) && !s.reinitDue && FreePair(c, k, m)
    requires Upstream(c, k, m) * Waiting(c, s) != {}
    ensures x in Upstream(c, k, m) * Waiting(c, s) && Started(s, x)
  {
    var ws := Upstream(c, k, m) * Waiting(c, s);
    if forall y <- ws :: !Started(s, y) {
      forall y <- ws ensures WaitsIn(c, ws, y) {
        var i: nat :| i < c.N() && HoldsBack(c, s.status, i, y) && s.status.conn[i] != Up;
        assert Before(c, i, y);
        UpstreamClosed(c, k, m, y, i);
      }
      DeadlockBehind(c, ws, k, m);
    }
    x :| x in ws && Started(s, x);
  }

  lemma NowStarted(c: Config, t: State, k: nat, m: nat, x: nat)
    requires c.Valid() && BringUp(c, t) && !t.reinitDue && FreePair(c, k, m) && (x == k || x == m)
    requires forall y <- Upstream(c, k, m) :: y < c.N() && t.status.conn[y] == Up
    ensures Started(t, x)
  {
    forall i: nat | i < c.N() && HoldsBack(c, t.status, i, x) ensures t.status.conn[i] == Up {
      assert Before(c, i, x);
      UpstreamClosed(c, k, m, x, i);
    }
    assert MayStart(c, t.status, x);
  }

  /** After a reinitialisation, a run of UP reports that has a module initialised
      twice. */
  lemma FreePairInitsTwice(c: Config, s: State, k: nat, m: nat) returns (es: seq<InfraEvent>)
    requires c.Valid() && BringUp(c, s) && !s.reinitDue && FreePair(c, k, m)
    requires s.status.conn[k] != Up && s.status.conn[m] != Up
    ensures CanRun(c, s, es) && OnlyUps(es) && !InitOnce(c, After(c, s, es))
  {
    assert s.status.Fits(c.N());
    hide BringUp, FreePair, Upstream, InitOnce, CanRun, After, Mutual, UpstreamBroughtUp;
    es := BringUpstream(c, s, k, m);
    BothStarted(c, s, k, m, es);
    var t := After(c, s, es);
    if InitOnce(c, t) {
      OneMoreUp(c, t, k, m);
      RunInTwo(c, s, es, [Report(k, true)]);
      es := es + [Report(k, true)];
    }
  }

  lemma BothStarted(c: Config, s: State, k: nat, m: nat, es: seq<InfraEvent>)
    requires c.Valid() && s.status.Fits(c.N()) && FreePair(c, k, m) && UpstreamBroughtUp(c, s, k, m, es)
    ensures k < c.N() && m < c.N() && Mutual(c, k, m) && CanRun(c, s, es) && OnlyUps(es)
    ensures var t := After(c, s, es);
            && BringUp(c, t) && !t.reinitDue && Started(t, k) && Started(t, m)
            && t.status.conn[k] == s.status.conn[k] && t.status.conn[m] == s.status.conn[m]
  {
    FreePairFits(c, k, m);
    hide BringUp, FreePair, Upstream, CanRun, After, Mutual;
    var t := After(c, s, es);
    NowStarted(c, t, k, m, k);
    NowStarted(c, t, k, m, m);
  }

  lemma OneMoreUp(c: Config, t: State, k: nat, m: nat)
    requires c.Valid() && BringUp(c, t) && !t.reinitDue && InitOnce(c, t)
    requires k < c.N() && m < c.N() && Mutual(c, k, m) && Started(t, k) && Started(t, m)
    requires t.status.conn[k] != Up && t.status.conn[m] != Up
    ensures CanRun(c, t, [Report(k, true)]) && !InitOnce(c, After(c, t, [Report(k, true)]))
  {
    var e := Report(k, true);
    UpChanges(c, t, k);
    assert Crosses(c, t, e);
    hide BringUp, Crosses, InitOnce, OnUp;
    CrossingInitsTwice(c, t, e);
    RunOfOne(c, t, e);
  }

  // ----- of the infrastructure and of the agent --------------------------------------

  /** Some run has a module initialised twice in an epoch that has seen no DOWN
      change. */
  ghost predicate CanInitTwice(c: Config)
    requires c.Valid()
  {
    exists es: seq<InfraEvent> :: CanRun(c, Initial(c), es) && !InitOnce(c, After(c, Initial(c), es))
  }

  lemma DormantAtFirst(c: Config)
    requires c.Valid()
    ensures Steady(c, Initial(c)) && AllDormant(c, Initial(c))
  {
    hide IsCycle, Dormant;
    InitialBringsUp(c);
    forall p: seq<nat> | IsCycle(c, p) ensures Dormant(Initial(c), p) { CycleDormantAtFirst(c, p); }
  }

  /** That is so if and only if two enabled modules are interdependent, neither is
      behind a cycle, and neither must wait for the other. */
  lemma InitsTwiceExact(c: Config)
    requires c.Valid()
    ensures CanInitTwice(c) <==> HasFreePair(c)
  {
    InitialBringsUp(c);
    DormantAtFirst(c);
    assert InitOnce(c, Initial(c));
    hide AllDormant, Steady, FreePair, BringUp, InitOnce, Initial;
    if CanInitTwice(c) {
      var es: seq<InfraEvent> :| CanRun(c, Initial(c), es) && !InitOnce(c, After(c, Initial(c), es));
      TwiceNeedsFreePair(c, Initial(c), es);
    }
    if HasFreePair(c) {
      var k: nat, m: nat :| FreePair(c, k, m);
      var s := FirstEpoch(c);
      FreePairFits(c, k, m);
      var ups := FreePairInitsTwice(c, s, k, m);
      Bringup.RunCons(c, Initial(c), Reinit, ups);
    }
  }

  lemma FreePairFits(c: Config, k: nat, m: nat)
    requires c.Valid() && FreePair(c, k, m)
    ensures k < c.N() && m < c.N() && Mutual(c, k, m)
  {}

  lemma FirstEpoch(c: Config) returns (s: State)
    requires c.Valid()
    ensures Allowed(c, Initial(c), Reinit) && s == Next(c, Initial(c), Reinit)
    ensures BringUp(c, s) && !s.reinitDue && forall m: nat :: m < c.N() ==> s.status.conn[m] != Up
  {
    InitialBringsUp(c);
    NextBringsUp(c, Initial(c), Reinit);
    s := Next(c, Initial(c), Reinit);
  }

  /** Started modules that are not dead make any run of UP reports come true. */
  lemma {:induction false} UpsHappen(a: Agent, s: Sys, ups: seq<InfraEvent>) returns (es: seq<SysEvent>)
    requires Fits(a, s) && Inv(a, s) && !s.infra.reinitDue && OnlyUps(ups) && CanRun(a.c, s.infra, ups)
    requires forall m: nat :: m < a.c.N() ==> !Dead(a.kinds[m], s.ctx[m])
    ensures CanRunSys(a, s, es) && AfterSys(a, s, es).infra == After(a.c, s.infra, ups)
    decreases |ups|
  {
    hide Inv, Dead, DeadLess, OnUp;
    if ups == [] {
      es := [];
    } else if s.infra.status.conn[ups[0].m] == Up {
      assert Next(a.c, s.infra, ups[0]) == s.infra by { UpAgain(a.c, s.infra, ups[0].m); }
      es := UpsHappen(a, s, ups[1..]);
    } else {
      var k := ups[0].m;
      StartedIsEnabled(a, s, k);
      var own := Turns(a, s, k, true);
      var t := AfterSys(a, s, own);
      StillNobodyDead(a, s, t, k);
      UpKeepsEpoch(a.c, s.infra, k);
      var rest := UpsHappen(a, t, ups[1..]);
      RunsInTwo(a, s, own, rest);
      es := own + rest;
    }
  }

  lemma UpAgain(c: Config, s: State, k: nat)
    requires c.Valid() && s.status.Fits(c.N()) && k < c.N() && s.status.conn[k] == Up
    ensures OnUp(c, s, k) == s
  {}

  lemma UpKeepsEpoch(c: Config, s: State, k: nat)
    requires c.Valid() && s.status.Fits(c.N()) && k < c.N()
    ensures OnUp(c, s, k).reinitDue == s.reinitDue
  {}

  lemma StillNobodyDead(a: Agent, s: Sys, t: Sys, k: nat)
    requires Fits(a, s) && Fits(a, t) && k < a.c.N() && DeadLess(a, s, t, k)
    requires forall m: nat :: m < a.c.N() ==> !Dead(a.kinds[m], s.ctx[m])
    ensures forall m: nat :: m < a.c.N() ==> !Dead(a.kinds[m], t.ctx[m])
  {}

  ghost predicate AgentCanInitTwice(a: Agent)
    requires a.Valid()
  {
    exists es: seq<SysEvent> ::
      CanRunSys(a, InitialSys(a), es) && !InitOnce(a.c, AfterSys(a, InitialSys(a), es).infra)
  }

  /** And it is so of the agent, whatever kinds of modules it has. */
  lemma AgentInitsTwiceExact(a: Agent)
    requires a.Valid()
    ensures AgentCanInitTwice(a) <==> HasFreePair(a.c)
  {
    if AgentCanInitTwice(a) {
      var es: seq<SysEvent> :|
        CanRunSys(a, InitialSys(a), es) && !InitOnce(a.c, AfterSys(a, InitialSys(a), es).infra);
      InitialOk(a);
      SystemRefinesInfra(a, InitialSys(a), es);
      InitsTwiceExact(a.c);
    }
    if HasFreePair(a.c) {
      AgentInitsTwice(a);
    }
  }

  lemma AgentInitsTwice(a: Agent)
    requires a.Valid() && HasFreePair(a.c)
    ensures AgentCanInitTwice(a)
  {
    hide FreePair, Inv, NextSys, InitOnce, Dead, InitialSys, CanRunSys, AfterSys, BringUp, CanHappen, After, CanRun;
    var k: nat, m: nat :| FreePair(a.c, k, m);
    FreePairFits(a.c, k, m);
    var s := AllStarted(a);
    var ups := FreePairInitsTwice(a.c, s.infra, k, m);
    var rest := UpsHappen(a, s, ups);
    Runs.RunCons(a, InitialSys(a), ReinitFires, rest);
  }

  lemma AllStarted(a: Agent) returns (s: Sys)
    requires a.Valid()
    ensures Fits(a, InitialSys(a)) && CanHappen(a, InitialSys(a), ReinitFires)
    ensures s == NextSys(a, InitialSys(a), ReinitFires)
    ensures Inv(a, s) && !s.infra.reinitDue && BringUp(a.c, s.infra)
    ensures forall m: nat :: m < a.c.N() ==> !Dead(a.kinds[m], s.ctx[m]) && s.infra.status.conn[m] != Up
  {
    InitialInv(a);
    NextInv(a, InitialSys(a), ReinitFires);
    ReinitContexts(a, InitialSys(a));
    s := NextSys(a, InitialSys(a), ReinitFires);
    forall m: nat | m < a.c.N() ensures s.infra.status.conn[m] != Up { NotUpAfterReinit(a, InitialSys(a), m); }
  }
}
