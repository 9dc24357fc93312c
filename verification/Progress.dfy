/** The order of bring-up, as far as the infrastructure decides it: whether some
    module that is not up has been started. Whether that module can come up is for
    the module to say, and the subject of modules Recovery, Completion and Stuck. */
module Progress {
  import opened Infra
  import opened Bringup

  /** Module i must be up before module m is started, whatever the state. */
  predicate Before(c: Config, i: nat, m: nat)
    requires c.Valid()
  {
    && i < c.N() && m < c.N() && c.enable[i] && c.enable[m]
    && c.notify[i][m] && !c.notify[m][i]
  }

  predicate Link(c: Config, p: seq<nat>, i: nat)
    requires c.Valid() && i + 1 < |p|
  {
    Before(c, p[i + 1], p[i])
  }

  /** Each module on the path must wait for the next. */
  predicate IsPath(c: Config, p: seq<nat>)
    requires c.Valid()
  {
    forall i: nat :: i + 1 < |p| ==> Link(c, p, i)
  }

  predicate IsCycle(c: Config, p: seq<nat>)
    requires c.Valid()
  {
    |p| >= 2 && p[0] == p[|p| - 1] && IsPath(c, p)
  }

  ghost predicate Acyclic(c: Config)
    requires c.Valid()
  {
    forall p: seq<nat> :: !IsCycle(c, p)
  }

  // ----- a cycle is never started --------------------------------------------

  /** No module on the path is started or up. */
  predicate Dormant(s: State, p: seq<nat>) {
    && (forall m <- p :: m < |s.status.conn|)
    && forall m <- p :: !Started(s, m) && s.status.conn[m] != Up
  }

  lemma OnCycle(c: Config, p: seq<nat>, m: nat) returns (i: nat)
    requires c.Valid() && IsCycle(c, p) && m in p
    ensures i in p && Before(c, i, m)
  {
    var k: nat :| k < |p| && p[k] == m;
    k := if k == |p| - 1 then 0 else k;
    assert Link(c, p, k);
    i := p[k + 1];
  }

  lemma CycleHoldsBack(c: Config, t: Status, p: seq<nat>, m: nat)
    requires c.Valid() && t.Fits(c.N()) && IsCycle(c, p) && m in p
    requires t.registered == c.enable && forall k <- p :: k < c.N() ==> t.conn[k] != Up
    ensures m < c.N() && !MayStart(c, t, m)
  {
    var i := OnCycle(c, p, m);
    assert HoldsBack(c, t, i, m);
  }

  /** `Sound` with the registration that holds from the first reinit on. */
  ghost predicate Steady(c: Config, s: State)
    requires c.Valid()
  {
    Sound(c, s) && (s.status.registered == c.enable || s == Initial(c))
  }

  lemma StaysSteady(c: Config, s: State, e: InfraEvent)
    requires c.Valid() && BringUp(c, s) && Steady(c, s) && Allowed(c, s, e)
    ensures Steady(c, Next(c, s, e)) && Next(c, s, e).status.registered == c.enable
  {
    NextBringsUp(c, s, e);
    assert Next(c, s, e).status.registered == c.enable;
  }

  lemma CycleStaysDormant(c: Config, s: State, e: InfraEvent, p: seq<nat>)
    requires c.Valid() && IsCycle(c, p)
    requires BringUp(c, s) && Steady(c, s) && Dormant(s, p) && Allowed(c, s, e)
    ensures Steady(c, Next(c, s, e)) && Dormant(Next(c, s, e), p)
  {
    var u := Next(c, s, e);
    NextBringsUp(c, s, e);
    assert u.status.registered == c.enable;
    forall m <- p ensures u.status.conn[m] != Up {
      var i := OnCycle(c, p, m);
    }
    forall m <- p ensures !Started(u, m) {
      hide MayStart;
      CycleHoldsBack(c, u.status, p, m);
      match e
      case Reinit => StartedAfterReinit(c, s, m);
      case Report(k, up) => if up && s.status.conn[k] != Up { StartedAfterUp(c, s, k, m); }
    }
  }

  /** No module on a cycle is started in any run, whatever DOWN changes and
      reinitialisations it contains. */
  lemma {:induction false} CycleNeverStarts(c: Config, s: State, es: seq<InfraEvent>, p: seq<nat>)
    requires c.Valid() && IsCycle(c, p)
    requires BringUp(c, s) && Steady(c, s) && Dormant(s, p) && CanRun(c, s, es)
    ensures Dormant(After(c, s, es), p)
    decreases |es|
  {
    if es != [] {
      hide Sound, Dormant, StartedIsMayStart, IsCycle;
      NextBringsUp(c, s, es[0]);
      CycleStaysDormant(c, s, es[0], p);
      CycleNeverStarts(c, Next(c, s, es[0]), es[1..], p);
    }
  }

  lemma CycleDormantAtFirst(c: Config, p: seq<nat>)
    requires c.Valid() && IsCycle(c, p)
    ensures Steady(c, Initial(c)) && Dormant(Initial(c), p)
  {
    forall m <- p ensures m < c.N() { var i := OnCycle(c, p, m); }
  }

  // ----- deadlocks have a cycle ----------------------------------------------

  /** The enabled modules that are not up. */
  function Waiting(c: Config, s: State): set<nat>
    requires s.status.Fits(c.N())
  {
    set m: nat | 0 <= m < c.N() && c.enable[m] && s.status.conn[m] != Up
  }

  /** Some module has been started and is not up. */
  ghost predicate Underway(c: Config, s: State)
    requires s.status.Fits(c.N())
  {
    exists m: nat :: m in Waiting(c, s) && Started(s, m)
  }

  /** Everything in `ws` waits for something in `ws`. */
  ghost predicate Deadlock(c: Config, ws: set<nat>)
    requires c.Valid()
  {
    forall m {:trigger WaitsIn(c, ws, m)} :: m in ws ==> WaitsIn(c, ws, m)
  }

  ghost predicate WaitsIn(c: Config, ws: set<nat>, m: nat)
    requires c.Valid()
  {
    exists i <- ws :: Before(c, i, m)
  }

  lemma StuckIsDeadlock(c: Config, s: State)
    requires c.Valid() && BringUp(c, s) && !s.reinitDue && !Underway(c, s)
    ensures Deadlock(c, Waiting(c, s))
  {
    forall m <- Waiting(c, s) ensures WaitsIn(c, Waiting(c, s), m) {
      assert !Started(s, m) && !MayStart(c, s.status, m);
      var i: nat :| i < c.N() && HoldsBack(c, s.status, i, m) && s.status.conn[i] != Up;
      assert i in Waiting(c, s) && Before(c, i, m);
    }
  }

  lemma WaitsFor(c: Config, ws: set<nat>, m: nat) returns (i: nat)
    requires c.Valid() && Deadlock(c, ws) && m in ws
    ensures i in ws && Before(c, i, m)
  {
    assert WaitsIn(c, ws, m);
    i :| i in ws && Before(c, i, m);
  }

  /** In a deadlock one can walk back for as long as one likes. */
  lemma {:induction false} WalkBack(c: Config, ws: set<nat>, n: nat) returns (p: seq<nat>)
    requires c.Valid() && ws != {} && Deadlock(c, ws)
    ensures |p| == n + 1 && IsPath(c, p) && forall m <- p :: m in ws
  {
    hide Deadlock;
    if n == 0 {
      var m :| m in ws;
      p := [m];
    } else {
      var q := WalkBack(c, ws, n - 1);
      var last := q[n - 1];
      assert last in ws;
      var i := WaitsFor(c, ws, last);
      p := q + [i];
      forall k: nat | k + 1 < |p| ensures Link(c, p, k) {
        if k + 1 < |q| { assert Link(c, q, k); }
      }
    }
  }

  lemma {:induction false} Pigeonhole(p: seq<nat>, ws: set<nat>)
    requires (forall m <- p :: m in ws) && |p| > |ws|
    ensures exists i: nat, j: nat :: i < j < |p| && p[i] == p[j]
    decreases |p|
  {
    if p != [] {
      var q, last := p[..|p| - 1], p[|p| - 1];
      if last in q {
        var i: nat :| i < |q| && q[i] == last;
        assert p[i] == p[|p| - 1];
      } else {
        forall m <- q ensures m in ws - {last} {
          assert m in p;
        }
        Pigeonhole(q, ws - {last});
        var i: nat, j: nat :| i < j < |q| && q[i] == q[j];
        assert p[i] == p[j];
      }
    }
  }

  lemma DeadlockHasCycle(c: Config, ws: set<nat>)
    requires c.Valid() && ws != {} && Deadlock(c, ws)
    ensures !Acyclic(c)
  {
    hide Deadlock;
    var p := WalkBack(c, ws, |ws|);
    Pigeonhole(p, ws);
    var i: nat, j: nat :| i < j < |p| && p[i] == p[j];
    PartIsPath(c, p, i, j + 1);
    assert IsCycle(c, p[i..j + 1]);
  }

  lemma PartIsPath(c: Config, p: seq<nat>, i: nat, j: nat)
    requires c.Valid() && IsPath(c, p) && i <= j <= |p|
    ensures IsPath(c, p[i..j])
  {
    var q := p[i..j];
    forall k: nat | k + 1 < |q| ensures Link(c, q, k) {
      assert Link(c, p, i + k);
    }
  }

  /** Without a cycle, a state with no reinit pending has everything up or has a
      started module that is not up yet. */
  lemma NoDeadlock(c: Config, s: State)
    requires c.Valid() && Acyclic(c) && BringUp(c, s) && !s.reinitDue
    ensures Waiting(c, s) == {} || Underway(c, s)
  {
    if Waiting(c, s) != {} && !Underway(c, s) {
      StuckIsDeadlock(c, s);
      DeadlockHasCycle(c, Waiting(c, s));
    }
  }

  /** Each UP change takes one module off those that are waited for. */
  lemma UpIsProgress(c: Config, s: State, k: nat)
    requires c.Valid() && s.status.Fits(c.N()) && k in Waiting(c, s)
    ensures Waiting(c, OnUp(c, s, k)) == Waiting(c, s) - {k}
  {}

  // ----- bring-up, if started modules come up -------------------------------------------------

  /** Let started modules report UP until none is left. */
  lemma {:induction false} RunOn(c: Config, s: State) returns (es: seq<InfraEvent>)
    requires c.Valid() && BringUp(c, s) && !s.reinitDue
    ensures CanRun(c, s, es)
    ensures var u := After(c, s, es);
            BringUp(c, u) && !u.reinitDue && !Underway(c, u)
    decreases |Waiting(c, s)|
  {
    if Underway(c, s) {
      var k: nat :| k in Waiting(c, s) && Started(s, k);
      var e := Report(k, true);
      NextBringsUp(c, s, e);
      UpIsProgress(c, s, k);
      var rest := RunOn(c, Next(c, s, e));
      es := [e] + rest;
      assert es[1..] == rest;
    } else {
      es := [];
    }
  }

  /** Some run, if started modules report UP, gets every enabled module up. */
  ghost predicate CanComplete(c: Config)
    requires c.Valid()
  {
    exists es: seq<InfraEvent> ::
      CanRun(c, Initial(c), es) && var s := After(c, Initial(c), es); !s.reinitDue && Waiting(c, s) == {}
  }

  lemma CycleKeepsWaiting(c: Config, es: seq<InfraEvent>, p: seq<nat>)
    requires c.Valid() && CanRun(c, Initial(c), es) && IsCycle(c, p)
    ensures p[0] in Waiting(c, After(c, Initial(c), es))
  {
    assert Link(c, p, 0);
    CycleDormantAtFirst(c, p);
    InitialBringsUp(c);
    CycleNeverStarts(c, Initial(c), es, p);
    assert p[0] in p;
  }

  /** The infrastructure allows for it exactly when the subscriptions have no cycle
      of modules that are not interdependent. */
  lemma BringUpCompletes(c: Config)
    requires c.Valid()
    ensures CanComplete(c) <==> Acyclic(c)
  {
    InitialBringsUp(c);
    if Acyclic(c) {
      var s := Next(c, Initial(c), Reinit);
      NextBringsUp(c, Initial(c), Reinit);
      var rest := RunOn(c, s);
      var es := [Reinit] + rest;
      assert es[1..] == rest;
      NoDeadlock(c, After(c, s, rest));
      assert CanRun(c, Initial(c), es);
    }
    if CanComplete(c) {
      var es: seq<InfraEvent> :| CanRun(c, Initial(c), es) &&
        var s := After(c, Initial(c), es); !s.reinitDue && Waiting(c, s) == {};
      forall p: seq<nat> ensures !IsCycle(c, p) {
        if IsCycle(c, p) { CycleKeepsWaiting(c, es, p); }
      }
    }
  }

  /** In every run, with no reinit pending, everything is up or something has been
      started that is not up. That it can come up is not said. */
  ghost predicate AlwaysUnderway(c: Config)
    requires c.Valid()
  {
    forall es: seq<InfraEvent> :: CanRun(c, Initial(c), es) ==>
      var s := After(c, Initial(c), es); s.reinitDue || Waiting(c, s) == {} || Underway(c, s)
  }

  lemma AlwaysUnderwayExact(c: Config)
    requires c.Valid()
    ensures AlwaysUnderway(c) <==> Acyclic(c)
  {
    InitialBringsUp(c);
    if Acyclic(c) {
      forall es: seq<InfraEvent> | CanRun(c, Initial(c), es)
        ensures var s := After(c, Initial(c), es); s.reinitDue || Waiting(c, s) == {} || Underway(c, s)
      {
        BringUpInvariant(c, Initial(c), es);
        var s := After(c, Initial(c), es);
        if !s.reinitDue { NoDeadlock(c, s); }
      }
    }
    if AlwaysUnderway(c) {
      var s := Next(c, Initial(c), Reinit);
      NextBringsUp(c, Initial(c), Reinit);
      var rest := RunOn(c, s);
      var es := [Reinit] + rest;
      assert es[1..] == rest;
      assert CanRun(c, Initial(c), es);
      BringUpCompletes(c);
    }
  }
}
