/** What holds along every run of the infrastructure: who is started, how often,
    and when a flash is asked for. */
module Bringup {
  import opened Infra
  import Policy

  /** The reinit timer fires, or a module reports its connection state. */
  datatype InfraEvent = Reinit | Report(m: nat, up: bool)

  function Initial(c: Config): (s: State)
    ensures s.status.Fits(c.N())
  {
    State(Status(seq(c.N(), _ => Unset), seq(c.N(), _ => false)), true, [])
  }

  function Next(c: Config, s: State, e: InfraEvent): (s': State)
    requires c.Valid() && s.status.Fits(c.N()) && (e.Report? ==> e.m < c.N())
    ensures s'.status.Fits(c.N())
  {
    match e
    case Reinit => OnReinit(c, s)
    case Report(m, up) => if up then OnUp(c, s, m) else OnDown(c, s, m)
  }

  /** The module's init callback has run in this epoch. */
  predicate Started(s: State, m: nat) {
    InitCb(m) in s.calls
  }

  /** The timer fires when it is due, and only started modules report. That this
      is all the modules ever do is proved in module Runs. */
  predicate Allowed(c: Config, s: State, e: InfraEvent) {
    match e
    case Reinit => s.reinitDue
    case Report(m, _) => m < c.N() && Started(s, m)
  }

  /** A run, from `s`. */
  predicate CanRun(c: Config, s: State, es: seq<InfraEvent>)
    requires c.Valid() && s.status.Fits(c.N())
    decreases |es|
  {
    es != [] ==> Allowed(c, s, es[0]) && CanRun(c, Next(c, s, es[0]), es[1..])
  }

  function After(c: Config, s: State, es: seq<InfraEvent>): (s': State)
    requires c.Valid() && s.status.Fits(c.N()) && CanRun(c, s, es)
    ensures s'.status.Fits(c.N())
    decreases |es|
  {
    if es == [] then s else After(c, Next(c, s, es[0]), es[1..])
  }

  lemma RunCons(c: Config, s: State, e: InfraEvent, es: seq<InfraEvent>)
    requires c.Valid() && s.status.Fits(c.N()) && Allowed(c, s, e) && CanRun(c, Next(c, s, e), es)
    ensures CanRun(c, s, [e] + es) && After(c, s, [e] + es) == After(c, Next(c, s, e), es)
  {
    hide Next, Allowed;
    assert ([e] + es)[1..] == es;
  }

  // ----- counting callbacks ---------------------------------------------------

  function Count(calls: seq<Call>, x: Call): nat {
    if calls == [] then 0 else (if calls[0] == x then 1 else 0) + Count(calls[1..], x)
  }

  lemma {:induction false} CountAppend(xs: seq<Call>, ys: seq<Call>, x: Call)
    ensures Count(xs + ys, x) == Count(xs, x) + Count(ys, x)
  {
    if xs == [] {
      assert xs + ys == ys;
    } else {
      assert (xs + ys)[1..] == xs[1..] + ys;
      CountAppend(xs[1..], ys, x);
    }
  }

  lemma {:induction false} CountIn(xs: seq<Call>, x: Call)
    ensures x in xs <==> Count(xs, x) > 0
  {
    if xs != [] {
      assert xs == [xs[0]] + xs[1..];
      CountIn(xs[1..], x);
    }
  }

  lemma {:induction false} CountInits(c: Config, t: Status, row: seq<bool>, lo: nat, x: Call)
    requires c.Valid() && t.Fits(c.N()) && |row| == c.N() && lo <= c.N()
    ensures Count(Inits(c, t, row, lo), x)
         == if x.InitCb? && lo <= x.m < c.N() && row[x.m] && MayInit(c, t, x.m) then 1 else 0
    decreases c.N() - lo
  {
    hide MayInit;
    if lo < c.N() {
      CountInits(c, t, row, lo + 1, x);
      CountAppend(if row[lo] && MayInit(c, t, lo) then [InitCb(lo)] else [], Inits(c, t, row, lo + 1), x);
    }
  }

  lemma {:induction false} CountFlashes(c: Config, t: Status, row: seq<bool>, lo: nat, x: Call)
    requires c.Valid() && t.Fits(c.N()) && |row| == c.N() && lo <= c.N()
    ensures Count(Flashes(c, t, row, lo), x)
         == if x.FlashCb? && lo <= x.m < c.N() && row[x.m] && MayFlash(c, t, x.m) then 1 else 0
    decreases c.N() - lo
  {
    hide MayFlash;
    if lo < c.N() {
      CountFlashes(c, t, row, lo + 1, x);
      var head := if row[lo] then Flash(c, t, lo) else [];
      CountAppend(head, Flashes(c, t, row, lo + 1), x);
      assert head == if row[lo] && MayFlash(c, t, lo) then [FlashCb(lo)] else [];
    }
  }

  lemma {:induction false} CountResets(registered: seq<bool>, lo: nat, x: Call)
    requires lo <= |registered|
    ensures Count(Resets(registered, lo), x)
         == if x.ResetCb? && lo <= x.m < |registered| && registered[x.m] then 1 else 0
    decreases |registered| - lo
  {
    if lo < |registered| {
      CountResets(registered, lo + 1, x);
      CountAppend(if registered[lo] then [ResetCb(lo)] else [], Resets(registered, lo + 1), x);
    }
  }

  lemma {:induction false} CountGetVecs(enable: seq<bool>, lo: nat, x: Call)
    requires lo <= |enable|
    ensures Count(GetVecs(enable, lo), x)
         == if x.GetVec? && lo <= x.m < |enable| && enable[x.m] then 1 else 0
    decreases |enable| - lo
  {
    if lo < |enable| {
      CountGetVecs(enable, lo + 1, x);
      CountAppend(if enable[lo] then [GetVec(lo)] else [], GetVecs(enable, lo + 1), x);
    }
  }

  /** The callbacks a reinitialisation makes: one reset of each module that was
      registered, one registration of each that is enabled, one init of each that
      nothing holds back, and nothing else. */
  lemma CountReinit(c: Config, s: State, x: Call)
    requires c.Valid() && s.status.Fits(c.N())
    ensures Count(OnReinit(c, s).calls, x) ==
              match x
              case ResetCb(m) => if m < c.N() && s.status.registered[m] then 1 else 0
              case GetVec(m) => if m < c.N() && c.enable[m] then 1 else 0
              case InitCb(m) => if m < c.N() && MayInit(c, OnReinit(c, s).status, m) then 1 else 0
              case FlashCb(_) => 0
  {
    hide MayInit;
    var t := Registered(c, s.status);
    var rs, gs := Resets(s.status.registered, 0), GetVecs(c.enable, 0);
    CountAppend(rs + gs, Inits(c, t, Everyone(c), 0), x);
    CountAppend(rs, gs, x);
    CountResets(s.status.registered, 0, x);
    CountGetVecs(c.enable, 0, x);
    CountInits(c, t, Everyone(c), 0, x);
  }

  /** The callbacks an UP change makes. A flash is asked of the module itself and
      then of everything it subscribes to, which may include itself. */
  lemma CountUp(c: Config, s: State, k: nat, x: Call)
    requires c.Valid() && s.status.Fits(c.N()) && k < c.N() && s.status.conn[k] != Up
    ensures var t := OnUp(c, s, k).status;
            Count(OnUp(c, s, k).calls, x) == Count(s.calls, x) +
              match x
              case InitCb(m) => if m < c.N() && c.notify[k][m] && MayInit(c, t, m) then 1 else 0
              case FlashCb(m) =>
                if m < c.N() && MayFlash(c, t, m)
                then (if m == k then 1 else 0) + (if c.notify[k][m] then 1 else 0)
                else 0
              case _ => 0
  {
    hide MayInit, MayFlash;
    var t := OnUp(c, s, k).status;
    var ins, f, fs := Inits(c, t, c.notify[k], 0), Flash(c, t, k), Flashes(c, t, c.notify[k], 0);
    CountAppend(s.calls + ins + f, fs, x);
    CountAppend(s.calls + ins, f, x);
    CountAppend(s.calls, ins, x);
    CountInits(c, t, c.notify[k], 0, x);
    CountFlashes(c, t, c.notify[k], 0, x);
  }

  lemma StartedAfterUp(c: Config, s: State, k: nat, m: nat)
    requires c.Valid() && s.status.Fits(c.N()) && k < c.N() && m < c.N() && s.status.conn[k] != Up
    ensures Started(OnUp(c, s, k), m) <==>
              Started(s, m) || (c.notify[k][m] && MayInit(c, OnUp(c, s, k).status, m))
  {
    CountUp(c, s, k, InitCb(m));
    CountIn(s.calls, InitCb(m));
    CountIn(OnUp(c, s, k).calls, InitCb(m));
  }

  lemma StartedAfterReinit(c: Config, s: State, m: nat)
    requires c.Valid() && s.status.Fits(c.N()) && m < c.N()
    ensures Started(OnReinit(c, s), m) <==> MayInit(c, OnReinit(c, s).status, m)
  {
    CountReinit(c, s, InitCb(m));
    CountIn(OnReinit(c, s).calls, InitCb(m));
  }

  // ----- the bring-up invariant -------------------------------------------------

  /** Two different modules that each want the other's events. */
  predicate Mutual(c: Config, i: nat, m: nat)
    requires c.Valid() && i < c.N() && m < c.N()
  {
    i != m && c.notify[i][m] && c.notify[m][i]
  }

  /** In every state: only enabled modules are started, only started ones are up,
      and after the first reinit every enabled module is registered. */
  ghost predicate Sound(c: Config, s: State)
    requires c.Valid()
  {
    && s.status.Fits(c.N())
    && (forall m: nat :: m < c.N() && s.status.conn[m] == Up ==> Started(s, m))
    && (forall m: nat :: m < c.N() && Started(s, m) ==> Enabled(c, s.status, m))
    && (forall m: nat :: m < c.N() && s.status.registered[m] ==> c.enable[m] && s.status.conn[m] != Unset)
    && (s.reinitDue || s.status.registered == c.enable)
  }

  /** An enabled module has been started exactly when every enabled subscriber
      that is neither itself nor interdependent with it is up. */
  ghost predicate StartedIsMayStart(c: Config, s: State)
    requires c.Valid() && s.status.Fits(c.N())
  {
    forall m: nat :: m < c.N() && Enabled(c, s.status, m) ==>
      (Started(s, m) <==> MayStart(c, s.status, m))
  }

  ghost predicate BringUp(c: Config, s: State)
    requires c.Valid()
  {
    Sound(c, s) && (!s.reinitDue ==> StartedIsMayStart(c, s))
  }

  lemma ReinitBringsUp(c: Config, s: State)
    requires c.Valid() && Sound(c, s)
    ensures BringUp(c, OnReinit(c, s))
  {
    hide MayStart;
    var u := OnReinit(c, s);
    forall m: nat | m < c.N()
      ensures Started(u, m) <==> Enabled(c, u.status, m) && MayStart(c, u.status, m)
    {
      StartedAfterReinit(c, s, m);
    }
    assert u.status.registered == c.enable;
  }

  /** While module k was not up and holds nothing back from m, its coming up does
      not decide whether m may start. */
  lemma MayStartUnaffected(c: Config, t: Status, k: nat, m: nat)
    requires c.Valid() && t.Fits(c.N()) && k < c.N() && m < c.N()
    requires !HoldsBack(c, t, k, m)
    ensures MayStart(c, t, m) <==> MayStart(c, t.(conn := t.conn[k := Up]), m)
  {
    var u := t.(conn := t.conn[k := Up]);
    assert forall i: nat :: i < c.N() ==> HoldsBack(c, t, i, m) == HoldsBack(c, u, i, m);
  }

  lemma HeldBack(c: Config, t: Status, k: nat, m: nat)
    requires c.Valid() && t.Fits(c.N()) && k < c.N() && m < c.N()
    requires HoldsBack(c, t, k, m) && t.conn[k] != Up
    ensures !MayStart(c, t, m)
  {}

  lemma UpBringsUp(c: Config, s: State, k: nat)
    requires c.Valid() && BringUp(c, s) && k < c.N() && Started(s, k)
    ensures BringUp(c, OnUp(c, s, k))
  {
    hide MayStart, HoldsBack;
    if s.status.conn[k] != Up {
      var u := OnUp(c, s, k);
      forall m: nat | m < c.N()
        ensures Started(u, m) <==> Started(s, m) || (c.notify[k][m] && MayInit(c, u.status, m))
        ensures !s.reinitDue && Enabled(c, u.status, m) ==> (Started(u, m) <==> MayStart(c, u.status, m))
      {
        StartedAfterUp(c, s, k, m);
        if !s.reinitDue && Enabled(c, u.status, m) {
          UpDecides(c, s, k, m);
        }
      }
    }
  }

  lemma UpDecides(c: Config, s: State, k: nat, m: nat)
    requires c.Valid() && BringUp(c, s) && k < c.N() && Started(s, k) && s.status.conn[k] != Up
    requires m < c.N() && !s.reinitDue && Enabled(c, s.status, m)
    ensures Started(OnUp(c, s, k), m) <==> MayStart(c, OnUp(c, s, k).status, m)
  {
    StartedAfterUp(c, s, k, m);
    if HoldsBack(c, s.status, k, m) {
      HeldBack(c, s.status, k, m);
    } else {
      MayStartUnaffected(c, s.status, k, m);
    }
  }

  lemma DownBringsUp(c: Config, s: State, k: nat)
    requires c.Valid() && BringUp(c, s) && k < c.N() && Started(s, k)
    ensures BringUp(c, OnDown(c, s, k))
  {
    var u := OnDown(c, s, k);
    assert forall m: nat :: Started(u, m) == Started(s, m);
  }

  lemma NextBringsUp(c: Config, s: State, e: InfraEvent)
    requires c.Valid() && BringUp(c, s) && Allowed(c, s, e)
    ensures BringUp(c, Next(c, s, e))
  {
    match e
    case Reinit => ReinitBringsUp(c, s);
    case Report(k, up) => if up { UpBringsUp(c, s, k); } else { DownBringsUp(c, s, k); }
  }

  /** In every reachable state with no reinit pending, an enabled module has had
      its init callback run in this epoch if and only if every enabled subscriber
      to it that is neither itself nor interdependent with it is up. */
  lemma {:induction false} BringUpInvariant(c: Config, s: State, es: seq<InfraEvent>)
    requires c.Valid() && BringUp(c, s) && CanRun(c, s, es)
    ensures BringUp(c, After(c, s, es))
    decreases |es|
  {
    hide StartedIsMayStart;
    if es != [] {
      NextBringsUp(c, s, es[0]);
      BringUpInvariant(c, Next(c, s, es[0]), es[1..]);
    }
  }

  lemma InitialBringsUp(c: Config)
    requires c.Valid()
    ensures BringUp(c, Initial(c))
  {}

  // ----- how often: init at most once, flash exactly once -----------------------

  /** No module has been given a second init callback in this epoch. */
  ghost predicate InitOnce(c: Config, s: State)
    requires c.Valid() && s.status.Fits(c.N())
  {
    !s.reinitDue ==>
      forall m: nat :: m < c.N() ==> Count(s.calls, InitCb(m)) <= 1
  }

  ghost predicate NoMutual(c: Config)
    requires c.Valid()
  {
    forall i: nat, m: nat :: i < c.N() && m < c.N() && c.enable[i] && c.enable[m] ==> !Mutual(c, i, m)
  }

  /** An UP change gives a second init callback to a module exactly when that
      module, startable and not yet up, is interdependent with the one that came
      up. */
  lemma SecondInit(c: Config, s: State, k: nat, m: nat)
    requires c.Valid() && BringUp(c, s) && !s.reinitDue
    requires k < c.N() && Started(s, k) && s.status.conn[k] != Up && m < c.N() && Started(s, m)
    ensures Count(OnUp(c, s, k).calls, InitCb(m)) > Count(s.calls, InitCb(m))
       <==> Mutual(c, k, m) && s.status.conn[m] != Up
  {
    var t, u := s.status, OnUp(c, s, k).status;
    CountUp(c, s, k, InitCb(m));
    assert MayStart(c, t, m);
    if HoldsBack(c, t, k, m) {
      HeldBack(c, t, k, m);
    } else {
      MayStartUnaffected(c, t, k, m);
    }
    assert Subscribes(c, t, k, m) <==> c.notify[k][m];
  }

  lemma NextInitOnce(c: Config, s: State, e: InfraEvent)
    requires c.Valid() && NoMutual(c) && BringUp(c, s) && InitOnce(c, s) && Allowed(c, s, e)
    ensures InitOnce(c, Next(c, s, e))
  {
    var u := Next(c, s, e);
    forall m: nat | m < c.N() && !u.reinitDue ensures Count(u.calls, InitCb(m)) <= 1 {
      match e
      case Reinit => CountReinit(c, s, InitCb(m));
      case Report(k, up) =>
        if up && s.status.conn[k] != Up {
          CountUp(c, s, k, InitCb(m));
          CountIn(s.calls, InitCb(m));
          if Started(s, m) {
            SecondInit(c, s, k, m);
            assert !Mutual(c, k, m);
          }
        }
    }
  }

  /** Hence at most one init callback a module in an epoch before its first DOWN
      change. A module that subscribes to itself is no exception. */
  lemma {:induction false} InitAtMostOnce(c: Config, s: State, es: seq<InfraEvent>)
    requires c.Valid() && NoMutual(c) && BringUp(c, s) && InitOnce(c, s) && CanRun(c, s, es)
    ensures InitOnce(c, After(c, s, es))
    decreases |es|
  {
    hide StartedIsMayStart, InitOnce;
    if es != [] {
      NextBringsUp(c, s, es[0]);
      NextInitOnce(c, s, es[0]);
      InitAtMostOnce(c, Next(c, s, es[0]), es[1..]);
    }
  }

  /** The event brings up a module with which a started one, not up yet, is
      interdependent. */
  ghost predicate Crosses(c: Config, s: State, e: InfraEvent)
    requires c.Valid() && s.status.Fits(c.N()) && (e.Report? ==> e.m < c.N())
  {
    && e.Report? && e.up && s.status.conn[e.m] != Up
    && exists m: nat :: m < c.N() && Mutual(c, e.m, m) && Started(s, m) && s.status.conn[m] != Up
  }

  ghost predicate NoneCrosses(c: Config, s: State, es: seq<InfraEvent>)
    requires c.Valid() && s.status.Fits(c.N()) && CanRun(c, s, es)
    decreases |es|
  {
    es != [] ==> !Crosses(c, s, es[0]) && NoneCrosses(c, Next(c, s, es[0]), es[1..])
  }

  predicate OnlyReports(es: seq<InfraEvent>) {
    forall i :: 0 <= i < |es| ==> es[i].Report?
  }

  lemma CrossingInitsTwice(c: Config, s: State, e: InfraEvent)
    requires c.Valid() && BringUp(c, s) && !s.reinitDue && InitOnce(c, s) && Allowed(c, s, e)
    requires e.Report? && !Next(c, s, e).reinitDue
    ensures InitOnce(c, Next(c, s, e)) <==> !Crosses(c, s, e)
  {
    hide MayStart, MayInit, StartedIsMayStart, CanRun;
    var u, k := Next(c, s, e), e.m;
    if e.up && s.status.conn[k] != Up {
      forall m: nat | m < c.N()
        ensures Count(u.calls, InitCb(m)) <= 1 <==>
                  !(Mutual(c, k, m) && Started(s, m) && s.status.conn[m] != Up)
      {
        CountUp(c, s, k, InitCb(m));
        CountIn(s.calls, InitCb(m));
        if Started(s, m) { SecondInit(c, s, k, m); }
      }
    }
  }

  lemma {:induction false} ReportsAddCalls(c: Config, s: State, es: seq<InfraEvent>, x: Call)
    requires c.Valid() && s.status.Fits(c.N()) && CanRun(c, s, es) && OnlyReports(es)
    ensures Count(s.calls, x) <= Count(After(c, s, es).calls, x)
    ensures s.reinitDue ==> After(c, s, es).reinitDue
    decreases |es|
  {
    if es != [] {
      var k := es[0].m;
      if es[0].up && s.status.conn[k] != Up { CountUp(c, s, k, x); }
      hide OnUp, OnDown;
      ReportsAddCalls(c, Next(c, s, es[0]), es[1..], x);
    }
  }

  /** In an epoch that has seen no DOWN change, no module has been initialised
      twice if and only if no UP change crossed another. */
  lemma {:induction false} InitOnceExact(c: Config, s: State, es: seq<InfraEvent>)
    requires c.Valid() && BringUp(c, s) && !s.reinitDue && InitOnce(c, s)
    requires CanRun(c, s, es) && OnlyReports(es) && !After(c, s, es).reinitDue
    ensures InitOnce(c, After(c, s, es)) <==> NoneCrosses(c, s, es)
    decreases |es|
  {
    if es != [] {
      var u := Next(c, s, es[0]);
      NextBringsUp(c, s, es[0]);
      ReportsAddCalls(c, u, es[1..], InitCb(0));
      CrossingInitsTwice(c, s, es[0]);
      hide BringUp, Crosses, Next;
      if InitOnce(c, u) {
        InitOnceExact(c, u, es[1..]);
      } else {
        var m: nat :| m < c.N() && Count(u.calls, InitCb(m)) > 1;
        ReportsAddCalls(c, u, es[1..], InitCb(m));
      }
    }
  }

  /** Two interdependent modules: the second gets its init callback twice. */
  const PAIR: Config :=
    Config([true, true], [[false, true], [true, false]], [Policy.NO_POLICY, Policy.NO_POLICY])

  lemma MutualPairInitsTwice()
    ensures PAIR.Valid() && CanRun(PAIR, Initial(PAIR), [Reinit, Report(0, true)])
    ensures var s := After(PAIR, Initial(PAIR), [Reinit, Report(0, true)]);
            !s.reinitDue && Count(s.calls, InitCb(1)) == 2
  {
    var s := OnReinit(PAIR, Initial(PAIR));
    var u := OnUp(PAIR, s, 0);
    StartedAfterReinit(PAIR, Initial(PAIR), 0);
    StartedAfterReinit(PAIR, Initial(PAIR), 1);
    CountReinit(PAIR, Initial(PAIR), InitCb(1));
    CountUp(PAIR, s, 0, InitCb(1));
    assert [Reinit, Report(0, true)][1..] == [Report(0, true)];
    assert [Report(0, true)][1..] == [];
  }

  /** In an epoch without a DOWN change, a module that does not subscribe to
      itself has been asked for its flash once if it and all its enabled
      subscribers, of which there is one at least, are up; otherwise never. */
  ghost predicate FlashOnce(c: Config, s: State)
    requires c.Valid() && s.status.Fits(c.N())
  {
    !s.reinitDue ==>
      forall m: nat :: m < c.N() && !c.notify[m][m] ==>
        Count(s.calls, FlashCb(m)) == if MayFlash(c, s.status, m) then 1 else 0
  }

  /** A flash can only become due to a module, or to one of its subscribers,
      coming up; it is not due before. */
  lemma FlashBecomesDue(c: Config, t: Status, k: nat, m: nat)
    requires c.Valid() && t.Fits(c.N()) && k < c.N() && m < c.N()
    requires Enabled(c, t, k) && t.conn[k] != Up
    ensures var u := t.(conn := t.conn[k := Up]);
            if k == m || c.notify[k][m] then !MayFlash(c, t, m)
            else MayFlash(c, t, m) <==> MayFlash(c, u, m)
  {
    var u := t.(conn := t.conn[k := Up]);
    assert forall i: nat :: i < c.N() ==> Subscribes(c, t, i, m) == Subscribes(c, u, i, m);
    if c.notify[k][m] {
      assert Subscribes(c, t, k, m);
    } else if k != m {
      assert !Subscribes(c, t, k, m);
      if MayFlash(c, t, m) {
        var i: nat :| i < c.N() && Subscribes(c, t, i, m);
        assert Subscribes(c, u, i, m);
      }
      if MayFlash(c, u, m) {
        var i: nat :| i < c.N() && Subscribes(c, u, i, m);
        assert Subscribes(c, t, i, m);
      }
    }
  }

  lemma NextFlashOnce(c: Config, s: State, e: InfraEvent)
    requires c.Valid() && BringUp(c, s) && FlashOnce(c, s) && Allowed(c, s, e)
    ensures FlashOnce(c, Next(c, s, e))
  {
    hide MayFlash;
    var u := Next(c, s, e);
    forall m: nat | m < c.N() && !u.reinitDue && !c.notify[m][m]
      ensures Count(u.calls, FlashCb(m)) == if MayFlash(c, u.status, m) then 1 else 0
    {
      match e
      case Reinit =>
        CountReinit(c, s, FlashCb(m));
        NoFlashWhileDown(c, u.status, m);
      case Report(k, up) =>
        if up && s.status.conn[k] != Up {
          CountUp(c, s, k, FlashCb(m));
          FlashBecomesDue(c, s.status, k, m);
        }
    }
  }

  lemma NoFlashWhileDown(c: Config, t: Status, m: nat)
    requires c.Valid() && t.Fits(c.N()) && m < c.N() && (Enabled(c, t, m) ==> t.conn[m] == Down)
    ensures !MayFlash(c, t, m)
  {}

  lemma {:induction false} FlashExactlyOnce(c: Config, s: State, es: seq<InfraEvent>)
    requires c.Valid() && BringUp(c, s) && FlashOnce(c, s) && CanRun(c, s, es)
    ensures FlashOnce(c, After(c, s, es))
    decreases |es|
  {
    hide StartedIsMayStart, FlashOnce;
    if es != [] {
      NextBringsUp(c, s, es[0]);
      NextFlashOnce(c, s, es[0]);
      FlashExactlyOnce(c, Next(c, s, es[0]), es[1..]);
    }
  }

  /** The UP event that makes the flash due is the one that asks for it; a module
      that subscribes to itself and comes up last is asked twice. */
  lemma FlashAtTheLastUp(c: Config, s: State, k: nat, m: nat)
    requires c.Valid() && BringUp(c, s) && k < c.N() && m < c.N() && Started(s, k)
    requires s.status.conn[k] != Up
    ensures var u := OnUp(c, s, k);
            Count(u.calls, FlashCb(m)) - Count(s.calls, FlashCb(m)) ==
              if MayFlash(c, s.status, m) || !MayFlash(c, u.status, m) then 0
              else if m == k && c.notify[m][m] then 2
              else 1
  {
    hide MayFlash;
    CountUp(c, s, k, FlashCb(m));
    FlashBecomesDue(c, s.status, k, m);
  }

  /** Whether it subscribes to itself or not, a module has been asked for its flash
      exactly if it is due. */
  ghost predicate AskedIfDue(c: Config, s: State)
    requires c.Valid() && s.status.Fits(c.N())
  {
    !s.reinitDue ==>
      forall m: nat :: m < c.N() ==> (FlashCb(m) in s.calls <==> MayFlash(c, s.status, m))
  }

  lemma NextAskedIfDue(c: Config, s: State, e: InfraEvent)
    requires c.Valid() && BringUp(c, s) && AskedIfDue(c, s) && Allowed(c, s, e)
    ensures AskedIfDue(c, Next(c, s, e))
  {
    hide MayFlash;
    var u := Next(c, s, e);
    forall m: nat | m < c.N() && !u.reinitDue ensures FlashCb(m) in u.calls <==> MayFlash(c, u.status, m) {
      CountIn(u.calls, FlashCb(m));
      CountIn(s.calls, FlashCb(m));
      match e
      case Reinit =>
        CountReinit(c, s, FlashCb(m));
        NoFlashWhileDown(c, u.status, m);
      case Report(k, up) =>
        if up && s.status.conn[k] != Up {
          CountUp(c, s, k, FlashCb(m));
          FlashBecomesDue(c, s.status, k, m);
        }
    }
  }

  lemma {:induction false} FlashAsked(c: Config, s: State, es: seq<InfraEvent>)
    requires c.Valid() && BringUp(c, s) && AskedIfDue(c, s) && CanRun(c, s, es)
    ensures AskedIfDue(c, After(c, s, es))
    decreases |es|
  {
    hide StartedIsMayStart, AskedIfDue;
    if es != [] {
      NextBringsUp(c, s, es[0]);
      NextAskedIfDue(c, s, es[0]);
      FlashAsked(c, Next(c, s, es[0]), es[1..]);
    }
  }

  // ----- the rules, in terms of what is configured and recorded -----------------------

  /** When a flash is due. */
  lemma FlashDue(c: Config, s: State, m: nat)
    requires c.Valid() && BringUp(c, s) && !s.reinitDue && m < c.N()
    ensures MayFlash(c, s.status, m) <==>
              && s.status.conn[m] == Up
              && (exists i: nat :: i < c.N() && c.enable[i] && c.notify[i][m])
              && forall i: nat :: i < c.N() && c.enable[i] && c.notify[i][m] ==> s.status.conn[i] == Up
  {
    var t := s.status;
    assert forall i: nat :: i < c.N() ==> (Subscribes(c, t, i, m) <==> c.enable[i] && c.notify[i][m]);
    if i: nat :| i < c.N() && c.enable[i] && c.notify[i][m] { assert Subscribes(c, t, i, m); }
    if i: nat :| i < c.N() && Subscribes(c, t, i, m) { assert c.enable[i] && c.notify[i][m]; }
  }

  /** What is started. */
  lemma StartDue(c: Config, s: State, m: nat)
    requires c.Valid() && BringUp(c, s) && !s.reinitDue && m < c.N()
    ensures Started(s, m) <==>
              && c.enable[m]
              && forall i: nat :: i < c.N() && c.enable[i] && c.notify[i][m] && !c.notify[m][i] ==>
                   s.status.conn[i] == Up
  {
    var t := s.status;
    assert forall i: nat :: i < c.N() ==>
             (HoldsBack(c, t, i, m) <==> c.enable[i] && c.notify[i][m] && !c.notify[m][i]);
  }

  // ----- the order of the callbacks -------------------------------------------------------

  predicate Ascends(calls: seq<Call>) {
    forall i, j :: 0 <= i < j < |calls| ==> calls[i].m < calls[j].m
  }

  lemma AscendsCons(x: Call, calls: seq<Call>, lo: nat)
    requires Ascends(calls) && x.m < lo && forall y <- calls :: lo <= y.m
    ensures Ascends([x] + calls)
  {}

  lemma {:induction false} InitsAscend(c: Config, t: Status, row: seq<bool>, lo: nat)
    requires c.Valid() && t.Fits(c.N()) && |row| == c.N() && lo <= c.N()
    ensures var xs := Inits(c, t, row, lo); Ascends(xs) && forall x <- xs :: x.InitCb? && lo <= x.m
    decreases c.N() - lo
  {
    hide MayInit;
    if lo < c.N() {
      InitsAscend(c, t, row, lo + 1);
      if row[lo] && MayInit(c, t, lo) { AscendsCons(InitCb(lo), Inits(c, t, row, lo + 1), lo + 1); }
    }
  }

  lemma {:induction false} FlashesAscend(c: Config, t: Status, row: seq<bool>, lo: nat)
    requires c.Valid() && t.Fits(c.N()) && |row| == c.N() && lo <= c.N()
    ensures var xs := Flashes(c, t, row, lo); Ascends(xs) && forall x <- xs :: x.FlashCb? && lo <= x.m
    decreases c.N() - lo
  {
    hide MayFlash;
    if lo < c.N() {
      FlashesAscend(c, t, row, lo + 1);
      if row[lo] && MayFlash(c, t, lo) { AscendsCons(FlashCb(lo), Flashes(c, t, row, lo + 1), lo + 1); }
    }
  }

  lemma {:induction false} ResetsAscend(registered: seq<bool>, lo: nat)
    requires lo <= |registered|
    ensures var xs := Resets(registered, lo); Ascends(xs) && forall x <- xs :: x.ResetCb? && lo <= x.m
    decreases |registered| - lo
  {
    if lo < |registered| {
      ResetsAscend(registered, lo + 1);
      if registered[lo] { AscendsCons(ResetCb(lo), Resets(registered, lo + 1), lo + 1); }
    }
  }

  lemma {:induction false} GetVecsAscend(enable: seq<bool>, lo: nat)
    requires lo <= |enable|
    ensures var xs := GetVecs(enable, lo); Ascends(xs) && forall x <- xs :: x.GetVec? && lo <= x.m
    decreases |enable| - lo
  {
    if lo < |enable| {
      GetVecsAscend(enable, lo + 1);
      if enable[lo] { AscendsCons(GetVec(lo), GetVecs(enable, lo + 1), lo + 1); }
    }
  }

  /** An UP change makes its init callbacks first, in module order; then asks for the
      module's own flash; then for those of what it subscribes to, in module order. */
  lemma UpInOrder(c: Config, s: State, k: nat)
    requires c.Valid() && s.status.Fits(c.N()) && k < c.N() && s.status.conn[k] != Up
    ensures exists xs: seq<Call>, ys: seq<Call>, zs: seq<Call> ::
              && OnUp(c, s, k).calls == s.calls + xs + ys + zs
              && Ascends(xs) && (forall x <- xs :: x.InitCb? && x.m < c.N() && c.notify[k][x.m])
              && |ys| <= 1 && (forall y <- ys :: y == FlashCb(k))
              && Ascends(zs) && (forall z <- zs :: z.FlashCb? && z.m < c.N() && c.notify[k][z.m])
  {
    hide MayInit, MayFlash;
    var t := OnUp(c, s, k).status;
    var row := c.notify[k];
    InitsAscend(c, t, row, 0);
    FlashesAscend(c, t, row, 0);
    forall x <- Inits(c, t, row, 0) ensures x.m < c.N() && row[x.m] {
      CountInits(c, t, row, 0, x);
      CountIn(Inits(c, t, row, 0), x);
    }
    forall x <- Flashes(c, t, row, 0) ensures x.m < c.N() && row[x.m] {
      CountFlashes(c, t, row, 0, x);
      CountIn(Flashes(c, t, row, 0), x);
    }
    assert OnUp(c, s, k).calls == s.calls + Inits(c, t, row, 0) + Flash(c, t, k) + Flashes(c, t, row, 0);
  }

  /** A reinitialisation resets, then registers, then initialises, each in module
      order. */
  lemma ReinitInOrder(c: Config, s: State)
    requires c.Valid() && s.status.Fits(c.N())
    ensures exists xs: seq<Call>, ys: seq<Call>, zs: seq<Call> ::
              && OnReinit(c, s).calls == xs + ys + zs
              && Ascends(xs) && (forall x <- xs :: x.ResetCb?)
              && Ascends(ys) && (forall y <- ys :: y.GetVec?)
              && Ascends(zs) && (forall z <- zs :: z.InitCb?)
  {
    hide MayInit, Inits;
    var t := Registered(c, s.status);
    ResetsAscend(s.status.registered, 0);
    GetVecsAscend(c.enable, 0);
    InitsAscend(c, t, Everyone(c), 0);
    assert OnReinit(c, s).calls == Resets(s.status.registered, 0) + GetVecs(c.enable, 0) + Inits(c, t, Everyone(c), 0);
  }
}
