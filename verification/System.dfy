/** The whole agent: the infrastructure, every module's context, and the handles,
    and what every event keeps. */
module System {
  import opened Infra
  import opened Pipe
  import opened Lifecycle
  import Bringup

  datatype Agent = Agent(c: Config, kinds: seq<Kind>)
  {
    predicate Valid() { c.Valid() && |kinds| == c.N() }
  }

  datatype Sys = Sys(infra: State, ctx: seq<Ctx>, pool: Pool)

  /** What can happen in the event loop, and the manager thread's steps. Reading
      and writing messages changes none of this state. */
  datatype SysEvent =
    | ReinitFires
    | TimerExpires(m: nat, outcome: Outcome)
    | BevReports(m: nat, what: What)
    | Accepts(m: nat, ok: bool)
    | ListenerFails(m: nat)
    | ManagerRuns(m: nat, ch: Channel)
    | PipeReads(m: nat)

  predicate Fits(a: Agent, s: Sys) {
    a.Valid() && s.infra.status.Fits(a.c.N()) && |s.ctx| == a.c.N()
  }

  /** An event needs the handle it comes from. */
  predicate CanHappen(a: Agent, s: Sys, e: SysEvent)
    requires Fits(a, s)
  {
    match e
    case ReinitFires => s.infra.reinitDue
    case TimerExpires(m, _) => m < a.c.N() && s.ctx[m].timerPending
    case BevReports(m, _) => m < a.c.N() && s.ctx[m].bev.Some?
    case Accepts(m, _) => m < a.c.N() && a.kinds[m] == TcpServer && s.ctx[m].listener.Some?
    case ListenerFails(m) => m < a.c.N() && a.kinds[m] == TcpServer && s.ctx[m].listener.Some?
    case ManagerRuns(m, _) => m < a.c.N() && a.kinds[m] == Prpd && s.ctx[m].manager.Some?
    case PipeReads(m) => m < a.c.N() && a.kinds[m] == Prpd && s.ctx[m].queue != []
  }

  /** The module's own part of an event. */
  function EffectOf(k: Kind, x: Ctx, p: Pool, e: SysEvent): Effect {
    match e
    case ReinitFires => Effect(x, p, Nothing)
    case TimerExpires(_, o) => TimerFires(k, x, p, o)
    case BevReports(_, what) => BevEvent(k, x, p, what)
    case Accepts(_, ok) => Accept(x, p, ok)
    case ListenerFails(_) => ListenerError(k, x, p)
    case ManagerRuns(_, ch) => if x.manager.Some? then ManagerActs(x, p, ch) else Effect(x, p, Nothing)
    case PipeReads(_) => if x.queue != [] then PipeReadable(x, p) else Effect(x, p, Nothing)
  }

  /** What a callback of the infrastructure does to a module. */
  function CallOn(k: Kind, x: Ctx, p: Pool, call: Call): (Ctx, Pool) {
    match call
    case ResetCb(_) => Reset(k, x, p)
    case GetVec(_) => (Zeroed(x), p)
    case InitCb(_) => Init(k, x, p)
    case FlashCb(_) => (x, p)
  }

  function ApplyCall(a: Agent, xs: seq<Ctx>, p: Pool, call: Call): (r: (seq<Ctx>, Pool))
    requires a.Valid() && |xs| == a.c.N()
    ensures |r.0| == |xs|
  {
    if call.m >= |xs| then (xs, p)
    else
      var (y, q) := CallOn(a.kinds[call.m], xs[call.m], p, call);
      (xs[call.m := y], q)
  }

  function ApplyCalls(a: Agent, xs: seq<Ctx>, p: Pool, calls: seq<Call>): (r: (seq<Ctx>, Pool))
    requires a.Valid() && |xs| == a.c.N()
    ensures |r.0| == |xs|
    decreases |calls|
  {
    if calls == [] then (xs, p)
    else
      var (ys, q) := ApplyCall(a, xs, p, calls[0]);
      ApplyCalls(a, ys, q, calls[1..])
  }

  /** The infrastructure takes a module's report. */
  function Told(c: Config, s: State, m: nat, r: Report): (s': State)
    requires c.Valid() && s.status.Fits(c.N()) && m < c.N()
    ensures s'.status.Fits(c.N()) && s.calls <= s'.calls
  {
    match r
    case Nothing => s
    case ReportUp => OnUp(c, s, m)
    case ReportDown => OnDown(c, s, m)
  }

  function NextSys(a: Agent, s: Sys, e: SysEvent): (s': Sys)
    requires Fits(a, s) && CanHappen(a, s, e)
    ensures Fits(a, s')
  {
    if e.ReinitFires? then
      var u := OnReinit(a.c, s.infra);
      var (ys, q) := ApplyCalls(a, s.ctx, s.pool, u.calls);
      Sys(u, ys, q)
    else
      var f := EffectOf(a.kinds[e.m], s.ctx[e.m], s.pool, e);
      var u := Told(a.c, s.infra, e.m, f.report);
      var (ys, q) := ApplyCalls(a, s.ctx[e.m := f.ctx], f.pool, u.calls[|s.infra.calls|..]);
      Sys(u, ys, q)
  }

  // ----- handles, over all contexts ---------------------------------------------------

  function HeldAll(xs: seq<Ctx>, h: Handle): nat {
    if xs == [] then 0 else HeldIn(xs[0], h) + HeldAll(xs[1..], h)
  }

  /** Every handle created has been freed exactly once or is held in exactly one
      slot; none other is held or has been freed. */
  ghost predicate Conserved(xs: seq<Ctx>, p: Pool) {
    forall h: Handle :: p.freed[h] + HeldAll(xs, h) == Created(p, h)
  }

  lemma {:induction false} HeldUpdate(xs: seq<Ctx>, m: nat, y: Ctx, h: Handle)
    requires m < |xs|
    ensures HeldAll(xs[m := y], h) == HeldAll(xs, h) - HeldIn(xs[m], h) + HeldIn(y, h)
  {
    hide HeldIn;
    if m == 0 {
      assert xs[0 := y][1..] == xs[1..];
    } else {
      assert xs[m := y][1..] == xs[1..][m - 1 := y];
      HeldUpdate(xs[1..], m - 1, y, h);
    }
  }

  lemma StaysConserved(xs: seq<Ctx>, p: Pool, m: nat, y: Ctx, q: Pool)
    requires m < |xs| && Balanced(xs[m], p, y, q) && Conserved(xs, p)
    ensures Conserved(xs[m := y], q)
  {
    hide HeldIn, HeldAll;
    forall h: Handle ensures q.freed[h] + HeldAll(xs[m := y], h) == Created(q, h) {
      HeldUpdate(xs, m, y, h);
    }
  }

  lemma ApplyCons(a: Agent, xs: seq<Ctx>, p: Pool, call: Call, more: seq<Call>)
    requires a.Valid() && |xs| == a.c.N()
    ensures var (ys, q) := ApplyCall(a, xs, p, call);
            ApplyCalls(a, xs, p, [call] + more) == ApplyCalls(a, ys, q, more)
  {
    hide ApplyCall;
    assert ([call] + more)[1..] == more;
  }

  // ----- the callbacks of a pass, module by module ----------------------------------------

  ghost predicate AllInOrder(a: Agent, xs: seq<Ctx>)
    requires a.Valid() && |xs| == a.c.N()
  {
    forall m :: 0 <= m < |xs| ==> InOrder(a.kinds[m], xs[m])
  }

  /** Init callbacks start the modules they are made to, and touch no others. */
  lemma {:induction false} AfterInits(a: Agent, xs: seq<Ctx>, p: Pool, calls: seq<Call>)
    requires a.Valid() && |xs| == a.c.N() && AllInOrder(a, xs) && Conserved(xs, p)
    requires forall x <- calls :: x.InitCb? || x.FlashCb?
    ensures var (ys, q) := ApplyCalls(a, xs, p, calls);
            && AllInOrder(a, ys) && Conserved(ys, q)
            && forall m :: 0 <= m < |xs| ==>
                 if InitCb(m) in calls then JustStarted(ys[m]) else ys[m] == xs[m]
    decreases |calls|
  {
    hide InOrder, JustStarted, Init, Conserved, Balanced;
    if calls != [] {
      var m := calls[0].m;
      var (zs, r) := ApplyCall(a, xs, p, calls[0]);
      assert calls == [calls[0]] + calls[1..];
      if calls[0].InitCb? && m < |xs| {
        InitBalanced(a.kinds[m], xs[m], p);
        StaysConserved(xs, p, m, zs[m], r);
      } else {
        assert zs == xs;
      }
      AfterInits(a, zs, r, calls[1..]);
    }
  }

  lemma {:induction false} AfterResets(a: Agent, xs: seq<Ctx>, p: Pool, registered: seq<bool>, lo: nat)
    requires a.Valid() && |xs| == |registered| == a.c.N() && AllInOrder(a, xs) && Conserved(xs, p) && lo <= |xs|
    ensures var (ys, q) := ApplyCalls(a, xs, p, Resets(registered, lo));
            && Conserved(ys, q)
            && forall m :: 0 <= m < |xs| ==>
                 if lo <= m && registered[m] then Clean(ys[m]) else ys[m] == xs[m]
    decreases |xs| - lo
  {
    hide Reset, Conserved, Balanced, Own, InOrder, Clean;
    if lo < |xs| {
      if registered[lo] {
        var (y, q) := Reset(a.kinds[lo], xs[lo], p);
        InOrderOwn(a.kinds[lo], xs[lo]);
        ResetBalanced(a.kinds[lo], xs[lo], p);
        CleanInOrder(a.kinds[lo], y);
        StaysConserved(xs, p, lo, y, q);
        assert Resets(registered, lo)[1..] == Resets(registered, lo + 1);
        assert AllInOrder(a, xs[lo := y]);
        AfterResets(a, xs[lo := y], q, registered, lo + 1);
      } else {
        assert Resets(registered, lo) == Resets(registered, lo + 1);
        AfterResets(a, xs, p, registered, lo + 1);
      }
    }
  }

  lemma {:induction false} AfterGetVecs(a: Agent, xs: seq<Ctx>, p: Pool, enable: seq<bool>, lo: nat)
    requires a.Valid() && |xs| == |enable| == a.c.N() && Conserved(xs, p) && lo <= |xs|
    requires forall m :: lo <= m < |xs| && enable[m] ==> Clean(xs[m])
    ensures var (ys, q) := ApplyCalls(a, xs, p, GetVecs(enable, lo));
            && Conserved(ys, q)
            && forall m :: 0 <= m < |xs| ==> ys[m] == if lo <= m && enable[m] then EMPTY else xs[m]
    decreases |xs| - lo
  {
    hide Conserved, Balanced, Clean, Zeroed, ApplyCalls, GetVecs;
    if lo == |xs| {
      NoGetVecs(a, xs, p, enable);
    } else {
      OneGetVec(a, xs, p, enable, lo);
      if enable[lo] {
        ZeroedBalanced(xs[lo], p);
        StaysConserved(xs, p, lo, Zeroed(xs[lo]), p);
        AfterGetVecs(a, xs[lo := EMPTY], p, enable, lo + 1);
      } else {
        AfterGetVecs(a, xs, p, enable, lo + 1);
      }
    }
  }

  lemma NoGetVecs(a: Agent, xs: seq<Ctx>, p: Pool, enable: seq<bool>)
    requires a.Valid() && |xs| == |enable| == a.c.N()
    ensures ApplyCalls(a, xs, p, GetVecs(enable, |xs|)) == (xs, p)
  {}

  lemma OneGetVec(a: Agent, xs: seq<Ctx>, p: Pool, enable: seq<bool>, lo: nat)
    requires a.Valid() && |xs| == |enable| == a.c.N() && lo < |xs|
    ensures var ys := if enable[lo] then xs[lo := Zeroed(xs[lo])] else xs;
            ApplyCalls(a, xs, p, GetVecs(enable, lo)) == ApplyCalls(a, ys, p, GetVecs(enable, lo + 1))
  {
    hide Zeroed, ApplyCalls;
    var rest := GetVecs(enable, lo + 1);
    if enable[lo] {
      ApplyCons(a, xs, p, GetVec(lo), rest);
    } else {
      assert [] + rest == rest;
    }
  }

  lemma {:induction false} ApplyBoth(a: Agent, xs: seq<Ctx>, p: Pool, calls: seq<Call>, more: seq<Call>)
    requires a.Valid() && |xs| == a.c.N()
    ensures var (ys, q) := ApplyCalls(a, xs, p, calls);
            ApplyCalls(a, xs, p, calls + more) == ApplyCalls(a, ys, q, more)
    decreases |calls|
  {
    hide ApplyCall;
    if calls == [] {
      assert calls + more == more;
    } else {
      var (ys, q) := ApplyCall(a, xs, p, calls[0]);
      assert (calls + more)[1..] == calls[1..] + more;
      ApplyBoth(a, ys, q, calls[1..], more);
    }
  }

  lemma {:induction false} OnlyInits(c: Config, t: Status, row: seq<bool>, lo: nat)
    requires c.Valid() && t.Fits(c.N()) && |row| == c.N() && lo <= c.N()
    ensures forall x <- Inits(c, t, row, lo) :: x.InitCb?
    decreases c.N() - lo
  {
    hide MayInit;
    if lo < c.N() { OnlyInits(c, t, row, lo + 1); }
  }

  lemma {:induction false} OnlyFlashes(c: Config, t: Status, row: seq<bool>, lo: nat)
    requires c.Valid() && t.Fits(c.N()) && |row| == c.N() && lo <= c.N()
    ensures forall x <- Flashes(c, t, row, lo) :: x.FlashCb?
    decreases c.N() - lo
  {
    hide MayFlash;
    if lo < c.N() { OnlyFlashes(c, t, row, lo + 1); }
  }

  /** A module is given an init callback by a pass exactly when it is picked and
      may be initialised. */
  lemma InInits(c: Config, t: Status, row: seq<bool>, m: nat)
    requires c.Valid() && t.Fits(c.N()) && |row| == c.N() && m < c.N()
    ensures InitCb(m) in Inits(c, t, row, 0) <==> row[m] && MayInit(c, t, m)
  {
    Bringup.CountInits(c, t, row, 0, InitCb(m));
    Bringup.CountIn(Inits(c, t, row, 0), InitCb(m));
  }

  // ----- what holds of every module between events ---------------------------------------

  /** The manager and the pipe are in step with what is recorded. */
  predicate PipeInStep(k: Kind, conn: Conn, x: Ctx) {
    k == Prpd && x.manager.Some? ==> conn != Unset && InStep(conn, x.queue, x.manager.value)
  }

  /** Of a module: its context is in order, it holds something only once started,
      it can be written to when it is up (a server apart), and its pipe is in step. */
  predicate ModuleOk(k: Kind, conn: Conn, started: bool, x: Ctx) {
    && InOrder(k, x)
    && (x.infravec ==> started)
    && (conn == Up && k != TcpServer ==> Live(k, x))
    && PipeInStep(k, conn, x)
  }

  ghost predicate SysInv(a: Agent, s: Sys)
    requires Fits(a, s)
  {
    && Bringup.BringUp(a.c, s.infra)
    && Conserved(s.ctx, s.pool)
    && forall m :: 0 <= m < a.c.N() ==>
         ModuleOk(a.kinds[m], s.infra.status.conn[m], Bringup.Started(s.infra, m), s.ctx[m])
  }

  lemma JustStartedOk(k: Kind, conn: Conn, x: Ctx)
    requires InOrder(k, x) && JustStarted(x) && conn != Up
    ensures ModuleOk(k, conn, true, x)
  {}

  /** By the time a reinitialisation makes its init callbacks, every context is
      empty, whatever it held: zeroing it in get_vec loses nothing. */
  lemma ReinitEmpties(a: Agent, s: Sys)
    requires Fits(a, s) && SysInv(a, s)
    ensures var rs, gs := Resets(s.infra.status.registered, 0), GetVecs(a.c.enable, 0);
            var (xs, p) := ApplyCalls(a, s.ctx, s.pool, rs + gs);
            Conserved(xs, p) && forall m :: 0 <= m < a.c.N() ==> xs[m] == EMPTY
  {
    var rs, gs := Resets(s.infra.status.registered, 0), GetVecs(a.c.enable, 0);
    assert AllInOrder(a, s.ctx);
    hide InOrder, ModuleOk, Conserved, ApplyCalls;
    AfterResets(a, s.ctx, s.pool, s.infra.status.registered, 0);
    var (xs, p) := ApplyCalls(a, s.ctx, s.pool, rs);
    forall m | 0 <= m < a.c.N() ensures if a.c.enable[m] then Clean(xs[m]) else xs[m] == EMPTY {
      if !s.infra.status.registered[m] { EmptyUnlessRegistered(a, s, m); }
    }
    AfterGetVecs(a, xs, p, a.c.enable, 0);
    ApplyBoth(a, s.ctx, s.pool, rs, gs);
  }

  lemma EmptyInOrder(a: Agent, xs: seq<Ctx>)
    requires a.Valid() && |xs| == a.c.N() && forall m :: 0 <= m < a.c.N() ==> xs[m] == EMPTY
    ensures AllInOrder(a, xs)
  {}

  lemma EmptyOk(k: Kind, conn: Conn, started: bool)
    requires conn != Up
    ensures ModuleOk(k, conn, started, EMPTY)
  {}

  /** A reinitialisation starts, from nothing, the modules nothing holds back. */
  lemma ReinitContexts(a: Agent, s: Sys)
    requires Fits(a, s) && SysInv(a, s) && s.infra.reinitDue
    ensures var u := NextSys(a, s, ReinitFires);
            && AllInOrder(a, u.ctx) && Conserved(u.ctx, u.pool)
            && forall m: nat :: m < a.c.N() ==>
                 if Bringup.Started(u.infra, m) then JustStarted(u.ctx[m]) else u.ctx[m] == EMPTY
  {
    var n, u := a.c.N(), OnReinit(a.c, s.infra);
    var t := u.status;
    var rs, gs, ins := Resets(s.infra.status.registered, 0), GetVecs(a.c.enable, 0), Inits(a.c, t, Everyone(a.c), 0);
    ReinitEmpties(a, s);
    hide InOrder, ModuleOk, Conserved, ApplyCalls, Bringup.BringUp, Inits, MayInit, JustStarted, Resets, GetVecs;
    var (xs, p) := ApplyCalls(a, s.ctx, s.pool, rs + gs);
    EmptyInOrder(a, xs);
    OnlyInits(a.c, t, Everyone(a.c), 0);
    AfterInits(a, xs, p, ins);
    ApplyBoth(a, s.ctx, s.pool, rs + gs, ins);
    forall m: nat | m < n ensures InitCb(m) in ins <==> Bringup.Started(u, m) {
      InInits(a.c, t, Everyone(a.c), m);
      Bringup.StartedAfterReinit(a.c, s.infra, m);
    }
  }

  lemma ReinitOk(a: Agent, s: Sys)
    requires Fits(a, s) && SysInv(a, s) && s.infra.reinitDue
    ensures SysInv(a, NextSys(a, s, ReinitFires))
  {
    var u := NextSys(a, s, ReinitFires);
    Bringup.ReinitBringsUp(a.c, s.infra);
    ReinitContexts(a, s);
    forall m: nat | m < a.c.N()
      ensures ModuleOk(a.kinds[m], u.infra.status.conn[m], Bringup.Started(u.infra, m), u.ctx[m])
    {
      NotUpAfterReinit(a, s, m);
      hide InOrder, ModuleOk, Conserved, NextSys, Bringup.BringUp, JustStarted, SysInv;
      if Bringup.Started(u.infra, m) {
        JustStartedOk(a.kinds[m], u.infra.status.conn[m], u.ctx[m]);
      } else {
        EmptyOk(a.kinds[m], u.infra.status.conn[m], false);
      }
    }
  }

  lemma EmptyUnlessRegistered(a: Agent, s: Sys, m: nat)
    requires Fits(a, s) && SysInv(a, s) && m < a.c.N() && !s.infra.status.registered[m]
    ensures s.ctx[m] == EMPTY
  {
    var k := a.kinds[m];
    assert ModuleOk(k, s.infra.status.conn[m], Bringup.Started(s.infra, m), s.ctx[m]);
  }

  lemma NotUpAfterReinit(a: Agent, s: Sys, m: nat)
    requires Fits(a, s) && SysInv(a, s) && m < a.c.N()
    ensures OnReinit(a.c, s.infra).status.conn[m] != Up
  {}

  // ----- one module's event -----------------------------------------------------------

  function Recorded(conn: Conn, r: Report): Conn {
    match r
    case Nothing => conn
    case ReportUp => Up
    case ReportDown => Down
  }

  /** A module that is fine is fine after an event of its own, with what it then
      reports recorded. */
  ghost predicate StaysOk(k: Kind, conn: Conn, x: Ctx, p: Pool, f: Effect) {
    Balanced(x, p, f.ctx, f.pool) && ModuleOk(k, Recorded(conn, f.report), true, f.ctx)
  }

  lemma ProperStaysOk(k: Kind, conn: Conn, x: Ctx, p: Pool, f: Effect)
    requires ModuleOk(k, conn, true, x) && Proper(k, x, p, f)
    requires PipeInStep(k, Recorded(conn, f.report), f.ctx)
    ensures StaysOk(k, conn, x, p, f)
  {
    hide Balanced, InOrder, Live;
  }

  lemma TimerOk(k: Kind, conn: Conn, x: Ctx, p: Pool, o: Outcome)
    requires ModuleOk(k, conn, true, x) && conn != Unset && x.timerPending
    ensures StaysOk(k, conn, x, p, TimerFires(k, x, p, o))
  {
    TimerFiresProper(k, x, p, o);
    var f := TimerFires(k, x, p, o);
    if k == Prpd {
      if o == Good {
        StartsInStep();
      } else {
        RetryHasNoManager(x, p, o);
      }
    }
    ProperStaysOk(k, conn, x, p, f);
  }

  lemma RetryHasNoManager(x: Ctx, p: Pool, o: Outcome)
    requires o != Good
    ensures TimerFires(Prpd, x, p, o).ctx.manager.None?
  {}

  lemma BevOk(k: Kind, conn: Conn, x: Ctx, p: Pool, what: What)
    requires ModuleOk(k, conn, true, x) && x.bev.Some?
    ensures StaysOk(k, conn, x, p, BevEvent(k, x, p, what))
  {
    BevEventProper(k, x, p, what);
    ProperStaysOk(k, conn, x, p, BevEvent(k, x, p, what));
  }

  lemma AcceptOk(conn: Conn, x: Ctx, p: Pool, ok: bool)
    requires ModuleOk(TcpServer, conn, true, x) && x.listener.Some?
    ensures StaysOk(TcpServer, conn, x, p, Accept(x, p, ok))
  {
    AcceptProper(x, p, ok);
    ProperStaysOk(TcpServer, conn, x, p, Accept(x, p, ok));
  }

  lemma ListenerOk(conn: Conn, x: Ctx, p: Pool)
    requires ModuleOk(TcpServer, conn, true, x) && x.listener.Some?
    ensures StaysOk(TcpServer, conn, x, p, ListenerError(TcpServer, x, p))
  {
    ListenerErrorProper(x, p);
  }

  lemma ManagerOk(conn: Conn, x: Ctx, p: Pool, ch: Channel)
    requires ModuleOk(Prpd, conn, true, x) && x.manager.Some?
    ensures StaysOk(Prpd, conn, x, p, ManagerActs(x, p, ch))
  {
    ManagerActsProper(x, p, ch);
    ManagerKeepsStep(conn, x.queue, x.manager.value, false, ch);
    ProperStaysOk(Prpd, conn, x, p, ManagerActs(x, p, ch));
  }

  lemma PipeOk(conn: Conn, x: Ctx, p: Pool)
    requires ModuleOk(Prpd, conn, true, x) && x.queue != []
    ensures StaysOk(Prpd, conn, x, p, PipeReadable(x, p))
    ensures Recorded(conn, PipeReadable(x, p).report) == x.queue[0] != conn
  {
    PipeReadableProper(x, p);
    ReadKeepsStep(conn, x.queue, x.manager.value);
    hide InStep, InOrder, Balanced;
    ProperStaysOk(Prpd, conn, x, p, PipeReadable(x, p));
  }

  lemma EventOk(a: Agent, s: Sys, e: SysEvent)
    requires Fits(a, s) && SysInv(a, s) && !e.ReinitFires? && CanHappen(a, s, e)
    ensures e.m < a.c.N() && Bringup.Started(s.infra, e.m) && Enabled(a.c, s.infra.status, e.m)
    ensures var k, x, conn := a.kinds[e.m], s.ctx[e.m], s.infra.status.conn[e.m];
            conn != Unset && StaysOk(k, conn, x, s.pool, EffectOf(k, x, s.pool, e))
  {
    var k, x, conn := a.kinds[e.m], s.ctx[e.m], s.infra.status.conn[e.m];
    assert ModuleOk(k, conn, Bringup.Started(s.infra, e.m), x);
    assert x != EMPTY && x.infravec && Bringup.Started(s.infra, e.m);
    hide ModuleOk, StaysOk, TimerFires, BevEvent, Accept, ListenerError, ManagerActs, PipeReadable;
    match e
    case TimerExpires(_, o) => TimerOk(k, conn, x, s.pool, o);
    case BevReports(_, what) => BevOk(k, conn, x, s.pool, what);
    case Accepts(_, ok) => AcceptOk(conn, x, s.pool, ok);
    case ListenerFails(_) => ListenerOk(conn, x, s.pool);
    case ManagerRuns(_, ch) => ManagerOk(conn, x, s.pool, ch);
    case PipeReads(_) => PipeOk(conn, x, s.pool);
  }

  // ----- and what it sets off ------------------------------------------------------------

  /** The infrastructure's side of an event: nothing, or a report it may be made. */
  function InfraSide(a: Agent, s: Sys, e: SysEvent): seq<Bringup.InfraEvent>
    requires Fits(a, s) && CanHappen(a, s, e)
  {
    if e.ReinitFires? then [Bringup.Reinit]
    else
      match EffectOf(a.kinds[e.m], s.ctx[e.m], s.pool, e).report
      case Nothing => []
      case ReportUp => [Bringup.Report(e.m, true)]
      case ReportDown => [Bringup.Report(e.m, false)]
  }

  lemma InfraFollows(a: Agent, s: Sys, e: SysEvent)
    requires Fits(a, s) && SysInv(a, s) && CanHappen(a, s, e)
    ensures Bringup.CanRun(a.c, s.infra, InfraSide(a, s, e))
    ensures NextSys(a, s, e).infra == Bringup.After(a.c, s.infra, InfraSide(a, s, e))
  {
    if e.ReinitFires? { ReinitFollows(a, s); } else { ReportFollows(a, s, e); }
  }

  lemma RunOfOne(c: Config, s: State, e: Bringup.InfraEvent)
    requires c.Valid() && s.status.Fits(c.N()) && Bringup.Allowed(c, s, e)
    ensures Bringup.CanRun(c, s, [e]) && Bringup.After(c, s, [e]) == Bringup.Next(c, s, e)
  {
    hide OnUp, OnDown, OnReinit;
    assert [e][1..] == [];
  }

  lemma ReinitFollows(a: Agent, s: Sys)
    requires Fits(a, s) && s.infra.reinitDue
    ensures Bringup.CanRun(a.c, s.infra, InfraSide(a, s, ReinitFires))
    ensures NextSys(a, s, ReinitFires).infra == Bringup.After(a.c, s.infra, InfraSide(a, s, ReinitFires))
  {
    hide ApplyCalls, OnReinit, Bringup.CanRun, Bringup.After;
    RunOfOne(a.c, s.infra, Bringup.Reinit);
  }

  lemma ReportFollows(a: Agent, s: Sys, e: SysEvent)
    requires Fits(a, s) && SysInv(a, s) && !e.ReinitFires? && CanHappen(a, s, e)
    ensures Bringup.CanRun(a.c, s.infra, InfraSide(a, s, e))
    ensures NextSys(a, s, e).infra == Bringup.After(a.c, s.infra, InfraSide(a, s, e))
  {
    hide EffectOf, ApplyCalls, SysInv, OnUp, OnDown;
    EventOk(a, s, e);
    match EffectOf(a.kinds[e.m], s.ctx[e.m], s.pool, e).report
    case Nothing =>
    case ReportUp => RunOfOne(a.c, s.infra, Bringup.Report(e.m, true));
    case ReportDown => RunOfOne(a.c, s.infra, Bringup.Report(e.m, false));
  }

  lemma ToldBringsUp(a: Agent, s: Sys, e: SysEvent)
    requires Fits(a, s) && SysInv(a, s) && CanHappen(a, s, e)
    ensures Bringup.BringUp(a.c, NextSys(a, s, e).infra)
  {
    InfraFollows(a, s, e);
    hide NextSys, InfraSide;
    Bringup.BringUpInvariant(a.c, s.infra, InfraSide(a, s, e));
  }

  /** The calls a report sets off: init callbacks to modules that are not up, and
      flash callbacks. */
  lemma NewCalls(c: Config, s: State, m: nat, r: Report)
    requires c.Valid() && s.status.Fits(c.N()) && m < c.N()
    ensures var u := Told(c, s, m, r);
            var calls := u.calls[|s.calls|..];
            && u.status.conn == s.status.conn[m := Recorded(s.status.conn[m], r)]
            && u.calls == s.calls + calls
            && (forall x <- calls :: x.InitCb? || x.FlashCb?)
            && (forall j: nat :: j < c.N() && InitCb(j) in calls ==> u.status.conn[j] != Up)
  {
    if r == ReportUp && s.status.conn[m] != Up {
      UpCalls(c, s, m);
    }
  }

  lemma UpCalls(c: Config, s: State, m: nat)
    requires c.Valid() && s.status.Fits(c.N()) && m < c.N() && s.status.conn[m] != Up
    ensures var u := OnUp(c, s, m);
            var calls := u.calls[|s.calls|..];
            && u.calls == s.calls + calls
            && (forall x <- calls :: x.InitCb? || x.FlashCb?)
            && (forall j: nat :: j < c.N() && InitCb(j) in calls ==> u.status.conn[j] != Up)
  {
    hide MayFlash, MayStart;
    var u := OnUp(c, s, m);
    var t := u.status;
    var ins, fs := Inits(c, t, c.notify[m], 0), Flash(c, t, m) + Flashes(c, t, c.notify[m], 0);
    assert u.calls == s.calls + (ins + fs);
    assert u.calls[|s.calls|..] == ins + fs;
    OnlyInits(c, t, c.notify[m], 0);
    OnlyFlashes(c, t, c.notify[m], 0);
    forall j: nat | j < c.N() && InitCb(j) in ins + fs ensures t.conn[j] != Up {
      InInits(c, t, c.notify[m], j);
    }
  }

  /** The callbacks an event sets off. */
  function CallsOf(a: Agent, s: Sys, e: SysEvent): seq<Call>
    requires Fits(a, s) && CanHappen(a, s, e) && !e.ReinitFires?
  {
    var f := EffectOf(a.kinds[e.m], s.ctx[e.m], s.pool, e);
    Told(a.c, s.infra, e.m, f.report).calls[|s.infra.calls|..]
  }

  /** The contexts after an event of a module: those of the modules it starts are
      fresh, and of the rest only the module's own has changed. */
  lemma AfterEvent(a: Agent, s: Sys, e: SysEvent)
    requires Fits(a, s) && SysInv(a, s) && !e.ReinitFires? && CanHappen(a, s, e)
    ensures var f, u, calls := EffectOf(a.kinds[e.m], s.ctx[e.m], s.pool, e), NextSys(a, s, e), CallsOf(a, s, e);
            && Conserved(u.ctx, u.pool)
            && u.infra.calls == s.infra.calls + calls
            && u.infra.status.conn == s.infra.status.conn[e.m := Recorded(s.infra.status.conn[e.m], f.report)]
            && forall j: nat :: j < a.c.N() ==>
                 if InitCb(j) in calls
                 then JustStarted(u.ctx[j]) && InOrder(a.kinds[j], u.ctx[j]) && u.infra.status.conn[j] != Up
                 else u.ctx[j] == s.ctx[e.m := f.ctx][j]
  {
    EventOk(a, s, e);
    var m := e.m;
    var f := EffectOf(a.kinds[m], s.ctx[m], s.pool, e);
    var u := Told(a.c, s.infra, m, f.report);
    NewCalls(a.c, s.infra, m, f.report);
    var xs := s.ctx[m := f.ctx];
    StaysConserved(s.ctx, s.pool, m, f.ctx, f.pool);
    assert AllInOrder(a, xs);
    hide EffectOf, InOrder, Live, InStep, Conserved, Balanced, ApplyCalls, Told, Bringup.BringUp, JustStarted;
    AfterInits(a, xs, f.pool, u.calls[|s.infra.calls|..]);
  }

  /** Any event of a module leaves the whole agent as it should be. */
  lemma ModuleEventOk(a: Agent, s: Sys, e: SysEvent)
    requires Fits(a, s) && SysInv(a, s) && !e.ReinitFires? && CanHappen(a, s, e)
    ensures SysInv(a, NextSys(a, s, e))
  {
    EventOk(a, s, e);
    ToldBringsUp(a, s, e);
    AfterEvent(a, s, e);
    var u := NextSys(a, s, e);
    hide EffectOf, InOrder, Live, InStep, Conserved, Balanced, Bringup.BringUp, JustStarted, NextSys, CallsOf;
    forall j: nat | j < a.c.N()
      ensures ModuleOk(a.kinds[j], u.infra.status.conn[j], Bringup.Started(u.infra, j), u.ctx[j])
    {
      if InitCb(j) in CallsOf(a, s, e) {
        JustStartedOk(a.kinds[j], u.infra.status.conn[j], u.ctx[j]);
      }
    }
  }

  lemma NextOk(a: Agent, s: Sys, e: SysEvent)
    requires Fits(a, s) && SysInv(a, s) && CanHappen(a, s, e)
    ensures SysInv(a, NextSys(a, s, e))
  {
    if e.ReinitFires? { ReinitOk(a, s); } else { ModuleEventOk(a, s, e); }
  }
}
