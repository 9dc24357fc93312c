/** What each module holds from libevent, libnl and gRPC, and how its callbacks
    take and give up those handles. */
module Lifecycle {
  import opened Bytes
  import opened Infra
  import opened Pipe

  /** Two modules are TCP servers and two TCP clients (FPM and netlink); they
      differ only in framing. */
  datatype Kind = Kernel | Prpd | TcpServer | TcpClient

  type Handle = nat

  /** Handles are numbered as they are created; `freed` counts how often each has
      been given back. */
  datatype Pool = Pool(next: Handle, freed: multiset<Handle>)

  /** The module context, the kernel module's socket, and the gRPC context with
      the manager thread and the pipe. */
  datatype Ctx = Ctx(
    infravec: bool,
    startTimer: Option<Handle>, timerPending: bool,
    listener: Option<Handle>,
    bev: Option<Handle>,
    socketRead: Option<Handle>,
    nlsock: Option<Handle>,
    channel: Option<Handle>, exitSignal: Option<Handle>, futureObj: Option<Handle>,
    pipeIn: Option<Handle>, pipeOut: Option<Handle>, pipeRead: Option<Handle>, thread: Option<Handle>,
    manager: Option<Manager>, queue: seq<Conn>)

  const EMPTY: Ctx :=
    Ctx(false, None, false, None, None, None, None, None, None, None, None, None, None, None, None, [])

  // ----- counting handles ----------------------------------------------------------

  function Is(slot: Option<Handle>, h: Handle): nat {
    if slot == Some(h) then 1 else 0
  }

  /** In how many slots of the context the handle is held. */
  function HeldIn(x: Ctx, h: Handle): nat {
    Is(x.startTimer, h) + Is(x.listener, h) + Is(x.bev, h) + Is(x.socketRead, h) + Is(x.nlsock, h)
    + Is(x.channel, h) + Is(x.exitSignal, h) + Is(x.futureObj, h) + Is(x.thread, h)
    + Is(x.pipeIn, h) + Is(x.pipeOut, h) + Is(x.pipeRead, h)
  }

  function Created(p: Pool, h: Handle): nat {
    if h < p.next then 1 else 0
  }

  /** A step that neither leaks a handle, nor frees one it does not hold, nor
      overwrites one that is live. */
  ghost predicate Balanced(x: Ctx, p: Pool, x': Ctx, p': Pool) {
    && p.next <= p'.next
    && forall h: Handle ::
         p'.freed[h] + HeldIn(x', h) + Created(p, h) == p.freed[h] + HeldIn(x, h) + Created(p', h)
  }

  function FreeIf(p: Pool, slot: Option<Handle>): Pool {
    match slot
    case None => p
    case Some(h) => p.(freed := p.freed + multiset{h})
  }

  // ----- reset, timers, registration ------------------------------------------------

  /** nla_context_cleanup. */
  function Cleanup(x: Ctx, p: Pool): (Ctx, Pool) {
    (x.(startTimer := None, timerPending := false, listener := None, bev := None, socketRead := None),
     FreeIf(FreeIf(FreeIf(FreeIf(p, x.startTimer), x.listener), x.bev), x.socketRead))
  }

  /** RibClientReset, once the thread has been joined: the gRPC objects, then the
      pipe's read event and its two descriptors, if it is open. */
  function RibClientReset(x: Ctx, p: Pool): (Ctx, Pool) {
    var (y, q) := ReleaseRpc(x, p);
    ClosePipe(y, q)
  }

  function ReleaseRpc(x: Ctx, p: Pool): (Ctx, Pool) {
    (x.(thread := None, manager := None, exitSignal := None, futureObj := None, channel := None),
     FreeIf(FreeIf(FreeIf(FreeIf(p, x.thread), x.exitSignal), x.futureObj), x.channel))
  }

  function ClosePipe(x: Ctx, p: Pool): (Ctx, Pool) {
    (x.(pipeRead := None, pipeIn := None, pipeOut := None, queue := []),
     FreeIf(FreeIf(FreeIf(p, x.pipeRead), x.pipeIn), x.pipeOut))
  }

  /** The module's reset callback. */
  function Reset(k: Kind, x: Ctx, p: Pool): (Ctx, Pool) {
    match k
    case Kernel => Cleanup(x.(nlsock := None), FreeIf(p, x.nlsock))
    case Prpd => var (y, q) := RibClientReset(x, p); Cleanup(y, q)
    case TcpServer => Cleanup(x, p)
    case TcpClient => Cleanup(x, p)
  }

  lemma ResetHasNoTimer(k: Kind, x: Ctx, p: Pool)
    ensures Reset(k, x, p).0.startTimer.None?
  {}

  /** Always start from fresh: reset, then a new timer. */
  function TimerStart(k: Kind, x: Ctx, p: Pool): (Ctx, Pool) {
    var (y, q) := Reset(k, x, p);
    (y.(startTimer := Some(q.next), timerPending := true), q.(next := q.next + 1))
  }

  function Init(k: Kind, x: Ctx, p: Pool): (Ctx, Pool) {
    TimerStart(k, x.(infravec := true), p)
  }

  /** get_vec: the module context is zeroed, whatever was in it. */
  function Zeroed(x: Ctx): Ctx {
    x.(infravec := false, startTimer := None, timerPending := false,
       listener := None, bev := None, socketRead := None)
  }

  /** No handle held, no thread. */
  predicate Clean(x: Ctx) {
    x.(infravec := false) == EMPTY
  }

  // ----- the callbacks ----------------------------------------------------------------

  /** How the calls made from a connect timer turn out. */
  datatype Outcome = Good | AllocationFails | ConnectFails

  datatype What = Connected | Eof | Error | Other

  /** What a module reports to the infrastructure in a callback, if anything. */
  datatype Report = Nothing | ReportUp | ReportDown

  datatype Effect = Effect(ctx: Ctx, pool: Pool, report: Report)

  /** The start timer fires. */
  function TimerFires(k: Kind, x0: Ctx, p: Pool, o: Outcome): Effect {
    var x := x0.(timerPending := false);
    var h := p.next;
    match k
    case TcpClient =>
      if o == AllocationFails then Again(k, x.(bev := None), p, Nothing)
      else
        var y, q := x.(bev := Some(h)), p.(next := h + 1);
        if o == ConnectFails then Again(k, y, q, Nothing) else Effect(y, q, Nothing)
    case TcpServer =>
      if o == Good then Effect(x.(listener := Some(h)), p.(next := h + 1), Nothing)
      else Effect(x.(listener := None), p, Nothing)
    case Kernel =>
      var y := x.(nlsock := Some(h));
      (match o
       case ConnectFails => Again(k, y, p.(next := h + 1), ReportDown)
       case AllocationFails => Again(k, y.(socketRead := None), p.(next := h + 1), ReportDown)
       case Good => Effect(y.(socketRead := Some(h + 1)), p.(next := h + 2), ReportUp))
    case Prpd =>
      var (ok, y, q) := RibClientInit(x, p, o);
      if ok then Effect(y, q, Nothing) else Again(k, y, q, Nothing)
  }

  /** StartConnectionManager: the pipe cannot be made; its read event cannot be
      added; or the manager thread runs. */
  function StartConnectionManager(x: Ctx, p: Pool, o: Outcome): (bool, Ctx, Pool) {
    var h := p.next;
    match o
    case ConnectFails => (false, x, p)
    case AllocationFails =>
      (false, x.(pipeIn := Some(h), pipeOut := Some(h + 1), pipeRead := Some(h + 2)), p.(next := h + 3))
    case Good =>
      (true, x.(pipeIn := Some(h), pipeOut := Some(h + 1), pipeRead := Some(h + 2), thread := Some(h + 3),
                manager := Some(STARTED), queue := []),
       p.(next := h + 4))
  }

  function RibClientInit(x: Ctx, p: Pool, o: Outcome): (bool, Ctx, Pool) {
    var h := p.next;
    StartConnectionManager(x.(channel := Some(h), exitSignal := Some(h + 1), futureObj := Some(h + 2)),
                           p.(next := h + 3), o)
  }

  /** Retry: report, then start the timer afresh. */
  function Again(k: Kind, x: Ctx, p: Pool, report: Report): Effect {
    var (y, q) := TimerStart(k, x, p);
    Effect(y, q, report)
  }

  /** The event callback of a bufferevent; a server never sees Connected. */
  function BevEvent(k: Kind, x: Ctx, p: Pool, what: What): Effect {
    match what
    case Connected => Effect(x, p, if k == TcpClient then ReportUp else Nothing)
    case Eof => Again(k, x, p, ReportDown)
    case Error => Again(k, x, p, ReportDown)
    case Other => Effect(x, p, Nothing)
  }

  /** A client connects to the listener: one connection at a time. */
  function Accept(x: Ctx, p: Pool, ok: bool): Effect {
    if x.bev.Some? then Effect(x, p, Nothing)
    else if !ok then Effect(x.(bev := None), p, Nothing)
    else Effect(x.(bev := Some(p.next)), p.(next := p.next + 1), ReportUp)
  }

  /** nla_accept_error_cb: starts afresh without reporting DOWN. */
  function ListenerError(k: Kind, x: Ctx, p: Pool): Effect {
    Again(k, x, p, Nothing)
  }

  function ManagerActs(x: Ctx, p: Pool, ch: Channel): Effect
    requires x.manager.Some?
  {
    var (g, queue) := ManagerStep(x.manager.value, x.queue, false, ch);
    Effect(x.(manager := Some(g), queue := queue), p, Nothing)
  }

  /** PipeRead hands the message to nla_prpdc_event_cb, which reports it. */
  function PipeReadable(x: Ctx, p: Pool): Effect
    requires x.queue != []
  {
    Effect(x.(queue := x.queue[1..]), p, if x.queue[0] == Up then ReportUp else ReportDown)
  }

  // ----- what a module's context looks like between events ------------------------------

  predicate NoGrpc(x: Ctx) {
    x.channel.None? && x.exitSignal.None? && x.futureObj.None? && x.thread.None?
    && x.pipeIn.None? && x.pipeOut.None? && x.pipeRead.None? && x.manager.None? && x.queue == []
  }

  predicate OnlyTimer(x: Ctx) {
    Clean(x.(startTimer := None, timerPending := false))
  }

  predicate JustStarted(x: Ctx) {
    x.infravec && x.startTimer.Some? && x.timerPending && OnlyTimer(x)
  }

  predicate InOrder(k: Kind, x: Ctx) {
    && (!x.infravec ==> x == EMPTY)
    && (x.timerPending ==> x.startTimer.Some? && OnlyTimer(x))
    && match k
       case TcpClient => x.listener.None? && x.socketRead.None? && x.nlsock.None? && NoGrpc(x)
       case TcpServer => x.socketRead.None? && x.nlsock.None? && NoGrpc(x) && (x.bev.Some? ==> x.listener.Some?)
       case Kernel => x.listener.None? && x.bev.None? && NoGrpc(x) && (x.nlsock.Some? <==> x.socketRead.Some?)
       case Prpd =>
         && x.listener.None? && x.bev.None? && x.socketRead.None? && x.nlsock.None?
         && x.exitSignal.Some? == x.channel.Some? && x.futureObj.Some? == x.channel.Some?
         && x.pipeIn.Some? == x.channel.Some? && x.pipeOut.Some? == x.channel.Some?
         && x.pipeRead.Some? == x.channel.Some? && x.thread.Some? == x.channel.Some?
         && x.manager.Some? == x.channel.Some?
         && (x.manager.None? ==> x.queue == [])
  }

  /** The module can be written to: what its notify callback uses is there. */
  predicate Live(k: Kind, x: Ctx) {
    match k
    case Kernel => x.nlsock.Some? && x.socketRead.Some?
    case Prpd => x.channel.Some? && x.manager.Some?
    case TcpServer => x.bev.Some?
    case TcpClient => x.bev.Some?
  }

  // ----- no callback leaks, double-frees or overwrites ------------------------------------

  lemma FreedIf(p: Pool, slot: Option<Handle>, h: Handle)
    ensures FreeIf(p, slot).freed[h] == p.freed[h] + Is(slot, h)
  {}

  lemma CleanupBalanced(x: Ctx, p: Pool)
    ensures var (y, q) := Cleanup(x, p); Balanced(x, p, y, q)
  {
    var (y, q) := Cleanup(x, p);
    forall h: Handle ensures q.freed[h] + HeldIn(y, h) == p.freed[h] + HeldIn(x, h) {
      var p1 := FreeIf(p, x.startTimer);
      var p2 := FreeIf(p1, x.listener);
      var p3 := FreeIf(p2, x.bev);
      FreedIf(p, x.startTimer, h);
      FreedIf(p1, x.listener, h);
      FreedIf(p2, x.bev, h);
      FreedIf(p3, x.socketRead, h);
      hide FreeIf;
    }
  }

  lemma ReleaseRpcBalanced(x: Ctx, p: Pool)
    ensures var (y, q) := ReleaseRpc(x, p); Balanced(x, p, y, q)
  {
    var (y, q) := ReleaseRpc(x, p);
    forall h: Handle ensures q.freed[h] + HeldIn(y, h) == p.freed[h] + HeldIn(x, h) {
      var p1 := FreeIf(p, x.thread);
      var p2 := FreeIf(p1, x.exitSignal);
      var p3 := FreeIf(p2, x.futureObj);
      FreedIf(p, x.thread, h);
      FreedIf(p1, x.exitSignal, h);
      FreedIf(p2, x.futureObj, h);
      FreedIf(p3, x.channel, h);
      hide FreeIf;
    }
  }

  lemma ClosePipeBalanced(x: Ctx, p: Pool)
    ensures var (y, q) := ClosePipe(x, p); Balanced(x, p, y, q)
  {
    var (y, q) := ClosePipe(x, p);
    forall h: Handle ensures q.freed[h] + HeldIn(y, h) == p.freed[h] + HeldIn(x, h) {
      var p1 := FreeIf(p, x.pipeRead);
      var p2 := FreeIf(p1, x.pipeIn);
      FreedIf(p, x.pipeRead, h);
      FreedIf(p1, x.pipeIn, h);
      FreedIf(p2, x.pipeOut, h);
      hide FreeIf;
    }
  }

  lemma BalancedTwice(x: Ctx, p: Pool, y: Ctx, q: Pool, z: Ctx, r: Pool)
    requires Balanced(x, p, y, q) && Balanced(y, q, z, r)
    ensures Balanced(x, p, z, r)
  {
    hide HeldIn;
  }

  lemma RibClientResetBalanced(x: Ctx, p: Pool)
    ensures var (y, q) := RibClientReset(x, p); Balanced(x, p, y, q)
  {
    hide HeldIn, FreeIf;
    ReleaseRpcBalanced(x, p);
    var (y, q) := ReleaseRpc(x, p);
    ClosePipeBalanced(y, q);
    var (z, r) := ClosePipe(y, q);
    BalancedTwice(x, p, y, q, z, r);
  }

  /** Nothing is held that the kind's own reset does not give back. */
  predicate Own(k: Kind, x: Ctx) {
    match k
    case Kernel => NoGrpc(x)
    case Prpd => x.nlsock.None?
    case TcpServer => x.nlsock.None? && NoGrpc(x)
    case TcpClient => x.nlsock.None? && NoGrpc(x)
  }

  /** A reset gives back everything the module holds, and leaves nothing. */
  lemma ResetBalanced(k: Kind, x: Ctx, p: Pool)
    ensures var (y, q) := Reset(k, x, p);
            Balanced(x, p, y, q) && y.infravec == x.infravec && (Own(k, x) ==> Clean(y))
  {
    match k
    case Kernel =>
      var y, q := x.(nlsock := None), FreeIf(p, x.nlsock);
      forall h: Handle ensures q.freed[h] + HeldIn(y, h) == p.freed[h] + HeldIn(x, h) {
        FreedIf(p, x.nlsock, h);
      }
      CleanupBalanced(y, q);
      var (z, r) := Cleanup(y, q);
      BalancedTwice(x, p, y, q, z, r);
    case Prpd =>
      RibClientResetBalanced(x, p);
      var (y, q) := RibClientReset(x, p);
      CleanupBalanced(y, q);
      var (z, r) := Cleanup(y, q);
      BalancedTwice(x, p, y, q, z, r);
    case TcpServer => CleanupBalanced(x, p);
    case TcpClient => CleanupBalanced(x, p);
  }

  lemma CleanInOrder(k: Kind, x: Ctx)
    requires Clean(x)
    ensures InOrder(k, x)
  {}

  lemma InOrderOwn(k: Kind, x: Ctx)
    requires InOrder(k, x)
    ensures Own(k, x)
  {}

  /** Starting afresh leaves a timer and nothing else; its slot was free. */
  lemma TimerStartBalanced(k: Kind, x: Ctx, p: Pool)
    requires Own(k, x) && x.infravec
    ensures var (y, q) := TimerStart(k, x, p); Balanced(x, p, y, q) && JustStarted(y)
  {
    hide Reset, Own;
    ResetBalanced(k, x, p);
    var (y, q) := Reset(k, x, p);
    var z, r := y.(startTimer := Some(q.next), timerPending := true), q.(next := q.next + 1);
    BalancedTwice(x, p, y, q, z, r);
  }

  lemma InitBalanced(k: Kind, x: Ctx, p: Pool)
    requires InOrder(k, x)
    ensures var (y, q) := Init(k, x, p); Balanced(x, p, y, q) && JustStarted(y) && InOrder(k, y)
  {
    var y := x.(infravec := true);
    assert Own(k, y);
    TimerStartBalanced(k, y, p);
    assert forall h: Handle :: HeldIn(y, h) == HeldIn(x, h);
  }

  /** Zeroing a clean context loses nothing. */
  lemma ZeroedBalanced(x: Ctx, p: Pool)
    requires Clean(x)
    ensures Zeroed(x) == EMPTY && Balanced(x, p, Zeroed(x), p)
  {}

  /** What a callback keeps: handles are accounted for, the context stays in
      order, UP is only reported by a module that can be written to, and one that
      could be written to still can unless it reports DOWN. */
  ghost predicate Proper(k: Kind, x: Ctx, p: Pool, e: Effect) {
    && Balanced(x, p, e.ctx, e.pool)
    && e.ctx.infravec && InOrder(k, e.ctx)
    && (e.report == ReportUp ==> Live(k, e.ctx))
    && (Live(k, x) && e.report != ReportDown ==> Live(k, e.ctx))
  }

  lemma AgainProper(k: Kind, x: Ctx, p: Pool, y: Ctx, q: Pool, report: Report)
    requires Balanced(x, p, y, q) && Own(k, y) && y.infravec && report != ReportUp
    requires Live(k, x) ==> report == ReportDown
    ensures Proper(k, x, p, Again(k, y, q, report))
  {
    hide TimerStart, HeldIn, Own;
    TimerStartBalanced(k, y, q);
    var (z, r) := TimerStart(k, y, q);
    BalancedTwice(x, p, y, q, z, r);
  }

  lemma TimerFiresProper(k: Kind, x: Ctx, p: Pool, o: Outcome)
    requires InOrder(k, x) && x.timerPending
    ensures Proper(k, x, p, TimerFires(k, x, p, o))
  {
    match k
    case TcpClient => ClientTimerProper(x, p, o);
    case TcpServer =>
    case Kernel => KernelTimerProper(x, p, o);
    case Prpd => PrpdTimerProper(x, p, o);
  }

  lemma ClientTimerProper(x: Ctx, p: Pool, o: Outcome)
    requires InOrder(TcpClient, x) && x.timerPending
    ensures Proper(TcpClient, x, p, TimerFires(TcpClient, x, p, o))
  {
    if o != Good { ClientRetryProper(x, p, o); }
  }

  lemma ClientRetryProper(x: Ctx, p: Pool, o: Outcome)
    requires InOrder(TcpClient, x) && x.timerPending && o != Good
    ensures Proper(TcpClient, x, p, TimerFires(TcpClient, x, p, o))
  {
    var y, q := x.(timerPending := false), p;
    if o == ConnectFails {
      y, q := y.(bev := Some(p.next)), p.(next := p.next + 1);
    }
    assert Balanced(x, p, y, q) && Own(TcpClient, y) && !Live(TcpClient, x);
    hide HeldIn, TimerStart, Balanced, Proper, Own;
    AgainProper(TcpClient, x, p, y, q, Nothing);
  }

  lemma KernelTimerProper(x: Ctx, p: Pool, o: Outcome)
    requires InOrder(Kernel, x) && x.timerPending
    ensures Proper(Kernel, x, p, TimerFires(Kernel, x, p, o))
  {
    if o != Good { KernelRetryProper(x, p, o); } else { KernelConnectProper(x, p); }
  }

  lemma KernelConnectProper(x: Ctx, p: Pool)
    requires InOrder(Kernel, x) && x.timerPending
    ensures Proper(Kernel, x, p, TimerFires(Kernel, x, p, Good))
  {}

  lemma NewSocketBalanced(x: Ctx, p: Pool)
    requires x.nlsock.None?
    ensures Balanced(x, p, x.(timerPending := false, nlsock := Some(p.next)), p.(next := p.next + 1))
  {}

  lemma KernelRetryProper(x: Ctx, p: Pool, o: Outcome)
    requires InOrder(Kernel, x) && x.timerPending && o != Good
    ensures Proper(Kernel, x, p, TimerFires(Kernel, x, p, o))
  {
    var y, q := x.(timerPending := false, nlsock := Some(p.next)), p.(next := p.next + 1);
    hide HeldIn, TimerStart, Balanced, Proper;
    NewSocketBalanced(x, p);
    AgainProper(Kernel, x, p, y, q, ReportDown);
  }

  lemma PrpdTimerProper(x: Ctx, p: Pool, o: Outcome)
    requires InOrder(Prpd, x) && x.timerPending
    ensures Proper(Prpd, x, p, TimerFires(Prpd, x, p, o))
  {
    if o == Good {
      PrpdStartProper(x, p);
    } else {
      PrpdRetryProper(x, p, o);
    }
  }

  lemma PrpdStartProper(x: Ctx, p: Pool)
    requires InOrder(Prpd, x) && x.timerPending
    ensures Proper(Prpd, x, p, TimerFires(Prpd, x, p, Good))
  {}

  lemma PrpdRetryProper(x: Ctx, p: Pool, o: Outcome)
    requires InOrder(Prpd, x) && x.timerPending && o != Good
    ensures Proper(Prpd, x, p, TimerFires(Prpd, x, p, o))
  {
    var (ok, y, q) := RibClientInit(x.(timerPending := false), p, o);
    assert Balanced(x, p, y, q);
    hide HeldIn, TimerStart, Balanced, Proper;
    AgainProper(Prpd, x, p, y, q, Nothing);
  }

  lemma BevEventProper(k: Kind, x: Ctx, p: Pool, what: What)
    requires InOrder(k, x) && x.bev.Some?
    ensures Proper(k, x, p, BevEvent(k, x, p, what))
  {
    if what == Eof || what == Error {
      AgainProper(k, x, p, x, p, ReportDown);
    }
  }

  lemma AcceptProper(x: Ctx, p: Pool, ok: bool)
    requires InOrder(TcpServer, x) && x.listener.Some?
    ensures Proper(TcpServer, x, p, Accept(x, p, ok))
  {}

  /** A listener error is proper except for one thing: an established connection
      is dropped without a word. */
  lemma ListenerErrorProper(x: Ctx, p: Pool)
    requires InOrder(TcpServer, x) && x.listener.Some?
    ensures var e := ListenerError(TcpServer, x, p);
            && (Proper(TcpServer, x, p, e) <==> x.bev.None?)
            && Balanced(x, p, e.ctx, e.pool) && JustStarted(e.ctx) && e.report == Nothing
  {
    TimerStartBalanced(TcpServer, x, p);
  }

  lemma ManagerActsProper(x: Ctx, p: Pool, ch: Channel)
    requires InOrder(Prpd, x) && x.manager.Some?
    ensures Proper(Prpd, x, p, ManagerActs(x, p, ch))
  {}

  lemma PipeReadableProper(x: Ctx, p: Pool)
    requires InOrder(Prpd, x) && x.queue != []
    ensures Proper(Prpd, x, p, PipeReadable(x, p))
  {}
}
