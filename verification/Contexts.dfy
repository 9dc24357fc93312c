/** The module contexts as the callbacks update them in place. What each callback
    does is a function of module Lifecycle; what that guarantees is proved there
    and in modules System and Runs. */
module Contexts {
  import opened Bytes
  import opened Infra
  import opened Pipe
  import opened Lifecycle

  /** The libraries that hand handles out and take them back. */
  class Library {
    var next: Handle
    var freed: multiset<Handle>

    function Pool(): Pool
      reads this
    {
      Lifecycle.Pool(next, freed)
    }

    constructor ()
      ensures Pool() == Lifecycle.Pool(0, multiset{})
    {
      next, freed := 0, multiset{};
    }

    method Create() returns (h: Handle)
      modifies this
      ensures h == old(next) && Pool() == old(Pool()).(next := h + 1)
    {
      h := next;
      next := next + 1;
    }

    method Free(slot: Option<Handle>)
      modifies this
      ensures Pool() == FreeIf(old(Pool()), slot)
    {
      if slot.Some? {
        freed := freed + multiset{slot.value};
      }
    }
  }

  /** One module's context; the socket and the gRPC members are used by the kernel
      module and by the programmable-RPD client alone. */
  class Context {
    const kind: Kind
    const lib: Library
    var infravec: bool
    var startTimer: Option<Handle>
    var timerPending: bool
    var listener: Option<Handle>
    var bev: Option<Handle>
    var socketRead: Option<Handle>
    var nlsock: Option<Handle>
    var channel: Option<Handle>
    var exitSignal: Option<Handle>
    var futureObj: Option<Handle>
    var pipeIn: Option<Handle>
    var pipeOut: Option<Handle>
    var pipeRead: Option<Handle>
    var thread: Option<Handle>
    var manager: Option<Manager>
    var queue: seq<Conn>

    function Value(): Ctx
      reads this
    {
      Ctx(infravec, startTimer, timerPending, listener, bev, socketRead, nlsock,
          channel, exitSignal, futureObj, pipeIn, pipeOut, pipeRead, thread, manager, queue)
    }

    constructor (kind: Kind, lib: Library)
      ensures this.kind == kind && this.lib == lib && Value() == EMPTY
    {
      this.kind, this.lib := kind, lib;
      infravec, timerPending := false, false;
      startTimer, listener, bev, socketRead, nlsock := None, None, None, None, None;
      channel, exitSignal, futureObj, thread := None, None, None, None;
      pipeIn, pipeOut, pipeRead := None, None, None;
      manager, queue := None, [];
    }

    /** nla_context_cleanup */
    method ContextCleanup()
      modifies this, lib
      ensures (Value(), lib.Pool()) == Cleanup(old(Value()), old(lib.Pool()))
      ensures Balanced(old(Value()), old(lib.Pool()), Value(), lib.Pool())
    {
      hide Cleanup, Balanced;
      CleanupBalanced(Value(), lib.Pool());
      FreeHandles();
    }

    method FreeTimer()
      modifies this, lib
      ensures Value() == old(Value()).(startTimer := None, timerPending := false)
      ensures lib.Pool() == FreeIf(old(lib.Pool()), old(startTimer))
    {
      lib.Free(startTimer);
      startTimer := None;
      timerPending := false;
    }

    method FreeHandles()
      modifies this, lib
      ensures (Value(), lib.Pool()) == Cleanup(old(Value()), old(lib.Pool()))
    {
      hide FreeIf;
      FreeTimer();
      lib.Free(listener);
      listener := None;
      lib.Free(bev);
      bev := None;
      lib.Free(socketRead);
      socketRead := None;
    }

    /** RibClientReset, the thread having been told to exit and joined. */
    method RibReset()
      modifies this, lib
      ensures (Value(), lib.Pool()) == RibClientReset(old(Value()), old(lib.Pool()))
      ensures Balanced(old(Value()), old(lib.Pool()), Value(), lib.Pool())
    {
      hide FreeIf, ReleaseRpc, ClosePipe, Balanced;
      RibClientResetBalanced(Value(), lib.Pool());
      FreeRpc();
      FreePipe();
    }

    method FreeThread()
      modifies this, lib
      ensures Value() == old(Value()).(thread := None, manager := None)
      ensures lib.Pool() == FreeIf(old(lib.Pool()), old(thread))
    {
      lib.Free(thread);
      thread := None;
      manager := None;
    }

    /** Its first half: the thread and the gRPC objects. */
    method FreeRpc()
      modifies this, lib
      ensures (Value(), lib.Pool()) == ReleaseRpc(old(Value()), old(lib.Pool()))
    {
      hide FreeIf;
      FreeThread();
      lib.Free(exitSignal);
      exitSignal := None;
      lib.Free(futureObj);
      futureObj := None;
      lib.Free(channel);
      channel := None;
    }

    /** Its second half: the pipe. */
    method FreePipe()
      modifies this, lib
      ensures (Value(), lib.Pool()) == ClosePipe(old(Value()), old(lib.Pool()))
    {
      hide FreeIf;
      lib.Free(pipeRead);
      pipeRead := None;
      lib.Free(pipeIn);
      pipeIn := None;
      lib.Free(pipeOut);
      pipeOut, queue := None, [];
    }

    /** The reset callback. */
    method ResetModule()
      modifies this, lib
      ensures (Value(), lib.Pool()) == Reset(kind, old(Value()), old(lib.Pool()))
      ensures Balanced(old(Value()), old(lib.Pool()), Value(), lib.Pool())
      ensures old(Own(kind, Value())) ==> Clean(Value())
    {
      hide Balanced, Own, Clean;
      ResetBalanced(kind, Value(), lib.Pool());
      if kind == Kernel {
        lib.Free(nlsock);
        nlsock := None;
      }
      if kind == Prpd {
        RibReset();
      }
      ContextCleanup();
    }

    /** The connect and listener timers: always start from fresh. */
    method StartTimer()
      modifies this, lib
      ensures (Value(), lib.Pool()) == TimerStart(kind, old(Value()), old(lib.Pool()))
      ensures old(Own(kind, Value()) && infravec) ==>
                Balanced(old(Value()), old(lib.Pool()), Value(), lib.Pool()) && JustStarted(Value())
    {
      hide Reset, Balanced, Own, JustStarted;
      if Own(kind, Value()) && infravec { TimerStartBalanced(kind, Value(), lib.Pool()); }
      ResetHasNoTimer(kind, Value(), lib.Pool());
      ResetModule();
      assert startTimer.None?;
      var timer := lib.Create();
      startTimer, timerPending := Some(timer), true;
    }

    /** The init callback. */
    method InitModule()
      modifies this, lib
      ensures (Value(), lib.Pool()) == Init(kind, old(Value()), old(lib.Pool()))
    {
      infravec := true;
      StartTimer();
    }

    /** get_vec: memset of the module context. */
    method GetVec()
      modifies this
      ensures Value() == Zeroed(old(Value()))
    {
      infravec := false;
      startTimer, timerPending := None, false;
      listener := None;
      bev := None;
      socketRead := None;
    }

    /** nla_fpm_client_server_connect and its netlink twin. */
    method ClientConnect(o: Outcome) returns (report: Report)
      requires kind == TcpClient
      modifies this, lib
      ensures Effect(Value(), lib.Pool(), report) == TimerFires(TcpClient, old(Value()), old(lib.Pool()), o)
      ensures report == Nothing
      ensures old(InOrder(kind, Value()) && timerPending) ==>
                Proper(kind, old(Value()), old(lib.Pool()), Effect(Value(), lib.Pool(), report))
    {
      hide TimerStart, Proper, InOrder;
      if InOrder(kind, Value()) && timerPending { TimerFiresProper(kind, Value(), lib.Pool(), o); }
      timerPending := false;
      report := Nothing;
      if o == AllocationFails {
        bev := None;
        StartTimer();
        return;
      }
      var h := lib.Create();
      bev := Some(h);
      if o == ConnectFails {
        StartTimer();
      }
    }

    /** nla_fpm_server_listener and its netlink twin. */
    method ServerListener(o: Outcome) returns (report: Report)
      requires kind == TcpServer
      modifies this, lib
      ensures Effect(Value(), lib.Pool(), report) == TimerFires(TcpServer, old(Value()), old(lib.Pool()), o)
      ensures report == Nothing
      ensures old(InOrder(kind, Value()) && timerPending) ==>
                Proper(kind, old(Value()), old(lib.Pool()), Effect(Value(), lib.Pool(), report))
    {
      hide TimerStart, Proper, InOrder;
      if InOrder(kind, Value()) && timerPending { TimerFiresProper(kind, Value(), lib.Pool(), o); }
      timerPending := false;
      report := Nothing;
      if o == Good {
        var h := lib.Create();
        listener := Some(h);
      } else {
        listener := None;
      }
    }

    /** nla_knlm_connect */
    method KernelConnect(o: Outcome) returns (report: Report)
      requires kind == Kernel
      modifies this, lib
      ensures Effect(Value(), lib.Pool(), report) == TimerFires(Kernel, old(Value()), old(lib.Pool()), o)
      ensures report == if o == Good then ReportUp else ReportDown
      ensures old(InOrder(kind, Value()) && timerPending) ==>
                Proper(kind, old(Value()), old(lib.Pool()), Effect(Value(), lib.Pool(), report))
    {
      hide TimerFires, Proper, InOrder;
      if InOrder(kind, Value()) && timerPending { TimerFiresProper(kind, Value(), lib.Pool(), o); }
      report := ConnectSocket(o);
    }

    method ConnectSocket(o: Outcome) returns (report: Report)
      requires kind == Kernel
      modifies this, lib
      ensures Effect(Value(), lib.Pool(), report) == TimerFires(Kernel, old(Value()), old(lib.Pool()), o)
      ensures report == if o == Good then ReportUp else ReportDown
    {
      hide TimerStart;
      timerPending := false;
      var sock := lib.Create();
      nlsock := Some(sock);
      if o == Good {
        var read := lib.Create();
        socketRead := Some(read);
        return ReportUp;
      }
      if o == AllocationFails {
        socketRead := None;
      }
      report := ReportDown;
      StartTimer();
    }

    /** pipe2 */
    method OpenPipe()
      modifies this, lib
      ensures Value() == old(Value()).(pipeIn := Some(old(lib.next)), pipeOut := Some(old(lib.next) + 1))
      ensures lib.Pool() == old(lib.Pool()).(next := old(lib.next) + 2)
    {
      var fd := lib.Create();
      pipeIn := Some(fd);
      fd := lib.Create();
      pipeOut := Some(fd);
    }

    /** The pipe's read event. */
    method NewPipeEvent()
      modifies this, lib
      ensures Value() == old(Value()).(pipeRead := Some(old(lib.next)))
      ensures lib.Pool() == old(lib.Pool()).(next := old(lib.next) + 1)
    {
      var event := lib.Create();
      pipeRead := Some(event);
    }

    /** StartConnectionManager; false when it returns an error. */
    method StartManager(o: Outcome) returns (ok: bool)
      modifies this, lib
      ensures (ok, Value(), lib.Pool()) == StartConnectionManager(old(Value()), old(lib.Pool()), o)
    {
      if o == ConnectFails {
        return false;
      }
      OpenPipe();
      NewPipeEvent();
      if o == AllocationFails {
        return false;
      }
      var h := lib.Create();
      thread := Some(h);
      manager, queue := Some(STARTED), [];
      return true;
    }

    /** RibClientInit */
    method RibInit(o: Outcome) returns (ok: bool)
      modifies this, lib
      ensures (ok, Value(), lib.Pool()) == RibClientInit(old(Value()), old(lib.Pool()), o)
    {
      hide StartConnectionManager;
      var h := lib.Create();
      channel := Some(h);
      h := lib.Create();
      exitSignal := Some(h);
      h := lib.Create();
      futureObj := Some(h);
      ok := StartManager(o);
    }

    /** nla_prpdc_server_connect */
    method PrpdConnect(o: Outcome) returns (report: Report)
      requires kind == Prpd
      modifies this, lib
      ensures Effect(Value(), lib.Pool(), report) == TimerFires(Prpd, old(Value()), old(lib.Pool()), o)
      ensures report == Nothing
      ensures old(InOrder(kind, Value()) && timerPending) ==>
                Proper(kind, old(Value()), old(lib.Pool()), Effect(Value(), lib.Pool(), report))
    {
      hide TimerStart, RibClientInit, Proper, InOrder;
      if InOrder(kind, Value()) && timerPending { TimerFiresProper(kind, Value(), lib.Pool(), o); }
      timerPending := false;
      report := Nothing;
      var ok := RibInit(o);
      if !ok {
        StartTimer();
      }
    }

    /** The event callbacks of the TCP modules. */
    method EventCb(what: What) returns (report: Report)
      modifies this, lib
      ensures Effect(Value(), lib.Pool(), report) == BevEvent(kind, old(Value()), old(lib.Pool()), what)
      ensures report == ReportDown <==> what == Eof || what == Error
      ensures report == ReportUp <==> kind == TcpClient && what == Connected
      ensures old(InOrder(kind, Value()) && bev.Some?) ==>
                Proper(kind, old(Value()), old(lib.Pool()), Effect(Value(), lib.Pool(), report))
    {
      hide Proper, InOrder, TimerStart;
      if InOrder(kind, Value()) && bev.Some? { BevEventProper(kind, Value(), lib.Pool(), what); }
      report := Nothing;
      if kind == TcpClient && what == Connected {
        report := ReportUp;
      } else if what == Eof || what == Error {
        report := ReportDown;
        StartTimer();
      }
    }

    /** nla_fpm_server_accept_connections and its netlink twin. */
    method AcceptConnection(ok: bool) returns (report: Report)
      modifies this, lib
      ensures Effect(Value(), lib.Pool(), report) == Accept(old(Value()), old(lib.Pool()), ok)
      ensures report == if ok && old(bev) == None then ReportUp else Nothing
      ensures old(kind == TcpServer && InOrder(kind, Value()) && listener.Some?) ==>
                Proper(kind, old(Value()), old(lib.Pool()), Effect(Value(), lib.Pool(), report))
    {
      hide Proper, InOrder;
      if kind == TcpServer && InOrder(kind, Value()) && listener.Some? { AcceptProper(Value(), lib.Pool(), ok); }
      report := Nothing;
      if bev.Some? {
        return;
      }
      if !ok {
        bev := None;
        return;
      }
      var h := lib.Create();
      bev := Some(h);
      report := ReportUp;
    }

    /** nla_accept_error_cb */
    method AcceptError() returns (report: Report)
      modifies this, lib
      ensures Effect(Value(), lib.Pool(), report) == ListenerError(kind, old(Value()), old(lib.Pool()))
      ensures old(kind == TcpServer && InOrder(kind, Value()) && listener.Some?) ==>
                Balanced(old(Value()), old(lib.Pool()), Value(), lib.Pool()) && JustStarted(Value())
    {
      hide Proper, InOrder, TimerStart, Balanced, JustStarted;
      if kind == TcpServer && InOrder(kind, Value()) && listener.Some? { ListenerErrorProper(Value(), lib.Pool()); }
      StartTimer();
      report := Nothing;
    }

    /** PipeRead and nla_prpdc_event_cb */
    method ReadPipe() returns (report: Report)
      requires queue != []
      modifies this
      ensures Effect(Value(), lib.Pool(), report) == PipeReadable(old(Value()), old(lib.Pool()))
      ensures old(kind == Prpd && InOrder(kind, Value())) ==>
                Proper(kind, old(Value()), old(lib.Pool()), Effect(Value(), lib.Pool(), report))
    {
      hide Proper, InOrder;
      if kind == Prpd && InOrder(kind, Value()) { PipeReadableProper(Value(), lib.Pool()); }
      var state := queue[0];
      queue := queue[1..];
      report := if state == Up then ReportUp else ReportDown;
    }

    /** A step of the manager thread; its loops are in Pipe.ConnectionManager. */
    method RunManager(ch: Channel)
      requires manager.Some?
      modifies this
      ensures Effect(Value(), lib.Pool(), Nothing) == ManagerActs(old(Value()), old(lib.Pool()), ch)
    {
      var (g, q) := ManagerStep(manager.value, queue, false, ch);
      manager, queue := Some(g), q;
    }
  }
}
