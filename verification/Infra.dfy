/** The infrastructure: who wants whose events, which modules are registered and
    up, and what an event makes it call. For any number of modules. */
module Infra {
  import opened Bytes
  import opened Event
  import opened Policy

  /** A module's recorded state; before the first registration it is neither. */
  datatype Conn = Unset | Down | Up

  /** `notify[i][j]`: module i is to be notified of events from module j. */
  datatype Config = Config(enable: seq<bool>, notify: seq<seq<bool>>, policy: seq<Policy>)
  {
    function N(): nat { |enable| }

    predicate Valid() {
      && |notify| == N() && |policy| == N()
      && forall i :: 0 <= i < N() ==> |notify[i]| == N()
    }
  }

  /** The callbacks the infrastructure makes into the modules. */
  datatype Call = ResetCb(m: nat) | GetVec(m: nat) | InitCb(m: nat) | FlashCb(m: nat)

  datatype Status = Status(conn: seq<Conn>, registered: seq<bool>)
  {
    predicate Fits(n: nat) { |conn| == n && |registered| == n }
  }

  /** `calls` is the trace of the current epoch, which a reinitialisation starts. */
  datatype State = State(status: Status, reinitDue: bool, calls: seq<Call>)

  predicate Enabled(c: Config, t: Status, m: nat)
    requires c.Valid() && t.Fits(c.N()) && m < c.N()
  {
    c.enable[m] && t.registered[m]
  }

  /** Module i has asked for the events of module m. */
  predicate Subscribes(c: Config, t: Status, i: nat, m: nat)
    requires c.Valid() && t.Fits(c.N()) && m < c.N() && i < c.N()
  {
    Enabled(c, t, i) && c.notify[i][m]
  }

  /** Module i holds back the start of module m: it subscribes, and the two are
      not interdependent. */
  predicate HoldsBack(c: Config, t: Status, i: nat, m: nat)
    requires c.Valid() && t.Fits(c.N()) && m < c.N() && i < c.N()
  {
    Subscribes(c, t, i, m) && !c.notify[m][i]
  }

  predicate MayStart(c: Config, t: Status, m: nat)
    requires c.Valid() && t.Fits(c.N()) && m < c.N()
  {
    forall i: nat :: i < c.N() && HoldsBack(c, t, i, m) ==> t.conn[i] == Up
  }

  predicate MayInit(c: Config, t: Status, m: nat)
    requires c.Valid() && t.Fits(c.N()) && m < c.N()
  {
    Enabled(c, t, m) && t.conn[m] != Up && MayStart(c, t, m)
  }

  predicate AllSubscribersUp(c: Config, t: Status, m: nat)
    requires c.Valid() && t.Fits(c.N()) && m < c.N()
  {
    && (exists i: nat :: i < c.N() && Subscribes(c, t, i, m))
    && forall i: nat :: i < c.N() && Subscribes(c, t, i, m) ==> t.conn[i] == Up
  }

  predicate MayFlash(c: Config, t: Status, m: nat)
    requires c.Valid() && t.Fits(c.N()) && m < c.N()
  {
    Enabled(c, t, m) && t.conn[m] == Up && AllSubscribersUp(c, t, m)
  }

  /** The init callbacks of a pass over the modules from `lo` that `row` picks. */
  function Inits(c: Config, t: Status, row: seq<bool>, lo: nat): seq<Call>
    requires c.Valid() && t.Fits(c.N()) && |row| == c.N() && lo <= c.N()
    decreases c.N() - lo
  {
    if lo == c.N() then []
    else (if row[lo] && MayInit(c, t, lo) then [InitCb(lo)] else []) + Inits(c, t, row, lo + 1)
  }

  function Flash(c: Config, t: Status, m: nat): seq<Call>
    requires c.Valid() && t.Fits(c.N()) && m < c.N()
  {
    if MayFlash(c, t, m) then [FlashCb(m)] else []
  }

  function Flashes(c: Config, t: Status, row: seq<bool>, lo: nat): seq<Call>
    requires c.Valid() && t.Fits(c.N()) && |row| == c.N() && lo <= c.N()
    decreases c.N() - lo
  {
    if lo == c.N() then []
    else (if row[lo] then Flash(c, t, lo) else []) + Flashes(c, t, row, lo + 1)
  }

  /** A module reports that it is up. */
  function OnUp(c: Config, s: State, m: nat): State
    requires c.Valid() && s.status.Fits(c.N()) && m < c.N()
  {
    if s.status.conn[m] == Up then s
    else
      var t := s.status.(conn := s.status.conn[m := Up]);
      State(t, s.reinitDue,
            s.calls + Inits(c, t, c.notify[m], 0) + Flash(c, t, m) + Flashes(c, t, c.notify[m], 0))
  }

  /** A module reports that it is down: everything is to be started afresh. */
  function OnDown(c: Config, s: State, m: nat): State
    requires c.Valid() && s.status.Fits(c.N()) && m < c.N()
  {
    if s.status.conn[m] == Down then s
    else State(s.status.(conn := s.status.conn[m := Down]), true, s.calls)
  }

  function Resets(registered: seq<bool>, lo: nat): seq<Call>
    requires lo <= |registered|
    decreases |registered| - lo
  {
    if lo == |registered| then []
    else (if registered[lo] then [ResetCb(lo)] else []) + Resets(registered, lo + 1)
  }

  function GetVecs(enable: seq<bool>, lo: nat): seq<Call>
    requires lo <= |enable|
    decreases |enable| - lo
  {
    if lo == |enable| then []
    else (if enable[lo] then [GetVec(lo)] else []) + GetVecs(enable, lo + 1)
  }

  /** The status once every enabled module has been registered. */
  function Registered(c: Config, t: Status): (u: Status)
    requires t.Fits(c.N())
    ensures u.Fits(c.N())
  {
    Status(seq(c.N(), i requires 0 <= i < c.N() => if c.enable[i] then Down else t.conn[i]),
           seq(c.N(), i requires 0 <= i < c.N() => c.enable[i] || t.registered[i]))
  }

  function Everyone(c: Config): (row: seq<bool>)
    ensures |row| == c.N() && forall i :: 0 <= i < c.N() ==> row[i]
  {
    seq(c.N(), _ => true)
  }

  /** The reinit event: reset what is registered, register, initialise. */
  function OnReinit(c: Config, s: State): State
    requires c.Valid() && s.status.Fits(c.N())
  {
    var t := Registered(c, s.status);
    State(t, false, Resets(s.status.registered, 0) + GetVecs(c.enable, 0) + Inits(c, t, Everyone(c), 0))
  }

  // ----- dispatching a message ----------------------------------------------

  datatype Delivery = Delivery(to: nat, from: nat, kind: int, msg: bytes)

  predicate Recipient(c: Config, t: Status, from: nat, i: nat)
    requires c.Valid() && t.Fits(c.N()) && from < c.N() && i < c.N()
  {
    Subscribes(c, t, i, from) && t.conn[i] == Up
  }

  /** What a recipient is given: its own policy's image of the original. */
  function DeliveryTo(c: Config, from: nat, kind: int, m: bytes, i: nat): (d: Delivery)
    requires c.Valid() && i < c.N() && IsRoute(m)
    ensures d.to == i
  {
    Delivery(i, from, kind, Image(c.policy[i], m))
  }

  /** As written: the first recipient whose policy rejects the message ends it. */
  function Deliveries(c: Config, t: Status, from: nat, kind: int, m: bytes, lo: nat): seq<Delivery>
    requires c.Valid() && t.Fits(c.N()) && from < c.N() && IsRoute(m) && lo <= c.N()
    decreases c.N() - lo
  {
    if lo == c.N() then []
    else if !Recipient(c, t, from, lo) then Deliveries(c, t, from, kind, m, lo + 1)
    else if !Accepts(c.policy[lo], m) then []
    else [DeliveryTo(c, from, kind, m, lo)] + Deliveries(c, t, from, kind, m, lo + 1)
  }

  /** nla_infa_modules, the reinit timer, and the callbacks made. */
  class Modules {
    const cfg: Config
    var conn: seq<Conn>
    var registered: seq<bool>
    var reinitDue: bool
    var calls: seq<Call>
    var delivered: seq<Delivery>

    predicate Valid()
      reads this
    {
      cfg.Valid() && |conn| == cfg.N() && |registered| == cfg.N()
    }

    function Current(): Status
      reads this
    {
      Status(conn, registered)
    }

    function Now(): State
      reads this
    {
      State(Current(), reinitDue, calls)
    }

    constructor (cfg: Config)
      requires cfg.Valid()
      ensures Valid() && this.cfg == cfg && delivered == []
      ensures Now() == State(Status(seq(cfg.N(), _ => Unset), seq(cfg.N(), _ => false)), true, [])
    {
      this.cfg := cfg;
      conn, registered := seq(cfg.N(), _ => Unset), seq(cfg.N(), _ => false);
      reinitDue, calls, delivered := true, [], [];
    }

    /** nla_infra_check_init_module */
    method CheckInitModule(m: nat)
      requires Valid() && m < cfg.N()
      modifies this`calls
      ensures calls == old(calls) + if MayInit(cfg, Current(), m) then [InitCb(m)] else []
    {
      if !Enabled(cfg, Current(), m) {
        return;
      }
      if conn[m] == Up {
        return;
      }
      for i := 0 to cfg.N()
        invariant forall j: nat :: j < i && HoldsBack(cfg, Current(), j, m) ==> conn[j] == Up
        invariant calls == old(calls)
      {
        if !Enabled(cfg, Current(), i) {
          continue;
        }
        if cfg.notify[i][m] {
          if cfg.notify[m][i] {
            // The two are interdependent.
            continue;
          }
          if conn[i] != Up {
            assert HoldsBack(cfg, Current(), i, m);
            return;
          }
        }
      }
      calls := calls + [InitCb(m)];
    }

    /** nla_infra_request_flash */
    method RequestFlash(m: nat)
      requires Valid() && m < cfg.N()
      modifies this`calls
      ensures calls == old(calls) + Flash(cfg, Current(), m)
    {
      if !Enabled(cfg, Current(), m) {
        return;
      }
      if conn[m] != Up {
        return;
      }
      var initFlash := false;
      for i := 0 to cfg.N()
        invariant forall j: nat :: j < i && Subscribes(cfg, Current(), j, m) ==> conn[j] == Up
        invariant initFlash <==> exists j: nat :: j < i && Subscribes(cfg, Current(), j, m)
        invariant calls == old(calls)
      {
        if !Enabled(cfg, Current(), i) {
          assert !Subscribes(cfg, Current(), i, m);
          continue;
        }
        if cfg.notify[i][m] {
          assert Subscribes(cfg, Current(), i, m);
          if conn[i] != Up {
            return;
          }
          initFlash := true;
        }
      }
      if !initFlash {
        return;
      }
      calls := calls + [FlashCb(m)];
    }

    /** nla_infra_init_flash */
    method InitFlash(m: nat)
      requires Valid() && m < cfg.N()
      modifies this`calls
      ensures calls == old(calls) + Flash(cfg, Current(), m) + Flashes(cfg, Current(), cfg.notify[m], 0)
    {
      RequestFlash(m);
      ghost var before, t := calls, Current();
      for i := 0 to cfg.N()
        invariant Current() == t
        invariant calls + Flashes(cfg, t, cfg.notify[m], i) == before + Flashes(cfg, t, cfg.notify[m], 0)
      {
        ghost var so, rest := calls, Flashes(cfg, t, cfg.notify[m], i + 1);
        if cfg.notify[m][i] {
          RequestFlash(i);
          assert so + (Flash(cfg, t, i) + rest) == calls + rest;
        }
      }
    }

    /** The init pass over the modules that `row` picks. */
    method InitModules(row: seq<bool>)
      requires Valid() && |row| == cfg.N()
      modifies this`calls
      ensures calls == old(calls) + Inits(cfg, Current(), row, 0)
    {
      ghost var t := Current();
      for i := 0 to cfg.N()
        invariant Current() == t
        invariant calls + Inits(cfg, t, row, i) == old(calls) + Inits(cfg, t, row, 0)
      {
        ghost var so, rest := calls, Inits(cfg, t, row, i + 1);
        if row[i] {
          CheckInitModule(i);
          assert so + ((if MayInit(cfg, t, i) then [InitCb(i)] else []) + rest) == calls + rest;
        }
      }
    }

    /** nla_infra_process_connection_status_change; true when that is what it was. */
    method ProcessConnectionStatusChange(m: nat, kind: int) returns (handled: bool)
      requires Valid() && m < cfg.N()
      modifies this`conn, this`reinitDue, this`calls
      ensures Valid()
      ensures handled <==> kind == CONNECTION_DOWN || kind == CONNECTION_UP
      ensures Now() == if kind == CONNECTION_DOWN then OnDown(cfg, old(Now()), m)
                       else if kind == CONNECTION_UP then OnUp(cfg, old(Now()), m)
                       else old(Now())
    {
      if kind != CONNECTION_DOWN && kind != CONNECTION_UP {
        return false;
      }
      var newState := if kind == CONNECTION_UP then Up else Down;
      if conn[m] == newState {
        return true;
      }
      conn := conn[m := newState];
      if newState == Down {
        reinitDue := true;
      } else {
        InitModules(cfg.notify[m]);
        InitFlash(m);
      }
      return true;
    }

    /** nla_infra_event_dispatcher */
    method EventDispatcher(from: nat, ev: EventInfo)
      requires Valid() && from < cfg.N() && ev.Valid()
      requires ev.kind != CONNECTION_DOWN && ev.kind != CONNECTION_UP ==> IsRoute(ev.Contents())
      modifies this
      ensures Valid()
      ensures ev.kind == CONNECTION_DOWN ==> Now() == OnDown(cfg, old(Now()), from) && delivered == old(delivered)
      ensures ev.kind == CONNECTION_UP ==> Now() == OnUp(cfg, old(Now()), from) && delivered == old(delivered)
      ensures ev.kind != CONNECTION_DOWN && ev.kind != CONNECTION_UP ==>
                && Now() == old(Now())
                && delivered == old(delivered) + Deliveries(cfg, Current(), from, ev.kind, ev.Contents(), 0)
    {
      hide Accepts, Image, IsRoute, OnUp, OnDown;
      var handled := ProcessConnectionStatusChange(from, ev.kind);
      if handled {
        return;
      }
      ghost var m, t := ev.Contents(), Current();
      for i := 0 to cfg.N()
        invariant Valid() && Now() == old(Now())
        invariant delivered + Deliveries(cfg, t, from, ev.kind, m, i)
               == old(delivered) + Deliveries(cfg, t, from, ev.kind, m, 0)
      {
        if !Enabled(cfg, Current(), i) {
          continue;
        }
        if !cfg.notify[i][from] {
          continue;
        }
        if conn[i] != Up {
          continue;
        }
        var specific := Evaluate(cfg.policy[i], ev);
        if specific == null {
          return;
        }
        ghost var so, rest := delivered, Deliveries(cfg, t, from, ev.kind, m, i + 1);
        var d := Delivery(i, from, specific.kind, specific.Contents());
        delivered := delivered + [d];
        assert so + ([d] + rest) == delivered + rest;
      }
    }

    /** nla_infra_modules_reset */
    method ModulesReset()
      requires Valid()
      modifies this`calls
      ensures calls == old(calls) + Resets(registered, 0)
    {
      for i := 0 to cfg.N()
        invariant calls + Resets(registered, i) == old(calls) + Resets(registered, 0)
      {
        ghost var so, rest := calls, Resets(registered, i + 1);
        if registered[i] {
          calls := calls + [ResetCb(i)];
          assert so + ([ResetCb(i)] + rest) == calls + rest;
        }
      }
    }

    /** nla_infra_register_module, for every enabled module. */
    method RegisterModules()
      requires Valid()
      modifies this`conn, this`registered, this`calls
      ensures Valid() && Current() == Registered(cfg, old(Current()))
      ensures calls == old(calls) + GetVecs(cfg.enable, 0)
    {
      ghost var u := Registered(cfg, Current());
      for i := 0 to cfg.N()
        invariant Valid()
        invariant forall k :: 0 <= k < cfg.N() ==> conn[k] == if k < i then u.conn[k] else old(conn)[k]
        invariant forall k :: 0 <= k < cfg.N() ==>
                    registered[k] == if k < i then u.registered[k] else old(registered)[k]
        invariant calls + GetVecs(cfg.enable, i) == old(calls) + GetVecs(cfg.enable, 0)
      {
        ghost var so, rest := calls, GetVecs(cfg.enable, i + 1);
        if cfg.enable[i] {
          conn := conn[i := Down];
          registered := registered[i := true];
          calls := calls + [GetVec(i)];
          assert so + ([GetVec(i)] + rest) == calls + rest;
        }
      }
    }

    /** nla_infra_modules_init: registration of every enabled module, then init. */
    method ModulesInit()
      requires Valid()
      modifies this`conn, this`registered, this`calls
      ensures Valid() && Current() == Registered(cfg, old(Current()))
      ensures calls == old(calls) + GetVecs(cfg.enable, 0) + Inits(cfg, Current(), Everyone(cfg), 0)
    {
      RegisterModules();
      InitModules(Everyone(cfg));
    }

    /** nla_infra_modules_reinit_event; the trace of a new epoch starts here. */
    method ReinitEvent()
      requires Valid()
      modifies this
      ensures Valid() && Now() == OnReinit(cfg, old(Now())) && delivered == old(delivered)
    {
      reinitDue, calls := false, [];
      ModulesReset();
      ModulesInit();
    }
  }
}
