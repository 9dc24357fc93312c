/** The connection manager thread and the pipe through which it tells the event
    loop what the channel's state is. */
module Pipe {
  import opened Bytes
  import opened Infra

  /** Where the thread is. Between deciding on a new state and writing it to the
      pipe there is a moment at which the two disagree. */
  datatype Pc = OuterTest | Sample | Compare | Write | InnerTest | Wait | Exited

  datatype Manager = Manager(pc: Pc, connectionState: Conn, newConnectionState: Conn)

  const STARTED: Manager := Manager(OuterTest, Down, Down)

  /** What the thread finds: whether the channel is ready (the purge-time request
      having succeeded), and whether its state changed within the deadline. */
  datatype Channel = Channel(ready: bool, changed: bool)

  /** One step of the thread's loop; `exit` is the promise of the main thread. */
  function ManagerStep(g: Manager, queue: seq<Conn>, exit: bool, ch: Channel): (Manager, seq<Conn>) {
    match g.pc
    case OuterTest => (g.(pc := if exit then Exited else Sample), queue)
    case Sample => (g.(pc := Compare, newConnectionState := if ch.ready then Up else Down), queue)
    case Compare =>
      if g.newConnectionState != g.connectionState
      then (g.(pc := Write, connectionState := g.newConnectionState), queue)
      else (g.(pc := InnerTest), queue)
    case Write => (g.(pc := InnerTest), queue + [g.connectionState])
    case InnerTest => (g.(pc := if exit then OuterTest else Wait), queue)
    case Wait => (g.(pc := if ch.changed then OuterTest else InnerTest), queue)
    case Exited => (g, queue)
  }

  // ----- the protocol's invariant ----------------------------------------------

  predicate Change(s: seq<Conn>, i: nat)
    requires i + 1 < |s|
  {
    s[i] != s[i + 1]
  }

  predicate NoRepeats(s: seq<Conn>) {
    forall i: nat :: i + 1 < |s| ==> Change(s, i)
  }

  function Latest(recorded: Conn, queue: seq<Conn>): Conn {
    if queue == [] then recorded else queue[|queue| - 1]
  }

  /** What the infrastructure has recorded, followed by the messages in the pipe:
      no two neighbours are equal, and the last is the manager's state, unless the
      manager is about to write it. */
  predicate InStep(recorded: Conn, queue: seq<Conn>, g: Manager) {
    && NoRepeats([recorded] + queue)
    && (forall i :: 0 <= i < |queue| ==> queue[i] != Unset)
    && g.connectionState != Unset && g.newConnectionState != Unset
    && (Latest(recorded, queue) == g.connectionState <==> g.pc != Write)
  }

  lemma StartsInStep()
    ensures InStep(Down, [], STARTED)
  {}

  lemma ManagerKeepsStep(recorded: Conn, queue: seq<Conn>, g: Manager, exit: bool, ch: Channel)
    requires recorded != Unset && InStep(recorded, queue, g)
    ensures var (g', queue') := ManagerStep(g, queue, exit, ch); InStep(recorded, queue', g')
  {
    if g.pc == Write {
      var h := [recorded] + queue;
      var h' := [recorded] + (queue + [g.connectionState]);
      assert h' == h + [g.connectionState];
      forall i: nat | i + 1 < |h'| ensures Change(h', i) {
        if i + 1 < |h| { assert Change(h, i); }
      }
    }
  }

  /** Every message read is a transition, and leaves the two in step. */
  lemma ReadKeepsStep(recorded: Conn, queue: seq<Conn>, g: Manager)
    requires InStep(recorded, queue, g) && queue != []
    ensures queue[0] != recorded && queue[0] != Unset
    ensures InStep(queue[0], queue[1..], g)
  {
    var h := [recorded] + queue;
    assert Change(h, 0);
    assert [queue[0]] + queue[1..] == queue;
    forall i: nat | i + 1 < |queue| ensures Change(queue, i) {
      assert Change(h, i + 1);
    }
  }

  /** The event loop has read the first `n` messages. */
  function Read(recorded: Conn, queue: seq<Conn>, n: nat): (Conn, seq<Conn>)
    requires n <= |queue|
  {
    if n == 0 then (recorded, queue) else (queue[n - 1], queue[n..])
  }

  /** What the thread samples is what it ends up having told: two or three steps
      later the last word in the pipe, or on record, is the channel's state, however
      many messages are read after each step. */
  lemma SampleIsTold(recorded: Conn, queue: seq<Conn>, g: Manager, exit: bool, ch: Channel, n1: nat, n2: nat, n3: nat)
    requires recorded != Unset && InStep(recorded, queue, g) && g.pc == Sample
    ensures var (g1, q1) := ManagerStep(g, queue, exit, ch);
            n1 <= |q1| ==>
              var (c1, r1) := Read(recorded, q1, n1);
              var (g2, q2) := ManagerStep(g1, r1, exit, ch);
              n2 <= |q2| ==>
                var (c2, r2) := Read(c1, q2, n2);
                var (g3, q3) := if g2.pc == Write then ManagerStep(g2, r2, exit, ch) else (g2, r2);
                n3 <= |q3| ==>
                  var (c3, r3) := Read(c2, q3, n3);
                  g3.pc == InnerTest && Latest(c3, r3) == g3.connectionState == if ch.ready then Up else Down
  {
    hide Read, NoRepeats;
    var (g1, q1) := ManagerStep(g, queue, exit, ch);
    if n1 <= |q1| {
      ReadKeepsLatest(recorded, q1, n1);
      var (c1, r1) := Read(recorded, q1, n1);
      var (g2, q2) := ManagerStep(g1, r1, exit, ch);
      if n2 <= |q2| {
        ReadKeepsLatest(c1, q2, n2);
        var (c2, r2) := Read(c1, q2, n2);
        var (g3, q3) := if g2.pc == Write then ManagerStep(g2, r2, exit, ch) else (g2, r2);
        if n3 <= |q3| { ReadKeepsLatest(c2, q3, n3); }
      }
    }
  }

  lemma ReadKeepsLatest(recorded: Conn, queue: seq<Conn>, n: nat)
    requires n <= |queue|
    ensures var (c, r) := Read(recorded, queue, n); Latest(c, r) == Latest(recorded, queue)
  {}

  /** Between two samples the thread waits for the channel's state to change: while
      it does not, the thread goes round its inner loop and writes nothing; when it
      does, the next step but one samples. */
  lemma WaitsForChange(queue: seq<Conn>, g: Manager, ch: Channel)
    requires g.pc == InnerTest
    ensures var (g1, q1) := ManagerStep(g, queue, false, ch);
            var (g2, q2) := ManagerStep(g1, q1, false, ch);
            var (g3, q3) := ManagerStep(g2, q2, false, ch);
            && q1 == q2 == q3 == queue
            && (!ch.changed ==> g2 == g)
            && (ch.changed ==> g3 == g.(pc := Sample))
  {}

  // ----- every interleaving of the two threads ------------------------------------

  /** What the main thread is doing: handling events, or waiting in a reset for
      the manager to exit, and whether the reset is part of a reinitialisation,
      which then registers the module anew. */
  datatype Main = Free | Joining(reinit: bool)

  datatype Both = Both(recorded: Conn, manager: Option<Manager>, queue: seq<Conn>, main: Main)

  datatype Turn =
    | ManagerTurn(ch: Channel)
    | PipeRead
    | ManagerStarts
    | BeginReset(reinit: bool)
    | FinishReset

  /** A reset outside a reinitialisation comes with an init callback, which only
      modules that are not up are given. */
  predicate MayTurn(b: Both, turn: Turn) {
    match turn
    case ManagerTurn(_) => b.manager.Some?
    case PipeRead => b.main.Free? && b.queue != []
    case ManagerStarts => b.main.Free? && b.manager.None?
    case BeginReset(reinit) => b.main.Free? && (reinit || b.recorded != Up)
    case FinishReset => b.main.Joining? && (b.manager.Some? ==> b.manager.value.pc == Exited)
  }

  function Take(b: Both, turn: Turn): Both
    requires MayTurn(b, turn)
  {
    match turn
    case ManagerTurn(ch) =>
      var (g, queue) := ManagerStep(b.manager.value, b.queue, b.main.Joining?, ch);
      b.(manager := Some(g), queue := queue)
    case PipeRead => b.(recorded := b.queue[0], queue := b.queue[1..])
    case ManagerStarts => b.(manager := Some(STARTED), queue := [])
    case BeginReset(reinit) => b.(main := Joining(reinit))
    case FinishReset =>
      Both(if b.main.reinit then Down else b.recorded, None, [], Free)
  }

  /** While a manager runs it is in step; while none does, the pipe is empty and
      the module is not up. */
  predicate Coordinated(b: Both) {
    && b.recorded != Unset
    && (b.main == Joining(false) ==> b.recorded != Up)
    && match b.manager
       case None => b.queue == [] && b.recorded == Down
       case Some(g) => InStep(b.recorded, b.queue, g)
  }

  lemma TakeCoordinated(b: Both, turn: Turn)
    requires Coordinated(b) && MayTurn(b, turn)
    ensures Coordinated(Take(b, turn))
  {
    match turn
    case ManagerTurn(ch) => ManagerKeepsStep(b.recorded, b.queue, b.manager.value, b.main.Joining?, ch);
    case PipeRead => ReadKeepsStep(b.recorded, b.queue, b.manager.value);
    case ManagerStarts => StartsInStep();
    case BeginReset(_) =>
    case FinishReset =>
  }

  predicate CanTake(b: Both, turns: seq<Turn>)
    decreases |turns|
  {
    turns != [] ==> MayTurn(b, turns[0]) && CanTake(Take(b, turns[0]), turns[1..])
  }

  function TakeAll(b: Both, turns: seq<Turn>): Both
    requires CanTake(b, turns)
    decreases |turns|
  {
    if turns == [] then b else TakeAll(Take(b, turns[0]), turns[1..])
  }

  /** Whatever the interleaving, with resets, repeated inits and reinitialisations
      at any moment: the protocol's invariant holds; a message that can be read is
      a transition; and with the pipe drained and no write under way, what the
      infrastructure has recorded is the manager's state. */
  lemma {:induction false} AlwaysCoordinated(b: Both, turns: seq<Turn>)
    requires Coordinated(b) && CanTake(b, turns)
    ensures var e := TakeAll(b, turns);
            && Coordinated(e)
            && (e.queue != [] ==> e.manager.Some? && e.queue[0] != e.recorded)
            && (e.manager.Some? && e.queue == [] && e.manager.value.pc != Write ==>
                  e.recorded == e.manager.value.connectionState)
    decreases |turns|
  {
    if turns == [] {
      if b.queue != [] { ReadKeepsStep(b.recorded, b.queue, b.manager.value); }
    } else {
      TakeCoordinated(b, turns[0]);
      hide Coordinated;
      AlwaysCoordinated(Take(b, turns[0]), turns[1..]);
    }
  }

  // ----- joining the thread --------------------------------------------------------

  /** How many steps the thread is from its end once it has been told to exit. */
  function Distance(pc: Pc): nat {
    match pc
    case Exited => 0
    case OuterTest => 1
    case InnerTest => 2
    case Wait => 3
    case Write => 3
    case Compare => 4
    case Sample => 5
  }

  /** Messages the thread may still write. */
  function StillToWrite(pc: Pc): nat {
    if pc == Sample || pc == Compare || pc == Write then 1 else 0
  }

  /** Told to exit, the thread does: every step brings it closer, and it writes
      one more message at most, so the main thread's join returns. */
  lemma ExitsSoon(g: Manager, queue: seq<Conn>, ch: Channel)
    ensures var (g', queue') := ManagerStep(g, queue, true, ch);
            && (g.pc != Exited ==> Distance(g'.pc) < Distance(g.pc))
            && |queue'| + StillToWrite(g'.pc) <= |queue| + StillToWrite(g.pc)
  {}

  /** The thread's run to its end, under any conduct of the channel. */
  lemma {:induction false} JoinReturns(b: Both, chs: seq<Channel>) returns (turns: seq<Turn>)
    requires b.main.Joining? && b.manager.Some? && |chs| >= Distance(b.manager.value.pc)
    ensures CanTake(b, turns) && |turns| <= Distance(b.manager.value.pc) + 1
    ensures TakeAll(b, turns) == Both(if b.main.reinit then Down else b.recorded, None, [], Free)
    decreases Distance(b.manager.value.pc)
  {
    if b.manager.value.pc == Exited {
      turns := [FinishReset];
      assert turns[1..] == [];
    } else {
      var turn := ManagerTurn(chs[0]);
      ExitsSoon(b.manager.value, b.queue, chs[0]);
      var rest := JoinReturns(Take(b, turn), chs[1..]);
      turns := [turn] + rest;
      assert turns[1..] == rest;
    }
  }

  // ----- the thread as it is written ---------------------------------------------------

  /** What the thread finds at each of its steps. */
  type Conduct = nat -> Channel

  /** The thread's steps from the one numbered `now` to its end; the main thread
      sets the promise before step `exitAt`. */
  function RunToEnd(g: Manager, queue: seq<Conn>, conduct: Conduct, exitAt: nat, now: nat): (seq<Conn>, Manager)
    decreases if now < exitAt then exitAt - now else 0, Distance(g.pc)
  {
    if g.pc == Exited then (queue, g)
    else
      var (g', queue') := ManagerStep(g, queue, now >= exitAt, conduct(now));
      RunToEnd(g', queue', conduct, exitAt, now + 1)
  }

  /** Whenever the promise is set and whatever the channel does, what the thread
      has written by its end are changes of state, each a real one, and the last
      word is the state it ended in. */
  lemma {:induction false} RunToEndInStep(recorded: Conn, g: Manager, queue: seq<Conn>,
                                          conduct: Conduct, exitAt: nat, now: nat)
    requires recorded != Unset && InStep(recorded, queue, g)
    ensures var (written, end) := RunToEnd(g, queue, conduct, exitAt, now);
            end.pc == Exited && InStep(recorded, written, end) && queue <= written
    decreases if now < exitAt then exitAt - now else 0, Distance(g.pc)
  {
    hide InStep;
    if g.pc != Exited {
      ManagerKeepsStep(recorded, queue, g, now >= exitAt, conduct(now));
      var (g', queue') := ManagerStep(g, queue, now >= exitAt, conduct(now));
      RunToEndInStep(recorded, g', queue', conduct, exitAt, now + 1);
    }
  }

  lemma RunSpeaksTruth(conduct: Conduct, exitAt: nat)
    ensures var (written, end) := RunToEnd(STARTED, [], conduct, exitAt, 0);
            NoRepeats([Down] + written) && Latest(Down, written) == end.connectionState
  {
    StartsInStep();
    RunToEndInStep(Down, STARTED, [], conduct, exitAt, 0);
  }

  /** ConnectionManager: samples the channel, writes what has changed, and waits
      for the next change, until the promise is set. */
  method ConnectionManager(conduct: Conduct, exitAt: nat) returns (written: seq<Conn>)
    ensures written == RunToEnd(STARTED, [], conduct, exitAt, 0).0
    ensures NoRepeats([Down] + written)
    ensures Latest(Down, written) == RunToEnd(STARTED, [], conduct, exitAt, 0).1.connectionState
  {
    RunSpeaksTruth(conduct, exitAt);
    ghost var end := RunToEnd(STARTED, [], conduct, exitAt, 0);
    hide NoRepeats, Latest;
    var connectionState, newConnectionState, now := Down, Down, 0;
    written := [];
    while now < exitAt
      invariant RunToEnd(Manager(OuterTest, connectionState, newConnectionState), written, conduct, exitAt, now) == end
      decreases exitAt - now
    {
      ghost var was := now;
      now := now + 1;
      assert RunToEnd(Manager(Sample, connectionState, newConnectionState), written, conduct, exitAt, now) == end;
      newConnectionState := if conduct(now).ready then Up else Down;
      now := now + 1;
      assert RunToEnd(Manager(Compare, connectionState, newConnectionState), written, conduct, exitAt, now) == end;
      if newConnectionState != connectionState {
        connectionState := newConnectionState;
        now := now + 1;
        assert RunToEnd(Manager(Write, connectionState, newConnectionState), written, conduct, exitAt, now) == end;
        written := written + [connectionState];
      }
      now := now + 1;
      var changed := false;
      while !changed && now < exitAt
        invariant RunToEnd(Manager(if changed then OuterTest else InnerTest, connectionState, newConnectionState),
                           written, conduct, exitAt, now) == end && now > was
        decreases !changed, exitAt - now
      {
        now := now + 1;
        assert RunToEnd(Manager(Wait, connectionState, newConnectionState), written, conduct, exitAt, now) == end;
        changed := conduct(now).changed;
        now := now + 1;
      }
      if !changed {
        now := now + 1;
      }
    }
  }
}
