/** Who is given a message: what the dispatch loop does as written, against
    skipping the modules whose policy rejects it. */
module Dispatch {
  import opened Bytes
  import opened Event
  import opened Policy
  import opened Infra

  /** A recipient whose policy rejects the message. */
  predicate Rejects(c: Config, t: Status, from: nat, m: bytes, i: nat)
    requires c.Valid() && t.Fits(c.N()) && from < c.N() && i < c.N() && IsRoute(m)
  {
    Recipient(c, t, from, i) && !Accepts(c.policy[i], m)
  }

  predicate Takes(c: Config, t: Status, from: nat, m: bytes, i: nat)
    requires c.Valid() && t.Fits(c.N()) && from < c.N() && i < c.N() && IsRoute(m)
  {
    Recipient(c, t, from, i) && Accepts(c.policy[i], m)
  }

  /** As the log line says: a module whose policy rejects the message is skipped. */
  function SkippingDeliveries(c: Config, t: Status, from: nat, kind: int, m: bytes, lo: nat): seq<Delivery>
    requires c.Valid() && t.Fits(c.N()) && from < c.N() && IsRoute(m) && lo <= c.N()
    decreases c.N() - lo
  {
    if lo == c.N() then []
    else (if Takes(c, t, from, m, lo) then [DeliveryTo(c, from, kind, m, lo)] else [])
         + SkippingDeliveries(c, t, from, kind, m, lo + 1)
  }

  /** The first recipient from `lo` on that rejects the message, if any. */
  function FirstReject(c: Config, t: Status, from: nat, m: bytes, lo: nat): (i: nat)
    requires c.Valid() && t.Fits(c.N()) && from < c.N() && IsRoute(m) && lo <= c.N()
    ensures lo <= i <= c.N() && (i < c.N() ==> Rejects(c, t, from, m, i))
    ensures forall k: nat :: lo <= k < i ==> !Rejects(c, t, from, m, k)
    decreases c.N() - lo
  {
    if lo == c.N() || Rejects(c, t, from, m, lo) then lo else FirstReject(c, t, from, m, lo + 1)
  }

  predicate Ascending(ds: seq<Delivery>) {
    forall i, j :: 0 <= i < j < |ds| ==> ds[i].to < ds[j].to
  }

  /** Skipping gives one delivery to each accepting recipient, in module order. */
  lemma {:induction false} SkippingMeaning(c: Config, t: Status, from: nat, kind: int, m: bytes, lo: nat)
    requires c.Valid() && t.Fits(c.N()) && from < c.N() && IsRoute(m) && lo <= c.N()
    ensures var ds := SkippingDeliveries(c, t, from, kind, m, lo);
            && Ascending(ds)
            && (forall d :: d in ds <==>
                  lo <= d.to < c.N() && Takes(c, t, from, m, d.to) && d == DeliveryTo(c, from, kind, m, d.to))
    decreases c.N() - lo
  {
    hide Takes, DeliveryTo;
    if lo < c.N() {
      SkippingMeaning(c, t, from, kind, m, lo + 1);
      if Takes(c, t, from, m, lo) {
        var head, rest := DeliveryTo(c, from, kind, m, lo), SkippingDeliveries(c, t, from, kind, m, lo + 1);
        AscendingCons(head, rest);
      }
    }
  }

  lemma AscendingCons(d: Delivery, ds: seq<Delivery>)
    requires Ascending(ds) && forall e <- ds :: d.to < e.to
    ensures Ascending([d] + ds)
  {
    forall i, j | 0 <= i < j < |ds| + 1 ensures ([d] + ds)[i].to < ([d] + ds)[j].to {
      assert ([d] + ds)[j] == ds[j - 1] && ds[j - 1] in ds;
      if i > 0 { assert ([d] + ds)[i] == ds[i - 1]; }
    }
  }

  /** As written, the deliveries are those of skipping, cut at the first module
      that rejects the message: in module order, to each accepting recipient
      before it, its own policy's image of the unmodified original. */
  lemma {:induction false} DeliveriesMeaning(c: Config, t: Status, from: nat, kind: int, m: bytes, lo: nat)
    requires c.Valid() && t.Fits(c.N()) && from < c.N() && IsRoute(m) && lo <= c.N()
    ensures var ds, end := Deliveries(c, t, from, kind, m, lo), FirstReject(c, t, from, m, lo);
            && Ascending(ds)
            && ds <= SkippingDeliveries(c, t, from, kind, m, lo)
            && (forall d :: d in ds <==>
                  lo <= d.to < end && Takes(c, t, from, m, d.to) && d == DeliveryTo(c, from, kind, m, d.to))
    decreases c.N() - lo
  {
    hide Recipient, Accepts, DeliveryTo;
    if lo < c.N() && !Rejects(c, t, from, m, lo) {
      DeliveriesMeaning(c, t, from, kind, m, lo + 1);
      if Takes(c, t, from, m, lo) {
        DeliveriesTaken(c, t, from, kind, m, lo);
      }
    }
  }

  lemma DeliveriesTaken(c: Config, t: Status, from: nat, kind: int, m: bytes, lo: nat)
    requires c.Valid() && t.Fits(c.N()) && from < c.N() && IsRoute(m) && lo < c.N() && Takes(c, t, from, m, lo)
    requires var ds, end := Deliveries(c, t, from, kind, m, lo + 1), FirstReject(c, t, from, m, lo + 1);
             && Ascending(ds)
             && ds <= SkippingDeliveries(c, t, from, kind, m, lo + 1)
             && (forall d :: d in ds <==>
                   lo + 1 <= d.to < end && Takes(c, t, from, m, d.to) && d == DeliveryTo(c, from, kind, m, d.to))
    ensures var ds, end := Deliveries(c, t, from, kind, m, lo), FirstReject(c, t, from, m, lo);
            && Ascending(ds)
            && ds <= SkippingDeliveries(c, t, from, kind, m, lo)
            && (forall d :: d in ds <==>
                  lo <= d.to < end && Takes(c, t, from, m, d.to) && d == DeliveryTo(c, from, kind, m, d.to))
  {
    var head, rest := DeliveryTo(c, from, kind, m, lo), Deliveries(c, t, from, kind, m, lo + 1);
    assert Deliveries(c, t, from, kind, m, lo) == [head] + rest;
    assert FirstReject(c, t, from, m, lo) == FirstReject(c, t, from, m, lo + 1);
    assert SkippingDeliveries(c, t, from, kind, m, lo) == [head] + SkippingDeliveries(c, t, from, kind, m, lo + 1);
    hide Takes, Recipient, Accepts, DeliveryTo, Deliveries, SkippingDeliveries, FirstReject;
    AscendingCons(head, rest);
  }

  /** The two agree exactly when no accepting recipient comes after a rejecting
      one. */
  lemma SkippingExact(c: Config, t: Status, from: nat, kind: int, m: bytes)
    requires c.Valid() && t.Fits(c.N()) && from < c.N() && IsRoute(m)
    ensures Deliveries(c, t, from, kind, m, 0) == SkippingDeliveries(c, t, from, kind, m, 0)
       <==> !exists i: nat, j: nat :: i < j < c.N() && Rejects(c, t, from, m, i) && Takes(c, t, from, m, j)
  {
    hide Takes, Rejects, DeliveryTo;
    var ds, all := Deliveries(c, t, from, kind, m, 0), SkippingDeliveries(c, t, from, kind, m, 0);
    var end := FirstReject(c, t, from, m, 0);
    DeliveriesMeaning(c, t, from, kind, m, 0);
    SkippingMeaning(c, t, from, kind, m, 0);
    if ds == all {
      forall i: nat, j: nat | i < j < c.N() && Rejects(c, t, from, m, i)
        ensures !Takes(c, t, from, m, j)
      {
        var d := DeliveryTo(c, from, kind, m, j);
        assert end <= i;
        assert d in all <==> Takes(c, t, from, m, j);
        assert d !in ds;
      }
    } else {
      var d := all[|ds|];
      assert d in all && d !in ds by { AscendingNoRepeat(all, |ds|); }
      assert end <= d.to;
      TakesOrRejects(c, t, from, m, d.to);
    }
  }

  lemma TakesOrRejects(c: Config, t: Status, from: nat, m: bytes, i: nat)
    requires c.Valid() && t.Fits(c.N()) && from < c.N() && i < c.N() && IsRoute(m)
    ensures !(Takes(c, t, from, m, i) && Rejects(c, t, from, m, i))
  {}

  lemma AscendingNoRepeat(ds: seq<Delivery>, k: nat)
    requires Ascending(ds) && k < |ds|
    ensures ds[k] !in ds[..k]
  {}

  // ----- who that is ------------------------------------------------------------------

  /** A delivery is made to module i exactly when it is enabled and registered, has
      asked for the sender's events, whoever the two are, is up, and its policy
      accepts the message, and none before it is all that but rejects it. */
  lemma DeliveredExactly(c: Config, t: Status, from: nat, kind: int, m: bytes, i: nat)
    requires c.Valid() && t.Fits(c.N()) && from < c.N() && IsRoute(m) && i < c.N()
    ensures (exists d :: d in Deliveries(c, t, from, kind, m, 0) && d.to == i) <==>
              && c.enable[i] && t.registered[i] && c.notify[i][from] && t.conn[i] == Up && Accepts(c.policy[i], m)
              && forall j: nat :: j < i && c.enable[j] && t.registered[j] && c.notify[j][from] && t.conn[j] == Up ==>
                   Accepts(c.policy[j], m)
    ensures forall d <- Deliveries(c, t, from, kind, m, 0) ::
              d.from == from && d.kind == kind && d.to < c.N() && d.msg == Image(c.policy[d.to], m)
  {
    hide Deliveries, Accepts, SkippingDeliveries, Image;
    DeliveriesMeaning(c, t, from, kind, m, 0);
    var ds, end := Deliveries(c, t, from, kind, m, 0), FirstReject(c, t, from, m, 0);
    if i < end && Takes(c, t, from, m, i) {
      assert DeliveryTo(c, from, kind, m, i) in ds;
      forall j: nat | j < i && Recipient(c, t, from, j) ensures Accepts(c.policy[j], m) {
        assert !Rejects(c, t, from, m, j);
      }
    } else if Takes(c, t, from, m, i) {
      assert Rejects(c, t, from, m, end);
      assert !Accepts(c.policy[end], m);
    }
  }

  /** With policies that filter nothing: exactly the enabled, registered, subscribed
      modules that are up, the sender itself and interdependent ones included. */
  lemma EverySubscriberIsDelivered(c: Config, t: Status, from: nat, kind: int, m: bytes, i: nat)
    requires c.Valid() && t.Fits(c.N()) && from < c.N() && IsRoute(m) && i < c.N()
    requires forall j: nat :: j < c.N() ==>
               var p := c.policy[j]; p.filterFamily == [] && p.filterTable == [] && p.filterProtocol == []
    ensures (exists d :: d in Deliveries(c, t, from, kind, m, 0) && d.to == i) <==>
              c.enable[i] && t.registered[i] && c.notify[i][from] && t.conn[i] == Up
  {
    hide Deliveries, IsRoute;
    DeliveredExactly(c, t, from, kind, m, i);
  }

  /** A server that subscribes to itself, as in the demonstration's configuration. */
  const ECHO: Config := Config([true], [[true]], [NO_POLICY])

  /** It is handed its own message. */
  lemma EchoIsHandedItsOwn(m: bytes)
    requires IsRoute(m)
    ensures ECHO.Valid()
    ensures var t := Status([Up], [true]);
            && Deliveries(ECHO, t, 0, WRITE, m, 0) == [Delivery(0, 0, WRITE, Image(NO_POLICY, m))]
            && WrittenTo(Deliveries(ECHO, t, 0, WRITE, m, 0), 0) == [Image(NO_POLICY, m)]
  {
    hide Image, IsRoute;
    var t := Status([Up], [true]);
    assert Deliveries(ECHO, t, 0, WRITE, m, 1) == [];
    assert Deliveries(ECHO, t, 0, WRITE, m, 0) == [DeliveryTo(ECHO, 0, WRITE, m, 0)];
    WrittenToCons(DeliveryTo(ECHO, 0, WRITE, m, 0), [], 0);
  }

  // ----- what one module is handed -------------------------------------------------

  /** The messages that module i is given to write. */
  function WrittenTo(ds: seq<Delivery>, i: nat): seq<bytes> {
    if ds == [] then []
    else (if ds[0].to == i && ds[0].kind == WRITE then [ds[0].msg] else []) + WrittenTo(ds[1..], i)
  }

  /** Module i takes the message, and none of those before it, from `lo` on, ends the
      dispatch by rejecting it. */
  ghost predicate Reaches(c: Config, t: Status, from: nat, m: bytes, lo: nat, i: nat)
    requires c.Valid() && t.Fits(c.N()) && from < c.N() && IsRoute(m)
  {
    lo <= i < c.N() && Takes(c, t, from, m, i) && forall j: nat :: lo <= j < i ==> !Rejects(c, t, from, m, j)
  }

  /** What a module is handed of a message: its own policy's image, once, if the
      message reaches it, and otherwise nothing. */
  lemma {:induction false} HandedExact(c: Config, t: Status, from: nat, kind: int, m: bytes, lo: nat, i: nat)
    requires c.Valid() && t.Fits(c.N()) && from < c.N() && IsRoute(m) && lo <= c.N()
    ensures WrittenTo(Deliveries(c, t, from, kind, m, lo), i) ==
              if kind == WRITE && Reaches(c, t, from, m, lo, i) then [Image(c.policy[i], m)] else []
    decreases c.N() - lo
  {
    hide Recipient, Accepts, Image, Reaches;
    ReachesStep(c, t, from, m, lo, i);
    if lo < c.N() {
      HandedExact(c, t, from, kind, m, lo + 1, i);
      if i == lo { NothingBeforeStart(c, t, from, kind, m, lo + 1, lo); }
      if Takes(c, t, from, m, lo) {
        var head, rest := DeliveryTo(c, from, kind, m, lo), Deliveries(c, t, from, kind, m, lo + 1);
        assert Deliveries(c, t, from, kind, m, lo) == [head] + rest && !Rejects(c, t, from, m, lo);
        WrittenToCons(head, rest, i);
      }
    }
  }

  lemma ReachesStep(c: Config, t: Status, from: nat, m: bytes, lo: nat, i: nat)
    requires c.Valid() && t.Fits(c.N()) && from < c.N() && IsRoute(m) && lo <= c.N()
    ensures Reaches(c, t, from, m, lo, i) <==>
              lo < c.N() && if i == lo then Takes(c, t, from, m, lo)
                            else !Rejects(c, t, from, m, lo) && Reaches(c, t, from, m, lo + 1, i)
  {
    hide Takes, Rejects;
  }

  lemma WrittenToCons(d: Delivery, ds: seq<Delivery>, i: nat)
    ensures WrittenTo([d] + ds, i) == (if d.to == i && d.kind == WRITE then [d.msg] else []) + WrittenTo(ds, i)
    ensures d.to != i ==> WrittenTo([d] + ds, i) == WrittenTo(ds, i)
  {
    assert ([d] + ds)[1..] == ds;
  }

  lemma {:induction false} NothingBeforeStart(c: Config, t: Status, from: nat, kind: int, m: bytes, lo: nat, i: nat)
    requires c.Valid() && t.Fits(c.N()) && from < c.N() && IsRoute(m) && i < lo <= c.N()
    ensures WrittenTo(Deliveries(c, t, from, kind, m, lo), i) == []
    decreases c.N() - lo
  {
    hide Recipient, Accepts, Image;
    if lo < c.N() {
      NothingBeforeStart(c, t, from, kind, m, lo + 1, i);
      if Takes(c, t, from, m, lo) {
        WrittenToCons(DeliveryTo(c, from, kind, m, lo), Deliveries(c, t, from, kind, m, lo + 1), i);
      }
    }
  }

  // ----- over a run of events ---------------------------------------------------------

  /** An event put to the dispatcher; a connection event carries no message. */
  datatype Post = Post(from: nat, kind: int, msg: bytes)

  predicate IsConnection(kind: int) {
    kind == CONNECTION_DOWN || kind == CONNECTION_UP
  }

  predicate CanPost(c: Config, p: Post) {
    p.from < c.N() && (!IsConnection(p.kind) ==> IsRoute(p.msg))
  }

  predicate CanPostAll(c: Config, ps: seq<Post>) {
    forall k :: 0 <= k < |ps| ==> CanPost(c, ps[k])
  }

  /** The infrastructure after the event. */
  function AfterPost(c: Config, s: State, p: Post): (u: State)
    requires c.Valid() && s.status.Fits(c.N()) && CanPost(c, p)
    ensures u.status.Fits(c.N())
  {
    if p.kind == CONNECTION_DOWN then OnDown(c, s, p.from)
    else if p.kind == CONNECTION_UP then OnUp(c, s, p.from)
    else s
  }

  function DeliveriesOf(c: Config, s: State, p: Post): seq<Delivery>
    requires c.Valid() && s.status.Fits(c.N()) && CanPost(c, p)
  {
    if IsConnection(p.kind) then [] else Deliveries(c, s.status, p.from, p.kind, p.msg, 0)
  }

  /** The messages that module i is handed to write over the run. */
  function Handed(c: Config, s: State, ps: seq<Post>, i: nat): seq<bytes>
    requires c.Valid() && s.status.Fits(c.N()) && CanPostAll(c, ps)
    decreases |ps|
  {
    if ps == [] then []
    else WrittenTo(DeliveriesOf(c, s, ps[0]), i) + Handed(c, AfterPost(c, s, ps[0]), ps[1..], i)
  }

  /** The written messages that reach module i, as they were before any policy. */
  ghost function Taken(c: Config, s: State, ps: seq<Post>, i: nat): (ms: seq<bytes>)
    requires c.Valid() && s.status.Fits(c.N()) && CanPostAll(c, ps) && i < c.N()
    ensures forall k :: 0 <= k < |ms| ==> IsRoute(ms[k]) && Accepts(c.policy[i], ms[k])
    decreases |ps|
  {
    if ps == [] then []
    else
      (if ps[0].kind == WRITE && Reaches(c, s.status, ps[0].from, ps[0].msg, 0, i) then [ps[0].msg] else [])
      + Taken(c, AfterPost(c, s, ps[0]), ps[1..], i)
  }

  /** A module is handed its policy's images of exactly those, one each, in order,
      whatever goes up and down meanwhile. */
  lemma {:induction false} HandedIsTaken(c: Config, s: State, ps: seq<Post>, i: nat)
    requires c.Valid() && s.status.Fits(c.N()) && CanPostAll(c, ps) && i < c.N()
    ensures var hs, ms := Handed(c, s, ps, i), Taken(c, s, ps, i);
            |hs| == |ms| && forall k :: 0 <= k < |ms| ==> hs[k] == Image(c.policy[i], ms[k])
    decreases |ps|
  {
    hide Accepts, Image, Reaches, WrittenTo, Deliveries;
    if ps != [] {
      var p := ps[0];
      if !IsConnection(p.kind) { HandedExact(c, s.status, p.from, p.kind, p.msg, 0, i); } else { NothingWritten(i); }
      HandedIsTaken(c, AfterPost(c, s, p), ps[1..], i);
    }
  }

  lemma NothingWritten(i: nat)
    ensures WrittenTo([], i) == []
  {}

  /** Three modules, the second and third of which want the first's events; the
      second's policy lets only family 10 pass. */
  const THREE: Config :=
    Config([true, true, true], [[false, false, false], [true, false, false], [true, false, false]],
           [NO_POLICY, NO_POLICY.(filterFamily := [10]), NO_POLICY])

  /** With all of them up, a message of family 2 is not delivered to the third
      module either, which would take it. */
  lemma RejectionEndsDispatch()
    ensures THREE.Valid() && IsRoute(TO_TABLE_254)
    ensures var t := Status([Up, Up, Up], [true, true, true]);
            && Deliveries(THREE, t, 0, 3, TO_TABLE_254, 0) == []
            && SkippingDeliveries(THREE, t, 0, 3, TO_TABLE_254, 0) == [DeliveryTo(THREE, 0, 3, TO_TABLE_254, 2)]
  {
    var t, m := Status([Up, Up, Up], [true, true, true]), TO_TABLE_254;
    assert U32LE(m, 0) == 28 && |m| == 28 && m[FAMILY] == 2;
    assert !Recipient(THREE, t, 0, 0) && Rejects(THREE, t, 0, m, 1) && Takes(THREE, t, 0, m, 2);
    hide Takes, Recipient, Accepts, DeliveryTo;
    assert Deliveries(THREE, t, 0, 3, m, 1) == [];
    assert SkippingDeliveries(THREE, t, 0, 3, m, 3) == [];
    assert SkippingDeliveries(THREE, t, 0, 3, m, 2) == [DeliveryTo(THREE, 0, 3, m, 2)];
  }
}
