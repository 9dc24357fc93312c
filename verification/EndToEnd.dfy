/** From one agent to the next: what a policy lets through is sent, arrives in
    pieces, is reassembled and walked, and comes out once and in order. */
module EndToEnd {
  import opened Bytes
  import opened Netlink
  import opened Event
  import opened Policy
  import opened Fpm
  import opened Framing
  import opened Streams
  import opened Infra
  import opened Dispatch

  /** The sending half of a connection: what has been handed to the socket. */
  class Sender {
    var output: bytes

    /** The FPM notify callbacks: only writes are sent. */
    method FpmNotify(ev: EventInfo)
      requires ev.Valid()
      modifies this
      ensures output == old(output) + if ev.kind == WRITE then Frame(ev.Contents()) else []
    {
      if ev.kind == WRITE {
        output := output + BuildHdr(ev.msglen);
        output := output + ev.msg[..ev.msglen];
      }
    }

    /** The netlink notify callbacks: no header, and no padding. */
    method NlmNotify(ev: EventInfo)
      requires ev.Valid()
      modifies this
      ensures output == old(output) + if ev.kind == WRITE then ev.Contents() else []
    {
      if ev.kind == WRITE {
        output := output + ev.msg[..ev.msglen];
      }
    }
  }

  ghost predicate AllRoutes(ms: seq<bytes>) {
    forall i :: 0 <= i < |ms| ==> IsRoute(ms[i])
  }

  ghost function Images(p: Policy, ms: seq<bytes>): (ws: seq<bytes>)
    requires AllRoutes(ms)
    ensures AllRoutes(ws)
  {
    seq(|ms|, i requires 0 <= i < |ms| => Image(p, ms[i]))
  }

  function Framed(ms: seq<bytes>): seq<bytes> {
    seq(|ms|, i requires 0 <= i < |ms| => Frame(ms[i]))
  }

  /** Every message is complete and fits with `overhead` octets in `limit`. */
  ghost predicate Sendable(ms: seq<bytes>, overhead: nat, limit: nat) {
    forall i :: 0 <= i < |ms| ==> IsMessage(ms[i]) && |ms[i]| + overhead <= limit
  }

  lemma {:induction false} FramedUnits(build: Build, ms: seq<bytes>)
    requires Sendable(ms, FPM_MSG_HDR_LEN, FPM_MAX_MSG_LEN)
    ensures AllUnits(FpmFraming(build), Framed(ms)) && Carried(FpmFraming(build), Framed(ms)) == ms
  {
    hide FpmFraming, Frame, Payload, IsMessage, IsFrame;
    if ms != [] {
      FramedUnits(build, ms[1..]);
      FrameCarries(ms[0]);
      FrameIsUnit(build, Frame(ms[0]));
      assert Framed(ms)[1..] == Framed(ms[1..]);
      forall i | 0 <= i < |Framed(ms)| ensures IsUnit(FpmFraming(build), Framed(ms)[i]) {
        if i > 0 { assert Framed(ms)[i] == Framed(ms[1..])[i - 1]; }
      }
    }
  }

  lemma {:induction false} MessageUnits(ms: seq<bytes>)
    requires Sendable(ms, 0, DATA_LEN)
    ensures AllUnits(NlmStep, ms) && Carried(NlmStep, ms) == ms
  {
    if ms != [] {
      MessageUnits(ms[1..]);
      MessageIsUnit(ms[0]);
      hide NlmStep;
      forall i | 0 <= i < |ms| ensures IsUnit(NlmStep, ms[i]) {
        if i > 0 { assert ms[i] == ms[1..][i - 1]; }
      }
    }
  }

  /** FPM send, any chunking, FPM receive: the same messages, once each. */
  lemma FpmRoundTrip(build: Build, ms: seq<bytes>, chunks: seq<bytes>)
    requires Sendable(ms, FPM_MSG_HDR_LEN, FPM_MAX_MSG_LEN)
    requires Flatten(chunks) == Flatten(Framed(ms))
    ensures Feed(FpmFraming(build), Reader([], [], false), chunks) == Reader([], ms, false)
  {
    FpmStepStable(build);
    FramedUnits(build, ms);
    UnitsDelivered(FpmFraming(build), Framed(ms), chunks);
  }

  lemma MessagesFit(b: bytes, off: nat, rem: int)
    requires off + rem <= |b|
    ensures forall m <- MessagesFrom(b, off, rem) :: |m| <= rem
  {
    hide Walk, MessagesFrom, Aligned;
    var ms, xs := MessagesFrom(b, off, rem), Walk(b, off, rem);
    WalkInBounds(b, off, rem);
    forall m <- ms ensures |m| <= rem {
      var i :| 0 <= i < |ms| && ms[i] == m;
      MessagesAreSlices(b, off, rem, i);
      assert xs[i] in xs;
    }
  }

  /** Whatever is delivered came in a frame. */
  lemma {:induction false} DeliveredFit(build: Build, s: bytes)
    ensures forall m <- Drain(FpmFraming(build), s).delivered :: |m| + FPM_MSG_HDR_LEN <= FPM_MAX_MSG_LEN
    decreases |s|
  {
    var f := FpmFraming(build);
    if f(s).Take? {
      var n := MsgLen(s, 0);
      if MsgHdrOk(s, 0) { MessagesFit(s[..n][FPM_MSG_HDR_LEN..], 0, n - FPM_MSG_HDR_LEN); }
      DeliveredFit(build, s[n..]);
    }
  }

  /** Of messages that fit a frame, the ones that arrive: those that are a multiple
      of 4 octets long, where assertions are checked only up to the first that is
      not. */
  function Arriving(build: Build, ms: seq<bytes>): (ws: seq<bytes>)
    ensures |ws| <= |ms|
    ensures ws == ms ==> forall i :: 0 <= i < |ms| ==> Aligned(|ms[i]|)
  {
    if ms == [] then []
    else
      var rest := Arriving(build, ms[1..]);
      if Aligned(|ms[0]|) then
        assert [ms[0]] + rest == ms ==> rest == ms[1..];
        [ms[0]] + rest
      else if build.Debug? then []
      else rest
  }

  lemma UnalignedFrame(build: Build, m: bytes, more: bytes)
    requires !Aligned(|m|) && |m| + FPM_MSG_HDR_LEN <= FPM_MAX_MSG_LEN
    ensures var n, s := |Frame(m)|, Frame(m) + more;
            && s[n..] == more
            && FpmFraming(build)(s) == if build.Debug? then Fail else Take(n, [])
  {
    BuildHdrExact(|m|);
    var h, s := BuildHdr(|m|), Frame(m) + more;
    assert forall i :: 0 <= i < FPM_MSG_HDR_LEN ==> s[i] == h[i];
    assert MsgLen(s, 0) == |m| + FPM_MSG_HDR_LEN;
    AlignedSum(FPM_MSG_HDR_LEN, |m|);
  }

  lemma AlignedFrame(build: Build, m: bytes, more: bytes)
    requires IsMessage(m) && |m| + FPM_MSG_HDR_LEN <= FPM_MAX_MSG_LEN
    ensures var n, s := |Frame(m)|, Frame(m) + more;
            s[n..] == more && FpmFraming(build)(s) == Take(n, [m])
  {
    FrameCarries(m);
    FrameIsUnit(build, Frame(m));
    FpmStepStable(build);
    hide FpmFraming, Frame, IsFrame;
    StableAt(FpmFraming(build), Frame(m), more);
  }

  lemma {:induction false} ArrivingExact(build: Build, ms: seq<bytes>)
    requires AllUnpadded(ms) && forall m <- ms :: |m| + FPM_MSG_HDR_LEN <= FPM_MAX_MSG_LEN
    ensures Drain(FpmFraming(build), Flatten(Framed(ms))).delivered == Arriving(build, ms)
  {
    hide FpmFraming, Frame, U32LE, Aligned, Drain;
    if ms == [] {
      FpmStepStable(build);
      DrainWaits(FpmFraming(build), []);
    } else {
      var m, more := ms[0], Flatten(Framed(ms[1..]));
      assert Framed(ms)[1..] == Framed(ms[1..]);
      assert Flatten(Framed(ms)) == Frame(m) + more;
      ArrivingExact(build, ms[1..]);
      if Aligned(|m|) {
        AlignedFrame(build, m, more);
        DrainTakes(FpmFraming(build), Frame(m) + more);
      } else {
        UnalignedFrame(build, m, more);
        if build.Debug? {
          DrainFails(FpmFraming(build), Frame(m) + more);
        } else {
          DrainTakes(FpmFraming(build), Frame(m) + more);
        }
      }
    }
  }

  /** Of messages of any length, sent unpadded and over-long ones too, exactly those
      sequences arrive as they were of which every message is a multiple of 4
      octets long and fits a frame. */
  lemma FpmRoundTripExact(build: Build, ms: seq<bytes>, chunks: seq<bytes>)
    requires AllUnpadded(ms) && Flatten(chunks) == Flatten(Framed(ms))
    ensures Feed(FpmFraming(build), Reader([], [], false), chunks).delivered == ms
       <==> Sendable(ms, FPM_MSG_HDR_LEN, FPM_MAX_MSG_LEN)
  {
    var f := FpmFraming(build);
    if Sendable(ms, FPM_MSG_HDR_LEN, FPM_MAX_MSG_LEN) {
      FpmRoundTrip(build, ms, chunks);
    }
    FpmStepStable(build);
    ChunkingIrrelevant(f, [], chunks);
    assert [] + Flatten(chunks) == Flatten(chunks);
    DeliveredFit(build, Flatten(chunks));
    hide Drain, Arriving, FpmFraming;
    if Drain(f, Flatten(chunks)).delivered == ms { ArrivingExact(build, ms); }
  }

  /** Netlink send, any chunking, netlink receive: the same messages, once each. */
  lemma NlmRoundTrip(ms: seq<bytes>, chunks: seq<bytes>)
    requires Sendable(ms, 0, DATA_LEN)
    requires Flatten(chunks) == Flatten(ms)
    ensures Feed(NlmStep, Reader([], [], false), chunks) == Reader([], ms, false)
  {
    NlmStepStable();
    MessageUnits(ms);
    UnitsDelivered(NlmStep, ms, chunks);
  }

  // ----- what other peers send -------------------------------------------------

  /** What one FPM frame carries, and how. */
  datatype Sent = Sent(frame: bytes, ms: seq<bytes>, pads: seq<bytes>, tail: bytes)

  ghost predicate SentWell(x: Sent) {
    AllUnpadded(x.ms) && AllPadding(x.ms, x.pads) && EndsWalk(x.tail) && FrameOf(x.frame, x.ms, x.pads, x.tail)
  }

  function Frames(xs: seq<Sent>): seq<bytes> {
    if xs == [] then [] else [xs[0].frame] + Frames(xs[1..])
  }

  function AllMessages(xs: seq<Sent>): seq<bytes> {
    if xs == [] then [] else xs[0].ms + AllMessages(xs[1..])
  }

  /** A frame that says its own length and that the header check refuses: of type
      0, over-long, or of type 1 and no multiple of 4 octets long. */
  predicate Refused(f: bytes) {
    && 4 <= |f| <= 8192 && 0x100 * (f[2] as int) + f[3] as int == |f|
    && (f[1] == 0 || |f| > 4096 || (f[1] == 1 && |f| % 4 != 0))
  }

  /** What the release reader gets nothing out of. */
  ghost predicate PassedOver(x: Sent) {
    Refused(x.frame) && x.ms == []
  }

  lemma {:induction false} FramesAreUnits(build: Build, xs: seq<Sent>)
    requires forall x <- xs :: SentWell(x) || (build.Release? && PassedOver(x))
    ensures AllUnits(FpmFraming(build), Frames(xs)) && Carried(FpmFraming(build), Frames(xs)) == AllMessages(xs)
  {
    hide FpmFraming, SentWell, PassedOver, IsUnit;
    if xs != [] {
      FramesAreUnits(build, xs[1..]);
      SentIsUnit(build, xs[0]);
      assert Frames(xs)[1..] == Frames(xs[1..]);
      forall i | 0 <= i < |Frames(xs)| ensures IsUnit(FpmFraming(build), Frames(xs)[i]) {
        if i > 0 { assert Frames(xs)[i] == Frames(xs[1..])[i - 1]; }
      }
    }
  }

  lemma SentIsUnit(build: Build, x: Sent)
    requires SentWell(x) || (build.Release? && PassedOver(x))
    ensures IsUnit(FpmFraming(build), x.frame) && FpmFraming(build)(x.frame).msgs == x.ms
  {
    if SentWell(x) {
      hide Payload, FpmFraming;
      AnyFrameCarries(x.frame, x.ms, x.pads, x.tail);
      FrameIsUnit(build, x.frame);
    } else {
      RefusedFrame(build, x.frame);
    }
  }

  lemma RefusedFrame(build: Build, f: bytes)
    requires Refused(f)
    ensures FpmFraming(build)(f) == if build.Debug? then Fail else Take(|f|, [])
  {
    hide Payload;
    if f[1] == 1 && Align4(|f|) == |f| { assert Aligned(|f|); }
  }

  /** Frames of any version and type, each with any number of messages of any length
      behind each other's padding: all the messages arrive, in order. The release
      reader passes over frames that the header check refuses. */
  lemma AnyFramesArrive(build: Build, xs: seq<Sent>, chunks: seq<bytes>)
    requires forall x <- xs :: SentWell(x) || (build.Release? && PassedOver(x))
    requires Flatten(chunks) == Flatten(Frames(xs))
    ensures Feed(FpmFraming(build), Reader([], [], false), chunks) == Reader([], AllMessages(xs), false)
  {
    hide FpmFraming, SentWell, PassedOver, Frames, AllMessages, Feed, Flatten, Stable;
    FpmStepStable(build);
    FramesAreUnits(build, xs);
    UnitsDelivered(FpmFraming(build), Frames(xs), chunks);
  }

  /** The debug reader stops at the first of those, with what came before it. */
  lemma DebugStopsAtRefused(xs: seq<Sent>, f: bytes, more: bytes)
    requires (forall x <- xs :: SentWell(x)) && Refused(f)
    ensures Drain(DebugStep, Flatten(Frames(xs)) + (f + more)) == Reader(f + more, AllMessages(xs), true)
  {
    hide SentWell, Refused, Frames, AllMessages, Flatten, DebugStep, Stable;
    FpmStepStable(Debug);
    FramesAreUnits(Debug, xs);
    RefusedFrame(Debug, f);
    StableAt(DebugStep, f, more);
    DrainFails(DebugStep, f + more);
    UnitsThenMore(DebugStep, Frames(xs), f + more);
    assert AllMessages(xs) + [] == AllMessages(xs);
  }

  function Pieces(ms: seq<bytes>, pads: seq<bytes>): (us: seq<bytes>)
    requires |ms| == |pads|
    ensures |us| == |ms| && Flatten(us) == Padded(ms, pads)
  {
    if ms == [] then []
    else
      var rest := Pieces(ms[1..], pads[1..]);
      assert ([ms[0] + pads[0]] + rest)[1..] == rest;
      [ms[0] + pads[0]] + rest
  }

  lemma {:induction false} PiecesAreUnits(ms: seq<bytes>, pads: seq<bytes>)
    requires AllUnpadded(ms) && AllPadding(ms, pads) && forall i :: 0 <= i < |ms| ==> |ms[i]| + |pads[i]| <= 8192
    ensures AllUnits(NlmStep, Pieces(ms, pads)) && Carried(NlmStep, Pieces(ms, pads)) == ms
    decreases |ms|
  {
    hide NlmStep, IsUnpadded, IsPadding;
    if ms != [] {
      PiecesAreUnits(ms[1..], pads[1..]);
      assert IsUnpadded(ms[0]) && IsPadding(ms[0], pads[0]);
      PieceIsUnit(ms[0], pads[0]);
      var us := Pieces(ms, pads);
      assert us[1..] == Pieces(ms[1..], pads[1..]);
      forall i | 0 <= i < |us| ensures IsUnit(NlmStep, us[i]) {
        if i > 0 { assert us[i] == us[1..][i - 1]; }
      }
    }
  }

  lemma PieceIsUnit(m: bytes, pad: bytes)
    requires IsUnpadded(m) && IsPadding(m, pad) && |m| + |pad| <= 8192
    ensures IsUnit(NlmStep, m + pad) && NlmStep(m + pad).msgs == [m]
  {
    var u := m + pad;
    PaddingIsAlign(m, pad);
    hide U32LE, Messages, IsPadding, Align4;
    assert u[0..|m|] == m && u[..|u|] == u;
    SameU32LE(u, 0, |m|, 0);
    LastUnpadded([], [], m, pad);
    assert Padded([], []) + m + pad == u && [] + [m] == [m];
    AlignedSmall(|m|);
  }

  lemma AlignedSmall(n: nat)
    requires n <= 8192
    ensures AlignU32(n) == Align4(n)
  {}

  /** Netlink messages of any length up to 8192 octets with their padding, sent by a
      peer that pads: all arrive, in order. */
  lemma NlmPaddedRoundTrip(ms: seq<bytes>, pads: seq<bytes>, chunks: seq<bytes>)
    requires AllUnpadded(ms) && AllPadding(ms, pads) && forall i :: 0 <= i < |ms| ==> |ms[i]| + |pads[i]| <= 8192
    requires Flatten(chunks) == Padded(ms, pads)
    ensures Feed(NlmStep, Reader([], [], false), chunks) == Reader([], ms, false)
  {
    hide NlmStep, IsPadding, Feed, Flatten, Stable, Padded;
    NlmStepStable();
    PiecesAreUnits(ms, pads);
    UnitsDelivered(NlmStep, Pieces(ms, pads), chunks);
  }

  // ----- what becomes of unpadded messages -----------------------------------

  function PaddedSize(ms: seq<bytes>): nat {
    if ms == [] then 0 else Align4(|ms[0]|) + PaddedSize(ms[1..])
  }

  lemma {:induction false} WalkFitsPadded(b: bytes, off: nat, rem: int)
    requires off + rem <= |b| && Aligned(rem)
    ensures rem >= 0 ==> PaddedSize(MessagesFrom(b, off, rem)) <= rem
    decreases if rem < 0 then 0 else rem
  {
    if NlmsgOk(b, off, rem) {
      var len := U32LE(b, off);
      Align4Least(len, rem);
      AlignedSum(Align4(len), rem - Align4(len));
      WalkFitsPadded(b, off + Align4(len), rem - Align4(len));
      assert |b[off..off + len]| == len;
    }
  }

  lemma {:induction false} PaddedSizeAppend(xs: seq<bytes>, ys: seq<bytes>)
    ensures PaddedSize(xs + ys) == PaddedSize(xs) + PaddedSize(ys)
  {
    if xs == [] {
      assert xs + ys == ys;
    } else {
      hide Align4;
      assert (xs + ys)[1..] == xs[1..] + ys;
      PaddedSizeAppend(xs[1..], ys);
    }
  }

  /** The reader uses up every delivered message's padded size. */
  lemma {:induction false} DrainUsesPadded(s: bytes)
    ensures PaddedSize(Drain(NlmStep, s).delivered) <= |s|
    decreases |s|
  {
    if NlmStep(s).Take? {
      var n := NlmStep(s).size;
      WalkFitsPadded(s[..n], 0, n);
      DrainUsesPadded(s[n..]);
      PaddedSizeAppend(NlmStep(s).msgs, Drain(NlmStep, s[n..]).delivered);
    }
  }

  lemma {:induction false} PaddingCosts(ms: seq<bytes>)
    ensures |Flatten(ms)| <= PaddedSize(ms)
    ensures |Flatten(ms)| == PaddedSize(ms) ==> forall i :: 0 <= i < |ms| ==> Aligned(|ms[i]|)
  {
    if ms != [] {
      PaddingCosts(ms[1..]);
      hide Aligned;
      forall i | 0 <= i < |ms| && |Flatten(ms)| == PaddedSize(ms) ensures Aligned(|ms[i]|) {
        if i > 0 { assert ms[i] == ms[1..][i - 1]; }
      }
    }
  }

  /** Messages that say their own length but need not be a multiple of 4, sent
      without padding, arrive as they were exactly when all of them are. */
  lemma UnpaddedExact(ms: seq<bytes>, chunks: seq<bytes>)
    requires AllUnpadded(ms) && forall m <- ms :: |m| <= DATA_LEN
    requires Flatten(chunks) == Flatten(ms)
    ensures Feed(NlmStep, Reader([], [], false), chunks).delivered == ms
       <==> forall i :: 0 <= i < |ms| ==> Aligned(|ms[i]|)
  {
    if forall i :: 0 <= i < |ms| ==> Aligned(|ms[i]|) {
      NlmRoundTrip(ms, chunks);
    }
    NlmStepStable();
    ChunkingIrrelevant(NlmStep, [], chunks);
    assert [] + Flatten(chunks) == Flatten(ms);
    DrainUsesPadded(Flatten(ms));
    PaddingCosts(ms);
  }

  // ----- end to end -----------------------------------------------------------

  /** What the receiver should have been given: for each accepted message, once
      and in order, a message that says its own length, carries the original
      attributes but the stripped types, and differs in the headers at most in
      the protocol, which the policy's last set value decides. */
  ghost predicate DeliveredFor(p: Policy, rs: seq<bytes>, ws: seq<bytes>) {
    && |ws| == |rs|
    && forall i :: 0 <= i < |rs| ==> IsRoute(rs[i]) && DeliveredAs(p, rs[i], ws[i])
  }

  ghost predicate DeliveredAs(p: Policy, m: bytes, w: bytes)
    requires IsRoute(m)
  {
    && IsRoute(w)
    && Decode(w[28..]) == Region(Keep(Attrs(m), TypeSet(p.stripRtattr)), Decode(m[28..]).tail)
    && (forall k :: 4 <= k < 28 && k != 21 ==> w[k] == m[k])
    && w[21] == (if p.setProtocol != [] then Last(p.setProtocol) % 0x100
                 else if p.setTable != [] then Last(p.setTable) % 0x100
                 else m[21])
  }

  lemma ImagesDelivered(p: Policy, rs: seq<bytes>)
    requires AllRoutes(rs)
    ensures DeliveredFor(p, rs, Images(p, rs))
  {
    forall i | 0 <= i < |rs| ensures DeliveredAs(p, rs[i], Images(p, rs)[i]) {
      ImageMeaning(p, rs[i]);
    }
  }

  /** The header built for what a policy makes of a route message is accepted, and
      says its length without wrapping, exactly when it fits a frame; it does if
      the original did. */
  lemma ImageHeader(p: Policy, m: bytes)
    requires IsRoute(m)
    ensures var n := |Image(p, m)|;
            && (HeaderRight(n) <==> n + FPM_MSG_HDR_LEN <= FPM_MAX_MSG_LEN)
            && (|m| + FPM_MSG_HDR_LEN <= FPM_MAX_MSG_LEN ==> n + FPM_MSG_HDR_LEN <= FPM_MAX_MSG_LEN)
  {
    BuildHdrExact(|Image(p, m)|);
  }

  /** Route messages put through a policy and an FPM connection, whatever the
      chunking and whatever the receive buffer holds at each run of the callback
      as written: provided what is sent fits, and no run meets an unclean tail,
      they and no others are delivered. */
  lemma FpmEndToEnd(build: Build, p: Policy, rs: seq<bytes>, arrivals: Arrivals)
    requires AllRoutes(rs) && Sendable(Images(p, rs), FPM_MSG_HDR_LEN, FPM_MAX_MSG_LEN)
    requires Flatten(Chunks(arrivals)) == Flatten(Framed(Images(p, rs)))
    requires AllClean(build, FpmPeer([], [], Waiting), arrivals)
    ensures var end := FpmFeed(build, FpmPeer([], [], Waiting), arrivals);
            && end.input == [] && end.verdict == Waiting
            && DeliveredFor(p, rs, end.delivered)
  {
    FpmRoundTrip(build, Images(p, rs), Chunks(arrivals));
    FpmFeedExact(build, FpmPeer([], [], Waiting), Reader([], [], false), arrivals);
    ImagesDelivered(p, rs);
  }

  /** The same over a netlink connection. */
  lemma NlmEndToEnd(p: Policy, rs: seq<bytes>, chunks: seq<bytes>)
    requires AllRoutes(rs) && Sendable(Images(p, rs), 0, DATA_LEN)
    requires Flatten(chunks) == Flatten(Images(p, rs))
    ensures var end := Feed(NlmStep, Reader([], [], false), chunks);
            && end.input == [] && !end.failed
            && DeliveredFor(p, rs, end.delivered)
  {
    NlmRoundTrip(Images(p, rs), chunks);
    ImagesDelivered(p, rs);
  }

  // ----- from the dispatcher to the peer -------------------------------------------

  /** What the notify callbacks make of the messages, in order. */
  function Stream(ws: seq<bytes>, fpm: bool): bytes {
    Flatten(if fpm then Framed(ws) else ws)
  }

  lemma StreamAppend(xs: seq<bytes>, ys: seq<bytes>, fpm: bool)
    ensures Stream(xs + ys, fpm) == Stream(xs, fpm) + Stream(ys, fpm)
  {
    assert Framed(xs + ys) == Framed(xs) + Framed(ys);
    FlattenAppend(xs, ys);
    FlattenAppend(Framed(xs), Framed(ys));
  }

  lemma FlattenOne(b: bytes)
    ensures Flatten([b]) == b
  {
    var none: seq<bytes> := [];
    assert [b][1..] == none && Flatten(none) == [];
  }

  lemma StreamOne(w: bytes, fpm: bool)
    ensures Stream([w], fpm) == if fpm then Frame(w) else w
  {
    FlattenOne(w);
    FlattenOne(Frame(w));
    assert Framed([w]) == [Frame(w)];
  }

  /** The notify callback of a TCP module for one delivery. */
  method Notify(d: Delivery, out: Sender, fpm: bool)
    modifies out
    ensures out.output == old(out.output) + Stream(if d.kind == WRITE then [d.msg] else [], fpm)
  {
    StreamOne(d.msg, fpm);
    var buffer := new byte[|d.msg|](k requires 0 <= k < |d.msg| => d.msg[k]);
    var ev := new EventInfo(d.kind, |d.msg|, buffer);
    assert ev.Contents() == d.msg;
    if fpm {
      out.FpmNotify(ev);
    } else {
      out.NlmNotify(ev);
    }
  }

  /** The notify callbacks that are module i's. */
  method NotifyAll(ds: seq<Delivery>, i: nat, out: Sender, fpm: bool)
    modifies out
    ensures out.output == old(out.output) + Stream(WrittenTo(ds, i), fpm)
  {
    hide Stream;
    for k := 0 to |ds|
      invariant out.output + Stream(WrittenTo(ds[k..], i), fpm) == old(out.output) + Stream(WrittenTo(ds, i), fpm)
    {
      ghost var rest := ds[k + 1..];
      assert ds[k..] == [ds[k]] + rest;
      WrittenToCons(ds[k], rest, i);
      if ds[k].to == i {
        var one := if ds[k].kind == WRITE then [ds[k].msg] else [];
        StreamAppend(one, WrittenTo(rest, i), fpm);
        Notify(ds[k], out, fpm);
      }
    }
    StreamNothing(fpm);
  }

  lemma StreamNothing(fpm: bool)
    ensures Stream([], fpm) == []
  {}

  /** The event with its sender is this one. */
  ghost predicate Posts(from: nat, ev: EventInfo, p: Post)
    reads ev, ev.msg
  {
    ev.Valid() && p == Post(from, ev.kind, ev.Contents())
  }

  /** The dispatcher, run on one event after another, and module i's notify
      callbacks: what they hand to the socket is the stream of what the module is
      handed, whatever goes up and down meanwhile. */
  method Relay(modules: Modules, froms: seq<nat>, evs: seq<EventInfo>, ghost ps: seq<Post>,
               i: nat, out: Sender, fpm: bool)
    requires modules.Valid() && CanPostAll(modules.cfg, ps) && |froms| == |evs| == |ps|
    requires forall k :: 0 <= k < |ps| ==> Posts(froms[k], evs[k], ps[k])
    modifies modules, out
    ensures modules.Valid()
    ensures out.output == old(out.output) + Stream(Handed(modules.cfg, old(modules.Now()), ps, i), fpm)
  {
    hide Stream, Handed, OnUp, OnDown, Deliveries, WrittenTo;
    ghost var c, total := modules.cfg, Handed(modules.cfg, modules.Now(), ps, i);
    for k := 0 to |evs|
      invariant modules.Valid()
      invariant out.output + Stream(Handed(c, modules.Now(), ps[k..], i), fpm) == old(out.output) + Stream(total, fpm)
    {
      assert Posts(froms[k], evs[k], ps[k]) && CanPost(c, ps[k]);
      ghost var s := modules.Now();
      HandedCons(c, s, ps[k], ps[k + 1..], i);
      assert ps[k..] == [ps[k]] + ps[k + 1..];
      var seen := |modules.delivered|;
      modules.EventDispatcher(froms[k], evs[k]);
      assert modules.Now() == AfterPost(c, s, ps[k]) && modules.delivered[seen..] == DeliveriesOf(c, s, ps[k]);
      StreamAppend(WrittenTo(DeliveriesOf(c, s, ps[k]), i), Handed(c, modules.Now(), ps[k + 1..], i), fpm);
      NotifyAll(modules.delivered[seen..], i, out, fpm);
    }
    HandedNothing(c, modules.Now(), i);
    StreamNothing(fpm);
  }

  lemma HandedCons(c: Config, s: State, p: Post, ps: seq<Post>, i: nat)
    requires c.Valid() && s.status.Fits(c.N()) && CanPost(c, p) && CanPostAll(c, ps)
    ensures CanPostAll(c, [p] + ps)
    ensures Handed(c, s, [p] + ps, i) == WrittenTo(DeliveriesOf(c, s, p), i) + Handed(c, AfterPost(c, s, p), ps, i)
  {
    assert ([p] + ps)[1..] == ps;
  }

  lemma HandedNothing(c: Config, s: State, i: nat)
    requires c.Valid() && s.status.Fits(c.N())
    ensures Handed(c, s, [], i) == []
  {}

  lemma TakenImages(c: Config, s: State, ps: seq<Post>, i: nat)
    requires c.Valid() && s.status.Fits(c.N()) && CanPostAll(c, ps) && i < c.N()
    ensures Handed(c, s, ps, i) == Images(c.policy[i], Taken(c, s, ps, i))
  {
    HandedIsTaken(c, s, ps, i);
  }

  /** From dispatcher to peer, over any run of events and any chunking: what has
      reached module i arrives from it, once and in order, as its policy makes it. */
  lemma DispatchEndToEnd(build: Build, c: Config, s: State, ps: seq<Post>, i: nat, arrivals: Arrivals)
    requires c.Valid() && s.status.Fits(c.N()) && CanPostAll(c, ps) && i < c.N()
    requires Sendable(Handed(c, s, ps, i), FPM_MSG_HDR_LEN, FPM_MAX_MSG_LEN)
    requires Flatten(Chunks(arrivals)) == Stream(Handed(c, s, ps, i), true)
    requires AllClean(build, FpmPeer([], [], Waiting), arrivals)
    ensures var end := FpmFeed(build, FpmPeer([], [], Waiting), arrivals);
            && end.input == [] && end.verdict == Waiting
            && DeliveredFor(c.policy[i], Taken(c, s, ps, i), end.delivered)
  {
    hide Handed, Taken;
    TakenImages(c, s, ps, i);
    FpmEndToEnd(build, c.policy[i], Taken(c, s, ps, i), arrivals);
  }

  lemma DispatchNlmEndToEnd(c: Config, s: State, ps: seq<Post>, i: nat, chunks: seq<bytes>)
    requires c.Valid() && s.status.Fits(c.N()) && CanPostAll(c, ps) && i < c.N()
    requires Sendable(Handed(c, s, ps, i), 0, DATA_LEN)
    requires Flatten(chunks) == Stream(Handed(c, s, ps, i), false)
    ensures var end := Feed(NlmStep, Reader([], [], false), chunks);
            && end.input == [] && !end.failed
            && DeliveredFor(c.policy[i], Taken(c, s, ps, i), end.delivered)
  {
    hide Handed, Taken;
    TakenImages(c, s, ps, i);
    NlmEndToEnd(c.policy[i], Taken(c, s, ps, i), chunks);
  }
}
