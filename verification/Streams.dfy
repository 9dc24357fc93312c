/** The read callbacks of the FPM and Netlink peers: what they deliver of a byte
    stream, as written, and what the framing says they should. */
module Streams {
  import opened Bytes
  import opened Netlink
  import opened Fpm
  import opened Framing

  // ----- FPM ---------------------------------------------------------------

  /** With NDEBUG, which the Makefile's default target sets, assertions do nothing. */
  datatype Build = Release | Debug

  /** The FPM framing where assertions are checked: the reader stops at a header
      that is not acceptable. */
  function DebugStep(s: bytes): Step {
    if |s| < FPM_MSG_HDR_LEN then Wait
    else if !MsgHdrOk(s, 0) then Fail
    else if |s| < MsgLen(s, 0) then Wait
    else Take(MsgLen(s, 0), Payload(s[..MsgLen(s, 0)]))
  }

  /** Where they are not, it reads past such a header as many octets as it says,
      for ever if that is none, and more than its buffer holds if it says so. */
  function ReleaseStep(s: bytes): Step {
    if |s| < FPM_MSG_HDR_LEN then Wait
    else
      var n := MsgLen(s, 0);
      if |s| < n then Wait
      else if n == 0 || n > DATA_LEN then Fail
      else Take(n, if MsgHdrOk(s, 0) then Payload(s[..n]) else [])
  }

  function FpmFraming(build: Build): Framer {
    if build.Release? then ReleaseStep else DebugStep
  }

  lemma FpmStepStable(build: Build)
    ensures Stable(FpmFraming(build)) && FpmFraming(build)([]).Wait?
  {
    var f := FpmFraming(build);
    forall s: bytes, more: bytes | !f(s).Wait?
      ensures f(s + more) == f(s)
    {
      FpmStepAppend(build, s, more);
    }
  }

  lemma FpmStepAppend(build: Build, s: bytes, more: bytes)
    requires !FpmFraming(build)(s).Wait?
    ensures FpmFraming(build)(s + more) == FpmFraming(build)(s)
  {
    hide Payload;
    var n := MsgLen(s, 0);
    assert forall i :: 0 <= i < FPM_MSG_HDR_LEN ==> (s + more)[i] == s[i];
    if n <= |s| {
      assert (s + more)[..n] == s[..n];
    }
  }

  /** The headers the release reader does not get past: length 0, and one that does
      not fit its buffer, once that much has arrived. */
  lemma ReleaseStopsExactly(s: bytes)
    requires |s| >= FPM_MSG_HDR_LEN
    ensures var n := MsgLen(s, 0); ReleaseStep(s).Fail? <==> n == 0 || DATA_LEN < n <= |s|
    ensures DebugStep(s).Fail? <==> !MsgHdrOk(s, 0)
  {}

  /** Unless the debug reader stops, both do the same; if it stops, the release
      reader has delivered at least as much. */
  lemma {:induction false} BuildsAgree(s: bytes)
    ensures var d, r := Drain(DebugStep, s), Drain(ReleaseStep, s);
            d.delivered <= r.delivered && (!d.failed ==> r == d)
    decreases |s|
  {
    hide Payload;
    if DebugStep(s).Take? { BuildsAgree(s[MsgLen(s, 0)..]); }
  }

  /** How a run of the callback ended: for more to arrive; at a header the framing
      does not get past; or with the process. */
  datatype Verdict = Waiting | BadHeader | WalkAborted

  datatype FpmRun = FpmRun(delivered: seq<bytes>, rest: bytes, data: bytes, verdict: Verdict)

  /** The receive buffer after a frame has been read over its front. */
  function Filled(frame: bytes, data: bytes): (d: bytes)
    requires |frame| <= |data|
    ensures |d| == |data|
  {
    frame + data[|frame|..]
  }

  /** One run of the FPM read callback as written, from receive-buffer contents
      `data`. Each frame is walked twice, the first time only to be logged. */
  function FpmDrain(build: Build, s: bytes, data: bytes): FpmRun
    requires |data| == DATA_LEN
    decreases |s|
  {
    if |s| < FPM_MSG_HDR_LEN then FpmRun([], s, data, Waiting)
    else if build.Debug? && !MsgHdrOk(s, 0) then FpmRun([], s, data, BadHeader)
    else
      var n := MsgLen(s, 0);
      if |s| < n then FpmRun([], s, data, Waiting)
      else if n > DATA_LEN then FpmRun([], s, data, BadHeader)
      else
        var d := Filled(s[..n], data);
        FilledFits(s, data, n);
        var walk := WalkAsWritten(d, 0, n);
        if walk.aborted then FpmRun([], s[n..], d, WalkAborted)
        else if n == 0 then FpmRun([], s, d, BadHeader)
        else
          var run := FpmDrain(build, s[n..], d);
          run.(delivered := walk.msgs + run.delivered)
  }

  lemma FilledFits(s: bytes, data: bytes, n: nat)
    requires |data| == DATA_LEN && FPM_MSG_HDR_LEN <= |s| && n == MsgLen(s, 0) <= |s| && n <= DATA_LEN
    ensures WalkFits(Filled(s[..n], data), 0, n)
  {
    var d := Filled(s[..n], data);
    assert forall i :: 0 <= i < n && i < FPM_MSG_HDR_LEN ==> d[i] == s[i];
  }

  /** What was in the receive buffer before does not show: behind a frame, there is
      no well-formed header; and where fewer octets are read than a header has,
      it does not make one of them. */
  predicate CleanTail(s: bytes, data: bytes)
    requires |data| == DATA_LEN && FPM_MSG_HDR_LEN <= |s| && MsgLen(s, 0) <= |s| && MsgLen(s, 0) <= DATA_LEN
  {
    var n := MsgLen(s, 0);
    if MsgHdrOk(s, 0) then !MsgHdrOk(data, n)
    else n < FPM_MSG_HDR_LEN ==> !MsgHdrOk(Filled(s[..n], data), 0)
  }

  /** That is so of every read of the run. */
  predicate CleanTails(build: Build, s: bytes, data: bytes)
    requires |data| == DATA_LEN
    decreases |s|
  {
    if |s| < FPM_MSG_HDR_LEN || |s| < MsgLen(s, 0) || MsgLen(s, 0) > DATA_LEN then true
    else if build.Debug? && !MsgHdrOk(s, 0) then true
    else
      var n := MsgLen(s, 0);
      CleanTail(s, data) && (n > 0 ==> CleanTails(build, s[n..], Filled(s[..n], data)))
  }

  /** The verdict and deliveries the framing calls for. */
  ghost predicate AsFramed(build: Build, run: FpmRun, s: bytes) {
    var r := Drain(FpmFraming(build), s);
    && run.delivered == r.delivered && run.rest == r.input
    && run.verdict == if r.failed then BadHeader else Waiting
  }

  /** On every input, the callback as written does what the framing calls for
      exactly when the buffer's tails are clean; otherwise its walk aborts, and
      what was delivered before that is right as far as it goes. */
  lemma {:induction false} FpmDrainExact(build: Build, s: bytes, data: bytes)
    requires |data| == DATA_LEN
    ensures AsFramed(build, FpmDrain(build, s, data), s) <==> CleanTails(build, s, data)
    ensures FpmDrain(build, s, data).verdict == WalkAborted <==> !CleanTails(build, s, data)
    ensures FpmDrain(build, s, data).delivered <= Drain(FpmFraming(build), s).delivered
    decreases |s|
  {
    hide Payload, WalkAsWritten, MsgHdrOk, MsgLen, CleanTail;
    var f := FpmFraming(build);
    if FPM_MSG_HDR_LEN <= |s| && MsgLen(s, 0) <= |s| && MsgLen(s, 0) <= DATA_LEN
       && (build.Debug? ==> MsgHdrOk(s, 0)) {
      var n := MsgLen(s, 0);
      var d := Filled(s[..n], data);
      FilledFits(s, data, n);
      FrameFilled(s, data);
      if n > 0 { FpmDrainExact(build, s[n..], d); }
    }
  }

  lemma FrameFilled(s: bytes, data: bytes)
    requires |data| == DATA_LEN && FPM_MSG_HDR_LEN <= |s| && MsgLen(s, 0) <= |s| && MsgLen(s, 0) <= DATA_LEN
    ensures var n := MsgLen(s, 0);
            && WalkFits(Filled(s[..n], data), 0, n) && (MsgHdrOk(s, 0) ==> n > 0)
            && var walk := WalkAsWritten(Filled(s[..n], data), 0, n);
               && (walk.aborted <==> !CleanTail(s, data))
               && (CleanTail(s, data) ==> walk.msgs == if MsgHdrOk(s, 0) then Payload(s[..n]) else [])
  {
    var n := MsgLen(s, 0);
    FilledFits(s, data, n);
    if MsgHdrOk(s, 0) {
      WholeFrameFilled(s, data);
    } else {
      hide Payload, MessagesFrom;
      var d := Filled(s[..n], data);
      assert forall i :: 0 <= i < n && i < FPM_MSG_HDR_LEN ==> d[i] == s[i];
    }
  }

  lemma WholeFrameFilled(s: bytes, data: bytes)
    requires |data| == DATA_LEN && FPM_MSG_HDR_LEN <= |s| && MsgHdrOk(s, 0) && MsgLen(s, 0) <= |s|
    ensures var n := MsgLen(s, 0);
            var d := Filled(s[..n], data);
            && WalkFits(d, 0, n) && (WalkAsWritten(d, 0, n).aborted <==> MsgHdrOk(data, n))
            && (!MsgHdrOk(data, n) ==> WalkAsWritten(d, 0, n).msgs == Payload(s[..n]))
  {
    hide Payload, WalkAsWritten;
    var n := MsgLen(s, 0);
    var d := Filled(s[..n], data);
    assert forall i :: 0 <= i < FPM_MSG_HDR_LEN ==> s[..n][i] == s[i];
    assert forall i :: n <= i < n + FPM_MSG_HDR_LEN ==> d[i] == data[i];
    assert d[..n] == s[..n];
    WalkOneFrame(d, n);
  }

  /** A whole frame is one unit of the stream. */
  lemma FrameIsUnit(build: Build, f: bytes)
    requires IsFrame(f)
    ensures IsUnit(FpmFraming(build), f) && FpmFraming(build)(f).msgs == Payload(f)
  {
    assert f[..|f|] == f;
  }

  /** The reader between runs: a process whose assertion failed reads no more. */
  datatype FpmPeer = FpmPeer(input: bytes, delivered: seq<bytes>, verdict: Verdict)

  function FpmReceive(build: Build, p: FpmPeer, chunk: bytes, data: bytes): FpmPeer
    requires |data| == DATA_LEN
  {
    if p.verdict != Waiting then p.(input := p.input + chunk)
    else
      var run := FpmDrain(build, p.input + chunk, data);
      FpmPeer(run.rest, p.delivered + run.delivered, run.verdict)
  }

  /** A chunk, and what the receive buffer holds when the callback is entered. */
  datatype Arrival = Arrival(chunk: bytes, data: bytes)

  type Arrivals = s: seq<Arrival> | forall i :: 0 <= i < |s| ==> |s[i].data| == DATA_LEN

  function Chunks(arrivals: Arrivals): seq<bytes> {
    if arrivals == [] then [] else [arrivals[0].chunk] + Chunks(arrivals[1..])
  }

  function FpmFeed(build: Build, p: FpmPeer, arrivals: Arrivals): FpmPeer
    decreases |arrivals|
  {
    if arrivals == [] then p
    else FpmFeed(build, FpmReceive(build, p, arrivals[0].chunk, arrivals[0].data), arrivals[1..])
  }

  predicate AllClean(build: Build, p: FpmPeer, arrivals: Arrivals)
    decreases |arrivals|
  {
    arrivals != [] ==>
      var a := arrivals[0];
      && (p.verdict == Waiting ==> CleanTails(build, p.input + a.chunk, a.data))
      && AllClean(build, FpmReceive(build, p, a.chunk, a.data), arrivals[1..])
  }

  ghost predicate Matches(p: FpmPeer, r: Reader) {
    p == FpmPeer(r.input, r.delivered, if r.failed then BadHeader else Waiting)
  }

  /** For every way the stream is cut and every content the receive buffer may
      have at each run, the reader as written is where the framing says it should
      be exactly when no run met an unclean tail. */
  lemma {:induction false} FpmFeedExact(build: Build, p: FpmPeer, r: Reader, arrivals: Arrivals)
    requires Matches(p, r)
    ensures Matches(FpmFeed(build, p, arrivals), Feed(FpmFraming(build), r, Chunks(arrivals)))
       <==> AllClean(build, p, arrivals)
    decreases |arrivals|
  {
    hide FpmDrain, CleanTails, Drain;
    if arrivals != [] {
      var a := arrivals[0];
      var p', r' := FpmReceive(build, p, a.chunk, a.data), Receive(FpmFraming(build), r, a.chunk);
      assert Chunks(arrivals)[1..] == Chunks(arrivals[1..]);
      FpmDrainExact(build, p.input + a.chunk, a.data);
      if p.verdict != Waiting || CleanTails(build, p.input + a.chunk, a.data) {
        FpmFeedExact(build, p', r', arrivals[1..]);
      } else {
        AbortIsFinal(build, p', arrivals[1..]);
      }
    }
  }

  lemma {:induction false} AbortIsFinal(build: Build, p: FpmPeer, arrivals: Arrivals)
    requires p.verdict == WalkAborted
    ensures FpmFeed(build, p, arrivals).verdict == WalkAborted
    decreases |arrivals|
  {
    if arrivals != [] {
      AbortIsFinal(build, FpmReceive(build, p, arrivals[0].chunk, arrivals[0].data), arrivals[1..]);
    }
  }

  const F1: bytes := [1, 1, 0, 8, 1, 1, 0, 8]
  const F2: bytes := [1, 1, 0, 4]
  const ZEROED: bytes := seq(DATA_LEN, _ => 0)

  /** Two well-formed frames that the reader as written does not survive: the
      second is shorter, and what the first left behind it looks like a header. */
  lemma StaleTailAborts(build: Build)
    ensures IsFrame(F1) && IsFrame(F2) && !Drain(FpmFraming(build), F1 + F2).failed
    ensures FpmDrain(build, F1 + F2, ZEROED).verdict == WalkAborted
  {
    assert MsgLen(F1, 0) == 8 && MsgLen(F2, 0) == 4;
    FrameIsUnit(build, F1);
    FrameIsUnit(build, F2);
    StaleTail(build);
    hide MsgLen, MsgHdrOk, Payload, FpmFraming, CleanTails, FpmDrain;
    FpmDrainExact(build, F1 + F2, ZEROED);
    TwoFrames(build, F1, F2);
  }

  lemma TwoFrames(build: Build, f1: bytes, f2: bytes)
    requires IsUnit(FpmFraming(build), f1) && IsUnit(FpmFraming(build), f2)
    ensures !Drain(FpmFraming(build), f1 + f2).failed
  {
    hide FpmFraming, Drain, IsUnit;
    FpmStepStable(build);
    assert [f1, f2][1..] == [f2] && Flatten([f2]) == f2;
    assert Flatten([f1, f2]) + [] == f1 + f2;
    UnitsThenTail(FpmFraming(build), [f1, f2], []);
  }

  lemma StaleTail(build: Build)
    ensures !CleanTails(build, F1 + F2, ZEROED)
  {
    var s := F1 + F2;
    assert s[..8] == F1 && s[8..] == F2 && MsgLen(s, 0) == 8 && MsgHdrOk(s, 0);
    var d := Filled(F1, ZEROED);
    assert d[5] == 1 && d[6] == 0 && d[7] == 8;
    assert MsgHdrOk(d, 4) && MsgLen(F2, 0) == 4 && MsgHdrOk(F2, 0);
    assert !CleanTail(F2, d);
    assert !CleanTails(build, F2, d);
  }

  /** The reading half of an FPM connection. */
  class FpmReader {
    const build: Build
    var input: bytes
    var delivered: seq<bytes>
    var verdict: Verdict

    function Peer(): FpmPeer
      reads this
    {
      FpmPeer(input, delivered, verdict)
    }

    constructor (build: Build)
      ensures Peer() == FpmPeer([], [], Waiting) && this.build == build
    {
      this.build := build;
      input, delivered, verdict := [], [], Waiting;
    }

    /** The read callback, with its 8192-octet receive buffer. */
    method ReadCb(data: array<byte>)
      requires data.Length == DATA_LEN && verdict == Waiting
      modifies this, data
      ensures var run := FpmDrain(build, old(input), old(data[..]));
              && input == run.rest && data[..] == run.data && verdict == run.verdict
              && delivered == old(delivered) + run.delivered
    {
      hide WalkAsWritten, MsgHdrOk, MsgLen;
      ghost var total := FpmDrain(build, input, data[..]);
      while true
        invariant verdict == Waiting
        invariant var run := FpmDrain(build, input, data[..]);
                  && total.rest == run.rest && total.data == run.data && total.verdict == run.verdict
                  && old(delivered) + total.delivered == delivered + run.delivered
        decreases |input|
      {
        var n := |input|;
        if n < FPM_MSG_HDR_LEN {
          break;
        }
        if !MsgHdrOk(input, 0) && build == Debug {
          verdict := BadHeader;
          break;
        }
        var frameLen := MsgLen(input, 0);
        if n < frameLen {
          break;
        }
        if frameLen > DATA_LEN {
          // The read overruns the buffer.
          verdict := BadHeader;
          break;
        }
        ghost var before := delivered;
        FilledFits(input, data[..], frameLen);
        Fill(data, input[..frameLen]);
        var rest := input[frameLen..];
        var _, logged := FpmMsgWalk(data, frameLen);
        if !logged {
          input, verdict := rest, WalkAborted;
          break;
        }
        if frameLen == 0 {
          // Nothing has been read, and the loop never ends.
          verdict := BadHeader;
          break;
        }
        // The same walk over the same octets: it cannot fail now.
        var msgs, _ := FpmMsgWalk(data, frameLen);
        input, delivered := rest, delivered + msgs;
        ghost var run := FpmDrain(build, input, data[..]);
        assert before + (msgs + run.delivered) == delivered + run.delivered;
      }
    }

    method Receive(chunk: bytes, data: array<byte>)
      requires data.Length == DATA_LEN
      modifies this, data
      ensures Peer() == FpmReceive(build, old(Peer()), chunk, old(data[..]))
    {
      input := input + chunk;
      if verdict == Waiting {
        ReadCb(data);
      }
    }
  }

  /** bufferevent_read: the octets read go to the front of the buffer. */
  method Fill(data: array<byte>, read: bytes)
    requires |read| <= data.Length
    modifies data
    ensures data[..] == Filled(read, old(data[..]))
  {
    for i := 0 to |read|
      invariant data[..i] == read[..i] && data[i..] == old(data[i..])
    {
      ghost var rest := data[i + 1..];
      assert rest == data[i..][1..] == old(data[i + 1..]);
      data[i] := read[i];
      assert data[..i + 1] == data[..i] + [read[i]] && data[i + 1..] == rest;
    }
    assert data[..] == data[..|read|] + data[|read|..];
  }

  // ----- bare netlink messages ----------------------------------------------

  /** NLMSG_ALIGN on the 32-bit length field: the addition wraps. */
  function AlignU32(n: nat): nat {
    (n + 3) % 0x1_0000_0000 / ALIGNTO * ALIGNTO
  }

  /** The netlink framing. A header whose aligned length is 0 makes the callback
      read nothing over and over, and one over 8192 does not fit its buffer. */
  function NlmStep(s: bytes): Step {
    if |s| < NLMSG_HDRLEN then Wait
    else
      var n := AlignU32(U32LE(s, 0));
      if |s| < n then Wait
      else if n == 0 || n > DATA_LEN then Fail
      else Take(n, Messages(s[..n]))
  }

  lemma NlmStepStable()
    ensures Stable(NlmStep) && NlmStep([]).Wait?
  {
    forall s: bytes, more: bytes | !NlmStep(s).Wait?
      ensures NlmStep(s + more) == NlmStep(s)
    {
      NlmStepAppend(s, more);
    }
  }

  lemma NlmStepAppend(s: bytes, more: bytes)
    requires !NlmStep(s).Wait?
    ensures NlmStep(s + more) == NlmStep(s)
  {
    hide Messages, AlignU32;
    var n := AlignU32(U32LE(s, 0));
    assert s == (s + more)[0..|s|];
    SameU32LE(s + more, 0, |s|, 0);
    assert (s + more)[..n] == s[..n];
  }

  /** The headers the reader does not get past: a length of 0, or one so large
      that aligning it wraps to 0, on which it reads nothing for ever; and one that
      does not fit its buffer, once that much has arrived. */
  lemma NlmStopsExactly(s: bytes)
    requires |s| >= NLMSG_HDRLEN
    ensures var n := U32LE(s, 0);
            NlmStep(s).Fail? <==> n == 0 || n >= 0xFFFF_FFFD || (n > DATA_LEN && Align4(n) <= |s|)
  {
    hide U32LE, Messages;
    var n := U32LE(s, 0);
    if n >= 0xFFFF_FFFD {
      assert AlignU32(n) == 0;
    } else {
      assert AlignU32(n) == Align4(n);
    }
  }

  /** An aligned message that fits the receive buffer is one unit. */
  lemma MessageIsUnit(m: bytes)
    requires IsMessage(m) && |m| <= DATA_LEN
    ensures IsUnit(NlmStep, m) && NlmStep(m).msgs == [m]
  {
    MessagesOfOne(m);
    assert m[..|m|] == m;
    assert AlignU32(|m|) == |m|;
  }

  /** The reading half of a netlink connection. */
  class NlmReader {
    var input: bytes
    var delivered: seq<bytes>
    /** The callback has not returned, or has run past its buffer. */
    var failed: bool

    function Peer(): Reader
      reads this
    {
      Reader(input, delivered, failed)
    }

    constructor ()
      ensures Peer() == Reader([], [], false)
    {
      input, delivered, failed := [], [], false;
    }

    /** The read callback; the loop that would never end is left as a failure. */
    method ReadCb(data: array<byte>)
      requires data.Length == DATA_LEN && !failed
      modifies this, data
      ensures var r := Drain(NlmStep, old(input));
              Peer() == r.(delivered := old(delivered) + r.delivered)
    {
      hide Messages, MessagesFrom, AlignU32;
      ghost var total := Drain(NlmStep, input);
      while true
        invariant !failed
        invariant var r := Drain(NlmStep, input);
                  && total.input == r.input && total.failed == r.failed
                  && old(delivered) + total.delivered == delivered + r.delivered
        decreases |input|
      {
        var n := |input|;
        if n < NLMSG_HDRLEN {
          break;
        }
        var msgLen := AlignU32(U32LE(input, 0));
        if n < msgLen {
          break;
        }
        if msgLen == 0 || msgLen > DATA_LEN {
          failed := true;
          break;
        }
        ghost var before, rest := delivered, Drain(NlmStep, input[msgLen..]);
        var msgs := ReadOne(data, input[..msgLen]);
        input := input[msgLen..];
        delivered := delivered + msgs;
        assert before + (msgs + rest.delivered) == delivered + rest.delivered;
      }
    }

    /** bufferevent_read of one message, and the walk over it. */
    method ReadOne(data: array<byte>, read: bytes) returns (msgs: seq<bytes>)
      requires |read| <= data.Length
      modifies data
      ensures msgs == Messages(read)
    {
      Fill(data, read);
      assert data[..][0..|read|] == read;
      MessagesInPlace(data[..], 0, |read|, 0, |read|);
      var _, walked := NlmsgWalk(data, 0, |read|);
      msgs := walked;
    }

    method Receive(chunk: bytes, data: array<byte>)
      requires data.Length == DATA_LEN
      modifies this, data
      ensures Peer() == Framing.Receive(NlmStep, old(Peer()), chunk)
    {
      input := input + chunk;
      if !failed {
        ReadCb(data);
      }
    }
  }
}
