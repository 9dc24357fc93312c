/** FPM framing: a 4-octet header (version, type, network-order length of the
    whole frame) in front of a netlink message. */
module Fpm {
  import opened Bytes
  import opened Netlink

  const FPM_PROTO_VERSION: byte := 1
  const FPM_MSG_TYPE_NONE: byte := 0
  const FPM_MSG_TYPE_NETLINK: byte := 1
  const FPM_MSG_HDR_LEN: nat := 4
  const FPM_MAX_MSG_LEN: nat := 4096
  /** The receive buffer of the read callbacks. */
  const DATA_LEN: nat := 8192

  /** fpm_msg_len of the header at `off`. */
  function MsgLen(b: bytes, off: nat): nat
    requires off + FPM_MSG_HDR_LEN <= |b|
  {
    U16BE(b, off + 2)
  }

  /** fpm_msg_hdr_ok: looks at the header only. */
  predicate MsgHdrOk(b: bytes, off: nat): (ok: bool)
    requires off + FPM_MSG_HDR_LEN <= |b|
    ensures ok ==> FPM_MSG_HDR_LEN <= MsgLen(b, off) <= FPM_MAX_MSG_LEN
  {
    && b[off + 1] != FPM_MSG_TYPE_NONE
    && FPM_MSG_HDR_LEN <= MsgLen(b, off) <= FPM_MAX_MSG_LEN
    && (b[off + 1] == FPM_MSG_TYPE_NETLINK ==> Align4(MsgLen(b, off)) == MsgLen(b, off))
  }

  /** Octet by octet, the headers that are accepted: any version; a type other
      than 0; a length of 4 to 4096, for netlink (type 1) a multiple of 4. */
  lemma MsgHdrOctets(version: byte, kind: byte, hi: byte, lo: byte)
    ensures MsgHdrOk([version, kind, hi, lo], 0) <==>
              && kind != 0
              && (if hi == 0 then lo >= 4 else if hi == 16 then lo == 0 else hi < 16)
              && (kind == 1 ==> lo % 4 == 0)
  {
    var h: bytes := [version, kind, hi, lo];
    assert MsgLen(h, 0) == 0x100 * (hi as int) + lo as int;
    assert MsgLen(h, 0) % 4 == (lo as int) % 4;
  }

  /** fpm_msg_ok: also that the frame ends within `len` octets. */
  predicate MsgOk(b: bytes, off: nat, len: nat)
    requires off + len <= |b|
  {
    len >= FPM_MSG_HDR_LEN && MsgHdrOk(b, off) && MsgLen(b, off) <= len
  }

  /** nla_build_fpm_hdr: the length is stored in 16 bits. */
  function BuildHdr(dataLen: nat): (h: bytes)
    ensures |h| == FPM_MSG_HDR_LEN && h[0] == FPM_PROTO_VERSION && h[1] == FPM_MSG_TYPE_NETLINK
  {
    [FPM_PROTO_VERSION, FPM_MSG_TYPE_NETLINK] + PutU16BE(dataLen + FPM_MSG_HDR_LEN)
  }

  /** The header built for a payload of `n` octets is accepted and says so. */
  predicate HeaderRight(n: nat) {
    MsgHdrOk(BuildHdr(n), 0) && MsgLen(BuildHdr(n), 0) - FPM_MSG_HDR_LEN == n
  }

  /** That is so exactly when the payload is aligned and the frame not over-long. */
  lemma BuildHdrExact(n: nat)
    ensures HeaderRight(n) <==> Aligned(n) && n + FPM_MSG_HDR_LEN <= FPM_MAX_MSG_LEN
  {
    var h := BuildHdr(n);
    assert MsgLen(h, 0) == U16BE(PutU16BE(n + FPM_MSG_HDR_LEN), 0);
  }

  function Frame(m: bytes): (f: bytes)
    ensures |f| == FPM_MSG_HDR_LEN + |m|
  {
    BuildHdr(|m|) + m
  }

  /** One complete frame and nothing else. */
  predicate IsFrame(f: bytes) {
    MsgOk(f, 0, |f|) && MsgLen(f, 0) == |f|
  }

  /** The netlink messages a frame carries; the walk does not look at the type. */
  function Payload(f: bytes): seq<bytes>
    requires |f| >= FPM_MSG_HDR_LEN
  {
    Messages(f[FPM_MSG_HDR_LEN..])
  }

  /** A netlink message that fits comes back out of its frame, alone. */
  lemma FrameCarries(m: bytes)
    requires IsMessage(m) && |m| + FPM_MSG_HDR_LEN <= FPM_MAX_MSG_LEN
    ensures IsFrame(Frame(m)) && Payload(Frame(m)) == [m]
  {
    BuildHdrExact(|m|);
    var f, h := Frame(m), BuildHdr(|m|);
    assert forall i :: 0 <= i < FPM_MSG_HDR_LEN ==> f[i] == h[i];
    assert f[FPM_MSG_HDR_LEN..] == m;
    MessagesOfOne(m);
  }

  /** A frame as any peer may send it: any version; a type other than 0; its whole
      length, in network order, at most 4096, and a multiple of 4 if the type is 1;
      and messages of any length behind each other's padding, ended by octets that
      start no message. */
  predicate FrameOf(f: bytes, ms: seq<bytes>, pads: seq<bytes>, tail: bytes)
    requires |ms| == |pads|
  {
    && 4 <= |f| <= 4096 && f[1] != 0 && 0x100 * (f[2] as int) + f[3] as int == |f|
    && (f[1] == 1 ==> |f| % 4 == 0)
    && f[4..] == Padded(ms, pads) + tail
  }

  /** Each carries its messages. */
  lemma AnyFrameCarries(f: bytes, ms: seq<bytes>, pads: seq<bytes>, tail: bytes)
    requires AllUnpadded(ms) && AllPadding(ms, pads) && EndsWalk(tail) && FrameOf(f, ms, pads, tail)
    ensures IsFrame(f) && Payload(f) == ms
  {
    hide Padded, Messages, AllUnpadded, AllPadding, EndsWalk;
    MessagesOfPadded(ms, pads, tail);
    if f[1] == 1 { Align4Least(|f|, |f|); }
  }

  // ----- the walk over the frames of a buffer -----------------------------

  /** The frames visited, and whether fpm_msg_next's assertion failed. */
  datatype FpmWalk = FpmWalk(msgs: seq<bytes>, aborted: bool)

  /** The messages of the frame at `off`. */
  function FrameAt(b: bytes, off: nat): seq<bytes>
    requires off + FPM_MSG_HDR_LEN <= |b| && MsgHdrOk(b, off) && off + MsgLen(b, off) <= |b|
  {
    Payload(b[off..off + MsgLen(b, off)])
  }

  /** The callbacks of the inner walk, made on the buffer itself, see the
      messages of the frame. */
  lemma PayloadInPlace(b: bytes, off: nat)
    requires off + FPM_MSG_HDR_LEN <= |b| && MsgHdrOk(b, off) && off + MsgLen(b, off) <= |b|
    ensures MessagesFrom(b, off + FPM_MSG_HDR_LEN, MsgLen(b, off) - FPM_MSG_HDR_LEN) == FrameAt(b, off)
  {
    hide MsgLen, MessagesFrom;
    var lo, hi := off + FPM_MSG_HDR_LEN, off + MsgLen(b, off);
    assert b[off..hi][FPM_MSG_HDR_LEN..] == b[lo..hi];
    MessagesInPlace(b, lo, hi, 0, hi - lo);
  }

  /** The walk stays in the buffer: it reads the header at `off`, and if that is
      well-formed, a frame and a header more than the `rem` octets at most. */
  predicate WalkFits(b: bytes, off: nat, rem: nat) {
    off + FPM_MSG_HDR_LEN <= |b| && (MsgHdrOk(b, off) ==> off + rem + FPM_MAX_MSG_LEN <= |b|)
  }

  /** nla_fpm_msg_walk as written: only the header is checked, so the walk reads
      a header past the `rem` octets received. Where fpm_msg_next's assertion fails,
      or returns a null pointer instead, the process ends. */
  function WalkAsWritten(b: bytes, off: nat, rem: nat): FpmWalk
    requires WalkFits(b, off, rem)
    decreases rem
  {
    if !MsgHdrOk(b, off) then FpmWalk([], false)
    else if rem < MsgLen(b, off) then FpmWalk(FrameAt(b, off), true)
    else
      var rest := WalkAsWritten(b, off + MsgLen(b, off), rem - MsgLen(b, off));
      FpmWalk(FrameAt(b, off) + rest.msgs, rest.aborted)
  }

  /** The walk with the bounded check: messages, and where it stopped. */
  function GuardedWalk(b: bytes, off: nat, rem: nat): (seq<bytes>, nat)
    requires off + rem <= |b|
    decreases rem
  {
    if !MsgOk(b, off, rem) then ([], off)
    else
      var (msgs, end) := GuardedWalk(b, off + MsgLen(b, off), rem - MsgLen(b, off));
      (FrameAt(b, off) + msgs, end)
  }

  /** On every buffer, the walk as written delivers what the guarded walk does,
      and then stops cleanly or trips over the header at the guarded walk's end:
      it is clean exactly when the octets there are no well-formed header. */
  lemma {:induction false} WalksAgree(b: bytes, off: nat, rem: nat)
    requires off + rem + FPM_MAX_MSG_LEN <= |b|
    ensures var (msgs, end) := GuardedWalk(b, off, rem);
            && off <= end <= off + rem
            && WalkAsWritten(b, off, rem) ==
                 if MsgHdrOk(b, end) then FpmWalk(msgs + FrameAt(b, end), true)
                 else FpmWalk(msgs, false)
    decreases rem
  {
    hide MsgHdrOk, MsgLen, FrameAt;
    if MsgOk(b, off, rem) {
      var off', rem' := off + MsgLen(b, off), rem - MsgLen(b, off);
      WalksAgree(b, off', rem');
      var (msgs, end) := GuardedWalk(b, off', rem');
      var here := FrameAt(b, off);
      assert GuardedWalk(b, off, rem) == (here + msgs, end);
      if MsgHdrOk(b, end) {
        var more := FrameAt(b, end);
        assert here + (msgs + more) == here + msgs + more;
      }
    } else if MsgHdrOk(b, off) {
      assert [] + FrameAt(b, off) == FrameAt(b, off);
    }
  }

  /** After one complete frame of `n` octets, all of which are consumed, the walk
      as written is right exactly when the next four octets, which were not
      received, are no well-formed header. */
  lemma WalkOneFrame(b: bytes, n: nat)
    requires n + FPM_MAX_MSG_LEN <= |b| && IsFrame(b[..n])
    ensures MsgHdrOk(b, 0) && MsgLen(b, 0) == n
    ensures GuardedWalk(b, 0, n) == (Payload(b[..n]), n)
    ensures WalkAsWritten(b, 0, n) == FpmWalk(Payload(b[..n]), false) <==> !MsgHdrOk(b, n)
    ensures WalkAsWritten(b, 0, n).aborted <==> MsgHdrOk(b, n)
  {
    assert forall i :: 0 <= i < FPM_MSG_HDR_LEN ==> b[..n][i] == b[i];
    assert GuardedWalk(b, n, 0) == ([], n);
    assert b[0..n] == b[..n] && FrameAt(b, 0) + [] == FrameAt(b, 0);
    WalksAgree(b, 0, n);
  }

  /** nla_fpm_msg_walk. `ok` is false when the process does not survive
      fpm_msg_next. */
  method FpmMsgWalk(data: array<byte>, msgLen: nat) returns (msgs: seq<bytes>, ok: bool)
    requires WalkFits(data[..], 0, msgLen)
    ensures FpmWalk(msgs, !ok) == WalkAsWritten(data[..], 0, msgLen)
  {
    hide MsgHdrOk, MsgLen, FrameAt, MessagesFrom;
    ghost var b := data[..];
    var hdr: nat, received: nat := 0, msgLen;
    msgs, ok := [], true;
    while MsgHdrOk(data[..], hdr)
      invariant hdr + received == msgLen && WalkFits(b, hdr, received)
      invariant var rest := WalkAsWritten(b, hdr, received);
                FpmWalk(msgs + rest.msgs, rest.aborted) == WalkAsWritten(b, 0, msgLen)
      decreases received
    {
      var frameLen := MsgLen(data[..], hdr);
      PayloadInPlace(data[..], hdr);
      var _, nlmsgs := NlmsgWalk(data, hdr + FPM_MSG_HDR_LEN, frameLen - FPM_MSG_HDR_LEN);
      ghost var seen := msgs;
      msgs := msgs + nlmsgs;
      assert forall more: seq<bytes> :: seen + (nlmsgs + more) == msgs + more;
      if received < frameLen {
        return msgs, false;
      }
      hdr, received := hdr + frameLen, received - frameLen;
    }
  }
}
