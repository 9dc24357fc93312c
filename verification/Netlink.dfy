/** Netlink messages and attributes as bytes (RFC 3549, sections 2.2, 2.3.2 and
    3.1.1), and the walk over the messages of one buffer. */
module Netlink {
  import opened Bytes

  const NLMSG_HDRLEN: nat := 16
  const NLA_HDRLEN: nat := 4
  /** The netlink header and the 12 octets of `rtmsg`; attributes start here. */
  const ATTRS: nat := 28
  /** NLA_TYPE_MASK + 1: the two top bits of the type field are flags. */
  const NLA_TYPES: nat := 0x4000

  // ----- messages -------------------------------------------------------

  /** nlmsg_ok: `rem` is signed, and may have gone negative. */
  predicate NlmsgOk(b: bytes, off: nat, rem: int)
    requires off + rem <= |b|
  {
    rem >= NLMSG_HDRLEN && NLMSG_HDRLEN <= U32LE(b, off) <= rem
  }

  datatype Slice = Slice(off: nat, len: nat) {
    /** Where nlmsg_next goes from this message. */
    function End(): nat { off + Align4(len) }
  }

  /** The slices the callback is given by a walk of `rem` octets from `off`. */
  function Walk(b: bytes, off: nat, rem: int): seq<Slice>
    requires off + rem <= |b|
    decreases if rem < 0 then 0 else rem
  {
    if NlmsgOk(b, off, rem) then
      var len := U32LE(b, off);
      [Slice(off, len)] + Walk(b, off + Align4(len), rem - Align4(len))
    else []
  }

  /** Where the walk is after `i` of the slices. */
  function Cursor(off: nat, s: seq<Slice>, i: nat): nat
    requires i <= |s|
  {
    if i == 0 then off else s[i - 1].End()
  }

  /** An acceptable message, read inside the `limit` of the walk. */
  ghost predicate Acceptable(b: bytes, limit: int, x: Slice)
    requires limit <= |b|
  {
    NlmsgOk(b, x.off, limit - x.off) && x.len == U32LE(b, x.off)
  }

  /** What a walk is, with no reference to how it is computed: contiguous up to
      padding, acceptable messages throughout, and stopped only where the next
      header is not acceptable. */
  ghost predicate IsWalk(b: bytes, off: nat, limit: int, s: seq<Slice>)
    requires limit <= |b|
  {
    && (forall i {:trigger Cursor(off, s, i)} ::
          0 <= i < |s| ==> s[i].off == Cursor(off, s, i) && Acceptable(b, limit, s[i]))
    && !NlmsgOk(b, Cursor(off, s, |s|), limit - Cursor(off, s, |s|))
  }

  /** The walk of any buffer, well-formed or not, is the one and only sequence
      of slices that satisfies IsWalk. */
  lemma {:induction false} WalkCharacterised(b: bytes, off: nat, rem: int, s: seq<Slice>)
    requires off + rem <= |b|
    ensures IsWalk(b, off, off + rem, s) <==> s == Walk(b, off, rem)
    decreases if rem < 0 then 0 else rem
  {
    hide U32LE, Align4, Aligned;
    assert Cursor(off, s, 0) == off;
    if NlmsgOk(b, off, rem) {
      var head := Slice(off, U32LE(b, off));
      var tail := Walk(b, head.End(), rem - Align4(head.len));
      assert Walk(b, off, rem) == [head] + tail;
      if s != [] && s[0] == head {
        assert s == [head] + tail <==> s[1..] == tail;
        WalkCharacterised(b, head.End(), rem - Align4(head.len), s[1..]);
        IsWalkCons(b, off, off + rem, s);
      }
    }
  }

  lemma IsWalkCons(b: bytes, off: nat, limit: int, s: seq<Slice>)
    requires limit <= |b|
    requires s != [] && s[0].off == off && Acceptable(b, limit, s[0])
    ensures IsWalk(b, off, limit, s) <==> IsWalk(b, s[0].End(), limit, s[1..])
  {
    hide U32LE, Align4, Aligned;
    var t, off' := s[1..], s[0].End();
    forall i | 0 <= i <= |t|
      ensures Cursor(off', t, i) == Cursor(off, s, i + 1)
    {}
    assert Cursor(off', t, |t|) == Cursor(off, s, |s|);
    if IsWalk(b, off, limit, s) {
      forall i | 0 <= i < |t|
        ensures t[i].off == Cursor(off', t, i) && Acceptable(b, limit, t[i])
      {
        assert s[i + 1].off == Cursor(off, s, i + 1);
      }
    }
    if IsWalk(b, off', limit, t) {
      forall i | 0 <= i < |s|
        ensures s[i].off == Cursor(off, s, i) && Acceptable(b, limit, s[i])
      {
        if i > 0 { assert t[i - 1].off == Cursor(off', t, i - 1); }
      }
    }
  }

  /** Every slice lies inside the buffer and starts at a 4-aligned distance from
      the first. */
  lemma {:induction false} WalkInBounds(b: bytes, off: nat, rem: int)
    requires off + rem <= |b|
    ensures forall x <- Walk(b, off, rem) ::
              NLMSG_HDRLEN <= x.len && off <= x.off && x.off + x.len <= off + rem && Aligned(x.off - off)
    decreases if rem < 0 then 0 else rem
  {
    assert Aligned(0);
    hide Aligned, U32LE;
    if NlmsgOk(b, off, rem) {
      var len := U32LE(b, off);
      var off', rem' := off + Align4(len), rem - Align4(len);
      WalkInBounds(b, off', rem');
      forall x <- Walk(b, off', rem') ensures Aligned(x.off - off) {
        AlignedSum(Align4(len), x.off - off');
      }
    }
  }

  /** Every slice ends, padding included, before any later one starts. */
  lemma {:induction false} WalkDisjoint(b: bytes, off: nat, rem: int, i: nat, j: nat)
    requires off + rem <= |b| && i < j < |Walk(b, off, rem)|
    ensures var s := Walk(b, off, rem); s[i].off + s[i].len <= s[i].End() <= s[j].off
    decreases i
  {
    var len := U32LE(b, off);
    var t := Walk(b, off + Align4(len), rem - Align4(len));
    assert Walk(b, off, rem) == [Slice(off, len)] + t;
    if i == 0 {
      WalkInBounds(b, off + Align4(len), rem - Align4(len));
      assert t[j - 1] in t;
    } else {
      WalkDisjoint(b, off + Align4(len), rem - Align4(len), i - 1, j - 1);
    }
  }

  /** The octets each callback of a walk is given. */
  function MessagesFrom(b: bytes, off: nat, rem: int): seq<bytes>
    requires off + rem <= |b|
    decreases if rem < 0 then 0 else rem
  {
    if NlmsgOk(b, off, rem) then
      var len := U32LE(b, off);
      [b[off..off + len]] + MessagesFrom(b, off + Align4(len), rem - Align4(len))
    else []
  }

  /** They are the slices of the walk, one callback each. */
  lemma {:induction false} MessagesAreSlices(b: bytes, off: nat, rem: int, i: nat)
    requires off + rem <= |b|
    ensures |MessagesFrom(b, off, rem)| == |Walk(b, off, rem)|
    ensures i < |Walk(b, off, rem)| ==>
              var x := Walk(b, off, rem)[i];
              x.off + x.len <= |b| && MessagesFrom(b, off, rem)[i] == b[x.off..x.off + x.len]
    decreases if rem < 0 then 0 else rem
  {
    hide U32LE, Align4, Aligned;
    if NlmsgOk(b, off, rem) {
      var len := U32LE(b, off);
      MessagesAreSlices(b, off + Align4(len), rem - Align4(len), if i == 0 then 0 else i - 1);
    }
  }

  /** nla_nlmsg_walk: the cursor and the signed remainder, until nlmsg_ok fails. */
  method NlmsgWalk(msg: array<byte>, start: nat, msgLen: int) returns (slices: seq<Slice>, msgs: seq<bytes>)
    requires start + msgLen <= msg.Length
    ensures slices == Walk(msg[..], start, msgLen)
    ensures msgs == MessagesFrom(msg[..], start, msgLen)
  {
    hide U32LE, Align4, Aligned;
    var nlmsghdr, received := start, msgLen;
    slices, msgs := [], [];
    while NlmsgOk(msg[..], nlmsghdr, received)
      invariant 0 <= nlmsghdr && nlmsghdr + received == start + msgLen
      invariant slices + Walk(msg[..], nlmsghdr, received) == Walk(msg[..], start, msgLen)
      invariant msgs + MessagesFrom(msg[..], nlmsghdr, received) == MessagesFrom(msg[..], start, msgLen)
      decreases if received < 0 then 0 else received
    {
      var len := U32LE(msg[..], nlmsghdr);
      slices := slices + [Slice(nlmsghdr, len)];
      msgs := msgs + [msg[nlmsghdr..nlmsghdr + len]];
      nlmsghdr, received := nlmsghdr + Align4(len), received - Align4(len);
    }
  }

  /** The messages found in a buffer that is exactly `b`. */
  function Messages(b: bytes): seq<bytes> {
    MessagesFrom(b, 0, |b|)
  }

  /** A walk over part of a buffer sees what a walk over a copy of that part sees. */
  lemma {:induction false} MessagesInPlace(b: bytes, lo: nat, hi: nat, off: nat, rem: int)
    requires lo <= hi <= |b| && off + rem <= hi - lo
    ensures MessagesFrom(b, lo + off, rem) == MessagesFrom(b[lo..hi], off, rem)
    decreases if rem < 0 then 0 else rem
  {
    hide U32LE, Align4, Aligned;
    var part := b[lo..hi];
    if rem >= NLMSG_HDRLEN {
      SameU32LE(b, lo, hi, off);
      var len := U32LE(part, off);
      assert NlmsgOk(part, off, rem) <==> NlmsgOk(b, lo + off, rem);
      if NlmsgOk(part, off, rem) {
        MessagesInPlace(b, lo, hi, off + Align4(len), rem - Align4(len));
        PartOfPart(b, lo, hi, off, off + len);
      }
    }
  }

  lemma PartOfPart(b: bytes, lo: nat, hi: nat, i: nat, j: nat)
    requires lo <= hi <= |b| && i <= j <= hi - lo
    ensures b[lo..hi][i..j] == b[lo + i..lo + j]
  {
    forall k | 0 <= k < j - i ensures b[lo..hi][i..j][k] == b[lo + i..lo + j][k] {}
  }

  lemma SameU32LE(b: bytes, lo: nat, hi: nat, off: nat)
    requires lo <= hi <= |b| && off + 4 <= hi - lo
    ensures U32LE(b[lo..hi], off) == U32LE(b, lo + off)
  {}

  /** One complete message: the length field says how long the buffer is. */
  predicate IsMessage(m: bytes) {
    |m| >= NLMSG_HDRLEN && U32LE(m, 0) == |m| && Aligned(|m|)
  }

  // ----- messages of any length, each with its padding ------------------

  /** A message that says its own length, which need not be a multiple of 4. */
  predicate IsUnpadded(m: bytes) {
    |m| >= 16 && U32LE(m, 0) == |m|
  }

  ghost predicate AllUnpadded(ms: seq<bytes>) {
    forall i :: 0 <= i < |ms| ==> IsUnpadded(ms[i])
  }

  /** Up to 3 octets, whatever they are, that make up a multiple of 4. */
  predicate IsPadding(m: bytes, pad: bytes) {
    |pad| < 4 && (|m| + |pad|) % 4 == 0
  }

  ghost predicate AllPadding(ms: seq<bytes>, pads: seq<bytes>) {
    |ms| == |pads| && forall i :: 0 <= i < |ms| ==> IsPadding(ms[i], pads[i])
  }

  /** The messages one after another, each followed by its padding. */
  function Padded(ms: seq<bytes>, pads: seq<bytes>): bytes
    requires |ms| == |pads|
  {
    if ms == [] then [] else ms[0] + pads[0] + Padded(ms[1..], pads[1..])
  }

  /** Octets at which a walk ends: too few for a header, or a length in it that is
      less than a header's or more than there is. */
  predicate EndsWalk(tail: bytes) {
    |tail| < 16 || U32LE(tail, 0) < 16 || U32LE(tail, 0) > |tail|
  }

  /** A walk finds every message, of whatever length, behind its predecessor's
      padding, and nothing else; it ends where the next header is no good, or after
      the last message, whose padding may be cut short. */
  lemma {:induction false} MessagesOfPadded(ms: seq<bytes>, pads: seq<bytes>, tail: bytes)
    requires AllUnpadded(ms) && AllPadding(ms, pads) && EndsWalk(tail)
    ensures Messages(Padded(ms, pads) + tail) == ms
    decreases |ms|
  {
    if ms == [] {
      assert [] + tail == tail;
    } else {
      hide U32LE, MessagesFrom, IsPadding;
      var more := Padded(ms[1..], pads[1..]) + tail;
      assert Padded(ms, pads) + tail == ms[0] + pads[0] + more;
      MessagesOfPadded(ms[1..], pads[1..], tail);
      assert IsPadding(ms[0], pads[0]);
      MessagesCons(ms[0], pads[0], more);
      assert [ms[0]] + ms[1..] == ms;
    }
  }

  lemma MessagesCons(m: bytes, pad: bytes, more: bytes)
    requires IsUnpadded(m) && IsPadding(m, pad)
    ensures Messages(m + pad + more) == [m] + Messages(more)
  {
    hide IsPadding, MessagesFrom, Align4, U32LE, Aligned;
    var front := m + pad;
    var b, n := front + more, |front|;
    PaddingIsAlign(m, pad);
    assert b[n..|b|] == b[n..] == more;
    assert b[0..|m|] == front[..|m|] == m;
    SameU32LE(b, 0, |m|, 0);
    MessagesInPlace(b, n, |b|, 0, |more|);
    FirstMessage(b, |m|);
  }

  lemma FirstMessage(b: bytes, len: nat)
    requires 16 <= len <= |b| && U32LE(b, 0) == len
    ensures Messages(b) == [b[0..len]] + MessagesFrom(b, Align4(len), |b| - Align4(len))
  {
    hide Align4, U32LE, Aligned;
  }

  lemma PaddingIsAlign(m: bytes, pad: bytes)
    requires IsPadding(m, pad)
    ensures Align4(|m|) == |m| + |pad|
  {}

  /** The last message's padding may be missing, in whole or in part. */
  lemma LastUnpadded(ms: seq<bytes>, pads: seq<bytes>, m: bytes, part: bytes)
    requires AllUnpadded(ms) && AllPadding(ms, pads) && IsUnpadded(m) && |part| < 4
    ensures Messages(Padded(ms, pads) + m + part) == ms + [m]
    decreases |ms|
  {
    if ms == [] {
      hide U32LE;
      assert [] + m + part == m + part && [] + [m] == [m];
      var b := m + part;
      assert b[0..|m|] == m;
      SameU32LE(b, 0, |m|, 0);
      FirstMessage(b, |m|);
      assert MessagesFrom(b, Align4(|m|), |b| - Align4(|m|)) == [];
    } else {
      hide U32LE, MessagesFrom, IsPadding;
      var more := Padded(ms[1..], pads[1..]) + m + part;
      assert Padded(ms, pads) + m + part == ms[0] + pads[0] + more;
      LastUnpadded(ms[1..], pads[1..], m, part);
      assert IsPadding(ms[0], pads[0]);
      MessagesCons(ms[0], pads[0], more);
      assert [ms[0]] + (ms[1..] + [m]) == ms + [m];
    }
  }

  lemma MessagesOfOne(m: bytes)
    requires IsMessage(m)
    ensures Messages(m) == [m]
  {
    LastUnpadded([], [], m, []);
    assert Padded([], []) + m + [] == m;
  }

  // ----- attributes -----------------------------------------------------

  /** nla_ok on the attribute region `r`. */
  predicate NlaOk(r: bytes) {
    |r| >= NLA_HDRLEN && NLA_HDRLEN <= U16LE(r, 0) <= |r|
  }

  function NlaType(a: bytes): nat
    requires |a| >= NLA_HDRLEN
  {
    U16LE(a, 2) % NLA_TYPES
  }

  /** The two flag bits at the top of the type field do not count. */
  lemma NlaTypeOctets(a: bytes)
    requires |a| >= NLA_HDRLEN
    ensures NlaType(a) == a[2] as int + 0x100 * (a[3] as int % 0x40)
  {
    assert a[3] as int == 0x40 * (a[3] as int / 0x40) + a[3] as int % 0x40;
  }

  /** nla_total_size(nla_len(a)), which is also how far nla_next moves. */
  function NlaSize(r: bytes): (n: nat)
    requires NlaOk(r)
    ensures U16LE(r, 0) <= n < U16LE(r, 0) + ALIGNTO && Aligned(n)
  {
    Align4(U16LE(r, 0))
  }

  /** nlmsg_find_attr: the offset in `r` of the first attribute of type `t`. */
  function FindAttr(r: bytes, t: int): Option<nat> {
    if !NlaOk(r) then None
    else if NlaType(r) == t then Some(0)
    else if NlaSize(r) > |r| then None
    else match FindAttr(r[NlaSize(r)..], t)
      case None => None
      case Some(off) => Some(NlaSize(r) + off)
  }

  /** An attribute region: the attributes, padding included, and whatever is left
      where no further attribute can be read. */
  datatype Region = Region(attrs: seq<bytes>, tail: bytes) {
    function Encode(): bytes { Flatten(attrs) + tail }
  }

  function Decode(r: bytes): Region {
    if NlaOk(r) && NlaSize(r) <= |r| then
      var rest := Decode(r[NlaSize(r)..]);
      Region([r[..NlaSize(r)]] + rest.attrs, rest.tail)
    else Region([], r)
  }

  /** An attribute with its padding: what Decode puts in a list. */
  predicate IsAttr(a: bytes) {
    NlaOk(a) && NlaSize(a) == |a|
  }

  predicate AllAttrs(attrs: seq<bytes>) {
    forall i :: 0 <= i < |attrs| ==> IsAttr(attrs[i])
  }

  predicate IsRegion(d: Region) {
    AllAttrs(d.attrs) && (NlaOk(d.tail) ==> NlaSize(d.tail) > |d.tail|)
  }

  lemma {:induction false} DecodeIsRegion(r: bytes)
    ensures IsRegion(Decode(r)) && Decode(r).Encode() == r
  {
    if NlaOk(r) && NlaSize(r) <= |r| {
      var n := NlaSize(r);
      DecodeIsRegion(r[n..]);
      var rest := Decode(r[n..]);
      assert Decode(r).attrs[1..] == rest.attrs;
      assert r == r[..n] + r[n..];
    }
  }

  /** An attribute is read the same whatever follows it. */
  lemma NlaPrefix(a: bytes, more: bytes)
    requires IsAttr(a)
    ensures NlaOk(a + more) && NlaSize(a + more) == |a| && NlaType(a + more) == NlaType(a)
    ensures (a + more)[..|a|] == a && (a + more)[|a|..] == more
  {
    assert forall i :: 0 <= i < 4 ==> (a + more)[i] == a[i];
  }

  lemma DecodeCons(a: bytes, more: bytes)
    requires IsAttr(a)
    ensures Decode(a + more) == Region([a] + Decode(more).attrs, Decode(more).tail)
  {
    NlaPrefix(a, more);
  }

  lemma {:induction false} DecodeEncode(d: Region)
    requires IsRegion(d)
    ensures Decode(d.Encode()) == d
    decreases |d.attrs|
  {
    if d.attrs != [] {
      var a, rest := d.attrs[0], Region(d.attrs[1..], d.tail);
      assert IsAttr(a);
      assert d.Encode() == a + rest.Encode();
      DecodeEncode(rest);
      DecodeCons(a, rest.Encode());
    }
  }
}
