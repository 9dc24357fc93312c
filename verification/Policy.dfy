/** The per-module policy: filters, set-actions and attribute stripping done in
    place on the octets of a route message. */
module Policy {
  import opened Bytes
  import opened Netlink
  import opened Event

  // Where in a message the `rtmsg` fields are that a policy looks at (section
  // 3.1.1 of RFC 3549).
  const FAMILY: nat := NLMSG_HDRLEN
  const TABLE: nat := NLMSG_HDRLEN + 4
  const PROTOCOL: nat := NLMSG_HDRLEN + 5

  /** The entries of each list, in the order configured. */
  datatype Policy = Policy(filterFamily: seq<int>, filterTable: seq<int>, filterProtocol: seq<int>,
                           setTable: seq<int>, setProtocol: seq<int>, stripRtattr: seq<int>)

  const NO_POLICY: Policy := Policy([], [], [], [], [], [])

  /** A route message: an aligned netlink message with room for `rtmsg`. */
  predicate IsRoute(m: bytes) {
    IsMessage(m) && |m| >= ATTRS
  }

  function Attrs(m: bytes): (attrs: seq<bytes>)
    requires |m| >= ATTRS
    ensures AllAttrs(attrs)
  {
    DecodeIsRegion(m[ATTRS..]);
    Decode(m[ATTRS..]).attrs
  }

  // ----- stripping, as a filter ------------------------------------------

  /** The attributes whose type is not in `ts`, in their order. */
  function Keep(attrs: seq<bytes>, ts: set<int>): seq<bytes>
    requires AllAttrs(attrs)
  {
    if attrs == [] then []
    else (if NlaType(attrs[0]) in ts then [] else [attrs[0]]) + Keep(attrs[1..], ts)
  }

  /** How many octets the attributes with a type in `ts` take, padding included. */
  function Removed(attrs: seq<bytes>, ts: set<int>): nat
    requires AllAttrs(attrs)
  {
    if attrs == [] then 0
    else (if NlaType(attrs[0]) in ts then |attrs[0]| else 0) + Removed(attrs[1..], ts)
  }

  /** Decode, drop the attributes with a type in `ts`, encode again. */
  function Strip(r: bytes, ts: set<int>): bytes {
    DecodeIsRegion(r);
    Region(Keep(Decode(r).attrs, ts), Decode(r).tail).Encode()
  }

  lemma {:induction false} KeepIsRegion(attrs: seq<bytes>, ts: set<int>)
    requires AllAttrs(attrs)
    ensures AllAttrs(Keep(attrs, ts))
  {
    if attrs != [] { KeepIsRegion(attrs[1..], ts); }
  }

  lemma {:induction false} KeepKeep(attrs: seq<bytes>, ts: set<int>, us: set<int>)
    requires AllAttrs(attrs)
    ensures AllAttrs(Keep(attrs, ts))
    ensures Keep(Keep(attrs, ts), us) == Keep(attrs, ts + us)
  {
    KeepIsRegion(attrs, ts);
    if attrs != [] {
      KeepKeep(attrs[1..], ts, us);
      var rest := Keep(attrs[1..], ts);
      if NlaType(attrs[0]) in ts {
        assert Keep(attrs, ts) == rest;
      } else {
        assert Keep(attrs, ts) == [attrs[0]] + rest;
        assert ([attrs[0]] + rest)[1..] == rest;
      }
    }
  }

  /** Stripping is filtering: the survivors keep their order and their octets,
      and octets that decode to no attribute stay where they are. */
  lemma StripIsFilter(r: bytes, ts: set<int>)
    ensures IsRegion(Decode(r))
    ensures Decode(Strip(r, ts)) == Region(Keep(Decode(r).attrs, ts), Decode(r).tail)
  {
    DecodeIsRegion(r);
    KeepIsRegion(Decode(r).attrs, ts);
    DecodeEncode(Region(Keep(Decode(r).attrs, ts), Decode(r).tail));
  }

  /** One strip after another is one strip of all the types: neither the order
      of the types nor their repetition matters. */
  lemma StripStrip(r: bytes, ts: set<int>, us: set<int>)
    ensures Strip(Strip(r, ts), us) == Strip(r, ts + us)
  {
    StripIsFilter(r, ts);
    KeepKeep(Decode(r).attrs, ts, us);
  }

  lemma {:induction false} KeepLength(attrs: seq<bytes>, ts: set<int>)
    requires AllAttrs(attrs)
    ensures |Flatten(Keep(attrs, ts))| + Removed(attrs, ts) == |Flatten(attrs)|
  {
    if attrs != [] {
      var rest := Keep(attrs[1..], ts);
      KeepLength(attrs[1..], ts);
      if NlaType(attrs[0]) !in ts {
        assert Keep(attrs, ts) == [attrs[0]] + rest && Keep(attrs, ts)[1..] == rest;
      } else {
        assert Keep(attrs, ts) == rest;
      }
    }
  }

  lemma {:induction false} RemovedAligned(attrs: seq<bytes>, ts: set<int>)
    requires AllAttrs(attrs)
    ensures Aligned(Removed(attrs, ts))
  {
    if attrs != [] {
      hide Aligned;
      RemovedAligned(attrs[1..], ts);
      assert |attrs[0]| == NlaSize(attrs[0]);
      AlignedSum(|attrs[0]|, Removed(attrs[1..], ts));
    }
  }

  /** The length falls by exactly the sizes of what was removed, and stays a
      multiple of four if it was one. */
  lemma StripLength(r: bytes, ts: set<int>)
    ensures IsRegion(Decode(r))
    ensures |Strip(r, ts)| + Removed(Decode(r).attrs, ts) == |r|
    ensures Aligned(Removed(Decode(r).attrs, ts))
    ensures Aligned(|Strip(r, ts)|) <==> Aligned(|r|)
  {
    hide Decode, AllAttrs, Keep, Removed, Flatten, Aligned, NlaOk, NlaSize;
    DecodeIsRegion(r);
    KeepLength(Decode(r).attrs, ts);
    RemovedAligned(Decode(r).attrs, ts);
    AlignedSum(Removed(Decode(r).attrs, ts), |Strip(r, ts)|);
  }

  // ----- cutting one attribute out ----------------------------------------

  /** There is a whole attribute, padding included, at `off`. */
  predicate AttrAt(r: bytes, off: nat) {
    off <= |r| && NlaOk(r[off..]) && off + NlaSize(r[off..]) <= |r|
  }

  /** The region once the attribute at `off` has been slid over. */
  function Cut(r: bytes, off: nat): bytes
    requires AttrAt(r, off)
  {
    r[..off] + r[off + NlaSize(r[off..])..]
  }

  lemma CutHead(a: bytes, rest: bytes)
    requires IsAttr(a)
    ensures AttrAt(a + rest, 0) && Cut(a + rest, 0) == rest
  {
    NlaPrefix(a, rest);
    hide NlaOk, NlaSize;
    assert (a + rest)[0..] == a + rest;
    assert (a + rest)[..0] + rest == rest;
  }

  lemma CutBehind(a: bytes, rest: bytes, off: nat)
    requires AttrAt(rest, off)
    ensures AttrAt(a + rest, |a| + off) && Cut(a + rest, |a| + off) == a + Cut(rest, off)
  {
    hide NlaOk, NlaSize;
    var n := NlaSize(rest[off..]);
    assert (a + rest)[|a| + off..] == rest[off..];
    assert (a + rest)[|a| + off + n..] == rest[off + n..];
    assert a + rest[..off] + rest[off + n..] == a + Cut(rest, off);
  }

  /** What does not decode ends with an attribute of type `t`, whose padding, if
      nothing else, is missing. */
  predicate TailIs(r: bytes, t: int) {
    NlaOk(Decode(r).tail) && NlaType(Decode(r).tail) == t
  }

  /** What CutFound says of a region: if no attribute of type `t` is found, it is
      stripped already; if a padded one is, sliding it over leaves the same filtered
      region; and an unpadded one is found only when it is the last and the only. */
  ghost predicate Filterable(r: bytes, t: int) {
    match FindAttr(r, t)
    case None => Strip(r, {t}) == r && !TailIs(r, t)
    case Some(off) =>
      if AttrAt(r, off)
      then Strip(Cut(r, off), {t}) == Strip(r, {t}) && Decode(Cut(r, off)).tail == Decode(r).tail
      else Strip(r, {t}) == r && TailIs(r, t) && off + |Decode(r).tail| == |r|
  }

  lemma {:induction false} CutFound(r: bytes, t: int)
    ensures Filterable(r, t)
    decreases |r|
  {
    if NlaOk(r) && NlaSize(r) <= |r| {
      var n := NlaSize(r);
      var a, rest := r[..n], r[n..];
      assert r == a + rest && IsAttr(a);
      NlaPrefix(a, rest);
      hide *;
      if NlaType(a) == t {
        CutFoundFirst(a, rest, t);
      } else {
        CutFound(rest, t);
        CutFoundLater(a, rest, t);
      }
    } else {
      assert r[0..] == r && [] + r == r;
    }
  }

  lemma FindCons(a: bytes, rest: bytes, t: int)
    requires IsAttr(a)
    ensures FindAttr(a + rest, t) ==
            if NlaType(a) == t then Some(0)
            else match FindAttr(rest, t)
              case None => None
              case Some(off) => Some(|a| + off)
  {
    NlaPrefix(a, rest);
    hide NlaOk, NlaSize, NlaType;
  }

  lemma CutFoundFirst(a: bytes, rest: bytes, t: int)
    requires IsAttr(a) && NlaType(a) == t
    ensures Filterable(a + rest, t)
  {
    StripCons(a, rest, {t});
    FindCons(a, rest, t);
    CutHead(a, rest);
    DecodeCons(a, rest);
    hide Decode, FindAttr, Strip, NlaType, NlaOk, IsAttr, AttrAt;
    assert [] + Strip(rest, {t}) == Strip(rest, {t});
  }

  lemma CutFoundLater(a: bytes, rest: bytes, t: int)
    requires IsAttr(a) && NlaType(a) != t && Filterable(rest, t)
    ensures Filterable(a + rest, t)
  {
    hide Strip, Cut, AttrAt, FindAttr, NlaType, NlaOk, NlaSize, IsAttr, Decode;
    StripCons(a, rest, {t});
    FindCons(a, rest, t);
    DecodeCons(a, rest);
    if FindAttr(rest, t).Some? {
      var off := FindAttr(rest, t).value;
      if AttrAt(rest, off) {
        CutBehind(a, rest, off);
        StripCons(a, Cut(rest, off), {t});
        DecodeCons(a, Cut(rest, off));
      } else {
        NotAttrBehind(a, rest, off);
      }
    }
  }

  lemma NotAttrBehind(a: bytes, rest: bytes, off: nat)
    requires !AttrAt(rest, off) && off <= |rest|
    ensures !AttrAt(a + rest, |a| + off)
  {
    assert (a + rest)[|a| + off..] == rest[off..];
  }

  lemma StripCons(a: bytes, rest: bytes, ts: set<int>)
    requires IsAttr(a)
    ensures Strip(a + rest, ts) == (if NlaType(a) in ts then [] else a) + Strip(rest, ts)
  {
    DecodeIsRegion(a + rest);
    DecodeIsRegion(rest);
    hide Decode, NlaSize, NlaType, U16LE, Keep, Flatten;
    DecodeCons(a, rest);
    var d := Decode(rest);
    KeepCons(a, d.attrs, ts);
    var kept := Keep(d.attrs, ts);
    if NlaType(a) in ts {
      assert [] + Strip(rest, ts) == Strip(rest, ts);
    } else {
      FlattenCons(a, kept);
      assert a + Flatten(kept) + d.tail == a + Strip(rest, ts);
    }
  }

  lemma KeepCons(a: bytes, attrs: seq<bytes>, ts: set<int>)
    requires IsAttr(a) && AllAttrs(attrs)
    ensures AllAttrs([a] + attrs)
    ensures Keep([a] + attrs, ts) == if NlaType(a) in ts then Keep(attrs, ts) else [a] + Keep(attrs, ts)
  {
    assert ([a] + attrs)[1..] == attrs;
    if NlaType(a) in ts { assert [] + Keep(attrs, ts) == Keep(attrs, ts); }
  }

  lemma FlattenCons(x: bytes, xs: seq<bytes>)
    ensures Flatten([x] + xs) == x + Flatten(xs)
  {
    assert ([x] + xs)[1..] == xs;
  }

  /** The message with its attribute region replaced and its length restated. */
  function WithAttrs(m: bytes, r: bytes): (w: bytes)
    requires IsRoute(m) && |r| <= |m| - ATTRS
    ensures |w| == ATTRS + |r| && U32LE(w, 0) == |w|
    ensures w[4..ATTRS] == m[4..ATTRS] && w[ATTRS..] == r
  {
    PutU32LE(ATTRS + |r|) + m[4..ATTRS] + r
  }

  /** The message without its attributes of a type in `ts`. */
  function StripMsg(m: bytes, ts: set<int>): (w: bytes)
    requires IsRoute(m)
    ensures IsRoute(w) && |w| <= |m|
  {
    var r := m[ATTRS..];
    StripLength(r, ts);
    AlignedSum(ATTRS, |r|);
    AlignedSum(ATTRS, |Strip(r, ts)|);
    WithAttrs(m, Strip(r, ts))
  }

  /** What is left of a stripped message: everything but the length field in the
      headers, the kept attributes, and any undecodable tail; the length fell by
      the sizes of the attributes removed. */
  lemma StripMsgMeaning(m: bytes, ts: set<int>)
    requires IsRoute(m)
    ensures var w := StripMsg(m, ts);
            && w[4..ATTRS] == m[4..ATTRS]
            && |w| + Removed(Attrs(m), ts) == |m|
            && Decode(w[ATTRS..]) == Region(Keep(Attrs(m), ts), Decode(m[ATTRS..]).tail)
  {
    StripLength(m[ATTRS..], ts);
    StripIsFilter(m[ATTRS..], ts);
  }

  lemma WithAttrsTwice(m: bytes, r: bytes, s: bytes)
    requires IsRoute(m) && |s| <= |r| <= |m| - ATTRS && Aligned(|r|)
    ensures IsRoute(WithAttrs(m, r)) && WithAttrs(WithAttrs(m, r), s) == WithAttrs(m, s)
  {
    AlignedSum(ATTRS, |r|);
  }

  lemma WithOwnAttrs(m: bytes)
    requires IsRoute(m)
    ensures WithAttrs(m, m[ATTRS..]) == m
  {
    PutU32LEInverse(m);
  }

  // ----- one round of the program's loop, on any message ------------------------

  /** A message that says its own length, whatever that is. */
  predicate SaysOwnLength(m: bytes) {
    |m| >= 4 && U32LE(m, 0) == |m|
  }

  /** One with room for `rtmsg`; its length need not be a multiple of 4. */
  predicate SaysLength(m: bytes) {
    SaysOwnLength(m) && |m| >= ATTRS
  }

  /** An attribute starts at `off`; its padding may be missing. */
  predicate StartsAt(r: bytes, off: nat) {
    off <= |r| && NlaOk(r[off..]) && Aligned(off)
  }

  lemma {:induction false} FoundAttr(r: bytes, t: int)
    ensures FindAttr(r, t).Some? ==> StartsAt(r, FindAttr(r, t).value)
    decreases |r|
  {
    if NlaOk(r) && NlaSize(r) <= |r| {
      FrontIsAttr(r);
      var a, rest := r[..NlaSize(r)], r[NlaSize(r)..];
      assert r == a + rest;
      FoundAttr(rest, t);
      hide *;
      FindCons(a, rest, t);
      if NlaType(a) == t {
        StartsFirst(a, rest);
      } else if FindAttr(rest, t).Some? {
        StartsBehind(a, rest, FindAttr(rest, t).value);
      }
    } else {
      assert r[0..] == r;
    }
  }

  lemma StartsFirst(a: bytes, rest: bytes)
    requires IsAttr(a)
    ensures StartsAt(a + rest, 0)
  {
    NlaPrefix(a, rest);
    assert (a + rest)[0..] == a + rest;
  }

  lemma StartsBehind(a: bytes, rest: bytes, off: nat)
    requires IsAttr(a) && StartsAt(rest, off)
    ensures StartsAt(a + rest, |a| + off)
  {
    AlignedSum(|a|, off);
    hide Aligned, NlaOk, NlaSize;
    assert (a + rest)[|a| + off..] == rest[off..];
  }

  lemma FrontIsAttr(r: bytes)
    requires NlaOk(r) && NlaSize(r) <= |r|
    ensures IsAttr(r[..NlaSize(r)]) && NlaType(r[..NlaSize(r)]) == NlaType(r)
  {}

  /** How many octets of its padding the attribute at `off` lacks. */
  function Lacking(r: bytes, off: nat): (d: nat)
    requires StartsAt(r, off)
    ensures d < ALIGNTO && (d == 0 <==> AttrAt(r, off))
  {
    var end := off + NlaSize(r[off..]);
    if end <= |r| then 0 else end - |r|
  }

  /** What a round makes of a message in which an attribute is found at `off`: the
      rest moves down over it, and its padded size is taken off the length. */
  function Round(m: bytes, off: nat): bytes
    requires SaysLength(m) && StartsAt(m[ATTRS..], off)
  {
    Slide(m, |m|, ATTRS + off, NlaSize(m[ATTRS..][off..]))
  }

  lemma SlideParts(m: bytes, off: nat, n: nat)
    requires ATTRS + off <= |m| < 0x1_0000_0000 && 4 + n <= |m|
    ensures var r, w := m[ATTRS..], Slide(m, |m|, ATTRS + off, n);
            && U32LE(w, 0) == |w|
            && (|w| >= ATTRS ==> w[4..ATTRS] == m[4..ATTRS])
            && (|w| >= ATTRS ==> w[ATTRS..] == if off + n <= |r| then r[..off] + r[off + n..] else r[..|r| - n])
  {
    var h, w := PutU32LE(|m| - n), Slide(m, |m|, ATTRS + off, n);
    hide PutU32LE, Aligned;
    assert forall i :: 0 <= i < 4 ==> w[i] == h[i];
    var tail := if ATTRS + off + n <= |m| then m[4..ATTRS + off] + m[ATTRS + off + n..] else m[4..|m| - n];
    assert w == h + tail && |h| == 4;
    if |w| >= ATTRS {
      assert w[4..ATTRS] == tail[..ATTRS - 4] && w[ATTRS..] == tail[ATTRS - 4..];
      assert tail[..ATTRS - 4] == m[4..][..ATTRS - 4] by {
        if ATTRS + off + n <= |m| { assert tail[..ATTRS - 4] == m[4..ATTRS + off][..ATTRS - 4]; }
      }
    }
  }

  /** Of any message: a round cuts out the attribute and nothing else if its
      padding is there, as it is in an aligned message. If d octets of it are
      lacking, the d octets in front of the attribute are lost as well, and
      if there is nothing in front of it but the headers, the length no longer
      covers these. */
  lemma RoundMeaning(m: bytes, t: int, off: nat)
    requires SaysLength(m) && FindAttr(m[ATTRS..], t) == Some(off)
    ensures StartsAt(m[ATTRS..], off)
    ensures var r, w := m[ATTRS..], Round(m, off);
            var d := Lacking(r, off);
            && U32LE(w, 0) == |w| == |m| - NlaSize(r[off..]) < |m|
            && (|w| >= ATTRS ==> w[4..ATTRS] == m[4..ATTRS])
            && (if d == 0 then |w| >= ATTRS && w[ATTRS..] == Cut(r, off)
                else if off > 0 then |w| >= ATTRS && w[ATTRS..] == r[..off - d]
                else |w| == ATTRS - d)
            && (Aligned(|m|) ==> d == 0)
  {
    hide Round, Cut, NlaOk, NlaSize, FindAttr, U32LE, AttrAt, Aligned;
    var r := m[ATTRS..];
    FoundAttr(r, t);
    RoundParts(m, off);
    if Aligned(|m|) {
      AlignedSum(ATTRS, |r|);
      AlignedLacksNothing(r, t, off);
    }
  }

  lemma RoundParts(m: bytes, off: nat)
    requires SaysLength(m) && StartsAt(m[ATTRS..], off)
    ensures var r, w := m[ATTRS..], Round(m, off);
            var d := Lacking(r, off);
            && U32LE(w, 0) == |w| == |m| - NlaSize(r[off..]) < |m|
            && (|w| >= ATTRS ==> w[4..ATTRS] == m[4..ATTRS])
            && (if d == 0 then |w| >= ATTRS && w[ATTRS..] == Cut(r, off)
                else if off > 0 then |w| >= ATTRS && w[ATTRS..] == r[..off - d]
                else |w| == ATTRS - d)
  {
    var r := m[ATTRS..];
    hide Slide, U32LE;
    SlideParts(m, off, NlaSize(r[off..]));
  }

  lemma AlignedLacksNothing(r: bytes, t: int, off: nat)
    requires FindAttr(r, t) == Some(off) && Aligned(|r|)
    ensures AttrAt(r, off)
  {
    hide Strip, FindAttr, AttrAt, Aligned, Decode;
    CutFound(r, t);
    AlignedTail(r);
  }

  lemma {:induction false} FlattenAligned(attrs: seq<bytes>)
    requires AllAttrs(attrs)
    ensures Aligned(|Flatten(attrs)|)
  {
    if attrs != [] {
      hide Aligned;
      FlattenAligned(attrs[1..]);
      assert |attrs[0]| == NlaSize(attrs[0]);
      AlignedSum(|attrs[0]|, |Flatten(attrs[1..])|);
    }
  }

  /** In an aligned region no attribute lacks its padding. */
  lemma AlignedTail(r: bytes)
    requires Aligned(|r|)
    ensures !NlaOk(Decode(r).tail)
  {
    hide Decode, AllAttrs, Aligned, NlaOk, NlaSize, Flatten;
    DecodeIsRegion(r);
    var d := Decode(r);
    FlattenAligned(d.attrs);
    AlignedSum(|Flatten(d.attrs)|, |d.tail|);
    if NlaOk(d.tail) { AlignedIsPadded(d.tail); }
  }

  lemma AlignedIsPadded(a: bytes)
    requires NlaOk(a) && Aligned(|a|)
    ensures NlaSize(a) <= |a|
  {
    Align4Least(U16LE(a, 0), |a|);
  }

  /** The attribute in front of an unpadded one that has been taken out is found
      afterwards exactly when it has as much padding of its own to lose; those
      further in front always are. */
  lemma NeighbourExact(r: bytes, t: int, off: nat, u: int, o: nat)
    requires FindAttr(r, t) == Some(off) && FindAttr(r, u) == Some(o) && o < off
    requires StartsAt(r, off) && StartsAt(r, o) && !AttrAt(r, off)
    ensures var d := Lacking(r, off);
            && o + NlaSize(r[o..]) <= off
            && (FindAttr(r[..off - d], u) == Some(o) <==>
                  o + NlaSize(r[o..]) < off || NlaSize(r[o..]) - U16LE(r[o..], 0) >= d)
  {
    hide NlaOk, NlaSize, FindAttr, U16LE;
    KeptExact(r, t, off, u, o, Lacking(r, off));
  }

  ghost predicate KeptIfPadded(r: bytes, off: nat, u: int, o: nat, d: nat)
    requires d <= off <= |r| && StartsAt(r, o)
  {
    && o + NlaSize(r[o..]) <= off
    && (FindAttr(r[..off - d], u) == Some(o) <==>
          o + NlaSize(r[o..]) < off || NlaSize(r[o..]) - U16LE(r[o..], 0) >= d)
  }

  lemma {:induction false} KeptExact(r: bytes, t: int, off: nat, u: int, o: nat, d: nat)
    requires FindAttr(r, t) == Some(off) && FindAttr(r, u) == Some(o) && o < off
    requires StartsAt(r, off) && StartsAt(r, o) && 0 < d < ALIGNTO
    ensures d <= off && KeptIfPadded(r, off, u, o, d)
    decreases |r|
  {
    hide *;
    SplitFront(r, t, off);
    var a, rest := r[..NlaSize(r)], r[NlaSize(r)..];
    FindCons(a, rest, u);
    if o == 0 {
      FirstKept(a, rest, u, off, d);
    } else {
      FoundAttr(rest, u);
      KeptExact(rest, t, off - |a|, u, o - |a|, d);
      LaterKept(a, rest, u, off - |a|, o - |a|, d);
    }
  }

  lemma SplitFront(r: bytes, t: int, off: nat)
    requires FindAttr(r, t) == Some(off) && 0 < off
    ensures NlaOk(r) && NlaSize(r) <= |r|
    ensures var a, rest := r[..NlaSize(r)], r[NlaSize(r)..];
            && r == a + rest && IsAttr(a) && NlaType(a) != t && ALIGNTO <= |a| <= off
            && FindAttr(rest, t) == Some(off - |a|) && StartsAt(rest, off - |a|) && off <= |r|
  {
    FrontIsAttr(r);
    var a, rest := r[..NlaSize(r)], r[NlaSize(r)..];
    assert r == a + rest;
    FoundAttr(rest, t);
    hide NlaOk, NlaType, NlaSize, StartsAt, U16LE;
  }

  lemma FirstKept(a: bytes, rest: bytes, u: int, off: nat, d: nat)
    requires IsAttr(a) && NlaType(a) == u && 0 < off && StartsAt(a + rest, off) && |a| <= off && 0 < d < ALIGNTO
    ensures d <= off && StartsAt(a + rest, 0) && KeptIfPadded(a + rest, off, u, 0, d)
  {
    NlaPrefix(a, rest);
    assert (a + rest)[0..] == a + rest;
    if |a| < off {
      AlignedSum(|a|, off - |a|);
      assert (a + rest)[..off - d] == a + rest[..off - |a| - d];
      FindCons(a, rest[..off - |a| - d], u);
    } else {
      assert (a + rest)[..off - d] == a[..|a| - d];
    }
  }

  lemma LaterKept(a: bytes, rest: bytes, u: int, off: nat, o: nat, d: nat)
    requires IsAttr(a) && NlaType(a) != u && d <= off <= |rest| && StartsAt(rest, o)
    requires StartsAt(a + rest, |a| + o) && KeptIfPadded(rest, off, u, o, d)
    ensures KeptIfPadded(a + rest, |a| + off, u, |a| + o, d)
  {
    assert (a + rest)[|a| + o..] == rest[o..];
    assert (a + rest)[..|a| + off - d] == a + rest[..off - d];
    FindCons(a, rest[..off - d], u);
    hide FindAttr, NlaOk, NlaType, NlaSize, U16LE, Aligned;
  }

  // ----- all rounds, on any message -------------------------------------------

  /** The message when no attribute of the type is found any more, or when a round
      has taken so much off its length that it does not cover the headers. */
  function StripRounds(m: bytes, t: int): bytes
    requires SaysOwnLength(m)
    decreases |m|
  {
    if |m| < ATTRS then m
    else
      match FindAttr(m[ATTRS..], t)
      case None => m
      case Some(off) => RoundMeaning(m, t, off); StripRounds(Round(m, off), t)
  }

  /** The headers of `m` and the region `s`, cut to `n` octets, which the length
      field says. */
  function CutTo(m: bytes, s: bytes, n: nat): bytes
    requires |m| >= ATTRS && 4 <= n <= ATTRS + |s| && n < 0x1_0000_0000
  {
    PutU32LE(n) + (m[4..ATTRS] + s)[..n - 4]
  }

  /** By how much the length falls below that of the filtered message. */
  function Lost(r: bytes, t: int): (n: nat)
    ensures n == 0 <==> !TailIs(r, t)
    ensures n > 0 ==> |Decode(r).tail| < n < |Decode(r).tail| + ALIGNTO
  {
    DecodeIsRegion(r);
    if TailIs(r, t) then NlaSize(Decode(r).tail) else 0
  }

  lemma LostFits(m: bytes, t: int)
    requires SaysLength(m)
    ensures var r := m[ATTRS..]; 4 + Lost(r, t) <= ATTRS + |Strip(r, {t})| <= |m|
  {
    StripLength(m[ATTRS..], {t});
    DecodeIsRegion(m[ATTRS..]);
  }

  /** What the loop makes of any message: the filtered one, if its last attribute is
      not an unpadded one of the type. If it is, the padded size of that
      attribute, more than there is of it, is missing at the end. */
  ghost predicate Stripped(m: bytes, t: int)
    requires SaysLength(m)
  {
    var r := m[ATTRS..];
    && 4 + Lost(r, t) <= ATTRS + |Strip(r, {t})| <= |m|
    && StripRounds(m, t) == CutTo(m, Strip(r, {t}), ATTRS + |Strip(r, {t})| - Lost(r, t))
  }

  lemma {:induction false} StripRoundsMeaning(m: bytes, t: int)
    requires SaysLength(m)
    ensures Stripped(m, t)
    decreases |m|
  {
    hide Strip, Slide, Round, NlaOk, NlaType, Cut, CutTo, StripRounds, Stripped, Decode;
    var r := m[ATTRS..];
    CutFound(r, t);
    match FindAttr(r, t)
    case None => NothingFound(m, t);
    case Some(off) =>
      RoundMeaning(m, t, off);
      if AttrAt(r, off) {
        StripRoundsMeaning(Round(m, off), t);
        PaddedRound(m, t, off);
      } else {
        LastRound(m, t, off);
        LostFits(m, t);
        UnpaddedFound(m, t, off);
      }
  }

  lemma NothingFound(m: bytes, t: int)
    requires SaysLength(m) && FindAttr(m[ATTRS..], t) == None && Filterable(m[ATTRS..], t)
    ensures Stripped(m, t)
  {
    LostFits(m, t);
    hide Strip, FindAttr, CutTo;
    CutToOwn(m);
  }

  lemma PaddedRound(m: bytes, t: int, off: nat)
    requires SaysLength(m) && FindAttr(m[ATTRS..], t) == Some(off) && Filterable(m[ATTRS..], t)
    requires StartsAt(m[ATTRS..], off) && AttrAt(m[ATTRS..], off)
    requires SaysLength(Round(m, off)) && Round(m, off)[4..ATTRS] == m[4..ATTRS]
    requires Round(m, off)[ATTRS..] == Cut(m[ATTRS..], off) && Stripped(Round(m, off), t)
    ensures Stripped(m, t)
  {
    LostFits(m, t);
    hide Strip, FindAttr, CutTo, Round, Cut, Decode;
    var r, w := m[ATTRS..], Round(m, off);
    assert Lost(w[ATTRS..], t) == Lost(r, t);
    SameCutTo(m, w, Strip(r, {t}), ATTRS + |Strip(r, {t})| - Lost(r, t));
  }

  lemma UnpaddedFound(m: bytes, t: int, off: nat)
    requires SaysLength(m) && FindAttr(m[ATTRS..], t) == Some(off) && Filterable(m[ATTRS..], t)
    requires StartsAt(m[ATTRS..], off) && !AttrAt(m[ATTRS..], off)
    requires 4 + NlaSize(m[ATTRS..][off..]) <= |m|
    requires StripRounds(m, t) == CutTo(m, m[ATTRS..], |m| - NlaSize(m[ATTRS..][off..]))
    ensures Stripped(m, t)
  {
    hide Strip, FindAttr, CutTo, StripRounds, Decode, U32LE, NlaType;
    LostFits(m, t);
    var r := m[ATTRS..];
    DecodeEndsWithTail(r);
    assert r[off..] == Decode(r).tail;
  }

  lemma DecodeEndsWithTail(r: bytes)
    ensures var tail := Decode(r).tail; |tail| <= |r| && r[|r| - |tail|..] == tail
  {
    DecodeIsRegion(r);
  }

  lemma CutToOwn(m: bytes)
    requires SaysLength(m)
    ensures CutTo(m, m[ATTRS..], |m|) == m
  {
    PutU32LEInverse(m);
    assert (m[4..ATTRS] + m[ATTRS..])[..|m| - 4] == m[4..];
  }

  lemma SameCutTo(m: bytes, w: bytes, s: bytes, n: nat)
    requires |m| >= ATTRS && |w| >= ATTRS && w[4..ATTRS] == m[4..ATTRS]
    requires 4 <= n <= ATTRS + |s| && n < 0x1_0000_0000
    ensures CutTo(m, s, n) == CutTo(w, s, n)
  {}

  /** The round for an unpadded attribute is the last. */
  lemma LastRound(m: bytes, t: int, off: nat)
    requires SaysLength(m) && FindAttr(m[ATTRS..], t) == Some(off) && StartsAt(m[ATTRS..], off)
    requires !AttrAt(m[ATTRS..], off)
    ensures var n := NlaSize(m[ATTRS..][off..]);
            4 + n <= |m| && StripRounds(m, t) == CutTo(m, m[ATTRS..], |m| - n)
  {
    var r := m[ATTRS..];
    RoundMeaning(m, t, off);
    RoundIsCutTo(m, off);
    hide Round, CutTo, NlaOk, NlaType, AttrAt, StartsAt;
    if off > 0 { NothingBefore(r, t, off, Lacking(r, off)); }
  }

  lemma RoundIsCutTo(m: bytes, off: nat)
    requires SaysLength(m) && StartsAt(m[ATTRS..], off) && !AttrAt(m[ATTRS..], off)
    ensures var n := NlaSize(m[ATTRS..][off..]);
            4 + n <= |m| && Round(m, off) == CutTo(m, m[ATTRS..], |m| - n)
  {
    var r, n := m[ATTRS..], NlaSize(m[ATTRS..][off..]);
    hide PutU32LE, NlaSize, NlaOk, U32LE;
    assert (m[4..ATTRS] + r)[..|m| - n - 4] == m[4..|m| - n];
  }

  /** Before the first attribute of the type there is none, nor in what is left
      of that when up to 3 octets are lost. */
  lemma {:induction false} NothingBefore(r: bytes, t: int, off: nat, d: nat)
    requires FindAttr(r, t) == Some(off) && 0 < off <= |r| && 0 < d < ALIGNTO
    ensures d <= off && FindAttr(r[..off - d], t) == None
    decreases |r|
  {
    hide *;
    SplitFront(r, t, off);
    var a, rest := r[..NlaSize(r)], r[NlaSize(r)..];
    if off == |a| {
      NothingInPart(a, t, d);
      assert (a + rest)[..off - d] == a[..|a| - d];
    } else {
      NothingBefore(rest, t, off - |a|, d);
      assert (a + rest)[..off - d] == a + rest[..off - |a| - d];
      FindCons(a, rest[..off - |a| - d], t);
    }
  }

  lemma NothingInPart(a: bytes, t: int, d: nat)
    requires IsAttr(a) && NlaType(a) != t && 0 < d < ALIGNTO
    ensures d <= |a| && FindAttr(a[..|a| - d], t) == None
  {
    var b := a[..|a| - d];
    if |b| >= NLA_HDRLEN { assert U16LE(b, 0) == U16LE(a, 0) && U16LE(b, 2) == U16LE(a, 2); }
  }

  /** The headers are those of `m`, and the region is `s`. */
  predicate HasRegion(w: bytes, m: bytes, s: bytes)
    requires |m| >= ATTRS
  {
    |w| >= ATTRS && U32LE(w, 0) == |w| && w[4..ATTRS] == m[4..ATTRS] && w[ATTRS..] == s
  }

  /** The filtered region, less an unpadded attribute of the type at its end. */
  function Wanted(r: bytes, t: int): bytes {
    var s := Strip(r, {t});
    StripLength(r, {t});
    DecodeIsRegion(r);
    if TailIs(r, t) then s[..|s| - |Decode(r).tail|] else s
  }

  /** On every message: the loop does what it should, whether or not an unpadded
      attribute is to be counted as one, exactly when the last attribute is not an
      unpadded one of the type. */
  lemma StripExact(m: bytes, t: int)
    requires SaysLength(m)
    ensures var r, w := m[ATTRS..], StripRounds(m, t);
            && (HasRegion(w, m, Wanted(r, t)) <==> !TailIs(r, t))
            && (HasRegion(w, m, Strip(r, {t})) <==> !TailIs(r, t))
  {
    hide Strip, StripRounds, TailIs, Decode, U32LE, PutU32LE, CutTo, NlaOk;
    StripRoundsMeaning(m, t);
    assert Stripped(m, t);
    var r := m[ATTRS..];
    var s, n := Strip(r, {t}), ATTRS + |Strip(r, {t})| - Lost(r, t);
    CutToParts(m, s, n);
  }

  lemma CutToParts(m: bytes, s: bytes, n: nat)
    requires |m| >= ATTRS && 4 <= n <= ATTRS + |s| && n < 0x1_0000_0000
    ensures var w := CutTo(m, s, n);
            && |w| == n && U32LE(w, 0) == n
            && (n >= ATTRS ==> w[4..ATTRS] == m[4..ATTRS] && w[ATTRS..] == s[..n - ATTRS])
  {
    var h, w := PutU32LE(n), CutTo(m, s, n);
    assert forall i :: 0 <= i < 4 ==> w[i] == h[i];
    hide PutU32LE, U32LE;
    if n >= ATTRS {
      assert w == h + m[4..ATTRS] + s[..n - ATTRS];
    }
  }

  /** On an aligned message it always does. */
  lemma RoundsOfRoute(m: bytes, t: int)
    requires IsRoute(m)
    ensures StripRounds(m, t) == StripMsg(m, {t})
  {
    var r := m[ATTRS..];
    StripRoundsMeaning(m, t);
    AlignedSum(ATTRS, |r|);
    AlignedTail(r);
    assert Stripped(m, t) && Lost(r, t) == 0;
    hide Strip, StripRounds, PutU32LE, Decode, CutTo, Stripped, Lost;
    CutToWhole(m, Strip(r, {t}));
  }

  lemma CutToWhole(m: bytes, s: bytes)
    requires |m| >= ATTRS && ATTRS + |s| < 0x1_0000_0000
    ensures CutTo(m, s, ATTRS + |s|) == PutU32LE(ATTRS + |s|) + m[4..ATTRS] + s
  {
    hide PutU32LE;
    assert (m[4..ATTRS] + s)[..ATTRS + |s| - 4] == m[4..ATTRS] + s;
  }

  /** A message with two attributes, of types 5 and 7, the second unpadded: when
      type 7 has been stripped, type 5 is not found any more either. */
  const UNPADDED: bytes :=
    PutU32LE(41) + seq(24, _ => 0) + [8, 0, 5, 0, 1, 2, 3, 4, 5, 0, 7, 0, 9]

  lemma UnpaddedLosesNeighbour()
    ensures SaysLength(UNPADDED) && FindAttr(UNPADDED[ATTRS..], 5) == Some(0)
    ensures var w := StripRounds(UNPADDED, 7);
            |w| == ATTRS + 5 && U32LE(w, 0) == |w| && FindAttr(w[ATTRS..], 5) == None
  {
    var r := UNPADDED[ATTRS..];
    assert r == [8, 0, 5, 0, 1, 2, 3, 4, 5, 0, 7, 0, 9];
    var s := r[8..];
    assert s == [5, 0, 7, 0, 9];
    assert U16LE(s, 0) == 5 && U16LE(s, 2) == 7;
    assert U16LE(r, 0) == 8 && U16LE(r, 2) == 5 && r[0..] == r;
    assert FindAttr(r, 7) == Some(8);
    RoundMeaning(UNPADDED, 7, 8);
    LastRound(UNPADDED, 7, 8);
    CutToParts(UNPADDED, r, 33);
    assert U16LE(r[..5], 0) == 8;
  }

  // ----- on attributes as a sender builds them ---------------------------------

  /** An attribute: the two octets of its type field, its payload, and up to 3
      octets, whatever they are, that make up a multiple of 4. */
  datatype Attribute = Attribute(lo: byte, hi: byte, payload: bytes, pad: bytes)
  {
    predicate Fits() {
      |payload| + 4 < 0x1_0000 && |pad| < 4 && (|payload| + |pad|) % 4 == 0
    }

    /** The two top bits are flags. */
    function Kind(): nat { lo as int + 0x100 * (hi as int % 0x40) }

    function Octets(): bytes
      requires Fits()
    {
      [(|payload| + 4) % 0x100, (|payload| + 4) / 0x100, lo, hi] + payload + pad
    }
  }

  predicate AllFit(ats: seq<Attribute>) {
    forall i :: 0 <= i < |ats| ==> ats[i].Fits()
  }

  function AllOctets(ats: seq<Attribute>): bytes
    requires AllFit(ats)
  {
    if ats == [] then [] else ats[0].Octets() + AllOctets(ats[1..])
  }

  function Without(ats: seq<Attribute>, ts: set<int>): (us: seq<Attribute>)
    requires AllFit(ats)
    ensures AllFit(us)
  {
    if ats == [] then []
    else (if ats[0].Kind() in ts then [] else [ats[0]]) + Without(ats[1..], ts)
  }

  lemma OctetsAreAttr(at: Attribute)
    requires at.Fits()
    ensures IsAttr(at.Octets()) && NlaType(at.Octets()) == at.Kind()
  {
    var a, n := at.Octets(), |at.payload| + 4;
    assert U16LE(a, 0) == n && |a| == n + |at.pad|;
    assert a[2] == at.lo && a[3] == at.hi;
    NlaTypeOctets(a);
    PaddingIsAlign(a[..n], at.pad);
  }

  /** Stripping takes out exactly the attributes of the given types, with their
      padding, and leaves the others as they were built, and fewer octets than an
      attribute header behind them. */
  lemma {:induction false} StripOfBuilt(ats: seq<Attribute>, ts: set<int>, tail: bytes)
    requires AllFit(ats) && |tail| < 4
    ensures Strip(AllOctets(ats) + tail, ts) == AllOctets(Without(ats, ts)) + tail
    decreases |ats|
  {
    hide Attribute.Octets, Attribute.Fits, Attribute.Kind, Strip, NlaType, IsAttr;
    if ats == [] {
      StripTail(tail, ts);
      assert [] + tail == tail;
    } else {
      var at, more := ats[0], AllOctets(ats[1..]) + tail;
      var kept := Without(ats[1..], ts);
      assert at.Fits();
      assert AllOctets(ats) + tail == at.Octets() + more;
      StripOfBuilt(ats[1..], ts, tail);
      OctetsAreAttr(at);
      StripCons(at.Octets(), more, ts);
      if at.Kind() in ts {
        assert Without(ats, ts) == kept && [] + (AllOctets(kept) + tail) == AllOctets(kept) + tail;
      } else {
        assert Without(ats, ts) == [at] + kept && ([at] + kept)[1..] == kept;
        assert at.Octets() + (AllOctets(kept) + tail) == at.Octets() + AllOctets(kept) + tail;
      }
    }
  }

  lemma StripTail(tail: bytes, ts: set<int>)
    requires |tail| < 4
    ensures Strip(tail, ts) == tail && !NlaOk(Decode(tail).tail)
  {
    DecodeIsRegion(tail);
    assert Decode(tail) == Region([], tail);
    assert Flatten([]) + tail == tail;
  }

  /** So does the loop, on any message with such attributes: its headers are
      followed by the others and what was behind them. */
  lemma RoundsOfBuilt(m: bytes, ats: seq<Attribute>, tail: bytes, t: int)
    requires SaysLength(m) && AllFit(ats) && |tail| < 4 && m[28..] == AllOctets(ats) + tail
    ensures HasRegion(StripRounds(m, t), m, AllOctets(Without(ats, {t})) + tail)
  {
    hide Strip, StripRounds, HasRegion, Wanted;
    StripOfBuilt(ats, {t}, tail);
    BuiltTail(ats, tail);
    StripExact(m, t);
  }

  lemma {:induction false} BuiltTail(ats: seq<Attribute>, tail: bytes)
    requires AllFit(ats) && |tail| < 4
    ensures !NlaOk(Decode(AllOctets(ats) + tail).tail)
    decreases |ats|
  {
    hide Attribute.Octets, Attribute.Fits, Decode, NlaOk, IsAttr;
    if ats == [] {
      StripTail(tail, {});
      assert [] + tail == tail;
    } else {
      var more := AllOctets(ats[1..]) + tail;
      assert ats[0].Fits();
      assert AllOctets(ats) + tail == ats[0].Octets() + more;
      BuiltTail(ats[1..], tail);
      OctetsAreAttr(ats[0]);
      DecodeCons(ats[0].Octets(), more);
    }
  }

  // ----- the loop in the buffer --------------------------------------------------

  /** nla_policy_strip_attr: while an attribute of the type is found, slide the
      rest of the message down over it and shrink both length fields. */
  method StripAttr(ev: EventInfo, t: int)
    requires ev.Valid() && SaysLength(ev.Contents())
    modifies ev`msglen, ev.msg
    ensures ev.Valid() && ev.Contents() == StripRounds(old(ev.Contents()), t)
    ensures old(IsRoute(ev.Contents())) ==>
              IsRoute(ev.Contents()) && ev.Contents() == StripMsg(old(ev.Contents()), {t})
  {
    hide StripMsg, AttrAt, FindAttr, Aligned, Round, StartsAt;
    if IsRoute(ev.Contents()) { RoundsOfRoute(ev.Contents(), t); }
    while true
      invariant ev.Valid() && SaysOwnLength(ev.Contents())
      invariant StripRounds(ev.Contents(), t) == StripRounds(old(ev.Contents()), t)
      decreases ev.msglen
    {
      var len := U32LE(ev.msg[..], 0);
      if len < ATTRS {
        // nlmsg_find_attr looks at no octets and finds nothing.
        return;
      }
      assert ev.Contents()[ATTRS..] == ev.msg[ATTRS..ev.msglen];
      var attr := FindAttr(ev.msg[ATTRS..len], t);
      if attr.None? {
        return;
      }
      RoundMeaning(ev.Contents(), t, attr.value);
      RemoveAttr(ev, attr.value);
    }
  }

  /** The loop's body, on any message that says its own length. */
  method RemoveAttr(ev: EventInfo, off: nat)
    requires ev.Valid() && SaysLength(ev.Contents()) && StartsAt(ev.Contents()[ATTRS..], off)
    modifies ev`msglen, ev.msg
    ensures ev.Valid() && ev.Contents() == Round(old(ev.Contents()), off)
  {
    RoundInBuffer(ev.msg[..], ev.msglen, off);
    hide Round, NlaSize, SaysLength, StartsAt, U32LE, Slide;
    var len := U32LE(ev.msg[..], 0);
    var attrStart := ATTRS + off;
    var attrSize := NlaSize(ev.msg[attrStart..len]);
    SlideDown(ev.msg, len, attrStart, attrSize);
    ev.msglen := ev.msglen - attrSize;
  }

  /** The round as the program finds it in a buffer. */
  lemma RoundInBuffer(b: bytes, len: nat, off: nat)
    requires len <= |b| && SaysLength(b[..len]) && StartsAt(b[..len][ATTRS..], off)
    ensures U32LE(b, 0) == len < 0x1_0000_0000 && ATTRS + off <= len && NlaOk(b[ATTRS + off..len])
    ensures var n := NlaSize(b[ATTRS + off..len]);
            && 4 <= n && 4 + n <= len && ATTRS + off + n <= Align4(len)
            && Round(b[..len], off) == Slide(b, len, ATTRS + off, n)
  {
    var a := b[ATTRS + off..len];
    assert b[..len][ATTRS..][off..] == a;
    assert U32LE(b, 0) == U32LE(b[..len], 0);
    EndsAligned(a, ATTRS + off, len);
    RoundIsSlide(b, len, off, NlaSize(a));
  }

  /** An attribute's padding goes no further than the message's. */
  lemma EndsAligned(a: bytes, start: nat, len: nat)
    requires NlaOk(a) && Aligned(start) && start + |a| == len
    ensures start + NlaSize(a) <= Align4(len)
  {
    AlignedSum(start, Align4(len) - start);
    Align4Least(U16LE(a, 0), Align4(len) - start);
  }

  /** The octets of the message once the rest of it has moved down over `size`
      octets at `start` and the length field has been rewritten. */
  function Slide(b: bytes, len: nat, start: nat, size: nat): (w: bytes)
    requires 4 <= start && 4 + size <= len <= |b| && len < 0x1_0000_0000
    ensures |w| == len - size
  {
    PutU32LE(len - size) + if start + size <= len then b[4..start] + b[start + size..len] else b[4..len - size]
  }

  /** Everything past the attribute moves down over it, up to the message's
      padded end, and the message says its new length. Of padding that is not in the
      buffer nothing is known; none of it ends up in the message. */
  method SlideDown(msg: array<byte>, len: nat, attrStart: nat, attrSize: nat)
    requires 4 <= attrStart && 4 <= attrSize && attrStart + attrSize <= Align4(len)
    requires 4 + attrSize <= len <= msg.Length && len < 0x1_0000_0000
    modifies msg
    ensures msg[..len - attrSize] == Slide(old(msg[..]), len, attrStart, attrSize)
  {
    ghost var b := msg[..];
    var x: byte, y: byte, z: byte := *, *, *;
    var attrEnd := attrStart + attrSize;
    var memcpyLen := Align4(len) - attrEnd;
    CopyDown(msg, [x, y, z], attrStart, attrEnd, memcpyLen);
    ghost var slid := msg[..];
    StoreU32LE(msg, len - attrSize);
    SlideFromCopy(b, [x, y, z], len, attrStart, attrSize, slid, msg[..]);
  }

  lemma SlideAt(b: bytes, len: nat, start: nat, size: nat, k: nat)
    requires 4 <= start && 4 + size <= len <= |b| && len < 0x1_0000_0000 && 4 <= k < len - size
    ensures Slide(b, len, start, size)[k] == if k < start then b[k] else b[k + size]
  {
    hide PutU32LE;
  }

  lemma SlideFromCopy(b: bytes, behind: bytes, len: nat, start: nat, size: nat, slid: bytes, stored: bytes)
    requires 4 <= start && 4 <= size && start + size <= Align4(len) <= |b| + |behind|
    requires 4 + size <= len <= |b| && len < 0x1_0000_0000
    requires slid == Copied(b, b + behind, start, start + size, Align4(len) - start - size)
    requires stored == PutU32LE(len - size) + slid[4..]
    ensures stored[..len - size] == Slide(b, len, start, size)
  {
    hide PutU32LE, Copied;
    var want := Slide(b, len, start, size);
    forall k | 0 <= k < len - size ensures stored[k] == want[k] {
      if k >= 4 {
        assert stored[k] == slid[4..][k - 4] == slid[k];
        CopiedAt(b, b + behind, start, start + size, Align4(len) - start - size, k);
        SlideAt(b, len, start, size, k);
      }
    }
  }

  lemma RoundIsSlide(b: bytes, len: nat, off: nat, size: nat)
    requires len <= |b| && SaysLength(b[..len]) && StartsAt(b[..len][ATTRS..], off)
    requires size == NlaSize(b[..len][ATTRS..][off..])
    ensures Round(b[..len], off) == Slide(b, len, ATTRS + off, size)
  {
    var m := b[..len];
    assert size < len;
    hide NlaSize, NlaOk, U32LE, Aligned, PutU32LE;
    if ATTRS + off + size <= len {
      assert m[4..ATTRS + off] + m[ATTRS + off + size..len] == b[4..ATTRS + off] + b[ATTRS + off + size..len];
    } else {
      assert m[4..len - size] == b[4..len - size];
    }
  }

  // ----- evaluating a policy ----------------------------------------------

  /** nla_policy_match_filter. */
  method MatchFilter(entries: seq<int>, v: int) returns (matched: bool)
    ensures matched <==> entries == [] || v in entries
  {
    if |entries| == 0 {
      return true;
    }
    for i := 0 to |entries|
      invariant v !in entries[..i]
    {
      if v == entries[i] {
        return true;
      }
    }
    return false;
  }

  predicate Accepts(p: Policy, m: bytes)
    requires IsRoute(m)
  {
    && (p.filterFamily == [] || m[FAMILY] in p.filterFamily)
    && (p.filterTable == [] || m[TABLE] in p.filterTable)
    && (p.filterProtocol == [] || m[PROTOCOL] in p.filterProtocol)
  }

  /** Assigning every value in turn to a one-octet field: the last one stays. */
  function SetField(m: bytes, field: nat, values: seq<int>): (w: bytes)
    requires 4 <= field < |m|
    ensures |w| == |m| && w[..field] == m[..field] && w[field + 1..] == m[field + 1..]
    ensures w[field] == if values == [] then m[field] else values[|values| - 1] % 0x100
  {
    if values == [] then m else m[field := values[|values| - 1] % 0x100]
  }

  function TypeSet(values: seq<int>): set<int> {
    set v <- values
  }

  lemma SetFieldIsRoute(m: bytes, field: nat, values: seq<int>)
    requires IsRoute(m) && 4 <= field < ATTRS
    ensures IsRoute(SetField(m, field, values))
    ensures Attrs(SetField(m, field, values)) == Attrs(m)
  {
    var w := SetField(m, field, values);
    assert w[ATTRS..] == w[field + 1..][ATTRS - field - 1..] == m[ATTRS..];
    assert forall i :: 0 <= i < 4 ==> w[i] == w[..field][i] == m[i];
  }

  /** What an accepted message is turned into, given the field the set-table
      entries are written to. */
  function ImageWith(p: Policy, m: bytes, tableField: nat): (w: bytes)
    requires IsRoute(m) && 4 <= tableField < ATTRS
    ensures IsRoute(w) && |w| <= |m|
  {
    SetFieldIsRoute(m, tableField, p.setTable);
    var s := SetField(m, tableField, p.setTable);
    SetFieldIsRoute(s, PROTOCOL, p.setProtocol);
    StripMsg(SetField(s, PROTOCOL, p.setProtocol), TypeSet(p.stripRtattr))
  }

  /** As the program is written, the set-table entries go to the protocol field. */
  function Image(p: Policy, m: bytes): (w: bytes)
    requires IsRoute(m)
    ensures IsRoute(w) && |w| <= |m|
  {
    ImageWith(p, m, PROTOCOL)
  }

  /** As the option and the log line say, they go to the table field. */
  function ImageIntended(p: Policy, m: bytes): (w: bytes)
    requires IsRoute(m)
    ensures IsRoute(w) && |w| <= |m|
  {
    ImageWith(p, m, TABLE)
  }

  lemma StripMsgTwice(m: bytes, ts: set<int>, us: set<int>)
    requires IsRoute(m)
    ensures StripMsg(StripMsg(m, ts), us) == StripMsg(m, ts + us)
  {
    var r := m[ATTRS..];
    AlignedSum(ATTRS, |r|);
    StripLength(r, ts);
    StripLength(Strip(r, ts), us);
    StripStrip(r, ts, us);
    WithAttrsTwice(m, Strip(r, ts), Strip(r, ts + us));
  }

  lemma {:induction false} KeepAll(attrs: seq<bytes>)
    requires AllAttrs(attrs)
    ensures Keep(attrs, {}) == attrs
  {
    if attrs != [] {
      KeepAll(attrs[1..]);
    }
  }

  lemma StripMsgNothing(m: bytes)
    requires IsRoute(m)
    ensures StripMsg(m, {}) == m
  {
    DecodeIsRegion(m[ATTRS..]);
    KeepAll(Attrs(m));
    WithOwnAttrs(m);
  }

  /** The strip loop of an evaluation. */
  method StripAll(ev: EventInfo, types: seq<int>)
    requires ev.Valid() && IsRoute(ev.Contents())
    modifies ev`msglen, ev.msg
    ensures ev.Valid() && IsRoute(ev.Contents())
    ensures ev.Contents() == StripMsg(old(ev.Contents()), TypeSet(types))
  {
    hide StripMsg;
    ghost var m := ev.Contents();
    StripMsgNothing(m);
    assert TypeSet(types[..0]) == {};
    for i := 0 to |types|
      invariant ev.Valid() && IsRoute(ev.Contents())
      invariant ev.Contents() == StripMsg(m, TypeSet(types[..i]))
    {
      StripMsgTwice(m, TypeSet(types[..i]), {types[i]});
      assert TypeSet(types[..i + 1]) == TypeSet(types[..i]) + {types[i]};
      StripAttr(ev, types[i]);
    }
    assert types[..|types|] == types;
  }

  method SetAll(ev: EventInfo, field: nat, values: seq<int>)
    requires ev.Valid() && IsRoute(ev.Contents()) && 4 <= field < ATTRS
    modifies ev.msg
    ensures ev.Contents() == SetField(old(ev.Contents()), field, values)
  {
    ghost var m := ev.Contents();
    for i := 0 to |values|
      invariant ev.Contents() == SetField(m, field, values[..i])
    {
      ev.msg[field] := values[i] % 0x100;
      assert ev.Contents() == SetField(m, field, values[..i])[field := values[i] % 0x100];
    }
    assert values[..|values|] == values;
  }

  /** nla_policy_evaluate: filters, then set-actions, then strips, all on a clone
      of the event; null when a filter rejects the message. */
  method Evaluate(p: Policy, ev: EventInfo) returns (out: EventInfo?)
    requires ev.Valid() && IsRoute(ev.Contents())
    ensures out == null <==> !Accepts(p, ev.Contents())
    // Family, table and protocol are octets 16, 20 and 21.
    ensures var m := ev.Contents();
            out == null <==>
              || (p.filterFamily != [] && m[16] !in p.filterFamily)
              || (p.filterTable != [] && m[20] !in p.filterTable)
              || (p.filterProtocol != [] && m[21] !in p.filterProtocol)
    ensures out != null ==>
              && fresh(out) && fresh(out.msg) && out.Valid()
              && out.kind == ev.kind && out.Contents() == Image(p, ev.Contents())
  {
    ghost var m := ev.Contents();
    var dup := ev.Clone();
    var ok := MatchFilter(p.filterFamily, dup.msg[FAMILY]);
    if !ok {
      return null;
    }
    ok := MatchFilter(p.filterTable, dup.msg[TABLE]);
    if !ok {
      return null;
    }
    ok := MatchFilter(p.filterProtocol, dup.msg[PROTOCOL]);
    if !ok {
      return null;
    }
    SetFieldIsRoute(m, PROTOCOL, p.setTable);
    SetAll(dup, PROTOCOL, p.setTable);
    SetFieldIsRoute(dup.Contents(), PROTOCOL, p.setProtocol);
    SetAll(dup, PROTOCOL, p.setProtocol);
    StripAll(dup, p.stripRtattr);
    return dup;
  }

  /** A policy and the three that have one of its filter lists each: it rejects
      what one of them does, and a list of one value looks at its own octet. */
  method EvaluateParts(p: Policy, ev: EventInfo)
    returns (whole: EventInfo?, family: EventInfo?, table: EventInfo?, protocol: EventInfo?)
    requires ev.Valid() && IsRoute(ev.Contents())
    ensures whole == null <==> family == null || table == null || protocol == null
    ensures |p.filterFamily| == 1 ==> (family == null <==> ev.Contents()[16] != p.filterFamily[0])
    ensures |p.filterTable| == 1 ==> (table == null <==> ev.Contents()[20] != p.filterTable[0])
    ensures |p.filterProtocol| == 1 ==> (protocol == null <==> ev.Contents()[21] != p.filterProtocol[0])
  {
    whole := Evaluate(p, ev);
    family := Evaluate(NO_POLICY.(filterFamily := p.filterFamily), ev);
    table := Evaluate(NO_POLICY.(filterTable := p.filterTable), ev);
    protocol := Evaluate(NO_POLICY.(filterProtocol := p.filterProtocol), ev);
  }

  // ----- what an accepted message becomes ---------------------------------

  function Last(values: seq<int>): int
    requires values != []
  {
    values[|values| - 1]
  }

  /** Octet by octet, what the program makes of an accepted message: only the
      length and the protocol change in the headers, and the attributes are the
      original ones without the types to strip. */
  lemma ImageMeaning(p: Policy, m: bytes)
    requires IsRoute(m)
    ensures var w, ts := Image(p, m), TypeSet(p.stripRtattr);
            && |w| >= 28
            && (forall i :: 4 <= i < 28 && i != 21 ==> w[i] == m[i])
            && w[21] == (if p.setProtocol != [] then Last(p.setProtocol) % 0x100
                         else if p.setTable != [] then Last(p.setTable) % 0x100
                         else m[21])
            && Decode(w[28..]) == Region(Keep(Attrs(m), ts), Decode(m[ATTRS..]).tail)
            && U32LE(w, 0) == |w| == |m| - Removed(Attrs(m), ts)
  {
    ImageWithMeaning(p, m, PROTOCOL);
  }

  lemma ImageWithMeaning(p: Policy, m: bytes, tableField: nat)
    requires IsRoute(m) && 4 <= tableField < ATTRS
    ensures var w, ts := ImageWith(p, m, tableField), TypeSet(p.stripRtattr);
            var s := SetField(SetField(m, tableField, p.setTable), PROTOCOL, p.setProtocol);
            && (forall i :: 4 <= i < ATTRS ==> w[i] == s[i])
            && Decode(w[ATTRS..]) == Region(Keep(Attrs(m), ts), Decode(m[ATTRS..]).tail)
            && |w| == |m| - Removed(Attrs(m), ts)
  {
    SetFieldIsRoute(m, tableField, p.setTable);
    var t := SetField(m, tableField, p.setTable);
    SetFieldIsRoute(t, PROTOCOL, p.setProtocol);
    var s := SetField(t, PROTOCOL, p.setProtocol);
    assert s[ATTRS..] == t[ATTRS..] == m[ATTRS..];
    hide *;
    StripMsgMeaning(s, TypeSet(p.stripRtattr));
    var w := ImageWith(p, m, tableField);
    forall i | 4 <= i < ATTRS ensures w[i] == s[i] {
      assert w[4..ATTRS][i - 4] == s[4..ATTRS][i - 4];
    }
  }

  /** What an accepted message's attributes become, as its sender built them. */
  lemma ImageOfBuilt(p: Policy, m: bytes, ats: seq<Attribute>, tail: bytes)
    requires IsRoute(m) && AllFit(ats) && |tail| < 4 && m[28..] == AllOctets(ats) + tail
    ensures |Image(p, m)| >= 28 && Image(p, m)[28..] == AllOctets(Without(ats, TypeSet(p.stripRtattr))) + tail
  {
    hide Strip, Image, AllOctets, Without;
    ImageRegion(p, m);
    StripOfBuilt(ats, TypeSet(p.stripRtattr), tail);
  }

  lemma ImageRegion(p: Policy, m: bytes)
    requires IsRoute(m)
    ensures |Image(p, m)| >= 28 && Image(p, m)[28..] == Strip(m[28..], TypeSet(p.stripRtattr))
  {
    hide Decode, Keep, Removed, U32LE, Image, Flatten, IsRoute;
    ImageMeaning(p, m);
    DecodeIsRegion(Image(p, m)[28..]);
    AttrsAreDecoded(m);
  }

  lemma AttrsAreDecoded(m: bytes)
    requires |m| >= 28
    ensures Attrs(m) == Decode(m[28..]).attrs
  {}

  /** Nothing to set; or the table has the value already, and the value put in
      the protocol is overwritten or was there before. */
  predicate SetTableHarmless(p: Policy, m: bytes)
    requires IsRoute(m)
  {
    || p.setTable == []
    || var v := Last(p.setTable) % 0x100;
       m[TABLE] == v && (p.setProtocol != [] || m[PROTOCOL] == v)
  }

  /** Exactly then does writing set-table to the protocol field make no
      difference to what the option says. */
  lemma SetTableAsIntended(p: Policy, m: bytes)
    requires IsRoute(m)
    ensures Image(p, m) == ImageIntended(p, m) <==> SetTableHarmless(p, m)
  {
    ImageWithMeaning(p, m, PROTOCOL);
    ImageWithMeaning(p, m, TABLE);
    var w, x := Image(p, m), ImageIntended(p, m);
    if SetTableHarmless(p, m) {
      SameSetFields(p, m);
    } else {
      assert w[TABLE] != x[TABLE] || w[PROTOCOL] != x[PROTOCOL];
    }
  }

  /** A message for table 254 of protocol 2, and a policy that sets the table to
      100: the program sets the protocol to 100 and leaves the table alone. */
  const TO_TABLE_254: bytes :=
    [28, 0, 0, 0, 24, 0, 0, 0, 0, 0, 0, 0, 0, 0, 0, 0, 2, 0, 0, 0, 254, 2, 0, 1, 0, 0, 0, 0]

  lemma SetTableMissesTable()
    ensures IsRoute(TO_TABLE_254)
    ensures var p := NO_POLICY.(setTable := [100]);
            && Image(p, TO_TABLE_254) != ImageIntended(p, TO_TABLE_254)
            && Image(p, TO_TABLE_254)[20] == 254 && Image(p, TO_TABLE_254)[21] == 100
  {
    assert U32LE(TO_TABLE_254, 0) == 28;
    MissesTable(TO_TABLE_254);
  }

  lemma MissesTable(m: bytes)
    requires IsRoute(m) && m[TABLE] == 254 && m[PROTOCOL] == 2
    ensures var p := NO_POLICY.(setTable := [100]);
            Image(p, m) != ImageIntended(p, m) && Image(p, m)[TABLE] == 254 && Image(p, m)[PROTOCOL] == 100
  {
    var p := NO_POLICY.(setTable := [100]);
    hide Decode, Attrs, Keep, Removed, U32LE, Image, ImageIntended;
    ImageMeaning(p, m);
    SetTableAsIntended(p, m);
  }

  lemma SameSetFields(p: Policy, m: bytes)
    requires IsRoute(m) && SetTableHarmless(p, m)
    ensures SetField(SetField(m, PROTOCOL, p.setTable), PROTOCOL, p.setProtocol)
         == SetField(SetField(m, TABLE, p.setTable), PROTOCOL, p.setProtocol)
  {
    if p.setTable != [] {
      var v := Last(p.setTable) % 0x100;
      assert m[TABLE := v] == m;
      if p.setProtocol != [] {
        var u := Last(p.setProtocol) % 0x100;
        assert m[PROTOCOL := v][PROTOCOL := u] == m[PROTOCOL := u];
      } else {
        assert m[PROTOCOL := v] == m;
      }
    }
  }

  /** Stripping types that are gone already changes nothing. */
  lemma RestripNothing(m: bytes, ts: set<int>, us: set<int>)
    requires IsRoute(m) && us <= ts
    ensures StripMsg(StripMsg(m, ts), us) == StripMsg(m, ts)
  {
    StripMsgTwice(m, ts, us);
    assert ts + us == ts;
  }
}
