/** Octets, the two byte orders on the wire, and the 4-byte rounding every
    length in this program goes through. */
module Bytes {

  type byte = b: int | 0 <= b < 256
  type bytes = seq<byte>

  datatype Option<+T> = None | Some(value: T)

  const ALIGNTO: nat := 4

  predicate Aligned(n: int) {
    n % ALIGNTO == 0
  }

  lemma AlignedSum(m: int, n: int)
    requires Aligned(m)
    ensures Aligned(m + n) <==> Aligned(n)
  {}

  /** NLMSG_ALIGN, NLA_ALIGN and fpm_msg_align: round up to a multiple of 4. */
  function Align4(n: nat): (r: nat)
    ensures Aligned(r) && n <= r < n + ALIGNTO
  {
    (n + 3) / ALIGNTO * ALIGNTO
  }

  /** Rounding up is least: it stays below any multiple of four above `n`. */
  lemma Align4Least(n: nat, m: nat)
    requires n <= m && Aligned(m)
    ensures Align4(n) <= m
  {}

  /** A host-order (little-endian) 16-bit field. */
  function U16LE(b: bytes, off: nat): (r: nat)
    requires off + 2 <= |b|
    ensures r < 0x1_0000
  {
    b[off] as int + 0x100 * (b[off + 1] as int)
  }

  /** A network-order 16-bit field. */
  function U16BE(b: bytes, off: nat): (r: nat)
    requires off + 2 <= |b|
    ensures r < 0x1_0000
  {
    0x100 * (b[off] as int) + b[off + 1] as int
  }

  /** A host-order (little-endian) 32-bit field. */
  function U32LE(b: bytes, off: nat): (r: nat)
    requires off + 4 <= |b|
    ensures r < 0x1_0000_0000
  {
    U16LE(b, off) + 0x1_0000 * U16LE(b, off + 2)
  }

  function PutU16LE(v: nat): (r: bytes)
    requires v < 0x1_0000
    ensures |r| == 2 && U16LE(r, 0) == v
  {
    [v % 0x100, v / 0x100]
  }

  function PutU32LE(v: nat): (r: bytes)
    requires v < 0x1_0000_0000
    ensures |r| == 4 && U32LE(r, 0) == v
  {
    PutU16LE(v % 0x1_0000) + PutU16LE(v / 0x1_0000)
  }

  /** htons of the low 16 bits. */
  function PutU16BE(v: nat): (r: bytes)
    ensures |r| == 2 && U16BE(r, 0) == v % 0x1_0000
  {
    [v / 0x100 % 0x100, v % 0x100]
  }

  function Flatten(parts: seq<bytes>): bytes {
    if parts == [] then [] else parts[0] + Flatten(parts[1..])
  }

  lemma {:induction false} FlattenAppend(xs: seq<bytes>, ys: seq<bytes>)
    ensures Flatten(xs + ys) == Flatten(xs) + Flatten(ys)
  {
    if xs == [] {
      assert xs + ys == ys;
    } else {
      assert (xs + ys)[1..] == xs[1..] + ys;
      FlattenAppend(xs[1..], ys);
    }
  }

  lemma PutU32LEInverse(b: bytes)
    requires |b| >= 4
    ensures PutU32LE(U32LE(b, 0)) == b[..4]
  {
    var lo, hi := U16LE(b, 0), U16LE(b, 2);
    assert U32LE(b, 0) % 0x1_0000 == lo && U32LE(b, 0) / 0x1_0000 == hi;
    assert PutU16LE(lo) == b[0..2] && PutU16LE(hi) == b[2..4];
  }

  method StoreU32LE(a: array<byte>, v: nat)
    requires a.Length >= 4 && v < 0x1_0000_0000
    modifies a
    ensures a[..] == PutU32LE(v) + old(a[4..])
  {
    var b := PutU32LE(v);
    a[0], a[1], a[2], a[3] := b[0], b[1], b[2], b[3];
    assert a[..4] == b;
  }

  /** `o` after the first `n` octets at `src` of `from` have been copied to `dst`. */
  function Copied(o: bytes, from: bytes, dst: nat, src: nat, n: nat): (c: bytes)
    requires dst + n <= |o| && src + n <= |from|
    ensures |c| == |o|
  {
    o[..dst] + from[src..src + n] + o[dst + n..]
  }

  lemma CopiedAt(o: bytes, from: bytes, dst: nat, src: nat, n: nat, k: nat)
    requires dst + n <= |o| && src + n <= |from| && k < |o|
    ensures Copied(o, from, dst, src, n)[k] == if dst <= k < dst + n then from[src + k - dst] else o[k]
  {}

  lemma CopyNone(o: bytes, from: bytes, dst: nat, src: nat)
    requires dst <= |o| && src <= |from|
    ensures Copied(o, from, dst, src, 0) == o
  {
    assert from[src..src + 0] == [];
  }

  lemma CopyOneMore(o: bytes, behind: bytes, dst: nat, src: nat, i: nat)
    requires dst <= src && dst + i < |o| && src + i < |o| + |behind|
    ensures var c, from := Copied(o, o + behind, dst, src, i), o + behind;
            && (src + i < |o| ==> c[src + i] == from[src + i])
            && c[dst + i := from[src + i]] == Copied(o, from, dst, src, i + 1)
  {
    var from := o + behind;
    var c, d := Copied(o, from, dst, src, i), Copied(o, from, dst, src, i + 1);
    forall k | 0 <= k < |o| ensures d[k] == c[dst + i := from[src + i]][k] {
      CopiedAt(o, from, dst, src, i, k);
      CopiedAt(o, from, dst, src, i + 1, k);
    }
    if src + i < |o| { CopiedAt(o, from, dst, src, i, src + i); }
  }

  /** memcpy towards lower addresses, octet by octet from the low end; the two
      ranges may overlap, and the source may end behind the buffer. */
  method CopyDown(a: array<byte>, behind: bytes, dst: nat, src: nat, n: nat)
    requires dst <= src && dst + n <= a.Length && src + n <= a.Length + |behind|
    modifies a
    ensures a[..] == Copied(old(a[..]), old(a[..]) + behind, dst, src, n)
  {
    hide Copied;
    ghost var o := a[..];
    CopyNone(o, o + behind, dst, src);
    for i := 0 to n
      invariant a[..] == Copied(o, o + behind, dst, src, i)
    {
      CopyOneMore(o, behind, dst, src, i);
      ghost var c := a[..];
      var x := if src + i < a.Length then a[src + i] else behind[src + i - a.Length];
      assert x == (o + behind)[src + i];
      a[dst + i] := x;
      assert a[..] == c[dst + i := x];
    }
  }
}
