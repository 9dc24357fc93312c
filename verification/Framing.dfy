/** Reassembly of a byte stream that arrives in arbitrary pieces, for any framing
    whose decisions are not changed by octets that arrive later. */
module Framing {
  import opened Bytes

  /** What a reader makes of the front of its input: not enough yet, a state it
      cannot go on from, or one unit of `size` octets carrying `msgs`. */
  datatype Step = Wait | Fail | Take(size: nat, msgs: seq<bytes>)

  type Framer = bytes -> Step

  ghost predicate Stable(f: Framer) {
    && (forall s: bytes :: f(s).Take? ==> 0 < f(s).size <= |s|)
    && (forall s: bytes, more: bytes :: !f(s).Wait? ==> f(s + more) == f(s))
  }

  /** The input buffer, what has been delivered from it, and whether the reader
      has stopped for good. */
  datatype Reader = Reader(input: bytes, delivered: seq<bytes>, failed: bool)

  /** One run of a read callback: take units until none is complete. */
  function Drain(f: Framer, s: bytes): Reader
    decreases |s|
  {
    match f(s)
    case Wait => Reader(s, [], false)
    case Fail => Reader(s, [], true)
    case Take(n, msgs) =>
      if 0 < n <= |s| then
        var r := Drain(f, s[n..]);
        r.(delivered := msgs + r.delivered)
      else Reader(s, [], true)
  }

  /** A chunk arrives and the callback runs; a reader that has stopped leaves
      everything unread. */
  function Receive(f: Framer, r: Reader, chunk: bytes): Reader {
    if r.failed then r.(input := r.input + chunk)
    else
      var d := Drain(f, r.input + chunk);
      d.(delivered := r.delivered + d.delivered)
  }

  function Feed(f: Framer, r: Reader, chunks: seq<bytes>): Reader
    decreases |chunks|
  {
    if chunks == [] then r else Feed(f, Receive(f, r, chunks[0]), chunks[1..])
  }

  lemma StableAt(f: Framer, s: bytes, more: bytes)
    requires Stable(f)
    ensures f(s).Take? ==> 0 < f(s).size <= |s|
    ensures !f(s).Wait? ==> f(s + more) == f(s)
  {}

  lemma DrainTakes(f: Framer, s: bytes)
    requires f(s).Take? && 0 < f(s).size <= |s|
    ensures var r := Drain(f, s[f(s).size..]); Drain(f, s) == r.(delivered := f(s).msgs + r.delivered)
  {}

  lemma DrainWaits(f: Framer, s: bytes)
    requires f(s).Wait?
    ensures Drain(f, s) == Reader(s, [], false)
  {}

  lemma DrainFails(f: Framer, s: bytes)
    requires f(s).Fail?
    ensures Drain(f, s) == Reader(s, [], true)
  {}

  /** What a reader has delivered does not matter to what it goes on to do. */
  lemma ReceiveAfter(f: Framer, r: Reader, msgs: seq<bytes>, more: bytes)
    ensures var e := Receive(f, r, more);
            Receive(f, r.(delivered := msgs + r.delivered), more) == e.(delivered := msgs + e.delivered)
  {
    hide Drain;
    if !r.failed {
      var d := Drain(f, r.input + more);
      assert (msgs + r.delivered) + d.delivered == msgs + (r.delivered + d.delivered);
    }
  }

  /** Stopping half-way and going on when more has arrived is the same as having
      had it all from the start. */
  lemma {:induction false} DrainResumes(f: Framer, s: bytes, more: bytes)
    requires Stable(f)
    ensures Receive(f, Drain(f, s), more) == Drain(f, s + more)
    decreases |s|
  {
    hide Stable;
    StableAt(f, s, more);
    if f(s).Take? {
      var n := f(s).size;
      DrainResumes(f, s[n..], more);
      assert (s + more)[n..] == s[n..] + more;
      hide Drain, Receive;
      DrainTakes(f, s);
      DrainTakes(f, s + more);
      ReceiveAfter(f, Drain(f, s[n..]), f(s).msgs, more);
    }
  }

  /** However a stream is cut into chunks, well-formed or not, the messages
      delivered, the octets left over and the verdict are those of the whole. */
  lemma {:induction false} ChunkingIrrelevant(f: Framer, s: bytes, chunks: seq<bytes>)
    requires Stable(f)
    ensures Feed(f, Drain(f, s), chunks) == Drain(f, s + Flatten(chunks))
    decreases |chunks|
  {
    hide Stable, Drain, Receive;
    if chunks == [] {
      assert s + [] == s;
    } else {
      DrainResumes(f, s, chunks[0]);
      ChunkingIrrelevant(f, s + chunks[0], chunks[1..]);
      assert s + chunks[0] + Flatten(chunks[1..]) == s + Flatten(chunks);
    }
  }

  /** A unit the framing accepts whole. */
  ghost predicate IsUnit(f: Framer, u: bytes) {
    f(u).Take? && f(u).size == |u|
  }

  ghost predicate AllUnits(f: Framer, us: seq<bytes>) {
    forall i :: 0 <= i < |us| ==> IsUnit(f, us[i])
  }

  /** All that the units carry, in order. */
  ghost function Carried(f: Framer, us: seq<bytes>): seq<bytes>
    requires AllUnits(f, us)
  {
    if us == [] then [] else f(us[0]).msgs + Carried(f, us[1..])
  }

  /** How many of the units lie within the first `k` octets of the stream. */
  function Complete(us: seq<bytes>, k: nat): (j: nat)
    ensures j <= |us| && |Flatten(us[..j])| <= k
    ensures j < |us| ==> k < |Flatten(us[..j + 1])|
  {
    if us == [] || k < |us[0]| then
      assert us != [] ==> us[..1] == [us[0]] && us[..1][1..] == [];
      0
    else
      var j := Complete(us[1..], k - |us[0]|);
      assert us[..j + 1][1..] == us[1..][..j];
      assert j + 1 < |us| ==> us[..j + 2][1..] == us[1..][..j + 1];
      j + 1
  }

  lemma {:induction false} FlattenPrefix(us: seq<bytes>, j: nat)
    requires j <= |us|
    ensures Flatten(us) == Flatten(us[..j]) + Flatten(us[j..])
  {
    FlattenAppend(us[..j], us[j..]);
    assert us == us[..j] + us[j..];
  }

  lemma UnitThenMore(f: Framer, u: bytes, more: bytes)
    requires Stable(f) && IsUnit(f, u)
    ensures var r := Drain(f, more); Drain(f, u + more) == r.(delivered := f(u).msgs + r.delivered)
  {
    hide Stable, Drain;
    StableAt(f, u, more);
    assert (u + more)[|u|..] == more;
    DrainTakes(f, u + more);
  }

  lemma {:induction false} UnitsThenMore(f: Framer, us: seq<bytes>, more: bytes)
    requires Stable(f) && AllUnits(f, us)
    ensures var r := Drain(f, more); Drain(f, Flatten(us) + more) == r.(delivered := Carried(f, us) + r.delivered)
    decreases |us|
  {
    hide Stable, Drain;
    var r := Drain(f, more);
    if us == [] {
      assert [] + more == more && [] + r.delivered == r.delivered;
    } else {
      UnitsThenMore(f, us[1..], more);
      UnitThenMore(f, us[0], Flatten(us[1..]) + more);
      assert Flatten(us) + more == us[0] + (Flatten(us[1..]) + more);
      var first := f(us[0]).msgs;
      assert first + (Carried(f, us[1..]) + r.delivered) == first + Carried(f, us[1..]) + r.delivered;
    }
  }

  lemma UnitsThenTail(f: Framer, us: seq<bytes>, tail: bytes)
    requires Stable(f) && AllUnits(f, us) && f(tail).Wait?
    ensures Drain(f, Flatten(us) + tail) == Reader(tail, Carried(f, us), false)
  {
    hide Stable, Flatten, IsUnit;
    UnitsThenMore(f, us, tail);
    assert Carried(f, us) + [] == Carried(f, us);
  }

  lemma NextUnit(us: seq<bytes>, j: nat)
    requires j < |us|
    ensures Flatten(us[j..]) == us[j] + Flatten(us[j + 1..])
    ensures |Flatten(us[..j + 1])| == |Flatten(us[..j])| + |us[j]|
  {
    FlattenAppend(us[..j], [us[j]]);
    assert us[..j + 1] == us[..j] + [us[j]] && Flatten([us[j]]) == us[j];
  }

  lemma PartWaits(f: Framer, u: bytes, more: bytes, n: nat)
    requires Stable(f) && IsUnit(f, u) && n < |u|
    ensures f((u + more)[..n]).Wait?
  {
    var part := (u + more)[..n];
    assert part + u[n..] == u;
    StableAt(f, part, u[n..]);
  }

  /** What follows the complete units of a prefix is not yet a unit. */
  lemma TailWaits(f: Framer, us: seq<bytes>, k: nat)
    requires Stable(f) && f([]).Wait? && AllUnits(f, us) && k <= |Flatten(us)|
    ensures var done, left := Flatten(us[..Complete(us, k)]), Flatten(us[Complete(us, k)..]);
            |done| <= k && Flatten(us) == done + left && f(left[..k - |done|]).Wait?
  {
    hide Stable;
    var j := Complete(us, k);
    var n := k - |Flatten(us[..j])|;
    FlattenPrefix(us, j);
    if j < |us| {
      assert IsUnit(f, us[j]);
      NextUnit(us, j);
      PartWaits(f, us[j], Flatten(us[j + 1..]), n);
    } else {
      assert us[..j] == us && us[j..] == [];
      assert Flatten(us[j..])[..n] == [];
    }
  }

  /** Of any prefix of a stream of units, exactly the complete ones have been
      delivered, in order, and the rest of the prefix is still in the buffer. */
  lemma PrefixDelivery(f: Framer, us: seq<bytes>, k: nat)
    requires Stable(f) && f([]).Wait? && AllUnits(f, us) && k <= |Flatten(us)|
    ensures var s, j := Flatten(us)[..k], Complete(us, k);
            Drain(f, s) == Reader(s[|Flatten(us[..j])|..], Carried(f, us[..j]), false)
  {
    hide Stable, Drain, Complete, IsUnit, Carried, Flatten;
    TailWaits(f, us, k);
    var j := Complete(us, k);
    var done, left := Flatten(us[..j]), Flatten(us[j..]);
    var tail := left[..k - |done|];
    assert (done + left)[..k] == done + tail;
    UnitsThenTail(f, us[..j], tail);
  }

  /** A whole stream of units, cut up in any way, delivers what they carry. */
  lemma UnitsDelivered(f: Framer, us: seq<bytes>, chunks: seq<bytes>)
    requires Stable(f) && f([]).Wait? && AllUnits(f, us) && Flatten(chunks) == Flatten(us)
    ensures Feed(f, Reader([], [], false), chunks) == Reader([], Carried(f, us), false)
  {
    hide Stable, Drain, Feed, AllUnits, Carried, Flatten;
    DrainWaits(f, []);
    ChunkingIrrelevant(f, [], chunks);
    assert [] + Flatten(chunks) == Flatten(us) + [];
    UnitsThenTail(f, us, []);
  }
}
