/** The ring buffer that keeps the tail of a process's output. */
module TailBuffer {

  /** The last n bytes of a history. */
  function Tail(history: seq<bv8>, n: nat): seq<bv8> {
    if |history| > n then history[|history| - n..] else history
  }

  lemma TailOfTail(a: seq<bv8>, b: seq<bv8>, n: nat)
    ensures Tail(Tail(a, n) + b, n) == Tail(a + b, n)
  {
  }

  /** The ring read from its write position. */
  function Unrolled(ring: seq<bv8>, pos: nat): seq<bv8>
    requires pos <= |ring|
  {
    ring[pos..] + ring[..pos]
  }

  /** What the ring holds: everything while it has not wrapped, its unrolling afterwards. */
  function Held(ring: seq<bv8>, pos: nat, full: bool): seq<bv8>
    requires pos <= |ring|
  {
    if full then Unrolled(ring, pos) else ring[..pos]
  }

  /** Ring b is ring a with p copied in at `at`. */
  predicate CopiedIn(a: seq<bv8>, b: seq<bv8>, at: nat, p: seq<bv8>) {
    at + |p| <= |a| == |b| && b == a[..at] + p + a[at + |p|..]
  }

  /** The ring, read this way, holds the tail of this history. */
  ghost predicate Ring(ring: seq<bv8>, pos: nat, full: bool, history: seq<bv8>) {
    && pos < |ring| && (full ==> |history| >= |ring|)
    && Held(ring, pos, full) == Tail(history, |ring|)
  }

  lemma RingHolds(a: seq<bv8>, pos: nat, full: bool, h: seq<bv8>, b: seq<bv8>, newPos: nat, newFull: bool, p: seq<bv8>)
    requires Ring(a, pos, full, h) && |b| == |a| && newPos < |b|
    requires newFull ==> |h| + |p| >= |a|
    requires Held(b, newPos, newFull) == Tail(Held(a, pos, full) + p, |a|)
    ensures Ring(b, newPos, newFull, h + p)
  {
    TailOfTail(h, p, |a|);
  }

  lemma HeldSize(a: seq<bv8>, pos: nat, full: bool, h: seq<bv8>)
    requires Ring(a, pos, full, h)
    ensures |h| >= |Held(a, pos, full)| == if full then |a| else pos
  {
  }

  lemma FitPieces(x: seq<bv8>, y: seq<bv8>, z: seq<bv8>, p: seq<bv8>)
    requires |y| == |p|
    ensures (((y + z) + x) + p)[|p|..] == z + (x + p)
  {
  }

  /** What was written fits before the end of the ring. */
  lemma FitFull(x: seq<bv8>, y: seq<bv8>, z: seq<bv8>, p: seq<bv8>)
    requires |y| == |p| && |p| < |x + y + z|
    ensures Tail(Unrolled(x + y + z, |x|) + p, |x + y + z|) ==
            Unrolled(x + p + z, if |z| == 0 then 0 else |x| + |p|)
  {
    assert (x + y + z)[|x|..] == y + z && (x + y + z)[..|x|] == x;
    assert (x + p + z)[|x| + |p|..] == z && (x + p + z)[..|x| + |p|] == x + p;
    FitPieces(x, y, z, p);
    if z == [] {
      assert (x + p + z)[0..] + (x + p + z)[..0] == x + p;
      assert z + (x + p) == x + p;
    }
  }

  lemma FitNotFull(x: seq<bv8>, y: seq<bv8>, z: seq<bv8>, p: seq<bv8>)
    requires |y| == |p|
    ensures Tail((x + y + z)[..|x|] + p, |x + y + z|) ==
            Held(x + p + z, if |z| == 0 then 0 else |x| + |p|, |z| == 0)
  {
    assert (x + y + z)[..|x|] == x;
    assert (x + p + z)[..|x| + |p|] == x + p;
    if z == [] {
      assert (x + p + z)[0..] + (x + p + z)[..0] == x + p;
    }
  }

  lemma RingFit(a: seq<bv8>, b: seq<bv8>, pos: nat, full: bool, h: seq<bv8>, p: seq<bv8>)
    requires Ring(a, pos, full, h) && |p| < |a| && CopiedIn(a, b, pos, p)
    ensures var end := pos + |p|;
            Ring(b, if end == |a| then 0 else end, full || end == |a|, h + p)
  {
    var end := pos + |p|;
    var x, y, z := a[..pos], a[pos..end], a[end..];
    assert a == x + y + z;
    if full {
      FitFull(x, y, z, p);
    } else {
      FitNotFull(x, y, z, p);
    }
    HeldSize(a, pos, full, h);
    RingHolds(a, pos, full, h, b, if end == |a| then 0 else end, full || end == |a|, p);
  }

  /** What was written goes on at the start of the ring. */
  lemma WrapPieces(x: seq<bv8>, y: seq<bv8>, z: seq<bv8>, u: seq<bv8>, v: seq<bv8>)
    requires |u| == |z| && |v| == |x|
    ensures ((z + (x + y)) + (u + v))[|u| + |v|..] == (y + u) + v
    ensures ((x + y) + (u + v))[|x|..] == (y + u) + v
  {
  }

  lemma WrapHeld(x: seq<bv8>, y: seq<bv8>, z: seq<bv8>, u: seq<bv8>, v: seq<bv8>, full: bool)
    requires |u| == |z| && |v| == |x|
    ensures Tail(Held((x + y) + z, |x| + |y|, full) + (u + v), |x| + |y| + |z|) == Unrolled((v + y) + u, |v|)
  {
    WrapPieces(x, y, z, u, v);
    assert ((x + y) + z)[..|x| + |y|] == x + y && ((x + y) + z)[|x| + |y|..] == z;
    assert ((v + y) + u)[|v|..] == y + u && ((v + y) + u)[..|v|] == v;
  }

  lemma RingWrap(a: seq<bv8>, b: seq<bv8>, c: seq<bv8>, pos: nat, full: bool, h: seq<bv8>, p: seq<bv8>)
    requires Ring(a, pos, full, h) && |a| - pos < |p| < |a|
    requires CopiedIn(a, b, pos, p[..|a| - pos]) && CopiedIn(b, c, 0, p[|a| - pos..])
    ensures Ring(c, |p| - (|a| - pos), true, h + p)
  {
    var space := |a| - pos;
    var over := |p| - space;
    var x, y, z, u, v := a[..over], a[over..pos], a[pos..], p[..space], p[space..];
    assert a == (x + y) + z && p == u + v;
    assert c == (v + y) + u;
    WrapHeld(x, y, z, u, v, full);
    HeldSize(a, pos, full, h);
    RingHolds(a, pos, full, h, c, over, true, p);
  }

  /** What was written is longer than the ring. */
  lemma RingLong(a: seq<bv8>, b: seq<bv8>, h: seq<bv8>, p: seq<bv8>)
    requires 0 < |a| <= |p| && CopiedIn(a, b, 0, p[|p| - |a|..])
    ensures Ring(b, 0, true, h + p)
  {
    assert b == p[|p| - |a|..];
    assert b[0..] + b[..0] == b;
    assert (h + p)[|h + p| - |a|..] == p[|p| - |a|..];
  }

  class Buffer {
    const buf: array<bv8>
    var pos: nat  // next write position in the ring
    var full: bool
    ghost var history: seq<bv8>  // everything written since the last reset

    ghost predicate Valid()
      reads this, buf
    {
      Ring(buf[..], pos, full, history)
    }

    constructor (size: nat)
      requires size > 0
      ensures Valid() && fresh(buf) && buf.Length == size && history == []
    {
      buf := new bv8[size];
      pos, full, history := 0, false, [];
    }

    /** Go's copy into the ring. */
    method CopyTo(at: nat, p: seq<bv8>)
      requires at + |p| <= buf.Length
      modifies buf
      ensures CopiedIn(old(buf[..]), buf[..], at, p)
    {
      forall i | 0 <= i < |p| {
        buf[at + i] := p[i];
      }
      assert forall i :: 0 <= i < |p| ==> buf[at + i] == p[i];
    }

    // The three ways in which a write can lie in the ring.

    method WriteOver(p: seq<bv8>)
      requires Valid() && |p| >= buf.Length
      modifies this`pos, this`full, this`history, buf
      ensures Valid() && history == old(history) + p
    {
      ghost var a := buf[..];
      CopyTo(0, p[|p| - buf.Length..]);
      RingLong(a, buf[..], history, p);
      pos, full, history := 0, true, history + p;
    }

    method WriteBehind(p: seq<bv8>)
      requires Valid() && pos + |p| <= buf.Length && |p| < buf.Length
      modifies this`pos, this`full, this`history, buf
      ensures Valid() && history == old(history) + p
    {
      ghost var a := buf[..];
      CopyTo(pos, p);
      RingFit(a, buf[..], pos, full, history, p);
      pos, history := pos + |p|, history + p;
      if pos == buf.Length {
        pos := 0;
        full := true;
      }
    }

    method WriteAround(p: seq<bv8>, space: nat)
      requires Valid() && pos + space == buf.Length && space < |p| < buf.Length
      modifies this`pos, this`full, this`history, buf
      ensures Valid() && history == old(history) + p
    {
      ghost var a := buf[..];
      CopyTo(pos, p[..space]);
      ghost var b := buf[..];
      CopyTo(0, p[space..]);
      RingWrap(a, b, buf[..], pos, full, history, p);
      pos, full, history := |p| - space, true, history + p;
    }

    method Write(p: seq<bv8>) returns (n: nat)
      requires Valid()
      modifies this`pos, this`full, this`history, buf
      ensures Valid() && n == |p| && history == old(history) + p
    {
      n := |p|;
      if n >= buf.Length {
        WriteOver(p);
        return;
      }
      var space := buf.Length - pos;
      if n <= space {
        WriteBehind(p);
      } else {
        WriteAround(p, space);
      }
    }

    /** The last bytes of everything written since the last reset, as many as fit. */
    method String() returns (s: seq<bv8>)
      requires Valid()
      ensures s == Tail(history, buf.Length)
      ensures s == if |history| <= buf.Length then history else history[|history| - buf.Length..]
    {
      if !full {
        return buf[..pos];
      }
      return buf[pos..] + buf[..pos];
    }

    method Reset()
      requires Valid()
      modifies this`pos, this`full, this`history
      ensures Valid() && history == []
    {
      pos := 0;
      full := false;
      history := [];
    }
  }

  /** What a buffer holds after these writes. */
  function AllOf(writes: seq<seq<bv8>>): seq<bv8> {
    if writes == [] then [] else AllOf(writes[..|writes| - 1]) + writes[|writes| - 1]
  }

  /** A whole run: after any writes of any sizes since a reset, the string is the tail of them all. */
  method WriteAll(b: Buffer, writes: seq<seq<bv8>>) returns (s: seq<bv8>)
    requires b.Valid()
    modifies b`pos, b`full, b`history, b.buf
    ensures b.Valid() && s == Tail(AllOf(writes), b.buf.Length)
  {
    b.Reset();
    for i := 0 to |writes|
      invariant b.Valid() && b.history == AllOf(writes[..i])
    {
      assert writes[..i + 1][..i] == writes[..i];
      var _ := b.Write(writes[i]);
    }
    assert writes[..|writes|] == writes;
    s := b.String();
  }
}
