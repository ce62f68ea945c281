/**
 Requests on the disk's socket: a 4-byte little-endian length, then that many bytes (the data handler of
 `connection`). The frames found do not depend on how the socket cuts the bytes. A frame JSON.parse refuses throws
 before the buffer moves on: it stays in front, and nothing behind it is ever handed on. (`json`: the bytes whose
 text JSON.parse takes.)
 */
module Framing {
  import opened Basics

  const HEADER: nat := 4

  function U32(b: Bytes): nat
    requires |b| >= HEADER
  {
    (b[0] as nat) + 0x100 * (b[1] as nat) + 0x1_0000 * (b[2] as nat) + 0x100_0000 * (b[3] as nat)
  }

  function EncodeU32(n: nat): (b: Bytes)
    requires n < 0x1_0000_0000
    ensures |b| == HEADER && U32(b) == n
  {
    var n1 := n / 0x100;
    var n2 := n1 / 0x100;
    [(n % 0x100) as byte, (n1 % 0x100) as byte, (n2 % 0x100) as byte, (n2 / 0x100) as byte]
  }

  predicate Sendable(p: Bytes) { |p| < 0x1_0000_0000 }

  function Encode(p: Bytes): (r: Bytes)
    requires Sendable(p)
    ensures |r| == HEADER + |p|
  {
    EncodeU32(|p|) + p
  }

  ghost predicate AllSendable(ps: seq<Bytes>) {
    forall i :: 0 <= i < |ps| ==> Sendable(ps[i])
  }

  ghost function EncodeAll(ps: seq<Bytes>): Bytes
    requires AllSendable(ps)
  {
    if |ps| == 0 then [] else Encode(ps[0]) + EncodeAll(ps[1..])
  }

  /** The bytes begin with a whole frame. */
  predicate HasFrame(b: Bytes) {
    |b| >= HEADER && |b| >= HEADER + U32(b)
  }

  /** The frame the bytes begin with. */
  function Frame(b: Bytes): Bytes
    requires HasFrame(b)
  {
    b[HEADER..HEADER + U32(b)]
  }

  /** No frame at the front can be handed on: none is whole, or it does not parse. */
  predicate Stuck(b: Bytes, json: Bytes -> bool) {
    HasFrame(b) ==> !json(Frame(b))
  }

  /** The frames handed on from the front, and the rest. */
  function Drain(b: Bytes, json: Bytes -> bool): (r: (seq<Bytes>, Bytes))
    ensures Stuck(r.1, json)
    decreases |b|
  {
    if HasFrame(b) && json(Frame(b)) then
      var rest := Drain(b[HEADER + U32(b)..], json);
      ([Frame(b)] + rest.0, rest.1)
    else
      ([], b)
  }

  function Concat(cs: seq<Bytes>): Bytes {
    if |cs| == 0 then [] else Concat(cs[..|cs| - 1]) + cs[|cs| - 1]
  }

  class Connection {
    const json: Bytes -> bool
    var buf: Bytes
    /** The requests handed on so far, in order. */
    var handed: seq<Bytes>

    constructor (json: Bytes -> bool)
      ensures this.json == json && buf == [] && handed == []
    {
      this.json := json;
      buf, handed := [], [];
    }

    /** A chunk arrived. `threw`: a frame did not parse. */
    method OnData(d: Bytes) returns (threw: bool)
      modifies this
      ensures handed == old(handed) + Drain(old(buf) + d, json).0
      ensures buf == Drain(old(buf) + d, json).1
      ensures threw <==> HasFrame(buf)
    {
      buf := buf + d;
      threw := false;
      while |buf| >= HEADER
        invariant handed + Drain(buf, json).0 == old(handed) + Drain(old(buf) + d, json).0
        invariant Drain(buf, json).1 == Drain(old(buf) + d, json).1
        decreases |buf|
      {
        var n := U32(buf);
        if |buf| < HEADER + n { break; }
        var q := buf[HEADER..HEADER + n];
        if !json(q) {
          threw := true;
          break;
        }
        assert handed + Drain(buf, json).0 == handed + [q] + Drain(buf[HEADER + n..], json).0;
        buf := buf[HEADER + n..];
        handed := handed + [q];
      }
      assert Drain(buf, json) == ([], buf);
      assert handed + [] == handed;
    }
  }

  // ----- cutting the stream -----

  lemma U32Prefix(a: Bytes, b: Bytes)
    requires |a| >= HEADER
    ensures U32(a + b) == U32(a)
  {
    assert forall i :: 0 <= i < HEADER ==> (a + b)[i] == a[i];
  }

  lemma FramePrefix(a: Bytes, b: Bytes)
    requires HasFrame(a)
    ensures HasFrame(a + b) && U32(a + b) == U32(a) && Frame(a + b) == Frame(a)
  {
    U32Prefix(a, b);
  }

  /** More bytes only add frames: those found stay, the rest goes on from what was left. */
  lemma {:induction false} DrainMore(a: Bytes, b: Bytes, json: Bytes -> bool)
    ensures Drain(a + b, json).0 == Drain(a, json).0 + Drain(Drain(a, json).1 + b, json).0
    ensures Drain(a + b, json).1 == Drain(Drain(a, json).1 + b, json).1
    decreases |a|
  {
    if HasFrame(a) && json(Frame(a)) {
      var a' := a[HEADER + U32(a)..];
      FramePrefix(a, b);
      assert (a + b)[HEADER + U32(a)..] == a' + b;
      DrainMore(a', b, json);
      var rest := Drain(a', json);
      Concat3([Frame(a)], rest.0, Drain(rest.1 + b, json).0);
    } else {
      assert [] + Drain(a + b, json).0 == Drain(a + b, json).0;
    }
  }

  /** What a connection has handed on and kept after the chunks `cs`. */
  function Received(cs: seq<Bytes>, json: Bytes -> bool): (seq<Bytes>, Bytes) {
    if |cs| == 0 then ([], [])
    else
      var was := Received(cs[..|cs| - 1], json);
      var now := Drain(was.1 + cs[|cs| - 1], json);
      (was.0 + now.0, now.1)
  }

  /** The cuts do not matter: only the bytes do. */
  lemma {:induction false} CutsDoNotMatter(cs: seq<Bytes>, json: Bytes -> bool)
    ensures Received(cs, json) == Drain(Concat(cs), json)
  {
    if |cs| > 0 {
      CutsDoNotMatter(cs[..|cs| - 1], json);
      DrainMore(Concat(cs[..|cs| - 1]), cs[|cs| - 1], json);
    }
  }

  /** How many of the requests come before the first that does not parse. */
  function Leading(ps: seq<Bytes>, json: Bytes -> bool): (k: nat)
    ensures k <= |ps|
    ensures forall i :: 0 <= i < k ==> json(ps[i])
    ensures k < |ps| ==> !json(ps[k])
  {
    if |ps| == 0 || !json(ps[0]) then 0 else 1 + Leading(ps[1..], json)
  }

  lemma FrontFrame(p: Bytes, rest: Bytes)
    requires Sendable(p)
    ensures var b := Encode(p) + rest;
            && HasFrame(b) && Frame(b) == p && b[HEADER + U32(b)..] == rest
  {
    U32Prefix(EncodeU32(|p|), p + rest);
    assert Encode(p) + rest == EncodeU32(|p|) + (p + rest);
  }

  lemma OneMore(ps: seq<Bytes>, k: nat)
    requires k < |ps|
    ensures [ps[0]] + ps[1..][..k] == ps[..k + 1] && ps[1..][k..] == ps[k + 1..]
  {
  }

  /**
   The requests before the first that does not parse come out as they were sent; it and everything behind it stay
   in the buffer, as does an unfinished frame.
   */
  lemma {:induction false} DrainEncoded(ps: seq<Bytes>, tail: Bytes, json: Bytes -> bool)
    requires AllSendable(ps) && Stuck(tail, json)
    ensures var k := Leading(ps, json);
            Drain(EncodeAll(ps) + tail, json) == (ps[..k], EncodeAll(ps[k..]) + tail)
  {
    if |ps| == 0 {
      assert EncodeAll(ps) + tail == tail;
    } else {
      var p := ps[0];
      var rest := EncodeAll(ps[1..]) + tail;
      Concat3(Encode(p), EncodeAll(ps[1..]), tail);
      FrontFrame(p, rest);
      if json(p) {
        var k := Leading(ps[1..], json);
        DrainEncoded(ps[1..], tail, json);
        OneMore(ps, k);
      } else {
        assert ps[0..] == ps;
      }
    }
  }

  lemma UnfinishedHasNoFrame(p: Bytes, k: nat)
    requires Sendable(p) && k < |Encode(p)|
    ensures !HasFrame(Encode(p)[..k])
  {
    if k >= HEADER {
      assert Encode(p)[..k] == EncodeU32(|p|) + Encode(p)[HEADER..k];
      U32Prefix(EncodeU32(|p|), Encode(p)[HEADER..k]);
    }
  }

  lemma AllLeading(ps: seq<Bytes>, json: Bytes -> bool)
    ensures ps[..Leading(ps, json)] == ps <==> forall i :: 0 <= i < |ps| ==> json(ps[i])
  {
    if Leading(ps, json) == |ps| { assert ps[..|ps|] == ps; }
  }

  /**
   However the bytes of the frames `ps`, followed by `k` bytes of the next one, are cut into chunks: the
   connection hands on exactly the requests before the first that does not parse, and keeps all other bytes.
   */
  lemma FramesSurviveCutting(ps: seq<Bytes>, next: Bytes, k: nat, cs: seq<Bytes>, json: Bytes -> bool)
    requires AllSendable(ps) && Sendable(next) && k < |Encode(next)|
    requires Concat(cs) == EncodeAll(ps) + Encode(next)[..k]
    ensures var good := Leading(ps, json);
            Received(cs, json) == (ps[..good], EncodeAll(ps[good..]) + Encode(next)[..k])
    ensures Received(cs, json).0 == ps <==> forall i :: 0 <= i < |ps| ==> json(ps[i])
  {
    CutsDoNotMatter(cs, json);
    UnfinishedHasNoFrame(next, k);
    DrainEncoded(ps, Encode(next)[..k], json);
    AllLeading(ps, json);
  }

  /** The object receives what `Received` says, chunk by chunk. */
  method Receive(c: Connection, cs: seq<Bytes>)
    requires c.buf == [] && c.handed == []
    modifies c
    ensures (c.handed, c.buf) == Received(cs, c.json)
  {
    var i := 0;
    assert cs[..0] == [];
    while i < |cs|
      invariant 0 <= i <= |cs|
      invariant (c.handed, c.buf) == Received(cs[..i], c.json)
    {
      assert cs[..i + 1][..i] == cs[..i];
      var _ := c.OnData(cs[i]);
      i := i + 1;
    }
    assert cs[..|cs|] == cs;
  }
}
