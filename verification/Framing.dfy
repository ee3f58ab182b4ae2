/** Length-prefixed messages over a byte stream that arrives in chunks. */
module Framing {
  import opened Results

  type Byte = b: nat | b < 256

  type Bytes = seq<Byte>

  const PREFIX_LIMIT: nat := 0x1_0000_0000

  function Min(a: nat, b: nat): nat
  {
    if a <= b then a else b
  }

  /** A 32-bit number in network byte order, most significant octet first (Appendix B of RFC 791). */
  function EncodePrefix(n: nat): (p: Bytes)
    ensures |p| == 4
  {
    [n / 0x100_0000 % 256, n / 0x1_0000 % 256, n / 0x100 % 256, n % 256]
  }

  function DecodePrefix(p: Bytes): (n: nat)
    requires |p| == 4
    ensures n < PREFIX_LIMIT
  {
    var a: nat, b: nat, c: nat, d: nat := p[0], p[1], p[2], p[3];
    a * 0x100_0000 + b * 0x1_0000 + c * 0x100 + d
  }

  lemma {:induction false} PrefixRoundTrip(n: nat)
    ensures DecodePrefix(EncodePrefix(n)) == n % PREFIX_LIMIT
  {
    var a, b, c := n / 0x100_0000, n / 0x1_0000, n / 0x100;
    LowByte(n);
    LowByte(c);
    LowByte(b);
    LowByte(a);
    assert b == c / 256 && a == b / 256;
    assert n == (a / 256) * PREFIX_LIMIT + DecodePrefix(EncodePrefix(n));
  }

  lemma {:induction false} LowByte(x: nat)
    ensures x == (x / 256) * 256 + x % 256
  {
  }

  /** The lexicographic order of byte sequences of the same length. */
  predicate Precedes(p: Bytes, q: Bytes)
    requires |p| == |q|
  {
    p != [] && (p[0] < q[0] || (p[0] == q[0] && Precedes(p[1..], q[1..])))
  }

  lemma {:induction false} PrecedesInFour(p: Bytes, q: Bytes)
    requires |p| == |q| == 4
    ensures Precedes(p, q) <==>
      || p[0] < q[0]
      || (p[0] == q[0] && p[1] < q[1])
      || (p[0] == q[0] && p[1] == q[1] && p[2] < q[2])
      || (p[0] == q[0] && p[1] == q[1] && p[2] == q[2] && p[3] < q[3])
  {
    assert p[1..][1..] == p[2..] && q[1..][1..] == q[2..];
    assert p[2..][1..] == p[3..] && q[2..][1..] == q[3..];
    assert p[3..][1..] == [] && q[3..][1..] == [];
    assert Precedes(p[3..], q[3..]) <==> p[3] < q[3];
    assert Precedes(p[2..], q[2..]) <==> p[2] < q[2] || (p[2] == q[2] && Precedes(p[3..], q[3..]));
  }

  /** Prefixes are read with the most significant byte first. */
  lemma {:induction false} DecodeOrder(p: Bytes, q: Bytes)
    requires |p| == |q| == 4
    ensures DecodePrefix(p) < DecodePrefix(q) <==> Precedes(p, q)
  {
    PrecedesInFour(p, q);
  }

  lemma {:induction false} PrefixExact(n: nat)
    requires n < PREFIX_LIMIT
    ensures DecodePrefix(EncodePrefix(n)) == n
  {
    PrefixRoundTrip(n);
  }

  lemma {:induction false} OrderOfDecoded(n: nat, k: nat, p: Bytes, q: Bytes)
    requires |p| == |q| == 4 && DecodePrefix(p) == n && DecodePrefix(q) == k
    ensures n < k <==> Precedes(p, q)
  {
    DecodeOrder(p, q);
  }

  /** The prefixes of larger sizes come later in lexicographic order. */
  lemma {:induction false} PrefixOrder(n: nat, k: nat)
    requires n < PREFIX_LIMIT && k < PREFIX_LIMIT
    ensures n < k <==> Precedes(EncodePrefix(n), EncodePrefix(k))
  {
    PrefixExact(n);
    PrefixExact(k);
    OrderOfDecoded(n, k, EncodePrefix(n), EncodePrefix(k));
  }

  /** A size below 256 is the last byte of its prefix. */
  lemma {:induction false} SmallPrefix(n: nat)
    requires n < 256
    ensures EncodePrefix(n) == [0, 0, 0, n]
  {
  }

  /** frameMsg: the size that is written is that of the message modulo 2^32. */
  function Frame(msg: Bytes): Bytes
  {
    EncodePrefix(|msg|) + msg
  }

  function Frames(msgs: seq<Bytes>): Bytes
  {
    if msgs == [] then [] else Frame(msgs[0]) + Frames(msgs[1..])
  }

  ghost predicate Fit(msgs: seq<Bytes>)
  {
    forall k :: 0 <= k < |msgs| ==> |msgs[k]| < PREFIX_LIMIT
  }

  /** The packet being received: the bytes so far and how many are missing. */
  datatype Open = Open(got: Bytes, missing: nat)

  datatype Receiver = Receiver(packets: seq<Bytes>, open: Option<Open>)

  datatype Fed = Fed(receiver: Receiver, ok: bool)

  predicate Proper(s: Receiver)
  {
    s.open.Some? ==> s.open.value.missing > 0
  }

  /** Takes as much of the data as the open packet misses. */
  function Absorb(s: Receiver, data: Bytes): (r: Receiver)
    requires s.open.Some?
    ensures Proper(r)
  {
    var o := s.open.value;
    var k := Min(o.missing, |data|);
    if k == o.missing then Receiver(s.packets + [o.got + data[..k]], None)
    else Receiver(s.packets, Some(Open(o.got + data[..k], o.missing - k)))
  }

  function Rest(s: Receiver, data: Bytes): Bytes
    requires s.open.Some?
  {
    data[Min(s.open.value.missing, |data|)..]
  }

  function Begin(s: Receiver, data: Bytes): Receiver
    requires |data| >= 4
  {
    s.(open := Some(Open([], DecodePrefix(data[..4]))))
  }

  /** What a receiver is after a chunk; a chunk that ends inside a prefix fails after all complete packets. */
  function Feed(s: Receiver, data: Bytes): (r: Fed)
    requires Proper(s)
    ensures Proper(r.receiver)
    decreases |data|
  {
    if data == [] then Fed(s, true)
    else if s.open.Some? then Feed(Absorb(s, data), Rest(s, data))
    else if |data| < 4 then Fed(s, false)
    else Feed(Absorb(Begin(s, data), data[4..]), Rest(Begin(s, data), data[4..]))
  }

  // ----- chunks compose -----

  lemma {:induction false} AbsorbEnough(s: Receiver, a: Bytes, b: Bytes)
    requires s.open.Some? && s.open.value.missing <= |a|
    ensures Absorb(s, a + b) == Absorb(s, a) && Rest(s, a + b) == Rest(s, a) + b
  {
    var k := s.open.value.missing;
    assert (a + b)[..k] == a[..k];
    assert (a + b)[k..] == a[k..] + b;
  }

  lemma {:induction false} AbsorbAll(s: Receiver, a: Bytes, b: Bytes)
    requires s.open.Some? && s.open.value.missing > |a|
    ensures Rest(s, a) == [] && Absorb(s, a).open.Some?
    ensures Absorb(s, a + b) == Absorb(Absorb(s, a), b) && Rest(s, a + b) == Rest(Absorb(s, a), b)
  {
    var o := s.open.value;
    var k := Min(o.missing, |a + b|);
    assert a[..|a|] == a;
    assert (a + b)[..k] == a + b[..k - |a|];
    assert o.got + (a + b[..k - |a|]) == (o.got + a) + b[..k - |a|];
    assert (a + b)[k..] == b[k - |a|..];
  }

  /** Continuing an open packet with a and then with b is continuing it with both. */
  lemma {:induction false} ResumeConcat(s: Receiver, a: Bytes, b: Bytes)
    requires s.open.Some?
    requires Feed(Absorb(s, a), Rest(s, a)).ok
    ensures Feed(Absorb(s, a + b), Rest(s, a + b)) == Feed(Feed(Absorb(s, a), Rest(s, a)).receiver, b)
    decreases |a|, if s.open.value.missing > 0 then 0 else 2
  {
    if s.open.value.missing <= |a| {
      AbsorbEnough(s, a, b);
      FeedConcat(Absorb(s, a), Rest(s, a), b);
    } else {
      AbsorbAll(s, a, b);
      if b == [] {
        assert Rest(Absorb(s, a), b) == [];
        assert a + b == a;
      }
    }
  }

  /** Processing a and then b is processing a followed by b. */
  lemma {:induction false} FeedConcat(s: Receiver, a: Bytes, b: Bytes)
    requires Proper(s) && Feed(s, a).ok
    ensures Feed(s, a + b) == Feed(Feed(s, a).receiver, b)
    decreases |a|, 1
  {
    if a == [] {
      assert a + b == b;
    } else if s.open.Some? {
      ResumeConcat(s, a, b);
    } else {
      assert (a + b)[..4] == a[..4] && (a + b)[4..] == a[4..] + b;
      ResumeConcat(Begin(s, a), a[4..], b);
    }
  }

  // ----- streams of framed messages -----

  /** Receiving one whole frame delivers its message. */
  lemma {:induction false} FeedFrame(ps: seq<Bytes>, msg: Bytes, rest: Bytes)
    requires |msg| < PREFIX_LIMIT
    ensures Feed(Receiver(ps, None), Frame(msg) + rest) == Feed(Receiver(ps + [msg], None), rest)
  {
    var data, s := Frame(msg) + rest, Receiver(ps, None);
    PrefixRoundTrip(|msg|);
    assert data[..4] == EncodePrefix(|msg|);
    assert data[4..] == msg + rest;
    assert Begin(s, data).open.value == Open([], |msg|);
    assert (msg + rest)[..|msg|] == msg && [] + msg == msg;
    assert Rest(Begin(s, data), msg + rest) == rest;
  }

  /** The whole stream delivers exactly the messages, in order. */
  lemma {:induction false} FeedFrames(ps: seq<Bytes>, msgs: seq<Bytes>)
    requires Fit(msgs)
    ensures Feed(Receiver(ps, None), Frames(msgs)) == Fed(Receiver(ps + msgs, None), true)
    decreases |msgs|
  {
    if msgs == [] {
      assert ps + msgs == ps;
    } else {
      var qs, rest := ps + [msgs[0]], msgs[1..];
      assert qs + rest == ps + msgs;
      FeedFrame(ps, msgs[0], Frames(rest));
      FeedFrames(qs, rest);
    }
  }

  /** The offset lies inside the length prefix of one of the frames. */
  predicate InPrefix(msgs: seq<Bytes>, offset: nat)
  {
    msgs != [] &&
    (0 < offset < 4 || (offset >= 4 + |msgs[0]| && InPrefix(msgs[1..], offset - 4 - |msgs[0]|)))
  }

  /** A chunk that ends inside a message is accepted. */
  lemma {:induction false} FeedInside(ps: seq<Bytes>, msg: Bytes, part: Bytes)
    requires |msg| < PREFIX_LIMIT && 4 <= |part| < 4 + |msg| && part == Frame(msg)[..|part|]
    ensures Feed(Receiver(ps, None), part).ok
  {
    var s := Receiver(ps, None);
    PrefixRoundTrip(|msg|);
    assert part[..4] == EncodePrefix(|msg|);
    assert Rest(Begin(s, part), part[4..]) == [];
  }

  lemma {:induction false} FramesPart(msgs: seq<Bytes>, offset: nat)
    requires msgs != [] && offset <= |Frames(msgs)|
    ensures offset < 4 + |msgs[0]| ==> Frames(msgs)[..offset] == Frame(msgs[0])[..offset]
    ensures offset >= 4 + |msgs[0]| ==>
      offset - 4 - |msgs[0]| <= |Frames(msgs[1..])| &&
      Frames(msgs)[..offset] == Frame(msgs[0]) + Frames(msgs[1..])[..offset - 4 - |msgs[0]|]
  {
  }

  /** A first part of the stream is accepted exactly when it does not end inside a prefix. */
  lemma {:induction false} FeedPart(ps: seq<Bytes>, msgs: seq<Bytes>, offset: nat)
    requires Fit(msgs) && offset <= |Frames(msgs)|
    ensures Feed(Receiver(ps, None), Frames(msgs)[..offset]).ok <==> !InPrefix(msgs, offset)
    decreases |msgs|
  {
    if msgs != [] && offset > 0 {
      var msg := msgs[0];
      FramesPart(msgs, offset);
      if 4 + |msg| <= offset {
        FeedFrame(ps, msg, Frames(msgs[1..])[..offset - 4 - |msg|]);
        FeedPart(ps + [msg], msgs[1..], offset - 4 - |msg|);
      } else if 4 <= offset {
        FeedInside(ps, msg, Frames(msgs)[..offset]);
      }
    }
  }

  function Concat(chunks: seq<Bytes>): Bytes
  {
    if chunks == [] then [] else Concat(chunks[..|chunks| - 1]) + chunks[|chunks| - 1]
  }

  /** One chunk after the other; a failure stops the reception. */
  function FeedAll(s: Receiver, chunks: seq<Bytes>): (r: Fed)
    requires Proper(s)
    ensures Proper(r.receiver)
  {
    if chunks == [] then Fed(s, true)
    else
      var r := FeedAll(s, chunks[..|chunks| - 1]);
      if r.ok then Feed(r.receiver, chunks[|chunks| - 1]) else r
  }

  /** As long as nothing fails, chunks are received as if they were one. */
  lemma {:induction false} ChunksAreOne(s: Receiver, chunks: seq<Bytes>)
    requires Proper(s) && FeedAll(s, chunks).ok
    ensures FeedAll(s, chunks) == Feed(s, Concat(chunks))
  {
    if chunks != [] {
      var front, last := chunks[..|chunks| - 1], chunks[|chunks| - 1];
      ChunksAreOne(s, front);
      FeedConcat(s, Concat(front), last);
    }
  }

  /** No chunk ends inside a length prefix. */
  ghost predicate KeepsPrefixes(msgs: seq<Bytes>, chunks: seq<Bytes>)
  {
    forall k :: 0 <= k <= |chunks| ==> CutKeepsPrefix(msgs, chunks, k)
  }

  predicate CutKeepsPrefix(msgs: seq<Bytes>, chunks: seq<Bytes>, k: nat)
    requires k <= |chunks|
  {
    !InPrefix(msgs, |Concat(chunks[..k])|)
  }

  lemma {:induction false} ConcatSplit(chunks: seq<Bytes>, k: nat)
    requires k <= |chunks|
    ensures |Concat(chunks[..k])| <= |Concat(chunks)|
    ensures Concat(chunks)[..|Concat(chunks[..k])|] == Concat(chunks[..k])
  {
    if k == |chunks| {
      assert chunks[..k] == chunks;
    } else {
      var front := chunks[..|chunks| - 1];
      ConcatSplit(front, k);
      assert front[..k] == chunks[..k];
    }
  }

  lemma {:induction false} PartAccepted(msgs: seq<Bytes>, chunks: seq<Bytes>, k: nat)
    requires Fit(msgs) && Concat(chunks) == Frames(msgs) && k <= |chunks|
    ensures Feed(Receiver([], None), Concat(chunks[..k])).ok <==> CutKeepsPrefix(msgs, chunks, k)
  {
    ConcatSplit(chunks, k);
    FeedPart([], msgs, |Concat(chunks[..k])|);
  }

  lemma {:induction false} NextChunk(s: Receiver, chunks: seq<Bytes>)
    requires Proper(s) && chunks != []
    ensures FeedAll(s, chunks).ok <==> FeedAll(s, chunks[..|chunks| - 1]).ok && Feed(s, Concat(chunks)).ok
  {
    var front, last := chunks[..|chunks| - 1], chunks[|chunks| - 1];
    if FeedAll(s, front).ok {
      ChunksAreOne(s, front);
      FeedConcat(s, Concat(front), last);
    }
  }

  lemma {:induction false} FeedAllPrefix(msgs: seq<Bytes>, chunks: seq<Bytes>, k: nat)
    requires Fit(msgs) && Concat(chunks) == Frames(msgs) && k <= |chunks|
    ensures FeedAll(Receiver([], None), chunks[..k]).ok <==> forall j :: 0 <= j <= k ==> CutKeepsPrefix(msgs, chunks, j)
  {
    var s := Receiver([], None);
    PartAccepted(msgs, chunks, k);
    if k > 0 {
      FeedAllPrefix(msgs, chunks, k - 1);
      NextChunk(s, chunks[..k]);
      assert chunks[..k][..k - 1] == chunks[..k - 1];
    }
  }

  /** However the stream is cut, it is accepted exactly when no cut is inside a prefix, and then gives the messages. */
  lemma {:induction false} AnyChunking(msgs: seq<Bytes>, chunks: seq<Bytes>)
    requires Fit(msgs) && Concat(chunks) == Frames(msgs)
    ensures FeedAll(Receiver([], None), chunks).ok <==> KeepsPrefixes(msgs, chunks)
    ensures KeepsPrefixes(msgs, chunks) ==> FeedAll(Receiver([], None), chunks) == Fed(Receiver(msgs, None), true)
  {
    FeedAllPrefix(msgs, chunks, |chunks|);
    assert chunks[..|chunks|] == chunks;
    if KeepsPrefixes(msgs, chunks) {
      ChunksAreOne(Receiver([], None), chunks);
      FeedFrames([], msgs);
      assert [] + msgs == msgs;
    }
  }

  // ----- the object -----

  /** A packet buffer of full size; the last bytes of it are not received yet. */
  datatype InflightPacket = InflightPacket(packet: Bytes, remaining: nat)

  class FramingManager {
    var outstanding: seq<Bytes>
    var inflight: Option<InflightPacket>

    ghost predicate Consistent()
      reads this
    {
      inflight.Some? ==> inflight.value.remaining <= |inflight.value.packet|
    }

    ghost predicate Valid()
      reads this
    {
      Consistent() && (inflight.Some? ==> inflight.value.remaining > 0)
    }

    ghost function State(): Receiver
      requires Consistent()
      reads this
    {
      if inflight.None? then Receiver(outstanding, None)
      else
        var p := inflight.value;
        Receiver(outstanding, Some(Open(p.packet[..|p.packet| - p.remaining], p.remaining)))
    }

    constructor ()
      ensures Valid() && State() == Receiver([], None)
    {
      outstanding, inflight := [], None;
    }

    static method FrameMsg(msg: Bytes) returns (data: Bytes)
      ensures |msg| < 256 ==> data == [0, 0, 0, |msg|] + msg
      ensures data == Frame(msg)
    {
      if |msg| < 256 { SmallPrefix(|msg|); }
      data := seq(|msg| + 4, _ => 0);
      data := EncodePrefix(|msg|) + data[4..];
      data := data[..4] + msg;
    }

    /** Copies what is there into the buffer. */
    method ReadPacket(msg: Bytes, offset: nat) returns (next: nat)
      requires Consistent() && inflight.Some? && offset <= |msg|
      modifies this
      ensures Valid()
      ensures State() == Absorb(old(State()), msg[offset..])
      ensures offset <= next <= |msg| && msg[next..] == Rest(old(State()), msg[offset..])
    {
      var p := inflight.value;
      var available := |msg| - offset;
      var read := Min(available, p.remaining);
      var position := |p.packet| - p.remaining;
      var data := msg[offset..offset + read];
      var packet := p.packet[..position] + data + p.packet[position + read..];
      inflight := Some(InflightPacket(packet, p.remaining - read));
      assert msg[offset..][..read] == data;
      assert packet[..position + read] == p.packet[..position] + data;
      if p.remaining - read == 0 {
        assert packet == packet[..position + read];
        outstanding := outstanding + [packet];
        inflight := None;
      }
      next := offset + read;
      assert msg[offset..][read..] == msg[next..];
    }

    method HandleNewPacket(msg: Bytes, offset: nat) returns (r: Result<nat>)
      requires Valid() && inflight.None? && offset <= |msg|
      modifies this
      ensures Valid()
      ensures r.Err? <==> offset + 4 > |msg|
      ensures r.Err? ==> State() == old(State())
      ensures r.Ok? ==> State() == Absorb(Begin(old(State()), msg[offset..]), msg[offset + 4..])
      ensures r.Ok? ==> offset + 4 <= r.value <= |msg|
      ensures r.Ok? ==> msg[r.value..] == Rest(Begin(old(State()), msg[offset..]), msg[offset + 4..])
    {
      if offset + 4 > |msg| { return Err("Message splitted in length delimiter"); }
      assert msg[offset..][..4] == msg[offset..offset + 4];
      var size := DecodePrefix(msg[offset..offset + 4]);
      inflight := Some(InflightPacket(seq(size, _ => 0), size));
      var next := ReadPacket(msg, offset + 4);
      return Ok(next);
    }

    method ProcessNewData(msg: Bytes) returns (r: Result<()>)
      requires Valid()
      modifies this
      ensures Valid()
      ensures r.Ok? <==> Feed(old(State()), msg).ok
      ensures State() == Feed(old(State()), msg).receiver
    {
      var next: nat := 0;
      assert msg[0..] == msg;
      while next < |msg|
        invariant Valid() && next <= |msg|
        invariant Feed(State(), msg[next..]) == Feed(old(State()), msg)
      {
        if inflight.Some? {
          next := ReadPacket(msg, next);
        } else {
          assert next + 4 <= |msg| ==> msg[next..][4..] == msg[next + 4..];
          var step := HandleNewPacket(msg, next);
          if step.Err? { return Err(step.message); }
          next := step.value;
        }
      }
      return Ok(());
    }

    method NextPacket() returns (r: Result<Bytes>)
      requires Valid()
      modifies this
      ensures Valid() && (r.Err? <==> old(State()).packets == [])
      ensures r.Ok? ==> [r.value] + State().packets == old(State()).packets && State().open == old(State()).open
      ensures r.Err? ==> State() == old(State())
    {
      if outstanding == [] { return Err("No packets available"); }
      r := Ok(outstanding[0]);
      outstanding := outstanding[1..];
    }
  }
}
