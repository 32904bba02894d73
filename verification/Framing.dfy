/** Packets on the byte stream: a two-byte little-endian payload length followed by the payload. */
module Framing {
  import opened Words
  import opened Sequences

  type Packet = seq<byte>

  const MAX_PACKET := 65537  // 65535 bytes of payload and the header

  function Header(n: nat): (h: seq<byte>)
    requires n < 0x1_0000
    ensures |h| == 2 && HeaderValue(h[0], h[1]) == n
  {
    [n % 0x100, n / 0x100]
  }

  function HeaderValue(b0: byte, b1: byte): (n: nat)
    ensures n < 0x1_0000
  {
    b0 + 0x100 * b1
  }

  /** What `SendData` puts on the stream for a buffer of `data`: the header holds `len - 2` cut to 16
      bits, and of a buffer shorter than the header only the first `len` header bytes go out. */
  function WireForm(data: seq<byte>): (w: Packet)
    ensures |w| == |data|
    ensures |data| >= 2 ==> w[2..] == data[2..] && HeaderValue(w[0], w[1]) == (|data| - 2) % 0x1_0000
  {
    var h := Header((|data| - 2) % 0x1_0000);
    if |data| < 2 then h[..|data|] else h + data[2..]
  }

  /** The octets of the header: the length of the payload cut to 16 bits, its low octet first. */
  lemma HeaderOctets(data: seq<byte>)
    ensures |data| >= 1 ==> WireForm(data)[0] == (|data| - 2) % 256
    ensures |data| >= 2 ==> WireForm(data)[1] == (|data| - 2) / 256 % 256
  {
    var n := |data| - 2;
    var q, r := n / 0x1_0000, n % 0x1_0000;
    ModUnique(n, 256, r / 256 + q * 256, r % 256);
    ModMultiple(r / 256, q, 256);
  }

  predicate WellFormed(p: Packet) {
    3 <= |p| <= MAX_PACKET && HeaderValue(p[0], p[1]) == |p| - 2
  }

  predicate AllWellFormed(ps: seq<Packet>) {
    forall p :: p in ps ==> WellFormed(p)
  }

  function Concat(ps: seq<seq<byte>>): (s: seq<byte>) {
    if ps == [] then [] else ps[0] + Concat(ps[1..])
  }

  /** The stream begins with a header the receiver refuses. */
  predicate Rejected(s: seq<byte>) {
    |s| >= 2 && HeaderValue(s[0], s[1]) == 0
  }

  /** The stream begins with a complete packet. */
  predicate HasPacket(s: seq<byte>) {
    |s| >= 2 && HeaderValue(s[0], s[1]) != 0 && |s| >= HeaderValue(s[0], s[1]) + 2
  }

  datatype Parsed = Parsed(packets: seq<Packet>, rest: seq<byte>)

  /** Packets cut off the front of a stream until none is complete, and the bytes left over. */
  function Parse(s: seq<byte>): (r: Parsed) {
    if !HasPacket(s) then Parsed([], s)
    else
      var n := HeaderValue(s[0], s[1]) + 2;
      var tail := Parse(s[n..]);
      Parsed([s[..n]] + tail.packets, tail.rest)
  }

  lemma {:induction false} ConcatAppend(ps: seq<seq<byte>>, qs: seq<seq<byte>>)
    ensures Concat(ps + qs) == Concat(ps) + Concat(qs)
  {
    if ps == [] {
      assert ps + qs == qs;
    } else {
      assert (ps + qs)[0] == ps[0] && (ps + qs)[1..] == ps[1..] + qs;
      ConcatAppend(ps[1..], qs);
    }
  }

  lemma ConcatSnoc(ps: seq<seq<byte>>, p: seq<byte>)
    ensures Concat(ps + [p]) == Concat(ps) + p
  {
    ConcatAppend(ps, [p]);
    assert Concat([p]) == p;
  }

  /** The first complete packet of a stream, and the rest. */
  lemma FirstPacket(s: seq<byte>) returns (p: Packet, tail: seq<byte>)
    requires HasPacket(s)
    ensures s == p + tail && WellFormed(p)
    ensures var n := HeaderValue(s[0], s[1]) + 2; p == s[..n] && tail == s[n..]
    ensures Parse(s) == Parsed([p] + Parse(tail).packets, Parse(tail).rest)
  {
    var n := HeaderValue(s[0], s[1]) + 2;
    p, tail := s[..n], s[n..];
  }

  lemma ParseDone(s: seq<byte>, ps: seq<Packet>)
    ensures !HasPacket(s) ==> ps + Parse(s).packets == ps && Parse(s).rest == s
  {}

  /** Parsing loses, adds and reorders nothing, and stops only where no packet is complete. */
  lemma {:induction false} ParseSound(s: seq<byte>)
    ensures Concat(Parse(s).packets) + Parse(s).rest == s
    ensures AllWellFormed(Parse(s).packets) && !HasPacket(Parse(s).rest)
    ensures Rejected(Parse(s).rest) || |Parse(s).rest| < MAX_PACKET
  {
    if !HasPacket(s) {
    } else {
      var p, tail := FirstPacket(s);
      ParseSound(tail);
      var q := Parse(tail);
      assert ([p] + q.packets)[1..] == q.packets;
      Assoc(p, Concat(q.packets), q.rest);
    }
  }

  lemma ParseFirst(p: Packet, tail: seq<byte>)
    requires WellFormed(p)
    ensures Parse(p + tail) == Parsed([p] + Parse(tail).packets, Parse(tail).rest)
  {
    var s := p + tail;
    assert s[0] == p[0] && s[1] == p[1];
    assert s[..|p|] == p && s[|p|..] == tail;
  }

  /** The framing is a prefix code: there is only one way to cut a stream into packets and a rest. */
  lemma {:induction false} ParseUnique(ps: seq<Packet>, rest: seq<byte>)
    requires AllWellFormed(ps) && !HasPacket(rest)
    ensures Parse(Concat(ps) + rest) == Parsed(ps, rest)
  {
    var s := Concat(ps) + rest;
    if ps == [] {
      assert s == rest;
    } else {
      assert ps[0] in ps;
      Assoc(ps[0], Concat(ps[1..]), rest);
      ParseFirst(ps[0], Concat(ps[1..]) + rest);
      ParseUnique(ps[1..], rest);
      assert [ps[0]] + ps[1..] == ps;
    }
  }

  lemma RoundTrip(ps: seq<Packet>)
    requires AllWellFormed(ps)
    ensures Parse(Concat(ps)) == Parsed(ps, [])
  {
    ParseUnique(ps, []);
    assert Concat(ps) + [] == Concat(ps);
  }

  lemma Regroup(x: seq<byte>, y: seq<byte>, b: seq<byte>, u: seq<byte>, v: seq<byte>)
    requires y + b == u + v
    ensures (x + y) + b == (x + u) + v
  {
    Assoc(x, y, b);
    Assoc(x, u, v);
  }

  lemma AllAppend(ps: seq<Packet>, qs: seq<Packet>)
    requires AllWellFormed(ps) && AllWellFormed(qs)
    ensures AllWellFormed(ps + qs)
  {}

  /** Parsing in two passes, the second over the rest of the first and what came since, is parsing once. */
  lemma ParseAppend(a: seq<byte>, b: seq<byte>)
    ensures Parse(a + b).packets == Parse(a).packets + Parse(Parse(a).rest + b).packets
    ensures Parse(a + b).rest == Parse(Parse(a).rest + b).rest
  {
    var p := Parse(a);
    var q := Parse(p.rest + b);
    ParseSound(a);
    ParseSound(p.rest + b);
    ConcatAppend(p.packets, q.packets);
    Regroup(Concat(p.packets), p.rest, b, Concat(q.packets), q.rest);
    AllAppend(p.packets, q.packets);
    ParseUnique(p.packets + q.packets, q.rest);
  }

  /** Passes over a stream that arrives in chunks. */
  function Feed(state: Parsed, chunks: seq<seq<byte>>): (r: Parsed)
    decreases |chunks|
  {
    if chunks == [] then state
    else
      var p := Parse(state.rest + chunks[0]);
      Feed(Parsed(state.packets + p.packets, p.rest), chunks[1..])
  }

  /** Wherever the stream is cut into chunks and passes, the outcome depends on the stream alone. */
  lemma {:induction false} ChunkingIndependent(s: seq<byte>, chunks: seq<seq<byte>>)
    ensures Feed(Parse(s), chunks) == Parse(s + Concat(chunks))
    decreases |chunks|
  {
    if chunks == [] {
      assert s + Concat(chunks) == s;
    } else {
      var c, more := chunks[0], chunks[1..];
      ParseAppend(s, c);
      ChunkingIndependent(s + c, more);
      Assoc(s, c, Concat(more));
    }
  }

  lemma RejectedStays(s: seq<byte>, more: seq<byte>)
    ensures Rejected(s) ==> Rejected(s + more) && !HasPacket(s + more)
  {
    if |s| >= 2 { assert (s + more)[0] == s[0] && (s + more)[1] == s[1]; }
  }

  /** A part of a stream of packets parses to a prefix of those packets, whichever byte it ends at. */
  lemma ParsePrefix(ps: seq<Packet>, a: seq<byte>, b: seq<byte>)
    requires AllWellFormed(ps) && Concat(ps) == a + b
    ensures Parse(a).packets <= ps && !Rejected(Parse(a).rest)
  {
    RoundTrip(ps);
    ParseAppend(a, b);
    RejectedStays(Parse(a).rest, b);
  }

  /** After a refused header nothing more is delivered, whatever arrives. */
  lemma RejectedIsFinal(s: seq<byte>, more: seq<byte>)
    requires Rejected(Parse(s).rest)
    ensures Parse(s + more) == Parsed(Parse(s).packets, Parse(s).rest + more)
  {
    ParseAppend(s, more);
    RejectedStays(Parse(s).rest, more);
  }

  /** Exactly the buffers of at least three bytes reach the other side as the packet that was sent:
      shorter ones vanish, shift every later header by a byte, or stop the receiver. */
  lemma SentPacketArrivesIff(data: seq<byte>, later: seq<byte>)
    requires |data| <= MAX_PACKET
    ensures Parse(WireForm(data) + later) == Parsed([WireForm(data)] + Parse(later).packets, Parse(later).rest)
            <==> |data| >= 3
  {
    var w := WireForm(data);
    var s := w + later;
    if |data| >= 2 { assert s[0] == w[0] && s[1] == w[1]; }
    if |data| >= 3 {
      ParseFirst(w, later);
    } else if HasPacket(s) {
      var p, tail := FirstPacket(s);
      assert Parse(s).packets[0] == p && |p| >= 3;
    }
  }
}
