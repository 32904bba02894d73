/** The socket wrapper: packets into the sender ring, the sender ring into the kernel, the kernel into
    the receiver ring, and packets out of the receiver ring.  Each method runs here without
    interference; `Transport` interleaves them.  The kernel is a pair of FIFO byte streams that take
    or give a nonzero number of bytes, or fault. */
module TcpSockets {
  import opened Words
  import opened RingBuffers
  import opened Framing
  import opened Sequences

  datatype ConnState = Closed | Connecting | Connected

  // Outcome of a system call that moves no bytes: EAGAIN or EINTR, or any other error.
  datatype Fault = NoFault | Interrupted | Broken

  // What the kernel does with one `send`: takes up to so many bytes, but at least one, or faults.
  datatype SendOutcome = Takes(most: nat) | Refuses(fault: Fault)

  /** The number of calls of `send` before the first that is refused; after `outcomes` the kernel is busy. */
  function FirstRefusal(outcomes: seq<SendOutcome>): (i: nat)
    ensures i <= |outcomes| && forall k :: 0 <= k < i ==> outcomes[k].Takes?
    ensures i < |outcomes| ==> outcomes[i].Refuses?
  {
    if outcomes == [] || outcomes[0].Refuses? then 0 else 1 + FirstRefusal(outcomes[1..])
  }

  /** The first refusal is an error, and not EAGAIN or EINTR. */
  predicate Breaks(outcomes: seq<SendOutcome>) {
    var i := FirstRefusal(outcomes);
    i < |outcomes| && outcomes[i].fault.Broken?
  }

  /** The most bytes that the calls before the first refusal can take. */
  function Allowance(outcomes: seq<SendOutcome>): nat {
    if outcomes == [] || outcomes[0].Refuses? then 0
    else (if outcomes[0].most == 0 then 1 else outcomes[0].most) + Allowance(outcomes[1..])
  }

  const RING_CAPACITY: u32 := 0x100_0000  // 16 * 1024 * 1024
  const RING_ORDER: nat := 24

  class TcpSocketWrapper {
    const senderBuffer: RingBuffer
    const receiverBuffer: RingBuffer
    var state: ConnState
    var readArmed: bool       // socket_read_event_ is registered
    var writeArmed: bool      // socket_write_event_ is registered
    var closeSignals: nat     // times SignalOnCloseEvent was raised
    var drainsQueued: nat     // TryWriteBufferToSocket functors on the network loop
    var passesQueued: nat     // TryProcessBufferedDataInWorkLoop functors on the worker loop
    var delivered: seq<Packet>  // arguments of SignalReadPacket, in order
    // The kernel's side of the socket.
    var outgoing: seq<byte>   // every byte `send` has accepted
    var incoming: seq<byte>   // bytes the peer has sent that `read` has not returned
    var peerClosed: bool

    ghost predicate Valid()
      reads this, senderBuffer, receiverBuffer
    {
      && senderBuffer.Valid() && receiverBuffer.Valid()
      && senderBuffer != receiverBuffer && senderBuffer.data != receiverBuffer.data
      && senderBuffer.capacity == receiverBuffer.capacity == RING_CAPACITY
    }

    constructor ()
      ensures Valid() && fresh(senderBuffer) && fresh(senderBuffer.data)
      ensures fresh(receiverBuffer) && fresh(receiverBuffer.data)
      ensures senderBuffer.Contents() == receiverBuffer.Contents() == [] && delivered == [] && outgoing == []
      ensures state == Closed && !readArmed && !writeArmed && drainsQueued == passesQueued == closeSignals == 0
    {
      Pow2Is24();
      senderBuffer := new RingBuffer(RING_CAPACITY, RING_ORDER);
      receiverBuffer := new RingBuffer(RING_CAPACITY, RING_ORDER);
      state, readArmed, writeArmed := Closed, false, false;
      closeSignals, drainsQueued, passesQueued := 0, 0, 0;
      delivered, outgoing, incoming, peerClosed := [], [], [], false;
    }

    method OnErrorEvent()
      modifies this`readArmed, this`writeArmed, this`state, this`closeSignals
      ensures !readArmed && !writeArmed && state == Closed && closeSignals == old(closeSignals) + 1
    {
      readArmed, writeArmed := false, false;
      state := Closed;
      closeSignals := closeSignals + 1;
    }

    /** Accepts a packet exactly when it is not too long and fits with two bytes to spare; then the
        caller's buffer is stamped with the header and its wire form is queued behind all earlier
        bytes.  A refused call changes nothing. */
    method SendData(data: array<byte>, len: nat, inLoopThread: bool, outcomes: seq<SendOutcome>)
      returns (ok: bool)
      requires Valid() && len <= data.Length && data.Length >= 2
      requires data != senderBuffer.data && data != receiverBuffer.data
      modifies data, senderBuffer, senderBuffer.data
      modifies this`readArmed, this`writeArmed, this`state, this`closeSignals, this`drainsQueued, this`outgoing
      ensures Valid()
      ensures ok <==> len <= MAX_PACKET && len + 2 <= old(senderBuffer.Free())
      ensures !ok ==> data[..] == old(data[..]) && senderBuffer.Contents() == old(senderBuffer.Contents())
                      && outgoing == old(outgoing) && drainsQueued == old(drainsQueued) && state == old(state)
      ensures ok ==> data[..len] == WireForm(old(data[..len])) && data[2..] == old(data[2..])
      ensures ok ==> outgoing + senderBuffer.Contents()
                     == old(outgoing) + old(senderBuffer.Contents()) + WireForm(old(data[..len]))
      ensures ok && !inLoopThread ==> drainsQueued == old(drainsQueued) + 1 && outgoing == old(outgoing)
      ensures !ok || !inLoopThread ==> ConnectionStays()
      ensures ok && inLoopThread ==> Drained(outcomes) && drainsQueued == old(drainsQueued)
      ensures ok && inLoopThread && FirstRefusal(outcomes) >= |old(senderBuffer.Contents())| + len
              ==> senderBuffer.Contents() == []
    {
      if len > MAX_PACKET {
        return false;
      }
      var room := senderBuffer.AvailableWrite();
      if room < len + 2 {
        return false;
      }
      StampHeader(data, len);
      ghost var packet, queued := data[..len], senderBuffer.Contents();
      Assoc(outgoing, queued, packet);
      var written := senderBuffer.WriteContent(data[..len]);
      assert written;
      if inLoopThread {
        TryWriteBufferToSocket(outcomes);
      } else {
        drainsQueued := drainsQueued + 1;
      }
      return true;
    }

    /** Writes the payload length over the first two bytes of the caller's buffer. */
    method StampHeader(data: array<byte>, len: nat)
      requires len <= data.Length && data.Length >= 2
      modifies data
      ensures data[..len] == WireForm(old(data[..len])) && data[2..] == old(data[2..])
    {
      ghost var packet, was := WireForm(data[..len]), data[..];
      var h := Header((len - 2) % 0x1_0000);
      data[0], data[1] := h[0], h[1];
      assert data[2..] == was[2..];
      if len >= 2 { assert was[..len][2..] == was[2..len]; }
      assert data[..len] == packet;
    }

    /** Queues the buffer, of a length cut to 32 bits, whole or not at all behind all earlier bytes, and
        reports success either way. */
    method SendDataWithHead(buff: seq<byte>, inLoopThread: bool, outcomes: seq<SendOutcome>) returns (ok: bool)
      requires Valid()
      modifies senderBuffer, senderBuffer.data
      modifies this`readArmed, this`writeArmed, this`state, this`closeSignals, this`drainsQueued, this`outgoing
      ensures Valid() && ok
      ensures var content := buff[..|buff| % TWO32];
              outgoing + senderBuffer.Contents() == old(outgoing) + old(senderBuffer.Contents())
                + if |content| <= old(senderBuffer.Free()) then content else []
      ensures !inLoopThread ==> drainsQueued == old(drainsQueued) + 1 && outgoing == old(outgoing) && ConnectionStays()
      ensures inLoopThread ==> Drained(outcomes) && drainsQueued == old(drainsQueued)
    {
      ghost var queued := senderBuffer.Contents();
      var content := buff[..|buff| % TWO32];
      var written := senderBuffer.WriteContent(content);
      Assoc(outgoing, queued, content);
      assert (outgoing + queued) + [] == outgoing + queued;
      if inLoopThread {
        TryWriteBufferToSocket(outcomes);
      } else {
        drainsQueued := drainsQueued + 1;
      }
      return true;
    }

    /** The connection and its events are as they were. */
    twostate predicate ConnectionStays()
      reads this
    {
      && state == old(state) && closeSignals == old(closeSignals)
      && readArmed == old(readArmed) && writeArmed == old(writeArmed)
    }

    /** How a drain leaves the connection: it is closed exactly if the kernel broke it with bytes left, and
        otherwise the write event is registered, if it was not, exactly if there are bytes left. */
    twostate predicate Drained(outcomes: seq<SendOutcome>)
      requires senderBuffer.Valid()
      reads this, senderBuffer, senderBuffer.data
    {
      if senderBuffer.Contents() != [] && Breaks(outcomes) then
        state == Closed && closeSignals == old(closeSignals) + 1 && !readArmed && !writeArmed
      else
        && state == old(state) && closeSignals == old(closeSignals) && readArmed == old(readArmed)
        && writeArmed == (old(writeArmed) || senderBuffer.Contents() != [])
    }

    /** Moves bytes from the ring to the kernel, none lost or repeated or reordered.  While the kernel takes
        bytes it goes on, however few it takes at a time, and it stops at the first refusal. */
    method TryWriteBufferToSocket(outcomes: seq<SendOutcome>)
      requires Valid()
      modifies senderBuffer`readCount, this`readArmed, this`writeArmed, this`state, this`closeSignals, this`outgoing
      ensures Valid() && Drained(outcomes)
      ensures outgoing + senderBuffer.Contents() == old(outgoing) + old(senderBuffer.Contents())
      ensures old(outgoing) <= outgoing && |outgoing| - |old(outgoing)| <= Allowance(outcomes)
      ensures senderBuffer.Contents() == [] || |outgoing| - |old(outgoing)| >= FirstRefusal(outcomes)
    {
      var call := 0;
      var available := senderBuffer.AvailableSeriesRead();
      while available > 0
        invariant Valid() && call <= FirstRefusal(outcomes)
        invariant available == SeriesLen(senderBuffer.ReadIndex(), |senderBuffer.Contents()|, RING_CAPACITY)
        invariant outgoing + senderBuffer.Contents() == old(outgoing) + old(senderBuffer.Contents())
        invariant old(outgoing) <= outgoing && call <= |outgoing| - |old(outgoing)|
        invariant |outgoing| - |old(outgoing)| + Allowance(outcomes[call..]) <= Allowance(outcomes)
        invariant ConnectionStays()
        decreases |senderBuffer.Contents()|
      {
        var outcome := if call < |outcomes| then outcomes[call] else Refuses(Interrupted);
        if outcome.Refuses? && outcome.fault.Broken? {
          OnErrorEvent();
          return;
        } else if outcome.Refuses? {
          writeArmed := true;
          break;
        } else {
          var sent := if outcome.most == 0 then 1 else if outcome.most < available then outcome.most else available;
          SendSome(sent);
          assert outcomes[call..][1..] == outcomes[call + 1..];
          call := call + 1;
        }
        available := senderBuffer.AvailableSeriesRead();
      }
    }

    /** The kernel takes the first bytes of the ring's contiguous part, and the ring drops them. */
    method SendSome(sent: nat)
      requires Valid() && 1 <= sent <= SeriesLen(senderBuffer.ReadIndex(), |senderBuffer.Contents()|, RING_CAPACITY)
      modifies senderBuffer`readCount, this`outgoing
      ensures Valid()
      ensures outgoing == old(outgoing) + old(senderBuffer.Contents())[..sent]
      ensures senderBuffer.Contents() == old(senderBuffer.Contents())[sent..]
      ensures outgoing + senderBuffer.Contents() == old(outgoing) + old(senderBuffer.Contents())
    {
      var head := senderBuffer.CurrentSeriesReadHead();
      ghost var queued := senderBuffer.Contents();
      Moved(outgoing, queued, sent);
      assert senderBuffer.data[head..head + sent] == queued[..sent];
      outgoing := outgoing + senderBuffer.data[head..head + sent];
      senderBuffer.ConsumeSeriesReadLen(sent);
    }

    /** Moves bytes from the kernel to the ring and queues a parse pass exactly when some came.  The
        connection is closed exactly on an error, at the end of the peer's stream, or when the ring
        is full, because a read of zero bytes looks like the end of the stream. */
    method TryReadDataFromSocket(fault: Fault)
      requires Valid()
      modifies receiverBuffer`writeCount, receiverBuffer.data
      modifies this`readArmed, this`writeArmed, this`state, this`closeSignals, this`passesQueued, this`incoming
      ensures Valid()
      ensures receiverBuffer.Contents() + incoming == old(receiverBuffer.Contents()) + old(incoming)
      ensures old(receiverBuffer.Contents()) <= receiverBuffer.Contents()
      ensures passesQueued == old(passesQueued)
                              + if |receiverBuffer.Contents()| > |old(receiverBuffer.Contents())| then 1 else 0
      ensures |receiverBuffer.Contents()| > |old(receiverBuffer.Contents())|
              <==> fault == NoFault && old(receiverBuffer.Free()) > 0 && old(incoming) != []
      ensures closeSignals == old(closeSignals)
                + if || old(receiverBuffer.Free()) == 0 || fault == Broken
                     || (fault == NoFault && old(incoming) == [] && peerClosed) then 1 else 0
      ensures if closeSignals > old(closeSignals) then state == Closed && !readArmed && !writeArmed
              else ConnectionStays()
    {
      var room := receiverBuffer.AvailableSeriesWrite();
      var head := receiverBuffer.CurrentSeriesWriteHead();
      if room == 0 || (fault == NoFault && incoming == [] && peerClosed) {
        OnErrorEvent();
        return;
      } else if fault == Broken {
        OnErrorEvent();
        return;
      } else if fault == Interrupted || incoming == [] {
        return;
      }
      var n: nat :| 1 <= n <= room && n <= |incoming|;
      Moved(receiverBuffer.Contents(), incoming, n);
      ReadInto(head, incoming[..n]);
      incoming := incoming[n..];
      receiverBuffer.ConsumeSeriesWriteLen(n);
      passesQueued := passesQueued + 1;
    }

    /** The kernel stores what it read in free cells of the ring, so the contents stay as they are. */
    method ReadInto(head: nat, bytes: seq<byte>)
      requires Valid() && head == receiverBuffer.WriteIndex() && head + |bytes| <= RING_CAPACITY
      requires |bytes| <= receiverBuffer.Free()
      modifies receiverBuffer.data
      ensures receiverBuffer.Contents() == old(receiverBuffer.Contents())
      ensures receiverBuffer.data[head..head + |bytes|] == bytes
    {
      ghost var mem, start, n := receiverBuffer.data[..], receiverBuffer.ReadIndex(), |receiverBuffer.Contents()|;
      forall j | 0 <= j < |bytes| { receiverBuffer.data[head + j] := bytes[j]; }
      WindowSame(mem, receiverBuffer.data[..], start, n);
    }

    /** Delivers exactly the packets that `Parse` cuts off the ring's contents and leaves the rest. */
    method TryProcessBufferedDataInWorkLoop()
      requires Valid()
      modifies receiverBuffer`readCount, this`delivered, this`readArmed, this`writeArmed, this`closeSignals
      ensures Valid()
      ensures delivered == old(delivered) + Parse(old(receiverBuffer.Contents())).packets
      ensures receiverBuffer.Contents() == Parse(old(receiverBuffer.Contents())).rest
      ensures closeSignals == old(closeSignals) + if Rejected(receiverBuffer.Contents()) then 1 else 0
      ensures if Rejected(receiverBuffer.Contents()) then !readArmed && !writeArmed
              else readArmed == old(readArmed) && writeArmed == old(writeArmed)
      ensures Rejected(receiverBuffer.Contents()) || |receiverBuffer.Contents()| < MAX_PACKET
    {
      ghost var s := receiverBuffer.Contents();
      ghost var parsed := Parse(s);
      ParseSound(s);
      var more := true;
      while more
        invariant Valid() && s == receiverBuffer.Contents()
        invariant delivered + Parse(s).packets == old(delivered) + parsed.packets && Parse(s).rest == parsed.rest
        invariant more || !HasPacket(s)
        invariant closeSignals == old(closeSignals) + if !more && Rejected(s) then 1 else 0
        invariant if !more && Rejected(s) then !readArmed && !writeArmed
                  else readArmed == old(readArmed) && writeArmed == old(writeArmed)
        decreases |s|, more
      {
        ghost var was := delivered;
        more := TryProcessOne();
        if more {
          ghost var p, tail := FirstPacket(s);
          Assoc(was, [p], Parse(tail).packets);
          s := tail;
        }
      }
      ParseDone(s, delivered);
    }

    /** One turn of the loop: delivers the first packet if the ring has a complete one, and otherwise
        stops, closing the connection if the next header is refused. */
    method TryProcessOne() returns (more: bool)
      requires Valid()
      modifies receiverBuffer`readCount, this`delivered, this`readArmed, this`writeArmed, this`closeSignals
      ensures Valid()
      ensures more <==> HasPacket(old(receiverBuffer.Contents()))
      ensures more ==>
        var s := old(receiverBuffer.Contents());
        var n := HeaderValue(s[0], s[1]) + 2;
        delivered == old(delivered) + [s[..n]] && receiverBuffer.Contents() == s[n..]
      ensures !more ==> delivered == old(delivered) && receiverBuffer.Contents() == old(receiverBuffer.Contents())
      ensures closeSignals == old(closeSignals) + if Rejected(old(receiverBuffer.Contents())) then 1 else 0
      ensures if Rejected(old(receiverBuffer.Contents())) then !readArmed && !writeArmed
              else readArmed == old(readArmed) && writeArmed == old(writeArmed)
    {
      var available, strict := receiverBuffer.AvailableRead();
      var series := receiverBuffer.AvailableSeriesRead();
      if available < 2 {
        return false;
      }
      var payloadLen := ReadHeader(series);
      if payloadLen > 65535 || payloadLen <= 0 {
        readArmed, writeArmed := false, false;
        closeSignals := closeSignals + 1;
        return false;
      }
      var msgLen := payloadLen + 2;
      if available < msgLen {
        return false;
      }
      var packet := TakePacket(series, msgLen);
      delivered := delivered + [packet];
      return true;
    }

    /** The header is read in one piece, or its second byte from the start of the array. */
    method ReadHeader(series: nat) returns (payloadLen: nat)
      requires Valid() && |receiverBuffer.Contents()| >= 2
      requires series == SeriesLen(receiverBuffer.ReadIndex(), |receiverBuffer.Contents()|, RING_CAPACITY)
      ensures payloadLen == HeaderValue(receiverBuffer.Contents()[0], receiverBuffer.Contents()[1])
    {
      var head := receiverBuffer.CurrentSeriesReadHead();
      ghost var s := receiverBuffer.Contents();
      ghost var run := receiverBuffer.data[head..head + series];
      assert run == s[..series];
      assert receiverBuffer.data[head] == run[0];
      if series >= 2 {
        assert receiverBuffer.data[head + 1] == run[1];
        payloadLen := HeaderValue(receiverBuffer.data[head], receiverBuffer.data[head + 1]);
      } else {
        assert receiverBuffer.data[0] == receiverBuffer.data[..|s| - series][0] == s[series..][0];
        payloadLen := HeaderValue(receiverBuffer.data[head], receiverBuffer.data[0]);
      }
    }

    /** A packet is taken in one piece, or put together when it runs past the end of the array. */
    method TakePacket(series: nat, msgLen: nat) returns (packet: Packet)
      requires Valid() && msgLen <= |receiverBuffer.Contents()| && msgLen <= MAX_PACKET
      requires series == SeriesLen(receiverBuffer.ReadIndex(), |receiverBuffer.Contents()|, RING_CAPACITY)
      modifies receiverBuffer`readCount
      ensures Valid()
      ensures packet == old(receiverBuffer.Contents())[..msgLen]
      ensures receiverBuffer.Contents() == old(receiverBuffer.Contents())[msgLen..]
    {
      ghost var s := receiverBuffer.Contents();
      var head := receiverBuffer.CurrentSeriesReadHead();
      if series >= msgLen {
        assert receiverBuffer.data[head..head + msgLen] == s[..msgLen];
        packet := receiverBuffer.data[head..head + msgLen];
        receiverBuffer.ConsumeSeriesReadLen(msgLen);
      } else {
        assert receiverBuffer.data[head..head + series] == s[..series];
        packet := receiverBuffer.data[head..head + series];
        receiverBuffer.ConsumeSeriesReadLen(series);
        var remain := msgLen - series;
        var next := receiverBuffer.CurrentSeriesReadHead();
        assert next == 0 && receiverBuffer.data[next..next + remain] == s[series..][..remain];
        packet := packet + receiverBuffer.data[next..next + remain];
        receiverBuffer.ConsumeSeriesReadLen(remain);
        TakenTwice(s, series, remain);
      }
    }
  }

  lemma Pow2Is24()
    ensures Pow2(24) == RING_CAPACITY as int
  {
    assert Pow2(8) == 0x100;
    Pow2Add(8, 8);
    Pow2Add(16, 8);
  }
}
