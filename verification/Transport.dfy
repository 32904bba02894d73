/** One connection end to end, as the interleaving of the sending user thread, the two network threads
    and the receiving worker thread.  The rings are the FIFO queues that `RingProtocol` refines to: a
    counter load reports the queue as it is at that step, and what a thread remembers of it can be
    out of date by its next step. */
module Transport {
  import opened Words
  import opened Sequences
  import opened RingBuffers
  import opened Framing
  import opened TcpSockets

  // The user thread inside `SendData`: past the room check, or past `WriteContent` and not yet at `RunInLoop`.
  datatype Producer = PIdle | PChecked(packet: Packet) | PWritten
  // The network thread inside `TryWriteBufferToSocket`: about to load the ring's fill, or about to `send`.
  datatype Drain = DIdle | DTop | DSized(window: nat)
  // The network thread inside `TryReadDataFromSocket`: about to `read`, or past `ConsumeSeriesWriteLen`
  // and not yet at `QueueInLoop`.
  datatype Reading = XIdle | XSized(room: nat) | XPublished
  // The worker thread inside `TryProcessBufferedDataInWorkLoop`: at the top of the loop, after the first
  // and the second snapshot of the ring, or between the two parts of a split packet.
  datatype Parser =
    | Idle | Top | Sized(available: nat) | SizedBoth(available: nat, series: nat)
    | Half(taken: seq<byte>, remain: nat)

  datatype Sys = Sys(
    // The sending host.
    sent: seq<Packet>,     // wire forms of the accepted packets, in order
    tx: seq<byte>,         // sender ring
    producer: Producer,
    drainsQueued: nat,     // TryWriteBufferToSocket functors on the network loop
    drain: Drain,
    conn: ConnState,
    armed: bool,           // the write event is registered with OnWriteEvent
    failed: bool,          // an error was raised on the connection
    // The kernels between the hosts.
    wire: seq<byte>,
    // The receiving host.
    rx: seq<byte>,         // receiver ring
    head: nat,             // cell of the first byte of the receiver ring
    open: bool,            // the read event is registered
    reading: Reading,
    passesQueued: nat,     // TryProcessBufferedDataInWorkLoop functors on the worker loop
    parser: Parser,
    delivered: seq<Packet>)

  datatype Step =
    // user thread
    | Check(data: seq<byte>) | Write | Schedule
    // sending network thread
    | BeginConnect | FinishConnect | FailConnect
    | StartDrain | WriteEvent | LoadDrain | Send(bytes: seq<byte>) | SendAgain | SendFail
    // receiving network thread
    | LoadRead | Read(k: nat) | ReadAgain | ReadClose | QueuePass
    // receiving worker thread
    | StartPass | LoadAvailable | LoadSeries | Decide(header: seq<byte>, packet: seq<byte>) | TakeRest(rest: seq<byte>)

  ghost predicate Init(s: Sys) {
    && s.sent == [] && s.tx == [] && s.producer == PIdle && s.drainsQueued == 0 && s.drain == DIdle
    && s.conn == Closed && !s.armed && !s.failed && s.wire == []
    && s.rx == [] && s.head == 0 && s.open && s.reading == XIdle && s.passesQueued == 0 && s.parser == Idle
    && s.delivered == []
  }

  ghost predicate SendStep(s: Sys, t: Sys, step: Step) {
    match step
    case Check(data) =>
      && s.producer.PIdle? && |data| <= MAX_PACKET && |data| + 2 <= RING_CAPACITY - |s.tx|
      && t == s.(producer := PChecked(WireForm(data)))
    case Write =>
      // `WriteContent` loads the fill once more; a refusal would be ignored.
      && s.producer.PChecked?
      && var packet := s.producer.packet;
         t == if |packet| <= RING_CAPACITY - |s.tx|
              then s.(producer := PWritten, tx := s.tx + packet, sent := s.sent + [packet])
              else s.(producer := PWritten)
    case Schedule =>
      s.producer.PWritten? && t == s.(producer := PIdle, drainsQueued := s.drainsQueued + 1)
    case BeginConnect =>
      s.conn == Closed && !s.failed && t == s.(conn := Connecting)
    case FinishConnect =>
      // `event_set` prepares the write event for OnWriteEvent and does not register it.
      s.conn == Connecting && t == s.(conn := Connected, armed := false)
    case FailConnect =>
      s.conn == Connecting && t == s.(conn := Closed, failed := true)
    case StartDrain =>
      s.drain.DIdle? && s.drainsQueued > 0 && t == s.(drainsQueued := s.drainsQueued - 1, drain := DTop)
    case WriteEvent =>
      s.drain.DIdle? && s.armed && t == s.(armed := false, drain := DTop)
    case LoadDrain =>
      s.drain.DTop? && if s.tx == [] then t == s.(drain := DIdle)
                       else exists w :: 1 <= w <= |s.tx| && t == s.(drain := DSized(w))
    case Send(bytes) =>
      // The kernel takes part of the window; past the ring's fill it would read anything.
      && s.drain.DSized? && 1 <= |bytes| <= s.drain.window
      && (forall j :: 0 <= j < |bytes| && j < |s.tx| ==> bytes[j] == s.tx[j])
      && t == s.(wire := s.wire + bytes, tx := if |bytes| <= |s.tx| then s.tx[|bytes|..] else [], drain := DTop)
    case SendAgain =>
      // While connecting, the event that is registered is the one for OnConnection.
      s.drain.DSized? && t == s.(armed := s.armed || s.conn == Connected, drain := DIdle)
    case SendFail =>
      s.drain.DSized? && t == s.(conn := Closed, failed := true, armed := false, drain := DIdle)
    case _ => false
  }

  /** The cell just past the bytes of the receiver ring. */
  function Tail(s: Sys): nat
    requires |s.rx| <= RING_CAPACITY && s.head < RING_CAPACITY
  {
    WrapIndex(s.head + |s.rx|, RING_CAPACITY)
  }

  ghost predicate ReceiveStep(s: Sys, t: Sys, step: Step)
    requires |s.rx| <= RING_CAPACITY && s.head < RING_CAPACITY
  {
    match step
    case LoadRead =>
      && s.reading.XIdle? && s.open
      && t == s.(reading := XSized(SeriesLen(Tail(s), RING_CAPACITY - |s.rx|, RING_CAPACITY)))
    case Read(k) =>
      && s.reading.XSized? && 1 <= k <= s.reading.room && k <= |s.wire|
      && t == s.(rx := s.rx + s.wire[..k], wire := s.wire[k..], reading := XPublished)
    case ReadAgain =>
      // A read that asks for zero bytes returns zero, and so never says EAGAIN.
      s.reading.XSized? && s.reading.room > 0 && t == s.(reading := XIdle)
    case ReadClose =>
      // An error, the end of the peer's stream, or a read of zero bytes into a full ring.
      s.reading.XSized? && t == s.(reading := XIdle, open := false)
    case QueuePass =>
      s.reading.XPublished? && t == s.(reading := XIdle, passesQueued := s.passesQueued + 1)
    case _ => false
  }

  /** Reading cell `cell` yields `b`: the ring's byte if one is there, and otherwise anything. */
  predicate Holds(s: Sys, cell: nat, b: byte) {
    var offset := if s.head <= cell then cell - s.head else cell + RING_CAPACITY - s.head;
    0 <= offset < |s.rx| ==> b == s.rx[offset]
  }

  /** Reading on from cell `cell` without wrapping yields `bytes`; past the end of the array, anything. */
  predicate HoldsFrom(s: Sys, cell: nat, bytes: seq<byte>) {
    forall j {:trigger bytes[j]} :: 0 <= j < |bytes| && cell + j < RING_CAPACITY ==> Holds(s, cell + j, bytes[j])
  }

  /** The receiver ring after its reader advances by `n`. */
  function Consume(s: Sys, n: nat): Sys
    requires s.head < RING_CAPACITY
  {
    s.(rx := if n <= |s.rx| then s.rx[n..] else [], head := (s.head + n) % 0x100_0000)
  }

  ghost predicate ParseStep(s: Sys, t: Sys, step: Step)
    requires |s.rx| <= RING_CAPACITY && s.head < RING_CAPACITY
  {
    match step
    case StartPass =>
      s.parser.Idle? && s.passesQueued > 0 && t == s.(parser := Top, passesQueued := s.passesQueued - 1)
    case LoadAvailable =>
      s.parser.Top? && t == s.(parser := Sized(|s.rx|))
    case LoadSeries =>
      s.parser.Sized? && t == s.(parser := SizedBoth(s.parser.available, SeriesLen(s.head, |s.rx|, RING_CAPACITY)))
    case Decide(header, packet) =>
      && s.parser.SizedBoth?
      && var available, series := s.parser.available, s.parser.series;
         if available < 2 then t == s.(parser := Idle)
         else
           && |header| == 2
           && (if series >= 2 then HoldsFrom(s, s.head, header)
               else HoldsFrom(s, s.head, header[..1]) && Holds(s, 0, header[1]))
           && var msgLen := HeaderValue(header[0], header[1]) + 2;
              if msgLen == 2 then t == s.(parser := Idle, open := false)
              else if available < msgLen then t == s.(parser := Idle)
              else if series >= msgLen then
                && |packet| == msgLen && HoldsFrom(s, s.head, packet)
                && t == Consume(s, msgLen).(parser := Top, delivered := s.delivered + [packet])
              else
                && |packet| == series && HoldsFrom(s, s.head, packet)
                && t == Consume(s, series).(parser := Half(packet, msgLen - series))
    case TakeRest(rest) =>
      && s.parser.Half? && |rest| == s.parser.remain && HoldsFrom(s, s.head, rest)
      && t == Consume(s, s.parser.remain).(parser := Top, delivered := s.delivered + [s.parser.taken + rest])
    case _ => false
  }

  ghost predicate Next(s: Sys, t: Sys, step: Step) {
    && |s.rx| <= RING_CAPACITY && s.head < RING_CAPACITY
    && (SendStep(s, t, step) || ReceiveStep(s, t, step) || ParseStep(s, t, step))
  }

  // What every step keeps.

  ghost predicate SenderOk(s: Sys) {
    && |s.tx| <= RING_CAPACITY
    && (forall p :: p in s.sent ==> Accepted(p))
    && (s.producer.PChecked? ==> Accepted(s.producer.packet) && |s.tx| + |s.producer.packet| + 2 <= RING_CAPACITY)
    && (s.drain.DSized? ==> 1 <= s.drain.window <= |s.tx|)
    && (s.failed ==> s.conn == Closed) && (s.armed ==> s.conn == Connected)
  }

  /** Every accepted packet of at least three bytes is well formed on the wire. */
  predicate Accepted(p: Packet) {
    |p| <= MAX_PACKET && (|p| >= 3 ==> WellFormed(p))
  }

  /** A parse pass is still to come. */
  predicate PassDue(s: Sys) {
    s.passesQueued > 0 || s.reading.XPublished?
  }

  /** A read never runs past the end of the array or over unread bytes, however old its window is, and no
      complete packet and no refused header of an open connection is left without a pass due. */
  ghost predicate ReceiverOk(s: Sys) {
    && |s.rx| <= RING_CAPACITY && s.head < RING_CAPACITY
    && (s.reading.XSized? ==> s.reading.room <= RING_CAPACITY - |s.rx| && Tail(s) + s.reading.room <= RING_CAPACITY)
    && AllWellFormed(s.delivered)
    && match s.parser
       case Idle => HasPacket(s.rx) || (Rejected(s.rx) && s.open) ==> PassDue(s)
       case Top => true
       case Sized(available) => Snapshot(s, available)
       case SizedBoth(available, series) =>
         && Snapshot(s, available) && series <= |s.rx| && s.head + series <= RING_CAPACITY
         && (series < available ==> s.head + series == RING_CAPACITY)
       case Half(taken, remain) =>
         && s.head == 0 && 0 < remain <= |s.rx| && remain <= MAX_PACKET && WellFormed(taken + s.rx[..remain])
  }

  /** A load of the ring's fill only ever under-reports, and whatever it missed has a pass of its own. */
  predicate Snapshot(s: Sys, available: nat) {
    available <= |s.rx| && (available < |s.rx| ==> PassDue(s))
  }

  function Taken(p: Parser): seq<byte> {
    if p.Half? then p.taken else []
  }

  /** Every byte the receiving ring has ever been given. */
  function Received(s: Sys): seq<byte> {
    (Concat(s.delivered) + Taken(s.parser)) + s.rx
  }

  /** No byte is lost, repeated or reordered between `SendData` and the parser. */
  ghost predicate Conserved(s: Sys) {
    (Received(s) + s.wire) + s.tx == Concat(s.sent)
  }

  ghost predicate Inv(s: Sys) {
    SenderOk(s) && ReceiverOk(s) && Conserved(s)
  }

  lemma InitInv(s: Sys)
    requires Init(s)
    ensures Inv(s)
  {
    assert Received(s) == [];
  }

  lemma WireFormAccepted(data: seq<byte>)
    requires |data| <= MAX_PACKET
    ensures Accepted(WireForm(data))
  {}

  /** The room check of `SendData` still stands when `WriteContent` loads the fill again. */
  lemma WriteNeverRefused(s: Sys, t: Sys)
    requires Inv(s) && SendStep(s, t, Write)
    ensures t.sent == s.sent + [s.producer.packet] && t.tx == s.tx + s.producer.packet
  {}

  lemma WriteKeeps(s: Sys, t: Sys)
    requires Inv(s) && SendStep(s, t, Write)
    ensures Inv(t)
  {
    var p := s.producer.packet;
    WriteNeverRefused(s, t);
    ConcatSnoc(s.sent, p);
    Assoc(Received(s) + s.wire, s.tx, p);
  }

  /** However old its window is, the drain never sends past the ring's fill. */
  lemma SendsFront(s: Sys, t: Sys, bytes: seq<byte>)
    requires Inv(s) && SendStep(s, t, Send(bytes))
    ensures |bytes| <= |s.tx| && bytes == s.tx[..|bytes|] && t.tx == s.tx[|bytes|..]
  {}

  lemma SendKeeps(s: Sys, t: Sys, bytes: seq<byte>)
    requires Inv(s) && SendStep(s, t, Send(bytes))
    ensures Inv(t)
  {
    SendsFront(s, t, bytes);
    Assoc(Received(s), s.wire, bytes);
    Moved(Received(s) + s.wire, s.tx, |bytes|);
  }

  predicate MovesBytes(step: Step) {
    step.Check? || step.Write? || step.Send?
  }

  lemma CheckKeeps(s: Sys, t: Sys, data: seq<byte>)
    requires Inv(s) && SendStep(s, t, Check(data))
    ensures Inv(t)
  {
    WireFormAccepted(data);
  }

  lemma SendOtherLeaves(s: Sys, t: Sys, step: Step)
    requires SendStep(s, t, step) && !MovesBytes(step)
    ensures t.sent == s.sent && t.tx == s.tx && t.wire == s.wire
    ensures t.producer == s.producer || t.producer == PIdle
    ensures t.drain.DSized? ==> t.drain == s.drain || 1 <= t.drain.window <= |t.tx|
    ensures (s.failed ==> s.conn == Closed) && (s.armed ==> s.conn == Connected)
            ==> (t.failed ==> t.conn == Closed) && (t.armed ==> t.conn == Connected)
    ensures t.open == s.open
    ensures t.rx == s.rx && t.head == s.head && t.reading == s.reading && t.passesQueued == s.passesQueued
    ensures t.parser == s.parser && t.delivered == s.delivered
  {}

  lemma SendOtherKeeps(s: Sys, t: Sys, step: Step)
    requires Inv(s) && SendStep(s, t, step) && !MovesBytes(step)
    ensures Inv(t)
  {
    SendOtherLeaves(s, t, step);
  }

  lemma SendStepKeeps(s: Sys, t: Sys, step: Step)
    requires Inv(s) && SendStep(s, t, step)
    ensures Inv(t)
  {
    match step
    case Check(data) => CheckKeeps(s, t, data);
    case Write => WriteKeeps(s, t);
    case Send(bytes) => SendKeeps(s, t, bytes);
    case _ => SendOtherKeeps(s, t, step);
  }

  lemma ReadKeeps(s: Sys, t: Sys, k: nat)
    requires Inv(s) && ReceiveStep(s, t, Read(k))
    ensures Inv(t)
  {
    Assoc(Concat(s.delivered) + Taken(s.parser), s.rx, s.wire[..k]);
    Moved(Received(s), s.wire, k);
    if s.parser.Half? { assert t.rx[..s.parser.remain] == s.rx[..s.parser.remain]; }
  }

  /** The threads of the sending host have done nothing. */
  predicate SameSender(s: Sys, t: Sys) {
    && s.tx == t.tx && s.sent == t.sent && s.producer == t.producer && s.drainsQueued == t.drainsQueued
    && s.drain == t.drain && s.conn == t.conn && s.armed == t.armed && s.failed == t.failed
  }

  lemma ReceiveLeavesSender(s: Sys, t: Sys, step: Step)
    requires |s.rx| <= RING_CAPACITY && s.head < RING_CAPACITY && ReceiveStep(s, t, step)
    ensures SameSender(s, t)
  {}

  lemma ReceiveOtherLeaves(s: Sys, t: Sys, step: Step)
    requires |s.rx| <= RING_CAPACITY && s.head < RING_CAPACITY && ReceiveStep(s, t, step) && !step.Read?
    ensures t.rx == s.rx && t.head == s.head && t.wire == s.wire && t.parser == s.parser && t.delivered == s.delivered
    ensures t.reading.XSized? ==> t.reading.room <= RING_CAPACITY - |t.rx| && Tail(t) + t.reading.room <= RING_CAPACITY
    ensures (PassDue(s) ==> PassDue(t)) && (t.open ==> s.open)
  {}

  lemma ReceiveOtherKeeps(s: Sys, t: Sys, step: Step)
    requires Inv(s) && ReceiveStep(s, t, step) && !step.Read?
    ensures Inv(t)
  {
    ReceiveLeavesSender(s, t, step);
    ReceiveOtherLeaves(s, t, step);
  }

  lemma ReceiveStepKeeps(s: Sys, t: Sys, step: Step)
    requires Inv(s) && ReceiveStep(s, t, step)
    ensures Inv(t)
  {
    match step
    case Read(k) => ReadKeeps(s, t, k);
    case _ => ReceiveOtherKeeps(s, t, step);
  }

  lemma ParseLeavesSender(s: Sys, t: Sys, step: Step)
    requires |s.rx| <= RING_CAPACITY && s.head < RING_CAPACITY && ParseStep(s, t, step)
    ensures SameSender(s, t)
    ensures s.wire == t.wire && s.reading == t.reading
  {}

  /** A contiguous read inside the ring's fill yields the ring's bytes. */
  lemma ReadsFront(s: Sys, bytes: seq<byte>)
    requires s.head < RING_CAPACITY && HoldsFrom(s, s.head, bytes)
    requires |bytes| <= |s.rx| && s.head + |bytes| <= RING_CAPACITY
    ensures bytes == s.rx[..|bytes|]
  {}

  /** However old its two snapshots are, the parser reads the true header, takes the split branches
      only where the array really ends inside the header or the packet, and goes on from cell 0. */
  lemma DecideReadsTruth(s: Sys, t: Sys, header: seq<byte>, packet: seq<byte>)
    requires Inv(s) && Next(s, t, Decide(header, packet)) && s.parser.available >= 2
    ensures |s.rx| >= 2 && header == s.rx[..2]
    ensures s.parser.series < 2 ==> s.head == RING_CAPACITY - 1
    ensures t.delivered != s.delivered ==>
              HasPacket(s.rx) && t.delivered == s.delivered + [s.rx[..HeaderValue(s.rx[0], s.rx[1]) + 2]]
    ensures t.parser.Half? ==>
              HasPacket(s.rx) && 0 < |t.parser.taken| < HeaderValue(s.rx[0], s.rx[1]) + 2
              && s.head + |t.parser.taken| == RING_CAPACITY && t.head == 0
  {
    if s.parser.series >= 2 {
      ReadsFront(s, header);
    } else {
      ReadsFront(s, header[..1]);
    }
    var msgLen := HeaderValue(header[0], header[1]) + 2;
    if msgLen > 2 && msgLen <= s.parser.available { ReadsFront(s, packet); }
  }

  /** Taking bytes off the front does not move the tail. */
  lemma TailStays(s: Sys, t: Sys, n: nat)
    requires n <= |s.rx| <= RING_CAPACITY && s.head < RING_CAPACITY
    requires t.rx == s.rx[n..] && t.head == (s.head + n) % 0x100_0000
    ensures Tail(t) == Tail(s)
  {}

  lemma DecideStops(s: Sys, t: Sys, header: seq<byte>, packet: seq<byte>)
    requires Inv(s) && ParseStep(s, t, Decide(header, packet)) && t.parser.Idle?
    ensures Inv(t)
  {
    if s.parser.available >= 2 { DecideReadsTruth(s, t, header, packet); }
  }

  lemma DecideDelivers(s: Sys, t: Sys, header: seq<byte>, packet: seq<byte>)
    requires Inv(s) && ParseStep(s, t, Decide(header, packet)) && t.parser.Top?
    ensures Inv(t)
  {
    DecideReadsTruth(s, t, header, packet);
    ReadsFront(s, packet);
    PartTaken(s, t, |packet|);
    TailStays(s, t, |packet|);
  }

  lemma DecideSplits(s: Sys, t: Sys, header: seq<byte>, packet: seq<byte>)
    requires Inv(s) && ParseStep(s, t, Decide(header, packet)) && t.parser.Half?
    ensures Inv(t)
  {
    DecideReadsTruth(s, t, header, packet);
    ReadsFront(s, packet);
    PartTaken(s, t, |packet|);
    TailStays(s, t, |packet|);
    PartsJoin(s.rx, |packet|, HeaderValue(header[0], header[1]) + 2);
  }

  lemma PartsJoin(rx: seq<byte>, n: nat, msgLen: nat)
    requires n <= msgLen <= |rx| && msgLen >= 3 && msgLen <= MAX_PACKET && HeaderValue(rx[0], rx[1]) + 2 == msgLen
    ensures rx[..n] + rx[n..][..msgLen - n] == rx[..msgLen] && WellFormed(rx[..msgLen])
  {}

  /** Taking the front of the ring, whole packets or half ones, keeps the bytes received. */
  lemma PartTaken(s: Sys, t: Sys, n: nat)
    requires s.parser.SizedBoth? && n <= |s.rx| && t.rx == s.rx[n..]
    requires || (t.delivered == s.delivered + [s.rx[..n]] && Taken(t.parser) == [])
             || (t.delivered == s.delivered && Taken(t.parser) == s.rx[..n])
    ensures Received(t) == Received(s)
  {
    var d := Concat(s.delivered);
    assert d + [] == d && (d + s.rx[..n]) + [] == d + s.rx[..n];
    ConcatSnoc(s.delivered, s.rx[..n]);
    Moved(d, s.rx, n);
  }

  lemma RestTaken(s: Sys, t: Sys, rest: seq<byte>)
    requires Inv(s) && ParseStep(s, t, TakeRest(rest))
    ensures rest == s.rx[..|rest|] && WellFormed(s.parser.taken + rest)
    ensures t.rx == s.rx[|rest|..] && t.head < RING_CAPACITY && Tail(t) == Tail(s)
    ensures t.parser.Top? && t.delivered == s.delivered + [s.parser.taken + rest]
  {
    ReadsFront(s, rest);
    TailStays(s, t, |rest|);
  }

  lemma TakeRestKeeps(s: Sys, t: Sys, rest: seq<byte>)
    requires Inv(s) && ParseStep(s, t, TakeRest(rest))
    ensures Inv(t)
  {
    var d, taken := Concat(s.delivered), s.parser.taken;
    RestTaken(s, t, rest);
    ParseLeavesSender(s, t, TakeRest(rest));
    ConcatSnoc(s.delivered, taken + rest);
    Assoc(d, taken, rest);
    assert (d + (taken + rest)) + [] == d + (taken + rest);
    Moved(d + taken, s.rx, |rest|);
  }

  /** Starting a pass and loading the ring's fill take no bytes. */
  lemma SnapshotKeeps(s: Sys, t: Sys, step: Step)
    requires Inv(s) && ParseStep(s, t, step) && (step.StartPass? || step.LoadAvailable? || step.LoadSeries?)
    ensures Inv(t)
  {
    ParseLeavesSender(s, t, step);
  }

  lemma DecideKeeps(s: Sys, t: Sys, header: seq<byte>, packet: seq<byte>)
    requires Inv(s) && ParseStep(s, t, Decide(header, packet))
    ensures Inv(t)
  {
    match t.parser
    case Idle => DecideStops(s, t, header, packet);
    case Top => DecideDelivers(s, t, header, packet);
    case Half(_, _) => DecideSplits(s, t, header, packet);
  }

  lemma ParseStepKeeps(s: Sys, t: Sys, step: Step)
    requires Inv(s) && ParseStep(s, t, step)
    ensures Inv(t)
  {
    match step
    case Decide(header, packet) => DecideKeeps(s, t, header, packet);
    case TakeRest(rest) => TakeRestKeeps(s, t, rest);
    case StartPass | LoadAvailable | LoadSeries => SnapshotKeeps(s, t, step);
  }

  lemma StepKeeps(s: Sys, t: Sys, step: Step)
    requires Inv(s) && Next(s, t, step)
    ensures Inv(t)
  {
    if SendStep(s, t, step) {
      SendStepKeeps(s, t, step);
    } else if ReceiveStep(s, t, step) {
      ReceiveStepKeeps(s, t, step);
    } else {
      ParseStepKeeps(s, t, step);
    }
  }

  // Safety: what is delivered.

  predicate AllLong(ps: seq<Packet>) {
    forall p :: p in ps ==> |p| >= 3
  }

  /** If every accepted packet has at least three bytes, the delivered packets are a byte-exact prefix
      of the accepted ones, and the parser never meets a header it refuses. */
  lemma DeliveredIsPrefix(s: Sys)
    requires Inv(s) && AllLong(s.sent)
    ensures s.delivered <= s.sent
    ensures !s.parser.Half? ==> !Rejected(s.rx)
  {
    var d, taken := Concat(s.delivered), Taken(s.parser);
    Assoc(d, taken, s.rx);
    Assoc(d, taken + s.rx, s.wire);
    Assoc(d, (taken + s.rx) + s.wire, s.tx);
    ParsePrefix(s.sent, d, ((taken + s.rx) + s.wire) + s.tx);
    RoundTrip(s.delivered);
    if !s.parser.Half? && Rejected(s.rx) {
      Assoc(Received(s), s.wire, s.tx);
      ParsePrefix(s.sent, Received(s), s.wire + s.tx);
      assert d + [] == d;
      ParseUnique(s.delivered, s.rx);
    }
  }

  /** Whatever was sent and however the stream was cut up by sends, reads, the ends of the array and the
      points where passes ran: once no pass is due, deliveries and residue are those of one parse of
      all bytes received. */
  lemma ScheduleIndependent(s: Sys)
    requires Inv(s) && s.parser.Idle? && !PassDue(s)
    ensures Parse(Received(s)) == Parsed(s.delivered, s.rx)
    ensures Rejected(s.rx) || |s.rx| < MAX_PACKET
  {
    var d := Concat(s.delivered);
    assert d + [] == d;
    ParseUnique(s.delivered, s.rx);
    ParseSound(Received(s));
  }

  // Progress: nothing is left waiting with no one to serve it.

  /** A read asks for zero bytes exactly when the ring is full, and then the only way on is to close the
      connection.  This happens only while the worker thread is running or due; and between packets, on a
      stream the receiver accepts, as it is if every accepted packet has at least three bytes, it has a
      complete packet to take out. */
  lemma FullRingCloses(s: Sys, t: Sys)
    requires Inv(s) && ReceiveStep(s, t, LoadRead)
    ensures t.reading.room == 0 <==> |s.rx| == RING_CAPACITY
    ensures t.reading.room == 0 ==> forall u, step :: ReceiveStep(t, u, step) ==> step == ReadClose && !u.open
    ensures t.reading.room == 0 ==> !s.parser.Idle? || s.passesQueued > 0
    ensures t.reading.room == 0 && !s.parser.Half? && (!Rejected(s.rx) || AllLong(s.sent)) ==> HasPacket(s.rx)
  {
    if AllLong(s.sent) { DeliveredIsPrefix(s); }
  }

  /** Someone is about to drain the sender ring, or the connection has failed. */
  predicate Served(s: Sys) {
    s.producer.PWritten? || s.drainsQueued > 0 || !s.drain.DIdle? || s.armed || s.failed
  }

  /** The receiver ring begins with a complete packet, or with a refused header while the connection is
      open, and no pass will look at it. */
  predicate ReceiveStalled(s: Sys) {
    (HasPacket(s.rx) || (Rejected(s.rx) && s.open)) && s.parser.Idle? && !PassDue(s)
  }

  predicate SendStalled(s: Sys) {
    s.conn == Connected && s.tx != [] && !Served(s)
  }

  /** Nothing has been put in the ring before the connection was up. */
  predicate NoEarlyBytes(s: Sys) {
    s.conn == Connected || s.failed || (s.tx == [] && s.producer.PIdle?)
  }

  /** The discipline of `TcpClientTask::SendData`: it sends only on a connected socket. */
  predicate Disciplined(s: Sys, step: Step) {
    step.Check? ==> s.conn == Connected
  }

  lemma DisciplineKeepsServed(s: Sys, t: Sys, step: Step)
    requires Inv(s) && Next(s, t, step) && Disciplined(s, step)
    requires NoEarlyBytes(s) && !SendStalled(s)
    ensures NoEarlyBytes(t) && !SendStalled(t)
  {
    if SendStep(s, t, step) {
      SendStepServed(s, t, step);
    } else {
      ReceiverLeavesSender(s, t, step);
    }
  }

  lemma SendStepServed(s: Sys, t: Sys, step: Step)
    requires SendStep(s, t, step) && Disciplined(s, step) && NoEarlyBytes(s) && !SendStalled(s)
    ensures NoEarlyBytes(t) && !SendStalled(t)
  {}

  lemma ReceiverLeavesSender(s: Sys, t: Sys, step: Step)
    requires |s.rx| <= RING_CAPACITY && s.head < RING_CAPACITY
    requires ReceiveStep(s, t, step) || ParseStep(s, t, step)
    ensures SameSender(s, t) && !step.FinishConnect? && !step.Check?
  {
    if ReceiveStep(s, t, step) { ReceiveLeavesSender(s, t, step); } else { ParseLeavesSender(s, t, step); }
  }

  /** One step alone can leave bytes in the ring with no one to drain them: the end of connecting, and it
      does so exactly when bytes were put in early and no drain is under way. */
  lemma StallsExactly(s: Sys, t: Sys, step: Step)
    requires Inv(s) && Next(s, t, step) && !SendStalled(s)
    ensures SendStalled(t) <==> step.FinishConnect? && s.tx != [] && !s.failed
                                && !s.producer.PWritten? && s.drainsQueued == 0 && s.drain.DIdle?
  {
    if SendStep(s, t, step) {
      SendStepStalls(s, t, step);
    } else {
      ReceiverLeavesSender(s, t, step);
    }
  }

  lemma SendStepStalls(s: Sys, t: Sys, step: Step)
    requires SendStep(s, t, step) && !SendStalled(s)
    ensures SendStalled(t) <==> step.FinishConnect? && s.tx != [] && !s.failed
                                && !s.producer.PWritten? && s.drainsQueued == 0 && s.drain.DIdle?
  {}

  ghost predicate Linked(s: Sys, t: Sys, disciplined: bool) {
    exists step :: Next(s, t, step) && (disciplined ==> Disciplined(s, step))
  }

  ghost predicate LinkedAt(run: seq<Sys>, i: nat, disciplined: bool) {
    i + 1 < |run| && Linked(run[i], run[i + 1], disciplined)
  }

  ghost predicate IsPath(run: seq<Sys>, disciplined: bool) {
    |run| > 0 && forall i: nat :: i + 1 < |run| ==> LinkedAt(run, i, disciplined)
  }

  ghost predicate IsRun(run: seq<Sys>, disciplined: bool) {
    IsPath(run, disciplined) && Init(run[0])
  }

  ghost predicate Good(s: Sys, disciplined: bool) {
    Inv(s) && !ReceiveStalled(s) && (disciplined ==> NoEarlyBytes(s) && !SendStalled(s))
  }

  lemma LinkKeeps(s: Sys, t: Sys, disciplined: bool)
    requires Good(s, disciplined) && Linked(s, t, disciplined)
    ensures Good(t, disciplined)
  {
    var step :| Next(s, t, step) && (disciplined ==> Disciplined(s, step));
    StepKeeps(s, t, step);
    if disciplined { DisciplineKeepsServed(s, t, step); }
  }

  /** No stalled receive and, with disciplined senders, no stalled send in any state of any run. */
  lemma {:induction false} RunsKeep(run: seq<Sys>, disciplined: bool, i: nat)
    requires IsRun(run, disciplined) && i < |run|
    ensures Good(run[i], disciplined)
  {
    if i == 0 {
      InitInv(run[0]);
    } else {
      RunsKeep(run, disciplined, i - 1);
      assert LinkedAt(run, i - 1, disciplined);
      LinkKeeps(run[i - 1], run[i], disciplined);
    }
  }

  /** Where the sender's connection is in its life: not begun, connecting, connected, or failed. */
  function Stage(s: Sys): nat {
    if s.failed then 3 else match s.conn case Closed => 0 case Connecting => 1 case Connected => 2
  }

  predicate MovedOn(s: Sys, t: Sys) {
    Stage(s) <= Stage(t) && (t.open ==> s.open)
  }

  lemma StepMovesOn(s: Sys, t: Sys, step: Step)
    requires Next(s, t, step)
    ensures MovedOn(s, t)
  {
    if SendStep(s, t, step) {
      SendMovesOn(s, t, step);
    } else {
      ReceiverLeavesSender(s, t, step);
    }
  }

  lemma SendMovesOn(s: Sys, t: Sys, step: Step)
    requires SendStep(s, t, step)
    ensures MovedOn(s, t)
  {}

  lemma LinkMovesOn(s: Sys, t: Sys, disciplined: bool)
    requires Linked(s, t, disciplined)
    ensures MovedOn(s, t)
  {
    var step :| Next(s, t, step);
    StepMovesOn(s, t, step);
  }

  lemma PathMovesOn(run: seq<Sys>, disciplined: bool, i: nat)
    requires IsPath(run, disciplined) && i + 1 < |run|
    ensures MovedOn(run[i], run[i + 1])
  {
    assert LinkedAt(run, i, disciplined);
    LinkMovesOn(run[i], run[i + 1], disciplined);
  }

  /** Over every run a connection is used once: its life never goes back, on either host. */
  lemma {:induction false} NeverReused(run: seq<Sys>, disciplined: bool, i: nat, j: nat)
    requires IsPath(run, disciplined) && i <= j < |run|
    ensures MovedOn(run[i], run[j])
    decreases j
  {
    if i == j {
    } else {
      NeverReused(run, disciplined, i, j - 1);
      PathMovesOn(run, disciplined, j - 1);
    }
  }

  /** The receiver is closed and no read is under way. */
  predicate Shut(s: Sys) {
    !s.open && !s.reading.XSized?
  }

  lemma SendLeavesReceiver(s: Sys, t: Sys, step: Step)
    requires SendStep(s, t, step)
    ensures t.open == s.open && t.reading == s.reading && Received(t) == Received(s)
  {}

  lemma ReceiveStaysShut(s: Sys, t: Sys, step: Step)
    requires |s.rx| <= RING_CAPACITY && s.head < RING_CAPACITY && ReceiveStep(s, t, step) && Shut(s)
    ensures Shut(t) && Received(t) == Received(s)
  {}

  /** The worker thread only cuts up what has been received. */
  lemma ParseLeavesReceived(s: Sys, t: Sys, step: Step)
    requires Inv(s) && ParseStep(s, t, step)
    ensures Received(t) == Received(s) && (Shut(s) ==> Shut(t))
  {
    ParseStepKeeps(s, t, step);
    ParseLeavesSender(s, t, step);
    SamePrefix(Received(s) + s.wire, Received(t) + s.wire, s.tx);
    SamePrefix(Received(s), Received(t), s.wire);
    StepMovesOn(s, t, step);
  }

  lemma SamePrefix(a: seq<byte>, b: seq<byte>, c: seq<byte>)
    requires a + c == b + c
    ensures a == b
  {
    assert |a + c| == |b + c|;
    assert a == (a + c)[..|a|] && b == (b + c)[..|b|];
  }

  lemma StaysShut(s: Sys, t: Sys, disciplined: bool)
    requires Inv(s) && Shut(s) && Linked(s, t, disciplined)
    ensures Inv(t) && Shut(t) && Received(t) == Received(s)
  {
    var step :| Next(s, t, step);
    StepKeeps(s, t, step);
    if SendStep(s, t, step) {
      SendLeavesReceiver(s, t, step);
    } else if ReceiveStep(s, t, step) {
      ReceiveStaysShut(s, t, step);
    } else {
      ParseLeavesReceived(s, t, step);
    }
  }

  /** Over every run: once the receiver is closed and a read that was under way has ended, not a byte more is
      ever received. */
  lemma {:induction false} ClosedForGood(run: seq<Sys>, disciplined: bool, i: nat, j: nat)
    requires IsPath(run, disciplined) && i <= j < |run| && Inv(run[i]) && Shut(run[i])
    ensures Inv(run[j]) && Shut(run[j]) && Received(run[j]) == Received(run[i])
    decreases j
  {
    if i == j {
    } else {
      ClosedForGood(run, disciplined, i, j - 1);
      assert LinkedAt(run, j - 1, disciplined);
      StaysShut(run[j - 1], run[j], disciplined);
    }
  }

  /** No thread of either host has anything to do and the kernels hold nothing. */
  predicate Quiet(s: Sys) {
    && s.producer.PIdle? && s.drainsQueued == 0 && s.drain.DIdle? && !s.armed && s.wire == []
    && s.reading.XIdle? && s.passesQueued == 0 && s.parser.Idle?
  }

  /** When a healthy connection of disciplined senders falls quiet, everything accepted has been delivered. */
  lemma QuietDelivers(s: Sys)
    requires Good(s, true) && Quiet(s) && s.conn == Connected && !s.failed && AllLong(s.sent)
    ensures s.delivered == s.sent && s.rx == s.tx == []
  {
    DeliveredIsPrefix(s);
    ScheduleIndependent(s);
    assert (Received(s) + s.wire) + s.tx == Received(s);
    RoundTrip(s.sent);
  }

  /** End to end, over every run and schedule: deliveries are always a prefix of what was accepted, and
      with disciplined senders, when a healthy connection falls quiet, everything accepted has been delivered. */
  lemma EndToEnd(run: seq<Sys>, disciplined: bool, i: nat)
    requires IsRun(run, disciplined) && i < |run| && AllLong(run[i].sent)
    ensures run[i].delivered <= run[i].sent
    ensures disciplined && Quiet(run[i]) && run[i].conn == Connected && !run[i].failed
            ==> run[i].delivered == run[i].sent && run[i].rx == run[i].tx == []
  {
    RunsKeep(run, disciplined, i);
    DeliveredIsPrefix(run[i]);
    if disciplined && Quiet(run[i]) && run[i].conn == Connected && !run[i].failed { QuietDelivers(run[i]); }
  }
}
