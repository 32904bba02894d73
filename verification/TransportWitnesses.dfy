/** Runs that show what the transport does not promise: a stalled send and a closed healthy connection. */
module TransportWitnesses {
  import opened Words
  import opened Sequences
  import opened Framing
  import opened TcpSockets
  import opened Transport

  /** Some sequence of steps leads from one state to the other. */
  ghost predicate Leads(s: Sys, t: Sys, disciplined: bool) {
    exists run :: IsPath(run, disciplined) && run[0] == s && run[|run| - 1] == t
  }

  lemma Stays(s: Sys, disciplined: bool)
    ensures Leads(s, s, disciplined)
  {
    assert IsPath([s], disciplined);
  }

  lemma GoesOn(s: Sys, t: Sys, u: Sys, step: Step, disciplined: bool)
    requires Leads(s, t, disciplined) && Next(t, u, step) && (disciplined ==> Disciplined(t, step))
    ensures Leads(s, u, disciplined)
  {
    var run :| IsPath(run, disciplined) && run[0] == s && run[|run| - 1] == t;
    assert Linked(t, u, disciplined);
    var more := run + [u];
    forall i: nat | i + 1 < |more| ensures LinkedAt(more, i, disciplined) {
      if i + 1 < |run| { assert LinkedAt(run, i, disciplined); }
    }
    assert IsPath(more, disciplined) && more[0] == s && more[|more| - 1] == u;
  }

  const START: Sys := Sys([], [], PIdle, 0, DIdle, Closed, false, false, [], [], 0, true, XIdle, 0, Idle, [])

  /** The ring of the receiver is one that any step may find. */
  predicate Sane(s: Sys) {
    |s.rx| <= RING_CAPACITY && s.head < RING_CAPACITY
  }

  /** The user thread sends one packet while the network thread is elsewhere. */
  lemma Accepts(s0: Sys, s: Sys, data: seq<byte>, disciplined: bool)
    requires Leads(s0, s, disciplined) && Sane(s) && s.producer.PIdle? && (disciplined ==> s.conn == Connected)
    requires |data| <= MAX_PACKET && |data| + 2 <= RING_CAPACITY - |s.tx|
    ensures Leads(s0, s.(tx := s.tx + WireForm(data), sent := s.sent + [WireForm(data)],
                         drainsQueued := s.drainsQueued + 1), disciplined)
  {
    var packet := WireForm(data);
    var s1 := s.(producer := PChecked(packet));
    var s2 := s1.(producer := PWritten, tx := s1.tx + packet, sent := s1.sent + [packet]);
    GoesOn(s0, s, s1, Check(data), disciplined);
    GoesOn(s0, s1, s2, Write, disciplined);
    GoesOn(s0, s2, s2.(producer := PIdle, drainsQueued := s2.drainsQueued + 1), Schedule, disciplined);
  }

  /** Without the discipline a send can stall: a packet accepted while the connection is being set up is
      drained into EAGAIN, and `FinishConnect` then leaves the write event unregistered. */
  lemma EarlySendStalls(s: Sys, data: seq<byte>) returns (t: Sys)
    requires Sane(s) && s.conn == Connecting && !s.failed
    requires s.producer.PIdle? && s.drain.DIdle? && s.drainsQueued == 0
    requires 0 < |data| <= MAX_PACKET && |data| + 2 <= RING_CAPACITY - |s.tx|
    ensures Leads(s, t, false) && SendStalled(t) && t.sent == s.sent + [WireForm(data)]
  {
    Stays(s, false);
    Accepts(s, s, data, false);
    var s3 := s.(tx := s.tx + WireForm(data), sent := s.sent + [WireForm(data)], drainsQueued := 1);
    t := DrainsInVain(s, s3);
  }

  lemma DrainsInVain(s0: Sys, s: Sys) returns (t: Sys)
    requires Leads(s0, s, false) && Sane(s) && s.conn == Connecting && !s.failed
    requires s.producer.PIdle? && s.drain.DIdle? && s.drainsQueued == 1 && s.tx != []
    ensures Leads(s0, t, false) && SendStalled(t) && t.sent == s.sent
  {
    var s1 := StartsDrain(s0, s, 1, false);
    t := GivesUp(s0, s1);
  }

  lemma StartsDrain(s0: Sys, s: Sys, window: nat, disciplined: bool) returns (t: Sys)
    requires Leads(s0, s, disciplined) && Sane(s) && s.drain.DIdle? && s.drainsQueued == 1 && 1 <= window <= |s.tx|
    ensures Leads(s0, t, disciplined) && t == s.(drainsQueued := 0, drain := DSized(window))
  {
    var s1 := s.(drainsQueued := 0, drain := DTop);
    t := s1.(drain := DSized(window));
    GoesOn(s0, s, s1, StartDrain, disciplined);
    GoesOn(s0, s1, t, LoadDrain, disciplined);
  }

  lemma GivesUp(s0: Sys, s: Sys) returns (t: Sys)
    requires Leads(s0, s, false) && Sane(s) && s.conn == Connecting && !s.failed
    requires s.producer.PIdle? && s.drain.DSized? && s.drainsQueued == 0 && s.tx != []
    ensures Leads(s0, t, false) && SendStalled(t) && t.sent == s.sent
  {
    var s1 := s.(drain := DIdle);
    t := s1.(conn := Connected, armed := false);
    GoesOn(s0, s, s1, SendAgain, false);
    GoesOn(s0, s1, t, FinishConnect, false);
  }

  /** So from the very beginning any nonempty packet can be the one that stalls. */
  lemma FirstSendStalls(data: seq<byte>) returns (t: Sys)
    requires 0 < |data| <= MAX_PACKET
    ensures Init(START) && Leads(START, t, false) && SendStalled(t) && t.sent == [WireForm(data)]
  {
    var s := START.(conn := Connecting);
    Stays(START, false);
    GoesOn(START, START, s, BeginConnect, false);
    t := EarlySendStalls(s, data);
    Joins(START, s, t);
  }

  lemma Joins(s: Sys, t: Sys, u: Sys)
    requires Leads(s, t, false) && Leads(t, u, false)
    ensures Leads(s, u, false)
  {
    var a :| IsPath(a, false) && a[0] == s && a[|a| - 1] == t;
    var b :| IsPath(b, false) && b[0] == t && b[|b| - 1] == u;
    var run := a + b[1..];
    forall i: nat | i + 1 < |run| ensures LinkedAt(run, i, false) {
      if i < |a| - 1 {
        assert LinkedAt(a, i, false);
      } else {
        assert LinkedAt(b, i - (|a| - 1), false);
      }
    }
    assert IsPath(run, false);
  }

  // A healthy connection that closes.

  const PACKET_SIZE := 65536
  const DATA: seq<byte> := seq(PACKET_SIZE, _ => 0)

  /** A packet that goes through the sender ring at once, in one `send`. */
  lemma SendsThrough(s: Sys) returns (t: Sys)
    requires Leads(START, s, true) && Sane(s) && s.conn == Connected
    requires s.tx == [] && s.producer.PIdle? && s.drain.DIdle? && s.drainsQueued == 0
    ensures Leads(START, t, true)
    ensures t == s.(sent := s.sent + [WireForm(DATA)], wire := s.wire + WireForm(DATA))
  {
    var packet := WireForm(DATA);
    Accepts(START, s, DATA, true);
    assert [] + packet == packet;
    var s1 := StartsDrain(START, s.(tx := packet, sent := s.sent + [packet], drainsQueued := 1), |packet|, true);
    t := SendsAll(START, s1);
  }

  lemma SendsAll(s0: Sys, s: Sys) returns (t: Sys)
    requires Leads(s0, s, true) && Sane(s) && s.tx != [] && s.drain == DSized(|s.tx|)
    ensures Leads(s0, t, true) && t == s.(wire := s.wire + s.tx, tx := [], drain := DIdle)
  {
    var s1 := s.(wire := s.wire + s.tx, tx := [], drain := DTop);
    t := s1.(drain := DIdle);
    GoesOn(s0, s, s1, Send(s.tx), true);
    GoesOn(s0, s1, t, LoadDrain, true);
  }

  /** A connected state after `n` packets, all of them still in the kernels. */
  lemma {:induction false} SendsMany(n: nat) returns (s: Sys)
    ensures Leads(START, s, true)
    ensures s == START.(conn := Connected, sent := s.sent, wire := s.wire)
    ensures |s.wire| == n * PACKET_SIZE && s.wire == Concat(s.sent) && |s.sent| == n
    ensures forall p :: p in s.sent ==> p == WireForm(DATA)
  {
    if n == 0 {
      var s1 := START.(conn := Connecting);
      s := START.(conn := Connected);
      Stays(START, true);
      GoesOn(START, START, s1, BeginConnect, true);
      GoesOn(START, s1, s, FinishConnect, true);
    } else {
      var r := SendsMany(n - 1);
      s := SendsThrough(r);
      ConcatSnoc(r.sent, WireForm(DATA));
    }
  }

  /** A read that fills the ring before the worker thread has run leaves nothing to ask the next read for. */
  lemma FillsRing(s0: Sys, s: Sys) returns (t: Sys)
    requires Leads(s0, s, true) && s.rx == [] && s.head == 0 && |s.wire| == RING_CAPACITY
    requires s.reading.XIdle? && s.open
    ensures Leads(s0, t, true)
    ensures t == s.(rx := s.wire, wire := [], passesQueued := s.passesQueued + 1, reading := XSized(0))
  {
    var s1 := s.(rx := s.wire, wire := [], reading := XPublished);
    var s2 := s1.(reading := XIdle, passesQueued := s.passesQueued + 1);
    t := s2.(reading := XSized(0));
    ReadsAll(s0, s);
    GoesOn(s0, s1, s2, QueuePass, true);
    GoesOn(s0, s2, t, LoadRead, true);
  }

  lemma ReadsAll(s0: Sys, s: Sys)
    requires Leads(s0, s, true) && s.rx == [] && s.head == 0 && |s.wire| == RING_CAPACITY
    requires s.reading.XIdle? && s.open
    ensures Leads(s0, s.(rx := s.wire, wire := [], reading := XPublished), true)
  {
    var s1 := s.(reading := XSized(RING_CAPACITY));
    assert [] + s.wire == s.wire && s.wire[..RING_CAPACITY] == s.wire;
    GoesOn(s0, s, s1, LoadRead, true);
    GoesOn(s0, s1, s.(rx := s.wire, wire := [], reading := XPublished), Read(RING_CAPACITY), true);
  }

  /** A peer that sends 256 ordinary packets while the worker thread is late has its connection closed: the
      reads fill the ring, and the next one asks for zero bytes. */
  lemma HealthyConnectionCloses() returns (s: Sys, t: Sys)
    ensures Init(START) && Leads(START, s, true) && |s.sent| == 256 && forall p :: p in s.sent ==> |p| == PACKET_SIZE
    ensures s.open && s.conn == Connected && !s.failed && s.rx == Concat(s.sent) && s.passesQueued == 1
    ensures s.reading == XSized(0) && Next(s, t, ReadClose) && !t.open
  {
    var s0 := SendsMany(256);
    s := FillsRing(START, s0);
    t := s.(reading := XIdle, open := false);
  }
}
