/** What the transport does in the end: work never gets stuck on a healthy connection and comes to an end,
    and then every accepted packet has been delivered. */
module TransportProgress {
  import opened Words
  import opened Sequences
  import opened RingBuffers
  import opened Framing
  import opened TcpSockets
  import opened Transport
  import opened TransportWitnesses

  /** Steps that get something done: no new packet, no failure, and no EAGAIN while bytes can be moved. */
  predicate Works(s: Sys, step: Step) {
    match step
    case Write | Schedule | StartDrain | WriteEvent | LoadDrain | Send(_) => true
    case LoadRead => s.wire != []
    case ReadAgain => s.wire == []
    case Read(_) | QueuePass => true
    case StartPass | LoadAvailable | LoadSeries | Decide(_, _) | TakeRest(_) => true
    case _ => false
  }

  // Work that is left, as a number of steps: a byte costs most in the sender ring, less on the way, and
  // least in the receiver ring.

  function ProducerWork(p: Producer): nat {
    match p
    case PIdle => 0
    case PChecked(packet) => 5 + 14 * |packet|
    case PWritten => 4
  }

  function DrainWork(d: Drain): nat {
    match d
    case DIdle => 0
    case DTop => 2
    case DSized(_) => 1
  }

  function ReadingWork(r: Reading, wire: seq<byte>): nat {
    match r
    case XIdle => if wire != [] then 2 else 0
    case XSized(_) => 1
    case XPublished => 7
  }

  function ParserWork(p: Parser): nat {
    match p
    case Idle => 0
    case Top => 3
    case Sized(_) => 2
    case SizedBoth(_, _) => 1
    case Half(_, _) => 1
  }

  function SenderWork(s: Sys): nat {
    14 * |s.tx| + ProducerWork(s.producer) + 3 * s.drainsQueued + DrainWork(s.drain) + if s.armed then 3 else 0
  }

  function ReceiverWork(s: Sys): nat {
    10 * |s.wire| + 3 * |s.rx| + ReadingWork(s.reading, s.wire) + 4 * s.passesQueued + ParserWork(s.parser)
  }

  function Work(s: Sys): nat {
    SenderWork(s) + ReceiverWork(s)
  }

  lemma SendSpends(s: Sys, t: Sys, bytes: seq<byte>)
    requires Inv(s) && SendStep(s, t, Send(bytes))
    ensures Work(t) < Work(s)
  {
    SendsFront(s, t, bytes);
  }

  lemma SendOtherSpends(s: Sys, t: Sys, step: Step)
    requires Inv(s) && SendStep(s, t, step) && Works(s, step) && !step.Send?
    ensures Work(t) < Work(s)
  {
    if step.Write? { WriteNeverRefused(s, t); }
  }

  lemma ReceiveSpends(s: Sys, t: Sys, step: Step)
    requires Inv(s) && ReceiveStep(s, t, step) && Works(s, step)
    ensures Work(t) < Work(s)
  {
    ReceiveLeavesSender(s, t, step);
  }

  lemma DecideSpends(s: Sys, t: Sys, header: seq<byte>, packet: seq<byte>)
    requires Inv(s) && ParseStep(s, t, Decide(header, packet))
    ensures ReceiverWork(t) < ReceiverWork(s)
  {
    if s.parser.available >= 2 { DecideReadsTruth(s, t, header, packet); }
  }

  lemma ParseSpends(s: Sys, t: Sys, step: Step)
    requires Inv(s) && ParseStep(s, t, step)
    ensures Work(t) < Work(s)
  {
    ParseLeavesSender(s, t, step);
    if step.Decide? { DecideSpends(s, t, step.header, step.packet); }
  }

  /** Every step of every thread that works lowers the work that is left, whatever the kernels do. */
  lemma WorkSpends(s: Sys, t: Sys, step: Step)
    requires Inv(s) && Next(s, t, step) && Works(s, step)
    ensures Work(t) < Work(s)
  {
    if ParseStep(s, t, step) {
      ParseSpends(s, t, step);
    } else if ReceiveStep(s, t, step) {
      ReceiveSpends(s, t, step);
    } else if step.Send? {
      SendSpends(s, t, step.bytes);
    } else {
      SendOtherSpends(s, t, step);
    }
  }

  // Work never gets stuck.

  lemma HoldsFront(s: Sys, n: nat)
    requires s.head < RING_CAPACITY && n <= |s.rx| <= RING_CAPACITY
    ensures HoldsFrom(s, s.head, s.rx[..n])
  {}

  lemma DecideEnabled(s: Sys) returns (step: Step, t: Sys)
    requires Inv(s) && s.parser.SizedBoth?
    ensures ParseStep(s, t, step) && step.Decide?
  {
    var available, series := s.parser.available, s.parser.series;
    if available < 2 {
      step, t := Decide([], []), s.(parser := Idle);
    } else {
      var header, msgLen := s.rx[..2], HeaderValue(s.rx[0], s.rx[1]) + 2;
      HoldsFront(s, 2);
      HoldsFront(s, 1);
      assert header[..1] == s.rx[..1];
      var n := if msgLen == 2 || available < msgLen then 0 else if series >= msgLen then msgLen else series;
      HoldsFront(s, n);
      step := Decide(header, s.rx[..n]);
      t := if msgLen == 2 then s.(parser := Idle, open := false)
           else if available < msgLen then s.(parser := Idle)
           else if series >= msgLen then Consume(s, msgLen).(parser := Top, delivered := s.delivered + [s.rx[..n]])
           else Consume(s, series).(parser := Half(s.rx[..n], msgLen - series));
    }
  }

  /** The worker thread can always go on: a queued pass can start, and a pass under way can step. */
  lemma WorkerNeverStuck(s: Sys) returns (step: Step, t: Sys)
    requires Inv(s) && (!s.parser.Idle? || s.passesQueued > 0)
    ensures ParseStep(s, t, step)
  {
    match s.parser
    case Idle => step, t := StartPass, s.(parser := Top, passesQueued := s.passesQueued - 1);
    case Top => step, t := LoadAvailable, s.(parser := Sized(|s.rx|));
    case Sized(available) =>
      step, t := LoadSeries, s.(parser := SizedBoth(available, SeriesLen(s.head, |s.rx|, RING_CAPACITY)));
    case SizedBoth(_, _) => step, t := DecideEnabled(s);
    case Half(taken, remain) =>
      var rest := s.rx[..remain];
      HoldsFront(s, remain);
      step, t := TakeRest(rest), Consume(s, remain).(parser := Top, delivered := s.delivered + [taken + rest]);
  }

  /** The connection is up on both sides, and what is on its way are packets of at least three bytes.  A read
      that asks for nothing is past saving. */
  ghost predicate Healthy(s: Sys) {
    Good(s, true) && s.conn == Connected && s.open && s.reading != XSized(0) && AllLong(Promised(s))
  }

  /** What has been accepted, and what the user thread is about to put into the ring. */
  function Promised(s: Sys): seq<Packet> {
    s.sent + if s.producer.PChecked? then [s.producer.packet] else []
  }

  lemma SenderNeverStuck(s: Sys) returns (step: Step, t: Sys)
    requires Inv(s) && (!s.producer.PIdle? || !s.drain.DIdle? || s.drainsQueued > 0 || s.armed)
    ensures SendStep(s, t, step) && Works(s, step) && t.conn == s.conn
  {
    if s.producer.PChecked? {
      step := Write;
      t := s.(producer := PWritten, tx := s.tx + s.producer.packet, sent := s.sent + [s.producer.packet]);
    } else if s.producer.PWritten? {
      step, t := Schedule, s.(producer := PIdle, drainsQueued := s.drainsQueued + 1);
    } else if s.drain.DTop? {
      step, t := LoadDrain, if s.tx == [] then s.(drain := DIdle) else s.(drain := DSized(1));
    } else if s.drain.DSized? {
      step, t := Send(s.tx[..1]), s.(wire := s.wire + s.tx[..1], tx := s.tx[1..], drain := DTop);
    } else if s.drainsQueued > 0 {
      step, t := StartDrain, s.(drainsQueued := s.drainsQueued - 1, drain := DTop);
    } else {
      step, t := WriteEvent, s.(armed := false, drain := DTop);
    }
  }

  lemma ReaderNeverStuck(s: Sys) returns (step: Step, t: Sys)
    requires Inv(s) && (s.reading.XPublished? || (s.reading.XSized? && s.reading.room > 0))
    ensures ReceiveStep(s, t, step) && Works(s, step) && t.open == s.open && !t.reading.XSized?
  {
    if s.reading.XPublished? {
      step, t := QueuePass, s.(reading := XIdle, passesQueued := s.passesQueued + 1);
    } else if s.wire == [] {
      step, t := ReadAgain, s.(reading := XIdle);
    } else {
      step, t := Read(1), s.(rx := s.rx + s.wire[..1], wire := s.wire[1..], reading := XPublished);
    }
  }

  /** With the worker thread done, a read finds room. */
  lemma ReadEventNeverStuck(s: Sys) returns (t: Sys)
    requires Healthy(s) && s.reading.XIdle? && s.parser.Idle? && s.passesQueued == 0 && s.wire != []
    ensures ReceiveStep(s, t, LoadRead) && Works(s, LoadRead) && t.open && t.reading != XSized(0)
  {
    t := s.(reading := XSized(SeriesLen(Tail(s), RING_CAPACITY - |s.rx|, RING_CAPACITY)));
    LongSent(s);
    FullRingCloses(s, t);
  }

  lemma LongSent(s: Sys)
    requires AllLong(Promised(s))
    ensures AllLong(s.sent)
  {
    forall p | p in s.sent ensures |p| >= 3 { assert p in Promised(s); }
  }

  /** On a healthy connection the worker thread does not close it. */
  lemma WorkerStaysHealthy(s: Sys, t: Sys, step: Step)
    requires Healthy(s) && ParseStep(s, t, step)
    ensures t.open && t.reading == s.reading
  {
    LongSent(s);
    DeliveredIsPrefix(s);
    ParseLeavesSender(s, t, step);
    if step.Decide? && s.parser.available >= 2 { DecideReadsTruth(s, t, step.header, step.packet); }
  }

  lemma SendKeepsPromise(s: Sys, t: Sys, step: Step)
    requires Inv(s) && SendStep(s, t, step) && Works(s, step)
    ensures Promised(t) == Promised(s)
  {
    if step.Write? { WriteNeverRefused(s, t); }
  }

  lemma ReceiveKeepsPromise(s: Sys, t: Sys, step: Step)
    requires |s.rx| <= RING_CAPACITY && s.head < RING_CAPACITY
    requires ReceiveStep(s, t, step) || ParseStep(s, t, step)
    ensures Promised(t) == Promised(s) && t.conn == s.conn
  {
    ReceiverLeavesSender(s, t, step);
  }

  lemma WorkLinks(s: Sys, t: Sys, step: Step)
    requires Good(s, true) && Next(s, t, step) && Works(s, step)
    ensures Good(t, true)
  {
    assert Disciplined(s, step);
    assert Linked(s, t, true);
    LinkKeeps(s, t, true);
  }

  /** A healthy connection with anything left to do can do some of it and stay healthy. */
  lemma NeverStuck(s: Sys) returns (step: Step, t: Sys)
    requires Healthy(s) && !Quiet(s)
    ensures Next(s, t, step) && Works(s, step) && Healthy(t) && Promised(t) == Promised(s)
  {
    if !s.producer.PIdle? || !s.drain.DIdle? || s.drainsQueued > 0 || s.armed {
      step, t := SenderNeverStuck(s);
      SendKeepsPromise(s, t, step);
      SendLeavesReceiver(s, t, step);
    } else if !s.reading.XIdle? {
      step, t := ReaderNeverStuck(s);
      ReceiveKeepsPromise(s, t, step);
    } else if !s.parser.Idle? || s.passesQueued > 0 {
      step, t := WorkerNeverStuck(s);
      WorkerStaysHealthy(s, t, step);
      ReceiveKeepsPromise(s, t, step);
    } else {
      step := LoadRead;
      t := ReadEventNeverStuck(s);
      ReceiveKeepsPromise(s, t, step);
    }
    WorkLinks(s, t, step);
  }

  /** From every healthy state some continuation delivers everything: what was accepted, and what is about to
      be put into the ring. */
  lemma {:induction false} Completes(s0: Sys, s: Sys) returns (t: Sys)
    requires Leads(s0, s, true) && Healthy(s)
    ensures Leads(s0, t, true) && Healthy(t) && Quiet(t) && t.rx == t.tx == []
    ensures t.delivered == t.sent == Promised(s)
    decreases Work(s)
  {
    if Quiet(s) {
      t := s;
      LongSent(s);
      QuietDelivers(s);
    } else {
      var step, u := NeverStuck(s);
      WorkSpends(s, u, step);
      GoesOn(s0, s, u, step, true);
      t := Completes(s0, u);
    }
  }

  ghost predicate WorkLinked(s: Sys, t: Sys) {
    exists step :: Next(s, t, step) && Works(s, step)
  }

  lemma LinkSpends(s: Sys, t: Sys)
    requires Inv(s) && WorkLinked(s, t)
    ensures Inv(t) && Work(t) + 1 <= Work(s)
  {
    var step :| Next(s, t, step) && Works(s, step);
    StepKeeps(s, t, step);
    WorkSpends(s, t, step);
  }

  /** And no schedule can put it off: however the threads take turns, and however little the kernels move at
      a time, so many working steps at most can follow a state of a run. */
  lemma {:induction false} WorkEnds(run: seq<Sys>, i: nat)
    requires i < |run| && Inv(run[0]) && forall k :: 0 <= k < |run| - 1 ==> WorkLinked(run[k], run[k + 1])
    ensures Inv(run[i]) && i + Work(run[i]) <= Work(run[0])
  {
    if i == 0 {
    } else {
      WorkEnds(run, i - 1);
      assert WorkLinked(run[i - 1], run[i - 1 + 1]);
      LinkSpends(run[i - 1], run[i]);
    }
  }

  /** A healthy connection in which no working step is possible has delivered everything. */
  lemma StuckMeansDelivered(s: Sys)
    requires Healthy(s) && forall t, step :: Next(s, t, step) ==> !Works(s, step)
    ensures Quiet(s) && s.delivered == s.sent && s.rx == s.tx == []
  {
    if !Quiet(s) {
      var step, t := NeverStuck(s);
      assert false;
    }
    LongSent(s);
    QuietDelivers(s);
  }

  /** Over every run: whatever state a disciplined run has come to, if the connection is up on both sides, no
      read asks for nothing and all packets have at least three bytes, it can still deliver everything. */
  lemma EverythingCanArrive(run: seq<Sys>, i: nat) returns (t: Sys)
    requires IsRun(run, true) && i < |run|
    requires run[i].conn == Connected && run[i].open && run[i].reading != XSized(0) && AllLong(Promised(run[i]))
    ensures Leads(run[i], t, true) && Quiet(t) && t.delivered == t.sent == Promised(run[i])
  {
    RunsKeep(run, true, i);
    Stays(run[i], true);
    t := Completes(run[i], run[i]);
  }

  // Packets from the start.

  function WireForms(datas: seq<seq<byte>>): (ps: seq<Packet>) {
    if datas == [] then [] else WireForms(datas[..|datas| - 1]) + [WireForm(datas[|datas| - 1])]
  }

  lemma Connects() returns (s: Sys)
    ensures Leads(START, s, true) && Healthy(s) && Quiet(s) && s.tx == [] && s.sent == s.delivered == []
  {
    var s1 := START.(conn := Connecting);
    s := START.(conn := Connected);
    Stays(START, true);
    GoesOn(START, START, s1, BeginConnect, true);
    GoesOn(START, s1, s, FinishConnect, true);
    LeadsGood(s);
  }

  lemma LeadsGood(s: Sys)
    requires Leads(START, s, true)
    ensures Good(s, true)
  {
    var run :| IsPath(run, true) && run[0] == START && run[|run| - 1] == s;
    RunsKeep(run, true, |run| - 1);
  }

  /** Any sequence of buffers of 3 to 65537 bytes can be sent and arrives, packet by packet, in order. */
  lemma {:induction false} PacketsArrive(datas: seq<seq<byte>>) returns (t: Sys)
    requires forall data :: data in datas ==> 3 <= |data| <= MAX_PACKET
    ensures Init(START) && Leads(START, t, true) && Healthy(t) && Quiet(t) && t.tx == []
    ensures t.delivered == t.sent == WireForms(datas)
    decreases |datas|
  {
    if datas == [] {
      t := Connects();
    } else {
      var data := datas[|datas| - 1];
      var s := PacketsArrive(datas[..|datas| - 1]);
      t := PacketArrives(s, data);
    }
  }

  lemma PacketArrives(s: Sys, data: seq<byte>) returns (t: Sys)
    requires Leads(START, s, true) && Healthy(s) && Quiet(s) && s.tx == [] && 3 <= |data| <= MAX_PACKET
    ensures Leads(START, t, true) && Healthy(t) && Quiet(t) && t.tx == []
    ensures t.delivered == t.sent == s.sent + [WireForm(data)]
  {
    var u := s.(tx := s.tx + WireForm(data), sent := s.sent + [WireForm(data)], drainsQueued := s.drainsQueued + 1);
    Accepts(START, s, data, true);
    LeadsGood(u);
    LongSnoc(s.sent, WireForm(data));
    assert Promised(s) == s.sent && Promised(u) == u.sent;
    t := Completes(START, u);
  }

  lemma LongSnoc(ps: seq<Packet>, p: Packet)
    requires AllLong(ps) && |p| >= 3
    ensures AllLong(ps + [p])
  {}
}
