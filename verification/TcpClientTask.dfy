/** The client task: connecting, verifying, parsing and reconnecting, over one `BeginProcess` life.  Each
    handler is one atomic step, and handlers may come in any order and at any time, as late calls of
    callbacks of earlier sockets do. */
module TcpClientTasks {
  /** What the task does that others can see, in order. */
  datatype Action =
    | Connect | Failure | Rearm | Reconnect | ConnectError | Stopped | RoundReset | VerifyOk | Added | Parsed

  // A call of OnSendHelloMsg and what it returned.
  datatype Hello = Hello(time: int, sent: bool)

  // The pace of the client's own hellos: last_schedule_time_, and the calls of OnSendHelloMsg so far.
  datatype Pace = Pace(last: int, hellos: seq<Hello>)

  datatype Client = Client(
    maxTimes: int, round: int, verified: bool, socket: bool, timer: bool, armed: bool,
    checkHello: bool, lastHello: int, pace: Pace, log: seq<Action>)

  /** The handlers and what they are called with; `accept` is the verdict of OnRecvVerifyMsg. */
  datatype Event =
    | TimerFired | ConnectEvent(now: int) | CloseEvent | Packet(accept: bool)
    | ScheduleEvent(now: int, helloSent: bool) | HelloMsg(now: int) | StopProcess

  function Begin(maxTimes: int, checkHello: bool): Client {
    Client(maxTimes, 0, false, true, true, false, checkHello, 0, Pace(0, []), [Connect])
  }

  function Stop(c: Client): Client {
    c.(socket := false, timer := false, armed := false, log := c.log + [Stopped])
  }

  function TryReconnect(c: Client): Client {
    var d := c.(round := if c.maxTimes > 0 then c.round + 1 else c.round, log := c.log + [Failure]);
    if d.maxTimes > 0 && d.round >= d.maxTimes then Stop(d.(log := d.log + [ConnectError]))
    else d.(socket := false, armed := d.armed || d.timer, lastHello := 0, verified := false,
            log := d.log + (if d.timer then [Rearm] else []) + [Reconnect])
  }

  function SayHello(p: Pace, now: int, helloSent: bool): Pace {
    if p.last == 0 then Pace(if helloSent then now else 0, p.hellos + [Hello(now, helloSent)])
    else if now - p.last >= 10000 then Pace(now, p.hellos + [Hello(now, helloSent)])
    else p
  }

  function Handle(c: Client, e: Event): Client {
    match e
    case TimerFired => if c.armed then c.(armed := false, socket := true, log := c.log + [Connect]) else c
    case ConnectEvent(now) => c.(lastHello := now, round := 0, log := c.log + [RoundReset])
    case CloseEvent => TryReconnect(c)
    case Packet(accept) =>
      if c.verified then c.(log := c.log + [Parsed])
      else if accept then c.(verified := true, log := c.log + [VerifyOk] + [Added])
      else Stop(c)
    case ScheduleEvent(now, helloSent) =>
      var d := c.(pace := SayHello(c.pace, now, helloSent));
      if d.checkHello && d.lastHello > 0 && now - d.lastHello > 30000 then TryReconnect(d) else d
    case HelloMsg(now) => c.(lastHello := now)
    case StopProcess => Stop(c)
  }

  function Run(c: Client, events: seq<Event>): Client
    decreases |events|
  {
    if events == [] then c else Run(Handle(c, events[0]), events[1..])
  }

  // Claims about logs, read from the end.

  /** Occurrences of `a` since the last round reset. */
  function Since(log: seq<Action>, a: Action): nat {
    if log == [] || log[|log| - 1] == RoundReset then 0
    else (if log[|log| - 1] == a then 1 else 0) + Since(log[..|log| - 1], a)
  }

  /** A verification has succeeded and no reconnect has come after it. */
  predicate VerifiedNow(log: seq<Action>) {
    log != [] && (log[|log| - 1] == VerifyOk
                  || (log[|log| - 1] != Reconnect && VerifiedNow(log[..|log| - 1])))
  }

  /** Every entry of the log was allowed where it stands. */
  predicate Allowed(log: seq<Action>, maxTimes: int) {
    log == [] || (
      var a, before := log[|log| - 1], log[..|log| - 1];
      && Allowed(before, maxTimes)
      && (a == Parsed ==> VerifiedNow(before))
      && (a == Connect ==> Stopped !in before)
      && (a == Rearm ==> Stopped !in before && (maxTimes > 0 ==> Since(before, Rearm) < maxTimes - 1))
      && (a == ConnectError ==> 0 < maxTimes <= Since(before, Failure))
      && (a == VerifyOk ==> !VerifiedNow(before))
      && (a == Added <==> before != [] && before[|before| - 1] == VerifyOk))
  }

  ghost predicate Inv(c: Client) {
    && Allowed(c.log, c.maxTimes)
    && c.verified == VerifiedNow(c.log)
    && (c.armed ==> c.timer) && (Stopped in c.log <==> !c.timer) && (Stopped in c.log ==> !c.socket)
    && Counted(c) && c.log != [] && c.log[|c.log| - 1] != VerifyOk
  }

  lemma Logged(log: seq<Action>, a: Action, maxTimes: int)
    ensures Since(log + [a], Rearm) == if a == RoundReset then 0 else Since(log, Rearm) + if a == Rearm then 1 else 0
    ensures Since(log + [a], Failure)
            == if a == RoundReset then 0 else Since(log, Failure) + if a == Failure then 1 else 0
    ensures VerifiedNow(log + [a]) == (a == VerifyOk || (a != Reconnect && VerifiedNow(log)))
    ensures Allowed(log + [a], maxTimes) == (
      && Allowed(log, maxTimes) && (a == Parsed ==> VerifiedNow(log)) && (a == Connect ==> Stopped !in log)
      && (a == Rearm ==> Stopped !in log && (maxTimes > 0 ==> Since(log, Rearm) < maxTimes - 1))
      && (a == ConnectError ==> 0 < maxTimes <= Since(log, Failure))
      && (a == VerifyOk ==> !VerifiedNow(log))
      && (a == Added <==> log != [] && log[|log| - 1] == VerifyOk))
  {
    assert (log + [a])[..|log|] == log;
  }

  ghost predicate Counted(c: Client) {
    c.maxTimes > 0 ==> c.round == Since(c.log, Failure) && Since(c.log, Rearm) <= c.round
                       && Since(c.log, Rearm) < c.maxTimes
  }

  /** Everything that stopping needs of the state before it. */
  ghost predicate Stoppable(c: Client) {
    && Allowed(c.log, c.maxTimes) && c.verified == VerifiedNow(c.log)
    && c.log != [] && c.log[|c.log| - 1] != VerifyOk && Counted(c)
  }

  lemma StopKeeps(c: Client)
    requires Stoppable(c)
    ensures Inv(Stop(c))
  {
    Logged(c.log, Stopped, c.maxTimes);
  }

  /** The state in which the last failure has been reported. */
  function Reported(c: Client): Client {
    c.(round := c.round + 1, log := (c.log + [Failure]) + [ConnectError])
  }

  lemma ReportKeeps(c: Client)
    requires Inv(c) && c.maxTimes > 0 && c.round + 1 >= c.maxTimes
    ensures Inv(Reported(c))
  {
    Logged(c.log, Failure, c.maxTimes);
    Logged(c.log + [Failure], ConnectError, c.maxTimes);
  }

  lemma LastReconnect(c: Client)
    requires Inv(c) && c.maxTimes > 0 && c.round + 1 >= c.maxTimes
    ensures Inv(TryReconnect(c)) && TryReconnect(c) == Stop(Reported(c))
  {
    ReportKeeps(c);
    StopKeeps(Reported(c));
  }

  /** Ending a failure with a reconnect, whether or not the timer was armed. */
  lemma LogsReconnect(c: Client, log: seq<Action>)
    requires Inv(c) && !(c.maxTimes > 0 && c.round + 1 >= c.maxTimes)
    requires TryReconnect(c).log == log + [Reconnect]
    requires Allowed(log, c.maxTimes) && log != [] && log[|log| - 1] != VerifyOk && (Stopped in log <==> !c.timer)
    requires Counted(c.(round := TryReconnect(c).round, log := log))
    ensures Inv(TryReconnect(c))
  {
    Logged(log, Reconnect, c.maxTimes);
  }

  lemma RearmedReconnect(c: Client)
    requires Inv(c) && !(c.maxTimes > 0 && c.round + 1 >= c.maxTimes) && c.timer
    ensures Inv(TryReconnect(c))
  {
    var log1 := c.log + [Failure];
    Logged(c.log, Failure, c.maxTimes);
    Logged(log1, Rearm, c.maxTimes);
    LogsReconnect(c, log1 + [Rearm]);
  }

  lemma BareReconnect(c: Client)
    requires Inv(c) && !(c.maxTimes > 0 && c.round + 1 >= c.maxTimes) && !c.timer
    ensures Inv(TryReconnect(c))
  {
    var log1 := c.log + [Failure];
    Logged(c.log, Failure, c.maxTimes);
    assert log1 + [] == log1;
    LogsReconnect(c, log1);
  }

  lemma NextReconnect(c: Client)
    requires Inv(c) && !(c.maxTimes > 0 && c.round + 1 >= c.maxTimes)
    ensures Inv(TryReconnect(c))
  {
    if c.timer { RearmedReconnect(c); } else { BareReconnect(c); }
  }

  /** A failure either reports and stops, exactly from the `maxTimes`-th one in a row on, or arms the timer
      again if there still is one. */
  lemma ReconnectKeeps(c: Client)
    requires Inv(c)
    ensures Inv(TryReconnect(c))
    ensures var d, failures := TryReconnect(c), Since(c.log, Failure) + 1;
            if c.maxTimes > 0 && failures >= c.maxTimes
            then d.log == ((c.log + [Failure]) + [ConnectError]) + [Stopped] && !d.socket && !d.timer && !d.armed
            else d.armed == d.timer == c.timer && !d.socket && !d.verified
                 && d.log == (c.log + [Failure]) + (if c.timer then [Rearm] else []) + [Reconnect]
  {
    if c.maxTimes > 0 && c.round + 1 >= c.maxTimes {
      LastReconnect(c);
    } else {
      NextReconnect(c);
    }
  }

  lemma PacketKeeps(c: Client, accept: bool)
    requires Inv(c)
    ensures Inv(Handle(c, Packet(accept)))
  {
    if c.verified {
      Logged(c.log, Parsed, c.maxTimes);
    } else if accept {
      VerifyKeeps(c);
    } else {
      StopKeeps(c);
    }
  }

  lemma VerifyKeeps(c: Client)
    requires Inv(c) && !c.verified
    ensures Inv(Handle(c, Packet(true)))
  {
    Logged(c.log, VerifyOk, c.maxTimes);
    Logged(c.log + [VerifyOk], Added, c.maxTimes);
  }

  lemma HandleKeeps(c: Client, e: Event)
    requires Inv(c)
    ensures Inv(Handle(c, e)) && Handle(c, e).maxTimes == c.maxTimes
  {
    match e
    case TimerFired => ConnectKeeps(c);
    case ConnectEvent(now) => ConnectedKeeps(c, now);
    case CloseEvent => ReconnectKeeps(c);
    case Packet(accept) => PacketKeeps(c, accept);
    case ScheduleEvent(now, helloSent) => ScheduleKeeps(c, now, helloSent);
    case HelloMsg(_) =>
    case StopProcess => StopKeeps(c);
  }

  lemma PaceKeeps(c: Client, pace: Pace)
    requires Inv(c)
    ensures Inv(c.(pace := pace))
  {}

  lemma ScheduleKeeps(c: Client, now: int, helloSent: bool)
    requires Inv(c)
    ensures Inv(Handle(c, ScheduleEvent(now, helloSent)))
    ensures Handle(c, ScheduleEvent(now, helloSent)).maxTimes == c.maxTimes
  {
    var pace := SayHello(c.pace, now, helloSent);
    PaceKeeps(c, pace);
    ReconnectKeeps(c.(pace := pace));
  }

  lemma ConnectKeeps(c: Client)
    requires Inv(c)
    ensures Inv(Handle(c, TimerFired))
  {
    Logged(c.log, Connect, c.maxTimes);
  }

  lemma ConnectedKeeps(c: Client, now: int)
    requires Inv(c)
    ensures Inv(Handle(c, ConnectEvent(now)))
  {
    Logged(c.log, RoundReset, c.maxTimes);
  }

  lemma {:induction false} RunKeeps(c: Client, events: seq<Event>)
    requires Inv(c)
    ensures Inv(Run(c, events)) && Run(c, events).maxTimes == c.maxTimes
    decreases |events|
  {
    if events == [] {
    } else {
      HandleKeeps(c, events[0]);
      RunKeeps(Handle(c, events[0]), events[1..]);
    }
  }

  lemma BeginInv(maxTimes: int, checkHello: bool)
    ensures Inv(Begin(maxTimes, checkHello))
  {
    Logged([], Connect, maxTimes);
    assert [] + [Connect] == [Connect];
  }

  // The task itself.

  /** Some sequence of callbacks leads to the state. */
  ghost predicate Reached(c: Client) {
    exists events :: c == Run(Begin(c.maxTimes, c.checkHello), events)
  }

  lemma {:induction false} RunAppend(c: Client, a: seq<Event>, b: seq<Event>)
    ensures Run(c, a + b) == Run(Run(c, a), b)
    decreases |a|
  {
    if a == [] {
      assert a + b == b;
    } else {
      assert (a + b)[0] == a[0] && (a + b)[1..] == a[1..] + b;
      RunAppend(Handle(c, a[0]), a[1..], b);
    }
  }

  lemma HandleKeepsSettings(c: Client, e: Event)
    ensures Handle(c, e).maxTimes == c.maxTimes && Handle(c, e).checkHello == c.checkHello
  {}

  lemma ReachedStep(c: Client, e: Event)
    ensures Reached(c) ==> Reached(Handle(c, e))
  {
    if Reached(c) {
      var begin := Begin(c.maxTimes, c.checkHello);
      var events :| c == Run(begin, events);
      RunAppend(begin, events, [e]);
      assert Run(c, [e]) == Run(Handle(c, e), []);
      HandleKeepsSettings(c, e);
      assert Handle(c, e) == Run(begin, events + [e]);
    }
  }

  // The pace of the hellos.

  /** The time of the last hello, once one has been sent; later ones count whether or not they could be. */
  function Announced(hellos: seq<Hello>): int {
    if hellos == [] then 0
    else
      var last := hellos[|hellos| - 1];
      if last.sent || Announced(hellos[..|hellos| - 1]) != 0 then last.time else 0
  }

  predicate HelloDue(hellos: seq<Hello>, now: int) {
    Announced(hellos) == 0 || now - Announced(hellos) >= 10000
  }

  /** Every hello was due when it was sent. */
  predicate Paced(hellos: seq<Hello>) {
    hellos == [] || (Paced(hellos[..|hellos| - 1]) && HelloDue(hellos[..|hellos| - 1], hellos[|hellos| - 1].time))
  }

  lemma HelloSnoc(hellos: seq<Hello>, h: Hello)
    ensures Announced(hellos + [h]) == if h.sent || Announced(hellos) != 0 then h.time else 0
    ensures Paced(hellos + [h]) <==> Paced(hellos) && HelloDue(hellos, h.time)
  {
    assert (hellos + [h])[..|hellos|] == hellos;
  }

  predicate Pacing(p: Pace) {
    p.last == Announced(p.hellos) && Paced(p.hellos)
  }

  lemma SayHelloPaces(p: Pace, now: int, helloSent: bool)
    requires Pacing(p)
    ensures var q := SayHello(p, now, helloSent);
            Pacing(q) && q.hellos == p.hellos + if HelloDue(p.hellos, now) then [Hello(now, helloSent)] else []
  {
    HelloSnoc(p.hellos, Hello(now, helloSent));
  }

  lemma FailureSaysNothing(c: Client)
    ensures TryReconnect(c).pace == c.pace
  {}

  lemma HandlePace(c: Client, e: Event)
    ensures Handle(c, e).pace == if e.ScheduleEvent? then SayHello(c.pace, e.now, e.helloSent) else c.pace
  {
    if e.CloseEvent? { FailureSaysNothing(c); }
  }

  lemma {:induction false} RunPaces(c: Client, events: seq<Event>)
    requires Pacing(c.pace)
    ensures Pacing(Run(c, events).pace)
    decreases |events|
  {
    if events == [] {
    } else {
      var e := events[0];
      HandlePace(c, e);
      if e.ScheduleEvent? { SayHelloPaces(c.pace, e.now, e.helloSent); }
      RunPaces(Handle(c, e), events[1..]);
    }
  }

  lemma ReachedPaced(c: Client)
    requires Reached(c)
    ensures Pacing(c.pace)
  {
    var events :| c == Run(Begin(c.maxTimes, c.checkHello), events);
    RunPaces(Begin(c.maxTimes, c.checkHello), events);
  }

  lemma ScheduleOutcome(c: Client, now: int, helloSent: bool)
    requires Reached(c)
    ensures var d := Handle(c, ScheduleEvent(now, helloSent));
            && Reached(d)
            && d.pace.hellos == c.pace.hellos + (if HelloDue(c.pace.hellos, now) then [Hello(now, helloSent)] else [])
            && if c.checkHello && 0 < c.lastHello < now - 30000 then c.log + [Failure] <= d.log
               else d.log == c.log && d.verified == c.verified && d.socket == c.socket
  {
    ReachedPaced(c);
    SayHelloPaces(c.pace, now, helloSent);
    HandlePace(c, ScheduleEvent(now, helloSent));
    ReachedStep(c, ScheduleEvent(now, helloSent));
    FailureLogged(c.(pace := SayHello(c.pace, now, helloSent)));
  }

  lemma ReachedInv(c: Client)
    requires Reached(c)
    ensures Inv(c)
  {
    var events :| c == Run(Begin(c.maxTimes, c.checkHello), events);
    BeginInv(c.maxTimes, c.checkHello);
    RunKeeps(Begin(c.maxTimes, c.checkHello), events);
  }

  lemma FailureLogged(c: Client)
    ensures c.log + [Failure] <= TryReconnect(c).log
  {}

  lemma ArmedIsLive(c: Client)
    requires Reached(c) && c.armed
    ensures c.timer && Stopped !in c.log
  {
    ReachedInv(c);
  }

  /** A packet verifies the connection or is parsed on a verified one, or it stops the task. */
  lemma PacketVerifies(c: Client, accept: bool)
    requires Reached(c)
    ensures var d := Handle(c, Packet(accept));
            && Reached(d)
            && d.log == (if VerifiedNow(c.log) then c.log + [Parsed]
                         else if accept then (c.log + [VerifyOk]) + [Added] else c.log + [Stopped])
            && if VerifiedNow(c.log) || accept then VerifiedNow(d.log) else d == Stop(c)
  {
    ReachedInv(c);
    PacketKeeps(c, accept);
    ReachedStep(c, Packet(accept));
  }

  lemma FailureSplits(c: Client)
    requires Reached(c)
    ensures var d := TryReconnect(c);
            if 0 < c.maxTimes <= Since(c.log, Failure) + 1
            then d.log == ((c.log + [Failure]) + [ConnectError]) + [Stopped] && !d.socket && !d.timer && !d.armed
            else d.armed == d.timer == c.timer && !d.socket && !VerifiedNow(d.log)
  {
    ReachedInv(c);
    ReconnectKeeps(c);
  }

  class TcpClientTask {
    const maxReconnectTimes: int
    const checkHello: bool
    var connectRound: int
    var verified: bool
    var tcpSocket: bool        // tcp_socket_ is set
    var reconnectTimer: bool   // reconnect_timer_ is set
    var timerArmed: bool
    var lastHelloTime: int
    var lastScheduleTime: int
    var hellos: seq<Hello>     // calls of OnSendHelloMsg so far
    var log: seq<Action>

    function State(): Client
      reads this
    {
      Client(maxReconnectTimes, connectRound, verified, tcpSocket, reconnectTimer, timerArmed,
             checkHello, lastHelloTime, Pace(lastScheduleTime, hellos), log)
    }

    /** The task is as some sequence of callbacks leaves it. */
    ghost predicate Valid()
      reads this
    {
      Reached(State())
    }

    /** Nothing is left that could connect. */
    predicate Gone()
      reads this
    {
      !tcpSocket && !reconnectTimer && !timerArmed && Stopped in log
    }

    constructor BeginProcess(maxReconnectTimes: int, checkHello: bool)
      ensures Valid() && State() == Begin(maxReconnectTimes, checkHello)
      ensures tcpSocket && reconnectTimer && !timerArmed && !verified && log == [Connect] && hellos == []
    {
      this.maxReconnectTimes, this.checkHello := maxReconnectTimes, checkHello;
      connectRound, verified, lastHelloTime, lastScheduleTime := 0, false, 0, 0;
      reconnectTimer, timerArmed, tcpSocket, log, hellos := true, false, true, [Connect], [];
      assert Run(Begin(maxReconnectTimes, checkHello), []) == Begin(maxReconnectTimes, checkHello);
    }

    /** The timer's callback: the task has a socket again, which it never has after a stop. */
    method ConnectToServer()
      requires Valid() && timerArmed
      modifies this
      ensures Valid() && State() == Handle(old(State()), TimerFired)
      ensures tcpSocket && reconnectTimer && !timerArmed && Stopped !in log && log == old(log) + [Connect]
    {
      ArmedIsLive(State());
      ReachedStep(State(), TimerFired);
      timerArmed := false;  // the timer fires once for each time it is armed
      tcpSocket := true;
      log := log + [Connect];
    }

    method OnStopProcess()
      modifies this
      ensures State() == Handle(old(State()), StopProcess) && (old(Valid()) ==> Valid())
      ensures Gone()
    {
      ReachedStep(State(), StopProcess);
      log := log + [Stopped];
      if tcpSocket {
        tcpSocket := false;
      }
      reconnectTimer, timerArmed := false, false;
    }

    /** Before a verification the packet decides between being added and stopping; after it, and only
        then, the packet is parsed. */
    method OnInternalPacket(accept: bool)
      requires Valid()
      modifies this
      ensures Valid() && State() == Handle(old(State()), Packet(accept))
      ensures log == if VerifiedNow(old(log)) then old(log) + [Parsed]
                     else if accept then (old(log) + [VerifyOk]) + [Added] else old(log) + [Stopped]
      ensures if VerifiedNow(old(log)) || accept then VerifiedNow(log) else Gone()
    {
      PacketVerifies(State(), accept);
      if !verified {
        if accept {
          verified := true;
          log := log + [VerifyOk] + [Added];
        } else {
          OnStopProcess();
        }
      } else {
        log := log + [Parsed];
      }
    }

    /** A new connection starts the count of failures over, starts the 30 s of the server, and verifies
        nothing. */
    method OnConnectEvent(now: int)
      requires Valid()
      modifies this
      ensures Valid() && State() == Handle(old(State()), ConnectEvent(now))
      ensures Since(log, Failure) == Since(log, Rearm) == 0 && VerifiedNow(log) == VerifiedNow(old(log))
      ensures lastHelloTime == now
    {
      Logged(log, RoundReset, maxReconnectTimes);
      ReachedStep(State(), ConnectEvent(now));
      lastHelloTime := now;
      connectRound := 0;
      log := log + [RoundReset];
    }

    /** The N-th failure in a row, and every later one, is reported and stops the task.  An earlier one, or
        any with no limit, leaves an unverified task without a socket whose timer, if it has one, is armed. */
    method OnCloseEvent()
      requires Valid()
      modifies this
      ensures Valid() && State() == Handle(old(State()), CloseEvent)
      ensures if 0 < maxReconnectTimes <= Since(old(log), Failure) + 1
              then log == ((old(log) + [Failure]) + [ConnectError]) + [Stopped] && Gone()
              else timerArmed == reconnectTimer == old(reconnectTimer) && !tcpSocket && !VerifiedNow(log)
    {
      FailureSplits(State());
      ReachedStep(State(), CloseEvent);
      TryReconnectServerInner();
    }

    /** The first half of a periodic check. */
    method SayHelloWhenDue(now: int, helloSent: bool)
      modifies this`hellos, this`lastScheduleTime
      ensures Pace(lastScheduleTime, hellos) == SayHello(Pace(old(lastScheduleTime), old(hellos)), now, helloSent)
    {
      if lastScheduleTime == 0 {
        hellos := hellos + [Hello(now, helloSent)];
        if helloSent {
          lastScheduleTime := now;
        }
      } else if now - lastScheduleTime >= 10000 {
        hellos := hellos + [Hello(now, helloSent)];
        lastScheduleTime := now;
      }
    }

    /** A hello is sent exactly if none has been yet, or the last one is at least 10 s old.  The connection is
        given up exactly if hellos are checked and the server's last one is more than 30 s old. */
    method OnScheduleEvent(now: int, helloSent: bool)
      requires Valid()
      modifies this
      ensures Valid() && State() == Handle(old(State()), ScheduleEvent(now, helloSent))
      ensures if checkHello && 0 < old(lastHelloTime) < now - 30000 then old(log) + [Failure] <= log
              else log == old(log) && verified == old(verified) && tcpSocket == old(tcpSocket)
      ensures hellos == old(hellos) + if HelloDue(old(hellos), now) then [Hello(now, helloSent)] else []
    {
      ScheduleOutcome(State(), now, helloSent);
      SayHelloWhenDue(now, helloSent);
      if checkHello && lastHelloTime > 0 && now - lastHelloTime > 30000 {
        TryReconnectServerInner();
      }
    }

    method OnRecvHelloMsg(now: int)
      requires Valid()
      modifies this
      ensures Valid() && State() == Handle(old(State()), HelloMsg(now))
      ensures lastHelloTime == now && log == old(log)
    {
      ReachedStep(State(), HelloMsg(now));
      lastHelloTime := now;
    }

    method TryReconnectServerInner()
      modifies this
      ensures State() == TryReconnect(old(State()))
      ensures Gone() || ((reconnectTimer ==> timerArmed) && !tcpSocket && !verified)
    {
      log := log + [Failure];
      if maxReconnectTimes > 0 {
        connectRound := connectRound + 1;
        if connectRound >= maxReconnectTimes {
          log := log + [ConnectError];
          OnStopProcess();
          return;
        }
      }
      if tcpSocket {
        tcpSocket := false;
      }
      ghost var before := log;
      if reconnectTimer {
        timerArmed := true;  // Watch removes the event and adds it again
        log := log + [Rearm];
      }
      assert log == before + if reconnectTimer then [Rearm] else [];
      lastHelloTime := 0;
      verified := false;
      log := log + [Reconnect];
    }

    /** The loops call the handlers in any order, also those of earlier sockets; a timer that is not armed
        does not fire. */
    method Dispatch(events: seq<Event>)
      requires Valid()
      modifies this
      ensures Valid() && State() == Run(old(State()), events)
    {
      for i := 0 to |events|
        invariant Valid() && Run(State(), events[i..]) == Run(old(State()), events)
      {
        assert events[i..][1..] == events[i + 1..];
        match events[i] {
          case TimerFired => if timerArmed { ConnectToServer(); }
          case ConnectEvent(now) => OnConnectEvent(now);
          case CloseEvent => OnCloseEvent();
          case Packet(accept) => OnInternalPacket(accept);
          case ScheduleEvent(now, helloSent) => OnScheduleEvent(now, helloSent);
          case HelloMsg(now) => OnRecvHelloMsg(now);
          case StopProcess => OnStopProcess();
        }
      }
    }
  }

  // What holds of every run.

  lemma {:induction false} AllowedPrefix(log: seq<Action>, maxTimes: int, i: nat)
    requires Allowed(log, maxTimes) && i <= |log|
    ensures Allowed(log[..i], maxTimes)
    decreases |log|
  {
    if i < |log| {
      AllowedPrefix(log[..|log| - 1], maxTimes, i);
      assert log[..|log| - 1][..i] == log[..i];
    } else {
      assert log[..i] == log;
    }
  }

  lemma {:induction false} VerifiedWitness(log: seq<Action>) returns (j: nat)
    requires VerifiedNow(log)
    ensures j < |log| && log[j] == VerifyOk && forall k :: j < k < |log| ==> log[k] != Reconnect
  {
    if log[|log| - 1] == VerifyOk {
      j := |log| - 1;
    } else {
      j := VerifiedWitness(log[..|log| - 1]);
    }
  }

  /** Whatever the handlers are called with and in whatever order: a message is parsed only after a
      successful verification with no reconnect in between. */
  lemma ParseIsVerified(maxTimes: int, checkHello: bool, events: seq<Event>, i: nat) returns (j: nat)
    requires var log := Run(Begin(maxTimes, checkHello), events).log; i < |log| && log[i] == Parsed
    ensures var log := Run(Begin(maxTimes, checkHello), events).log;
            j < i && log[j] == VerifyOk && forall k :: j < k < i ==> log[k] != Reconnect
  {
    var log := Entry(maxTimes, checkHello, events, i);
    j := VerifiedWitness(log[..i]);
  }

  /** The part of a run's log up to an entry is well formed. */
  lemma Entry(maxTimes: int, checkHello: bool, events: seq<Event>, i: nat) returns (log: seq<Action>)
    requires i < |Run(Begin(maxTimes, checkHello), events).log|
    ensures log == Run(Begin(maxTimes, checkHello), events).log
    ensures Allowed(log[..i + 1], maxTimes) && log[..i + 1][..i] == log[..i]
  {
    BeginInv(maxTimes, checkHello);
    RunKeeps(Begin(maxTimes, checkHello), events);
    log := Run(Begin(maxTimes, checkHello), events).log;
    AllowedPrefix(log, maxTimes, i + 1);
  }

  /** Once `StopProcess` has run there is no connecting and no arming of the timer any more. */
  lemma StoppedForGood(maxTimes: int, checkHello: bool, events: seq<Event>, i: nat, j: nat)
    requires var log := Run(Begin(maxTimes, checkHello), events).log; i < j < |log| && log[i] == Stopped
    ensures var log := Run(Begin(maxTimes, checkHello), events).log; log[j] != Connect && log[j] != Rearm
  {
    var log := Entry(maxTimes, checkHello, events, j);
    assert log[..j][i] == Stopped;
  }

  /** With a limit of N > 0 the timer is armed at most N - 1 times between two resets of the round, and an
      error is reported only after N failures in a row. */
  lemma ReconnectsBounded(maxTimes: int, checkHello: bool, events: seq<Event>, i: nat)
    requires maxTimes > 0 && i < |Run(Begin(maxTimes, checkHello), events).log|
    ensures var log := Run(Begin(maxTimes, checkHello), events).log;
            && Since(log[..i + 1], Rearm) <= maxTimes - 1
            && (log[i] == ConnectError ==> Since(log[..i], Failure) >= maxTimes)
  {
    var log := Entry(maxTimes, checkHello, events, i);
    RearmsBounded(log[..i + 1], maxTimes);
  }

  lemma {:induction false} RearmsBounded(log: seq<Action>, maxTimes: int)
    requires maxTimes > 0 && Allowed(log, maxTimes)
    ensures Since(log, Rearm) <= maxTimes - 1
  {
    if log == [] {
    } else {
      RearmsBounded(log[..|log| - 1], maxTimes);
    }
  }

  /** The task is added to its manager once, and at once, for each successful verification. */
  lemma AddedOncePerVerification(maxTimes: int, checkHello: bool, events: seq<Event>, i: nat)
    requires i < |Run(Begin(maxTimes, checkHello), events).log|
    ensures var log := Run(Begin(maxTimes, checkHello), events).log;
            && (log[i] == Added ==> i > 0 && log[i - 1] == VerifyOk)
            && (log[i] == VerifyOk ==> i + 1 < |log| && log[i + 1] == Added)
  {
    var log := Entry(maxTimes, checkHello, events, i);
    BeginInv(maxTimes, checkHello);
    RunKeeps(Begin(maxTimes, checkHello), events);
    if i + 1 < |log| {
      var same := Entry(maxTimes, checkHello, events, i + 1);
      assert log[..i + 1][i] == log[i];
    }
  }

  lemma {:induction false} StaysVerified(log: seq<Action>, i: nat, j: nat)
    requires i <= j <= |log| && VerifiedNow(log[..i])
    requires forall k :: i <= k < j ==> log[k] != Reconnect
    ensures VerifiedNow(log[..j])
    decreases j
  {
    if i == j {
    } else {
      StaysVerified(log, i, j - 1);
      assert log[..j][..j - 1] == log[..j - 1];
    }
  }

  /** Between two verifications there is a reconnect. */
  lemma VerifiedOncePerConnection(maxTimes: int, checkHello: bool, events: seq<Event>, i: nat, j: nat)
    requires var log := Run(Begin(maxTimes, checkHello), events).log;
             i < j < |log| && log[i] == log[j] == VerifyOk
    ensures var log := Run(Begin(maxTimes, checkHello), events).log;
            exists k :: i < k < j && log[k] == Reconnect
  {
    var log := Entry(maxTimes, checkHello, events, j);
    if forall k :: i < k < j ==> log[k] != Reconnect {
      assert log[..i + 1][i] == VerifyOk;
      StaysVerified(log, i + 1, j);
      assert false;
    }
  }

  /** Between two additions to the manager there is a reconnect. */
  lemma AddedOncePerConnection(maxTimes: int, checkHello: bool, events: seq<Event>, i: nat, j: nat)
    requires var log := Run(Begin(maxTimes, checkHello), events).log;
             i < j < |log| && log[i] == log[j] == Added
    ensures var log := Run(Begin(maxTimes, checkHello), events).log;
            exists k :: i < k < j && log[k] == Reconnect
  {
    var log := Run(Begin(maxTimes, checkHello), events).log;
    AddedOncePerVerification(maxTimes, checkHello, events, i);
    AddedOncePerVerification(maxTimes, checkHello, events, j);
    VerifiedOncePerConnection(maxTimes, checkHello, events, i - 1, j - 1);
    var k :| i - 1 < k < j - 1 && log[k] == Reconnect;
    assert i < k < j;
  }

  function Closes(k: nat): seq<Event> {
    seq(k, _ => CloseEvent)
  }

  lemma SinceSnoc(log: seq<Action>, a: Action, b: Action)
    ensures Since(log + [a], b) == if a == RoundReset then 0 else Since(log, b) + if a == b then 1 else 0
  {
    assert (log + [a])[..|log|] == log;
  }

  lemma CountsAfter(log: seq<Action>, a: Action)
    requires a != RoundReset
    ensures Since(log + [a], Failure) == Since(log, Failure) + if a == Failure then 1 else 0
    ensures Since(log + [a], ConnectError) == Since(log, ConnectError) + if a == ConnectError then 1 else 0
    ensures Since(log + [a], Rearm) == Since(log, Rearm) + if a == Rearm then 1 else 0
  {
    SinceSnoc(log, a, Failure);
    SinceSnoc(log, a, ConnectError);
    SinceSnoc(log, a, Rearm);
  }

  lemma FailureCounts(c: Client)
    requires Reached(c) && c.maxTimes > 0
    ensures var d, last := TryReconnect(c), Since(c.log, Failure) + 1 >= c.maxTimes;
            && Since(d.log, Failure) == Since(c.log, Failure) + 1
            && Since(d.log, ConnectError) == Since(c.log, ConnectError) + (if last then 1 else 0)
            && Since(d.log, Rearm) == Since(c.log, Rearm) + (if !last && c.timer then 1 else 0)
            && d.timer == (c.timer && !last)
  {
    ReachedInv(c);
    ReconnectKeeps(c);
    var log1 := c.log + [Failure];
    CountsAfter(c.log, Failure);
    if c.round + 1 >= c.maxTimes {
      CountsAfter(log1, ConnectError);
      CountsAfter(log1 + [ConnectError], Stopped);
    } else if c.timer {
      CountsAfter(log1, Rearm);
      CountsAfter(log1 + [Rearm], Reconnect);
    } else {
      assert log1 + [] == log1;
      CountsAfter(log1, Reconnect);
    }
  }

  lemma OneMoreClose(c: Client, k: nat)
    requires k > 0
    ensures Run(c, Closes(k)) == TryReconnect(Run(c, Closes(k - 1)))
    ensures TryReconnect(Run(c, Closes(k - 1))).maxTimes == Run(c, Closes(k - 1)).maxTimes
  {
    var d := Run(c, Closes(k - 1));
    assert Closes(k) == Closes(k - 1) + [CloseEvent];
    RunAppend(c, Closes(k - 1), [CloseEvent]);
    assert Run(d, [CloseEvent]) == Run(Handle(d, CloseEvent), []);
  }

  /** From a connection on, failures in a row that find a timer are reported exactly from the N-th one on,
      and until then each of them arms the timer again. */
  lemma {:induction false} RetriesExactly(c: Client, now: int, k: nat)
    requires Reached(c) && c.maxTimes > 0 && c.timer
    ensures var d := Run(Handle(c, ConnectEvent(now)), Closes(k));
            && Reached(d) && d.maxTimes == c.maxTimes && Since(d.log, Failure) == k
            && Since(d.log, ConnectError) == (if k < c.maxTimes then 0 else k - c.maxTimes + 1)
            && Since(d.log, Rearm) == (if k < c.maxTimes then k else c.maxTimes - 1)
            && d.timer == (k < c.maxTimes)
  {
    if k == 0 {
      ReachedStep(c, ConnectEvent(now));
      SinceSnoc(c.log, RoundReset, Failure);
      SinceSnoc(c.log, RoundReset, Rearm);
      SinceSnoc(c.log, RoundReset, ConnectError);
    } else {
      var c0 := Handle(c, ConnectEvent(now));
      RetriesExactly(c, now, k - 1);
      OneMoreClose(c0, k);
      ReachedStep(Run(c0, Closes(k - 1)), CloseEvent);
      FailureCounts(Run(c0, Closes(k - 1)));
    }
  }

  /** Connects not paid for by an arming of the timer. */
  function Unpaid(log: seq<Action>): int {
    (multiset(log)[Connect] as int) - multiset(log)[Rearm]
  }

  predicate Paid(c: Client) {
    Unpaid(c.log) + (if c.armed then 1 else 0) <= 1
  }

  lemma ReportUnpaid(log: seq<Action>)
    ensures Unpaid(((log + [Failure]) + [ConnectError]) + [Stopped]) == Unpaid(log)
  {}

  lemma RearmUnpaid(log: seq<Action>, timer: bool)
    ensures Unpaid((log + [Failure]) + (if timer then [Rearm] else []) + [Reconnect])
            == Unpaid(log) - if timer then 1 else 0
  {}

  lemma FailurePays(c: Client)
    requires Paid(c)
    ensures Paid(TryReconnect(c))
  {
    ReportUnpaid(c.log);
    RearmUnpaid(c.log, c.timer);
  }

  lemma PacketPays(c: Client, accept: bool)
    requires Paid(c)
    ensures Paid(Handle(c, Packet(accept)))
  {}

  lemma CheckPays(c: Client, now: int, helloSent: bool)
    requires Paid(c)
    ensures Paid(Handle(c, ScheduleEvent(now, helloSent)))
  {
    FailurePays(c.(pace := SayHello(c.pace, now, helloSent)));
  }

  lemma OthersPay(c: Client, e: Event)
    requires Paid(c) && (e.TimerFired? || e.ConnectEvent? || e.HelloMsg? || e.StopProcess?)
    ensures Paid(Handle(c, e))
  {}

  lemma HandlePays(c: Client, e: Event)
    requires Paid(c)
    ensures Paid(Handle(c, e))
  {
    match e
    case CloseEvent => FailurePays(c);
    case ScheduleEvent(now, helloSent) => CheckPays(c, now, helloSent);
    case Packet(accept) => PacketPays(c, accept);
    case TimerFired | ConnectEvent(_) | HelloMsg(_) | StopProcess => OthersPay(c, e);
  }

  lemma {:induction false} RunPays(c: Client, events: seq<Event>)
    requires Paid(c)
    ensures Paid(Run(c, events))
    decreases |events|
  {
    if events == [] {
    } else {
      HandlePays(c, events[0]);
      RunPays(Handle(c, events[0]), events[1..]);
    }
  }

  /** Over every run there is at most one connect for each arming of the timer, and the first one. */
  lemma ConnectsBounded(maxTimes: int, checkHello: bool, events: seq<Event>)
    ensures var log := Run(Begin(maxTimes, checkHello), events).log;
            multiset(log)[Connect] <= 1 + multiset(log)[Rearm]
  {
    RunPays(Begin(maxTimes, checkHello), events);
  }

  /** Only the periodic check and messages of the server, at positive times. */
  predicate OnlyHellos(events: seq<Event>) {
    forall e :: e in events ==> e.ScheduleEvent? || (e.HelloMsg? && e.now > 0)
  }

  /** Each periodic check finds the last hello, at first the one at `hello`, at most 30 s old. */
  predicate Timely(hello: int, events: seq<Event>)
    decreases |events|
  {
    if events == [] then true
    else if events[0].HelloMsg? then Timely(events[0].now, events[1..])
    else if events[0].ScheduleEvent? then events[0].now - hello <= 30000 && Timely(hello, events[1..])
    else false
  }

  lemma HandleGrows(c: Client, e: Event)
    ensures c.log <= Handle(c, e).log
  {
    if e.CloseEvent? { FailureLogged(c); }
    if e.ScheduleEvent? { FailureLogged(c.(pace := SayHello(c.pace, e.now, e.helloSent))); }
  }

  lemma {:induction false} LogGrows(c: Client, events: seq<Event>)
    ensures c.log <= Run(c, events).log
    decreases |events|
  {
    if events == [] {
    } else {
      HandleGrows(c, events[0]);
      LogGrows(Handle(c, events[0]), events[1..]);
    }
  }

  /** A connection that hears hellos is kept, and one that does not is given up, exactly by the 30 s rule;
      sending hellos of its own makes no difference. */
  lemma {:induction false} HelloKeepsAlive(c: Client, events: seq<Event>)
    requires c.checkHello && c.lastHello > 0 && OnlyHellos(events)
    ensures Run(c, events).log == c.log <==> Timely(c.lastHello, events)
    decreases |events|
  {
    if events == [] {
    } else {
      var e, d := events[0], Handle(c, events[0]);
      assert e in events;
      if e.ScheduleEvent? && e.now - c.lastHello > 30000 {
        FailureLogged(c.(pace := SayHello(c.pace, e.now, e.helloSent)));
        LogGrows(d, events[1..]);
      } else {
        HelloKeepsAlive(d, events[1..]);
      }
    }
  }

  /** So a new connection is kept or given up by the same rule, from the time it was made. */
  lemma ConnectionKeptAlive(c: Client, now: int, events: seq<Event>)
    requires c.checkHello && now > 0 && OnlyHellos(events)
    ensures var d := Handle(c, ConnectEvent(now));
            Run(d, events).log == d.log <==> Timely(now, events)
  {
    HelloKeepsAlive(Handle(c, ConnectEvent(now)), events);
  }

  predicate OnlyChecks(events: seq<Event>) {
    forall e :: e in events ==> e.ScheduleEvent?
  }

  lemma {:induction false} ChecksFindNothing(c: Client, events: seq<Event>)
    requires c.lastHello == 0 && OnlyChecks(events)
    ensures Run(c, events).log == c.log
    decreases |events|
  {
    if events == [] {
    } else {
      assert events[0] in events;
      ChecksFindNothing(Handle(c, events[0]), events[1..]);
    }
  }

  /** Between a failure that does not stop the task and the next connection, and before the first one, the
      30 s rule is off: a failure is not counted twice, however long connecting takes. */
  lemma NoTimeoutWhileConnecting(c: Client, events: seq<Event>)
    requires Reached(c) && OnlyChecks(events)
    ensures Run(Begin(c.maxTimes, c.checkHello), events).log == [Connect]
    ensures var d := Handle(c, CloseEvent);
            !(0 < c.maxTimes <= Since(c.log, Failure) + 1) ==> Run(d, events).log == d.log
  {
    ChecksFindNothing(Begin(c.maxTimes, c.checkHello), events);
    ReachedInv(c);
    if !(0 < c.maxTimes <= Since(c.log, Failure) + 1) { ChecksFindNothing(Handle(c, CloseEvent), events); }
  }

  /** A failure that does not stop the task is followed by a connect when the timer fires. */
  lemma FailureReconnects(c: Client)
    requires Reached(c) && Stopped !in c.log && !(0 < c.maxTimes <= Since(c.log, Failure) + 1)
    ensures var d := Run(c, [CloseEvent, TimerFired]);
            && d.log == ((((c.log + [Failure]) + [Rearm]) + [Reconnect]) + [Connect])
            && d.socket && !d.verified && !d.armed
  {
    ReachedInv(c);
    ReconnectKeeps(c);
    var d := Handle(c, CloseEvent);
    assert [CloseEvent, TimerFired][1..] == [TimerFired] && [TimerFired][1..] == [];
    assert Run(c, [CloseEvent, TimerFired]) == Run(d, [TimerFired]) == Run(Handle(d, TimerFired), []);
  }

  predicate WillRetry(c: Client) {
    c.log != [] && c.log[|c.log| - 1] == Reconnect && c.timer ==> c.armed
  }

  lemma HandleRetries(c: Client, e: Event)
    requires WillRetry(c)
    ensures WillRetry(Handle(c, e))
  {}

  lemma {:induction false} RunRetries(c: Client, events: seq<Event>)
    requires WillRetry(c)
    ensures WillRetry(Run(c, events))
    decreases |events|
  {
    if events == [] {
    } else {
      HandleRetries(c, events[0]);
      RunRetries(Handle(c, events[0]), events[1..]);
    }
  }

  /** Over every run: a task that has not been stopped and whose last act is a reconnect has its timer armed,
      so it is never left without a connection and without a way to one. */
  lemma NeverStranded(c: Client)
    requires Reached(c) && Stopped !in c.log && c.log != [] && c.log[|c.log| - 1] == Reconnect
    ensures c.armed
  {
    ReachedInv(c);
    var events :| c == Run(Begin(c.maxTimes, c.checkHello), events);
    RunRetries(Begin(c.maxTimes, c.checkHello), events);
  }

  /** Over every run: each hello but the first was sent when none had been yet, or at least 10 s after the one
      before it; and each periodic check that finds a hello due sends it. */
  lemma HellosPaced(maxTimes: int, checkHello: bool, events: seq<Event>, now: int, helloSent: bool)
    ensures var c := Run(Begin(maxTimes, checkHello), events);
            && Paced(c.pace.hellos)
            && Handle(c, ScheduleEvent(now, helloSent)).pace.hellos
               == c.pace.hellos + if HelloDue(c.pace.hellos, now) then [Hello(now, helloSent)] else []
  {
    var c := Run(Begin(maxTimes, checkHello), events);
    RunPaces(Begin(maxTimes, checkHello), events);
    SayHelloPaces(c.pace, now, helloSent);
    HandlePace(c, ScheduleEvent(now, helloSent));
  }
}
