/** The event loop under interleaving: any thread may queue a functor between any two steps of the loop
    thread.  Functors are numbered in the order they are queued.  `StopInLoop` runs inside a functor and
    re-enters the drain, so the loop thread has a stack of activities. */
module EventLoopProtocol {
  import opened Sequences

  datatype Frame =
    | SwapDue                                // in DoPendingFunctors, before its critical section
    | Batch(rest: seq<nat>, calling: bool)   // in its loop, `rest` not yet called
    | Stopping(pass: nat, checkDue: bool)    // in StopInLoop: in the first or the second drain loop
    | Exiting                                // in StopInLoop, before event_base_loopexit

  datatype Stack = Empty | On(top: Frame, below: Stack)

  datatype Loop = Loop(
    pending: seq<nat>,
    notified: bool,
    pendingCount: int,
    queued: nat,          // functors queued so far
    watcher: bool,        // the pipe watcher exists
    pipe: nat,            // wakeup bytes in the pipe
    pipeCapacity: nat,
    stack: Stack,
    started: seq<nat>,    // functors called so far, in order
    stops: nat,           // calls of StopInLoop
    exits: nat)           // calls of event_base_loopexit

  datatype Step =
    | Queue | DropWatcher
    | Receive(n: nat) | Swap | Call | Finish | EndBatch | EnterStop | Drain | Check | Exit

  ghost predicate Init(s: Loop) {
    && s.pending == [] && !s.notified && s.pendingCount == 0 && s.queued == 0 && s.watcher
    && s.pipe == 0 && s.pipeCapacity > 0 && s.stack == Empty && s.started == [] && s.stops == s.exits == 0
  }

  ghost predicate Next(s: Loop, t: Loop, step: Step) {
    match step
    case Queue =>
      var wake := !s.notified && s.watcher && s.pipe < s.pipeCapacity;
      t == s.(pending := s.pending + [s.queued], queued := s.queued + 1, pendingCount := s.pendingCount + 1,
              notified := true, pipe := if wake then s.pipe + 1 else s.pipe)
    case DropWatcher =>
      t == s.(watcher := false)
    case Receive(n) =>
      // The handler also runs when `recv` fails, because its result is kept in a `size_t`.
      s.stack.Empty? && s.watcher && n <= s.pipe && n <= 128 && t == s.(pipe := s.pipe - n, stack := On(SwapDue, Empty))
    case Swap =>
      && s.stack.On? && s.stack.top.SwapDue?
      && t == s.(notified := false, pending := [], stack := On(Batch(s.pending, false), s.stack.below))
    case Call =>
      && s.stack.On? && s.stack.top.Batch? && !s.stack.top.calling && s.stack.top.rest != []
      && t == s.(started := s.started + [s.stack.top.rest[0]],
                 stack := On(Batch(s.stack.top.rest[1..], true), s.stack.below))
    case Finish =>
      && s.stack.On? && s.stack.top.Batch? && s.stack.top.calling
      && t == s.(pendingCount := s.pendingCount - 1, stack := On(Batch(s.stack.top.rest, false), s.stack.below))
    case EndBatch =>
      s.stack.On? && s.stack.top == Batch([], false) && t == s.(stack := s.stack.below)
    case EnterStop =>
      && s.stack.On? && s.stack.top.Batch? && s.stack.top.calling
      && t == s.(stack := On(Stopping(1, false), s.stack), stops := s.stops + 1)
    case Drain =>
      && s.stack.On? && s.stack.top.Stopping? && !s.stack.top.checkDue
      && t == s.(stack := On(SwapDue, On(Stopping(s.stack.top.pass, true), s.stack.below)))
    case Check =>
      && s.stack.On? && s.stack.top.Stopping? && s.stack.top.checkDue
      && t == s.(stack := if s.pending != [] then On(Stopping(s.stack.top.pass, false), s.stack.below)
                          else if s.stack.top.pass == 1 then On(Exiting, s.stack.below)
                          else s.stack.below)
    case Exit =>
      && s.stack.On? && s.stack.top.Exiting?
      && t == s.(exits := s.exits + 1, stack := On(Stopping(2, false), s.stack.below))
  }

  /** Functors taken over and not yet called, those of the innermost batch first. */
  function Unstarted(stack: Stack): seq<nat> {
    match stack
    case Empty => []
    case On(top, below) => if top.Batch? then top.rest + Unstarted(below) else Unstarted(below)
  }

  /** Functors taken over and not yet finished. */
  function Unfinished(stack: Stack): nat {
    match stack
    case Empty => 0
    case On(top, below) =>
      (if top.Batch? then |top.rest| + (if top.calling then 1 else 0) else 0) + Unfinished(below)
  }

  /** Stops that have not yet called the loop exit. */
  function Unexited(stack: Stack): nat {
    match stack
    case Empty => 0
    case On(top, below) => (if top.Exiting? || (top.Stopping? && top.pass == 1) then 1 else 0) + Unexited(below)
  }

  /** Every functor ever queued, in the order of calls made and still to be made. */
  function Schedule(s: Loop): seq<nat> {
    (s.started + Unstarted(s.stack)) + s.pending
  }

  function Numbers(n: nat): (r: seq<nat>)
    ensures |r| == n && forall i :: 0 <= i < n ==> r[i] == i
  {
    seq(n, i => i)
  }

  ghost predicate Inv(s: Loop) {
    && s.pipeCapacity > 0
    && (s.notified <==> s.pending != [])
    && (s.watcher && s.notified ==> s.pipe > 0 || (s.stack.On? && s.stack.top.SwapDue?))
    && s.pendingCount == |s.pending| + Unfinished(s.stack)
    && multiset(Schedule(s)) == multiset(Numbers(s.queued))
    && s.stops == s.exits + Unexited(s.stack)
  }

  predicate InOrder(s: Loop) {
    Schedule(s) == Numbers(s.queued)
  }

  lemma QueueKeeps(s: Loop, t: Loop)
    requires Inv(s) && Next(s, t, Queue)
    ensures Inv(t) && (InOrder(s) <==> InOrder(t))
  {
    var front := s.started + Unstarted(s.stack);
    Assoc(front, s.pending, [s.queued]);
    assert Numbers(t.queued) == Numbers(s.queued) + [s.queued];
    assert Schedule(t) == Schedule(s) + [s.queued];
    if InOrder(t) { assert Schedule(s) == Schedule(t)[..|Schedule(s)|]; }
  }

  lemma CallKeeps(s: Loop, t: Loop)
    requires Inv(s) && Next(s, t, Call)
    ensures Inv(t) && Schedule(t) == Schedule(s)
  {
    CallSchedule(s, t);
  }

  lemma CallSchedule(s: Loop, t: Loop)
    requires Next(s, t, Call)
    ensures Schedule(t) == Schedule(s)
  {
    var rest, u := s.stack.top.rest, Unstarted(s.stack.below);
    assert rest == [rest[0]] + rest[1..];
    Assoc([rest[0]], rest[1..], u);
    Assoc(s.started, [rest[0]], rest[1..] + u);
    assert Unstarted(t.stack) == rest[1..] + u && Unstarted(s.stack) == [rest[0]] + (rest[1..] + u);
  }

  /** Taking over the queue puts its functors before those still waiting in enclosing batches. */
  lemma SwapSchedule(s: Loop, t: Loop)
    requires Next(s, t, Swap)
    ensures Schedule(s) == s.started + (Unstarted(s.stack.below) + s.pending)
    ensures Schedule(t) == s.started + (s.pending + Unstarted(s.stack.below))
  {
    var u := Unstarted(s.stack.below);
    Assoc(s.started, u, s.pending);
    assert Schedule(t) == (s.started + (s.pending + u)) + [];
  }

  lemma SwapKeeps(s: Loop, t: Loop)
    requires Inv(s) && Next(s, t, Swap)
    ensures Inv(t)
  {
    SwapSchedule(s, t);
    Exchanged(s.started, Unstarted(s.stack.below), s.pending);
    assert Unexited(t.stack) == Unexited(s.stack);
  }

  lemma Exchanged(a: seq<nat>, b: seq<nat>, c: seq<nat>)
    ensures multiset(a + (b + c)) == multiset(a + (c + b))
  {}

  lemma OtherLeaves(s: Loop, t: Loop, step: Step)
    requires Next(s, t, step) && !step.Queue? && !step.Call? && !step.Swap?
    ensures Unstarted(t.stack) == Unstarted(s.stack) && t.started == s.started && t.pending == s.pending
    ensures t.pendingCount - Unfinished(t.stack) == s.pendingCount - Unfinished(s.stack)
    ensures t.notified == s.notified && t.queued == s.queued && t.pipeCapacity == s.pipeCapacity
    ensures t.stops - t.exits - Unexited(t.stack) == s.stops - s.exits - Unexited(s.stack)
  {
    if step.Drain? {
      var mid := On(Stopping(s.stack.top.pass, true), s.stack.below);
      assert Unstarted(mid) == Unstarted(s.stack) && Unfinished(mid) == Unfinished(s.stack);
      assert Unexited(t.stack) == Unexited(mid) == Unexited(s.stack);
    }
  }

  lemma OtherKeeps(s: Loop, t: Loop, step: Step)
    requires Inv(s) && Next(s, t, step) && !step.Queue? && !step.Call? && !step.Swap?
    ensures Inv(t) && Schedule(t) == Schedule(s)
  {
    OtherLeaves(s, t, step);
  }

  /** No lost wakeup, every functor in one place, and an exact count: kept by every step of every thread. */
  lemma StepKeeps(s: Loop, t: Loop, step: Step)
    requires Inv(s) && Next(s, t, step)
    ensures Inv(t)
  {
    match step
    case Queue => QueueKeeps(s, t);
    case Call => CallKeeps(s, t);
    case Swap => SwapKeeps(s, t);
    case _ => OtherKeeps(s, t, step);
  }

  /** Queue order can be lost at one place only, and there exactly when a nested drain takes over
      functors while an enclosing batch still has some to call. */
  lemma OrderKeptIff(s: Loop, t: Loop, step: Step)
    requires Inv(s) && Next(s, t, step) && InOrder(s)
    ensures InOrder(t) <==> !(step.Swap? && s.pending != [] && Unstarted(s.stack.below) != [])
  {
    match step
    case Queue => QueueKeeps(s, t);
    case Call => CallKeeps(s, t);
    case Swap =>
      SwapSchedule(s, t);
      var u, n := Unstarted(s.stack.below), |s.started|;
      if s.pending != [] && u != [] {
        assert Schedule(s)[n + |u|] == s.pending[0] == Schedule(t)[n];
      } else {
        assert u + s.pending == s.pending + u;
      }
    case _ => OtherKeeps(s, t, step);
  }

  ghost predicate Linked(s: Loop, t: Loop, withStop: bool) {
    exists step :: Next(s, t, step) && (step.EnterStop? ==> withStop)
  }

  ghost predicate IsRun(run: seq<Loop>, withStop: bool) {
    && |run| > 0 && Init(run[0])
    && forall i :: 0 <= i < |run| - 1 ==> Linked(run[i], run[i + 1], withStop)
  }

  /** Until `StopInLoop` has run, batches do not nest. */
  predicate Flat(s: Loop) {
    s.stack.On? ==> s.stack.below.Empty? && !s.stack.top.Stopping? && !s.stack.top.Exiting?
  }

  lemma InitKeeps(s: Loop)
    requires Init(s)
    ensures Inv(s) && Flat(s) && InOrder(s) && s.started <= Numbers(s.queued)
  {
    assert Schedule(s) == [];
  }

  /** The invariants hold in every state of every run, and functors are called in queue order in every
      run in which `StopInLoop` has not re-entered the drain. */
  lemma {:induction false} RunsKeep(run: seq<Loop>, withStop: bool, i: nat)
    requires IsRun(run, withStop) && i < |run|
    ensures Good(run[i], withStop)
  {
    if i == 0 {
      InitKeeps(run[0]);
    } else {
      RunsKeep(run, withStop, i - 1);
      assert Linked(run[i - 1], run[i - 1 + 1], withStop);
      LinkKeeps(run[i - 1], run[i], withStop);
    }
  }

  ghost predicate Good(s: Loop, withStop: bool) {
    Inv(s) && (!withStop ==> Flat(s) && InOrder(s) && s.started <= Numbers(s.queued))
  }

  lemma LinkKeeps(s: Loop, t: Loop, withStop: bool)
    requires Good(s, withStop) && Linked(s, t, withStop)
    ensures Good(t, withStop)
  {
    var step :| Next(s, t, step) && (step.EnterStop? ==> withStop);
    StepKeeps(s, t, step);
    if !withStop { FlatStep(s, t, step); }
  }

  lemma FlatStep(s: Loop, t: Loop, step: Step)
    requires Inv(s) && Flat(s) && InOrder(s) && Next(s, t, step) && !step.EnterStop?
    ensures Flat(t) && InOrder(t) && t.started <= Numbers(t.queued)
  {
    OrderKeptIff(s, t, step);
    Assoc(t.started, Unstarted(t.stack), t.pending);
  }

  /** A functor is called at most once, and is lost nowhere: until it is called it is pending or in the
      batch that will call it. */
  lemma ExactlyOnce(s: Loop, id: nat)
    requires Inv(s)
    ensures multiset(s.started)[id] + multiset(Unstarted(s.stack))[id] + multiset(s.pending)[id]
            == if id < s.queued then 1 else 0
  {
    assert multiset(Schedule(s))[id] == multiset(Numbers(s.queued))[id];
    OccursOnce(s.queued, id);
  }

  lemma {:induction false} OccursOnce(n: nat, id: nat)
    ensures multiset(Numbers(n))[id] == if id < n then 1 else 0
  {
    if n == 0 {
    } else {
      OccursOnce(n - 1, id);
      assert Numbers(n) == Numbers(n - 1) + [n - 1];
    }
  }

  /** When `StopInLoop` returns, the loop exit has been called for it, and every functor queued before its last
      look at the queue, which came after that call, has been called or waits in an enclosing batch. */
  lemma StopHasDrained(s: Loop, t: Loop, step: Step, id: nat)
    requires Inv(s) && Next(s, t, step) && s.stack.On? && s.stack.top.Stopping? && t.stack == s.stack.below
    requires id < s.queued
    ensures s.stack.top.pass != 1 && s.pending == [] && (id in t.started || id in Unstarted(t.stack))
  {
    StepKeeps(s, t, step);
    ExactlyOnce(t, id);
  }

  /** Once no stop is under way, the loop exit has been called exactly once for each. */
  lemma StopsExit(s: Loop)
    requires Inv(s) && (s.stack.Empty? || (s.stack.top.Batch? && s.stack.below.Empty?))
    ensures s.exits == s.stops
  {
    if s.stack.On? { assert Unexited(s.stack) == Unexited(s.stack.below) == 0; }
  }

  predicate Draining(step: Step) {
    step.Swap? || step.Call? || step.Finish? || step.EndBatch? || step.Drain? || step.Check? || step.Exit?
  }

  predicate LoopThreadStep(step: Step) {
    step.Receive? || Draining(step)
  }

  /** While functors are pending and the watcher exists, the loop thread can take a step, and if it is
      waiting for events there is a byte in the pipe to wake it. */
  lemma NeverStuck(s: Loop) returns (step: Step, t: Loop)
    requires Inv(s) && s.watcher && s.pending != []
    ensures LoopThreadStep(step) && Next(s, t, step)
    ensures s.stack.Empty? ==> s.pipe > 0 && step == Receive(1)
  {
    match s.stack
    case Empty =>
      step, t := Receive(1), s.(pipe := s.pipe - 1, stack := On(SwapDue, Empty));
    case On(SwapDue, below) =>
      step, t := Swap, s.(notified := false, pending := [], stack := On(Batch(s.pending, false), below));
    case On(Batch(rest, calling), below) =>
      if calling {
        step, t := Finish, s.(pendingCount := s.pendingCount - 1, stack := On(Batch(rest, false), below));
      } else if rest == [] {
        step, t := EndBatch, s.(stack := below);
      } else {
        step, t := Call, s.(started := s.started + [rest[0]], stack := On(Batch(rest[1..], true), below));
      }
    case On(Stopping(pass, checkDue), below) =>
      if checkDue {
        step, t := Check, s.(stack := On(Stopping(pass, false), below));
      } else {
        step, t := Drain, s.(stack := On(SwapDue, On(Stopping(pass, true), below)));
      }
    case On(Exiting, below) =>
      step, t := Exit, s.(exits := s.exits + 1, stack := On(Stopping(2, false), below));
  }

  // A run in which queue order is lost.

  ghost predicate Reached(s: Loop) {
    exists run :: IsRun(run, true) && run[|run| - 1] == s
  }

  lemma ReachedStep(s: Loop, t: Loop, step: Step)
    requires Reached(s) && Next(s, t, step)
    ensures Reached(t)
  {
    var run :| IsRun(run, true) && run[|run| - 1] == s;
    assert Linked(s, t, true);
    assert IsRun(run + [t], true);
  }

  /** Two functors taken over by a wakeup, and the first of them called. */
  lemma FirstCalled(s: Loop) returns (t: Loop)
    requires Init(s)
    ensures Reached(t)
    ensures t == s.(notified := false, queued := 2, pendingCount := 2,
                    stack := On(Batch([1], true), Empty), started := [0])
  {
    var s1 := s.(pending := [0], queued := 1, pendingCount := 1, notified := true, pipe := 1);
    var s2 := s1.(pending := [0, 1], queued := 2, pendingCount := 2);
    var s3 := s2.(pipe := 0, stack := On(SwapDue, Empty));
    var s4 := s3.(notified := false, pending := [], stack := On(Batch([0, 1], false), Empty));
    t := s4.(started := [0], stack := On(Batch([1], true), Empty));
    assert IsRun([s], true);
    ReachedStep(s, s1, Queue);
    ReachedStep(s1, s2, Queue);
    ReachedStep(s2, s3, Receive(1));
    ReachedStep(s3, s4, Swap);
    ReachedStep(s4, t, Call);
  }

  /** A functor that stops the loop while another thread queues: the newest functor overtakes an older one. */
  lemma OrderCanBeLost(s: Loop) returns (t: Loop)
    requires Init(s)
    ensures Reached(t) && t.queued == 3 && t.started == [0, 2] && Unstarted(t.stack) == [1] && !InOrder(t)
  {
    var r := FirstCalled(s);
    var wake := if r.watcher && r.pipe < r.pipeCapacity then r.pipe + 1 else r.pipe;
    var s1 := r.(pending := [2], queued := 3, pendingCount := 3, notified := true, pipe := wake);
    var s2 := s1.(stack := On(Stopping(1, false), r.stack), stops := 1);
    var s3 := s2.(stack := On(SwapDue, On(Stopping(1, true), r.stack)));
    var s4 := s3.(notified := false, pending := [], stack := On(Batch([2], false), On(Stopping(1, true), r.stack)));
    t := s4.(started := [0, 2], stack := On(Batch([], true), On(Stopping(1, true), r.stack)));
    ReachedStep(r, s1, Queue);
    ReachedStep(s1, s2, EnterStop);
    ReachedStep(s2, s3, Drain);
    ReachedStep(s3, s4, Swap);
    assert s4.stack.top.rest[1..] == [] && [0] + [2] == [0, 2];
    ReachedStep(s4, t, Call);
    Overtaken(t);
  }

  lemma Overtaken(t: Loop)
    requires t.started == [0, 2]
    ensures !InOrder(t)
  {
    assert Schedule(t)[1] == 2;
  }

  // Termination of the drain loops.

  /** Steps an activity can still take by itself; a check that will find functors pending costs a round. */
  function Cost(f: Frame, busy: bool): nat {
    match f
    case SwapDue => 2
    case Batch(rest, calling) => 1 + 2 * |rest| + if calling then 1 else 0
    case Stopping(pass, checkDue) =>
      var round := if pass == 1 then 10 else 5;
      if !checkDue then round else if busy then round + 1 else round - 3
    case Exiting => 6
  }

  function TotalCost(stack: Stack, busy: bool): nat {
    match stack
    case Empty => 0
    case On(top, below) => Cost(top, busy) + TotalCost(below, busy)
  }

  function Measure(s: Loop): (nat, nat) {
    var busy := s.pending != [];
    var swapDue := s.stack.On? && s.stack.top.SwapDue?;
    (if busy then 1 else 0, if busy && swapDue then 0 else 1 + TotalCost(s.stack, busy))
  }

  predicate Less(a: (nat, nat), b: (nat, nat)) {
    a.0 < b.0 || (a.0 == b.0 && a.1 < b.1)
  }

  /** Every step of the loop thread inside its activities lowers the measure, so between two queueings
      the drain loops of `StopInLoop` come to an end: they end whenever only finitely many more functors
      are queued. */
  lemma DrainTerminates(s: Loop, t: Loop, step: Step)
    requires Inv(s) && Next(s, t, step)
    requires Draining(step)
    ensures Less(Measure(t), Measure(s))
  {
    if step.Drain? {
      var mid := On(Stopping(s.stack.top.pass, true), s.stack.below);
      assert TotalCost(t.stack, false) == 2 + TotalCost(mid, false);
    }
  }

  // The same over runs, with a single number that also pays for what restarts the loops.

  /** Draining steps an activity has paid for. */
  function Weight(f: Frame): nat {
    match f
    case SwapDue => 2
    case Batch(rest, calling) => 1 + 2 * |rest| + if calling then 1 else 0
    case Stopping(pass, checkDue) => (if pass == 1 then 10 else 5) - if checkDue then 3 else 0
    case Exiting => 6
  }

  function TotalWeight(stack: Stack): nat {
    match stack
    case Empty => 0
    case On(top, below) => Weight(top) + TotalWeight(below)
  }

  /** The next step is bound to look at the queue again. */
  predicate Rechecking(stack: Stack) {
    stack.On? && (stack.top.SwapDue? || (stack.top.Stopping? && !stack.top.checkDue))
  }

  function Potential(s: Loop): nat {
    2 * |s.pending| + TotalWeight(s.stack) + if s.pending != [] && !Rechecking(s.stack) then 4 else 0
  }

  /** What a step that is not part of draining adds. */
  function Credit(step: Step): nat {
    if step.Queue? then 6 else if step.EnterStop? then 10 else if step.Receive? then 2 else 0
  }

  lemma StepPays(s: Loop, t: Loop, step: Step)
    requires Next(s, t, step)
    ensures Potential(t) + (if Draining(step) then 1 else 0) <= Potential(s) + Credit(step)
  {
    if step.Drain? {
      var mid := On(Stopping(s.stack.top.pass, true), s.stack.below);
      assert TotalWeight(t.stack) == 2 + TotalWeight(mid);
    }
  }

  ghost predicate IsTrace(run: seq<Loop>, steps: seq<Step>) {
    |run| == |steps| + 1 && forall i :: 0 <= i < |steps| ==> Next(run[i], run[i + 1], steps[i])
  }

  function DrainingSteps(steps: seq<Step>): nat {
    if steps == [] then 0
    else DrainingSteps(steps[..|steps| - 1]) + if Draining(steps[|steps| - 1]) then 1 else 0
  }

  function TotalCredit(steps: seq<Step>): nat {
    if steps == [] then 0 else TotalCredit(steps[..|steps| - 1]) + Credit(steps[|steps| - 1])
  }

  /** Over any part of any run the draining steps are bounded by where it starts and by how often functors
      were queued, stops entered and wakeups received. */
  lemma {:induction false} DrainingBounded(run: seq<Loop>, steps: seq<Step>)
    requires IsTrace(run, steps)
    ensures DrainingSteps(steps) + Potential(run[|steps|]) <= Potential(run[0]) + TotalCredit(steps)
    decreases |steps|
  {
    if steps == [] {
    } else {
      var n := |steps| - 1;
      DrainingBounded(run[..n + 1], steps[..n]);
      StepPays(run[n], run[n + 1], steps[n]);
    }
  }

  lemma {:induction false} AllDraining(steps: seq<Step>)
    requires forall i :: 0 <= i < |steps| ==> Draining(steps[i])
    ensures DrainingSteps(steps) == |steps| && TotalCredit(steps) == 0
  {
    if steps == [] {
    } else {
      AllDraining(steps[..|steps| - 1]);
    }
  }

  /** If nothing is queued and no stop entered the drain loops come to an end, after so many steps at most. */
  lemma DrainingEnds(run: seq<Loop>, steps: seq<Step>)
    requires IsTrace(run, steps) && forall i :: 0 <= i < |steps| ==> Draining(steps[i])
    ensures |steps| <= Potential(run[0])
  {
    DrainingBounded(run, steps);
    AllDraining(steps);
  }

  /** From the start: every draining step of a run is paid for by a queueing, a stop or a wakeup in it. */
  lemma DrainingPaidFor(run: seq<Loop>, steps: seq<Step>)
    requires IsTrace(run, steps) && Init(run[0])
    ensures DrainingSteps(steps) <= TotalCredit(steps)
  {
    DrainingBounded(run, steps);
  }
}
