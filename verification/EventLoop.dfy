/** The event loop's functor queue and wakeup byte, as run by the loop thread.  `EventLoopProtocol`
    interleaves it with other threads. */
module EventLoops {
  import opened Sequences

  /** A queued functor: one that queues further functors when it runs, or the bound `StopInLoop`, with what
      other threads queue while it calls event_base_loopexit. */
  datatype Functor = Work(id: nat, spawns: seq<Functor>) | StopLoop(id: nat, late: seq<Functor>)

  /** What is queued while `f` runs. */
  function Queued(f: Functor): seq<Functor> {
    match f
    case Work(_, spawns) => spawns
    case StopLoop(_, late) => late
  }

  /** Functors that `f` stands for: itself and all that it ever leads to. */
  function Size(f: Functor): (n: nat)
    ensures n >= 1
  {
    1 + SizeAll(Queued(f))
  }

  function SizeAll(fs: seq<Functor>): nat {
    if fs == [] then 0 else Size(fs[0]) + SizeAll(fs[1..])
  }

  function Ids(f: Functor): multiset<nat> {
    multiset{f.id} + IdsAll(Queued(f))
  }

  function IdsAll(fs: seq<Functor>): multiset<nat> {
    if fs == [] then multiset{} else Ids(fs[0]) + IdsAll(fs[1..])
  }

  /** Stops among the functors that `f` stands for. */
  function Stops(f: Functor): nat {
    (if f.StopLoop? then 1 else 0) + StopsAll(Queued(f))
  }

  function StopsAll(fs: seq<Functor>): nat {
    if fs == [] then 0 else Stops(fs[0]) + StopsAll(fs[1..])
  }

  lemma {:induction false} AllAppend(fs: seq<Functor>, gs: seq<Functor>)
    ensures SizeAll(fs + gs) == SizeAll(fs) + SizeAll(gs)
    ensures IdsAll(fs + gs) == IdsAll(fs) + IdsAll(gs)
    ensures StopsAll(fs + gs) == StopsAll(fs) + StopsAll(gs)
  {
    if fs == [] {
      assert fs + gs == gs;
    } else {
      assert (fs + gs)[0] == fs[0] && (fs + gs)[1..] == fs[1..] + gs;
      AllAppend(fs[1..], gs);
    }
  }

  lemma AllSnoc(fs: seq<Functor>, f: Functor)
    ensures SizeAll(fs + [f]) == SizeAll(fs) + Size(f) && IdsAll(fs + [f]) == IdsAll(fs) + Ids(f)
    ensures StopsAll(fs + [f]) == StopsAll(fs) + Stops(f)
  {
    AllAppend(fs, [f]);
    assert [f][1..] == [];
  }

  /** The ids of a batch in queue order, and what a batch without `StopLoop` queues, in order. */
  function TopIds(fs: seq<Functor>): seq<nat> {
    if fs == [] then [] else [fs[0].id] + TopIds(fs[1..])
  }

  function Spawned(fs: seq<Functor>): seq<Functor> {
    if fs == [] then [] else SpawnsOf(fs[0]) + Spawned(fs[1..])
  }

  function SpawnsOf(f: Functor): seq<Functor> {
    if f.Work? then f.spawns else []
  }

  predicate NoStop(fs: seq<Functor>) {
    fs != [] ==> fs[0].Work? && NoStop(fs[1..])
  }

  lemma {:induction false} BatchSnoc(fs: seq<Functor>, f: Functor)
    ensures TopIds(fs + [f]) == TopIds(fs) + [f.id]
    ensures Spawned(fs + [f]) == Spawned(fs) + SpawnsOf(f)
    ensures NoStop(fs + [f]) <==> NoStop(fs) && f.Work?
  {
    if fs == [] {
      assert fs + [f] == [f] && [f][1..] == [];
    } else {
      assert (fs + [f])[0] == fs[0] && (fs + [f])[1..] == fs[1..] + [f];
      BatchSnoc(fs[1..], f);
      Assoc([fs[0].id], TopIds(fs[1..]), [f.id]);
      Assoc(SpawnsOf(fs[0]), Spawned(fs[1..]), SpawnsOf(f));
    }
  }

  /** Taking the `i`-th functor off what is left of a batch. */
  lemma Suffix(fs: seq<Functor>, i: nat)
    requires i < |fs|
    ensures SizeAll(fs[i..]) == Size(fs[i]) + SizeAll(fs[i + 1..])
    ensures IdsAll(fs[i..]) == Ids(fs[i]) + IdsAll(fs[i + 1..])
    ensures StopsAll(fs[i..]) == Stops(fs[i]) + StopsAll(fs[i + 1..])
  {
    assert fs[i..][0] == fs[i] && fs[i..][1..] == fs[i + 1..];
  }

  /** Until a stop among them, the first `i` functors of a batch have run in order and left what they queued,
      in order, and the loop exit has not been called; after a stop it has. */
  predicate InOrder(fs: seq<Functor>, i: nat, executed0: seq<nat>, executed: seq<nat>, pending: seq<Functor>,
                    exited: bool)
    requires i <= |fs|
  {
    if NoStop(fs[..i]) then !exited && executed == executed0 + TopIds(fs[..i]) && pending == Spawned(fs[..i])
    else exited
  }

  lemma InOrderStep(fs: seq<Functor>, i: nat, executed0: seq<nat>, executed: seq<nat>, pending: seq<Functor>,
                    exited: bool, executed': seq<nat>, pending': seq<Functor>, exited': bool)
    requires i < |fs| && InOrder(fs, i, executed0, executed, pending, exited)
    requires fs[i].Work? ==> executed' == executed + [fs[i].id] && pending' == pending + fs[i].spawns && exited' == exited
    requires fs[i].StopLoop? ==> exited'
    ensures InOrder(fs, i + 1, executed0, executed', pending', exited')
  {
    assert fs[..i + 1] == fs[..i] + [fs[i]];
    BatchSnoc(fs[..i], fs[i]);
    Assoc(executed0, TopIds(fs[..i]), [fs[i].id]);
  }

  lemma InOrderAll(fs: seq<Functor>, executed0: seq<nat>, executed: seq<nat>, pending: seq<Functor>, exited: bool)
    requires InOrder(fs, |fs|, executed0, executed, pending, exited)
    ensures if NoStop(fs) then !exited && executed == executed0 + TopIds(fs) && pending == Spawned(fs) else exited
  {
    assert fs[..|fs|] == fs;
  }

  lemma NothingLeft(fs: seq<Functor>)
    ensures SizeAll(fs[|fs|..]) == StopsAll(fs[|fs|..]) == 0 && IdsAll(fs[|fs|..]) == multiset{}
  {}

  /** Running a `Work` functor turns its own account into what it queues. */
  lemma WorkAccount(executed: seq<nat>, pending: seq<Functor>, f: Functor)
    requires f.Work?
    ensures multiset(executed + [f.id]) + IdsAll(pending + f.spawns) == multiset(executed) + IdsAll(pending) + Ids(f)
    ensures SizeAll(pending + f.spawns) < SizeAll(pending) + Size(f)
    ensures StopsAll(pending + f.spawns) == StopsAll(pending) + Stops(f)
  {
    AllAppend(pending, f.spawns);
  }

  /** Running the functor `one` moves its account from the rest of the batch to what has run or is pending. */
  lemma EntryAccount(before: multiset<nat>, after: multiset<nat>, one: multiset<nat>, rest: multiset<nat>,
                     all: multiset<nat>)
    requires after == before + one && before + (one + rest) == all
    ensures after + rest == all
  {}

  class EventLoop {
    const pipeCapacity: nat
    var pending: seq<Functor>
    var pendingCount: int
    var notified: bool
    var watcher: bool       // the pipe watcher exists
    var pipe: nat           // wakeup bytes in the pipe
    var running: bool       // status_ is kRunning
    var exits: nat          // calls of event_base_loopexit
    var executed: seq<nat>  // ids of the functors run so far, in order

    ghost predicate Valid()
      reads this
    {
      && pipeCapacity > 0 && (notified <==> pending != [])
    }

    /** No lost wakeup: if functors are pending, the loop thread has a byte to wake up for. */
    ghost predicate WakeupDue()
      reads this
    {
      watcher && notified ==> pipe > 0
    }

    constructor (pipeCapacity: nat)
      requires pipeCapacity > 0
      ensures Valid() && WakeupDue() && watcher && pending == [] && pendingCount == 0 && executed == []
    {
      this.pipeCapacity := pipeCapacity;
      pending, pendingCount, notified, watcher, pipe, running, exits, executed := [], 0, false, true, 0, false, 0, [];
    }

    /** Sends a byte, unless the pipe is full, and then there is one in it already. */
    method Notify()
      requires pipeCapacity > 0
      modifies this`pipe
      ensures pipe > 0 && pipe == if old(pipe) < pipeCapacity then old(pipe) + 1 else old(pipe)
    {
      if pipe < pipeCapacity {
        pipe := pipe + 1;
      }
    }

    method QueueInLoop(cb: Functor)
      requires Valid() && WakeupDue()
      modifies this`pending, this`pendingCount, this`notified, this`pipe
      ensures Valid() && WakeupDue()
      ensures pending == old(pending) + [cb] && pendingCount == old(pendingCount) + 1
      ensures old(notified) || !watcher ==> pipe == old(pipe)  // one wakeup byte is enough
      ensures !old(notified) && watcher && old(pipe) < pipeCapacity ==> pipe == old(pipe) + 1
    {
      pending := pending + [cb];
      pendingCount := pendingCount + 1;
      if !notified {
        notified := true;
        if watcher {
          Notify();
        }
      }
    }

    method RunInLoop(functor: Functor, inLoopThread: bool)
      requires Valid() && WakeupDue()
      modifies this
      ensures Valid() && WakeupDue()
      ensures multiset(executed) + IdsAll(pending)
              == multiset(old(executed)) + IdsAll(old(pending)) + Ids(functor)
      ensures !(old(running) && inLoopThread) ==> pending == old(pending) + [functor] && executed == old(executed)
                                                  && exits == old(exits) && pendingCount == old(pendingCount) + 1
      ensures old(running) && inLoopThread ==> Called(functor)
    {
      if running && inLoopThread {
        Execute(functor);
      } else {
        AllSnoc(pending, functor);
        QueueInLoop(functor);
      }
    }

    method Stop(id: nat, late: seq<Functor>)
      requires Valid() && WakeupDue() && running
      modifies this`pending, this`pendingCount, this`notified, this`pipe, this`running
      ensures Valid() && WakeupDue() && !running
      ensures pending == old(pending) + [StopLoop(id, late)] && pendingCount == old(pendingCount) + 1
    {
      running := false;
      QueueInLoop(StopLoop(id, late));
    }

    /** What calling `f` does: everything queued before or by it stays accounted for. */
    twostate predicate Called(f: Functor)
      reads this
    {
      && multiset(executed) + IdsAll(pending) == multiset(old(executed)) + IdsAll(old(pending)) + Ids(f)
      && old(executed) + [f.id] <= executed
      && exits + StopsAll(pending) == old(exits) + StopsAll(old(pending)) + Stops(f)
      && pendingCount - |pending| == old(pendingCount) - |old(pending)|
      && SizeAll(pending) < SizeAll(old(pending)) + Size(f)
      && (f.Work? ==> executed == old(executed) + [f.id] && pending == old(pending) + f.spawns && exits == old(exits))
      && (f.StopLoop? ==> pending == [] && exits > old(exits))
    }

    method Execute(f: Functor)
      requires Valid() && WakeupDue()
      modifies this`pending, this`pendingCount, this`notified, this`pipe, this`exits, this`executed
      ensures Valid() && WakeupDue() && Called(f)
      decreases SizeAll(pending) + Size(f), 0
    {
      if f.Work? {
        CallWork(f);
      } else {
        CallStop(f);
      }
    }

    method CallWork(f: Functor)
      requires Valid() && WakeupDue() && f.Work?
      modifies this`pending, this`pendingCount, this`notified, this`pipe, this`executed
      ensures Valid() && WakeupDue() && Called(f)
    {
      WorkAccount(executed, pending, f);
      executed := executed + [f.id];
      QueueAll(f.spawns);
    }

    method CallStop(f: Functor)
      requires Valid() && WakeupDue() && f.StopLoop?
      modifies this`pending, this`pendingCount, this`notified, this`pipe, this`exits, this`executed
      ensures Valid() && WakeupDue() && Called(f)
      decreases SizeAll(pending) + SizeAll(f.late), 6
    {
      executed := executed + [f.id];
      StopInLoop(f.late);
    }

    method QueueAll(spawns: seq<Functor>)
      requires Valid() && WakeupDue()
      modifies this`pending, this`pendingCount, this`notified, this`pipe
      ensures Valid() && WakeupDue()
      ensures pending == old(pending) + spawns && pendingCount == old(pendingCount) + |spawns|
    {
      for i := 0 to |spawns|
        invariant Valid() && WakeupDue()
        invariant pending == old(pending) + spawns[..i] && pendingCount == old(pendingCount) + i
      {
        QueueInLoop(spawns[i]);
      }
    }

    /** Drains the queue for good: on return everything that was queued, what other threads queued while the
        loop exit was called, and everything that those functors led to, has run, also when this call was
        made from inside a batch.  The loop exit is called once for this stop and for each stop drained. */
    method StopInLoop(late: seq<Functor>)
      requires Valid() && WakeupDue()
      modifies this`pending, this`pendingCount, this`notified, this`pipe, this`exits, this`executed
      ensures Valid() && WakeupDue() && pending == []
      ensures multiset(executed) == multiset(old(executed)) + IdsAll(old(pending)) + IdsAll(late)
      ensures old(executed) <= executed
      ensures pendingCount == old(pendingCount) - |old(pending)|
      ensures exits == old(exits) + 1 + StopsAll(old(pending)) + StopsAll(late)
      decreases SizeAll(pending) + SizeAll(late), 5
    {
      DrainLoop();
      exits := exits + 1;
      assert pending + late == late;
      QueueAll(late);  // by other threads
      DrainLoop();
    }

    /** The drain repeated until the queue is found empty. */
    method DrainLoop()
      requires Valid() && WakeupDue()
      modifies this`pending, this`pendingCount, this`notified, this`pipe, this`exits, this`executed
      ensures Valid() && WakeupDue() && pending == []
      ensures multiset(executed) == multiset(old(executed)) + IdsAll(old(pending))
      ensures old(executed) <= executed
      ensures pendingCount == old(pendingCount) - |old(pending)|
      ensures exits == old(exits) + StopsAll(old(pending))
      decreases SizeAll(pending), 4
    {
      while true
        invariant Valid() && WakeupDue()
        invariant multiset(executed) + IdsAll(pending) == multiset(old(executed)) + IdsAll(old(pending))
        invariant old(executed) <= executed
        invariant pendingCount - |pending| == old(pendingCount) - |old(pending)|
        invariant exits + StopsAll(pending) == old(exits) + StopsAll(old(pending))
        invariant SizeAll(pending) <= SizeAll(old(pending))
        decreases SizeAll(pending)
      {
        DoPendingFunctors();
        if pending == [] {
          break;
        }
      }
    }

    /** Runs what is pending now, in order; a batch with no `StopLoop` in it leaves exactly what it queued.
        The loop exit is called once for each stop that runs. */
    method DoPendingFunctors()
      requires Valid()
      modifies this`pending, this`pendingCount, this`notified, this`pipe, this`exits, this`executed
      ensures Valid() && WakeupDue()
      ensures multiset(executed) + IdsAll(pending) == multiset(old(executed)) + IdsAll(old(pending))
      ensures old(executed) <= executed && exits + StopsAll(pending) == old(exits) + StopsAll(old(pending))
      ensures !NoStop(old(pending)) ==> exits > old(exits)
      ensures pendingCount - |pending| == old(pendingCount) - |old(pending)|
      ensures SizeAll(pending) + |old(pending)| <= SizeAll(old(pending))
      ensures NoStop(old(pending)) ==> executed == old(executed) + TopIds(old(pending))
                                       && pending == Spawned(old(pending)) && exits == old(exits)
      decreases SizeAll(pending), 3
    {
      ghost var executed0, count0, exits0 := executed, pendingCount, exits;
      var functors := TakePending();
      RunBatch(functors, executed0, count0, exits0);
    }

    method RunBatch(functors: seq<Functor>, ghost executed0: seq<nat>, ghost count0: int, ghost exits0: nat)
      requires Progress(functors, 0, executed0, count0, exits0)
      requires InOrder(functors, 0, executed0, executed, pending, exits > exits0)
      modifies this`pending, this`pendingCount, this`notified, this`pipe, this`exits, this`executed
      ensures Valid() && WakeupDue()
      ensures multiset(executed) + IdsAll(pending) == multiset(executed0) + IdsAll(functors)
      ensures executed0 <= executed && exits + StopsAll(pending) == exits0 + StopsAll(functors)
      ensures pendingCount - |pending| == count0 - |functors|
      ensures SizeAll(pending) + |functors| <= SizeAll(functors)
      ensures if NoStop(functors) then
                executed == executed0 + TopIds(functors) && pending == Spawned(functors) && exits == exits0
              else
                exits > exits0
      decreases SizeAll(functors), 2
    {
      var i := 0;
      while i < |functors|
        invariant i <= |functors| && Progress(functors, i, executed0, count0, exits0)
        invariant InOrder(functors, i, executed0, executed, pending, exits > exits0)
      {
        ghost var done, left, exited := executed, pending, exits > exits0;
        RunEntry(functors, i, executed0, count0, exits0);
        InOrderStep(functors, i, executed0, done, left, exited, executed, pending, exits > exits0);
        i := i + 1;
      }
      NothingLeft(functors);
      InOrderAll(functors, executed0, executed, pending, exits > exits0);
    }

    /** The critical section: takes over the queue and clears the flag. */
    method TakePending() returns (functors: seq<Functor>)
      requires Valid()
      modifies this`pending, this`notified
      ensures functors == old(pending) && pending == []
      ensures Progress(functors, 0, executed, pendingCount, exits)
      ensures InOrder(functors, 0, executed, executed, pending, false)
    {
      functors := pending;
      notified := false;
      pending := [];
      assert functors[..0] == [] && functors[0..] == functors;
      assert executed + TopIds([]) == executed;
    }

    /** The first `i` entries of the batch have run, and everything else they stand for is accounted for. */
    ghost predicate Progress(functors: seq<Functor>, i: nat, executed0: seq<nat>, count0: int, exits0: nat)
      requires i <= |functors|
      reads this
    {
      && Valid() && WakeupDue()
      && multiset(executed) + IdsAll(pending) + IdsAll(functors[i..]) == multiset(executed0) + IdsAll(functors)
      && executed0 <= executed && exits >= exits0
      && exits + StopsAll(pending) + StopsAll(functors[i..]) == exits0 + StopsAll(functors)
      && pendingCount - |pending| == count0 - i
      && SizeAll(pending) + SizeAll(functors[i..]) + i <= SizeAll(functors)
    }

    method RunEntry(functors: seq<Functor>, i: nat, ghost executed0: seq<nat>, ghost count0: int, ghost exits0: nat)
      requires i < |functors| && Progress(functors, i, executed0, count0, exits0)
      modifies this`pending, this`pendingCount, this`notified, this`pipe, this`exits, this`executed
      ensures Progress(functors, i + 1, executed0, count0, exits0)
      ensures functors[i].Work? ==> executed == old(executed) + [functors[i].id]
                                    && pending == old(pending) + functors[i].spawns && exits == old(exits)
      ensures functors[i].StopLoop? ==> exits > old(exits)
      decreases SizeAll(functors), 1
    {
      Suffix(functors, i);
      ghost var before := multiset(executed) + IdsAll(pending);
      Execute(functors[i]);
      EntryAccount(before, multiset(executed) + IdsAll(pending), Ids(functors[i]), IdsAll(functors[i + 1..]),
                   multiset(executed0) + IdsAll(functors));
      pendingCount := pendingCount - 1;
    }

    /** `recv` takes up to 128 bytes; its result is kept in a `size_t`, so the handler also runs when
        `recv` fails and is skipped only at end of file.  A wakeup never strands pending functors. */
    method HandlerFn(endOfFile: bool) returns (handled: bool)
      requires Valid() && WakeupDue()
      modifies this`pending, this`pendingCount, this`notified, this`pipe, this`exits, this`executed
      ensures Valid() && WakeupDue()
      ensures handled <==> old(pipe) > 0 || !endOfFile
      ensures handled && NoStop(old(pending)) ==> executed == old(executed) + TopIds(old(pending))
                                                  && pending == Spawned(old(pending)) && exits == old(exits)
      ensures handled && !NoStop(old(pending)) ==> exits > old(exits)
      ensures !handled ==> pending == old(pending) && executed == old(executed) && exits == old(exits)
      ensures exits + StopsAll(pending) == old(exits) + StopsAll(old(pending))
      ensures pendingCount - |pending| == old(pendingCount) - |old(pending)|
      ensures multiset(executed) + IdsAll(pending) == multiset(old(executed)) + IdsAll(old(pending))
    {
      if pipe > 0 {
        var n: nat :| 1 <= n <= pipe && n <= 128;
        pipe := pipe - n;
      } else if endOfFile {
        return false;
      }
      DoPendingFunctors();
      return true;
    }
  }
}
