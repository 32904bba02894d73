/** One reader thread and one writer thread on a ring, interleaved at every counter load, every byte
    copied and every counter store.  The counters are the wrapping `uint32_t` of the class; `sent`
    and `got` are the unbounded histories of bytes published by the writer and taken by the reader. */
module RingProtocol {
  import opened Words
  import opened RingBuffers
  import opened Sequences

  // The writer has loaded the other side's counter and knows of `free` cells, or is copying in.
  datatype Writer = WIdle | WSized(free: nat) | WCopying(content: seq<byte>, done: nat)
  // The reader has loaded the other side's counter and knows of `available` bytes, or is copying out `len`
  // of them and knows of `left` more.  It may go on with an old load after it has consumed some bytes,
  // and it may look at bytes without consuming them.
  datatype Reader = RIdle | RSized(available: nat) | RCopying(len: nat, taken: seq<byte>, left: nat)

  datatype Ring = Ring(mem: seq<byte>, readCount: u32, writeCount: u32, writer: Writer, reader: Reader,
                       sent: seq<byte>, got: seq<byte>)

  datatype Step =
    | WLoad | WGiveUp | WBegin(content: seq<byte>) | WCopyByte | WPublish
    | RLoad | RGiveUp | RBegin(len: nat) | RCopyByte | RAbandon | RPublish

  /** The address the copy at a counter uses for its `k`-th byte. */
  function Address(count: u32, k: nat, order: nat): (i: nat)
    requires order <= 31 && k < Pow2(order)
    ensures i < Pow2(order)
  {
    IndexAdvance(count, 0, order);
    WrapIndex(And(count, Pow2(order) - 1) + k, Pow2(order))
  }

  ghost predicate Init(s: Ring, order: nat) {
    && order <= 31 && |s.mem| == Pow2(order) && s.readCount == s.writeCount == 0
    && s.writer == WIdle && s.reader == RIdle && s.sent == s.got == []
  }

  ghost predicate Next(s: Ring, t: Ring, step: Step, order: nat)
    requires order <= 31
  {
    match step
    case WLoad =>
      !s.writer.WCopying? && t == s.(writer := WSized((Pow2(order) - Sub32(s.writeCount, s.readCount)) % TWO32))
    case WGiveUp =>
      s.writer.WSized? && t == s.(writer := WIdle)
    case WBegin(content) =>
      s.writer.WSized? && |content| <= s.writer.free && t == s.(writer := WCopying(content, 0))
    case WCopyByte =>
      && s.writer.WCopying? && s.writer.done < |s.writer.content| && s.writer.done < Pow2(order) == |s.mem|
      && t == s.(mem := s.mem[Address(s.writeCount, s.writer.done, order) := s.writer.content[s.writer.done]],
                 writer := s.writer.(done := s.writer.done + 1))
    case WPublish =>
      && s.writer.WCopying? && s.writer.done == |s.writer.content| < TWO32
      && t == s.(writeCount := Add32(s.writeCount, s.writer.done), sent := s.sent + s.writer.content, writer := WIdle)
    case RLoad =>
      !s.reader.RCopying? && t == s.(reader := RSized(Sub32(s.writeCount, s.readCount)))
    case RGiveUp =>
      s.reader.RSized? && t == s.(reader := RIdle)
    case RBegin(len) =>
      && s.reader.RSized? && len <= s.reader.available
      && t == s.(reader := RCopying(len, [], s.reader.available - len))
    case RCopyByte =>
      && s.reader.RCopying? && |s.reader.taken| < s.reader.len && |s.reader.taken| < Pow2(order) == |s.mem|
      && t == s.(reader := s.reader.(taken := s.reader.taken + [s.mem[Address(s.readCount, |s.reader.taken|, order)]]))
    case RAbandon =>
      s.reader.RCopying? && t == s.(reader := RSized(s.reader.len + s.reader.left))
    case RPublish =>
      && s.reader.RCopying? && |s.reader.taken| == s.reader.len < TWO32
      && t == s.(readCount := Add32(s.readCount, s.reader.len), got := s.got + s.reader.taken,
                 reader := RSized(s.reader.left))
  }

  /** The bytes published and not yet taken: the abstract FIFO. */
  function Queue(s: Ring): (q: seq<byte>)
    requires |s.got| <= |s.sent|
  {
    s.sent[|s.got|..]
  }

  ghost predicate CountersTrack(s: Ring, order: nat) {
    && order <= 31 && |s.mem| == Pow2(order)
    && |s.got| <= |s.sent| <= |s.got| + Pow2(order)
    && s.readCount == |s.got| % 0x1_0000_0000 && s.writeCount == |s.sent| % 0x1_0000_0000
  }

  ghost predicate WriterOk(s: Ring, order: nat)
    requires CountersTrack(s, order)
  {
    var room := Pow2(order) - (|s.sent| - |s.got|);
    match s.writer
    case WIdle => true
    case WSized(free) => free <= room
    case WCopying(content, done) =>
      && done <= |content| <= room
      && forall k :: 0 <= k < done ==> s.mem[(|s.sent| + k) % Pow2(order)] == content[k]
  }

  ghost predicate ReaderOk(s: Ring, order: nat)
    requires CountersTrack(s, order)
  {
    match s.reader
    case RIdle => true
    case RSized(available) => available <= |s.sent| - |s.got|
    case RCopying(len, taken, left) =>
      && |taken| <= len && len + left <= |s.sent| - |s.got|
      && taken == s.sent[|s.got|..|s.got| + |taken|]
  }

  ghost predicate Inv(s: Ring, order: nat) {
    && CountersTrack(s, order)
    && (forall i :: |s.got| <= i < |s.sent| ==> s.mem[i % Pow2(order)] == s.sent[i])
    && WriterOk(s, order) && ReaderOk(s, order)
    && s.got <= s.sent
  }

  /** After any number of laps of 2^32 the wrapping counters still give the exact fill and slots. */
  lemma CountersExact(s: Ring, order: nat)
    requires CountersTrack(s, order)
    ensures Sub32(s.writeCount, s.readCount) == |s.sent| - |s.got|
    ensures And(s.readCount, Pow2(order) - 1) == |s.got| % Pow2(order)
    ensures And(s.writeCount, Pow2(order) - 1) == |s.sent| % Pow2(order)
  {
    Pow2Fits(order);
    WrappedDistance(|s.got|, |s.sent|);
    MaskOfTotal(|s.got|, order);
    MaskOfTotal(|s.sent|, order);
  }

  lemma AddressIsSlot(total: nat, k: nat, order: nat)
    requires order <= 31 && k < Pow2(order)
    ensures Address(total % 0x1_0000_0000, k, order) == (total + k) % Pow2(order)
  {
    MaskOfTotal(total, order);
    SlotAdvance(total, k, Pow2(order));
  }

  /** A copied-in byte lands on a cell that holds neither an unread byte nor an earlier byte of the same copy. */
  lemma CopyHitsFreeCell(s: Ring, order: nat)
    requires Inv(s, order) && s.writer.WCopying? && s.writer.done < |s.writer.content|
    ensures s.writer.done < Pow2(order)
    ensures forall i :: |s.got| <= i < |s.sent| + s.writer.done
              ==> i % Pow2(order) != Address(s.writeCount, s.writer.done, order)
  {
    var j := |s.sent| + s.writer.done;
    AddressIsSlot(|s.sent|, s.writer.done, order);
    forall i | |s.got| <= i < j ensures i % Pow2(order) != j % Pow2(order) {
      SlotsDiffer(i, j, Pow2(order));
    }
  }

  /** A copied-out byte is the next published byte. */
  lemma CopyReadsPublished(s: Ring, order: nat)
    requires Inv(s, order) && s.reader.RCopying? && |s.reader.taken| < s.reader.len
    ensures |s.reader.taken| < Pow2(order)
    ensures s.mem[Address(s.readCount, |s.reader.taken|, order)] == s.sent[|s.got| + |s.reader.taken|]
  {
    AddressIsSlot(|s.got|, |s.reader.taken|, order);
  }

  lemma CopyInKeeps(s: Ring, t: Ring, order: nat)
    requires Inv(s, order) && Next(s, t, WCopyByte, order)
    ensures Inv(t, order)
  {
    var n, k := |s.sent|, s.writer.done;
    CopyHitsFreeCell(s, order);
    AddressIsSlot(n, k, order);
    forall j | 0 <= j < k ensures t.mem[(n + j) % Pow2(order)] == s.writer.content[j] {
      assert (n + j) % Pow2(order) != Address(s.writeCount, k, order);
    }
  }

  lemma PublishKeeps(s: Ring, t: Ring, order: nat)
    requires Inv(s, order) && Next(s, t, WPublish, order)
    ensures Inv(t, order)
  {
    var n, content := |s.sent|, s.writer.content;
    WrappedAdvance(n, |content|);
    forall i | |t.got| <= i < |t.sent| ensures t.mem[i % Pow2(order)] == t.sent[i] {
      if i >= n { assert s.mem[(n + (i - n)) % Pow2(order)] == content[i - n]; }
    }
  }

  lemma CopyOutKeeps(s: Ring, t: Ring, order: nat)
    requires Inv(s, order) && Next(s, t, RCopyByte, order)
    ensures Inv(t, order)
  {
    CopyReadsPublished(s, order);
  }

  lemma TakeKeeps(s: Ring, t: Ring, order: nat)
    requires Inv(s, order) && Next(s, t, RPublish, order)
    ensures Inv(t, order)
    ensures Queue(s) == s.reader.taken + Queue(t)
  {
    WrappedAdvance(|s.got|, s.reader.len);
    Between(s.sent, |s.got|, |s.got| + s.reader.len, |s.sent|);
    assert s.got == s.sent[..|s.got|];
  }

  predicate TouchesRing(step: Step) {
    step.WCopyByte? || step.WPublish? || step.RPublish?
  }

  /** All other steps change no more than what their own thread remembers. */
  lemma OthersLeave(s: Ring, t: Ring, step: Step, order: nat)
    requires order <= 31 && Next(s, t, step, order) && !TouchesRing(step)
    ensures t.mem == s.mem && t.readCount == s.readCount && t.writeCount == s.writeCount
    ensures t.sent == s.sent && t.got == s.got
    ensures t.writer == s.writer || t.reader == s.reader
  {}

  /** A load reports the fill exactly at that moment. */
  lemma LoadsExactly(s: Ring, t: Ring, step: Step, order: nat)
    requires CountersTrack(s, order) && Next(s, t, step, order)
    ensures step.WLoad? ==> t.writer == WSized(Pow2(order) - |Queue(s)|)
    ensures step.RLoad? ==> t.reader == RSized(|Queue(s)|)
  {
    LoadedFill(s, order);
  }

  lemma LoadedFill(s: Ring, order: nat)
    requires CountersTrack(s, order)
    ensures Sub32(s.writeCount, s.readCount) == |Queue(s)|
    ensures (Pow2(order) - Sub32(s.writeCount, s.readCount)) % TWO32 == Pow2(order) - |Queue(s)|
  {
    CountersExact(s, order);
    Pow2Fits(order);
  }

  lemma WriterOnlyKeeps(s: Ring, t: Ring, step: Step, order: nat)
    requires Inv(s, order) && Next(s, t, step, order) && (step.WLoad? || step.WGiveUp? || step.WBegin?)
    ensures Inv(t, order)
  {
    OthersLeave(s, t, step, order);
    LoadsExactly(s, t, step, order);
  }

  lemma ReaderOnlyKeeps(s: Ring, t: Ring, step: Step, order: nat)
    requires Inv(s, order) && Next(s, t, step, order)
    requires step.RLoad? || step.RGiveUp? || step.RBegin? || step.RAbandon?
    ensures Inv(t, order)
  {
    OthersLeave(s, t, step, order);
    LoadsExactly(s, t, step, order);
  }

  lemma StepKeeps(s: Ring, t: Ring, step: Step, order: nat)
    requires Inv(s, order) && Next(s, t, step, order)
    ensures Inv(t, order)
  {
    match step
    case WCopyByte => CopyInKeeps(s, t, order);
    case WPublish => PublishKeeps(s, t, order);
    case RCopyByte => CopyOutKeeps(s, t, order);
    case RPublish => TakeKeeps(s, t, order);
    case WLoad | WGiveUp | WBegin(_) => WriterOnlyKeeps(s, t, step, order);
    case RLoad | RGiveUp | RBegin(_) | RAbandon => ReaderOnlyKeeps(s, t, step, order);
  }

  /** A publication appends the copied bytes to the abstract FIFO. */
  lemma PublishAppends(s: Ring, t: Ring, order: nat)
    requires Inv(s, order) && Next(s, t, WPublish, order)
    ensures Queue(t) == Queue(s) + s.writer.content && t.got == s.got
  {}

  lemma QueueStays(s: Ring, t: Ring, step: Step, order: nat)
    requires Inv(s, order) && Next(s, t, step, order) && !step.WPublish? && !step.RPublish?
    ensures Queue(t) == Queue(s) && t.got == s.got
  {
    if !TouchesRing(step) { OthersLeave(s, t, step, order); }
  }

  /** What a thread remembers of the ring's fill errs on the safe side only, however old it is. */
  lemma MemoryIsSafe(s: Ring, order: nat)
    requires Inv(s, order)
    ensures |Queue(s)| <= Pow2(order)
    ensures s.writer.WSized? ==> s.writer.free <= Pow2(order) - |Queue(s)|
    ensures s.writer.WCopying? ==> |s.writer.content| <= Pow2(order) - |Queue(s)|
    ensures s.reader.RSized? ==> s.reader.available <= |Queue(s)|
    ensures s.reader.RCopying? ==> s.reader.taken <= Queue(s) && s.reader.len + s.reader.left <= |Queue(s)|
  {}

  /** Refinement: only the two counter stores change the abstract FIFO, a load reports it exactly at
      that moment, and what a thread remembers of an earlier load never exceeds what is there now. */
  lemma RefinesFifo(s: Ring, t: Ring, step: Step, order: nat)
    requires Inv(s, order) && Next(s, t, step, order)
    ensures Inv(t, order) && |Queue(t)| <= Pow2(order)
    ensures step.WPublish? ==> Queue(t) == Queue(s) + s.writer.content && t.got == s.got
    ensures step.RPublish? ==> Queue(s) == s.reader.taken + Queue(t) && t.got == s.got + s.reader.taken
    ensures !step.WPublish? && !step.RPublish? ==> Queue(t) == Queue(s) && t.got == s.got
    ensures step.WLoad? ==> t.writer == WSized(Pow2(order) - |Queue(s)|)
    ensures step.RLoad? ==> t.reader == RSized(|Queue(s)|)
    ensures t.writer.WSized? ==> t.writer.free <= Pow2(order) - |Queue(t)|
    ensures t.reader.RSized? ==> t.reader.available <= |Queue(t)|
  {
    StepKeeps(s, t, step, order);
    MemoryIsSafe(t, order);
    LoadsExactly(s, t, step, order);
    match step
    case WPublish => PublishAppends(s, t, order);
    case RPublish => TakeKeeps(s, t, order);
    case _ => QueueStays(s, t, step, order);
  }

  ghost predicate Linked(s: Ring, t: Ring, order: nat) {
    order <= 31 && exists step :: Next(s, t, step, order)
  }

  ghost predicate IsPath(run: seq<Ring>, order: nat) {
    |run| > 0 && forall i :: 0 <= i < |run| - 1 ==> Linked(run[i], run[i + 1], order)
  }

  ghost predicate IsRun(run: seq<Ring>, order: nat) {
    IsPath(run, order) && Init(run[0], order)
  }

  /** Over every run and every schedule, the bytes taken are a prefix of the bytes published, and the
      ring holds exactly the difference. */
  lemma {:induction false} RunsAreFifo(run: seq<Ring>, order: nat, i: nat)
    requires IsRun(run, order) && i < |run|
    ensures Inv(run[i], order) && run[i].sent == run[i].got + Queue(run[i]) && |Queue(run[i])| <= Pow2(order)
  {
    if i == 0 {
      assert run[0].sent == [];
    } else {
      RunsAreFifo(run, order, i - 1);
      assert Linked(run[i - 1], run[i - 1 + 1], order);
      var step :| Next(run[i - 1], run[i], step, order);
      StepKeeps(run[i - 1], run[i], step, order);
    }
  }

  // The ring passes bytes on.

  /** Some sequence of steps leads from one state to the other. */
  ghost predicate Leads(s: Ring, t: Ring, order: nat) {
    exists run :: IsPath(run, order) && run[0] == s && run[|run| - 1] == t
  }

  lemma Stays(s: Ring, order: nat)
    ensures Leads(s, s, order)
  {
    assert IsPath([s], order);
  }

  lemma GoesOn(s: Ring, t: Ring, u: Ring, step: Step, order: nat)
    requires Leads(s, t, order) && Inv(t, order) && Next(t, u, step, order)
    ensures Leads(s, u, order) && Inv(u, order)
  {
    var run :| IsPath(run, order) && run[0] == s && run[|run| - 1] == t;
    assert Linked(t, u, order);
    assert IsPath(run + [u], order);
    StepKeeps(t, u, step, order);
  }

  lemma {:induction false} CopiesIn(s0: Ring, s: Ring, order: nat) returns (t: Ring)
    requires Leads(s0, s, order) && Inv(s, order) && s.writer.WCopying?
    ensures Leads(s0, t, order) && Inv(t, order)
    ensures t == s.(mem := t.mem, writer := WCopying(s.writer.content, |s.writer.content|))
    decreases if s.writer.WCopying? then |s.writer.content| - s.writer.done else 0
  {
    var w := s.writer;
    if w.done == |w.content| {
      t := s;
    } else {
      var u := s.(mem := s.mem[Address(s.writeCount, w.done, order) := w.content[w.done]],
                  writer := w.(done := w.done + 1));
      GoesOn(s0, s, u, WCopyByte, order);
      t := CopiesIn(s0, u, order);
    }
  }

  /** A writer can publish whatever fits. */
  lemma Writes(s0: Ring, s: Ring, content: seq<byte>, order: nat) returns (t: Ring)
    requires Leads(s0, s, order) && Inv(s, order) && s.writer.WIdle? && |content| <= Pow2(order) - |Queue(s)|
    ensures Leads(s0, t, order) && Inv(t, order)
    ensures t.writer.WIdle? && t.reader == s.reader && t.sent == s.sent + content && t.got == s.got
  {
    var s1 := s.(writer := WSized(Pow2(order) - |Queue(s)|));
    var s2 := s.(writer := WCopying(content, 0));
    LoadedFill(s, order);
    GoesOn(s0, s, s1, WLoad, order);
    GoesOn(s0, s1, s2, WBegin(content), order);
    var s3 := CopiesIn(s0, s2, order);
    Pow2Fits(order);
    t := s3.(writeCount := Add32(s3.writeCount, |content|), sent := s3.sent + content, writer := WIdle);
    GoesOn(s0, s3, t, WPublish, order);
  }

  lemma {:induction false} CopiesOut(s0: Ring, s: Ring, order: nat) returns (t: Ring)
    requires Leads(s0, s, order) && Inv(s, order) && s.reader.RCopying?
    ensures Leads(s0, t, order) && Inv(t, order)
    ensures t.reader.RCopying? && |t.reader.taken| == s.reader.len
    ensures t == s.(reader := s.reader.(taken := t.reader.taken))
    decreases if s.reader.RCopying? then s.reader.len - |s.reader.taken| else 0
  {
    var r := s.reader;
    if |r.taken| == r.len {
      t := s;
    } else {
      var u := s.(reader := r.(taken := r.taken + [s.mem[Address(s.readCount, |r.taken|, order)]]));
      GoesOn(s0, s, u, RCopyByte, order);
      t := CopiesOut(s0, u, order);
    }
  }

  /** A reader can take any part of what is there, and it gets the oldest bytes. */
  lemma Reads(s0: Ring, s: Ring, n: nat, order: nat) returns (t: Ring)
    requires Leads(s0, s, order) && Inv(s, order) && s.reader.RIdle? && n <= |Queue(s)|
    ensures Leads(s0, t, order) && Inv(t, order)
    ensures t.reader.RIdle? && t.writer == s.writer && t.sent == s.sent && t.got == s.got + Queue(s)[..n]
  {
    var s1 := s.(reader := RSized(|Queue(s)|));
    var s2 := s.(reader := RCopying(n, [], |Queue(s)| - n));
    LoadedFill(s, order);
    GoesOn(s0, s, s1, RLoad, order);
    GoesOn(s0, s1, s2, RBegin(n), order);
    var s3 := CopiesOut(s0, s2, order);
    Pow2Fits(order);
    MemoryIsSafe(s3, order);
    assert s3.reader.taken == Queue(s)[..n];
    var s4 := s3.(readCount := Add32(s3.readCount, n), got := s3.got + s3.reader.taken, reader := RSized(s3.reader.left));
    GoesOn(s0, s3, s4, RPublish, order);
    t := s4.(reader := RIdle);
    GoesOn(s0, s4, t, RGiveUp, order);
  }

  /** From any state that a run reaches between two calls: whatever fits behind what is there passes through
      the ring, after it. */
  lemma PassesThrough(s: Ring, content: seq<byte>, order: nat) returns (t: Ring)
    requires Inv(s, order) && s.writer.WIdle? && s.reader.RIdle? && |content| <= Pow2(order) - |Queue(s)|
    ensures Leads(s, t, order) && Inv(t, order) && t.writer.WIdle? && t.reader.RIdle?
    ensures t.sent == s.sent + content && t.got == t.sent && Queue(t) == []
  {
    Stays(s, order);
    var u := Writes(s, s, content, order);
    t := Reads(s, u, |Queue(u)|, order);
    assert u.got + Queue(u) == u.sent;
  }
}
