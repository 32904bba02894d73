/** The single-producer single-consumer byte ring: free-running counters, mask indexing and
    contiguous ("series") windows, refined to a FIFO of bytes. */
module RingBuffers {
  import opened Words

  /** Length of the contiguous part of `available` slots that start at `index`. */
  function SeriesLen(index: nat, available: nat, capacity: nat): (n: nat)
    requires index < capacity && available <= capacity
    ensures n <= available && index + n <= capacity
    ensures n == 0 <==> available == 0
    ensures n < available ==> index + n == capacity
  {
    if index + available <= capacity then available else capacity - index
  }

  /** The `n` cells of `mem` that start at `start` and go on at cell 0 past the end. */
  function Window(mem: seq<byte>, start: nat, n: nat): (w: seq<byte>)
    requires start < |mem| && n <= |mem|
    ensures |w| == n
  {
    seq(n, j requires 0 <= j < n => mem[WrapIndex(start + j, |mem|)])
  }

  lemma WindowAt(mem: seq<byte>, start: nat, n: nat, j: nat)
    requires start < |mem| && j < n <= |mem|
    ensures Window(mem, start, n)[j] == mem[WrapIndex(start + j, |mem|)]
  {}

  /** At most two contiguous runs of cells make up a window, the second from cell 0. */
  lemma TwoRuns(mem: seq<byte>, start: nat, n: nat)
    requires start < |mem| && n <= |mem|
    ensures var k := SeriesLen(start, n, |mem|);
            Window(mem, start, n) == mem[start..start + k] + mem[..n - k]
  {
    var k, w := SeriesLen(start, n, |mem|), Window(mem, start, n);
    var r := mem[start..start + k] + mem[..n - k];
    forall j | 0 <= j < n ensures w[j] == r[j] {
      WindowAt(mem, start, n, j);
    }
  }

  /** Storing `content` just past a window extends the window by it. */
  lemma WindowExtends(mem0: seq<byte>, mem: seq<byte>, start: nat, n: nat, content: seq<byte>)
    requires |mem0| == |mem| && start < |mem| && n + |content| <= |mem|
    requires forall j {:trigger mem0[j]} :: 0 <= j < |mem| && InWindow(start, n, |mem|, j) ==> mem[j] == mem0[j]
    requires Window(mem, WrapIndex(start + n, |mem|), |content|) == content
    ensures Window(mem, start, n + |content|) == Window(mem0, start, n) + content
  {
    var w, v := Window(mem, start, n + |content|), Window(mem0, start, n);
    forall j | 0 <= j < n ensures w[j] == v[j] {
      WindowAt(mem, start, n + |content|, j);
      WindowAt(mem0, start, n, j);
      assert InWindow(start, n, |mem|, WrapIndex(start + j, |mem|));
    }
    forall j | 0 <= j < |content| ensures w[n + j] == content[j] {
      WindowAt(mem, start, n + |content|, n + j);
      WindowAt(mem, WrapIndex(start + n, |mem|), |content|, j);
    }
    assert w[..n] == v && w[n..] == content;
  }

  /** Cells outside a window do not matter to it. */
  lemma WindowSame(mem0: seq<byte>, mem: seq<byte>, start: nat, n: nat)
    requires |mem0| == |mem| && start < |mem| && n <= |mem|
    requires forall j {:trigger mem0[j]} :: 0 <= j < |mem| && InWindow(start, n, |mem|, j) ==> mem[j] == mem0[j]
    ensures Window(mem, start, n) == Window(mem0, start, n)
  {
    WindowExtends(mem0, mem, start, n, []);
  }

  /** The two-part copy at the write position fills exactly the window there and no cell of the contents. */
  lemma WriteKeeps(mem0: seq<byte>, mem: seq<byte>, start: nat, n: nat, content: seq<byte>)
    requires |mem0| == |mem| && start < |mem| && n + |content| <= |mem|
    requires forall j :: 0 <= j < |mem| ==> mem[j] == Stored(mem0, WrapIndex(start + n, |mem|), content, j)
    ensures forall j {:trigger mem0[j]} :: 0 <= j < |mem| && InWindow(start, n, |mem|, j) ==> mem[j] == mem0[j]
    ensures Window(mem, WrapIndex(start + n, |mem|), |content|) == content
  {
    var w := WrapIndex(start + n, |mem|);
    var v := Window(mem, w, |content|);
    forall j | 0 <= j < |content| ensures v[j] == content[j] {
      WindowAt(mem, w, |content|, j);
    }
  }

  /** Cell `j` after `content` is stored at `w`, going on at cell 0 past the end. */
  function Stored(mem: seq<byte>, w: nat, content: seq<byte>, j: nat): byte
    requires w < |mem| && |content| <= |mem| && j < |mem|
  {
    if w <= j < w + |content| then content[j - w]
    else if j < w + |content| - |mem| then content[|mem| - w + j]
    else mem[j]
  }

  /** Dropping the front of a window moves its start. */
  lemma WindowDrops(mem: seq<byte>, start: nat, n: nat, k: nat)
    requires start < |mem| && k <= n <= |mem|
    ensures Window(mem, WrapIndex(start + k, |mem|), n - k) == Window(mem, start, n)[k..]
  {
    var w, v := Window(mem, WrapIndex(start + k, |mem|), n - k), Window(mem, start, n);
    forall j | 0 <= j < n - k ensures w[j] == v[k + j] {
      WindowAt(mem, WrapIndex(start + k, |mem|), n - k, j);
      WindowAt(mem, start, n, k + j);
    }
  }

  /** Cell `j` belongs to the window of `n` cells at `start`. */
  predicate InWindow(start: nat, n: nat, capacity: nat, j: nat) {
    if start + n <= capacity then start <= j < start + n else start <= j || j < start + n - capacity
  }

  /** Advancing a wrapping counter moves its masked index round the ring, also across 2^32. */
  lemma IndexAdvance(count: u32, n: nat, order: nat)
    requires order <= 31 && n <= Pow2(order)
    ensures And(count, Pow2(order) - 1) < Pow2(order)
    ensures And(count, Pow2(order) - 1) + n < TWO32  // an index plus a length never overflows
    ensures n < TWO32 && And(Add32(count, n), Pow2(order) - 1)
                         == WrapIndex(And(count, Pow2(order) - 1) + n, Pow2(order))
  {
    Pow2Fits(order);
    WrapIsModulo(count, n);
    AndMask(count, order);
    MaskOfTotal(count + n, order);
    SlotAdvance(count, n, Pow2(order));
  }

  class RingBuffer {
    ghost const order: nat
    const capacity: u32
    const maxIndex: u32
    const data: array<byte>
    var readCount: u32   // only changed by the read thread
    var writeCount: u32  // only changed by the write thread

    ghost predicate Valid()
      reads this
    {
      && order <= 31 && capacity == Pow2(order) == data.Length && maxIndex == capacity - 1
      && Sub32(writeCount, readCount) <= capacity
    }

    ghost function ReadIndex(): (i: nat)
      reads this
      requires Valid()
      ensures i < capacity
    {
      IndexAdvance(readCount, 0, order);
      And(readCount, maxIndex)
    }

    ghost function Contents(): (s: seq<byte>)
      reads this, data
      requires Valid()
      ensures |s| == Sub32(writeCount, readCount)
    {
      Window(data[..], ReadIndex(), Sub32(writeCount, readCount))
    }

    ghost function Free(): nat
      reads this, data
      requires Valid()
    {
      capacity - |Contents()|
    }

    /** The write position is the cell just past the contents. */
    ghost function WriteIndex(): (i: nat)
      reads this
      requires Valid()
      ensures i < capacity
      ensures i == And(writeCount, maxIndex)
      ensures i == WrapIndex(ReadIndex() + Sub32(writeCount, readCount), capacity)
    {
      IndexAdvance(readCount, Sub32(writeCount, readCount), order);
      CounterDistance(readCount, writeCount, 0);
      And(writeCount, maxIndex)
    }

    constructor (capacity: u32, ghost order: nat)
      requires order <= 31 && capacity == Pow2(order)
      ensures Valid() && fresh(data) && this.capacity == capacity && Contents() == []
    {
      this.order := order;
      this.capacity := capacity;
      maxIndex := capacity - 1;
      readCount, writeCount := 0, 0;
      data := new byte[capacity];
    }

    method IsEmpty() returns (empty: bool)
      requires Valid()
      ensures empty <==> Contents() == []
    {
      empty := readCount == writeCount;
    }

    /** `strict` is the outcome of the method's own assertion: it fails exactly on a full ring. */
    method AvailableRead() returns (available: u32, strict: bool)
      requires Valid()
      ensures available == |Contents()|
      ensures strict <==> Free() > 0
    {
      available := Sub32(writeCount, readCount);
      strict := available < capacity;
    }

    method AvailableSeriesRead() returns (n: u32)
      requires Valid()
      ensures n == SeriesLen(ReadIndex(), |Contents()|, capacity)
    {
      var available := Sub32(writeCount, readCount);
      if available == 0 {
        return 0;
      }
      var readIndex := And(readCount, maxIndex);
      IndexAdvance(readCount, 0, order);
      if readIndex + available <= capacity {
        return available;
      } else {
        return capacity - readIndex;
      }
    }

    /** The cells from here on hold the front of the contents, up to the end of the array. */
    method CurrentSeriesReadHead() returns (head: nat)
      requires Valid()
      ensures head == ReadIndex()
      ensures forall n :: 0 <= n <= SeriesLen(ReadIndex(), |Contents()|, capacity)
                ==> data[head..head + n] == Contents()[..n]
      ensures var k := SeriesLen(ReadIndex(), |Contents()|, capacity);
              data[..|Contents()| - k] == Contents()[k..]
    {
      head := And(readCount, maxIndex);
      TwoRuns(data[..], ReadIndex(), |Contents()|);
    }

    method ConsumeSeriesReadLen(len: u32)
      requires Valid() && len <= |Contents()| && ReadIndex() + len <= capacity
      modifies this`readCount
      ensures Valid() && Contents() == old(Contents())[len..]
      ensures ReadIndex() == WrapIndex(old(ReadIndex()) + len, capacity)
    {
      IndexAdvance(readCount, len, order);
      CounterDistance(readCount, writeCount, len);
      ghost var mem, start, n := data[..], ReadIndex(), Sub32(writeCount, readCount);
      WindowDrops(mem, start, n, len);
      readCount := Add32(readCount, len);
      assert data[..] == mem && ReadIndex() == WrapIndex(start + len, capacity);
      assert Contents() == Window(mem, WrapIndex(start + len, capacity), n - len);
    }

    /** The copy of `WriteContent`, split at the end of the array. */
    method CopyIn(writeIndex: nat, content: seq<byte>)
      requires capacity == data.Length && writeIndex < capacity && |content| <= capacity
      modifies data
      ensures forall j :: 0 <= j < data.Length ==> data[j] == Stored(old(data[..]), writeIndex, content, j)
    {
      var len := |content|;
      if writeIndex + len <= capacity {
        forall j | 0 <= j < len { data[writeIndex + j] := content[j]; }
      } else {
        var tailLeft := capacity - writeIndex;
        forall j | 0 <= j < tailLeft { data[writeIndex + j] := content[j]; }
        forall j | 0 <= j < len - tailLeft { data[j] := content[tailLeft + j]; }
      }
    }

    method WriteContent(content: seq<byte>) returns (ok: bool)
      requires Valid() && |content| < TWO32
      modifies this`writeCount, data
      ensures Valid() && readCount == old(readCount)
      ensures ok <==> |content| <= old(Free())
      ensures Contents() == if ok then old(Contents()) + content else old(Contents())
    {
      var len := |content|;
      var available := capacity - Sub32(writeCount, readCount);
      if available < len {
        return false;
      }
      ghost var mem, start, n := data[..], ReadIndex(), Sub32(writeCount, readCount);
      ghost var w := WriteIndex();
      CounterDistance(readCount, writeCount, len);
      CopyIn(And(writeCount, maxIndex), content);
      ghost var mem' := data[..];
      WriteKeeps(mem, mem', start, n, content);
      WindowExtends(mem, mem', start, n, content);
      writeCount := Add32(writeCount, len);
      assert data[..] == mem' && ReadIndex() == start;
      assert Contents() == Window(mem', start, n + len);
      return true;
    }

    method AvailableWrite() returns (available: u32)
      requires Valid()
      ensures available == Free()
    {
      var contentSize := Sub32(writeCount, readCount);
      available := capacity - contentSize;
    }

    method CurrentSeriesWriteHead() returns (head: nat)
      requires Valid()
      ensures head == WriteIndex()
    {
      head := And(writeCount, maxIndex);
      ghost var w := WriteIndex();
    }

    /** Zero exactly on a full ring, and otherwise all free cells up to the end of the array. */
    method AvailableSeriesWrite() returns (n: u32)
      requires Valid()
      ensures n == SeriesLen(WriteIndex(), Free(), capacity)
    {
      var contentSize := Sub32(writeCount, readCount);
      var available := capacity - contentSize;
      ghost var w := WriteIndex();
      var writeIndex := And(writeCount, maxIndex);
      if writeIndex + available > capacity {
        return capacity - writeIndex;
      } else {
        return available;
      }
    }

    method ConsumeSeriesWriteLen(len: u32)
      requires Valid() && len <= Free() && WriteIndex() + len <= capacity
      modifies this`writeCount
      ensures Valid() && readCount == old(readCount)
      ensures Contents() == old(Contents()) + data[old(WriteIndex())..old(WriteIndex()) + len]
    {
      ghost var mem, w, start, n := data[..], WriteIndex(), ReadIndex(), Sub32(writeCount, readCount);
      CounterDistance(readCount, writeCount, len);
      TwoRuns(mem, w, len);
      assert mem[w..w + len] == Window(mem, w, len);
      WindowExtends(mem, mem, start, n, mem[w..w + len]);
      writeCount := Add32(writeCount, len);
      assert data[..] == mem && ReadIndex() == start;
      assert Contents() == Window(mem, start, n + len);
    }
  }
}
