/** The growable socket buffer, with space for prepending in front of the unread octets: a sequence of
    octets under every operation. */
module SocketBuffers {
  import opened Codec
  import opened Sequences

  const EXTRA_SIZE: nat := 65536  // of the buffer on the stack that `readv` spills into

  function Least(a: nat, b: nat): (n: nat)
    ensures n <= a && n <= b && (n == a || n == b)
  {
    if a < b then a else b
  }

  /** The octets one `readv` can take: the extra buffer is used only if the tail is smaller than it. */
  function ReadRoom(writable: nat): nat {
    if writable < EXTRA_SIZE then writable + EXTRA_SIZE else writable
  }

  class SocketBuffer {
    const reserved: nat
    var buffer: array<octet>
    var capacity: nat
    var readIndex: nat
    var writeIndex: nat

    ghost predicate Valid()
      reads this
    {
      readIndex <= writeIndex <= capacity == buffer.Length && reserved <= capacity
    }

    function Contents(): (s: seq<octet>)
      reads this, buffer
      requires Valid()
    {
      buffer[readIndex..writeIndex]
    }

    /** The storage is either the same array or a new one. */
    twostate predicate SameOrFresh()
      reads this
    {
      buffer == old(buffer) || fresh(buffer)
    }

    /** The same array, with the contents where they were. */
    twostate predicate StorageStays()
      reads this
    {
      buffer == old(buffer) && capacity == old(capacity) && readIndex == old(readIndex)
    }

    constructor (initialSize: nat, reserved: nat)
      ensures Valid() && fresh(buffer) && Contents() == []
      ensures this.reserved == reserved && capacity - writeIndex == initialSize && readIndex == reserved
    {
      this.reserved := reserved;
      capacity := reserved + initialSize;
      readIndex, writeIndex := reserved, reserved;
      buffer := new octet[reserved + initialSize];
    }

    /** Drops octets from the front.  A skip of everything also gives the prepend space back. */
    method Skip(len: nat)
      requires Valid()
      modifies this`readIndex, this`writeIndex
      ensures Valid()
      ensures Contents() == if len < |old(Contents())| then old(Contents())[len..] else []
      ensures if len < |old(Contents())| then readIndex == old(readIndex) + len && writeIndex == old(writeIndex)
              else readIndex == writeIndex == reserved
    {
      if len < writeIndex - readIndex {
        readIndex := readIndex + len;
      } else {
        Truncate(0);
      }
    }

    method Truncate(n: nat)
      requires Valid()
      modifies this`readIndex, this`writeIndex
      ensures Valid()
      ensures Contents() == if n < |old(Contents())| then old(Contents())[..n] else old(Contents())
      ensures n == 0 ==> readIndex == writeIndex == reserved
    {
      if n == 0 {
        readIndex := reserved;
        writeIndex := reserved;
      } else if writeIndex > readIndex + n {
        writeIndex := readIndex + n;
      }
    }

    /** Makes room for `len` more octets, in a larger array if the free octets outside the prepend space
        do not suffice, and otherwise by moving the contents to the front, and keeps the contents. */
    method Grow(len: nat)
      requires Valid() && capacity - writeIndex < len
      modifies this, buffer
      ensures Valid() && SameOrFresh() && Contents() == old(Contents())
      ensures capacity - writeIndex >= len && readIndex == reserved
      ensures if old(capacity - writeIndex + readIndex) < len + reserved
              then fresh(buffer) && capacity == 2 * old(capacity) + len
              else buffer == old(buffer) && capacity == old(capacity)
    {
      var m := writeIndex - readIndex;
      ghost var before := Contents();
      if capacity - writeIndex + readIndex < len + reserved {
        var n := 2 * capacity + len;
        var d := new octet[n];
        forall j | 0 <= j < m { d[reserved + j] := buffer[readIndex + j]; }
        assert d[reserved..m + reserved] == before;
        writeIndex := m + reserved;
        readIndex := reserved;
        capacity := n;
        buffer := d;
      } else {
        assert reserved < readIndex;
        forall j | 0 <= j < m { buffer[reserved + j] := buffer[readIndex + j]; }
        assert buffer[reserved..reserved + m] == before;
        readIndex := reserved;
        writeIndex := readIndex + m;
      }
    }

    /** Never moves the contents inside the same array: it does nothing or enlarges. */
    method Reserve(len: nat)
      requires Valid()
      modifies this, buffer
      ensures Valid() && SameOrFresh() && Contents() == old(Contents())
      ensures capacity >= len + reserved
      ensures if old(capacity) >= len + reserved then buffer == old(buffer) && readIndex == old(readIndex)
              else fresh(buffer) && capacity == 2 * old(capacity) + len + reserved
    {
      if capacity >= len + reserved {
        return;
      }
      Grow(len + reserved);
    }

    method EnsureWritableBytes(len: nat)
      requires Valid()
      modifies this, buffer
      ensures Valid() && SameOrFresh() && Contents() == old(Contents())
      ensures capacity - writeIndex >= len
      ensures old(capacity - writeIndex) >= len ==> StorageStays() && writeIndex == old(writeIndex)
    {
      if capacity - writeIndex < len {
        Grow(len);
      }
    }

    method Write(d: seq<octet>)
      requires Valid()
      modifies this, buffer
      ensures Valid() && SameOrFresh()
      ensures Contents() == old(Contents()) + d
      ensures old(capacity - writeIndex) >= |d| ==> StorageStays()
    {
      EnsureWritableBytes(|d|);
      StoreTail(d);
    }

    /** Copies octets behind the contents, where there is room for them, and takes them in. */
    method StoreTail(d: seq<octet>)
      requires Valid() && |d| <= capacity - writeIndex
      modifies this`writeIndex, buffer
      ensures Valid() && writeIndex == old(writeIndex) + |d|
      ensures Contents() == old(Contents()) + d
    {
      ghost var before := Contents();
      forall j | 0 <= j < |d| { buffer[writeIndex + j] := d[j]; }
      assert buffer[readIndex..writeIndex] == before;
      assert buffer[writeIndex..writeIndex + |d|] == d;
      Between(buffer[..], readIndex, writeIndex, writeIndex + |d|);
      writeIndex := writeIndex + |d|;
    }

    method Prepend(d: seq<octet>)
      requires Valid() && |d| <= readIndex
      modifies this`readIndex, buffer
      ensures Valid() && readIndex == old(readIndex) - |d|
      ensures Contents() == d + old(Contents())
    {
      ghost var before := Contents();
      readIndex := readIndex - |d|;
      forall j | 0 <= j < |d| { buffer[readIndex + j] := d[j]; }
      assert buffer[readIndex..readIndex + |d|] == d;
      assert buffer[readIndex + |d|..writeIndex] == before;
    }

    method UnwriteBytes(n: nat)
      requires Valid() && n <= |Contents()|
      modifies this`writeIndex
      ensures Valid() && writeIndex == old(writeIndex) - n
      ensures Contents() == old(Contents())[..|old(Contents())| - n]
    {
      writeIndex := writeIndex - n;
    }

    /** The contents stay, and are followed by a terminating zero. */
    method ToText()
      requires Valid()
      modifies this, buffer
      ensures Valid() && SameOrFresh() && Contents() == old(Contents())
      ensures writeIndex < capacity && buffer[writeIndex] == 0
    {
      Write([0]);
      assert Contents()[|Contents()| - 1] == 0;
      UnwriteBytes(1);
    }

    /** Drops `len` octets only if there are so many, and never gives the prepend space back. */
    method Next(len: nat)
      requires Valid()
      modifies this`readIndex
      ensures Valid()
      ensures readIndex == old(readIndex) + if len <= |old(Contents())| then len else 0
      ensures Contents() == if len <= |old(Contents())| then old(Contents())[len..] else old(Contents())
    {
      if len <= writeIndex - readIndex {
        readIndex := readIndex + len;
      }
    }

    method ReadByte() returns (b: octet)
      requires Valid()
      modifies this`readIndex
      ensures Valid()
      ensures if old(Contents()) == [] then b == 0 && readIndex == old(readIndex)
              else [b] + Contents() == old(Contents()) && readIndex == old(readIndex) + 1
    {
      if writeIndex - readIndex == 0 {
        return 0;
      }
      b := buffer[readIndex];
      readIndex := readIndex + 1;
    }

    method UnreadBytes(n: nat)
      requires Valid() && n < readIndex
      modifies this`readIndex
      ensures Valid() && readIndex == old(readIndex) - n
      ensures Contents() == buffer[old(readIndex) - n..old(readIndex)] + old(Contents())
    {
      readIndex := readIndex - n;
    }

    /** Unreading undoes a skip exactly if the skip left something, or if the buffer ended where the
        prepend space does; otherwise the indices that a skip of everything resets are lost. */
    method SkipThenUnread(n: nat)
      requires Valid() && n <= |Contents()|
      requires if n < |Contents()| then readIndex > 0 else n < reserved
      modifies this`readIndex, this`writeIndex
      ensures Valid()
      ensures readIndex == old(readIndex) && writeIndex == old(writeIndex)
              <==> n < |old(Contents())| || old(writeIndex) == reserved
      ensures n < |old(Contents())| ==> Contents() == old(Contents())
    {
      Skip(n);
      UnreadBytes(n);
    }

    /** Unreading always undoes a `Next`. */
    method NextThenUnread(n: nat)
      requires Valid() && n <= |Contents()| && readIndex > 0
      modifies this`readIndex
      ensures Valid() && readIndex == old(readIndex) && Contents() == old(Contents())
    {
      Next(n);
      UnreadBytes(n);
    }

    /** Appends exactly the octets that `readv` takes off the stream, in order, whether they fit or spill
        into the extra buffer; on an error the buffer stays as it is.  The kernel gives at most `most`.  One
        read takes at most what fits, and 65536 octets more if fewer than 65536 fit; the storage is left
        alone exactly if what was read fits. */
    method ReadFromFD(stream: seq<octet>, most: nat, error: bool) returns (n: int)
      requires Valid()
      modifies this, buffer
      ensures Valid() && SameOrFresh()
      ensures error ==> n == -1 && Contents() == old(Contents()) && StorageStays()
      ensures !error ==> 0 <= n <= |stream| && Contents() == old(Contents()) + stream[..n]
      ensures !error && old(capacity - writeIndex) >= 65536
              ==> n == Least(Least(most, |stream|), old(capacity - writeIndex))
      ensures !error && old(capacity - writeIndex) < 65536
              ==> n == Least(Least(most, |stream|), old(capacity - writeIndex) + 65536)
      ensures n <= old(capacity - writeIndex) ==> StorageStays()
      ensures n > old(capacity - writeIndex) ==> !StorageStays()
    {
      if error {
        return -1;
      }
      var writable := capacity - writeIndex;
      var k := Least(Least(most, |stream|), ReadRoom(writable));
      var inPlace := if k <= writable then k else writable;
      ghost var before := Contents();
      StoreTail(stream[..inPlace]);
      if k > writable {
        var extra := stream[writable..k];
        Assoc(before, stream[..writable], extra);
        assert stream[..k] == stream[..writable] + extra;
        Write(extra);
      }
      n := k;
    }

    // The codec, one method for the four widths.

    method AppendInt(item: Item)
      requires Valid()
      modifies this, buffer
      ensures Valid() && SameOrFresh()
      ensures Contents() == old(Contents()) + BigEndian(item)
    {
      StoresBigEndian(item);
      Write(Stored(item));
    }

    method PrependInt(item: Item)
      requires Valid() && Width(KindOf(item)) <= readIndex
      modifies this`readIndex, buffer
      ensures Valid() && readIndex == old(readIndex) - Width(KindOf(item))
      ensures Contents() == BigEndian(item) + old(Contents())
    {
      StoresBigEndian(item);
      Prepend(Stored(item));
    }

    method PeekInt(kind: Kind) returns (item: Item)
      requires Valid() && |Contents()| >= Width(kind)
      ensures KindOf(item) == kind && BigEndian(item) == Contents()[..Width(kind)]
    {
      item := Loaded(kind, buffer[readIndex..readIndex + Width(kind)]);
      assert buffer[readIndex..readIndex + Width(kind)] == Contents()[..Width(kind)];
      StoreInvertsLoad(kind, Contents()[..Width(kind)]);
    }

    method ReadInt(kind: Kind) returns (item: Item)
      requires Valid() && |Contents()| >= Width(kind)
      modifies this`readIndex, this`writeIndex
      ensures Valid() && KindOf(item) == kind
      ensures old(Contents()) == BigEndian(item) + Contents()
    {
      item := PeekInt(kind);
      Skip(Width(kind));
    }

    // Sequences of calls.

    method AppendItems(items: seq<Item>)
      requires Valid()
      modifies this, buffer
      ensures Valid() && SameOrFresh()
      ensures Contents() == old(Contents()) + EncodeAll(items)
    {
      AppendEachEncodes(Contents(), items);
      for i := 0 to |items|
        invariant Valid() && SameOrFresh()
        invariant AppendEach(Contents(), items[i..]) == AppendEach(old(Contents()), items)
      {
        assert items[i..][1..] == items[i + 1..];
        AppendInt(items[i]);
      }
    }

    /** Needs room for all the items in front of the contents. */
    method PrependItems(items: seq<Item>)
      requires Valid() && |EncodeAll(items)| <= readIndex
      modifies this`readIndex, buffer
      ensures Valid() && readIndex == old(readIndex) - |EncodeAll(items)|
      ensures Contents() == EncodeAll(Reversed(items)) + old(Contents())
    {
      PrependEachEncodes(Contents(), items);
      for i := 0 to |items|
        invariant Valid() && readIndex - |EncodeAll(items[i..])| == old(readIndex) - |EncodeAll(items)|
        invariant PrependEach(Contents(), items[i..]) == PrependEach(old(Contents()), items)
      {
        assert items[i..][1..] == items[i + 1..];
        PrependInt(items[i]);
      }
    }

    /** Reads one integer of each width; what they are depends on the contents alone. */
    method ReadItems(kinds: seq<Kind>) returns (items: seq<Item>)
      requires Valid() && |Contents()| >= TotalWidth(kinds)
      modifies this`readIndex, this`writeIndex
      ensures Valid() && Kinds(items) == kinds
      ensures old(Contents()) == EncodeAll(items) + Contents()
      ensures (items, Contents()) == ReadAll(kinds, old(Contents()))
    {
      items := [];
      for i := 0 to |kinds|
        invariant Valid() && |Contents()| >= TotalWidth(kinds[i..])
        invariant Kinds(items) == kinds[..i]
        invariant old(Contents()) == EncodeAll(items) + Contents()
      {
        ghost var read := items;
        WidthNext(kinds, i);
        var item := ReadInt(kinds[i]);
        items := items + [item];
        EncodeNext(read, item, Contents());
      }
      assert kinds[..|kinds|] == kinds;
      CodecRoundTrip(items, Contents());
    }

    /** Integers appended to any buffer are read back exactly, before what is appended after them and after
        what was there has been skipped, across any growth and compaction on the way. */
    method AppendThenRead(items: seq<Item>, more: seq<octet>) returns (out: seq<Item>)
      requires Valid()
      modifies this, buffer
      ensures Valid() && SameOrFresh() && out == items && Contents() == more
    {
      var n := writeIndex - readIndex;
      ghost var before := Contents();
      AppendItems(items);
      Write(more);
      Assoc(before, EncodeAll(items), more);
      Skip(n);
      EncodedWidth(items);
      CodecRoundTrip(items, more);
      out := ReadItems(Kinds(items));
    }

    /** Prepended integers are read back last in, first out, and the buffer is then as it was. */
    method PrependThenRead(items: seq<Item>) returns (out: seq<Item>)
      requires Valid() && |EncodeAll(items)| <= readIndex
      modifies this`readIndex, this`writeIndex, buffer
      ensures Valid() && out == Reversed(items) && Contents() == old(Contents())
    {
      PrependItems(items);
      CodecRoundTrip(Reversed(items), old(Contents()));
      EncodedWidth(Reversed(items));
      out := ReadItems(Kinds(Reversed(items)));
    }
  }
}
