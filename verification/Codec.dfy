/** The big-endian integer codec of the socket buffer.  Octets and words are bit vectors, because the
    codec works on bits.  Words are stored little-endian, the byte order of the hosts the library is
    built for. */
module Codec {
  import opened Sequences

  type octet = bv8

  // Byte swapping, as the macro and as the network conversions of a little-endian host.

  function Swap64(x: bv64): bv64 {
    ((x & 0xff00000000000000) >> 56) | ((x & 0x00ff000000000000) >> 40)
    | ((x & 0x0000ff0000000000) >> 24) | ((x & 0x000000ff00000000) >> 8)
    | ((x & 0x00000000ff000000) << 8) | ((x & 0x0000000000ff0000) << 24)
    | ((x & 0x000000000000ff00) << 40) | ((x & 0x00000000000000ff) << 56)
  }

  function Swap32(x: bv32): bv32 {
    ((x & 0xff000000) >> 24) | ((x & 0x00ff0000) >> 8) | ((x & 0x0000ff00) << 8) | ((x & 0x000000ff) << 24)
  }

  function Swap16(x: bv16): bv16 {
    ((x & 0xff00) >> 8) | ((x & 0x00ff) << 8)
  }

  // A word in memory, lowest octet first.

  function Memory64(x: bv64): (m: seq<octet>)
    ensures |m| == 8
  {
    [(x & 0xff) as octet, ((x >> 8) & 0xff) as octet, ((x >> 16) & 0xff) as octet, ((x >> 24) & 0xff) as octet,
     ((x >> 32) & 0xff) as octet, ((x >> 40) & 0xff) as octet, ((x >> 48) & 0xff) as octet, ((x >> 56) & 0xff) as octet]
  }

  function Word64(m: seq<octet>): bv64
    requires |m| == 8
  {
    (m[0] as bv64) | ((m[1] as bv64) << 8) | ((m[2] as bv64) << 16) | ((m[3] as bv64) << 24)
    | ((m[4] as bv64) << 32) | ((m[5] as bv64) << 40) | ((m[6] as bv64) << 48) | ((m[7] as bv64) << 56)
  }

  function Memory32(x: bv32): (m: seq<octet>)
    ensures |m| == 4
  {
    [(x & 0xff) as octet, ((x >> 8) & 0xff) as octet, ((x >> 16) & 0xff) as octet, ((x >> 24) & 0xff) as octet]
  }

  function Word32(m: seq<octet>): bv32
    requires |m| == 4
  {
    (m[0] as bv32) | ((m[1] as bv32) << 8) | ((m[2] as bv32) << 16) | ((m[3] as bv32) << 24)
  }

  function Memory16(x: bv16): (m: seq<octet>)
    ensures |m| == 2
  {
    [(x & 0xff) as octet, ((x >> 8) & 0xff) as octet]
  }

  function Word16(m: seq<octet>): bv16
    requires |m| == 2
  {
    (m[0] as bv16) | ((m[1] as bv16) << 8)
  }

  /** Integers of the four widths, as the codec appends, prepends and reads them. */
  datatype Item = Int64(x64: bv64) | Int32(x32: bv32) | Int16(x16: bv16) | Int8(x8: bv8)

  datatype Kind = Kind64 | Kind32 | Kind16 | Kind8

  function KindOf(item: Item): Kind {
    match item
    case Int64(_) => Kind64
    case Int32(_) => Kind32
    case Int16(_) => Kind16
    case Int8(_) => Kind8
  }

  function Width(kind: Kind): nat {
    match kind
    case Kind64 => 8
    case Kind32 => 4
    case Kind16 => 2
    case Kind8 => 1
  }

  /** Network order: octet `i` of an integer of `n` octets holds its bits from `8 * (n - 1 - i)` up. */
  function BigEndian(item: Item): (s: seq<octet>)
    ensures |s| == Width(KindOf(item))
  {
    match item
    case Int64(x) =>
      [(x >> 56) as octet, ((x >> 48) & 0xff) as octet, ((x >> 40) & 0xff) as octet, ((x >> 32) & 0xff) as octet,
       ((x >> 24) & 0xff) as octet, ((x >> 16) & 0xff) as octet, ((x >> 8) & 0xff) as octet, (x & 0xff) as octet]
    case Int32(x) => [(x >> 24) as octet, ((x >> 16) & 0xff) as octet, ((x >> 8) & 0xff) as octet, (x & 0xff) as octet]
    case Int16(x) => [(x >> 8) as octet, (x & 0xff) as octet]
    case Int8(x) => [x]
  }

  /** What the append methods store: the memory of the swapped integer. */
  function Stored(item: Item): (s: seq<octet>) {
    match item
    case Int64(x) => Memory64(Swap64(x))
    case Int32(x) => Memory32(Swap32(x))
    case Int16(x) => Memory16(Swap16(x))
    case Int8(x) => [x]
  }

  /** What the peek methods return: the swap of the word loaded from memory. */
  function Loaded(kind: Kind, s: seq<octet>): (item: Item)
    requires |s| == Width(kind)
    ensures KindOf(item) == kind
  {
    match kind
    case Kind64 => Int64(Swap64(Word64(s)))
    case Kind32 => Int32(Swap32(Word32(s)))
    case Kind16 => Int16(Swap16(Word16(s)))
    case Kind8 => Int8(s[0])
  }

  lemma SwapInvolution(x: bv64, y: bv32, z: bv16)
    ensures Swap64(Swap64(x)) == x && Swap32(Swap32(y)) == y && Swap16(Swap16(z)) == z
  {}

  lemma Memory64Inverse(x: bv64)
    ensures Word64(Memory64(x)) == x
  {}

  lemma Memory32Inverse(x: bv32, y: bv16)
    ensures Word32(Memory32(x)) == x && Word16(Memory16(y)) == y
  {}

  /** Swapping and then storing on a little-endian host puts the most significant octet first. */
  lemma StoresBigEndian(item: Item)
    ensures Stored(item) == BigEndian(item)
  {
    match item
    case Int64(x) => Stores64(x);
    case Int32(x) => Stores32(x);
    case Int16(x) => Stores16(x);
    case Int8(_) =>
  }

  lemma Stores64(x: bv64)
    ensures Memory64(Swap64(x)) == BigEndian(Int64(x))
  {
    SwappedLow(x);
    SwappedHigh(x);
  }

  lemma SwappedLow(x: bv64)
    ensures Swap64(x) & 0xff == x >> 56 && (Swap64(x) >> 8) & 0xff == (x >> 48) & 0xff
    ensures (Swap64(x) >> 16) & 0xff == (x >> 40) & 0xff && (Swap64(x) >> 24) & 0xff == (x >> 32) & 0xff
  {}

  lemma SwappedHigh(x: bv64)
    ensures (Swap64(x) >> 32) & 0xff == (x >> 24) & 0xff && (Swap64(x) >> 40) & 0xff == (x >> 16) & 0xff
    ensures (Swap64(x) >> 48) & 0xff == (x >> 8) & 0xff && (Swap64(x) >> 56) & 0xff == x & 0xff
  {}

  lemma Stores32(x: bv32)
    ensures Memory32(Swap32(x)) == BigEndian(Int32(x))
  {}

  lemma Stores16(x: bv16)
    ensures Memory16(Swap16(x)) == BigEndian(Int16(x))
  {}

  /** Reading what was stored gives the integer back. */
  lemma LoadInvertsStore(item: Item)
    ensures Loaded(KindOf(item), BigEndian(item)) == item
  {
    StoresBigEndian(item);
    match item
    case Int64(x) =>
      SwapInvolution(x, 0, 0);
      Memory64Inverse(Swap64(x));
    case Int32(x) =>
      SwapInvolution(0, x, 0);
      Memory32Inverse(Swap32(x), 0);
    case Int16(x) =>
      SwapInvolution(0, 0, x);
      Memory32Inverse(0, Swap16(x));
    case Int8(_) =>
  }

  /** Storing what was read gives the octets back, so every octet string is read as some integer. */
  lemma StoreInvertsLoad(kind: Kind, s: seq<octet>)
    requires |s| == Width(kind)
    ensures BigEndian(Loaded(kind, s)) == s
  {
    match kind
    case Kind64 =>
      SwapInvolution(Word64(s), 0, 0);
      WordInverse64(s);
      StoresBigEndian(Loaded(kind, s));
    case Kind32 =>
      SwapInvolution(0, Word32(s), 0);
      WordInverse32(s);
      StoresBigEndian(Loaded(kind, s));
    case Kind16 =>
      SwapInvolution(0, 0, Word16(s));
      WordInverse16(s);
      StoresBigEndian(Loaded(kind, s));
    case Kind8 =>
  }

  lemma WordInverse64(m: seq<octet>)
    requires |m| == 8
    ensures Memory64(Word64(m)) == m
  {
    WordLow(m);
    WordHigh(m);
  }

  lemma WordLow(m: seq<octet>)
    requires |m| == 8
    ensures Memory64(Word64(m))[..4] == m[..4]
  {
    var w := Memory64(Word64(m));
    assert w[0] == m[0] && w[1] == m[1] && w[2] == m[2] && w[3] == m[3];
  }

  lemma WordHigh(m: seq<octet>)
    requires |m| == 8
    ensures Memory64(Word64(m))[4..] == m[4..]
  {
    var w := Memory64(Word64(m));
    assert w[4] == m[4] && w[5] == m[5] && w[6] == m[6] && w[7] == m[7];
  }

  lemma WordInverse32(m: seq<octet>)
    requires |m| == 4
    ensures Memory32(Word32(m)) == m
  {}

  lemma WordInverse16(m: seq<octet>)
    requires |m| == 2
    ensures Memory16(Word16(m)) == m
  {}

  // Network order as arithmetic.

  /** The integer of an item, in 64 bits. */
  function Integer(item: Item): bv64 {
    match item
    case Int64(x) => x
    case Int32(x) => x as bv64
    case Int16(x) => x as bv64
    case Int8(x) => x as bv64
  }

  /** The number with one more digit in base 256. */
  function Push(n: bv64, b: octet): bv64 {
    256 * n + b as bv64
  }

  /** Octets as the digits of a number in base 256, the most significant first. */
  function Digits(s: seq<octet>): bv64 {
    if s == [] then 0 else Push(Digits(s[..|s| - 1]), s[|s| - 1])
  }

  lemma DigitsSnoc(s: seq<octet>, b: octet, t: seq<octet>)
    requires t == s + [b]
    ensures Digits(t) == Push(Digits(s), b)
  {
    assert t[..|s|] == s;
  }

  lemma DigitsOf2(a: octet, b: octet)
    ensures Digits([a, b]) == Push(Push(0, a), b)
  {
    DigitsSnoc([], a, [a]);
    DigitsSnoc([a], b, [a, b]);
  }

  lemma DigitsOf4(a: octet, b: octet, c: octet, d: octet)
    ensures Digits([a, b, c, d]) == Push(Push(Push(Push(0, a), b), c), d)
  {
    DigitsOf2(a, b);
    DigitsSnoc([a, b], c, [a, b, c]);
    DigitsSnoc([a, b, c], d, [a, b, c, d]);
  }

  lemma DigitsGrow(s: seq<octet>, a: octet, b: octet, c: octet, d: octet)
    ensures Digits(s + [a, b, c, d]) == Push(Push(Push(Push(Digits(s), a), b), c), d)
  {
    DigitsSnoc(s, a, s + [a]);
    DigitsSnoc(s + [a], b, s + [a, b]);
    DigitsSnoc(s + [a, b], c, s + [a, b, c]);
    DigitsSnoc(s + [a, b, c], d, s + [a, b, c, d]);
  }

  lemma Digits64(x: bv64)
    ensures Digits(BigEndian(Int64(x))) == x
  {
    var s := BigEndian(Int64(x));
    DigitsOf4(s[0], s[1], s[2], s[3]);
    DigitsGrow([s[0], s[1], s[2], s[3]], s[4], s[5], s[6], s[7]);
    assert s == [s[0], s[1], s[2], s[3]] + [s[4], s[5], s[6], s[7]];
    Pushed64(x);
  }

  lemma Pushed64(x: bv64)
    ensures var s := BigEndian(Int64(x));
            Push(Push(Push(Push(Push(Push(Push(Push(0, s[0]), s[1]), s[2]), s[3]), s[4]), s[5]), s[6]), s[7]) == x
  {}

  lemma Digits32(x: bv32)
    ensures Digits(BigEndian(Int32(x))) == x as bv64
  {
    var s := BigEndian(Int32(x));
    DigitsOf4(s[0], s[1], s[2], s[3]);
    Pushed32(x);
  }

  lemma Pushed32(x: bv32)
    ensures var s := BigEndian(Int32(x)); Push(Push(Push(Push(0, s[0]), s[1]), s[2]), s[3]) == x as bv64
  {}

  lemma Digits16(x: bv16)
    ensures Digits(BigEndian(Int16(x))) == x as bv64
  {
    var s := BigEndian(Int16(x));
    DigitsOf2(s[0], s[1]);
  }

  /** The octets of an integer in network order are its digits in base 256. */
  lemma BigEndianDigits(item: Item)
    ensures Digits(BigEndian(item)) == Integer(item)
  {
    match item
    case Int64(x) => Digits64(x);
    case Int32(x) => Digits32(x);
    case Int16(x) => Digits16(x);
    case Int8(x) => DigitsSnoc([], x, [x]);
  }

  function EncodeAll(items: seq<Item>): seq<octet> {
    if items == [] then [] else BigEndian(items[0]) + EncodeAll(items[1..])
  }

  function Kinds(items: seq<Item>): seq<Kind> {
    if items == [] then [] else [KindOf(items[0])] + Kinds(items[1..])
  }

  function TotalWidth(kinds: seq<Kind>): nat {
    if kinds == [] then 0 else Width(kinds[0]) + TotalWidth(kinds[1..])
  }

  lemma {:induction false} EncodedWidth(items: seq<Item>)
    ensures |EncodeAll(items)| == TotalWidth(Kinds(items))
  {
    if items == [] {
    } else {
      EncodedWidth(items[1..]);
      assert Kinds(items)[1..] == Kinds(items[1..]);
    }
  }

  /** Successive reads of the given widths, and the octets after them; nothing if they run out. */
  function ReadAll(kinds: seq<Kind>, s: seq<octet>): (r: (seq<Item>, seq<octet>))
    decreases |kinds|
  {
    if kinds == [] then ([], s)
    else
      var n := Width(kinds[0]);
      if |s| < n then ([], s)
      else
        var (items, rest) := ReadAll(kinds[1..], s[n..]);
        ([Loaded(kinds[0], s[..n])] + items, rest)
  }

  /** Any mix of appended integers is read back exactly by the matching reads, whatever follows them. */
  lemma {:induction false} CodecRoundTrip(items: seq<Item>, rest: seq<octet>)
    ensures ReadAll(Kinds(items), EncodeAll(items) + rest) == (items, rest)
  {
    if items == [] {
      assert EncodeAll(items) + rest == rest;
    } else {
      var b, more, kinds := BigEndian(items[0]), EncodeAll(items[1..]), Kinds(items);
      assert kinds[0] == KindOf(items[0]) && kinds[1..] == Kinds(items[1..]);
      Assoc(b, more, rest);
      var s := (b + more) + rest;
      assert s[..|b|] == b && s[|b|..] == more + rest;
      LoadInvertsStore(items[0]);
      CodecRoundTrip(items[1..], rest);
      assert [items[0]] + items[1..] == items;
    }
  }

  /** Contents after appending or prepending integers one by one. */
  function AppendEach(s: seq<octet>, items: seq<Item>): seq<octet>
    decreases |items|
  {
    if items == [] then s else AppendEach(s + BigEndian(items[0]), items[1..])
  }

  function PrependEach(s: seq<octet>, items: seq<Item>): seq<octet>
    decreases |items|
  {
    if items == [] then s else PrependEach(BigEndian(items[0]) + s, items[1..])
  }

  function Reversed(items: seq<Item>): (r: seq<Item>) {
    if items == [] then [] else Reversed(items[1..]) + [items[0]]
  }

  /** Appending integers one by one leaves them in order, behind what the buffer held. */
  lemma {:induction false} AppendEachEncodes(s: seq<octet>, items: seq<Item>)
    ensures AppendEach(s, items) == s + EncodeAll(items)
    decreases |items|
  {
    if items == [] {
      assert s + [] == s;
    } else {
      AppendEachEncodes(s + BigEndian(items[0]), items[1..]);
      Assoc(s, BigEndian(items[0]), EncodeAll(items[1..]));
    }
  }

  lemma {:induction false} EncodeAppend(a: seq<Item>, b: seq<Item>)
    ensures EncodeAll(a + b) == EncodeAll(a) + EncodeAll(b)
  {
    if a == [] {
      assert a + b == b;
    } else {
      assert (a + b)[0] == a[0] && (a + b)[1..] == a[1..] + b;
      EncodeAppend(a[1..], b);
      Assoc(BigEndian(a[0]), EncodeAll(a[1..]), EncodeAll(b));
    }
  }

  lemma {:induction false} KindsAppend(a: seq<Item>, b: seq<Item>)
    ensures Kinds(a + b) == Kinds(a) + Kinds(b)
  {
    if a == [] {
      assert a + b == b;
    } else {
      assert (a + b)[0] == a[0] && (a + b)[1..] == a[1..] + b;
      KindsAppend(a[1..], b);
    }
  }

  lemma EncodeSnoc(items: seq<Item>, item: Item)
    ensures EncodeAll(items + [item]) == EncodeAll(items) + BigEndian(item)
    ensures Kinds(items + [item]) == Kinds(items) + [KindOf(item)]
  {
    EncodeAppend(items, [item]);
    KindsAppend(items, [item]);
    assert EncodeAll([item]) == BigEndian(item) + EncodeAll([]) == BigEndian(item);
  }

  /** Reading one more integer off what follows those read. */
  lemma EncodeNext(read: seq<Item>, item: Item, rest: seq<octet>)
    ensures EncodeAll(read + [item]) + rest == EncodeAll(read) + (BigEndian(item) + rest)
    ensures Kinds(read + [item]) == Kinds(read) + [KindOf(item)]
  {
    EncodeSnoc(read, item);
    Assoc(EncodeAll(read), BigEndian(item), rest);
  }

  lemma WidthNext(kinds: seq<Kind>, i: nat)
    requires i < |kinds|
    ensures TotalWidth(kinds[i..]) == Width(kinds[i]) + TotalWidth(kinds[i + 1..])
    ensures kinds[..i + 1] == kinds[..i] + [kinds[i]]
  {
    assert kinds[i..][0] == kinds[i] && kinds[i..][1..] == kinds[i + 1..];
  }

  /** Prepending integers one by one leaves them last in, first out, before what the buffer held. */
  lemma {:induction false} PrependEachEncodes(s: seq<octet>, items: seq<Item>)
    ensures PrependEach(s, items) == EncodeAll(Reversed(items)) + s
    decreases |items|
  {
    if items == [] {
      assert [] + s == s;
    } else {
      var b, r := BigEndian(items[0]), Reversed(items[1..]);
      PrependEachEncodes(b + s, items[1..]);
      EncodeAppend(r, [items[0]]);
      assert EncodeAll([items[0]]) == b + EncodeAll([]) == b;
      Assoc(EncodeAll(r), b, s);
    }
  }
}
