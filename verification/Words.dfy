/** Fixed-width machine arithmetic: bytes, wrapping `uint32_t` counters and bit masks. */
module Words {
  type byte = x: int | 0 <= x < 0x100

  const TWO32: int := 0x1_0000_0000
  type u32 = x: int | 0 <= x < 0x1_0000_0000

  // `uint32_t` addition and subtraction wrap modulo 2^32.
  function Add32(a: u32, b: u32): u32 {
    if a + b < TWO32 then a + b else a + b - TWO32
  }

  function Sub32(a: u32, b: u32): u32 {
    if a >= b then a - b else a - b + TWO32
  }

  lemma WrapIsModulo(a: u32, b: u32)
    ensures Add32(a, b) == (a + b) % 0x1_0000_0000
    ensures Sub32(a, b) == (a - b) % 0x1_0000_0000
  {}

  lemma CounterDistance(a: u32, b: u32, n: nat)
    requires n < TWO32
    ensures Add32(a, Sub32(b, a)) == b
    ensures Sub32(b, a) + n < TWO32 ==> Sub32(Add32(b, n), a) == Sub32(b, a) + n
    ensures n <= Sub32(b, a) ==> Sub32(b, Add32(a, n)) == Sub32(b, a) - n
  {}

  /** Wrapping counters give the exact distance of two totals less than 2^32 apart. */
  lemma WrappedDistance(r: nat, w: nat)
    requires r <= w < r + TWO32
    ensures Sub32(w % 0x1_0000_0000, r % 0x1_0000_0000) == w - r
  {}

  /** Advancing a total advances its wrapping counter. */
  lemma WrappedAdvance(total: nat, n: nat)
    requires n < TWO32
    ensures Add32(total % 0x1_0000_0000, n) == (total + n) % 0x1_0000_0000
  {}

  function Pow2(k: nat): (p: nat)
    ensures p > 0
  {
    if k == 0 then 1 else 2 * Pow2(k - 1)
  }

  /** Bitwise conjunction, one binary digit at a time. */
  function And(a: nat, b: nat): nat {
    if a == 0 || b == 0 then 0
    else 2 * And(a / 2, b / 2) + (if a % 2 == 1 && b % 2 == 1 then 1 else 0)
  }

  /** Slot of a ring reached by stepping past the end of the array at most once. */
  function WrapIndex(x: nat, capacity: nat): (i: nat)
    requires x < 2 * capacity
    ensures i < capacity
  {
    if x < capacity then x else x - capacity
  }

  lemma MultipleBound(e: int, d: int)
    requires d > 0
    ensures e >= 1 ==> e * d >= d
    ensures e <= -1 ==> e * d <= -d
  {}

  lemma ModUnique(a: int, d: int, q: int, r: int)
    requires a == q * d + r && 0 <= r < d
    ensures a % d == r && a / d == q
  {
    var e := a / d - q;
    assert e * d == r - a % d;
    MultipleBound(e, d);
  }

  lemma ModMultiple(a: int, q: int, d: int)
    requires d > 0
    ensures (a + q * d) % d == a % d
  {
    var p := a / d;
    assert a + q * d == (p + q) * d + a % d;
    ModUnique(a + q * d, d, p + q, a % d);
  }

  lemma DoubleMod(a: nat, p: nat)
    requires p > 0
    ensures a % (2 * p) == 2 * (a / 2 % p) + a % 2
  {
    var q, r := a / 2 / p, a / 2 % p;
    assert a / 2 == q * p + r;
    assert 2 * (q * p) == q * (2 * p);
    ModUnique(a, 2 * p, q, 2 * r + a % 2);
  }

  /** Masking with a power of two minus one is the remainder. */
  lemma {:induction false} AndMask(a: nat, k: nat)
    ensures And(a, Pow2(k) - 1) == a % Pow2(k)
  {
    if k == 0 || a == 0 {
      ModUnique(a, Pow2(k), if a == 0 then 0 else a, 0);
    } else {
      var p := Pow2(k - 1);
      assert Pow2(k) - 1 == 2 * (p - 1) + 1;
      assert (Pow2(k) - 1) / 2 == p - 1 && (Pow2(k) - 1) % 2 == 1;
      AndMask(a / 2, k - 1);
      DoubleMod(a, p);
    }
  }

  lemma {:induction false} Pow2Add(a: nat, b: nat)
    ensures Pow2(a + b) == Pow2(a) * Pow2(b)
  {
    if a == 0 {
    } else {
      Pow2Add(a - 1, b);
    }
  }

  /** A counter that has wrapped past 2^32 still selects the slot of the unbounded total. */
  lemma MaskOfTotal(total: nat, k: nat)
    requires k <= 32
    ensures And(total % TWO32, Pow2(k) - 1) == total % Pow2(k)
  {
    Pow2Is32();
    Pow2Add(32 - k, k);
    ModOfMod(total, Pow2(32 - k), Pow2(k));
    AndMask(total % TWO32, k);
  }

  lemma ModOfMod(a: nat, m: nat, p: nat)
    requires m > 0 && p > 0 && m * p > 0
    ensures a % (m * p) % p == a % p
  {
    var q := a / (m * p);
    MulAssoc(q, m, p);
    ModMultiple(a % (m * p), q * m, p);
  }

  lemma MulAssoc(a: int, b: int, c: int)
    ensures a * (b * c) == a * b * c
  {}

  lemma Pow2Is32()
    ensures Pow2(32) == TWO32
  {
    assert Pow2(8) == 0x100;
    Pow2Add(8, 8);
    Pow2Add(16, 16);
  }

  lemma Pow2Fits(k: nat)
    requires k <= 31
    ensures Pow2(k) <= 0x8000_0000
  {
    Pow2Is32();
    Pow2Monotone(k, 31);
  }

  lemma {:induction false} Pow2Monotone(a: nat, b: nat)
    requires a <= b
    ensures Pow2(a) <= Pow2(b)
  {
    if a == b {
    } else {
      Pow2Monotone(a, b - 1);
    }
  }

  /** Advancing a total by at most one lap advances its slot with at most one wrap. */
  lemma SlotAdvance(total: nat, len: nat, capacity: nat)
    requires 0 < capacity && len <= capacity
    ensures total % capacity + len < 2 * capacity
    ensures (total + len) % capacity == WrapIndex(total % capacity + len, capacity)
  {
    var q, r := total / capacity, total % capacity;
    if r + len < capacity {
      ModUnique(total + len, capacity, q, r + len);
    } else {
      assert total + len == (q + 1) * capacity + (r + len - capacity);
      ModUnique(total + len, capacity, q + 1, r + len - capacity);
    }
  }

  /** Two totals less than one lap apart occupy different slots. */
  lemma SlotsDiffer(i: nat, j: nat, capacity: nat)
    requires 0 < capacity && i < j < i + capacity
    ensures i % capacity != j % capacity
  {
    SlotAdvance(i, j - i, capacity);
  }
}
