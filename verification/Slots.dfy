/** Slot arrays of a power-of-two size, indexed by 32-bit counters that run freely and wrap. */
module Slots {
  import opened Arith
  import opened Bytes

  /** Exactly the values for which `v & (v - 1)` is zero. */
  predicate IsPow2(v: nat) { v == 1 || (v > 0 && v % 2 == 0 && IsPow2(v / 2)) }

  lemma {:induction false} Pow2Divides(v: nat)
    requires IsPow2(v) && v <= U32
    ensures exists m: nat :: v * m == U32
  {
    Pow2Of32();
    Pow2DividesPower(v, 32);
  }

  lemma Pow2Of32()
    ensures Pow2(32) == U32
  {
    assert Pow2(8) == 256;
    assert Pow2(16) == 256 * Pow2(8);
    assert Pow2(24) == 256 * Pow2(16);
    assert Pow2(32) == 256 * Pow2(24);
  }

  lemma {:induction false} Pow2DividesPower(v: nat, k: nat)
    requires IsPow2(v) && v <= Pow2(k)
    ensures exists m: nat :: v * m == Pow2(k)
  {
    if v == 1 {
      assert v * Pow2(k) == Pow2(k);
    } else {
      Pow2DividesPower(v / 2, k - 1);
      var m: nat :| (v / 2) * m == Pow2(k - 1);
      assert v * m == 2 * ((v / 2) * m) by { assert v == 2 * (v / 2); }
    }
  }

  /** The slot mask: for a power of two the low bits are the remainder. */
  function SlotOf(n: nat, cap: nat): (r: nat)
    requires cap > 0
    ensures r < cap
  {
    n % cap
  }

  // Steps of wrapping 32-bit indices.
  lemma WrapStep(n: nat)
    ensures Low32(Low32(n) + 1) == Low32(n + 1)
  {
    WrapAdd(n, 1);
  }

  lemma WrapBack(n: nat, c: nat)
    requires c <= n
    ensures Low32(Low32(n) - c) == Low32(n - c)
  {
    var q := n / U32;
    assert n - c == U32 * q + (Low32(n) - c);
  }

  lemma WrapAdd(n: nat, d: nat)
    ensures Low32(Low32(n) + d) == Low32(n + d)
  {
    var q := n / U32;
    assert n + d == U32 * q + (Low32(n) + d);
  }

  /** Wrapping an index at 2^32 does not move its slot. */
  lemma SlotOfWrapped(n: nat, cap: nat)
    requires 0 < cap < U32 && IsPow2(cap)
    ensures SlotOf(Low32(n), cap) == SlotOf(n, cap)
  {
    Pow2Divides(cap);
    var m: nat :| cap * m == U32;
    var q, r := n / U32, Low32(n);
    var a, b := r / cap, r % cap;
    assert r == cap * a + b;
    assert n == U32 * q + r;
    assert U32 * q == cap * (m * q) by { assert (cap * m) * q == cap * (m * q); }
    assert n == cap * (m * q + a) + b by { assert cap * (m * q + a) == cap * (m * q) + cap * a; }
    QuotientUnique(n, cap, m * q + a, b);
  }

  /** Indices less than a turn apart have different slots. */
  lemma SlotsApart(k: nat, n: nat, cap: nat)
    requires 0 < cap && k < n < k + cap
    ensures SlotOf(k, cap) != SlotOf(n, cap)
  {
    var q, r := k / cap, k % cap;
    assert k == cap * q + r;
    if r + (n - k) < cap {
      QuotientUnique(n, cap, q, r + (n - k));
    } else {
      assert cap * (q + 1) == cap * q + cap;
      QuotientUnique(n, cap, q + 1, r + (n - k) - cap);
    }
  }

  /** An index a whole turn back has the same slot. */
  lemma SlotAround(n: nat, cap: nat)
    requires 0 < cap <= n
    ensures SlotOf(n - cap, cap) == SlotOf(n, cap)
  {
    var q, r := (n - cap) / cap, (n - cap) % cap;
    assert n == cap * (q + 1) + r;
    QuotientUnique(n, cap, q + 1, r);
  }

  lemma SlotBelow(n: nat, cap: nat)
    requires n < cap
    ensures SlotOf(n, cap) == n
  {
  }
}
