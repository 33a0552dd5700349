/**
 The ring of fixed-size elements: free-running 32-bit head and tail counters, and a capacity
 rounded up to a power of two so that the slot of a counter is its low bits.
 */
module FixedRingSpec {
  import opened Bytes
  import opened Slots

  const TWO_31: bv32 := 0x8000_0000

  predicate OneBit(v: bv32) { v != 0 && v & (v - 1) == 0 }

  /** Sets every bit below the highest one of `v - 1`, then adds one. */
  function NextPow2(v: bv32): bv32 {
    var a := v - 1;
    var b := a | (a >> 1);
    var c := b | (b >> 2);
    var d := c | (c >> 4);
    var e := d | (d >> 8);
    var f := e | (e >> 16);
    f + 1
  }

  /**
   Up to 2^31 it is the least power of two that is not smaller; above that no 32-bit number is,
   and the result wraps to 0.
   */
  lemma NextPow2IsLeast(v: bv32)
    requires v != 0
    ensures v <= TWO_31 ==>
              OneBit(NextPow2(v)) && v <= NextPow2(v) && forall p: bv32 :: OneBit(p) && v <= p ==> NextPow2(v) <= p
    ensures v > TWO_31 <==> NextPow2(v) == 0
  {
    forall p: bv32 | v <= TWO_31 && OneBit(p) && v <= p ensures NextPow2(v) <= p {
      LeastAbove(v, p);
    }
  }

  lemma LeastAbove(v: bv32, p: bv32)
    requires v != 0 && v <= TWO_31 && OneBit(p) && v <= p
    ensures NextPow2(v) <= p
  {
  }

  // ---------------------------------------------------------------- slots

  /** The slots hold what was pushed and not yet popped, each element at its index. */
  ghost predicate Holds<T>(slots: seq<T>, all: seq<T>, popped: nat)
    requires |slots| > 0
  {
    forall k: nat {:trigger SlotOf(k, |slots|)} :: popped <= k < |all| ==> slots[SlotOf(k, |slots|)] == all[k]
  }

  lemma HeldAt<T>(slots: seq<T>, all: seq<T>, popped: nat, k: nat)
    requires |slots| > 0 && Holds(slots, all, popped) && popped <= k < |all|
    ensures slots[SlotOf(k, |slots|)] == all[k]
  {
  }

  lemma StoreHolds<T>(slots: seq<T>, all: seq<T>, popped: nat, x: T)
    requires 0 < |slots| && popped <= |all| < popped + |slots| && Holds(slots, all, popped)
    ensures Holds(slots[SlotOf(|all|, |slots|) := x], all + [x], popped)
  {
    var n, cap := |all|, |slots|;
    forall k: nat | popped <= k < n + 1 ensures slots[SlotOf(n, cap) := x][SlotOf(k, cap)] == (all + [x])[k] {
      if k < n { SlotsApart(k, n, cap); }
    }
  }

  lemma CountIsDistance(a: nat, b: nat)
    requires b <= a < b + 0x1_0000_0000
    ensures Low32(Low32(a) - Low32(b)) == a - b
    ensures Low32(a) == Low32(b) <==> a == b
  {
    var p, q := a / 0x1_0000_0000, b / 0x1_0000_0000;
    assert Low32(a) - Low32(b) == (a - b) - (p - q) * 0x1_0000_0000;
  }
}
