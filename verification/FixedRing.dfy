/** The ring with its slots and its two wrapping counters. */
module FixedRing {
  import opened Bytes
  import opened FixedRingSpec
  import opened Slots

  class Ring<T(0)> {
    const buf: array<T>
    var head: nat
    var tail: nat
    /** Everything ever pushed, and how much of it was popped. */
    ghost var all: seq<T>
    ghost var popped: nat

    ghost predicate Valid()
      reads this, buf
    {
      && 0 < buf.Length < U32 && IsPow2(buf.Length)
      && head == Low32(|all|) && tail == Low32(popped)
      && popped <= |all| <= popped + buf.Length
      && Holds(buf[..], all, popped)
    }

    ghost function Contents(): seq<T>
      reads this, buf
      requires Valid()
    {
      all[popped..]
    }

    constructor (capacity: nat)
      requires 0 < capacity < U32 && IsPow2(capacity)
      ensures Valid() && Contents() == [] && fresh(buf) && buf.Length == capacity
    {
      buf := new T[capacity];
      head, tail := 0, 0;
      all, popped := [], 0;
    }

    method Count() returns (n: nat)
      requires Valid()
      ensures n == |Contents()|
    {
      CountIsDistance(|all|, popped);
      n := Low32(head - tail);
    }

    method Push(x: T) returns (ok: bool)
      requires Valid()
      modifies this`head, this`all, buf
      ensures Valid() && ok == (|old(Contents())| < buf.Length)
      ensures Contents() == old(Contents()) + if ok then [x] else []
    {
      var n := Count();
      if n >= buf.Length { return false; }
      SlotOfWrapped(|all|, buf.Length);
      StoreHolds(buf[..], all, popped, x);
      WrapStep(|all|);
      hide Low32, SlotOf, IsPow2, Holds;
      buf[SlotOf(head, buf.Length)] := x;
      head := Low32(head + 1);
      all := all + [x];
      ok := true;
    }

    method Pop() returns (ok: bool, x: T)
      requires Valid()
      modifies this`tail, this`popped
      ensures Valid() && ok == (old(Contents()) != [])
      ensures if ok then old(Contents()) == [x] + Contents() else Contents() == old(Contents())
    {
      CountIsDistance(|all|, popped);
      if head == tail {
        x := buf[0];
        return false, x;
      }
      SlotOfWrapped(popped, buf.Length);
      WrapStep(popped);
      hide Low32, SlotOf, IsPow2;
      x := buf[SlotOf(tail, buf.Length)];
      HeldAt(buf[..], all, popped, popped);
      tail := Low32(tail + 1);
      popped := popped + 1;
      ok := true;
    }
  }
}
