/** The reorder buffer as the code keeps it: an array of slots, the next expected number, a deadline. */
module Jitter {
  // Slots are indexed by the low seven bits of the 16-bit sequence number. Ghost fields carry the unwrapped
  // number and the held packets; every method takes the abstract state to the successor that `JitterSpec`
  // defines.

  import opened Bytes
  import opened JitterSpec

  datatype Slot = Slot(pkt: Packet, valid: bool)

  const NO_PACKET := Packet([], false)

  /** The number in the window that starts at `next` whose slot is `i`. */
  ghost function NumberAt(next: int, i: int): int {
    if i >= SlotOf(next) then next + i - SlotOf(next) else next + 128 + i - SlotOf(next)
  }

  ghost predicate SlotHolds(slot: Slot, held: map<int, Packet>, u: int) {
    && (slot.valid <==> u in held)
    && (u in held ==> slot.pkt == held[u])
  }

  lemma NumberAtSlot(next: int, u: int)
    requires next <= u < next + 128
    ensures NumberAt(next, SlotOf(u)) == u
  {
  }

  /** The slot mask sees only the low bits, which the 16-bit wrap keeps. */
  lemma SlotOfWire(n: int)
    ensures SlotOf(Low16(n)) == SlotOf(n)
    ensures Low16(Low16(n) + 1) == Low16(n + 1)
  {
    Low16Step(n);
    SlotOfLow(n);
    hide SlotOf, Low16;
  }

  lemma SlotOfLow(n: int)
    ensures SlotOf(Low16(n)) == SlotOf(n)
  {
    var q := n / 0x1_0000;
    assert n == 0x1_0000 * q + Low16(n);
    assert n == 128 * (512 * q) + Low16(n);
  }

  /** Moving the window by one gives the slot it leaves a new number and keeps all others. */
  lemma NumberAtNext(next: int, i: int)
    requires 0 <= i < 128
    ensures NumberAt(next + 1, i) == if i == SlotOf(next) then next + 128 else NumberAt(next, i)
  {
  }

  /** A window of slots holds exactly `held`, each packet at its number. */
  ghost predicate SlotsHold(slots: seq<Slot>, held: map<int, Packet>, next: int) {
    |slots| == 128
    && forall i {:trigger SlotHolds(slots[i], held, NumberAt(next, i))} :: 0 <= i < 128 ==>
         SlotHolds(slots[i], held, NumberAt(next, i))
  }

  lemma Vacate(slots: seq<Slot>, held: map<int, Packet>, next: int)
    requires SlotsHold(slots, held, next) && forall u :: u in held ==> next <= u < next + 128
    ensures SlotsHold(slots[SlotOf(next) := slots[SlotOf(next)].(valid := false)], held - {next}, next + 1)
  {
    var now := slots[SlotOf(next) := slots[SlotOf(next)].(valid := false)];
    forall i | 0 <= i < 128 ensures SlotHolds(now[i], held - {next}, NumberAt(next + 1, i)) {
      NumberAtNext(next, i);
      assert SlotHolds(slots[i], held, NumberAt(next, i));
    }
  }

  lemma PassOver(slots: seq<Slot>, held: map<int, Packet>, next: int)
    requires SlotsHold(slots, held, next) && next !in held && forall u :: u in held ==> next <= u < next + 128
    ensures SlotsHold(slots, held, next + 1)
  {
    forall i | 0 <= i < 128 ensures SlotHolds(slots[i], held, NumberAt(next + 1, i)) {
      NumberAtNext(next, i);
      assert SlotHolds(slots[i], held, NumberAt(next, i));
    }
  }

  lemma NumberAtInjective(next: int, i: int, j: int)
    requires 0 <= i < 128 && 0 <= j < 128 && NumberAt(next, i) == NumberAt(next, j)
    ensures i == j
  {
  }

  lemma Fill(slots: seq<Slot>, held: map<int, Packet>, next: int, u: int, p: Packet)
    requires SlotsHold(slots, held, next) && next <= u < next + 128
    ensures SlotsHold(slots[SlotOf(u) := Slot(p, true)], held[u := p], next)
  {
    forall i | 0 <= i < 128 ensures SlotHolds(slots[SlotOf(u) := Slot(p, true)][i], held[u := p], NumberAt(next, i)) {
      NumberAtSlot(next, u);
      assert SlotHolds(slots[i], held, NumberAt(next, i));
      if NumberAt(next, i) == u { NumberAtInjective(next, i, SlotOf(u)); }
    }
  }

  /** The 16-bit difference to the wire number is the distance to the unwrapped one. */
  lemma WireDistance(seq16: nat, n: int)
    requires seq16 < 0x1_0000
    ensures Low16(seq16 - Low16(n)) == Low16(seq16 - n)
    ensures seq16 == Low16(n) <==> Low16(seq16 - n) == 0
    ensures Low16(n + Low16(seq16 - n)) == seq16
    ensures SlotOf(seq16) == SlotOf(n + Low16(seq16 - n))
  {
    hide SlotOf;
    var q, d := n / 0x1_0000, Low16(seq16 - n);
    assert n == 0x1_0000 * q + Low16(n);
    assert seq16 - Low16(n) == seq16 - n + 0x1_0000 * q;
    Low16Shift(seq16 - n, q);
    var p := (seq16 - n) / 0x1_0000;
    assert n + d == seq16 + 0x1_0000 * (0 - p);
    Low16Shift(seq16, 0 - p);
    SlotOfLow(n + d);
  }

  lemma TickStep(n: nat, k: nat)
    ensures Low32(Tick(n, k) + 1) == Tick(n, k + 1)
  {
  }

  class Jitter {
    const slots: array<Slot>
    var nextSeq: nat
    var pending: nat
    var initialized: bool
    var gapTs: nat
    var gapTimeoutMs: nat
    var cached: nat
    var skipped: nat
    var stale: nat
    var reanchors: nat

    ghost var next: int                   // the expected number, unwrapped
    ghost var held: map<int, Packet>      // what the slots hold, by unwrapped number
    ghost var out: seq<Numbered>          // what the callback was given, in order

    ghost function Abs(): JState
      reads this
    {
      JState(initialized, next, held, gapTs, gapTimeoutMs, cached, skipped, stale, reanchors, out)
    }

    /** The slots hold exactly the held packets, each at its number modulo the window. */
    ghost predicate Repr()
      reads this, slots
    {
      && slots.Length == CAP
      && nextSeq == Low16(next)
      && pending == |held|
      && (forall u :: u in held ==> next <= u < next + CAP)
      && SlotsHold(slots[..], held, next)
      && skipped < U32
    }

    ghost predicate Valid()
      reads this, slots
    {
      Repr() && Windowed(Abs()) && gapTs < U32
    }

    constructor (gapTimeoutMs: nat)
      ensures Valid() && fresh(slots) && Abs() == FRESH.(timeout := gapTimeoutMs)
    {
      slots := new Slot[CAP](_ => Slot(NO_PACKET, false));
      nextSeq, pending, initialized, gapTs := 0, 0, false, 0;
      this.gapTimeoutMs := gapTimeoutMs;
      cached, skipped, stale, reanchors := 0, 0, 0, 0;
      next, held, out := 0, map[], [];
    }

    /** The slot of the expected number is full exactly when that number is held. */
    lemma NextSlot()
      requires Repr()
      ensures SlotOf(nextSeq) < slots.Length
      ensures SlotHolds(slots[SlotOf(nextSeq)], held, next)
    {
      SlotOfWire(next);
      NumberAtSlot(next, next);
    }

    method Drain()
      requires Repr()
      modifies this, slots
      ensures Repr() && Abs() == JitterSpec.Drain(old(Abs()))
      ensures old(gapTs) < U32 ==> gapTs < U32
    {
      NextSlot();
      while slots[SlotOf(nextSeq)].valid
        invariant Repr() && JitterSpec.Drain(Abs()) == JitterSpec.Drain(old(Abs()))
        invariant SlotHolds(slots[SlotOf(nextSeq)], held, next)
        invariant gapTs == old(gapTs)
        decreases |held|
      {
        ReleaseSlot();
        NextSlot();
      }
      if pending == 0 { gapTs := 0; }
    }

    /** Emits the packet of the expected number out of its slot. */
    method ReleaseSlot()
      requires Repr() && next in held
      modifies this, slots
      ensures Repr() && |held| < old(|held|) && gapTs == old(gapTs)
      ensures Abs() == Emit(old(Abs()).(cache := old(held) - {old(next)}), old(held[next]))
    {
      hide SlotHolds, Low16;
      NextSlot();
      SlotOfWire(next);
      Vacate(slots[..], held, next);
      hide SlotsHold;
      ghost var was := slots[..];
      var i := SlotOf(nextSeq);
      out := out + [(next, slots[i].pkt)];
      slots[i] := slots[i].(valid := false);
      assert slots[..] == was[i := was[i].(valid := false)];
      if pending > 0 { pending := pending - 1; }
      nextSeq := Low16(nextSeq + 1);
      assert (held - {next}).Keys == held.Keys - {next};
      held := held - {next};
      next := next + 1;
    }

    method SkipGap()
      requires Repr() && held != map[] && forall u :: u in held ==> next < u
      modifies this, slots
      ensures Repr() && Abs() == JitterSpec.SkipGap(old(Abs()))
      ensures old(gapTs) < U32 ==> gapTs < U32
    {
      FirstHeldFound(held, next);
      PassMissing(FirstHeld(held, next, CAP));
      assert Abs() == SkipTo(old(Abs()));
      Drain();
    }

    /** Gives up missing numbers one by one until the expected one is held. */
    method PassMissing(ghost k: int)
      requires Repr() && k in held && next < k && forall u :: next <= u < k ==> u !in held
      modifies `next, `nextSeq, `skipped
      ensures Repr()
      ensures Abs() == old(Abs()).(next := k, skipped := Tick(old(skipped), k - old(next)))
    {
      NextSlot();
      while !slots[SlotOf(nextSeq)].valid
        invariant Repr() && SlotHolds(slots[SlotOf(nextSeq)], held, next)
        invariant old(next) <= next <= k
        invariant skipped == Tick(old(skipped), next - old(next))
        decreases k - next
      {
        TickStep(old(skipped), next - old(next));
        Advance();
        NextSlot();
      }
    }

    /** Passes over one missing number. */
    method Advance()
      requires Repr() && next !in held
      modifies `next, `nextSeq, `skipped
      ensures Repr() && next == old(next) + 1 && skipped == Low32(old(skipped) + 1)
    {
      SlotOfWire(next);
      PassOver(slots[..], held, next);
      nextSeq := Low16(nextSeq + 1);
      skipped := Low32(skipped + 1);
      next := next + 1;
    }

    /** Hands the packet of the expected number to the callback without caching it. */
    method EmitDirect(pkt: Packet)
      requires Repr() && next !in held
      modifies this
      ensures Repr() && Abs() == Emit(old(Abs()), pkt)
    {
      SlotOfWire(next);
      PassOver(slots[..], held, next);
      nextSeq := Low16(nextSeq + 1);
      out := out + [(next, pkt)];
      next := next + 1;
    }

    /** Drops all stream state and keeps the configured deadline. */
    method Reset()
      requires Repr()
      modifies this, slots
      ensures Valid() && Abs() == JitterSpec.Reset(old(Abs()))
    {
      hide SlotsHold;
      ClearSlots();
      nextSeq, initialized, gapTs := 0, false, 0;
      cached, skipped, stale, reanchors := 0, 0, 0, 0;
    }

    method ClearSlots()
      requires slots.Length == CAP
      modifies slots, `pending, `held, `next
      ensures pending == 0 && held == map[] && next == 0 && SlotsHold(slots[..], held, next)
    {
      forall i | 0 <= i < slots.Length { slots[i] := Slot(NO_PACKET, false); }
      pending, held, next := 0, map[], 0;
    }

    /** Without held packets the window may start anywhere. */
    method Anchor(seq16: nat, ghost at: int)
      requires Repr() && held == map[] && seq16 == Low16(at)
      modifies `nextSeq, `next, `initialized
      ensures Repr() && Abs() == old(Abs()).(started := true, next := at)
    {
      forall i | 0 <= i < 128 ensures SlotHolds(slots[i], held, NumberAt(at, i)) {
        assert SlotHolds(slots[i], held, NumberAt(next, i));
      }
      nextSeq := seq16;
      next := at;
      initialized := true;
    }

    /** Caches a packet that lies inside the window; a duplicate takes the place of the first copy. */
    method HoldPacket(pkt: Packet, seq16: nat, now: nat, ghost u: int)
      requires Repr() && next < u < next + CAP && SlotOf(seq16) == SlotOf(u) && now < U32
      modifies this, slots
      ensures Repr() && held != map[] && (old(gapTs) < U32 ==> gapTs < U32)
      ensures Abs() == old(Abs()).(cache := old(held)[u := pkt], cached := Tick(old(cached), 1),
                                   gapTs := if old(gapTs) == 0 then now else old(gapTs))
    {
      FillSlot(pkt, seq16, u);
      cached := Low32(cached + 1);
      if gapTs == 0 { gapTs := now; }
    }

    method FillSlot(pkt: Packet, seq16: nat, ghost u: int)
      requires slots.Length == CAP && SlotsHold(slots[..], held, next) && pending == |held|
      requires next < u < next + CAP && SlotOf(seq16) == SlotOf(u)
      modifies slots, `pending, `held
      ensures SlotsHold(slots[..], held, next) && pending == |held| && held == old(held)[u := pkt]
      ensures u in held
    {
      Fill(slots[..], held, next, u, pkt);
      NumberAtSlot(next, u);
      var i := SlotOf(seq16);
      assert SlotHolds(slots[..][i], held, u);
      ghost var was := slots[..];
      if !slots[i].valid { pending := pending + 1; }
      slots[i] := Slot(pkt, true);
      assert slots[..] == was[i := Slot(pkt, true)];
      assert held[u := pkt].Keys == held.Keys + {u};
      held := held[u := pkt];
    }

    /** Enforces the deadline of the oldest gap while packets wait behind it. */
    method EnforceDeadline(now: nat)
      requires Repr() && (forall u :: u in held ==> next < u) && gapTs < U32
      modifies this, slots
      ensures Repr() && gapTs < U32
      ensures Abs() == if old(held) != map[] && Expired(old(Abs()), now) then JitterSpec.SkipGap(old(Abs())) else old(Abs())
    {
      if pending > 0 && Low32(now - gapTs) >= (if gapTimeoutMs != 0 then gapTimeoutMs else TIMEOUT_MS) {
        SkipGap();
      }
    }

    /** A whole window or more ahead: drop everything and start over at this packet. */
    method StartOver(pkt: Packet, seq16: nat, ghost u: int)
      requires Repr() && seq16 == Low16(u)
      modifies this, slots
      ensures Repr() && gapTs < U32
      ensures Abs() == Emit(JState(true, u, map[], 0, old(gapTimeoutMs), 0, 0, 0, 1, old(out)), pkt)
    {
      Reset();
      reanchors := Low32(reanchors + 1);
      Anchor(seq16, u);
      EmitDirect(pkt);
    }

    /** Inserts one packet and emits whatever is in order now; false on a bad length. */
    method Push(pkt: Packet, seq16: nat, now: nat) returns (ok: bool)
      requires Valid() && seq16 < U16 && now < U32
      modifies this, slots
      ensures Valid() && Abs() == JitterSpec.Push(old(Abs()), Arrival(seq16, pkt, now))
      ensures ok == ArrivalOk(Arrival(seq16, pkt, now))
    {
      if |pkt.data| == 0 || |pkt.data| > MAX_RTP_PKT { return false; }
      ghost var s := Abs();
      Accept(pkt, seq16, now);
      PushKeepsWindow(s, Arrival(seq16, pkt, now));
      return true;
    }

    method Accept(pkt: Packet, seq16: nat, now: nat)
      requires Valid() && ArrivalOk(Arrival(seq16, pkt, now))
      modifies this, slots
      ensures Repr() && gapTs < U32 && Abs() == JitterSpec.Push(old(Abs()), Arrival(seq16, pkt, now))
    {
      hide SlotsHold, TakeNext, TakeAhead, Reanchor, JitterSpec.Drain, FirstHeld;
      if !initialized { Anchor(seq16, seq16); }
      WireDistance(seq16, next);
      if seq16 == nextSeq {
        PushNext(pkt, seq16, now);
      } else if 0 < Low16(seq16 - nextSeq) < 0x8000 {
        PushAhead(pkt, seq16, now);
      } else {
        stale := Low32(stale + 1);
      }
    }

    method PushNext(pkt: Packet, seq16: nat, now: nat)
      requires Valid() && initialized && seq16 == nextSeq && now < U32
      modifies this, slots
      ensures Repr() && gapTs < U32 && Abs() == TakeNext(old(Abs()), Arrival(seq16, pkt, now))
    {
      EmitDirect(pkt);
      Drain();
      EnforceDeadline(now);
    }

    method PushAhead(pkt: Packet, seq16: nat, now: nat)
      requires Valid() && initialized && seq16 < U16 && 0 < Ahead(Abs(), seq16) < 0x8000 && now < U32
      modifies this, slots
      ensures Repr() && gapTs < U32
      ensures Abs() == if Ahead(old(Abs()), seq16) >= CAP then Reanchor(old(Abs()), Arrival(seq16, pkt, now))
                       else TakeAhead(old(Abs()), Arrival(seq16, pkt, now))
    {
      hide Low16, Low32, Tick, SlotOf, SlotsHold, JitterSpec.Drain, Expired;
      WireDistance(seq16, next);
      ghost var u := next + Low16(seq16 - next);
      if Low16(seq16 - nextSeq) >= CAP {
        StartOver(pkt, seq16, u);
      } else {
        HoldPacket(pkt, seq16, now, u);
        EnforceDeadline(now);
      }
    }
  }
}
