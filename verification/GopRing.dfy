/** The ring of recent video packets of a source, and its agreement with the plain list of them. */
module GopRing {
  // 32-bit absolute indices, a power-of-two slot array, lookup by wrapping 16-bit sequence, and replay of
  // the latest keyframe. The ring is the list of everything pushed, cut to the last `capacity` packets.

  import opened Options
  import opened Arith
  import opened Bytes
  import opened Slots

  /** A cached packet, and the number octets 2 and 3 of its slot spell. */
  datatype Packet = Packet(data: seq<byte>, gop: bool, seq16: nat)

  predicate PacketOk(p: Packet) {
    0 < |p.data| <= MAX_RTP_PKT && p.seq16 < U16 && (4 <= |p.data| ==> p.seq16 == Read16(p.data, 2))
  }

  /** The packet after its octets are copied over a slot that spelled `under`. */
  function Copied(rtp: seq<byte>, gop: bool, under: nat): Packet {
    Packet(rtp, gop,
           if |rtp| >= 4 then Read16(rtp, 2) else if |rtp| == 3 then rtp[2] as nat * 256 + under % 256 else under)
  }

  /** What the slot of the next packet spells: the packet it overwrites, or nothing yet. */
  function Under(pushed: seq<Packet>, cap: nat): nat
    requires cap > 0
  {
    if |pushed| >= cap then pushed[|pushed| - cap].seq16 else 0
  }

  /** A packet shorter than four octets is found under a number that partly belongs to the packet it overwrote. */
  lemma ShortPacketBorrows(rtp: seq<byte>, gop: bool, under: nat)
    requires under < U16
    ensures Copied(rtp, gop, under).seq16 == under <==>
      |rtp| < 3 || (|rtp| == 3 && rtp[2] as nat == under / 256) || (|rtp| > 3 && Read16(rtp, 2) == under)
  {
  }

  lemma CopiedIsOk(rtp: seq<byte>, gop: bool, under: nat)
    requires 0 < |rtp| <= MAX_RTP_PKT && under < U16
    ensures PacketOk(Copied(rtp, gop, under)) && Copied(rtp, gop, under).gop == gop
  {
  }

  predicate Closes(p: Packet) { HEADER < |p.data| && p.data[1] >= 128 }

  predicate AllOk(ps: seq<Packet>) { forall i :: 0 <= i < |ps| ==> PacketOk(ps[i]) }

  // ---------------------------------------------------------------- the plain list

  /** The last `cap` packets of everything pushed. */
  function Retained(pushed: seq<Packet>, cap: nat): seq<Packet> { pushed[|pushed| - Min(|pushed|, cap)..] }

  /** Lookup by wrapping distance from the oldest retained packet. */
  function Lookup(r: seq<Packet>, seq16: nat): (o: Option<Packet>)
    requires AllOk(r)
    ensures o.Some? ==> PacketOk(o.value) && o.value.seq16 == seq16 && o.value in r
  {
    if r == [] then None
    else
      var d := Low16(seq16 - r[0].seq16);
      if d >= |r| || r[d].seq16 != seq16 then None else Some(r[d])
  }

  predicate Consecutive(r: seq<Packet>)
    requires AllOk(r)
  {
    forall i :: 0 <= i < |r| ==> r[i].seq16 == Low16(r[0].seq16 + i)
  }

  lemma DistanceOf(a: nat, i: nat, s: nat)
    requires a < U16 && i < U16 && s == Low16(a + i)
    ensures Low16(s - a) == i
  {
  }

  /** When the retained packets are consecutive, the lookup hits exactly the retained sequences. */
  lemma LookupIsExact(r: seq<Packet>, seq16: nat)
    requires AllOk(r) && Consecutive(r) && |r| <= U16
    ensures Lookup(r, seq16).Some? <==> exists i :: 0 <= i < |r| && r[i].seq16 == seq16
  {
    forall i | 0 <= i < |r| && r[i].seq16 == seq16 ensures Lookup(r, seq16).Some? {
      DistanceOf(r[0].seq16, i, seq16);
    }
    if Lookup(r, seq16).Some? {
      var d := Low16(seq16 - r[0].seq16);
      assert r[d].seq16 == seq16;
    }
  }

  /** Index of the latest keyframe start, -1 if there is none. */
  function LastGop(ps: seq<Packet>): (k: int)
    ensures -1 <= k < |ps|
    ensures k >= 0 ==> ps[k].gop
    ensures forall i :: k < i < |ps| ==> !ps[i].gop
  {
    if ps == [] then -1
    else if ps[|ps| - 1].gop then |ps| - 1 else LastGop(ps[..|ps| - 1])
  }

  /** Where a replay starts among everything pushed. */
  function ReplayFrom(pushed: seq<Packet>, cap: nat): (k: nat)
    ensures |pushed| - Min(|pushed|, cap) <= k <= |pushed|
  {
    Max(LastGop(pushed), |pushed| - Min(|pushed|, cap))
  }

  /** That is the latest retained keyframe start, or the oldest packet when none is retained. */
  lemma ReplayFromIsLatestGop(pushed: seq<Packet>, cap: nat)
    ensures var r, from := Retained(pushed, cap), pushed[ReplayFrom(pushed, cap)..];
      if exists p :: p in r && p.gop
      then from != [] && from[0].gop && forall i :: 0 < i < |from| ==> !from[i].gop
      else from == r
  {
    var r, k := Retained(pushed, cap), LastGop(pushed);
    var start := |pushed| - Min(|pushed|, cap);
    if p :| p in r && p.gop {
      var i :| 0 <= i < |r| && r[i] == p;
      assert pushed[start + i] == p;
    } else {
      assert forall i :: 0 <= i < |r| ==> r[i] == pushed[start + i] && r[i] in r;
    }
  }

  /** Where the code starts: it compares 32-bit indices, and stops at the wrapped head. */
  function ReplayIndex(pushed: seq<Packet>, cap: nat): (k: nat)
    ensures |pushed| - Min(|pushed|, cap) <= k <= |pushed|
  {
    var n, c := |pushed|, Min(|pushed|, cap);
    var head, gop := Low32(n), Low32(Max(LastGop(pushed), 0));
    if head < c || gop > head then n else n - head + Max(head - c, gop)
  }

  /**
   The code starts where it should exactly when the retained packets do not straddle the wrap of
   the 32-bit index, and the latest keyframe start lies in the head's cycle of that index or reads
   as no newer than the oldest retained packet.
   */
  lemma ReplayIndexIsExact(pushed: seq<Packet>, cap: nat)
    requires pushed != [] && cap > 0
    ensures var n, c, gop := |pushed|, Min(|pushed|, cap), LastGop(pushed);
      ReplayIndex(pushed, cap) == ReplayFrom(pushed, cap) <==>
      Low32(n) >= c && (gop >= n - Low32(n) || Low32(Max(gop, 0)) <= Low32(n) - c)
  {
    var n, gop := |pushed|, LastGop(pushed);
    CycleOf(n);
    CycleOf(Max(gop, 0));
    if gop >= n - Low32(n) { SameCycle(n, gop); }
    hide Low32, LastGop;
  }

  lemma CycleOf(n: nat)
    ensures Low32(n) <= n && (n < U32 ==> Low32(n) == n)
  {
  }

  lemma SameCycle(n: nat, k: nat)
    requires n - Low32(n) <= k <= n
    ensures Low32(k) == k - (n - Low32(n))
  {
  }

  /** Before the index first wraps it always does. */
  lemma ReplayIndexInFirstCycle(pushed: seq<Packet>, cap: nat)
    requires pushed != [] && cap > 0 && |pushed| < U32
    ensures ReplayIndex(pushed, cap) == ReplayFrom(pushed, cap)
  {
    ReplayIndexIsExact(pushed, cap);
    CycleOf(|pushed|);
    CycleOf(Max(LastGop(pushed), 0));
    hide Low32, LastGop;
  }

  /** After exactly 2^32 packets nothing is offered, although packets are retained. */
  lemma NothingAtTheWrap(pushed: seq<Packet>, cap: nat)
    requires |pushed| == U32 && cap > 0
    ensures ReplayIndex(pushed, cap) == |pushed| && ReplayFrom(pushed, cap) < |pushed|
  {
    assert Low32(U32) == 0;
  }

  /** What a replay offers of `ps`: everything up to the first marker, the first refusal or the end. */
  predicate IsReplay(offered: seq<Packet>, ps: seq<Packet>, accept: nat -> bool) {
    && |offered| <= |ps| && offered == ps[..|offered|]
    && (forall j: nat :: j + 1 < |offered| ==> accept(j) && !Closes(ps[j]))
    && (|offered| < |ps| ==> offered != [] && (!accept(|offered| - 1) || Closes(ps[|offered| - 1])))
  }

  /** The packet ends its picture: it has a payload, and the first bit of its second octet is set. */
  predicate Marked(p: Packet) { |p.data| > 12 && p.data[1] / 128 == 1 }

  /** A replay that is never refused offers one picture: up to the first marked packet, or all there is. */
  lemma ReplayIsOnePicture(offered: seq<Packet>, ps: seq<Packet>)
    requires IsReplay(offered, ps, _ => true)
    ensures offered == ps || (offered != [] && offered <= ps && Marked(offered[|offered| - 1]))
    ensures forall j :: 0 <= j < |offered| - 1 ==> !Marked(offered[j])
  {
    forall j | 0 <= j < |offered| - 1 ensures !Marked(offered[j]) {
      var k: nat := j;
      assert !Closes(ps[k]);
    }
  }

  /** The first `k` packets were taken and none of them closes the picture. */
  predicate Passed(ps: seq<Packet>, k: nat, accept: nat -> bool)
    requires k <= |ps|
  {
    forall j: nat :: j < k ==> accept(j) && !Closes(ps[j])
  }

  lemma NothingPassed(ps: seq<Packet>, accept: nat -> bool)
    ensures Passed(ps, 0, accept)
  {
  }

  lemma NothingOffered(ps: seq<Packet>, accept: nat -> bool)
    requires ps == []
    ensures IsReplay([], ps, accept)
  {
  }

  lemma OneOffered(ps: seq<Packet>, k: nat, accept: nat -> bool)
    requires k < |ps| && Passed(ps, k, accept)
    ensures if accept(k) && !Closes(ps[k]) then Passed(ps, k + 1, accept) else IsReplay(ps[..k + 1], ps, accept)
  {
  }

  lemma AllOffered(ps: seq<Packet>, accept: nat -> bool)
    requires Passed(ps, |ps|, accept)
    ensures IsReplay(ps[..|ps|], ps, accept)
  {
  }

  // ---------------------------------------------------------------- index arithmetic

  /** The slots hold the last `count` packets of `pushed`, each at its index. */
  predicate SlotsHold(slots: seq<Packet>, pushed: seq<Packet>, count: nat)
    requires |slots| > 0 && count <= |pushed|
  {
    forall k: nat {:trigger SlotOf(k, |slots|)} :: |pushed| - count <= k < |pushed| ==> slots[SlotOf(k, |slots|)] == pushed[k]
  }

  lemma HeldAt(slots: seq<Packet>, pushed: seq<Packet>, count: nat, k: nat)
    requires |slots| > 0 && count <= |pushed| && SlotsHold(slots, pushed, count) && |pushed| - count <= k < |pushed|
    ensures slots[SlotOf(k, |slots|)] == pushed[k]
  {
  }

  lemma StoreHolds(slots: seq<Packet>, pushed: seq<Packet>, count: nat, p: Packet)
    requires 0 < |slots| && count == Min(|pushed|, |slots|) && SlotsHold(slots, pushed, count)
    ensures SlotsHold(slots[SlotOf(|pushed|, |slots|) := p], pushed + [p], Min(|pushed| + 1, |slots|))
  {
    var n, cap := |pushed|, |slots|;
    forall k: nat | n + 1 - Min(n + 1, cap) <= k < n + 1
      ensures slots[SlotOf(n, cap) := p][SlotOf(k, cap)] == (pushed + [p])[k]
    {
      if k < n { SlotsApart(k, n, cap); }
    }
  }

  /** Slots that were never filled spell zero. */
  predicate Blank(slots: seq<Packet>, from: nat) { forall i :: from <= i < |slots| ==> slots[i].seq16 == 0 }

  lemma BlankLess(slots: seq<Packet>, n: nat, i: nat, p: Packet)
    requires Blank(slots, n) && i < |slots| && (n < |slots| ==> i == n)
    ensures Blank(slots[i := p], n + 1)
  {
  }

  /** The slot at the head spells what lies under the next packet. */
  lemma UnderAt(slots: seq<Packet>, pushed: seq<Packet>, head: nat)
    requires 0 < |slots| < U32 && IsPow2(|slots|) && head == Low32(|pushed|) && AllOk(pushed)
    requires SlotsHold(slots, pushed, Min(|pushed|, |slots|)) && Blank(slots, |pushed|)
    ensures slots[SlotOf(head, |slots|)].seq16 == Under(pushed, |slots|) < U16
  {
    hide Low32, IsPow2, SlotOf, SlotsHold;
    var n, cap := |pushed|, |slots|;
    SlotOfWrapped(n, cap);
    if n >= cap {
      HeldAt(slots, pushed, cap, n - cap);
      SlotAround(n, cap);
      assert PacketOk(pushed[n - cap]);
    } else {
      SlotBelow(n, cap);
    }
  }

  lemma LastGopMore(ps: seq<Packet>, p: Packet)
    ensures LastGop(ps + [p]) == if p.gop then |ps| else LastGop(ps)
  {
    assert (ps + [p])[..|ps|] == ps;
  }

  /** Storing one packet at the wrapped head. */
  lemma StoreAt(slots: seq<Packet>, pushed: seq<Packet>, count: nat, head: nat, p: Packet)
    requires 0 < |slots| < U32 && IsPow2(|slots|) && count == Min(|pushed|, |slots|) && head == Low32(|pushed|)
    requires SlotsHold(slots, pushed, count) && AllOk(pushed) && PacketOk(p) && Blank(slots, |pushed|)
    ensures SlotsHold(slots[SlotOf(head, |slots|) := p], pushed + [p], Min(|pushed| + 1, |slots|)) && AllOk(pushed + [p])
    ensures Blank(slots[SlotOf(head, |slots|) := p], |pushed| + 1)
    ensures Low32(head + 1) == Low32(|pushed + [p]|)
    ensures Low32(Max(LastGop(pushed + [p]), 0)) == if p.gop then head else Low32(Max(LastGop(pushed), 0))
  {
    hide LastGop, Low32, IsPow2, SlotsHold, SlotOf, PacketOk, Blank;
    SlotOfWrapped(|pushed|, |slots|);
    StoreHolds(slots, pushed, count, p);
    LastGopMore(pushed, p);
    WrapStep(|pushed|);
    if |pushed| < |slots| { SlotBelow(|pushed|, |slots|); }
    BlankLess(slots, |pushed|, SlotOf(head, |slots|), p);
  }

  /** The slot the ring computes for its `i`-th retained packet holds that packet. */
  lemma AtIsRetained(slots: seq<Packet>, pushed: seq<Packet>, count: nat, i: nat)
    requires 0 < |slots| < U32 && IsPow2(|slots|) && count == Min(|pushed|, |slots|) && i < count
    requires SlotsHold(slots, pushed, count) && AllOk(pushed)
    ensures var p := slots[SlotOf(Low32(Low32(Low32(|pushed|) - count) + i), |slots|)];
      i < |Retained(pushed, |slots|)| && p == Retained(pushed, |slots|)[i] && PacketOk(p)
  {
    hide Low32, IsPow2, SlotOf;
    WrapBack(|pushed|, count);
    WrapAdd(|pushed| - count, i);
    SlotOfWrapped(|pushed| - count + i, |slots|);
    HeldAt(slots, pushed, count, |pushed| - count + i);
  }

  // ---------------------------------------------------------------- the ring

  const NO_PACKET := Packet([], false, 0)

  class RtpRing {
    var slots: array?<Packet>
    var capacity: nat
    var head: nat          // 32-bit absolute index
    var count: nat
    var gopStart: nat      // 32-bit absolute index
    ghost var pushed: seq<Packet>

    ghost predicate Valid()
      reads this, slots
    {
      && head == Low32(|pushed|) && count == Min(|pushed|, capacity) && AllOk(pushed)
      && gopStart == Low32(Max(LastGop(pushed), 0))
      && (slots == null ==> pushed == [] && capacity == 0)
      && (slots != null ==>
            && capacity == slots.Length && 0 < capacity < U32 && IsPow2(capacity)
            && SlotsHold(slots[..], pushed, count) && Blank(slots[..], |pushed|))
    }

    constructor ()
      ensures Valid() && pushed == [] && slots == null
    {
      slots, capacity, head, count, gopStart, pushed := null, 0, 0, 0, 0, [];
    }

    /** Sizes the ring once; `alloc` is what the allocator answers. */
    method Reserve(want: nat, alloc: bool) returns (ok: bool)
      requires Valid() && want < U32
      modifies `slots, `capacity
      ensures Valid() && pushed == old(pushed)
      ensures ok == (IsPow2(want) && (old(slots) != null || alloc))
      ensures old(slots) != null || !ok ==> slots == old(slots) && capacity == old(capacity)
      ensures old(slots) == null && ok ==> slots != null && fresh(slots) && capacity == want
    {
      if !IsPow2(want) { return false; }
      if slots != null { return true; }
      if !alloc { return false; }
      slots := new Packet[want](_ => NO_PACKET);
      capacity := want;
      return true;
    }

    /** Appends one packet; without a ring, or with a bad length, nothing is cached. */
    method Push(rtp: seq<byte>, gop: bool, want: nat, alloc: bool)
      requires Valid() && want < U32
      modifies this, slots
      ensures Valid()
      ensures old(slots) != null ==> slots == old(slots) && capacity == old(capacity)
      ensures
        if 0 < |rtp| <= MAX_RTP_PKT && IsPow2(want) && (old(slots) != null || alloc)
        then capacity > 0 && pushed == old(pushed) + [Copied(rtp, gop, Under(old(pushed), capacity))]
        else pushed == old(pushed)
    {
      if |rtp| == 0 || |rtp| > MAX_RTP_PKT { return; }
      var ok := Reserve(want, alloc);
      if ok { Store(rtp, gop); }
    }

    /** Copies the packet over what the slot at the head held. */
    method Store(rtp: seq<byte>, gop: bool)
      requires Valid() && slots != null && 0 < |rtp| <= MAX_RTP_PKT
      modifies slots, `head, `count, `gopStart, `pushed
      ensures Valid() && pushed == old(pushed) + [Copied(rtp, gop, Under(old(pushed), capacity))]
    {
      hide LastGop, Low32, IsPow2, SlotsHold, PacketOk, AllOk, SlotOf, Copied, Under, Blank;
      UnderAt(slots[..], pushed, head);
      var i := SlotOf(head, capacity);
      var p := Copied(rtp, gop, slots[i].seq16);
      CopiedIsOk(rtp, gop, slots[i].seq16);
      StoreAt(slots[..], pushed, count, head, p);
      ghost var was := slots[..];
      slots[i] := p;
      assert slots[..] == was[i := p];
      if gop { gopStart := head; }
      head := Low32(head + 1);
      if count < capacity { count := count + 1; }
      pushed := pushed + [p];
    }

    /** The slot of retained packet `i`, counted from the oldest. */
    method At(i: nat) returns (p: Packet)
      requires Valid() && slots != null && i < count
      ensures p == Retained(pushed, capacity)[i] && PacketOk(p)
    {
      hide Low32, IsPow2, SlotsHold, SlotOf, LastGop, AllOk, Retained, PacketOk;
      AtIsRetained(slots[..], pushed, count, i);
      var start := Low32(head - count);
      p := slots[SlotOf(Low32(start + i), capacity)];
    }

    /** Finds a cached packet by its sequence number. */
    method Get(seq16: nat) returns (r: Option<Packet>)
      requires Valid() && seq16 < U16
      ensures AllOk(Retained(pushed, capacity)) && r == Lookup(Retained(pushed, capacity), seq16)
    {
      if count == 0 || slots == null { return None; }
      RetainedOk(pushed, capacity);
      LookupAt(Retained(pushed, capacity), seq16);
      hide Valid, AllOk, Retained, Low16, Lookup, Read16, PacketOk;
      var oldest := At(0);
      var dist := Low16(seq16 - oldest.seq16);
      if dist >= count { return None; }
      var p := At(dist);
      r := if p.seq16 == seq16 then Some(p) else None;
    }

    /** Offers the latest keyframe; `accept(i)` is what the send path answers to the i-th packet. */
    method Replay(accept: nat -> bool) returns (offered: seq<Packet>, sent: nat)
      requires Valid()
      ensures IsReplay(offered, pushed[ReplayIndex(pushed, capacity)..], accept)
      ensures sent <= |offered| <= sent + 1
    {
      NothingOffered([], accept);
      if count == 0 || slots == null { return [], 0; }
      var start := Low32(head - count);
      if gopStart > start { start := gopStart; }
      hide IsPow2, SlotsHold, LastGop, AllOk, IsReplay, Window, Low32, ReplayIndex;
      ReadyToReplay(slots[..], pushed, head, gopStart, start);
      offered, sent := ReplayFromIndex(slots, head, start, accept, pushed);
    }
  }

  /** Offers from a wrapped index up to the wrapped head. */
  method ReplayFromIndex(slots: array<Packet>, head: nat, start: nat, accept: nat -> bool, ghost pushed: seq<Packet>)
    returns (offered: seq<Packet>, sent: nat)
    requires 0 < slots.Length && head <= |pushed| && Window(slots[..], pushed, head, start)
    ensures IsReplay(offered, pushed[if start < head then |pushed| - head + start else |pushed|..], accept)
    ensures sent <= |offered| <= sent + 1
  {
    offered, sent := [], 0;
    hide IsReplay, Passed, Closes, Window, SlotOf;
    NothingOffered(pushed[|pushed|..], accept);
    if start >= head { return; }
    ghost var ps := pushed[|pushed| - head + start..];
    NothingPassed(ps, accept);
    var i := start;
    while i < head
      invariant start <= i <= head && sent == i - start && offered == ps[..sent]
      invariant Passed(ps, sent, accept)
      decreases head - i
    {
      var p := slots[SlotOf(i, slots.Length)];
      NextHeld(slots[..], pushed, head, start, i);
      OneOffered(ps, sent, accept);
      offered := offered + [p];
      if !accept(i - start) { return; }
      sent := sent + 1;
      if Closes(p) { return; }
      i := i + 1;
    }
    AllOffered(ps, accept);
  }

  /** The slots of the wrapped indices from `start` below `head` hold the packets pushed last. */
  predicate Window(slots: seq<Packet>, pushed: seq<Packet>, head: nat, start: nat)
    requires |slots| > 0 && head <= |pushed|
  {
    forall i: nat {:trigger SlotOf(i, |slots|)} :: start <= i < head ==> slots[SlotOf(i, |slots|)] == pushed[|pushed| - head + i]
  }

  lemma InWindow(slots: seq<Packet>, pushed: seq<Packet>, count: nat, start: nat)
    requires 0 < |slots| < U32 && IsPow2(|slots|) && count <= |pushed| && SlotsHold(slots, pushed, count)
    requires Low32(|pushed|) - count <= start
    ensures Low32(|pushed|) <= |pushed| && Window(slots, pushed, Low32(|pushed|), start)
  {
    var head := Low32(|pushed|);
    CycleOf(|pushed|);
    hide Low32, IsPow2, SlotOf;
    forall i: nat | start <= i < head ensures slots[SlotOf(i, |slots|)] == pushed[|pushed| - head + i] {
      SameCycle(|pushed|, |pushed| - head + i);
      SlotOfWrapped(|pushed| - head + i, |slots|);
      HeldAt(slots, pushed, count, |pushed| - head + i);
    }
  }

  /** The index the code starts at is the replay index, seen modulo 2^32, and the slots from there on are held. */
  lemma ReadyToReplay(slots: seq<Packet>, pushed: seq<Packet>, head: nat, gop: nat, start: nat)
    requires 0 < |slots| < U32 && IsPow2(|slots|) && SlotsHold(slots, pushed, Min(|pushed|, |slots|))
    requires head == Low32(|pushed|) && gop == Low32(Max(LastGop(pushed), 0))
    requires var oldest := Low32(head - Min(|pushed|, |slots|)); start == if gop > oldest then gop else oldest
    ensures head <= |pushed| && Window(slots, pushed, head, start)
    ensures ReplayIndex(pushed, |slots|) == if start < head then |pushed| - head + start else |pushed|
  {
    hide Low32, LastGop, SlotsHold, IsPow2, Window, ReplayIndex;
    var n, c := |pushed|, Min(|pushed|, |slots|);
    WrapBack(n, c);
    OldestIndex(n, c);
    CycleOf(n);
    IndexByCases(pushed, |slots|);
    StartByCases(n, c, head, gop);
    InWindow(slots, pushed, c, start);
  }

  lemma IndexByCases(pushed: seq<Packet>, cap: nat)
    ensures var n, c, head, gop := |pushed|, Min(|pushed|, cap), Low32(|pushed|), Low32(Max(LastGop(pushed), 0));
      ReplayIndex(pushed, cap) == if head < c || gop > head then n else n - head + Max(head - c, gop)
  {
    CycleOf(|pushed|);
    hide Low32, LastGop;
  }

  lemma StartByCases(n: nat, c: nat, head: nat, gop: nat)
    requires c <= n && c < U32 && head <= n && head < U32 && gop < U32
    ensures var oldest := if head >= c then head - c else head - c + U32;
      var start := if gop > oldest then gop else oldest;
      (if head < c || gop > head then n else n - head + Max(head - c, gop)) ==
      if start < head then n - head + start else n
  {
  }

  lemma RetainedOk(pushed: seq<Packet>, cap: nat)
    requires AllOk(pushed)
    ensures AllOk(Retained(pushed, cap)) && |Retained(pushed, cap)| == Min(|pushed|, cap)
  {
  }

  lemma LookupAt(r: seq<Packet>, seq16: nat)
    requires AllOk(r) && r != []
    ensures var d := Low16(seq16 - r[0].seq16);
      Lookup(r, seq16) == if d < |r| && r[d].seq16 == seq16 then Some(r[d]) else None
  {
    hide Low16, Read16;
  }

  lemma NextHeld(slots: seq<Packet>, pushed: seq<Packet>, head: nat, start: nat, i: nat)
    requires |slots| > 0 && head <= |pushed| && Window(slots, pushed, head, start) && start <= i < head
    ensures var ps, p := pushed[|pushed| - head + start..], slots[SlotOf(i, |slots|)];
      i - start < |ps| && ps[i - start] == p && ps[..i - start + 1] == ps[..i - start] + [p]
  {
    assert slots[SlotOf(i, |slots|)] == pushed[|pushed| - head + i];
  }

  lemma OldestIndex(n: nat, c: nat)
    requires c <= n && c < U32
    ensures Low32(n - c) == if Low32(n) >= c then Low32(n) - c else Low32(n) - c + U32
  {
  }
}
