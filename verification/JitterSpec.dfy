/**
 The uplink reorder buffer on unwrapped sequence numbers: what one arrival does, and what every
 run of arrivals keeps.
 */
module JitterSpec {
  import opened Bytes

  const CAP := 128
  const TIMEOUT_MS := 50

  datatype Packet = Packet(data: seq<byte>, gop: bool)

  /** A packet together with its unwrapped sequence number. */
  type Numbered = (int, Packet)

  datatype JState = JState(
    started: bool,
    next: int,                  // unwrapped number expected next; the wire carries it mod 2^16
    cache: map<int, Packet>,    // held packets, by unwrapped number
    gapTs: nat,                 // when the oldest open gap was seen, 0 = none
    timeout: nat,               // configured deadline, 0 = default
    cached: nat, skipped: nat, stale: nat, reanchors: nat,
    out: seq<Numbered>          // everything handed to the callback so far
  )

  datatype Arrival = Arrival(seq16: nat, pkt: Packet, now: nat)

  predicate ArrivalOk(a: Arrival) { a.seq16 < U16 && a.now < U32 && 0 < |a.pkt.data| <= MAX_RTP_PKT }

  /** At rest every held number lies 1 to 127 ahead of the expected one. */
  predicate Windowed(s: JState) {
    && (forall u :: u in s.cache ==> s.next < u < s.next + CAP)
    && (!s.started ==> s.cache == map[])
  }

  // ---------------------------------------------------------------- one arrival

  function Tick(n: nat, k: nat): nat { Low32(n + k) }

  function Emit(s: JState, p: Packet): JState {
    s.(out := s.out + [(s.next, p)], next := s.next + 1)
  }

  /** Emits the run of consecutive held packets that starts at the expected number. */
  function Drain(s: JState): (t: JState)
    ensures t.next >= s.next && t.next !in t.cache
    ensures forall u :: u in t.cache <==> u in s.cache && (u < s.next || u >= t.next)
    ensures forall u :: u in t.cache ==> t.cache[u] == s.cache[u]
    ensures forall u :: s.next <= u < t.next ==> u in s.cache
    ensures t.gapTs == if t.cache == map[] then 0 else s.gapTs
    ensures t == s.(next := t.next, cache := t.cache, gapTs := t.gapTs, out := t.out)
    decreases |s.cache|
  {
    if s.next in s.cache then
      assert (s.cache - {s.next}).Keys == s.cache.Keys - {s.next};
      var t := Drain(Emit(s.(cache := s.cache - {s.next}), s.cache[s.next]));
      assert forall u :: s.next <= u < t.next ==> u in s.cache by {
        forall u | s.next <= u < t.next ensures u in s.cache {
          if u != s.next { assert u in (s.cache - {s.next}).Keys; }
        }
      }
      t
    else if s.cache == map[] then s.(gapTs := 0) else s
  }

  /** What still waits after a drain has waited as long as before. */
  lemma DrainKeepsGap(s: JState)
    ensures Drain(s).cache == map[] ==> Drain(s).gapTs == 0
    ensures Drain(s).cache != map[] ==> s.cache != map[] && Drain(s).gapTs == s.gapTs
  {
    var t := Drain(s);
    if t.cache != map[] { HasKey(t.cache); }
    hide Drain;
  }

  /** The first held number among the `n` numbers from `from` on. */
  function FirstHeld(cache: map<int, Packet>, from: int, n: nat): (k: int)
    ensures from <= k <= from + n
    ensures forall u :: from <= u < k ==> u !in cache
    ensures (exists u :: u in cache && from <= u < from + n) ==> k in cache
    decreases n
  {
    if n == 0 || from in cache then from else FirstHeld(cache, from + 1, n - 1)
  }

  /** Gives up the missing numbers in front of the first held packet. */
  function SkipTo(s: JState): JState {
    var k := FirstHeld(s.cache, s.next, CAP);
    s.(next := k, skipped := Tick(s.skipped, k - s.next))
  }

  function SkipGap(s: JState): JState { Drain(SkipTo(s)) }

  predicate Expired(s: JState, now: nat) {
    Low32(now - s.gapTs) >= (if s.timeout != 0 then s.timeout else TIMEOUT_MS)
  }

  function Anchored(s: JState, seq16: nat): JState {
    if s.started then s else s.(started := true, next := seq16)
  }

  /** The slot mask. */
  function SlotOf(n: int): (r: nat) ensures r < 128 { n % 128 }

  /** Distance of a wire sequence number ahead of the expected one, modulo 2^16. */
  function Ahead(s: JState, seq16: nat): nat { Low16(seq16 - s.next) }

  /** The in-order case: emit, then release what waited right behind it. */
  function TakeNext(s: JState, a: Arrival): JState {
    var t := Drain(Emit(s, a.pkt));
    if t.cache != map[] && Expired(t, a.now) then SkipGap(t) else t
  }

  function Hold(s: JState, a: Arrival): JState {
    s.(cache := s.cache[s.next + Ahead(s, a.seq16) := a.pkt], cached := Tick(s.cached, 1),
       gapTs := if s.gapTs == 0 then a.now else s.gapTs)
  }

  function TakeAhead(s: JState, a: Arrival): JState {
    var t := Hold(s, a);
    if Expired(t, a.now) then SkipGap(t) else t
  }

  /** A jump of a whole window or more drops everything held and starts over at the packet. */
  function Reanchor(s: JState, a: Arrival): JState {
    Emit(JState(true, s.next + Ahead(s, a.seq16), map[], 0, s.timeout, 0, 0, 0, 1, s.out), a.pkt)
  }

  datatype Kind = InOrder | InWindow | FarAhead | Behind

  function KindOf(s: JState, a: Arrival): Kind {
    var d := Ahead(Anchored(s, a.seq16), a.seq16);
    if d == 0 then InOrder
    else if d >= 0x8000 then Behind
    else if d >= CAP then FarAhead else InWindow
  }

  function Push(st: JState, a: Arrival): JState {
    if !ArrivalOk(a) then st
    else
      var s := Anchored(st, a.seq16);
      match KindOf(st, a)
      case InOrder => TakeNext(s, a)
      case InWindow => TakeAhead(s, a)
      case FarAhead => Reanchor(s, a)
      case Behind => s.(stale := Tick(s.stale, 1))
  }

  function Reset(s: JState): JState {
    JState(false, 0, map[], 0, s.timeout, 0, 0, 0, 0, s.out)
  }

  function Run(s: JState, arrivals: seq<Arrival>): JState {
    if arrivals == [] then s else Push(Run(s, arrivals[..|arrivals| - 1]), arrivals[|arrivals| - 1])
  }

  // ---------------------------------------------------------------- the window

  lemma HasKey(m: map<int, Packet>)
    requires m != map[]
    ensures exists u :: u in m
  {
    assert (forall u :: u !in m.Keys) ==> m == map[];
  }

  lemma FirstHeldFound(cache: map<int, Packet>, next: int)
    requires cache != map[] && forall u :: u in cache ==> next < u < next + CAP
    ensures var k := FirstHeld(cache, next, CAP); k in cache && next < k && forall u :: next <= u < k ==> u !in cache
  {
    HasKey(cache);
  }

  lemma SkipKeepsWindow(s: JState)
    requires Windowed(s) && s.cache != map[]
    ensures Windowed(SkipGap(s)) && SkipGap(s).next > s.next + 1
  {
    HasKey(s.cache);
    var u :| u in s.cache;
    assert s.next <= u < s.next + CAP;
  }

  lemma HoldKeepsWindow(s: JState, a: Arrival)
    requires Windowed(s) && s.started && KindOf(s, a) == InWindow
    ensures Windowed(Hold(s, a)) && Hold(s, a).cache != map[]
  {
    assert s.next + Ahead(s, a.seq16) in Hold(s, a).cache;
  }

  lemma PushKeepsWindow(s: JState, a: Arrival)
    requires Windowed(s)
    ensures Windowed(Push(s, a))
  {
    if ArrivalOk(a) {
      var t := Anchored(s, a.seq16);
      match KindOf(s, a)
      case InOrder =>
        var d := Drain(Emit(t, a.pkt));
        if d.cache != map[] && Expired(d, a.now) { SkipKeepsWindow(d); }
      case InWindow =>
        HoldKeepsWindow(t, a);
        if Expired(Hold(t, a), a.now) { SkipKeepsWindow(Hold(t, a)); }
      case _ =>
    }
  }

  lemma {:induction false} RunKeepsWindow(s: JState, arrivals: seq<Arrival>)
    requires Windowed(s)
    ensures Windowed(Run(s, arrivals))
  {
    if arrivals != [] {
      RunKeepsWindow(s, arrivals[..|arrivals| - 1]);
      PushKeepsWindow(Run(s, arrivals[..|arrivals| - 1]), arrivals[|arrivals| - 1]);
    }
  }

  // ---------------------------------------------------------------- order of emission

  predicate Rising(out: seq<Numbered>, below: int) {
    && (forall i, j :: 0 <= i < j < |out| ==> out[i].0 < out[j].0)
    && (forall i :: 0 <= i < |out| ==> out[i].0 < below)
  }

  lemma EmitRises(s: JState, p: Packet)
    requires Rising(s.out, s.next)
    ensures Rising(Emit(s, p).out, s.next + 1)
  {
  }

  lemma {:induction false} DrainRises(s: JState)
    requires Rising(s.out, s.next)
    ensures Rising(Drain(s).out, Drain(s).next)
    ensures s.out <= Drain(s).out
    decreases |s.cache|
  {
    if s.next in s.cache {
      var t := Emit(s.(cache := s.cache - {s.next}), s.cache[s.next]);
      assert (s.cache - {s.next}).Keys == s.cache.Keys - {s.next};
      EmitRises(s.(cache := s.cache - {s.next}), s.cache[s.next]);
      DrainRises(t);
    }
  }

  lemma SkipRises(s: JState)
    requires Rising(s.out, s.next)
    ensures Rising(SkipGap(s).out, SkipGap(s).next) && s.out <= SkipGap(s).out
  {
    DrainRises(SkipTo(s));
  }

  lemma TakeNextRises(s: JState, a: Arrival)
    requires Rising(s.out, s.next)
    ensures Rising(TakeNext(s, a).out, TakeNext(s, a).next) && s.out <= TakeNext(s, a).out
  {
    EmitRises(s, a.pkt);
    DrainRises(Emit(s, a.pkt));
    SkipRises(Drain(Emit(s, a.pkt)));
  }

  /** Late, reordered, timed out or far ahead: emitted numbers only ever rise. */
  lemma PushRises(s: JState, a: Arrival)
    requires Windowed(s) && s.started && Rising(s.out, s.next)
    ensures Push(s, a).started && Rising(Push(s, a).out, Push(s, a).next) && s.out <= Push(s, a).out
  {
    if ArrivalOk(a) {
      match KindOf(s, a)
      case InOrder => TakeNextRises(s, a);
      case InWindow => SkipRises(Hold(s, a));
      case FarAhead => EmitRises(s.(next := s.next + Ahead(s, a.seq16)), a.pkt);
      case Behind =>
    }
  }

  /** Until the first acceptable packet nothing was emitted; from then on the emitted numbers rise. */
  predicate Ordered(s: JState) { if s.started then Rising(s.out, s.next) else s.out == [] }

  lemma PushKeepsOrder(s: JState, a: Arrival)
    requires Windowed(s) && Ordered(s)
    ensures Ordered(Push(s, a)) && s.out <= Push(s, a).out
  {
    if ArrivalOk(a) {
      var t := Anchored(s, a.seq16);
      assert Push(s, a) == Push(t, a);
      PushRises(t, a);
    }
  }

  /**
   In every run, from the fresh buffer or any later state, the emitted unwrapped numbers are
   strictly increasing, across every wrap, and nothing emitted is taken back.
   */
  lemma {:induction false} RunRises(s: JState, arrivals: seq<Arrival>)
    requires Windowed(s) && Ordered(s)
    ensures Ordered(Run(s, arrivals)) && s.out <= Run(s, arrivals).out
  {
    if arrivals != [] {
      RunRises(s, arrivals[..|arrivals| - 1]);
      RunKeepsWindow(s, arrivals[..|arrivals| - 1]);
      PushKeepsOrder(Run(s, arrivals[..|arrivals| - 1]), arrivals[|arrivals| - 1]);
    }
  }

  /** A fresh buffer's whole output rises. */
  lemma FreshRunRises(timeout: nat, arrivals: seq<Arrival>)
    ensures var out := Run(FRESH.(timeout := timeout), arrivals).out;
      forall i, j :: 0 <= i < j < |out| ==> out[i].0 < out[j].0
  {
    RunRises(FRESH.(timeout := timeout), arrivals);
  }

  // ---------------------------------------------------------------- conservation

  function Held(cache: map<int, Packet>): multiset<Numbered> {
    multiset(set u | u in cache :: (u, cache[u]))
  }

  /** Every packet the buffer has emitted or still holds. */
  function Kept(s: JState): multiset<Numbered> { multiset(s.out) + Held(s.cache) }

  lemma HeldMinus(cache: map<int, Packet>, k: int)
    requires k in cache
    ensures Held(cache) == Held(cache - {k}) + multiset{(k, cache[k])}
  {
    var all := set u | u in cache :: (u, cache[u]);
    var rest := set u | u in cache - {k} :: (u, (cache - {k})[u]);
    forall x ensures x in all <==> x in rest || x == (k, cache[k]) {
      if x in all && x != (k, cache[k]) { assert x.0 in cache - {k} && x == (x.0, (cache - {k})[x.0]); }
      if x in rest { assert x.0 in cache; }
    }
    assert all == rest + {(k, cache[k])};
    assert (k, cache[k]) !in rest;
  }

  /** Draining moves packets from the cache to the output and loses none. */
  lemma {:induction false} DrainConserves(s: JState)
    ensures Kept(Drain(s)) == Kept(s)
    decreases |s.cache|
  {
    if s.next in s.cache {
      var t := Emit(s.(cache := s.cache - {s.next}), s.cache[s.next]);
      assert (s.cache - {s.next}).Keys == s.cache.Keys - {s.next};
      DrainConserves(t);
      HeldMinus(s.cache, s.next);
    }
  }

  lemma SkipConserves(s: JState)
    ensures Kept(SkipGap(s)) == Kept(s)
  {
    DrainConserves(SkipTo(s));
  }

  lemma TakeNextConserves(s: JState, a: Arrival)
    ensures Kept(TakeNext(s, a)) == Kept(s) + multiset{(s.next, a.pkt)}
  {
    var e := Emit(s, a.pkt);
    DrainConserves(e);
    SkipConserves(Drain(e));
    assert Kept(TakeNext(s, a)) == Kept(e);
  }

  /** What the buffer held for one number before a duplicate took its place. */
  function Overwritten(cache: map<int, Packet>, u: int): multiset<Numbered> {
    if u in cache then multiset{(u, cache[u])} else multiset{}
  }

  lemma HeldUpdate(cache: map<int, Packet>, u: int, p: Packet)
    ensures Held(cache[u := p]) + Overwritten(cache, u) == Held(cache) + multiset{(u, p)}
  {
    HeldMinus(cache[u := p], u);
    if u in cache {
      HeldMinus(cache, u);
      assert cache[u := p] - {u} == cache - {u};
    } else {
      assert cache[u := p] - {u} == cache;
    }
  }

  lemma Exchange<T>(z: multiset<T>, a: multiset<T>, b: multiset<T>, c: multiset<T>, d: multiset<T>)
    requires a + b == c + d
    ensures z + a + b == z + c + d
  {
    assert z + a + b == z + (a + b);
  }

  lemma HoldConserves(s: JState, a: Arrival)
    ensures var u := s.next + Ahead(s, a.seq16);
      Kept(Hold(s, a)) + Overwritten(s.cache, u) == Kept(s) + multiset{(u, a.pkt)}
  {
    var u := s.next + Ahead(s, a.seq16);
    var h := Hold(s, a);
    HeldUpdate(s.cache, u, a.pkt);
    assert h.out == s.out && h.cache == s.cache[u := a.pkt];
    Exchange(multiset(s.out), Held(h.cache), Overwritten(s.cache, u), Held(s.cache), multiset{(u, a.pkt)});
  }

  lemma TakeAheadConserves(s: JState, a: Arrival)
    ensures Kept(TakeAhead(s, a)) == Kept(Hold(s, a))
  {
    SkipConserves(Hold(s, a));
  }

  /** The unwrapped number the buffer reads an arrival as. */
  function NumberOf(st: JState, a: Arrival): int {
    var s := Anchored(st, a.seq16);
    s.next + Ahead(s, a.seq16) - (if KindOf(st, a) == Behind then U16 else 0)
  }

  function Offered(st: JState, a: Arrival): multiset<Numbered> {
    if ArrivalOk(a) then multiset{(NumberOf(st, a), a.pkt)} else multiset{}
  }

  /** The packets an arrival makes the buffer give up without emitting them. */
  function Lost(st: JState, a: Arrival): multiset<Numbered> {
    if !ArrivalOk(a) then multiset{}
    else match KindOf(st, a)
      case InOrder => multiset{}
      case InWindow => Overwritten(st.cache, NumberOf(st, a))
      case FarAhead => Held(st.cache)
      case Behind => multiset{(NumberOf(st, a), a.pkt)}
  }

  /**
   Every accepted packet is emitted, still held, or given up by name: overwritten by its own
   duplicate, discarded by a re-anchor, or stale on arrival.
   */
  lemma PushConserves(s: JState, a: Arrival)
    requires Windowed(s)
    ensures Kept(Push(s, a)) + Lost(s, a) == Kept(s) + Offered(s, a)
  {
    if ArrivalOk(a) {
      match KindOf(s, a)
      case InOrder => InOrderConserves(s, a);
      case InWindow => InWindowConserves(s, a);
      case FarAhead => FarAheadConserves(s, a);
      case Behind => KeptStale(Anchored(s, a.seq16)); KeptAnchored(s, a.seq16);
    }
  }

  lemma InOrderConserves(s: JState, a: Arrival)
    requires ArrivalOk(a) && KindOf(s, a) == InOrder
    ensures Kept(Push(s, a)) + Lost(s, a) == Kept(s) + Offered(s, a)
  {
    var t := Anchored(s, a.seq16);
    KeptAnchored(s, a.seq16);
    TakeNextConserves(t, a);
    assert Offered(s, a) == multiset{(t.next, a.pkt)} && Lost(s, a) == multiset{};
  }

  lemma InWindowConserves(s: JState, a: Arrival)
    requires ArrivalOk(a) && KindOf(s, a) == InWindow
    ensures Kept(Push(s, a)) + Lost(s, a) == Kept(s) + Offered(s, a)
  {
    var t := Anchored(s, a.seq16);
    KeptAnchored(s, a.seq16);
    HoldConserves(t, a);
    TakeAheadConserves(t, a);
    assert Push(s, a) == TakeAhead(t, a);
    assert NumberOf(s, a) == t.next + Ahead(t, a.seq16);
  }

  lemma FarAheadConserves(s: JState, a: Arrival)
    requires ArrivalOk(a) && KindOf(s, a) == FarAhead
    ensures Kept(Push(s, a)) + Lost(s, a) == Kept(s) + Offered(s, a)
  {
    var t := Anchored(s, a.seq16);
    KeptAnchored(s, a.seq16);
    ReanchorConserves(t, a);
    assert Push(s, a) == Reanchor(t, a);
    assert NumberOf(s, a) == t.next + Ahead(t, a.seq16);
  }

  lemma KeptAnchored(s: JState, seq16: nat)
    ensures Kept(Anchored(s, seq16)) == Kept(s) && Anchored(s, seq16).cache == s.cache
  {
  }

  lemma KeptStale(s: JState)
    ensures Kept(s.(stale := Tick(s.stale, 1))) == Kept(s)
  {
  }

  lemma ReanchorConserves(s: JState, a: Arrival)
    ensures Kept(Reanchor(s, a)) + Held(s.cache) == Kept(s) + multiset{(s.next + Ahead(s, a.seq16), a.pkt)}
  {
    assert Held(map[]) == multiset{};
  }

  function AllOffered(s: JState, arrivals: seq<Arrival>): multiset<Numbered> {
    if arrivals == [] then multiset{}
    else
      var before := arrivals[..|arrivals| - 1];
      AllOffered(s, before) + Offered(Run(s, before), arrivals[|arrivals| - 1])
  }

  function AllLost(s: JState, arrivals: seq<Arrival>): multiset<Numbered> {
    if arrivals == [] then multiset{}
    else
      var before := arrivals[..|arrivals| - 1];
      AllLost(s, before) + Lost(Run(s, before), arrivals[|arrivals| - 1])
  }

  lemma Chain<T>(x0: multiset<T>, x1: multiset<T>, x2: multiset<T>, l0: multiset<T>, l1: multiset<T>, o0: multiset<T>, o1: multiset<T>)
    requires x1 + l0 == x0 + o0 && x2 + l1 == x1 + o1
    ensures x2 + (l0 + l1) == x0 + (o0 + o1)
  {
    assert x2 + (l0 + l1) == (x2 + l1) + l0;
    assert (x1 + o1) + l0 == (x1 + l0) + o1;
  }

  /** Conservation over every run. */
  lemma {:induction false} RunConserves(s: JState, arrivals: seq<Arrival>)
    requires Windowed(s)
    ensures Kept(Run(s, arrivals)) + AllLost(s, arrivals) == Kept(s) + AllOffered(s, arrivals)
  {
    if arrivals != [] {
      var before, a := arrivals[..|arrivals| - 1], arrivals[|arrivals| - 1];
      var t, u := Run(s, before), Run(s, arrivals);
      RunConserves(s, before);
      RunKeepsWindow(s, before);
      PushConserves(t, a);
      Chain(Kept(s), Kept(t), Kept(u), AllLost(s, before), Lost(t, a), AllOffered(s, before), Offered(t, a));
    }
  }

  /** Draining emits the held run number by number. */
  lemma {:induction false} DrainExact(s: JState)
    ensures |Drain(s).out| == |s.out| + (Drain(s).next - s.next) && s.out <= Drain(s).out
    ensures forall i :: |s.out| <= i < |Drain(s).out| ==>
              var u := s.next + (i - |s.out|); u in s.cache && Drain(s).out[i] == (u, s.cache[u])
    decreases |s.cache|
  {
    if s.next in s.cache {
      var t := Emit(s.(cache := s.cache - {s.next}), s.cache[s.next]);
      assert (s.cache - {s.next}).Keys == s.cache.Keys - {s.next};
      DrainExact(t);
    }
  }

  // ---------------------------------------------------------------- progress

  /**
   An arrival in order or in the window that finds the deadline passed closes the oldest gap:
   the first packet held behind it is emitted and the missing numbers are given up.
   */
  lemma DeadlineClosesGap(s: JState, a: Arrival)
    requires Windowed(s) && s.started && ArrivalOk(a) && (KindOf(s, a) == InOrder || KindOf(s, a) == InWindow)
    requires var h := if KindOf(s, a) == InOrder then Drain(Emit(s, a.pkt)) else Hold(s, a);
      h.cache != map[] && Low32(a.now - h.gapTs) >= if s.timeout != 0 then s.timeout else 50
    ensures var h := if KindOf(s, a) == InOrder then Drain(Emit(s, a.pkt)) else Hold(s, a);
      exists k :: k in h.cache && (forall u :: u in h.cache ==> k <= u)
                  && k < Push(s, a).next && (k, h.cache[k]) in Push(s, a).out
  {
    hide Push, SkipGap, Drain, Hold, Windowed, KindOf;
    OverdueSkips(s, a);
    SkipClosesGap(if KindOf(s, a) == InOrder then Drain(Emit(s, a.pkt)) else Hold(s, a));
  }

  lemma OverdueSkips(s: JState, a: Arrival)
    requires Windowed(s) && s.started && ArrivalOk(a) && (KindOf(s, a) == InOrder || KindOf(s, a) == InWindow)
    requires var h := if KindOf(s, a) == InOrder then Drain(Emit(s, a.pkt)) else Hold(s, a);
      h.cache != map[] && Low32(a.now - h.gapTs) >= if s.timeout != 0 then s.timeout else 50
    ensures var h := if KindOf(s, a) == InOrder then Drain(Emit(s, a.pkt)) else Hold(s, a);
      Windowed(h) && Push(s, a) == SkipGap(h)
  {
    hide SkipGap, Drain, Low32;
    if KindOf(s, a) == InWindow { HoldKeepsWindow(s, a); }
  }

  lemma SkipClosesGap(h: JState)
    requires Windowed(h) && h.cache != map[]
    ensures exists k :: k in h.cache && (forall u :: u in h.cache ==> k <= u)
                        && k < SkipGap(h).next && (k, h.cache[k]) in SkipGap(h).out
  {
    FirstHeldFound(h.cache, h.next);
    DrainExact(SkipTo(h));
    var k := SkipTo(h).next;
    assert SkipGap(h).out[|h.out|] == (k, h.cache[k]);
  }

  // ---------------------------------------------------------------- the reference

  /** An arrival as the sender numbered it, without the 16-bit wrap. */
  datatype Sent = Sent(num: int, pkt: Packet, now: nat)

  function Wire(x: Sent): Arrival { Arrival(Low16(x.num), x.pkt, x.now) }

  function Wires(xs: seq<Sent>): seq<Arrival> {
    if xs == [] then [] else Wires(xs[..|xs| - 1]) + [Wire(xs[|xs| - 1])]
  }

  /** The numbers received, and the numbered packets received. */
  function Nums(xs: seq<Sent>): set<int> {
    if xs == [] then {} else Nums(xs[..|xs| - 1]) + {xs[|xs| - 1].num}
  }

  function Items(xs: seq<Sent>): set<Numbered> {
    if xs == [] then {} else Items(xs[..|xs| - 1]) + {(xs[|xs| - 1].num, xs[|xs| - 1].pkt)}
  }

  /** `n` is the end of the longest gap-free run of received numbers that starts at `anchor`. */
  ghost predicate RunEnd(got: set<int>, anchor: int, n: int) {
    anchor <= n && n !in got && forall u :: anchor <= u < n ==> u in got
  }

  /** The next packet neither reaches a window ahead of the run, nor half the number space behind. */
  predicate Reachable(x: Sent, n: int) { n - 0x8000 <= x.num < n + CAP }

  /** Nothing waits, or it has waited for less than the deadline, fifty milliseconds unless configured. */
  predicate InTime(s: JState, now: nat) {
    s.cache == map[] || Low32(now - s.gapTs) < if s.timeout != 0 then s.timeout else 50
  }

  const FRESH := JState(false, 0, map[], 0, 0, 0, 0, 0, 0, [])

  function After(timeout: nat, xs: seq<Sent>): JState { Run(FRESH.(timeout := timeout), Wires(xs)) }

  /**
   Every packet of the run comes in time and within reach of the run received before it. The
   sender's numbering is fixed up to multiples of 2^16 by starting it in the first cycle.
   */
  ghost predicate Calm(timeout: nat, xs: seq<Sent>) {
    xs == [] ||
      var before, x := xs[..|xs| - 1], xs[|xs| - 1];
      && Calm(timeout, before)
      && ArrivalOk(Wire(x)) && 0 <= xs[0].num < U16
      && (before != [] ==> forall n :: RunEnd(Nums(before), xs[0].num, n) ==> Reachable(x, n))
      && InTime(After(timeout, before), x.now)
  }

  /** The state is what the reference asks for after receiving `got` and `items`. */
  ghost predicate Tracks(s: JState, anchor: int, got: set<int>, items: set<Numbered>) {
    && s.started && Windowed(s) && (s.cache == map[] ==> s.gapTs == 0)
    && RunEnd(got, anchor, s.next)
    && OutExact(s, anchor, items)
    && (forall u :: u > s.next ==> (u in s.cache <==> u in got))
    && (forall u :: u in s.cache ==> (u, s.cache[u]) in items)
  }

  /** The output is the numbers from `anchor` up to the expected one, each with a packet received for it. */
  predicate OutExact(s: JState, anchor: int, items: set<Numbered>) {
    && |s.out| == s.next - anchor
    && (forall i :: 0 <= i < |s.out| ==> s.out[i].0 == anchor + i)
    && (forall i :: 0 <= i < |s.out| ==> s.out[i] in items)
  }

  lemma {:induction false} DrainTracks(s: JState, anchor: int, items: set<Numbered>)
    requires OutExact(s, anchor, items)
    requires forall u :: u in s.cache ==> (u, s.cache[u]) in items
    ensures OutExact(Drain(s), anchor, items)
    decreases |s.cache|
  {
    if s.next in s.cache {
      var t := Emit(s.(cache := s.cache - {s.next}), s.cache[s.next]);
      assert (s.cache - {s.next}).Keys == s.cache.Keys - {s.next};
      DrainTracks(t, anchor, items);
    }
  }

  lemma InOrderTracks(s: JState, anchor: int, got: set<int>, items: set<Numbered>, a: Arrival)
    requires Tracks(s, anchor, got, items)
    ensures Tracks(Drain(Emit(s, a.pkt)), anchor, got + {s.next}, items + {(s.next, a.pkt)})
  {
    var e := Emit(s, a.pkt);
    DrainTracks(e, anchor, items + {(s.next, a.pkt)});
    assert Drain(e).next !in s.cache;
  }

  lemma StepTracks(s: JState, anchor: int, got: set<int>, items: set<Numbered>, x: Sent)
    requires Tracks(s, anchor, got, items) && anchor <= s.next
    requires ArrivalOk(Wire(x)) && Reachable(x, s.next) && InTime(s, x.now)
    ensures Tracks(Push(s, Wire(x)), anchor, got + {x.num}, items + {(x.num, x.pkt)})
  {
    var a := Wire(x);
    if x.num == s.next {
      NextIsDrained(s, x);
      InOrderTracks(s, anchor, got, items, a);
    } else if x.num > s.next {
      AheadIsHeld(s, x);
      HoldKeepsWindow(s, a);
      hide Push;
    } else {
      BehindIsStale(s, x);
      hide Push;
    }
  }

  lemma NextIsDrained(s: JState, x: Sent)
    requires s.started && ArrivalOk(Wire(x)) && x.num == s.next && InTime(s, x.now)
    ensures Push(s, Wire(x)) == Drain(Emit(s, x.pkt))
  {
    hide Drain, SkipGap, Low32;
    WireAhead(s, x);
    NextIsTaken(s, Wire(x));
    hide Low16, Push;
    DrainKeepsGap(Emit(s, x.pkt));
  }

  lemma NextIsTaken(s: JState, a: Arrival)
    requires s.started && ArrivalOk(a) && Ahead(s, a.seq16) == 0
    ensures Push(s, a) == TakeNext(s, a)
  {
    hide TakeNext, Low16;
  }

  /** The distance of a wire number is that of the number it stands for. */
  lemma WireAhead(s: JState, x: Sent)
    ensures Ahead(s, Wire(x).seq16) == Low16(x.num - s.next)
  {
    var q := x.num / U16;
    assert x.num == Low16(x.num) + 0x1_0000 * q;
    Low16Shift(Low16(x.num) - s.next, q);
  }

  lemma AheadIsHeld(s: JState, x: Sent)
    requires s.started && ArrivalOk(Wire(x)) && s.next < x.num < s.next + CAP && InTime(s, x.now)
    requires s.cache == map[] ==> s.gapTs == 0
    ensures KindOf(s, Wire(x)) == InWindow && Push(s, Wire(x)) == Hold(s, Wire(x))
    ensures Hold(s, Wire(x)).cache == s.cache[x.num := x.pkt]
  {
    WireAhead(s, x);
    assert Ahead(s, Wire(x).seq16) == x.num - s.next;
    AheadIsTaken(s, Wire(x));
    hide Drain, SkipGap, Push, Low16;
  }

  lemma AheadIsTaken(s: JState, a: Arrival)
    requires s.started && ArrivalOk(a) && 0 < Ahead(s, a.seq16) < CAP
    ensures KindOf(s, a) == InWindow && Push(s, a) == TakeAhead(s, a)
  {
    hide TakeAhead, Low16;
  }

  lemma BehindIsStale(s: JState, x: Sent)
    requires s.started && ArrivalOk(Wire(x)) && s.next - 0x8000 <= x.num < s.next
    ensures Push(s, Wire(x)) == s.(stale := Tick(s.stale, 1))
  {
    WireAhead(s, x);
    assert Ahead(s, Wire(x).seq16) == x.num - s.next + U16;
    hide Drain, SkipGap;
  }

  /**
   A run that meets no deadline and never jumps a window ahead emits exactly the longest gap-free
   run of received numbers that starts at the first packet, in order and once each, across every
   wrap of the 16-bit number; the packets held are the received ones beyond it.
   */
  lemma {:induction false} CalmRunIsExact(timeout: nat, xs: seq<Sent>)
    requires xs != [] && Calm(timeout, xs)
    ensures Tracks(After(timeout, xs), xs[0].num, Nums(xs), Items(xs))
  {
    var before, x := xs[..|xs| - 1], xs[|xs| - 1];
    var s := After(timeout, before);
    assert Wires(xs)[..|Wires(xs)| - 1] == Wires(before);
    assert After(timeout, xs) == Push(s, Wire(x));
    if before == [] {
      assert Nums(before) == {} && Items(before) == {};
      assert Push(s, Wire(x)).out == [(x.num, x.pkt)];
    } else {
      assert before[0] == xs[0];
      CalmRunIsExact(timeout, before);
      StepTracks(s, xs[0].num, Nums(before), Items(before), x);
    }
  }
}
