/** What one arrival does to the reorder buffer, told in sequence distances and milliseconds. */
module JitterLaws {
  // The distance is the wire number minus the expected one modulo 2^16; the wait is the arrival's clock minus
  // the time the gap was first seen, modulo 2^32. Together the laws cover every arrival of a started buffer.

  import opened Bytes
  import opened JitterSpec

  function Distance(s: JState, a: Arrival): nat { Low16(a.seq16 - s.next) }

  /** The configured deadline in milliseconds, or fifty. */
  function Deadline(s: JState): nat { if s.timeout != 0 then s.timeout else 50 }

  /** When the gap was first seen; an arrival that opens one sees it now. */
  function GapSeen(s: JState, a: Arrival): nat { if s.gapTs == 0 then a.now else s.gapTs }

  predicate Acceptable(s: JState, a: Arrival) { Windowed(s) && s.started && ArrivalOk(a) }

  /** `t` has put out the packets of `c` from number `k` up to the first missing one, and holds the later ones. */
  ghost predicate PutsOut(out: seq<Numbered>, c: map<int, Packet>, k: int, t: JState) {
    && k <= t.next && t.next !in c && (forall u :: k <= u < t.next ==> u in c)
    && |t.out| == |out| + (t.next - k) && out <= t.out
    && (forall i :: |out| <= i < |t.out| ==> k + (i - |out|) in c && t.out[i] == (k + (i - |out|), c[k + (i - |out|)]))
    && (forall u :: u in t.cache <==> u in c && u >= t.next) && (forall u :: u in t.cache ==> t.cache[u] == c[u])
  }

  predicate Smallest(c: map<int, Packet>, k: int) { k in c && forall u :: u in c ==> k <= u }

  lemma DrainPutsOut(s: JState)
    requires forall u :: u in s.cache ==> s.next <= u
    ensures PutsOut(s.out, s.cache, s.next, Drain(s))
    ensures Drain(s) == s.(next := Drain(s).next, cache := Drain(s).cache, gapTs := Drain(s).gapTs, out := Drain(s).out)
  {
    DrainExact(s);
    hide Drain;
  }

  /** A gap that is given up: the missing numbers are counted and the run behind them is put out. */
  lemma SkipPutsOut(s: JState)
    requires s.cache != map[] && forall u :: u in s.cache ==> s.next < u < s.next + 128
    ensures exists k :: Smallest(s.cache, k) && PutsOut(s.out, s.cache, k, SkipGap(s))
                        && SkipGap(s).skipped == Low32(s.skipped + (k - s.next))
  {
    FirstHeldFound(s.cache, s.next);
    var k := FirstHeld(s.cache, s.next, CAP);
    assert Smallest(s.cache, k);
    DrainPutsOut(SkipTo(s));
    hide Drain, FirstHeld;
  }

  /** One to 127 ahead and before the deadline: held, and nothing put out or given up. */
  lemma AheadInTimeIsHeld(s: JState, a: Arrival)
    requires Acceptable(s, a) && 0 < Distance(s, a) < 128 && Low32(a.now - GapSeen(s, a)) < Deadline(s)
    ensures Push(s, a) == s.(cache := s.cache[s.next + Distance(s, a) := a.pkt], gapTs := GapSeen(s, a),
                             cached := Low32(s.cached + 1))
  {
    hide Drain, SkipGap;
  }

  /**
   One to 127 ahead and at or past the deadline: the packet is held, the numbers before the smallest
   held one are given up, and the run that starts there is put out.
   */
  lemma AheadOverdueSkips(s: JState, a: Arrival)
    requires Acceptable(s, a) && 0 < Distance(s, a) < 128 && Low32(a.now - GapSeen(s, a)) >= Deadline(s)
    ensures var c := s.cache[s.next + Distance(s, a) := a.pkt];
      exists k :: Smallest(c, k) && PutsOut(s.out, c, k, Push(s, a))
                  && Push(s, a).skipped == Low32(s.skipped + (k - s.next))
  {
    OverdueIsSkip(s, a);
    HoldKeepsWindow(s, a);
    hide Push, SkipGap, Hold, Drain;
    HoldIs(s, a);
    SkipPutsOut(Hold(s, a));
  }

  lemma HoldIs(s: JState, a: Arrival)
    ensures Hold(s, a) == s.(cache := s.cache[s.next + Distance(s, a) := a.pkt], gapTs := GapSeen(s, a), cached := Low32(s.cached + 1))
  {
  }

  lemma OverdueIsSkip(s: JState, a: Arrival)
    requires Acceptable(s, a) && 0 < Distance(s, a) < 128 && Low32(a.now - GapSeen(s, a)) >= Deadline(s)
    ensures KindOf(s, a) == InWindow && Push(s, a) == SkipGap(Hold(s, a))
  {
    hide SkipGap, Drain;
  }

  /** The expected number: put out with the run right behind it; nothing more while nobody waits past the deadline. */
  lemma NextInTime(s: JState, a: Arrival)
    requires Acceptable(s, a) && Distance(s, a) == 0 && (s.cache == map[] || Low32(a.now - s.gapTs) < Deadline(s))
    ensures PutsOut(s.out + [(s.next, a.pkt)], s.cache, s.next + 1, Push(s, a)) && Push(s, a).skipped == s.skipped
  {
    hide Drain, SkipGap, Push, PutsOut;
    EmittedPutsOut(s, a);
    NextIsOnlyDrain(s, a);
  }

  lemma EmittedPutsOut(s: JState, a: Arrival)
    requires Windowed(s)
    ensures PutsOut(s.out + [(s.next, a.pkt)], s.cache, s.next + 1, Drain(Emit(s, a.pkt)))
    ensures Drain(Emit(s, a.pkt)).skipped == s.skipped
  {
    DrainPutsOut(Emit(s, a.pkt));
    hide Drain, PutsOut;
  }

  lemma NextIsOnlyDrain(s: JState, a: Arrival)
    requires Acceptable(s, a) && Distance(s, a) == 0 && (s.cache == map[] || Low32(a.now - s.gapTs) < Deadline(s))
    ensures Push(s, a) == Drain(Emit(s, a.pkt))
  {
    DrainKeepsGap(Emit(s, a.pkt));
    hide Drain, SkipGap;
  }

  /** `t` has given up the gap `m` waits behind, if it waits behind one. */
  ghost predicate SkipsFrom(m: JState, skipped: nat, t: JState) {
    if m.cache == map[] then t.out == m.out && t.skipped == skipped
    else exists k :: Smallest(m.cache, k) && PutsOut(m.out, m.cache, k, t) && t.skipped == Low32(skipped + (k - m.next))
  }

  /**
   The expected number when packets have waited for the deadline: after the run right behind it, the
   next gap is given up too, if packets still wait behind one.
   */
  lemma NextOverdue(s: JState, a: Arrival)
    requires Acceptable(s, a) && Distance(s, a) == 0 && Low32(a.now - s.gapTs) >= Deadline(s)
    ensures exists m: JState ::
              PutsOut(s.out + [(s.next, a.pkt)], s.cache, s.next + 1, m) && SkipsFrom(m, s.skipped, Push(s, a))
  {
    hide Push, Drain, SkipGap, PutsOut, Emit;
    var m := Drain(Emit(s, a.pkt));
    EmittedPutsOut(s, a);
    DrainKeepsWindow(s, a);
    NextIsDrain(s, a);
    if m.cache != map[] { SkipPutsOut(m); }
    assert SkipsFrom(m, s.skipped, Push(s, a));
  }

  lemma DrainKeepsWindow(s: JState, a: Arrival)
    requires Windowed(s)
    ensures var m := Drain(Emit(s, a.pkt)); m.skipped == s.skipped && forall u :: u in m.cache ==> m.next < u < m.next + 128
  {
  }

  lemma NextIsDrain(s: JState, a: Arrival)
    requires Acceptable(s, a) && Distance(s, a) == 0 && Low32(a.now - s.gapTs) >= Deadline(s)
    ensures var m := Drain(Emit(s, a.pkt)); Push(s, a) == if m.cache != map[] then SkipGap(m) else m
  {
    DrainKeepsGap(Emit(s, a.pkt));
    hide Drain, SkipGap;
  }

  /** 128 to 32767 ahead: everything held is dropped and the buffer starts over at the packet. */
  lemma FarAheadStartsOver(s: JState, a: Arrival)
    requires Acceptable(s, a) && 128 <= Distance(s, a) < 32768
    ensures var u := s.next + Distance(s, a);
      Push(s, a) == JState(true, u + 1, map[], 0, s.timeout, 0, 0, 0, 1, s.out + [(u, a.pkt)])
  {
    hide Drain, SkipGap;
  }

  /** 32768 or more ahead, which is behind: counted and dropped. */
  lemma BehindIsDropped(s: JState, a: Arrival)
    requires Acceptable(s, a) && Distance(s, a) >= 32768
    ensures Push(s, a) == s.(stale := Low32(s.stale + 1))
  {
    hide Drain, SkipGap;
  }

  /** The first acceptable packet anchors the buffer and is put out at once. */
  lemma FirstAnchors(s: JState, a: Arrival)
    requires !s.started && s.cache == map[] && ArrivalOk(a)
    ensures Push(s, a) == s.(started := true, next := a.seq16 + 1, gapTs := 0, out := s.out + [(a.seq16 as int, a.pkt)])
  {
  }

  // ---------------------------------------------------------------- how long packets have waited

  /** The clock at the arrival since which packets have been waiting; 0 when none waits. */
  function WaitingSince(timeout: nat, arrivals: seq<Arrival>): nat {
    if arrivals == [] || Run(FRESH.(timeout := timeout), arrivals).cache == map[] then 0
    else
      var before := arrivals[..|arrivals| - 1];
      if Run(FRESH.(timeout := timeout), before).cache == map[] then arrivals[|arrivals| - 1].now
      else WaitingSince(timeout, before)
  }

  /** The gap's time in one step: it is set when packets begin to wait and cleared when none does. */
  lemma GapTimeStep(s: JState, a: Arrival)
    requires Windowed(s) && (s.cache == map[] <==> s.gapTs == 0) && (!s.started ==> s.cache == map[])
    requires a.now > 0
    ensures var t := Push(s, a);
      (t.cache == map[] <==> t.gapTs == 0)
      && (t.cache != map[] ==> t.gapTs == if s.cache == map[] then a.now else s.gapTs)
  {
    if ArrivalOk(a) {
      var x := Anchored(s, a.seq16);
      assert Push(s, a) == Push(x, a);
      match KindOf(x, a)
      case InOrder => DrainKeepsGap(Emit(x, a.pkt)); DrainKeepsGap(SkipTo(Drain(Emit(x, a.pkt))));
      case InWindow => HoldKeepsWindow(x, a); DrainKeepsGap(SkipTo(Hold(x, a)));
      case _ =>
      hide Drain;
    }
  }

  /** On a clock that never reads zero, the gap's time is that of the arrival since which packets wait. */
  lemma {:induction false} GapTimeIsOldest(timeout: nat, arrivals: seq<Arrival>)
    requires forall i :: 0 <= i < |arrivals| ==> arrivals[i].now > 0
    ensures var t := Run(FRESH.(timeout := timeout), arrivals);
      t.gapTs == WaitingSince(timeout, arrivals) && (t.cache == map[] <==> t.gapTs == 0)
  {
    if arrivals != [] {
      var before := arrivals[..|arrivals| - 1];
      GapTimeIsOldest(timeout, before);
      RunKeepsWindow(FRESH.(timeout := timeout), before);
      GapTimeStep(Run(FRESH.(timeout := timeout), before), arrivals[|arrivals| - 1]);
    }
  }

  /** The packet with which the waiting began was held behind the gap. */
  lemma WaitingBegins(s: JState, a: Arrival)
    requires Windowed(s) && s.cache == map[] && Push(s, a).cache != map[]
    ensures ArrivalOk(a) && s.started && 0 < Distance(s, a) < 128
    ensures Push(s, a).cache == map[s.next + Distance(s, a) := a.pkt] && Push(s, a).out == s.out
  {
    var t := Push(s, a);
    HasKey(t.cache);
    var x := Anchored(s, a.seq16);
    DrainKeepsGap(Emit(x, a.pkt));
    if KindOf(x, a) == InWindow && Expired(Hold(x, a), a.now) {
      HoldKeepsWindow(x, a);
      SkipPutsOut(Hold(x, a));
    }
    hide Drain;
  }
}
