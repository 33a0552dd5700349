/** The viewers of one name over runs of the registry. */
module ViewerRuns {
  // New ones come in front, old ones leave, and nobody who left comes back.

  import opened BroadcastSpec
  import opened Lists
  import opened Options
  import opened RegistryInvariant
  import opened RegistryRuns
  import opened RegistrySpec

  /** What a worker asks the registry for: a name, how many workers there are, how many viewers fit. */
  datatype View = View(name: string, nworkers: nat, max: nat)

  function Shown(s: Shm, v: View): seq<Target> { Snapshot(s, v.name, v.nworkers, v.max) }

  /** All ready viewers of the name, without the limit. */
  function Visible(s: Shm, v: View): seq<Target> {
    match Lookup(s, v.name)
    case None => []
    case Some(a) => ReadyOf(s.sessions, s.sources[a].subscribers, v.nworkers)
  }

  /** The ready viewers of a subscriber list. */
  function ReadyOf(sessions: map<Addr, Session>, l: seq<Addr>, nworkers: nat): (r: seq<Target>)
    ensures |r| <= |l|
  {
    if l == [] then []
    else
      (if l[0] in sessions && ReadyViewer(sessions[l[0]], nworkers) then [(sessions[l[0]].id, sessions[l[0]].ownerSlot)] else [])
      + ReadyOf(sessions, l[1..], nworkers)
  }

  // ---------------------------------------------------------------- lists that grow in front and shrink

  function FirstOf<T>(l: seq<T>, max: nat): seq<T> { if |l| <= max then l else l[..max] }

  /** `later` is `earlier` without `gone`, behind `k` elements that were not on it. */
  predicate GrownBy(earlier: seq<Target>, later: seq<Target>, k: nat, gone: set<Target>) {
    k <= |later| && later[k..] == Minus(earlier, gone) && forall i :: 0 <= i < k ==> later[i] !in earlier
  }

  ghost predicate Grown(earlier: seq<Target>, later: seq<Target>) {
    exists k: nat, gone :: GrownBy(earlier, later, k, gone)
  }

  /** Nobody is on the later list who was not on the earlier one, and nobody among its first `max` has left. */
  predicate Unchanged(earlier: seq<Target>, later: seq<Target>, max: nat) {
    (forall x :: x in later ==> x in earlier) && (forall x :: x in FirstOf(earlier, max) ==> x in later)
  }

  lemma MinusFront<T(!new)>(y: T, rest: seq<T>, dead: set<T>)
    ensures Minus([y] + rest, dead) == if y in dead then Minus(rest, dead) else [y] + Minus(rest, dead)
  {
    assert ([y] + rest)[1..] == rest;
  }

  lemma {:induction false} MinusConcat(a: seq<Target>, b: seq<Target>, dead: set<Target>)
    ensures Minus(a + b, dead) == Minus(a, dead) + Minus(b, dead)
  {
    if a == [] {
      assert a + b == b;
    } else {
      MinusConcat(a[1..], b, dead);
      hide Minus;
      HeadOfConcat(a, b);
      MinusFront(a[0], a[1..], dead);
      MinusFront(a[0], a[1..] + b, dead);
      ConcatInThree([a[0]], Minus(a[1..], dead), Minus(b, dead));
    }
  }

  lemma HeadOfConcat<T>(a: seq<T>, b: seq<T>)
    requires a != []
    ensures a == [a[0]] + a[1..] && a + b == [a[0]] + (a[1..] + b)
  {
  }

  lemma ConcatInThree<T>(a: seq<T>, b: seq<T>, c: seq<T>)
    ensures a + (b + c) == (a + b) + c
  {
  }

  lemma GrownSame(l: seq<Target>)
    ensures Grown(l, l)
  {
    MinusNothing(l, {});
    assert GrownBy(l, l, 0, {});
  }

  lemma GrownFront(earlier: seq<Target>, later: seq<Target>, x: Target)
    requires Grown(earlier, later) && x !in earlier
    ensures Grown(earlier, [x] + later)
  {
    var k: nat, gone :| GrownBy(earlier, later, k, gone);
    assert ([x] + later)[k + 1..] == later[k..];
    assert GrownBy(earlier, [x] + later, k + 1, gone);
  }

  lemma GrownLess(earlier: seq<Target>, later: seq<Target>, x: Target)
    requires Grown(earlier, later)
    ensures Grown(earlier, Minus(later, {x}))
  {
    var k: nat, gone :| GrownBy(earlier, later, k, gone);
    var front := Minus(later[..k], {x});
    assert later == later[..k] + later[k..];
    MinusConcat(later[..k], later[k..], {x});
    MinusMinus(earlier, gone, {x});
    forall y | y in front ensures y !in earlier { assert y in later[..k]; }
    GrownFrom(earlier, front, gone + {x});
  }

  lemma GrownFrom(earlier: seq<Target>, front: seq<Target>, gone: set<Target>)
    requires forall y :: y in front ==> y !in earlier
    ensures Grown(earlier, front + Minus(earlier, gone))
  {
    var all := front + Minus(earlier, gone);
    assert all[|front|..] == Minus(earlier, gone);
    assert forall i :: 0 <= i < |front| ==> all[i] in front;
    assert GrownBy(earlier, all, |front|, gone);
  }

  lemma MinusKeepsFirst(l: seq<Target>, dead: set<Target>, max: nat)
    requires forall x :: x in FirstOf(l, max) ==> x !in dead
    ensures FirstOf(Minus(l, dead), max) == FirstOf(l, max)
  {
    var front := FirstOf(l, max);
    MinusNothing(front, dead);
    assert l == front + l[|front|..];
    MinusConcat(front, l[|front|..], dead);
    if |l| <= max { assert l[|front|..] == []; }
  }

  /** Two moments show the same exactly when nobody came who is seen and nobody left who was seen. */
  lemma ShownAgreesExactly(earlier: seq<Target>, later: seq<Target>, max: nat)
    requires Grown(earlier, later) && max > 0
    ensures FirstOf(earlier, max) == FirstOf(later, max) <==> Unchanged(earlier, later, max)
  {
    var k: nat, gone :| GrownBy(earlier, later, k, gone);
    if k > 0 {
      assert FirstOf(later, max)[0] == later[0] && later[0] in later && later[0] !in earlier;
      assert forall x :: x in FirstOf(earlier, max) ==> x in earlier;
    } else {
      assert later == Minus(earlier, gone);
      if Unchanged(earlier, later, max) { MinusKeepsFirst(earlier, gone, max); }
    }
  }

  // ---------------------------------------------------------------- viewers over a run

  lemma {:induction false} SnapshotIsFirst(sessions: map<Addr, Session>, l: seq<Addr>, nworkers: nat, max: nat)
    ensures SnapshotOf(sessions, l, nworkers, max) == FirstOf(ReadyOf(sessions, l, nworkers), max)
  {
    if l != [] {
      var ready := l[0] in sessions && ReadyViewer(sessions[l[0]], nworkers);
      if !ready {
        SnapshotIsFirst(sessions, l[1..], nworkers, max);
      } else if max > 0 {
        SnapshotIsFirst(sessions, l[1..], nworkers, max - 1);
      }
    }
  }

  lemma ShownIsFirst(s: Shm, v: View)
    ensures Shown(s, v) == FirstOf(Visible(s, v), v.max)
  {
    if Lookup(s, v.name).Some? {
      SnapshotIsFirst(s.sessions, s.sources[Lookup(s, v.name).value].subscribers, v.nworkers, v.max);
    }
  }

  lemma ReadyAgrees(s: Shm, t: Shm, l: seq<Addr>, nworkers: nat)
    requires forall q :: q in l ==> q in s.sessions && q in t.sessions
    requires forall q :: q in l ==> s.sessions[q].id == t.sessions[q].id
    requires forall q :: q in l ==> s.sessions[q].ownerSlot == t.sessions[q].ownerSlot
    requires forall q :: q in l ==> s.sessions[q].srtpReady && t.sessions[q].srtpReady
    ensures ReadyOf(s.sessions, l, nworkers) == ReadyOf(t.sessions, l, nworkers)
  {
    SnapshotIsFirst(s.sessions, l, nworkers, |l|);
    SnapshotIsFirst(t.sessions, l, nworkers, |l|);
    SnapshotAgrees(s, t, l, nworkers, |l|);
  }

  /** A later moment of the same run. */
  ghost predicate Since(m: Shm, s: Shm, v: View) {
    Inv(m) && Inv(s) && Evolves(m, s) && Grown(Visible(m, v), Visible(s, v))
  }

  lemma SinceItself(s: Shm, v: View)
    requires Inv(s)
    ensures Since(s, s, v)
  {
    SelfEvolves(s);
    GrownSame(Visible(s, v));
  }

  /** A skeleton that was shown once is still a ready viewer of its source. */
  lemma OldViewerIsReady(m: Shm, s: Shm, v: View, q: Addr, x: Target)
    requires Inv(m) && Inv(s) && Evolves(m, s) && q in s.sessions && x.0 == s.sessions[q].id && x in Visible(m, v)
    ensures s.sessions[q].srtpReady
  {
    var l := m.sources[Lookup(m, v.name).value].subscribers;
    SnapshotIsFirst(m.sessions, l, v.nworkers, |l|);
    SnapshotIsReady(m, l, v.nworkers, |l|, x);
    var r :| r in l && Cached(m, r, v.nworkers, x);
    assert SessionOk(m, r) && SessionEvolves(m, s, q) && SameId(m, q, r);
  }

  lemma SameVersionSameViewers(s: Shm, t: Shm, a: Addr, b: Addr)
    requires Inv(s) && Inv(t) && Evolves(s, t) && a in s.sources && b in t.sources
    requires s.sources[a].birth == t.sources[b].birth && s.sources[a].version == t.sources[b].version
    ensures a == b && s.sources[a].subscribers == t.sources[b].subscribers
    ensures forall n: nat :: ReadyOf(s.sessions, s.sources[a].subscribers, n) == ReadyOf(t.sessions, s.sources[a].subscribers, n)
  {
    assert SourceOk(s, a) && SourceOk(t, b) && SourceEvolves(s, t, b);
    assert SameBirth(s, a, b);
    SubscribersAreSessions(s, a);
    forall q | q in s.sources[a].subscribers
      ensures q in t.sessions && s.sessions[q].ownerSlot == t.sessions[q].ownerSlot && t.sessions[q].srtpReady
    {
      assert SessionEvolves(s, t, q) && SessionOk(s, q);
    }
    forall n: nat { ReadyAgrees(s, t, s.sources[a].subscribers, n); }
  }

  lemma SubscribedStays(s: Shm, op: Op, a: Addr)
    requires Inv(s) && Enabled(s, op) && a in s.sources && s.sources[a].subscribers != []
    ensures a in Next(s, op).sources && Next(s, op).sources[a].birth == s.sources[a].birth
  {
    assert SourceOk(s, a);
    ExpireSources(s);
    hide Expire, AllocFresh, Inv;
  }

  /** A sweep creates no source and frees none that has viewers. */
  lemma ExpireSources(s: Shm)
    ensures forall now: nat, forced: bool, a :: a in Expire(s, now, forced).sources ==>
              a in s.sources && Expire(s, now, forced).sources[a].birth == s.sources[a].birth
    ensures forall now: nat, forced: bool, a :: a in s.sources && s.sources[a].subscribers != [] ==>
              a in Expire(s, now, forced).sources
  {
    hide DueSessions, Referenced;
  }

  lemma NewSourceIsBare(s: Shm, op: Op, b: Addr)
    requires Inv(s) && Enabled(s, op) && b in Next(s, op).sources
    requires b !in s.sources || s.sources[b].birth != Next(s, op).sources[b].birth
    ensures Next(s, op).sources[b].subscribers == []
  {
    ExpireSources(s);
    hide Expire, AllocFresh;
  }

  /** Steps other than activation and removal of a skeleton leave the viewers of a name alone. */
  lemma QuietVisible(s: Shm, op: Op, v: View)
    requires Inv(s) && Enabled(s, op) && !op.OpActivate? && !op.OpRemoveIfOwner?
    ensures Visible(Next(s, op), v) == Visible(s, v)
  {
    var t := Next(s, op);
    StepKeepsInv(s, op);
    StepEvolves(s, op);
    hide Inv, Evolves, Enabled, Next;
    if Lookup(s, v.name).Some? && s.sources[Lookup(s, v.name).value].subscribers != [] {
      StaysVisible(s, op, Lookup(s, v.name).value, v);
    } else if Lookup(t, v.name).Some? {
      StaysBare(s, op, Lookup(t, v.name).value, v);
    }
  }

  lemma StaysVisible(s: Shm, op: Op, a: Addr, v: View)
    requires Inv(s) && Enabled(s, op) && !op.OpActivate? && !op.OpRemoveIfOwner?
    requires Lookup(s, v.name) == Some(a) && s.sources[a].subscribers != []
    ensures Visible(Next(s, op), v) == Visible(s, v)
  {
    var t := Next(s, op);
    StepKeepsInv(s, op);
    StepEvolves(s, op);
    FoundIsOk(s, v.name);
    SubscribedStays(s, op, a);
    QuietVersion(s, op, a);
    assert SourceOk(s, a) && SourceEvolves(s, t, a);
    FoundByName(t, a);
    SameVersionSameViewers(s, t, a, a);
    hide Next, Enabled, Inv, Evolves;
  }

  lemma StaysBare(s: Shm, op: Op, b: Addr, v: View)
    requires Inv(s) && Enabled(s, op) && !op.OpActivate? && !op.OpRemoveIfOwner?
    requires Visible(s, v) == [] && (Lookup(s, v.name).Some? ==> s.sources[Lookup(s, v.name).value].subscribers == [])
    requires Lookup(Next(s, op), v.name) == Some(b)
    ensures Visible(Next(s, op), v) == []
  {
    var t := Next(s, op);
    StepKeepsInv(s, op);
    StepEvolves(s, op);
    FoundIsOk(t, v.name);
    if b in s.sources && s.sources[b].birth == t.sources[b].birth {
      QuietVersion(s, op, b);
      assert SourceOk(s, b) && SourceEvolves(s, t, b);
      FoundByName(s, b);
      SameVersionSameViewers(s, t, b, b);
    } else {
      NewSourceIsBare(s, op, b);
    }
  }

  /** Activation adds at most one viewer in front, and it is one that was not shown before. */
  lemma ActivateGrows(m: Shm, s: Shm, ufrag: string, slot: nat, v: View)
    requires Since(m, s, v)
    ensures Grown(Visible(m, v), Visible(Activate(s, ufrag, slot), v))
  {
    var t := Activate(s, ufrag, slot);
    if ClaimRc(s, ufrag, slot) == Ok && Lookup(s, v.name).Some? {
      var q, a := Find(s, ufrag).value, Lookup(s, v.name).value;
      var l := s.sources[a].subscribers;
      SubscribersAreSessions(s, a);
      ReadyAgrees(s, t, l, v.nworkers);
      assert SessionOk(s, q) && ViewerOk(s, s.sessions[q].source, q);
      ReadyFront(t.sessions, q, l, v.nworkers);
      if t.sources[a].subscribers == [q] + l { NewcomerGrows(m, s, q, (s.sessions[q].id, slot), v); }
    }
  }

  lemma NewcomerGrows(m: Shm, s: Shm, q: Addr, x: Target, v: View)
    requires Since(m, s, v) && q in s.sessions && !s.sessions[q].srtpReady && x.0 == s.sessions[q].id
    ensures Grown(Visible(m, v), [x] + Visible(s, v))
  {
    if x in Visible(m, v) { OldViewerIsReady(m, s, v, q, x); }
    GrownFront(Visible(m, v), Visible(s, v), x);
  }

  lemma {:induction false} ReadyMinus(s: Shm, l: seq<Addr>, q: Addr, nworkers: nat)
    requires Distinct(s) && q in s.sessions
    ensures ReadyOf(s.sessions, Minus(l, {q}), nworkers)
         == Minus(ReadyOf(s.sessions, l, nworkers), {(s.sessions[q].id, s.sessions[q].ownerSlot)})
  {
    if l != [] {
      var h, rest := l[0], l[1..];
      ReadyMinus(s, rest, q, nworkers);
      assert l == [h] + rest;
      MinusFront(h, rest, {q});
      ReadyMinusFront(s, h, rest, q, nworkers);
    }
  }

  lemma ReadyMinusFront(s: Shm, h: Addr, rest: seq<Addr>, q: Addr, nworkers: nat)
    requires Distinct(s) && q in s.sessions
    requires ReadyOf(s.sessions, Minus(rest, {q}), nworkers)
          == Minus(ReadyOf(s.sessions, rest, nworkers), {(s.sessions[q].id, s.sessions[q].ownerSlot)})
    ensures ReadyOf(s.sessions, if h == q then Minus(rest, {q}) else [h] + Minus(rest, {q}), nworkers)
         == Minus(ReadyOf(s.sessions, [h] + rest, nworkers), {(s.sessions[q].id, s.sessions[q].ownerSlot)})
  {
    var x := (s.sessions[q].id, s.sessions[q].ownerSlot);
    assert SameId(s, h, q) ==> h == q;
    hide ReadyOf, Minus;
    ReadyFront(s.sessions, h, rest, nworkers);
    ReadyFront(s.sessions, h, Minus(rest, {q}), nworkers);
    if h in s.sessions { MinusFront((s.sessions[h].id, s.sessions[h].ownerSlot), ReadyOf(s.sessions, rest, nworkers), {x}); }
  }

  lemma ReadyFront(sessions: map<Addr, Session>, q: Addr, l: seq<Addr>, nworkers: nat)
    ensures ReadyOf(sessions, [q] + l, nworkers) ==
      if q in sessions && ReadyViewer(sessions[q], nworkers)
      then [(sessions[q].id, sessions[q].ownerSlot)] + ReadyOf(sessions, l, nworkers)
      else ReadyOf(sessions, l, nworkers)
  {
    assert ([q] + l)[1..] == l && ([q] + l)[0] == q;
  }

  /** Freeing a skeleton takes at most one viewer off. */
  lemma FreeGrows(m: Shm, s: Shm, q: Addr, now: nat, v: View)
    requires Since(m, s, v) && q in s.sessions
    ensures Grown(Visible(m, v), Visible(FreeSession(s, q, now), v))
  {
    var t := FreeSession(s, q, now);
    if Lookup(s, v.name).Some? {
      var a := Lookup(s, v.name).value;
      var l := s.sources[a].subscribers;
      SubscribersAreSessions(s, a);
      assert SessionOk(s, q) && ViewerOk(s, a, q);
      if q in l {
        ReadyAgrees(s, t, Minus(l, {q}), v.nworkers);
        ReadyMinus(s, l, q, v.nworkers);
        GrownLess(Visible(m, v), Visible(s, v), (s.sessions[q].id, s.sessions[q].ownerSlot));
      } else {
        ReadyAgrees(s, t, l, v.nworkers);
      }
    }
  }

  /** Every step keeps the earlier moments earlier. */
  lemma StepKeepsSince(m: Shm, s: Shm, op: Op, v: View)
    requires Since(m, s, v) && Enabled(s, op)
    ensures Since(m, Next(s, op), v)
  {
    StepKeepsInv(s, op);
    StepEvolves(s, op);
    EvolvesTransitive(m, s, Next(s, op));
    if op.OpActivate? {
      ActivateGrows(m, s, op.ufrag, op.slot, v);
    } else if op.OpRemoveIfOwner? {
      if Find(s, op.ufrag).Some? { FreeGrows(m, s, Find(s, op.ufrag).value, op.now, v); }
    } else {
      QuietVisible(s, op, v);
    }
  }

  /** Two moments of a run show the same viewers exactly when nobody came who is seen and nobody left who was seen. */
  lemma ShownSameExactly(m: Shm, s: Shm, v: View)
    requires Since(m, s, v) && v.max > 0
    ensures Shown(m, v) == Shown(s, v) <==> Unchanged(Visible(m, v), Visible(s, v), v.max)
  {
    ShownIsFirst(m, v);
    ShownIsFirst(s, v);
    ShownAgreesExactly(Visible(m, v), Visible(s, v), v.max);
  }
}
