/**
 The invariant of the registry and its preservation by every step, hence over every
 interleaving of steps by any number of workers.
 */
module RegistryInvariant {
  import opened Lists
  import opened RegistrySpec

  // ---------------------------------------------------------------- the invariant

  /** A source always has a publisher, a viewer or a deadline. */
  predicate Bounded(c: Source) {
    && (c.publishing <==> c.publisherKind != PUBLISHER_NONE)
    && (c.publishing ==> c.expires == 0)
    && (!c.publishing && c.subscribers == [] ==> c.expires != 0)
  }

  /** Live sources are the listed ones, found under their name, and never stranded. */
  ghost predicate SourceOk(s: Shm, a: Addr) {
    && (a in s.sourceList <==> a in s.sources)
    && (a in s.sources ==>
          var c := s.sources[a];
          && NameOk(c.name) && c.name in s.tree && s.tree[c.name] == a
          && NoDup(c.subscribers) && Bounded(c) && c.birth < s.births
          && (c.version == 0 ==> c.subscribers == []))
  }

  predicate NameIndexed(s: Shm, n: string) {
    n in s.tree ==> s.tree[n] in s.sources && s.sources[s.tree[n]].name == n
  }

  /** Live skeletons are the listed ones, point at a live source, and are owned once ready. */
  predicate SessionOk(s: Shm, q: Addr) {
    && (q in s.sessionList <==> q in s.sessions)
    && (q in s.sessions ==>
          var c := s.sessions[q];
          c.source in s.sources && c.id < s.nextId && c.ownerSlot >= -1 && (c.srtpReady ==> c.ownerSlot >= 0))
  }

  predicate Viewer(s: Shm, a: Addr, q: Addr) {
    q in s.sessions && s.sessions[q].source == a && s.sessions[q].srtpReady && !s.sessions[q].publishing
  }

  /** The subscriber list holds exactly the ready viewers of the source. */
  predicate ViewerOk(s: Shm, a: Addr, q: Addr) {
    a in s.sources ==> (q in s.sources[a].subscribers <==> Viewer(s, a, q))
  }

  predicate SameBirth(s: Shm, a: Addr, b: Addr) {
    a in s.sources && b in s.sources && s.sources[a].birth == s.sources[b].birth
  }

  predicate SameId(s: Shm, q: Addr, r: Addr) {
    q in s.sessions && r in s.sessions && s.sessions[q].id == s.sessions[r].id
  }

  ghost predicate SourcesOk(s: Shm) { NoDup(s.sourceList) && forall a :: SourceOk(s, a) }
  ghost predicate NamesOk(s: Shm) { forall n :: NameIndexed(s, n) }
  ghost predicate SessionsOk(s: Shm) { NoDup(s.sessionList) && forall q :: SessionOk(s, q) }
  ghost predicate ViewersOk(s: Shm) { forall a, q :: ViewerOk(s, a, q) }
  ghost predicate Distinct(s: Shm) {
    (forall a, b :: SameBirth(s, a, b) ==> a == b) && (forall q, r :: SameId(s, q, r) ==> q == r)
  }

  ghost predicate Inv(s: Shm) {
    SourcesOk(s) && NamesOk(s) && SessionsOk(s) && ViewersOk(s) && Distinct(s)
  }

  // ---------------------------------------------------------------- helpers

  lemma ConsNoDup<T(!new)>(x: T, l: seq<T>)
    requires NoDup(l) && x !in l
    ensures NoDup([x] + l)
  {
    forall i, j | 0 <= i < j < |l| + 1 ensures ([x] + l)[i] != ([x] + l)[j] {
      assert l[j - 1] in l;
    }
  }

  /** Records that keep their identity stay distinct. */
  lemma DistinctSubset(s: Shm, t: Shm)
    requires Distinct(s)
    requires forall a :: a in t.sources ==> a in s.sources && t.sources[a].birth == s.sources[a].birth
    requires forall q :: q in t.sessions ==> q in s.sessions && t.sessions[q].id == s.sessions[q].id
    ensures Distinct(t)
  {
    forall a, b | SameBirth(t, a, b) ensures a == b { assert SameBirth(s, a, b); }
    forall q, r | SameId(t, q, r) ensures q == r { assert SameId(s, q, r); }
  }

  lemma FoundIsOk(s: Shm, name: string)
    requires Inv(s) && Lookup(s, name).Some?
    ensures Lookup(s, name).value in s.sources && SourceOk(s, Lookup(s, name).value)
    ensures s.sources[Lookup(s, name).value].name == name
  {
    assert NameIndexed(s, name);
  }

  lemma FoundByName(s: Shm, a: Addr)
    requires Inv(s) && a in s.sources
    ensures Lookup(s, s.sources[a].name).Some? && Lookup(s, s.sources[a].name).value == a
  {
    assert SourceOk(s, a);
  }

  // ---------------------------------------------------------------- the reaper

  /** Dropping skeletons that are not viewers keeps the invariant. */
  lemma DropKeepsInv(s: Shm, dead: set<Addr>)
    requires Inv(s)
    requires forall q :: q in dead && q in s.sessions ==> !s.sessions[q].srtpReady
    ensures Inv(DropSessions(s, dead))
  {
    var t := DropSessions(s, dead);
    MinusNoDup(s.sessionList, dead);
    forall a ensures SourceOk(t, a) { assert SourceOk(s, a); }
    forall n ensures NameIndexed(t, n) { assert NameIndexed(s, n); }
    forall q ensures SessionOk(t, q) { assert SessionOk(s, q); }
    forall a, q ensures ViewerOk(t, a, q) { assert ViewerOk(s, a, q); }
    DistinctSubset(s, t);
  }

  /** The source loop of the sweep keeps the invariant at every point of its way. */
  lemma SweepKeepsInv(s: Shm, seen: set<Addr>, now: nat, forced: bool)
    requires Inv(s)
    ensures Inv(Sweep(s, seen, now, forced))
  {
    var dead := DueSources(s, now, forced) * seen;
    var t := Sweep(s, seen, now, forced);
    MinusNoDup(s.sourceList, dead);
    forall a ensures SourceOk(t, a) { assert SourceOk(s, a); }
    forall n ensures NameIndexed(t, n) { assert NameIndexed(s, n); }
    forall q ensures SessionOk(t, q) {
      assert SessionOk(s, q);
      if q in s.sessions { assert Referenced(s, s.sessions[q].source); }
    }
    forall a, q ensures ViewerOk(t, a, q) { assert ViewerOk(s, a, q); }
    DistinctSubset(s, t);
  }

  lemma ExpireKeepsInv(s: Shm, now: nat, forced: bool)
    requires Inv(s)
    ensures Inv(Expire(s, now, forced))
  {
    var dead := DueSessions(s, now, forced);
    forall q | q in dead ensures !s.sessions[q].srtpReady { assert SessionOk(s, q); }
    DropKeepsInv(s, dead);
    var t := DropSessions(s, dead);
    SweepKeepsInv(t, t.sources.Keys, now, forced);
  }

  lemma AfterAllocKeepsInv(s: Shm, al: Alloc, now: nat)
    requires Inv(s)
    ensures Inv(AfterAlloc(s, al, now))
  {
    if !al.First? { ExpireKeepsInv(s, now, true); }
  }

  // ---------------------------------------------------------------- creation

  lemma InsertKeepsInv(s: Shm, name: string, now: nat, at: Addr)
    requires Inv(s) && NameOk(name) && name !in s.tree && at !in s.sources
    ensures Inv(InsertSource(s, name, now, at))
  {
    var t := InsertSource(s, name, now, at);
    assert SourceOk(s, at);
    ConsNoDup(at, s.sourceList);
    forall a ensures SourceOk(t, a) { assert SourceOk(s, a); }
    forall n ensures NameIndexed(t, n) { assert NameIndexed(s, n); }
    forall q ensures SessionOk(t, q) { assert SessionOk(s, q); }
    forall a, q ensures ViewerOk(t, a, q) { assert ViewerOk(s, a, q) && SessionOk(s, q); }
    forall a, b | SameBirth(t, a, b) ensures a == b {
      assert SourceOk(s, a) && SourceOk(s, b);
      if a != at && b != at { assert SameBirth(s, a, b); }
    }
    forall q, r | SameId(t, q, r) ensures q == r { assert SameId(s, q, r); }
  }

  lemma SourceGetKeepsInv(s: Shm, name: string, now: nat, al: Alloc)
    requires Inv(s) && AllocFresh(s, al, now)
    ensures Inv(SourceGet(s, name, now, al))
  {
    if NameOk(name) && Lookup(s, name).None? {
      AfterAllocKeepsInv(s, al, now);
      assert NameIndexed(s, name);
      if !al.Failed? { InsertKeepsInv(AfterAlloc(s, al, now), name, now, al.at); }
    }
  }

  function InsertSession(s: Shm, at: Addr, q: Session): Shm {
    s.(sessions := s.sessions[at := q], sessionList := [at] + s.sessionList, nextId := s.nextId + 1)
  }

  /** Adding a skeleton keeps the invariant exactly when the source it points at is still live. */
  lemma InsertSessionInv(s: Shm, at: Addr, q: Session)
    requires Inv(s) && at !in s.sessions && q.id == s.nextId && !q.srtpReady && q.ownerSlot == -1
    ensures Inv(InsertSession(s, at, q)) <==> q.source in s.sources
  {
    var t := InsertSession(s, at, q);
    if q.source in s.sources {
      assert SessionOk(s, at);
      ConsNoDup(at, s.sessionList);
      forall a ensures SourceOk(t, a) { assert SourceOk(s, a); }
      forall n ensures NameIndexed(t, n) { assert NameIndexed(s, n); }
      forall x ensures SessionOk(t, x) { assert SessionOk(s, x); }
      forall a, x ensures ViewerOk(t, a, x) { assert ViewerOk(s, a, x); }
      forall a, b | SameBirth(t, a, b) ensures a == b { assert SameBirth(s, a, b); }
      forall x, r | SameId(t, x, r) ensures x == r {
        assert SessionOk(s, x) && SessionOk(s, r);
        if x != at && r != at { assert SameId(s, x, r); }
      }
    } else {
      assert !SessionOk(t, at);
    }
  }

  /** After a forced sweep a source is live exactly when the caller's state protects it. */
  lemma PressureSparesExactly(s: Shm, name: string, now: nat)
    requires Inv(s) && Lookup(s, name).Some?
    ensures Lookup(s, name).value in Expire(s, now, true).sources <==> SurvivesPressure(s, name, now)
  {
    var a := Lookup(s, name).value;
    var t := DropSessions(s, DueSessions(s, now, true));
    FoundIsOk(s, name);
    if q :| q in s.sessions && s.sessions[q].source == a && !SessionDue(s.sessions[q], now, true) {
      assert q in t.sessions;
      assert Referenced(t, a);
    } else {
      forall q | q in t.sessions ensures t.sessions[q].source != a {
        assert q in s.sessions && q !in DueSessions(s, now, true);
      }
      assert !Referenced(t, a);
    }
  }

  /**
   Adding a skeleton keeps the invariant exactly when the allocator succeeds at the first try,
   gives up, or the forced sweep in between spares the source that was looked up before it.
   */
  lemma SessionAddKeepsInvExactly(s: Shm, ufrag: string, pwd: string, name: string, publishing: bool, now: nat, al: Alloc)
    requires Inv(s) && AllocFresh(s, al, now)
    requires UfragOk(ufrag) && PwdOk(pwd) && Lookup(s, name).Some?
    ensures Inv(SessionAdd(s, ufrag, pwd, name, publishing, now, al))
       <==> (al.Retried? ==> SurvivesPressure(s, name, now))
  {
    AfterAllocKeepsInv(s, al, now);
    if !al.Failed? {
      var t := AfterAlloc(s, al, now);
      InsertSessionInv(t, al.at, NewSession(t, Lookup(s, name).value, ufrag, pwd, publishing, now));
      if al.Retried? { PressureSparesExactly(s, name, now); }
    }
  }

  /** The failing case exists: a fresh source nobody points at, and a full slab. */
  lemma PressureCanDangle(name: string, now: nat)
    requires NameOk(name)
    ensures var s := InsertSource(EMPTY, name, now, 0);
      Inv(s) && AllocFresh(s, Retried(1), now)
      && !Inv(SessionAdd(s, "u", "p", name, false, now, Retried(1)))
  {
    var s := InsertSource(EMPTY, name, now, 0);
    InsertKeepsInv(EMPTY, name, now, 0);
    SessionAddKeepsInvExactly(s, "u", "p", name, false, now, Retried(1));
  }

  // ---------------------------------------------------------------- updates of one source

  /** Changing a source without touching its identity and its subscriber list. */
  lemma UpdateKeepsInv(s: Shm, a: Addr, c: Source)
    requires Inv(s) && a in s.sources
    requires c.name == s.sources[a].name && c.birth == s.sources[a].birth
    requires c.subscribers == s.sources[a].subscribers && c.version == s.sources[a].version && Bounded(c)
    ensures Inv(s.(sources := s.sources[a := c]))
  {
    var t := s.(sources := s.sources[a := c]);
    forall b ensures SourceOk(t, b) { assert SourceOk(s, b); }
    forall n ensures NameIndexed(t, n) { assert NameIndexed(s, n); }
    forall q ensures SessionOk(t, q) { assert SessionOk(s, q); }
    forall b, q ensures ViewerOk(t, b, q) { assert ViewerOk(s, b, q); }
    DistinctSubset(s, t);
  }

  lemma PublishKeepsInv(s: Shm, name: string, kind: nat, now: nat)
    requires Inv(s)
    ensures kind != PUBLISHER_NONE ==> Inv(TryPublish(s, name, kind, now))
    ensures Inv(ReleasePublish(s, name, kind, now))
  {
    if Lookup(s, name).Some? {
      var a := Lookup(s, name).value;
      FoundIsOk(s, name);
      UpdateKeepsInv(s, a, Released(s.sources[a], now));
      if kind != PUBLISHER_NONE {
        UpdateKeepsInv(s, a, s.sources[a].(publisherKind := kind, publishing := true, expires := 0, seenMs := now));
      }
    }
  }

  lemma RemoveKeepsInv(s: Shm, name: string)
    requires Inv(s)
    ensures Inv(SourceRemove(s, name))
  {
    var t := SourceRemove(s, name);
    if Lookup(s, name).Some? && Removable(s, Lookup(s, name).value) {
      var a := Lookup(s, name).value;
      FoundIsOk(s, name);
      MinusNoDup(s.sourceList, {a});
      forall b ensures SourceOk(t, b) { assert SourceOk(s, b); }
      forall n ensures NameIndexed(t, n) { assert NameIndexed(s, n); }
      forall q ensures SessionOk(t, q) {
        assert SessionOk(s, q);
        if q in s.sessions { assert Referenced(s, s.sessions[q].source); }
      }
      forall b, q ensures ViewerOk(t, b, q) { assert ViewerOk(s, b, q); }
      DistinctSubset(s, t);
    }
  }

  // ---------------------------------------------------------------- skeletons

  lemma BindKeepsInv(s: Shm, ufrag: string, slot: nat)
    requires Inv(s)
    ensures Inv(Bind(s, ufrag, slot))
  {
    var t := Bind(s, ufrag, slot);
    forall a ensures SourceOk(t, a) { assert SourceOk(s, a); }
    forall n ensures NameIndexed(t, n) { assert NameIndexed(s, n); }
    forall q ensures SessionOk(t, q) { assert SessionOk(s, q); }
    forall a, q ensures ViewerOk(t, a, q) { assert ViewerOk(s, a, q); }
    DistinctSubset(s, t);
  }

  lemma ActivateKeepsInv(s: Shm, ufrag: string, slot: nat)
    requires Inv(s)
    ensures Inv(Activate(s, ufrag, slot))
  {
    if ClaimRc(s, ufrag, slot) == Ok {
      var t := Activate(s, ufrag, slot);
      var q := Find(s, ufrag).value;
      var a := s.sessions[q].source;
      assert SessionOk(s, q) && ViewerOk(s, a, q) && SourceOk(s, a);
      if q !in s.sources[a].subscribers { ConsNoDup(q, s.sources[a].subscribers); }
      forall b ensures SourceOk(t, b) { assert SourceOk(s, b); }
      forall n ensures NameIndexed(t, n) { assert NameIndexed(s, n); }
      forall x ensures SessionOk(t, x) { assert SessionOk(s, x); }
      forall b, x ensures ViewerOk(t, b, x) { assert ViewerOk(s, b, x); }
      DistinctSubset(s, t);
    }
  }

  lemma FreeKeepsInv(s: Shm, q: Addr, now: nat)
    requires Inv(s) && q in s.sessions
    ensures Inv(FreeSession(s, q, now))
  {
    var a := s.sessions[q].source;
    var t := FreeSession(s, q, now);
    assert SessionOk(s, q) && SourceOk(s, a);
    MinusNoDup(s.sessionList, {q});
    MinusNoDup(s.sources[a].subscribers, {q});
    forall b ensures SourceOk(t, b) { assert SourceOk(s, b); }
    forall n ensures NameIndexed(t, n) { assert NameIndexed(s, n); }
    forall x ensures SessionOk(t, x) { assert SessionOk(s, x); }
    forall b, x ensures ViewerOk(t, b, x) { assert ViewerOk(s, b, x); }
    DistinctSubset(s, t);
  }

  // ---------------------------------------------------------------- runs

  lemma StepKeepsInv(s: Shm, op: Op)
    requires Inv(s) && Enabled(s, op)
    ensures Inv(Next(s, op))
  {
    match op
    case OpSourceGet(name, now, al) => SourceGetKeepsInv(s, name, now, al);
    case OpSourceRemove(name) => RemoveKeepsInv(s, name);
    case OpSessionAdd(ufrag, pwd, name, publishing, now, al) =>
      if UfragOk(ufrag) && PwdOk(pwd) && Lookup(s, name).Some? {
        SessionAddKeepsInvExactly(s, ufrag, pwd, name, publishing, now, al);
      }
    case OpBind(ufrag, slot) => BindKeepsInv(s, ufrag, slot);
    case OpActivate(ufrag, slot) => ActivateKeepsInv(s, ufrag, slot);
    case OpRemoveIfOwner(ufrag, slot, now) =>
      if Find(s, ufrag).Some? { FreeKeepsInv(s, Find(s, ufrag).value, now); }
    case OpTryPublish(name, kind, now) => PublishKeepsInv(s, name, kind, now);
    case OpReleasePublish(name, kind, now) => PublishKeepsInv(s, name, kind, now);
    case OpExpire(now, forced) => ExpireKeepsInv(s, now, forced);
    case OpHeartbeat(a, now) =>
      assert SourceOk(s, a);
      UpdateKeepsInv(s, a, s.sources[a].(seenMs := now));
    case OpSetPublisherSlot(a, slot) =>
      assert SourceOk(s, a);
      UpdateKeepsInv(s, a, s.sources[a].(publisherSlot := slot));
  }

  /** Safety over every run: the invariant holds in every state a run reaches. */
  lemma {:induction false} RunKeepsInv(s: Shm, ops: seq<Op>)
    requires Inv(s) && CanRun(s, ops)
    ensures Inv(Run(s, ops))
    decreases |ops|
  {
    if ops != [] {
      StepKeepsInv(s, ops[0]);
      RunKeepsInv(Next(s, ops[0]), ops[1..]);
    }
  }

  lemma EmptyInv()
    ensures Inv(EMPTY)
  {
  }

  /**
   In every state reachable from an empty zone: pointers are live, every subscriber list is
   exactly the set of ready viewers without repetition, and no source is stranded.
   */
  lemma ReachableIsSafe(ops: seq<Op>)
    requires CanRun(EMPTY, ops)
    ensures var s := Run(EMPTY, ops);
      && (forall q :: q in s.sessions ==> s.sessions[q].source in s.sources)
      && (forall a :: a in s.sources ==>
            && NoDup(s.sources[a].subscribers)
            && (s.sources[a].publishing ==> s.sources[a].expires == 0)
            && (s.sources[a].publishing <==> s.sources[a].publisherKind != PUBLISHER_NONE)
            && (!s.sources[a].publishing && s.sources[a].subscribers == [] ==> s.sources[a].expires != 0))
      && (forall a, q :: a in s.sources ==>
            (q in s.sources[a].subscribers <==>
              q in s.sessions && s.sessions[q].source == a && s.sessions[q].srtpReady && !s.sessions[q].publishing))
  {
    EmptyInv();
    RunKeepsInv(EMPTY, ops);
    var s := Run(EMPTY, ops);
    forall q | q in s.sessions ensures s.sessions[q].source in s.sources { assert SessionOk(s, q); }
    forall a | a in s.sources ensures NoDup(s.sources[a].subscribers) && Bounded(s.sources[a]) {
      assert SourceOk(s, a);
    }
    forall a, q | a in s.sources
      ensures q in s.sources[a].subscribers <==>
              q in s.sessions && s.sessions[q].source == a && s.sessions[q].srtpReady && !s.sessions[q].publishing
    {
      assert ViewerOk(s, a, q);
    }
  }
}
