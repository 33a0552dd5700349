/** The cache of ready viewers over whole runs. */
module CacheRuns {
  // The registry's steps by any worker, and between any two of them the steps of a refresh, which looks at
  // the version, takes the viewers under the lock, and reads the version again after the lock is released.

  import opened BroadcastSpec
  import opened Lists
  import opened Options
  import opened RegistryInvariant
  import opened RegistryRuns
  import opened RegistrySpec
  import opened SnapshotCache
  import opened ViewerRuns

  /** Where a refresh stands: not under way, about to take the viewers, about to read the version again. */
  datatype Phase = Idle | Taking(claim: Option<Addr>) | Noting(at: Addr)

  /** The moment and the record the cached version was read from. */
  datatype Noted = Noted(shm: Shm, at: Addr)

  /** The registry, one worker's cache, and from which moments the cache has its two halves. */
  datatype System = System(
    shm: Shm,
    cache: Cache,
    phase: Phase,
    taken: Option<Shm>,
    noted: Option<Noted>,
    retaken: bool           // the viewers were taken after the version was read
  )

  function Start(s: Shm): System { System(s, COLD, Idle, None, None, false) }

  datatype Act = Shared(op: Op) | Look(claim: Option<Addr>) | Take | Note

  /** The pointer the publisher holds stands for the name's record. */
  predicate Claimed(s: Shm, b: Addr, v: View) { b in s.sources && s.sources[b].name == v.name }

  /** A refresh under the claim `b` finds the version it knows and keeps the viewers it has. */
  predicate Keeps(y: System, b: Addr, v: View) {
    y.phase.Idle? && Claimed(y.shm, b, v) && y.shm.sources[b].version == y.cache.version
  }

  predicate Can(y: System, act: Act, v: View) {
    match act
    case Shared(op) => Enabled(y.shm, op)
    case Look(claim) => y.phase.Idle? && (claim.Some? ==> Claimed(y.shm, claim.value, v))
    case Take => y.phase.Taking?
    case Note => y.phase.Noting? && y.phase.at in y.shm.sources
  }

  function After(y: System, act: Act, v: View): System
    requires Can(y, act, v)
  {
    match act
    case Shared(op) => y.(shm := Next(y.shm, op))
    case Look(claim) => if claim.Some? && Keeps(y, claim.value, v) then y else y.(phase := Taking(claim))
    case Take =>
      y.(cache := y.cache.(viewers := Shown(y.shm, v)), taken := Some(y.shm), retaken := true,
         phase := if y.phase.claim.Some? then Noting(y.phase.claim.value) else Idle)
    case Note =>
      y.(cache := y.cache.(version := y.shm.sources[y.phase.at].version),
         noted := Some(Noted(y.shm, y.phase.at)), retaken := false, phase := Idle)
  }

  predicate CanAll(y: System, acts: seq<Act>, v: View)
    decreases |acts|
  {
    acts == [] || (Can(y, acts[0], v) && CanAll(After(y, acts[0], v), acts[1..], v))
  }

  function AfterAll(y: System, acts: seq<Act>, v: View): System
    requires CanAll(y, acts, v)
    decreases |acts|
  {
    if acts == [] then y else AfterAll(After(y, acts[0], v), acts[1..], v)
  }

  /** The cache is cold or has its two halves from the moments on record. */
  ghost predicate HistoryOk(y: System, v: View) {
    && Inv(y.shm)
    && (y.taken.None? ==> y.cache.viewers == [] && y.noted.None?)
    && (y.taken.Some? ==> Since(y.taken.value, y.shm, v) && y.cache.viewers == Shown(y.taken.value, v))
    && (y.noted.None? ==> y.cache.version == 0)
    && (y.noted.Some? ==> NotedOk(y, v))
    && (y.phase.Noting? ==> y.taken.Some?)
  }

  ghost predicate NotedOk(y: System, v: View)
    requires y.noted.Some? ==> y.taken.Some?
  {
    y.noted.Some?
    && var n := y.noted.value;
    && Since(n.shm, y.shm, v)
    && n.at in n.shm.sources && y.cache.version == n.shm.sources[n.at].version
    && if y.retaken then Since(n.shm, y.taken.value, v) else Since(y.taken.value, n.shm, v)
  }

  /** The version was read from the record that is at `b` now. */
  predicate NotedFrom(y: System, b: Addr) {
    && y.noted.Some? && y.noted.value.at in y.noted.value.shm.sources && b in y.shm.sources
    && y.noted.value.shm.sources[y.noted.value.at].birth == y.shm.sources[b].birth
  }

  lemma StepKeepsHistory(y: System, act: Act, v: View)
    requires HistoryOk(y, v) && Can(y, act, v)
    ensures HistoryOk(After(y, act, v), v)
  {
    match act
    case Shared(op) =>
      StepKeepsInv(y.shm, op);
      if y.taken.Some? { StepKeepsSince(y.taken.value, y.shm, op, v); }
      if y.noted.Some? { StepKeepsSince(y.noted.value.shm, y.shm, op, v); }
    case Look(_) =>
    case Take => SinceItself(y.shm, v);
    case Note => SinceItself(y.shm, v);
  }

  lemma {:induction false} RunKeepsHistory(y: System, acts: seq<Act>, v: View)
    requires HistoryOk(y, v) && CanAll(y, acts, v)
    ensures HistoryOk(AfterAll(y, acts, v), v)
    decreases |acts|
  {
    if acts != [] {
      StepKeepsHistory(y, acts[0], v);
      RunKeepsHistory(After(y, acts[0], v), acts[1..], v);
    }
  }

  // ---------------------------------------------------------------- when the cache is fresh

  predicate Fresh(y: System, v: View) { y.cache.viewers == Shown(y.shm, v) }

  /** The viewers there were when the cached ones were taken. */
  function Base(y: System, v: View): seq<Target> {
    match y.taken
    case None => []
    case Some(m) => Visible(m, v)
  }

  /**
   Over every run, whatever was claimed and whatever came in between: the cached viewers are those of
   a fresh snapshot exactly when since the take nobody came who is seen and nobody left who was seen.
   */
  lemma FreshExactly(s: Shm, acts: seq<Act>, v: View)
    requires Inv(s) && CanAll(Start(s), acts, v) && v.max > 0
    ensures var y := AfterAll(Start(s), acts, v);
      Fresh(y, v) <==> Unchanged(Base(y, v), Visible(y.shm, v), v.max)
  {
    RunKeepsHistory(Start(s), acts, v);
    FreshNow(AfterAll(Start(s), acts, v), v);
  }

  lemma FreshNow(y: System, v: View)
    requires HistoryOk(y, v) && v.max > 0
    ensures Fresh(y, v) <==> Unchanged(Base(y, v), Visible(y.shm, v), v.max)
  {
    if y.taken.Some? {
      ShownSameExactly(y.taken.value, y.shm, v);
    } else {
      ShownIsFirst(y.shm, v);
      var seen := Visible(y.shm, v);
      if seen != [] { assert seen[0] in seen; }
    }
  }

  /** One record at one version has one list of viewers. */
  lemma SameRecordSameViewers(m: Shm, s: Shm, b: Addr, v: View)
    requires Since(m, s, v) && Claimed(s, b, v) && b in m.sources
    requires m.sources[b].birth == s.sources[b].birth && m.sources[b].version == s.sources[b].version
    ensures Visible(m, v) == Visible(s, v)
  {
    assert SourceOk(m, b) && SourceEvolves(m, s, b);
    FoundByName(m, b);
    FoundByName(s, b);
    SameVersionSameViewers(m, s, b, b);
  }

  /** The record a later moment has under an earlier birth was there before, with no higher version. */
  lemma WasThere(m: Shm, s: Shm, b: Addr, v: View)
    requires Since(m, s, v) && b in s.sources && s.sources[b].birth < m.births
    ensures b in m.sources && m.sources[b].birth == s.sources[b].birth && m.sources[b].version <= s.sources[b].version
  {
    assert SourceEvolves(m, s, b);
  }

  /** A record created after the take shows nobody who was there at the take. */
  lemma NewRecordNewViewers(m: Shm, s: Shm, b: Addr, v: View, x: Target)
    requires Since(m, s, v) && Claimed(s, b, v) && s.sources[b].birth >= m.births
    requires x in Visible(s, v)
    ensures x !in Visible(m, v)
  {
    FoundByName(s, b);
    var q := ReadyAddress(s, s.sources[b].subscribers, v.nworkers, x);
    SubscribersAreSessions(s, b);
    if x in Visible(m, v) {
      var r := ReadyAddress(m, m.sources[Lookup(m, v.name).value].subscribers, v.nworkers, x);
      OldSkeleton(m, s, r, q);
    }
  }

  lemma ReadyAddress(s: Shm, l: seq<Addr>, nworkers: nat, x: Target) returns (q: Addr)
    requires x in ReadyOf(s.sessions, l, nworkers)
    ensures q in l && Cached(s, q, nworkers, x)
  {
    SnapshotIsFirst(s.sessions, l, nworkers, |l|);
    SnapshotIsReady(s, l, nworkers, |l|, x);
    q :| q in l && Cached(s, q, nworkers, x);
  }

  lemma OldSkeleton(m: Shm, s: Shm, r: Addr, q: Addr)
    requires Inv(m) && Inv(s) && Evolves(m, s) && r in m.sessions && q in s.sessions && m.sessions[r].id == s.sessions[q].id
    ensures var b := s.sessions[q].source; b in s.sources && s.sources[b].birth < m.births
  {
    assert SessionOk(m, r) && SessionOk(s, q) && SessionEvolves(m, s, q);
    assert SourceOk(m, m.sessions[q].source);
  }

  /**
   A refresh that finds its version keeps a fresh cache: if the version was never read, exactly when
   the cache is empty; if it was read from this very record, exactly when the viewers were taken
   later or had not changed in between; from another record, exactly when they did not change since.
   */
  lemma KeptExactly(s: Shm, acts: seq<Act>, b: Addr, v: View)
    requires Inv(s) && CanAll(Start(s), acts, v) && v.max > 0 && Keeps(AfterAll(Start(s), acts, v), b, v)
    ensures var y := AfterAll(Start(s), acts, v);
      Fresh(y, v) <==>
        if y.noted.None? then y.cache.viewers == []
        else if NotedFrom(y, b) then y.retaken || Unchanged(Base(y, v), Visible(y.noted.value.shm, v), v.max)
        else Unchanged(Base(y, v), Visible(y.shm, v), v.max)
  {
    RunKeepsHistory(Start(s), acts, v);
    KeptNow(AfterAll(Start(s), acts, v), b, v);
  }

  lemma KeptNow(y: System, b: Addr, v: View)
    requires HistoryOk(y, v) && v.max > 0 && Keeps(y, b, v)
    ensures Fresh(y, v) <==>
      if y.noted.None? then y.cache.viewers == []
      else if NotedFrom(y, b) then y.retaken || Unchanged(Base(y, v), Visible(y.noted.value.shm, v), v.max)
      else Unchanged(Base(y, v), Visible(y.shm, v), v.max)
  {
    if y.noted.None? {
      assert SourceOk(y.shm, b);
      FoundByName(y.shm, b);
    } else if NotedFrom(y, b) {
      KeptSameRecord(y, b, v);
    } else {
      FreshNow(y, v);
    }
  }

  lemma KeptSameRecord(y: System, b: Addr, v: View)
    requires HistoryOk(y, v) && v.max > 0 && Keeps(y, b, v) && NotedFrom(y, b)
    ensures Fresh(y, v) <==> y.retaken || Unchanged(Base(y, v), Visible(y.noted.value.shm, v), v.max)
  {
    var n, m := y.noted.value, y.taken.value;
    assert SourceOk(n.shm, n.at);
    WasThere(n.shm, y.shm, b, v);
    assert SameBirth(n.shm, b, n.at);
    SameRecordSameViewers(n.shm, y.shm, b, v);
    ShownIsFirst(n.shm, v);
    ShownIsFirst(y.shm, v);
    if y.retaken {
      WasThere(m, y.shm, b, v);
      WasThere(n.shm, m, b, v);
      SameRecordSameViewers(m, y.shm, b, v);
      ShownIsFirst(m, v);
    } else {
      ShownSameExactly(m, n.shm, v);
    }
  }

  /** A kept cache taken before the record was created is fresh exactly when there is nothing to show. */
  lemma NewRecordKeptExactly(s: Shm, acts: seq<Act>, b: Addr, v: View)
    requires Inv(s) && CanAll(Start(s), acts, v) && Claimed(AfterAll(Start(s), acts, v).shm, b, v)
    requires var y := AfterAll(Start(s), acts, v); y.taken.Some? && y.shm.sources[b].birth >= y.taken.value.births
    ensures var y := AfterAll(Start(s), acts, v);
      Fresh(y, v) <==> y.cache.viewers == [] && Shown(y.shm, v) == []
  {
    RunKeepsHistory(Start(s), acts, v);
    NewRecordNow(AfterAll(Start(s), acts, v), b, v);
  }

  lemma NewRecordNow(y: System, b: Addr, v: View)
    requires HistoryOk(y, v) && y.taken.Some? && Claimed(y.shm, b, v) && y.shm.sources[b].birth >= y.taken.value.births
    ensures Fresh(y, v) <==> y.cache.viewers == [] && Shown(y.shm, v) == []
  {
    var m := y.taken.value;
    ShownIsFirst(m, v);
    ShownIsFirst(y.shm, v);
    if Fresh(y, v) && y.cache.viewers != [] {
      var x := y.cache.viewers[0];
      assert x in Visible(m, v) && x in Visible(y.shm, v);
      NewRecordNewViewers(m, y.shm, b, v, x);
    }
  }

  /** When nothing changes the record between the take and the second read, the cache stays fresh until the version moves. */
  lemma UndisturbedFillIsFresh(y: System, b: Addr, v: View)
    requires HistoryOk(y, v) && v.max > 0 && Keeps(y, b, v) && NotedFrom(y, b) && !y.retaken
    requires b in y.taken.value.sources && y.taken.value.sources[b].birth == y.shm.sources[b].birth
    requires y.taken.value.sources[b].version == y.cache.version
    ensures Fresh(y, v)
  {
    SameRecordSameViewers(y.taken.value, y.shm, b, v);
    ShownIsFirst(y.taken.value, v);
    ShownIsFirst(y.shm, v);
  }

  // ---------------------------------------------------------------- refreshes in one step

  /** The acts of a refresh with nothing in between. */
  function RefreshActs(y: System, claim: Option<Addr>, v: View): seq<Act> {
    if claim.None? then [Look(claim), Take]
    else if Keeps(y, claim.value, v) then [Look(claim)] else [Look(claim), Take, Note]
  }

  lemma ActFirst(y: System, act: Act, acts: seq<Act>, v: View)
    requires Can(y, act, v) && CanAll(After(y, act, v), acts, v)
    ensures CanAll(y, [act] + acts, v) && AfterAll(y, [act] + acts, v) == AfterAll(After(y, act, v), acts, v)
  {
    hide After, Can;
    assert ([act] + acts)[1..] == acts;
  }

  /** A refresh in one step is its three acts in a row. */
  lemma RefreshIsItsActs(y: System, claim: Option<Addr>, v: View)
    requires y.phase.Idle? && (claim.Some? ==> Claimed(y.shm, claim.value, v))
    ensures CanAll(y, RefreshActs(y, claim, v), v)
    ensures var z := AfterAll(y, RefreshActs(y, claim, v), v);
      z.phase.Idle? && z.shm == y.shm && z.cache == Refresh(y.shm, y.cache, claim, v.name, v.nworkers, v.max)
  {
    var y1 := After(y, Look(claim), v);
    if y1.phase.Taking? {
      var y2 := After(y1, Take, v);
      if claim.Some? { ActFirst(y2, Note, [], v); }
      ActFirst(y1, Take, if claim.Some? then [Note] else [], v);
      ActFirst(y, Look(claim), if claim.Some? then [Take, Note] else [Take], v);
    } else {
      ActFirst(y, Look(claim), [], v);
    }
  }

  /** Every refresh is under a claim and has the registry to itself. */
  predicate Plain(y: System, act: Act) {
    match act
    case Shared(_) => y.phase.Idle?
    case Look(claim) => claim.Some?
    case _ => true
  }

  predicate AllPlain(y: System, acts: seq<Act>, v: View)
    requires CanAll(y, acts, v)
    decreases |acts|
  {
    acts == [] || (Plain(y, acts[0]) && AllPlain(After(y, acts[0], v), acts[1..], v))
  }

  /** Cold, or with both halves from one moment and the record claimed then. */
  predicate Filled(y: System, v: View) {
    && (y.phase.Noting? ==> y.taken == Some(y.shm) && Claimed(y.shm, y.phase.at, v))
    && (!y.phase.Noting? ==>
          if y.noted.None? then y.taken.None? && y.cache == COLD
          else !y.retaken && y.taken == Some(y.noted.value.shm) && Claimed(y.noted.value.shm, y.noted.value.at, v))
    && (y.phase.Taking? ==> y.phase.claim.Some? && Claimed(y.shm, y.phase.claim.value, v))
  }

  lemma {:induction false} PlainRunFills(y: System, acts: seq<Act>, v: View)
    requires HistoryOk(y, v) && Filled(y, v) && CanAll(y, acts, v) && AllPlain(y, acts, v)
    ensures Filled(AfterAll(y, acts, v), v)
    decreases |acts|
  {
    if acts != [] {
      StepKeepsHistory(y, acts[0], v);
      PlainRunFills(After(y, acts[0], v), acts[1..], v);
    }
  }

  /**
   Refreshed only under a claim and in one step, a cache that is kept equals a fresh snapshot exactly
   when it was never filled, or the claimed record is the one it was filled from, or neither moment
   has a viewer to show.
   */
  lemma PlainKeptExactly(s: Shm, acts: seq<Act>, b: Addr, v: View)
    requires Inv(s) && CanAll(Start(s), acts, v) && AllPlain(Start(s), acts, v)
    requires v.max > 0 && Keeps(AfterAll(Start(s), acts, v), b, v)
    ensures var y := AfterAll(Start(s), acts, v);
      Fresh(y, v) <==>
        || y.noted.None?
        || NotedFrom(y, b)
        || (y.cache.viewers == [] && Shown(y.shm, v) == [])
  {
    RunKeepsHistory(Start(s), acts, v);
    PlainRunFills(Start(s), acts, v);
    var y := AfterAll(Start(s), acts, v);
    KeptNow(y, b, v);
    if y.noted.Some? {
      var n := y.noted.value;
      assert forall x :: x in FirstOf(Visible(n.shm, v), v.max) ==> x in Visible(n.shm, v);
      if !NotedFrom(y, b) {
        if y.shm.sources[b].birth < n.shm.births { OneRecordAName(n.shm, y.shm, n.at, b, v); }
        NewRecordNow(y, b, v);
      }
    }
  }

  lemma OneRecordAName(m: Shm, s: Shm, a: Addr, b: Addr, v: View)
    requires Since(m, s, v) && Claimed(m, a, v) && Claimed(s, b, v) && s.sources[b].birth < m.births
    ensures a == b && m.sources[a].birth == s.sources[b].birth
  {
    WasThere(m, s, b, v);
    assert SourceEvolves(m, s, b);
    FoundByName(m, a);
    FoundByName(m, b);
  }

  // ---------------------------------------------------------------- how a cache goes stale

  lemma SharedFirst(y: System, op: Op, acts: seq<Act>, v: View)
    requires Enabled(y.shm, op) && CanAll(y.(shm := Next(y.shm, op)), acts, v)
    ensures CanAll(y, [Shared(op)] + acts, v)
    ensures AfterAll(y, [Shared(op)] + acts, v) == AfterAll(y.(shm := Next(y.shm, op)), acts, v)
  {
    hide Next, Enabled;
    ActFirst(y, Shared(op), acts, v);
  }

  /**
   The version is read after the lock is released: the only viewer leaves between the take and the
   second read, and from then on the cache names a viewer that is gone.
   */
  lemma LateVersionGoesStale(slot: nat, now: nat, v: View)
    requires NameOk(v.name) && slot < v.nworkers && v.max > 0
    ensures var s := OneViewer(EMPTY, v.name, "u", now, slot);
      var acts := [Look(Some(0)), Take, Shared(OpRemoveIfOwner("u", slot, now)), Note];
      && Inv(s) && CanAll(Start(s), acts, v)
      && var y := AfterAll(Start(s), acts, v);
         Keeps(y, 0, v) && NotedFrom(y, 0) && y.cache.viewers == [(1, slot)] && Shown(y.shm, v) == []
  {
    var s := OneViewer(EMPTY, v.name, "u", now, slot);
    EmptyInv();
    OneViewerState(EMPTY, v.name, "u", now, slot, v.nworkers, v.max);
    OneViewerLeft(s, v, "u", now, slot);
    var s1 := RemoveIfOwner(s, "u", slot, now);
    hide RemoveIfOwner, OneViewer, Inv, Snapshot;
    var y0 := Start(s);
    var y1 := After(y0, Look(Some(0)), v);
    var y2 := After(y1, Take, v);
    var y3 := y2.(shm := s1);
    ActFirst(y3, Note, [], v);
    SharedFirst(y2, OpRemoveIfOwner("u", slot, now), [Note], v);
    ActFirst(y1, Take, [Shared(OpRemoveIfOwner("u", slot, now)), Note], v);
    ActFirst(y0, Look(Some(0)), [Take, Shared(OpRemoveIfOwner("u", slot, now)), Note], v);
  }

  lemma OneViewerLeft(s: Shm, v: View, ufrag: string, now: nat, slot: nat)
    requires Inv(s) && UfragOk(ufrag) && s.sources.Keys == {0} && s.sessions.Keys == {1} && s.sessionList == [1]
    requires var c := s.sources[0]; c.name == v.name && c.version == 1 && c.subscribers == [1]
    requires s.sessions[1].ufrag == ufrag && s.sessions[1].ownerSlot == slot && s.sessions[1].source == 0
    ensures var t := RemoveIfOwner(s, ufrag, slot, now);
      && 0 in t.sources && t.sources[0].name == v.name && t.sources[0].version == 2
      && t.sources[0].birth == s.sources[0].birth && Shown(t, v) == []
  {
    FreeKeepsInv(s, 1, now);
    var t := RemoveIfOwner(s, ufrag, slot, now);
    assert Minus([1], {1}) == [];
    FoundByName(t, 0);
  }

  /** A registry whose only source has just been created has nobody to show. */
  lemma BareSource(s: Shm, v: View, ufrag: string, now: nat, slot: nat)
    requires Inv(s) && s.sources == map[] && s.sessions == map[] && s.sourceList == [] && s.sessionList == [] && s.tree == map[]
    requires NameOk(v.name) && UfragOk(ufrag) && slot < v.nworkers
    ensures var t, u := SourceGet(s, v.name, now, First(0)), OneViewer(s, v.name, ufrag, now, slot);
      && 0 in t.sources && Shown(t, v) == []
      && 0 in u.sources && u.sources[0].birth == t.sources[0].birth
  {
    var t := SourceGet(s, v.name, now, First(0));
    assert t.sources[0].subscribers == [];
    var q := SessionAdd(t, ufrag, "p", v.name, false, now, First(1));
    assert q.sources == t.sources && q.sessionList == [1];
  }

  /** A refresh under the claim 0 fills a cold cache. */
  lemma FillRun(s: Shm, acts: seq<Act>, v: View)
    requires Claimed(s, 0, v) && s.sources[0].version != 0
    requires var y := System(s, Cache(s.sources[0].version, Shown(s, v)), Idle, Some(s), Some(Noted(s, 0)), false); CanAll(y, acts, v)
    ensures var y := System(s, Cache(s.sources[0].version, Shown(s, v)), Idle, Some(s), Some(Noted(s, 0)), false);
      && CanAll(Start(s), [Look(Some(0)), Take, Note] + acts, v)
      && AfterAll(Start(s), [Look(Some(0)), Take, Note] + acts, v) == AfterAll(y, acts, v)
  {
    var y1 := After(Start(s), Look(Some(0)), v);
    var y2 := After(y1, Take, v);
    ActFirst(y2, Note, acts, v);
    ActFirst(y1, Take, [Note] + acts, v);
    ActFirst(Start(s), Look(Some(0)), [Take] + ([Note] + acts), v);
    assert [Look(Some(0)), Take, Note] + acts == [Look(Some(0))] + ([Take] + ([Note] + acts));
  }

  /**
   Without a claim the viewers are taken and the version is not: an empty list taken while the name
   is served by a new record keeps the version of the old one, and is kept once the new record
   reaches it.
   */
  lemma UnclaimedTakeGoesStale(slot: nat, now: nat, v: View)
    requires NameOk(v.name) && slot < v.nworkers && v.max > 0
    ensures var s := OneViewer(EMPTY, v.name, "u", now, slot);
      var acts := [Look(Some(0)), Take, Note] +
                  [Shared(OpRemoveIfOwner("u", slot, now)), Shared(OpSourceRemove(v.name)),
                   Shared(OpSourceGet(v.name, now, First(0))), Look(None), Take,
                   Shared(OpSessionAdd("w", "p", v.name, false, now, First(1))), Shared(OpActivate("w", slot))];
      && Inv(s) && CanAll(Start(s), acts, v)
      && var y := AfterAll(Start(s), acts, v);
         && Keeps(y, 0, v) && y.taken.Some? && 0 in y.taken.value.sources
         && y.taken.value.sources[0].birth == y.shm.sources[0].birth
         && y.cache.viewers == [] && Shown(y.shm, v) == [(2, slot)]
  {
    RecreatedFor(slot, now, v);
    var s := OneViewer(EMPTY, v.name, "u", now, slot);
    var s1 := RemoveIfOwner(s, "u", slot, now);
    var s2 := SourceRemove(s1, v.name);
    var s3 := SourceGet(s2, v.name, now, First(0));
    var o1, o2, o3 := OpRemoveIfOwner("u", slot, now), OpSourceRemove(v.name), OpSourceGet(v.name, now, First(0));
    var o4, o5 := OpSessionAdd("w", "p", v.name, false, now, First(1)), OpActivate("w", slot);
    hide RemoveIfOwner, SourceRemove, SourceGet, SessionAdd, Activate, OneViewer, Inv, Snapshot, AllocFresh, CanAll, AfterAll;
    var y0 := System(s, Cache(1, [(1, slot)]), Idle, Some(s), Some(Noted(s, 0)), false);
    var rest := [Look(None), Take, Shared(o4), Shared(o5)];
    UnclaimedTail(y0.(shm := s3), o4, o5, v);
    SharedThree(y0, o1, o2, o3, rest, v);
    FillRun(s, [Shared(o1)] + ([Shared(o2)] + ([Shared(o3)] + rest)), v);
    SevenActs(Shared(o1), Shared(o2), Shared(o3), Look(None), Take, Shared(o4), Shared(o5));
  }

  /** The moments of the run: one viewer shown, the name bare again, another viewer shown at the same version. */
  lemma RecreatedFor(slot: nat, now: nat, v: View)
    requires NameOk(v.name) && slot < v.nworkers && v.max > 0
    ensures var s := OneViewer(EMPTY, v.name, "u", now, slot);
      Inv(s) && Claimed(s, 0, v) && s.sources[0].version == 1 && Shown(s, v) == [(1, slot)]
    ensures var s2 := SourceRemove(RemoveIfOwner(OneViewer(EMPTY, v.name, "u", now, slot), "u", slot, now), v.name);
      var t := SourceGet(s2, v.name, now, First(0));
      var u := Activate(SessionAdd(t, "w", "p", v.name, false, now, First(1)), "w", slot);
      && AllocFresh(s2, First(0), now) && AllocFresh(t, First(1), now) && 0 in t.sources && Shown(t, v) == []
      && Claimed(u, 0, v) && u.sources[0].version == 1 && u.sources[0].birth == t.sources[0].birth && Shown(u, v) == [(2, slot)]
  {
    var s := OneViewer(EMPTY, v.name, "u", now, slot);
    EmptyInv();
    OneViewerState(EMPTY, v.name, "u", now, slot, v.nworkers, v.max);
    LeftAndRemoved(s, v.name, "u", now, slot);
    var s2 := SourceRemove(RemoveIfOwner(s, "u", slot, now), v.name);
    OneViewerState(s2, v.name, "w", now, slot, v.nworkers, v.max);
    BareSource(s2, v, "w", now, slot);
    hide RemoveIfOwner, SourceRemove, SourceGet, SessionAdd, Activate, Inv, Snapshot, AllocFresh;
  }

  lemma SevenActs(a: Act, b: Act, c: Act, d: Act, e: Act, f: Act, g: Act)
    ensures [a, b, c, d, e, f, g] == [a] + ([b] + ([c] + [d, e, f, g]))
  {
  }

  lemma SharedThree(y: System, a: Op, b: Op, c: Op, rest: seq<Act>, v: View)
    requires Enabled(y.shm, a) && Enabled(Next(y.shm, a), b) && Enabled(Next(Next(y.shm, a), b), c)
    requires CanAll(y.(shm := Next(Next(Next(y.shm, a), b), c)), rest, v)
    ensures var acts := [Shared(a)] + ([Shared(b)] + ([Shared(c)] + rest));
      CanAll(y, acts, v) && AfterAll(y, acts, v) == AfterAll(y.(shm := Next(Next(Next(y.shm, a), b), c)), rest, v)
  {
    hide Next, Enabled, CanAll, AfterAll;
    var s1 := Next(y.shm, a);
    var s2 := Next(s1, b);
    SharedFirst(y.(shm := s2), c, rest, v);
    SharedFirst(y.(shm := s1), b, [Shared(c)] + rest, v);
    SharedFirst(y, a, [Shared(b)] + ([Shared(c)] + rest), v);
  }

  /** A take without a claim, and two steps of others after it. */
  lemma UnclaimedTail(y: System, a: Op, b: Op, v: View)
    requires y.phase.Idle? && Enabled(y.shm, a) && Enabled(Next(y.shm, a), b)
    ensures var acts := [Look(None), Take, Shared(a), Shared(b)];
      && CanAll(y, acts, v)
      && AfterAll(y, acts, v) ==
           y.(shm := Next(Next(y.shm, a), b), cache := y.cache.(viewers := Shown(y.shm, v)), taken := Some(y.shm), retaken := true)
  {
    hide Next, Enabled, Snapshot;
    var y1 := After(y, Look(None), v);
    var y2 := After(y1, Take, v);
    var y3 := y2.(shm := Next(y.shm, a));
    SharedFirst(y3, b, [], v);
    SharedFirst(y2, a, [Shared(b)], v);
    ActFirst(y1, Take, [Shared(a), Shared(b)], v);
    ActFirst(y, Look(None), [Take, Shared(a), Shared(b)], v);
  }
}
