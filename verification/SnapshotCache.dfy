/** The cache of ready viewers a publishing worker keeps, and one refresh of it. */
module SnapshotCache {
  import opened BroadcastSpec
  import opened Lists
  import opened Options
  import opened RegistryInvariant
  import opened RegistryRuns
  import opened RegistrySpec

  /** The cache a publishing worker keeps per local source. */
  datatype Cache = Cache(version: nat, viewers: seq<(nat, int)>)

  const COLD := Cache(0, [])

  /** Refresh before a broadcast: only when the version of the claimed source moved. */
  function Refresh(s: Shm, k: Cache, shmSrc: Option<Addr>, name: string, nworkers: nat, max: nat): Cache {
    if shmSrc.Some? && shmSrc.value in s.sources && s.sources[shmSrc.value].version == k.version then k
    else
      var viewers := Snapshot(s, name, nworkers, max);
      if shmSrc.Some? && shmSrc.value in s.sources then Cache(s.sources[shmSrc.value].version, viewers)
      else k.(viewers := viewers)
  }

  /** A cache filled (or cold) at `s` and refreshed later on the same object equals a fresh snapshot. */
  lemma RefreshIsFresh(s: Shm, ops: seq<Op>, k: Cache, a: Addr, name: string, nworkers: nat, max: nat)
    requires Inv(s) && CanRun(s, ops) && a in s.sources && a in Run(s, ops).sources
    requires name == s.sources[a].name
    requires s.sources[a].birth == Run(s, ops).sources[a].birth
    requires k == COLD || k == Cache(s.sources[a].version, Snapshot(s, name, nworkers, max))
    ensures Refresh(Run(s, ops), k, Some(a), name, nworkers, max).viewers == Snapshot(Run(s, ops), name, nworkers, max)
  {
    var t := Run(s, ops);
    RunEvolves(s, ops);
    assert SourceOk(s, a) && SourceOk(t, a) && SourceEvolves(s, t, a);
    if t.sources[a].version == k.version {
      if k == COLD {
        assert t.sources[a].subscribers == [];
      } else {
        EqualVersionsEqualViewers(s, ops, a, a, nworkers, max);
      }
    }
  }

  /** A source created after `s` under a name that was taken at `s` has only viewers created after `s`. */
  lemma NewSourceNewViewers(s: Shm, ops: seq<Op>, a: Addr, b: Addr, q: Addr)
    requires Inv(s) && CanRun(s, ops) && a in s.sources && b in Run(s, ops).sources
    requires Run(s, ops).sources[b].name == s.sources[a].name && Run(s, ops).sources[b].birth != s.sources[a].birth
    requires q in Run(s, ops).sources[b].subscribers
    ensures q in Run(s, ops).sessions && Run(s, ops).sessions[q].id >= s.nextId
  {
    var t := Run(s, ops);
    RunEvolves(s, ops);
    SubscribersAreSessions(t, b);
    assert SourceEvolves(s, t, b) && SourceOk(s, a) && SourceOk(s, b);
    assert SessionEvolves(s, t, q);
  }

  /**
   A cache filled at `s` from source `a` and refreshed later from source `b` of the same name equals
   a fresh snapshot if and only if `b` is still the same object, or its version differs from the
   cached one, or neither moment has a viewer to show.
   */
  lemma RefreshIsFreshExactly(s: Shm, ops: seq<Op>, a: Addr, b: Addr, nworkers: nat, max: nat)
    requires Inv(s) && CanRun(s, ops) && a in s.sources && b in Run(s, ops).sources
    requires Run(s, ops).sources[b].name == s.sources[a].name
    ensures var t, name := Run(s, ops), s.sources[a].name;
      var k := Cache(s.sources[a].version, Snapshot(s, name, nworkers, max));
      Refresh(t, k, Some(b), name, nworkers, max).viewers == Snapshot(t, name, nworkers, max) <==>
        || t.sources[b].birth == s.sources[a].birth
        || t.sources[b].version != s.sources[a].version
        || (Snapshot(s, name, nworkers, max) == [] && Snapshot(t, name, nworkers, max) == [])
  {
    var t, name := Run(s, ops), s.sources[a].name;
    var was, fresh' := Snapshot(s, name, nworkers, max), Snapshot(t, name, nworkers, max);
    RunEvolves(s, ops);
    assert SourceOk(s, a) && SourceOk(t, b);
    if t.sources[b].birth == s.sources[a].birth {
      if t.sources[b].version == s.sources[a].version { EqualVersionsEqualViewers(s, ops, a, b, nworkers, max); }
    } else if was == fresh' && was != [] {
      SnapshotIsReady(s, s.sources[a].subscribers, nworkers, max, was[0]);
      SnapshotIsReady(t, t.sources[b].subscribers, nworkers, max, was[0]);
      var q :| q in s.sources[a].subscribers && Cached(s, q, nworkers, was[0]);
      var r :| r in t.sources[b].subscribers && Cached(t, r, nworkers, was[0]);
      assert SessionOk(s, q);
      NewSourceNewViewers(s, ops, a, b, r);
      assert false;
    }
  }

  /** A cold cache is refreshed to a fresh snapshot from any source. */
  lemma ColdRefreshIsFresh(t: Shm, b: Addr, nworkers: nat, max: nat)
    requires Inv(t) && b in t.sources
    ensures var name := t.sources[b].name;
      Refresh(t, COLD, Some(b), name, nworkers, max).viewers == Snapshot(t, name, nworkers, max)
  {
    assert SourceOk(t, b);
  }

  /**
   It can go stale: one viewer is cached at version 1, leaves, the source is removed and created
   again, and another viewer brings the new source to version 1.
   */
  lemma RecreationGoesStale(name: string, now: nat, slot: nat, nworkers: nat, max: nat)
    requires NameOk(name) && slot < nworkers && max > 0
    ensures var s := OneViewer(EMPTY, name, "u", now, slot);
      var ops := [OpRemoveIfOwner("u", slot, now), OpSourceRemove(name), OpSourceGet(name, now, First(0)),
                  OpSessionAdd("w", "p", name, false, now, First(1)), OpActivate("w", slot)];
      && Inv(s) && 0 in s.sources && s.sources[0].version == 1 && CanRun(s, ops)
      && var t, k := Run(s, ops), Cache(1, Snapshot(s, name, nworkers, max));
         && 0 in t.sources && k.viewers == [(1, slot)]
         && Refresh(t, k, Some(0), name, nworkers, max).viewers == [(1, slot)]
         && Snapshot(t, name, nworkers, max) == [(2, slot)]
  {
    var s := OneViewer(EMPTY, name, "u", now, slot);
    EmptyInv();
    OneViewerState(EMPTY, name, "u", now, slot, nworkers, max);
    LeftAndRemoved(s, name, "u", now, slot);
    var s1 := RemoveIfOwner(s, "u", slot, now);
    var s2 := SourceRemove(s1, name);
    OneViewerState(s2, name, "w", now, slot, nworkers, max);
    RecreationRun(s, name, now, slot);
    hide RemoveIfOwner, SourceRemove, SourceGet, SessionAdd, Activate, Inv, Snapshot, AllocFresh, Run, CanRun;
  }

  /** The run step by step. */
  lemma RecreationRun(s: Shm, name: string, now: nat, slot: nat)
    requires var s2 := SourceRemove(RemoveIfOwner(s, "u", slot, now), name);
      AllocFresh(s2, First(0), now) && AllocFresh(SourceGet(s2, name, now, First(0)), First(1), now)
    ensures var ops := [OpRemoveIfOwner("u", slot, now), OpSourceRemove(name), OpSourceGet(name, now, First(0)),
                        OpSessionAdd("w", "p", name, false, now, First(1)), OpActivate("w", slot)];
      && CanRun(s, ops)
      && Run(s, ops) == OneViewer(SourceRemove(RemoveIfOwner(s, "u", slot, now), name), name, "w", now, slot)
  {
    hide RemoveIfOwner, SourceRemove, SourceGet, SessionAdd, Activate, Inv, Snapshot, AllocFresh;
    var s1 := RemoveIfOwner(s, "u", slot, now);
    var s2 := SourceRemove(s1, name);
    var s3 := SourceGet(s2, name, now, First(0));
    var s4 := SessionAdd(s3, "w", "p", name, false, now, First(1));
    var o5 := OpActivate("w", slot);
    var o4 := OpSessionAdd("w", "p", name, false, now, First(1));
    RunFirst(s4, o5, []);
    RunFirst(s3, o4, [o5]);
    RunFirst(s2, OpSourceGet(name, now, First(0)), [o4, o5]);
    RunFirst(s1, OpSourceRemove(name), [OpSourceGet(name, now, First(0)), o4, o5]);
    RunFirst(s, OpRemoveIfOwner("u", slot, now), [OpSourceRemove(name), OpSourceGet(name, now, First(0)), o4, o5]);
  }

  lemma RunFirst(s: Shm, op: Op, ops: seq<Op>)
    requires Enabled(s, op) && CanRun(Next(s, op), ops)
    ensures CanRun(s, [op] + ops) && Run(s, [op] + ops) == Run(Next(s, op), ops)
  {
    hide Next, Enabled;
    assert ([op] + ops)[1..] == ops;
  }

  /** The only viewer leaves and the source is removed: nothing is left but the counters. */
  lemma LeftAndRemoved(s: Shm, name: string, ufrag: string, now: nat, slot: nat)
    requires Inv(s) && NameOk(name) && UfragOk(ufrag) && s.sources.Keys == {0} && s.sessions.Keys == {1}
    requires var c := s.sources[0]; c.name == name && !c.publishing && c.subscribers == [1]
    requires s.sessions[1].ufrag == ufrag && s.sessions[1].ownerSlot == slot && s.sessions[1].source == 0
    requires s.sessionList == [1] && s.sourceList == [0] && s.tree == map[name := 0]
    ensures SourceRemove(RemoveIfOwner(s, ufrag, slot, now), name) == Shm(map[], [], map[], map[], [], s.nextId, s.births)
    ensures Inv(SourceRemove(RemoveIfOwner(s, ufrag, slot, now), name))
  {
    FreeKeepsInv(s, 1, now);
    var s1 := RemoveIfOwner(s, ufrag, slot, now);
    assert Minus([1], {1}) == [] && Minus([0], {0}) == [];
    assert s1.sources[0].subscribers == [] && s1.sessions == map[];
    RemoveKeepsInv(s1, name);
  }

  /** A fresh source at address 0 with one activated viewer at address 1. */
  function OneViewer(s: Shm, name: string, ufrag: string, now: nat, slot: nat): Shm {
    Activate(SessionAdd(SourceGet(s, name, now, First(0)), ufrag, "p", name, false, now, First(1)), ufrag, slot)
  }

  lemma OneViewerState(s: Shm, name: string, ufrag: string, now: nat, slot: nat, nworkers: nat, max: nat)
    requires Inv(s) && s.sources == map[] && s.sessions == map[] && s.sourceList == [] && s.sessionList == [] && s.tree == map[]
    requires NameOk(name) && UfragOk(ufrag) && slot < nworkers && max > 0
    ensures var t := OneViewer(s, name, ufrag, now, slot);
      && Inv(t) && AllocFresh(s, First(0), now) && AllocFresh(SourceGet(s, name, now, First(0)), First(1), now)
      && t.sources.Keys == {0} && t.sources[0].version == 1 && t.sources[0].subscribers == [1]
      && t.sources[0].name == name && !t.sources[0].publishing
      && t.sessions.Keys == {1} && t.sessions[1].ufrag == ufrag && t.sessions[1].ownerSlot == slot
      && t.sessions[1].source == 0 && t.sessionList == [1] && t.sourceList == [0] && t.tree == map[name := 0]
      && t.nextId == s.nextId + 1 && t.births == s.births + 1
      && Snapshot(t, name, nworkers, max) == [(s.nextId, slot)]
  {
    var r := SourceGet(s, name, now, First(0));
    SourceGetKeepsInv(s, name, now, First(0));
    var q := SessionAdd(r, ufrag, "p", name, false, now, First(1));
    SessionAddKeepsInvExactly(r, ufrag, "p", name, false, now, First(1));
    assert q.sessionList == [1] && q.sessions == map[1 := NewSession(r, 0, ufrag, "p", false, now)];
    var t := Activate(q, ufrag, slot);
    ActivateKeepsInv(q, ufrag, slot);
    assert t.sources[0].subscribers == [1] && [1][1..] == [];
    assert SnapshotOf(t.sessions, [], nworkers, max - 1) == [];
  }
}
