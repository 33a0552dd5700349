/** The registry as the code keeps it: tables and lists changed in place, one operation at a time. */
module Registry {
  // Every method is proved to take the abstract state to the successor that `RegistrySpec` defines, so the
  // run theorems of `RegistryInvariant` and `RegistryRuns` are about it.

  import opened Options
  import opened Lists
  import opened RegistrySpec
  import opened RegistryInvariant
  import RegistryLaws

  class Registry {
    var sources: map<Addr, Source>      // slab: live source records
    var sourceList: seq<Addr>
    var tree: map<string, Addr>         // name index
    var sessions: map<Addr, Session>    // slab: live skeletons
    var sessionList: seq<Addr>
    var nextId: nat
    var births: nat                     // allocations of sources so far; only the model counts them

    ghost function Abs(): Shm
      reads this
    {
      Shm(sources, sourceList, tree, sessions, sessionList, nextId, births)
    }

    ghost predicate Valid()
      reads this
    {
      Inv(Abs())
    }

    constructor ()
      ensures Valid() && Abs() == EMPTY
    {
      sources, sourceList, tree, sessions, sessionList, nextId, births := map[], [], map[], map[], [], 1, 0;
      new;
      EmptyInv();
    }

    // -------------------------------------------------------------- lookups

    method LookupSource(name: string) returns (r: Option<Addr>)
      requires Valid()
      ensures r == Lookup(Abs(), name)
    {
      assert NameIndexed(Abs(), name);
      if NameOk(name) && name in tree { return Some(tree[name]); }
      return None;
    }

    /** Walks the session list for the first skeleton with this ufrag. */
    method LookupSession(ufrag: string) returns (r: Option<Addr>)
      requires Valid()
      ensures r == Find(Abs(), ufrag)
    {
      if !UfragOk(ufrag) { return None; }
      var i := 0;
      while i < |sessionList|
        invariant i <= |sessionList|
        invariant FindIn(sessions, sessionList, ufrag) == FindIn(sessions, sessionList[i..], ufrag)
      {
        assert SessionOk(Abs(), sessionList[i]);
        if sessions[sessionList[i]].ufrag == ufrag { return Some(sessionList[i]); }
        i := i + 1;
      }
      return None;
    }

    method IsReferenced(a: Addr) returns (r: bool)
      requires Valid()
      ensures r == Referenced(Abs(), a)
    {
      var i := 0;
      while i < |sessionList|
        invariant i <= |sessionList|
        invariant forall j :: 0 <= j < i ==> sessionList[j] in sessions && sessions[sessionList[j]].source != a
      {
        assert SessionOk(Abs(), sessionList[i]);
        if sessions[sessionList[i]].source == a { return true; }
        i := i + 1;
      }
      forall q | q in sessions ensures sessions[q].source != a { assert SessionOk(Abs(), q); }
      return false;
    }

    // -------------------------------------------------------------- the reaper

    /** Unlinks and frees one skeleton; the source that lost it may get its deadline back. */
    method FreeSessionLocked(q: Addr, now: nat)
      requires Valid() && q in sessions
      modifies this
      ensures Valid() && Abs() == FreeSession(old(Abs()), q, now)
    {
      ghost var s := Abs();
      var sess := sessions[q];
      var a := sess.source;
      assert SessionOk(s, q);
      var c := sources[a];
      if q in c.subscribers {
        c := c.(subscribers := Minus(c.subscribers, {q}));
        if sess.ownerSlot != c.publisherSlot && c.remote > 0 {
          c := c.(remote := c.remote - 1);
        }
        c := c.(version := c.version + 1);
      }
      sessionList := Minus(sessionList, {q});
      sessions := sessions - {q};
      if c.subscribers == [] && !c.publishing && c.expires == 0 {
        c := c.(expires := now + SOURCE_EXPIRE_MS);
      }
      sources := sources[a := c];
      FreeKeepsInv(s, q, now);
    }

    /** A half-open skeleton is no viewer, so freeing it leaves the sources alone. */
    lemma FreeUnbound(s: Shm, q: Addr, now: nat)
      requires Inv(s) && q in s.sessions && s.sessions[q].ownerSlot == -1
      ensures FreeSession(s, q, now) == DropSessions(s, {q})
    {
      var a := s.sessions[q].source;
      assert SessionOk(s, q) && SourceOk(s, a) && ViewerOk(s, a, q);
      assert s.sources[a := s.sources[a]] == s.sources;
    }

    lemma DropMore(s: Shm, d: set<Addr>, q: Addr)
      ensures DropSessions(DropSessions(s, d), {q}) == DropSessions(s, d + {q})
    {
      MinusMinus(s.sessionList, d, {q});
      assert s.sessions - d - {q} == s.sessions - (d + {q});
    }

    /** The nodes before `i` that are due are dead, and only they. */
    ghost predicate Reaped(s: Shm, i: nat, dead: set<Addr>, now: nat, forced: bool) {
      i <= |s.sessionList| && dead == set q | q in DueSessions(s, now, forced) && q in s.sessionList[..i]
    }

    lemma ReapedStep(s: Shm, i: nat, dead: set<Addr>, now: nat, forced: bool)
      requires Inv(s) && i < |s.sessionList| && Reaped(s, i, dead, now, forced)
      ensures var q := s.sessionList[i];
        && q in s.sessions && q !in dead
        && Reaped(s, i + 1, if SessionDue(s.sessions[q], now, forced) then dead + {q} else dead, now, forced)
    {
      var q := s.sessionList[i];
      assert SessionOk(s, q);
      assert s.sessionList[..i + 1] == s.sessionList[..i] + [q];
      assert forall x :: x in s.sessionList[..i + 1] <==> x in s.sessionList[..i] || x == q;
      assert q !in s.sessionList[..i];
      hide SessionDue;
    }

    lemma ReapedAll(s: Shm, dead: set<Addr>, now: nat, forced: bool)
      requires Inv(s) && Reaped(s, |s.sessionList|, dead, now, forced)
      ensures dead == DueSessions(s, now, forced)
    {
      assert s.sessionList[..|s.sessionList|] == s.sessionList;
      forall q | q in DueSessions(s, now, forced) ensures q in dead { assert SessionOk(s, q); }
    }

    /** Frees one unbound skeleton. */
    method ReapSession(q: Addr, now: nat, ghost s: Shm, ghost dead: set<Addr>)
      requires Valid() && Abs() == DropSessions(s, dead) && q in sessions && sessions[q].ownerSlot == -1
      modifies this
      ensures Valid() && Abs() == DropSessions(s, dead + {q})
    {
      FreeUnbound(Abs(), q, now);
      DropMore(s, dead, q);
      hide Inv, FreeSession;
      FreeSessionLocked(q, now);
    }

    method ReapSessions(now: nat, forced: bool)
      requires Valid()
      modifies this
      ensures Valid() && Abs() == DropSessions(old(Abs()), DueSessions(old(Abs()), now, forced))
    {
      ghost var s := Abs();
      ghost var dead: set<Addr> := {};
      var nodes := sessionList;
      var i := 0;
      NothingDropped(s);
      hide Inv, DropSessions, DueSessions;
      while i < |nodes|
        invariant nodes == s.sessionList && Reaped(s, i, dead, now, forced)
        invariant Valid() && Abs() == DropSessions(s, dead)
      {
        var q := nodes[i];
        ReapedStep(s, i, dead, now, forced);
        Undropped(s, dead, q);
        hide Reaped;
        var sess := sessions[q];
        if sess.ownerSlot == -1 && sess.expires != 0 && (forced || now >= sess.expires) {
          ReapSession(q, now, s, dead);
          dead := dead + {q};
        }
        i := i + 1;
      }
      ReapedAll(s, dead, now, forced);
    }

    lemma NothingDropped(s: Shm)
      ensures DropSessions(s, {}) == s
    {
      MinusNothing(s.sessionList, {});
      assert s.sessions - {} == s.sessions;
    }

    lemma Undropped(s: Shm, dead: set<Addr>, q: Addr)
      requires q in s.sessions && q !in dead
      ensures q in DropSessions(s, dead).sessions && DropSessions(s, dead).sessions[q] == s.sessions[q]
    {
    }

    lemma SweepFrees(s: Shm, seen: set<Addr>, a: Addr, now: nat, forced: bool)
      requires Inv(s) && a in s.sources && a !in seen && a in DueSources(s, now, forced)
      ensures var t, u := Sweep(s, seen, now, forced), Sweep(s, seen + {a}, now, forced);
        u == t.(sources := t.sources - {a}, sourceList := Minus(t.sourceList, {a}), tree := t.tree - {s.sources[a].name})
    {
      var due := DueSources(s, now, forced);
      var dead := due * seen;
      hide DueSources, Settled;
      assert due * (seen + {a}) == dead + {a};
      MinusMinus(s.sourceList, dead, {a});
      SettledLess(s.sources, seen, dead, a, now);
      UntreeLess(s, dead, a);
    }

    lemma SettledLess(sources: map<Addr, Source>, seen: set<Addr>, dead: set<Addr>, a: Addr, now: nat)
      ensures SettledSources(sources, seen + {a}, dead + {a}, now) == SettledSources(sources, seen, dead, now) - {a}
    {
      hide Settled;
    }

    lemma UntreeLess(s: Shm, dead: set<Addr>, a: Addr)
      requires Inv(s) && a in s.sources
      ensures Untree(s.tree, dead + {a}) == Untree(s.tree, dead) - {s.sources[a].name}
    {
      assert SourceOk(s, a);
      forall n ensures n in Untree(s.tree, dead + {a}) <==> n in Untree(s.tree, dead) - {s.sources[a].name} {
        assert NameIndexed(s, n);
      }
    }

    lemma SweepKeeps(s: Shm, seen: set<Addr>, a: Addr, now: nat, forced: bool)
      requires Inv(s) && a in s.sources && a !in seen && a !in DueSources(s, now, forced)
      ensures var t, u := Sweep(s, seen, now, forced), Sweep(s, seen + {a}, now, forced);
        u == t.(sources := t.sources[a := Settled(s.sources[a], now)])
    {
      hide Settled;
      assert DueSources(s, now, forced) * (seen + {a}) == DueSources(s, now, forced) * seen;
    }

    /** A silent publisher loses its source, which gets a deadline. */
    method Unpublished(c: Source, now: nat) returns (d: Source)
      requires c.publishing && Silent(c, now)
      ensures d == Settled(c, now)
    {
      d := c.(publishing := false, publisherKind := PUBLISHER_NONE);
      if d.expires == 0 { d := d.(expires := now + SOURCE_EXPIRE_MS); }
    }

    /** The sweep has not come to `a` yet, and whether `a` is referenced does not change in it. */
    lemma SweepAt(s: Shm, seen: set<Addr>, a: Addr, now: nat, forced: bool)
      requires Inv(s) && a in s.sources && a !in seen
      ensures var t := Sweep(s, seen, now, forced);
        a in t.sources && t.sources[a] == s.sources[a] && t.sessions == s.sessions && (Referenced(t, a) <==> Referenced(s, a))
      ensures a in DueSources(s, now, forced) <==> SourceDue(s.sources[a], now, forced) && !Referenced(s, a)
    {
    }

    method ReapSource(a: Addr, now: nat, forced: bool, ghost s: Shm, ghost seen: set<Addr>)
      requires Inv(s) && a in s.sources && a !in seen && Abs() == Sweep(s, seen, now, forced)
      modifies this
      ensures Abs() == Sweep(s, seen + {a}, now, forced)
    {
      SweepKeepsInv(s, seen, now, forced);
      SweepAt(s, seen, a, now, forced);
      if a in DueSources(s, now, forced) { SweepFrees(s, seen, a, now, forced); } else { SweepKeeps(s, seen, a, now, forced); }
      hide Inv, Sweep, DueSources, Referenced;
      var c := sources[a];
      if c.publishing {
        if !Silent(c, now) {
          assert sources == sources[a := c];
          return;
        }
        c := Unpublished(c, now);
      }
      hide Settled, Silent;
      var held := IsReferenced(a);
      if c.subscribers == [] && c.expires != 0 && (forced || now >= c.expires) && !held {
        tree := tree - {c.name};
        sourceList := Minus(sourceList, {a});
        sources := sources - {a};
      } else {
        sources := sources[a := c];
      }
    }

    method ReapSources(now: nat, forced: bool)
      requires Valid()
      modifies this
      ensures Valid() && Abs() == Sweep(old(Abs()), old(Abs()).sources.Keys, now, forced)
    {
      ghost var s := Abs();
      ghost var seen: set<Addr> := {};
      var nodes := sourceList;
      var i := 0;
      MinusNothing(sourceList, {});
      assert DueSources(s, now, forced) * {} == {};
      assert sources == SettledSources(s.sources, {}, {}, now) && tree == Untree(s.tree, {});
      while i < |nodes|
        invariant i <= |nodes| && nodes == s.sourceList && Inv(s)
        invariant Abs() == Sweep(s, seen, now, forced)
        invariant forall a :: a in seen ==> a in s.sources
        invariant forall j :: 0 <= j < i ==> nodes[j] in seen
        invariant forall j :: i <= j < |nodes| ==> nodes[j] !in seen
      {
        assert SourceOk(s, nodes[i]);
        ReapSource(nodes[i], now, forced, s, seen);
        seen := seen + {nodes[i]};
        i := i + 1;
      }
      assert seen == s.sources.Keys by {
        forall a | a in s.sources ensures a in seen { assert SourceOk(s, a); }
      }
      SweepKeepsInv(s, seen, now, forced);
    }

    method ExpireLocked(now: nat, forced: bool)
      requires Valid()
      modifies this
      ensures Valid() && Abs() == Expire(old(Abs()), now, forced)
    {
      ReapSessions(now, forced);
      ReapSources(now, forced);
    }

    // -------------------------------------------------------------- sources

    /** `al` is the allocator's answer: at once, after a forced sweep, or never. */
    method GetSource(name: string, now: nat, al: Alloc) returns (r: Option<Addr>)
      requires Valid() && AllocFresh(Abs(), al, now)
      modifies this
      ensures Valid() && Abs() == SourceGet(old(Abs()), name, now, al)
      ensures r == Lookup(Abs(), name)
    {
      ghost var s := Abs();
      SourceGetKeepsInv(s, name, now, al);
      if !NameOk(name) { return None; }
      var found := LookupSource(name);
      if found.Some? { return found; }
      assert NameIndexed(s, name);
      if !al.First? { ExpireLocked(now, true); }
      if al.Failed? { return None; }
      sources := sources[al.at := Source(births, name, false, PUBLISHER_NONE, now + SOURCE_EXPIRE_MS, 0, -1, 0, [], 0)];
      tree := tree[name := al.at];
      sourceList := [al.at] + sourceList;
      births := births + 1;
      return Some(al.at);
    }

    method RemoveSource(name: string)
      requires Valid()
      modifies this
      ensures Valid() && Abs() == SourceRemove(old(Abs()), name)
    {
      RemoveKeepsInv(Abs(), name);
      var found := LookupSource(name);
      if found.None? { return; }
      var a := found.value;
      if sources[a].subscribers != [] { return; }
      if sources[a].publishing { return; }
      var held := IsReferenced(a);
      if held { return; }
      assert NameIndexed(Abs(), name);
      sourceList := Minus(sourceList, {a});
      tree := tree - {name};
      sources := sources - {a};
    }

    /** Claims the source for one kind of publisher; the same kind may claim again. */
    method TryPublishSource(name: string, kind: nat, now: nat) returns (rc: Rc)
      requires Valid() && kind != PUBLISHER_NONE
      modifies this
      ensures Valid() && Abs() == TryPublish(old(Abs()), name, kind, now)
      ensures rc == PublishRc(old(Abs()), name, kind)
      ensures forall a :: a in old(sources) && old(sources)[a].name == name ==>
                var c := old(sources)[a];
                if c.publishing && c.publisherKind != kind then rc == Busy && Abs() == old(Abs())
                else rc == Ok && sources == old(sources)[a := c.(publisherKind := kind, publishing := true, expires := 0, seenMs := now)]
    {
      RegistryLaws.ClaimsAnswer(Abs(), name, kind, now);
      PublishKeepsInv(Abs(), name, kind, now);
      var found := LookupSource(name);
      if found.None? { return Error; }
      var c := sources[found.value];
      if c.publisherKind != PUBLISHER_NONE && c.publisherKind != kind { return Busy; }
      sources := sources[found.value := c.(publisherKind := kind, publishing := true, expires := 0, seenMs := now)];
      return Ok;
    }

    method ReleasePublishSource(name: string, kind: nat, now: nat)
      requires Valid()
      modifies this
      ensures Valid() && Abs() == ReleasePublish(old(Abs()), name, kind, now)
    {
      PublishKeepsInv(Abs(), name, kind, now);
      var found := LookupSource(name);
      if found.None? || sources[found.value].publisherKind != kind { return; }
      var c := sources[found.value].(publisherKind := PUBLISHER_NONE, publishing := false);
      if c.subscribers != [] {
        c := c.(expires := 0);
      } else if c.expires == 0 {
        c := c.(expires := now + SOURCE_EXPIRE_MS);
      }
      sources := sources[found.value := c];
    }

    // -------------------------------------------------------------- skeletons

    /**
     The skeleton keeps the address found before the allocation, so after a forced sweep the
     invariant survives exactly when the sweep spared that source.
     */
    method AddSession(ufrag: string, pwd: string, name: string, publishing: bool, now: nat, al: Alloc)
      returns (r: Option<Addr>)
      requires Valid() && AllocFresh(Abs(), al, now)
      modifies this
      ensures Abs() == SessionAdd(old(Abs()), ufrag, pwd, name, publishing, now, al)
      ensures r.Some? <==> UfragOk(ufrag) && PwdOk(pwd) && Lookup(old(Abs()), name).Some? && !al.Failed?
      ensures Valid() <==> (r.Some? && al.Retried? ==> SurvivesPressure(old(Abs()), name, now))
    {
      ghost var s := Abs();
      if !UfragOk(ufrag) || !PwdOk(pwd) || !NameOk(name) { return None; }
      var found := LookupSource(name);
      if found.None? { return None; }
      SessionAddKeepsInvExactly(s, ufrag, pwd, name, publishing, now, al);
      if !al.First? { ExpireLocked(now, true); }
      if al.Failed? { return None; }
      sessions := sessions[al.at := Session(found.value, nextId, ufrag, pwd, publishing, false, -1, now + SESSION_EXPIRE_MS)];
      nextId := nextId + 1;
      sessionList := [al.at] + sessionList;
      return Some(al.at);
    }

    /** Binds the skeleton to `slot`; on success `out` is a copy of it taken under the lock. */
    method BindSession(ufrag: string, slot: nat) returns (rc: Rc, out: Option<Session>)
      requires Valid()
      modifies this
      ensures Valid() && Abs() == Bind(old(Abs()), ufrag, slot)
      ensures rc == ClaimRc(old(Abs()), ufrag, slot)
      ensures rc == Ok ==> out == Some(Abs().sessions[Find(old(Abs()), ufrag).value])
    {
      ghost var s := Abs();
      BindKeepsInv(s, ufrag, slot);
      var found := LookupSession(ufrag);
      if found.None? { return Error, None; }
      var q := found.value;
      if sessions[q].ownerSlot != -1 && sessions[q].ownerSlot != slot { return Declined, None; }
      if sessions[q].ownerSlot == -1 {
        sessions := sessions[q := sessions[q].(ownerSlot := slot)];
      }
      assert sessions == Bind(s, ufrag, slot).sessions;
      return Ok, Some(sessions[q]);
    }

    /** Binds, marks ready and subscribes exactly once; a publisher never subscribes. */
    method ActivateSession(ufrag: string, slot: nat) returns (rc: Rc)
      requires Valid()
      modifies this
      ensures Valid() && Abs() == Activate(old(Abs()), ufrag, slot)
      ensures rc == ClaimRc(old(Abs()), ufrag, slot)
    {
      ghost var s := Abs();
      ActivateKeepsInv(s, ufrag, slot);
      var found := LookupSession(ufrag);
      if found.None? { return Error; }
      var q := found.value;
      if sessions[q].ownerSlot != -1 && sessions[q].ownerSlot != slot { return Declined; }
      if sessions[q].ownerSlot == -1 {
        sessions := sessions[q := sessions[q].(ownerSlot := slot)];
      }
      sessions := sessions[q := sessions[q].(srtpReady := true, expires := 0)];
      var a := sessions[q].source;
      assert SessionOk(s, q);
      if !sessions[q].publishing && q !in sources[a].subscribers {
        var c := sources[a];
        c := c.(subscribers := [q] + c.subscribers, version := c.version + 1, expires := 0);
        if sessions[q].ownerSlot != c.publisherSlot { c := c.(remote := c.remote + 1); }
        sources := sources[a := c];
      }
      assert sessions == Activate(s, ufrag, slot).sessions;
      return Ok;
    }

    method RemoveSessionIfOwner(ufrag: string, slot: nat, now: nat)
      requires Valid()
      modifies this
      ensures Valid() && Abs() == RemoveIfOwner(old(Abs()), ufrag, slot, now)
    {
      var found := LookupSession(ufrag);
      if found.None? { return; }
      if sessions[found.value].ownerSlot != -1 && sessions[found.value].ownerSlot != slot { return; }
      FreeSessionLocked(found.value, now);
    }

    /** Ids and slots of at most `max` ready viewers, in list order. */
    method SourceSnapshot(name: string, nworkers: nat, max: nat) returns (out: seq<(nat, int)>)
      requires Valid()
      ensures out == Snapshot(Abs(), name, nworkers, max)
    {
      out := [];
      if max == 0 {
        return;
      }
      var found := LookupSource(name);
      if found.None? { return; }
      var l := sources[found.value].subscribers;
      forall q | q in l ensures q in sessions { assert ViewerOk(Abs(), found.value, q); }
      hide Inv, SnapshotOf;
      out := ListReady(l, nworkers, max);
    }

    method ListReady(l: seq<Addr>, nworkers: nat, max: nat) returns (out: seq<(nat, int)>)
      requires forall q :: q in l ==> q in sessions
      ensures out == SnapshotOf(sessions, l, nworkers, max)
    {
      out := [];
      var i := 0;
      while i < |l| && |out| < max
        invariant i <= |l| && |out| <= max
        invariant SnapshotOf(sessions, l, nworkers, max) == out + SnapshotOf(sessions, l[i..], nworkers, max - |out|)
      {
        assert l[i] in l && l[i..][0] == l[i] && l[i..][1..] == l[i + 1..];
        var q := sessions[l[i]];
        if q.srtpReady && 0 <= q.ownerSlot < nworkers {
          out := out + [(q.id, q.ownerSlot)];
        }
        i := i + 1;
      }
    }
  }
}
