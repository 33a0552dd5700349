/** What the operations of the registry answer and change, told by the fields of the records. */
module RegistryLaws {
  // Who may publish, bind and activate, what a lookup finds after an insertion, and what a sweep spares. The
  // statements name no helper of the operations, so they say by themselves what a caller sees.

  import opened Options
  import opened RegistryInvariant
  import opened RegistrySpec

  // ---------------------------------------------------------------- one publisher

  /** A source published under another kind answers busy and is left alone; otherwise the claim is taken. */
  lemma ClaimAnswers(s: Shm, a: Addr, kind: nat, now: nat)
    requires Inv(s) && a in s.sources && kind != 0
    ensures var c := s.sources[a];
      var rc, t := PublishRc(s, c.name, kind), TryPublish(s, c.name, kind, now);
      if c.publishing && c.publisherKind != kind then rc == Busy && t == s
      else
        && rc == Ok && a in t.sources
        && t.sources[a] == c.(publishing := true, publisherKind := kind, expires := 0, seenMs := now)
        && t == s.(sources := s.sources[a := t.sources[a]])
  {
    FoundByName(s, a);
    assert SourceOk(s, a);
  }

  lemma ClaimsAnswer(s: Shm, name: string, kind: nat, now: nat)
    requires Inv(s) && kind != 0
    ensures forall a :: a in s.sources && s.sources[a].name == name ==>
              var c := s.sources[a];
              var rc, t := PublishRc(s, name, kind), TryPublish(s, name, kind, now);
              if c.publishing && c.publisherKind != kind then rc == Busy && t == s
              else
                rc == Ok
                && t.sources == s.sources[a := c.(publisherKind := kind, publishing := true, expires := 0, seenMs := now)]
  {
    hide Inv, PublishRc, TryPublish;
    forall a | a in s.sources && s.sources[a].name == name
      ensures var c := s.sources[a];
        var rc, t := PublishRc(s, name, kind), TryPublish(s, name, kind, now);
        if c.publishing && c.publisherKind != kind then rc == Busy && t == s
        else
          rc == Ok
          && t.sources == s.sources[a := c.(publisherKind := kind, publishing := true, expires := 0, seenMs := now)]
    {
      ClaimAnswers(s, a, kind, now);
    }
  }

  /** Nobody can claim a name that has no source. */
  lemma NothingToClaim(s: Shm, name: string, kind: nat, now: nat)
    requires Inv(s) && forall a :: a in s.sources ==> s.sources[a].name != name
    ensures PublishRc(s, name, kind) == Error && TryPublish(s, name, kind, now) == s
  {
    if Lookup(s, name).Some? { FoundIsOk(s, name); }
  }

  /** The record born as `birth` is at `a`, published under `kind`. */
  predicate Publishes(s: Shm, a: Addr, birth: nat, kind: nat) {
    a in s.sources && s.sources[a].birth == birth && s.sources[a].publishing && s.sources[a].publisherKind == kind
  }

  /** The publisher was heard of less than ten seconds before `now`. */
  predicate Heard(c: Source, now: nat) { c.seenMs > 0 && now - c.seenMs < 10000 }

  /** The step sweeps the registry at `now`. */
  predicate SweepsAt(s: Shm, op: Op, now: nat) {
    match op
    case OpExpire(at, _) => at == now
    case OpSourceGet(name, at, al) => at == now && !al.First? && Lookup(s, name).None?
    case OpSessionAdd(_, _, name, _, at, al) => at == now && !al.First? && Lookup(s, name).Some?
    case _ => false
  }

  /** The step neither releases the claim nor sweeps while the publisher is silent. */
  ghost predicate LeavesClaim(s: Shm, op: Op, a: Addr, name: string, kind: nat) {
    && !(op.OpReleasePublish? && op.name == name && op.kind == kind)
    && (a in s.sources ==> forall now: nat :: SweepsAt(s, op, now) ==> Heard(s.sources[a], now))
  }

  ghost predicate AllLeaveClaim(s: Shm, ops: seq<Op>, a: Addr, name: string, kind: nat)
    requires CanRun(s, ops)
    decreases |ops|
  {
    ops == [] || (LeavesClaim(s, ops[0], a, name, kind) && AllLeaveClaim(Next(s, ops[0]), ops[1..], a, name, kind))
  }

  lemma SweepKeepsClaim(s: Shm, a: Addr, birth: nat, kind: nat, now: nat, forced: bool)
    requires Inv(s) && Publishes(s, a, birth, kind) && Heard(s.sources[a], now)
    ensures Publishes(Expire(s, now, forced), a, birth, kind)
    ensures Expire(s, now, forced).sources[a].name == s.sources[a].name
  {
    hide DueSessions, Referenced;
  }

  lemma StepKeepsClaim(s: Shm, op: Op, a: Addr, birth: nat, kind: nat)
    requires Inv(s) && Enabled(s, op) && Publishes(s, a, birth, kind) && kind != 0
    requires LeavesClaim(s, op, a, s.sources[a].name, kind)
    ensures Publishes(Next(s, op), a, birth, kind) && Next(s, op).sources[a].name == s.sources[a].name
  {
    FoundByName(s, a);
    assert SourceOk(s, a);
    hide Inv, AllocFresh;
    match op
    case OpExpire(now, forced) =>
      assert SweepsAt(s, op, now);
      SweepKeepsClaim(s, a, birth, kind, now, forced);
    case OpSourceGet(name, now, al) =>
      if Lookup(s, name).None? && !al.First? {
        assert SweepsAt(s, op, now);
        SweepKeepsClaim(s, a, birth, kind, now, true);
      }
      hide Expire;
    case OpSessionAdd(_, _, name, _, now, al) =>
      if Lookup(s, name).Some? && !al.First? {
        assert SweepsAt(s, op, now);
        SweepKeepsClaim(s, a, birth, kind, now, true);
      }
      hide Expire;
    case OpReleasePublish(name, _, _) =>
      if Lookup(s, name).Some? { FoundIsOk(s, name); }
    case OpTryPublish(name, _, _) =>
      if Lookup(s, name).Some? { FoundIsOk(s, name); }
    case OpActivate(ufrag, slot) => ActivateKeepsPublisher(s, ufrag, slot, a);
    case OpRemoveIfOwner(ufrag, slot, now) => RemovalKeepsPublisher(s, ufrag, slot, now, a);
    case OpSourceRemove(name) => PublishedIsNotRemoved(s, name, a);
    case _ => hide Expire;
  }

  predicate SamePublisher(s: Shm, t: Shm, a: Addr)
    requires a in s.sources
  {
    && a in t.sources
    && var c, d := s.sources[a], t.sources[a];
    d.birth == c.birth && d.name == c.name && d.publishing == c.publishing && d.publisherKind == c.publisherKind
  }

  lemma ActivateKeepsPublisher(s: Shm, ufrag: string, slot: nat, a: Addr)
    requires a in s.sources
    ensures SamePublisher(s, Activate(s, ufrag, slot), a)
  {
  }

  lemma RemovalKeepsPublisher(s: Shm, ufrag: string, slot: nat, now: nat, a: Addr)
    requires a in s.sources
    ensures SamePublisher(s, RemoveIfOwner(s, ufrag, slot, now), a)
  {
  }

  lemma PublishedIsNotRemoved(s: Shm, name: string, a: Addr)
    requires Inv(s) && a in s.sources && s.sources[a].publishing
    ensures SamePublisher(s, SourceRemove(s, name), a)
  {
  }

  lemma {:induction false} RunKeepsClaim(s: Shm, ops: seq<Op>, a: Addr, birth: nat, kind: nat)
    requires Inv(s) && CanRun(s, ops) && Publishes(s, a, birth, kind) && kind != 0
    requires AllLeaveClaim(s, ops, a, s.sources[a].name, kind)
    ensures Inv(Run(s, ops)) && Publishes(Run(s, ops), a, birth, kind) && Run(s, ops).sources[a].name == s.sources[a].name
    decreases |ops|
  {
    if ops != [] {
      StepKeepsClaim(s, ops[0], a, birth, kind);
      StepKeepsInv(s, ops[0]);
      RunKeepsClaim(Next(s, ops[0]), ops[1..], a, birth, kind);
    }
  }

  /**
   One publisher: after a successful claim, over every run in which the claim is not released and no
   sweep finds the publisher silent, a claim by any kind is answered ok exactly when it is the same
   kind; any other is busy and changes nothing.
   */
  lemma OnePublisher(s: Shm, a: Addr, kind: nat, now: nat, ops: seq<Op>, other: nat, later: nat)
    requires Inv(s) && a in s.sources && kind != 0 && other != 0 && PublishRc(s, s.sources[a].name, kind) == Ok
    requires var t := TryPublish(s, s.sources[a].name, kind, now);
      CanRun(t, ops) && AllLeaveClaim(t, ops, a, s.sources[a].name, kind)
    ensures var u := Run(TryPublish(s, s.sources[a].name, kind, now), ops);
      var name := s.sources[a].name;
      && Publishes(u, a, s.sources[a].birth, kind)
      && (PublishRc(u, name, other) == Ok <==> other == kind)
      && (other != kind ==> PublishRc(u, name, other) == Busy && TryPublish(u, name, other, later) == u)
  {
    var t := TryPublish(s, s.sources[a].name, kind, now);
    ClaimAnswers(s, a, kind, now);
    PublishKeepsInv(s, s.sources[a].name, kind, now);
    RunKeepsClaim(t, ops, a, s.sources[a].birth, kind);
    ClaimAnswers(Run(t, ops), a, other, later);
    hide Inv, Run, CanRun, AllLeaveClaim, TryPublish, PublishRc;
  }

  /** Only the kind that publishes can release, and then every kind may claim. */
  lemma ReleaseAnswers(s: Shm, a: Addr, kind: nat, now: nat)
    requires Inv(s) && a in s.sources && kind != 0
    ensures var c := s.sources[a];
      var t := ReleasePublish(s, c.name, kind, now);
      if !c.publishing || c.publisherKind != kind then t == s
      else
        && a in t.sources && !t.sources[a].publishing && t.sources[a].birth == c.birth
        && t.sources[a].subscribers == c.subscribers
        && t.sources[a].expires == (if c.subscribers == [] then now + 10000 else 0)
        && forall k: nat :: PublishRc(t, c.name, k) == Ok
  {
    FoundByName(s, a);
    assert SourceOk(s, a);
  }

  /** A sweep takes the claim of a publisher that was silent for ten seconds, and only that. */
  lemma SweepTakesSilentClaims(s: Shm, a: Addr, now: nat, forced: bool)
    requires Inv(s) && a in s.sources && a in Expire(s, now, forced).sources
    ensures var c, d := s.sources[a], Expire(s, now, forced).sources[a];
      && (d.publishing <==> c.publishing && Heard(c, now))
      && (c.publishing && !Heard(c, now) ==> forall k: nat :: PublishRc(Expire(s, now, forced), c.name, k) == Ok)
  {
    ExpireKeepsInv(s, now, forced);
    var t := Expire(s, now, forced);
    assert SourceOk(t, a);
    FoundByName(t, a);
    hide DueSessions, Referenced;
  }

  /** A publisher that was heard is heard for the next ten seconds, so no sweep in that time takes its claim. */
  lemma BeatKeepsClaim(s: Shm, a: Addr, birth: nat, kind: nat, beat: nat, now: nat, forced: bool)
    requires Inv(s) && Publishes(s, a, birth, kind) && 0 < beat && now < beat + 10000
    ensures Publishes(Expire(Heartbeat(s, a, beat), now, forced), a, birth, kind)
  {
    StepKeepsInv(s, OpHeartbeat(a, beat));
    SweepKeepsClaim(Heartbeat(s, a, beat), a, birth, kind, now, forced);
    hide Inv, Expire;
  }

  // ---------------------------------------------------------------- lookups after insertions

  /** A name that could be allocated is found afterwards; a new record is bare and has ten seconds to live. */
  lemma GetIsFound(s: Shm, name: string, now: nat, al: Alloc)
    requires Inv(s) && AllocFresh(s, al, now) && NameOk(name)
    ensures var r, t := Lookup(s, name), SourceGet(s, name, now, al);
      if r.Some? then t == s
      else if al.Failed? then Lookup(t, name).None?
      else
        && Lookup(t, name) == Some(al.at) && al.at in t.sources
        && var c := t.sources[al.at];
        && c.name == name && !c.publishing && c.subscribers == [] && c.remote == 0 && c.version == 0
        && c.expires == now + 10000 && c.birth == s.births
  {
    if Lookup(s, name).None? && !al.First? {
      ExpireKeepsInv(s, now, true);
      NamesOnlyLeave(s, name, now);
    }
    hide Inv, Expire;
  }

  lemma NamesOnlyLeave(s: Shm, name: string, now: nat)
    requires Lookup(s, name).None? && Inv(s)
    ensures Lookup(Expire(s, now, true), name).None?
  {
    assert NameIndexed(s, name);
    hide DueSessions, DueSources;
  }

  /** A skeleton that was added is the one its ufrag finds: unbound, for its source, with thirty seconds to live. */
  lemma AddIsFound(s: Shm, ufrag: string, pwd: string, name: string, publishing: bool, now: nat, al: Alloc)
    requires Inv(s) && AllocFresh(s, al, now) && UfragOk(ufrag) && PwdOk(pwd) && Lookup(s, name).Some? && !al.Failed?
    ensures var t := SessionAdd(s, ufrag, pwd, name, publishing, now, al);
      && Find(t, ufrag) == Some(al.at) && al.at in t.sessions
      && t.sessions[al.at] == Session(Lookup(s, name).value, s.nextId, ufrag, pwd, publishing, false, -1, now + 30000)
  {
    hide Expire, Inv;
    assert AfterAlloc(s, al, now).nextId == s.nextId by { SweepKeepsIds(s, now); }
  }

  lemma SweepKeepsIds(s: Shm, now: nat)
    ensures Expire(s, now, true).nextId == s.nextId && Expire(s, now, true).births == s.births
  {
  }

  // ---------------------------------------------------------------- binding and activation

  /** An unbound skeleton is bound to the first slot that asks, and to no other afterwards. */
  lemma BindAnswers(s: Shm, ufrag: string, slot: nat)
    requires Find(s, ufrag).Some?
    ensures var q := Find(s, ufrag).value;
      var c, rc, t := s.sessions[q], ClaimRc(s, ufrag, slot), Bind(s, ufrag, slot);
      if c.ownerSlot == -1 || c.ownerSlot == slot
      then rc == Ok && t == s.(sessions := s.sessions[q := c.(ownerSlot := slot)])
      else rc == Declined && t == s
  {
  }

  /** A viewer that is activated is ready, has no deadline, and comes first in its source's snapshot. */
  lemma ActivateShows(s: Shm, ufrag: string, slot: nat, nworkers: nat, max: nat)
    requires Inv(s) && Find(s, ufrag).Some?
    requires var c := s.sessions[Find(s, ufrag).value];
      (c.ownerSlot == -1 || c.ownerSlot == slot) && !c.publishing && !c.srtpReady
    requires slot < nworkers && max > 0
    ensures var q, t := Find(s, ufrag).value, Activate(s, ufrag, slot);
      var c := s.sessions[q];
      && ClaimRc(s, ufrag, slot) == Ok && q in t.sessions && t.sessions[q].srtpReady && t.sessions[q].ownerSlot == slot
      && t.sessions[q].expires == 0 && c.source in s.sources && c.source in t.sources
      && t.sources[c.source].subscribers == [q] + s.sources[c.source].subscribers
      && t.sources[c.source].version == s.sources[c.source].version + 1 && t.sources[c.source].expires == 0
      && var shown := Snapshot(t, s.sources[c.source].name, nworkers, max);
         shown != [] && shown[0] == (c.id, slot)
  {
    var q, t := Find(s, ufrag).value, Activate(s, ufrag, slot);
    var a := s.sessions[q].source;
    assert SessionOk(s, q) && ViewerOk(s, a, q);
    ActivateKeepsInv(s, ufrag, slot);
    FoundByName(t, a);
    hide Inv;
  }

  /** Activation by a slot that does not own the skeleton is declined and changes nothing. */
  lemma ActivateDeclines(s: Shm, ufrag: string, slot: nat)
    requires Find(s, ufrag).Some? && s.sessions[Find(s, ufrag).value].ownerSlot !in {-1, slot as int}
    ensures ClaimRc(s, ufrag, slot) == Declined && Activate(s, ufrag, slot) == s
  {
  }

  /** A skeleton leaves with the owner's or an unbound removal, and with no other. */
  lemma RemovalAnswers(s: Shm, ufrag: string, slot: nat, now: nat)
    requires Inv(s) && Find(s, ufrag).Some?
    ensures var q := Find(s, ufrag).value;
      var c, t := s.sessions[q], RemoveIfOwner(s, ufrag, slot, now);
      if c.ownerSlot == -1 || c.ownerSlot == slot
      then q !in t.sessions && t.sessions == s.sessions - {q} && (forall a :: a in t.sources ==> q !in t.sources[a].subscribers)
      else t == s
  {
    var q := Find(s, ufrag).value;
    FreeKeepsInv(s, q, now);
    var t := FreeSession(s, q, now);
    forall a | a in t.sources ensures q !in t.sources[a].subscribers { assert ViewerOk(t, a, q); }
    hide Inv;
  }

  /** A source leaves exactly when it has no viewer, no publisher and no skeleton. */
  lemma SourceRemovalAnswers(s: Shm, a: Addr)
    requires Inv(s) && a in s.sources
    ensures var c, t := s.sources[a], SourceRemove(s, s.sources[a].name);
      if c.subscribers == [] && !c.publishing && (forall q :: q in s.sessions ==> s.sessions[q].source != a)
      then a !in t.sources && Lookup(t, c.name).None? && t.sources == s.sources - {a} && t.sessions == s.sessions
      else t == s
  {
    FoundByName(s, a);
  }

  // ---------------------------------------------------------------- what a sweep spares

  /** A skeleton outlives a sweep exactly when it is bound, has no deadline, or is not due in an unforced one. */
  lemma SkeletonOutlives(s: Shm, q: Addr, now: nat, forced: bool)
    requires q in s.sessions
    ensures var c := s.sessions[q];
      q in Expire(s, now, forced).sessions <==>
      c.ownerSlot != -1 || c.expires == 0 || (!forced && now < c.expires)
    ensures q in Expire(s, now, forced).sessions ==> Expire(s, now, forced).sessions[q] == s.sessions[q]
  {
  }

  /** A source outlives an unforced sweep exactly when it is published, viewed, pointed at by a skeleton that stays, or not due. */
  lemma SourceOutlives(s: Shm, a: Addr, now: nat)
    requires Inv(s) && a in s.sources
    ensures var c := s.sources[a];
      a in Expire(s, now, false).sources <==>
      || c.publishing || c.subscribers != [] || now < c.expires
      || exists q :: q in Expire(s, now, false).sessions && s.sessions[q].source == a
  {
    assert SourceOk(s, a);
    var t := DropSessions(s, DueSessions(s, now, false));
    assert Expire(s, now, false).sessions == t.sessions;
    assert Referenced(t, a) <==> exists q :: q in t.sessions && s.sessions[q].source == a;
    hide DueSessions, Inv;
  }
}
