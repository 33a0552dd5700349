/** What relates two moments of one run of the registry. */
module RegistryRuns {
  // Identity of records, the version counter of a subscriber list, ownership of a skeleton, the counter of
  // remote viewers, and the end of a source whose publisher fell silent.

  import opened Lists
  import opened RegistrySpec
  import opened RegistryInvariant

  // ---------------------------------------------------------------- how records evolve

  /** A source of `t` that existed at `s` is the same record, and its version counts its changes. */
  ghost predicate SourceEvolves(s: Shm, t: Shm, a: Addr) {
    a in t.sources && t.sources[a].birth < s.births ==>
      && a in s.sources
      && s.sources[a].birth == t.sources[a].birth
      && s.sources[a].name == t.sources[a].name
      && s.sources[a].version <= t.sources[a].version
      && (s.sources[a].version == t.sources[a].version ==>
            && s.sources[a].subscribers == t.sources[a].subscribers
            && forall q :: q in s.sources[a].subscribers ==>
                 q in s.sessions && q in t.sessions && s.sessions[q].id == t.sessions[q].id)
  }

  /** A skeleton of `t` that existed at `s` kept its source, and its owner once it had one. */
  predicate SessionEvolves(s: Shm, t: Shm, q: Addr) {
    q in t.sessions && t.sessions[q].id < s.nextId ==>
      && q in s.sessions
      && var c, d := s.sessions[q], t.sessions[q];
      && c.id == d.id && c.source == d.source && c.publishing == d.publishing && c.ufrag == d.ufrag && c.pwd == d.pwd
      && (c.ownerSlot != -1 ==> d.ownerSlot == c.ownerSlot)
      && (c.srtpReady ==> d.srtpReady)
      && c.source in s.sources && d.source in t.sources
      && s.sources[c.source].birth == t.sources[c.source].birth
  }

  ghost predicate Evolves(s: Shm, t: Shm) {
    && s.births <= t.births && s.nextId <= t.nextId
    && (forall a :: SourceEvolves(s, t, a))
    && (forall q :: SessionEvolves(s, t, q))
  }

  lemma EvolvesTransitive(s: Shm, t: Shm, u: Shm)
    requires Inv(s) && Inv(t) && Inv(u) && Evolves(s, t) && Evolves(t, u)
    ensures Evolves(s, u)
  {
    forall a ensures SourceEvolves(s, u, a) {
      assert SourceEvolves(t, u, a) && SourceEvolves(s, t, a);
    }
    forall q ensures SessionEvolves(s, u, q) {
      assert SessionEvolves(t, u, q) && SessionEvolves(s, t, q);
    }
  }

  lemma SubscribersAreSessions(s: Shm, a: Addr)
    requires Inv(s) && a in s.sources
    ensures forall q :: q in s.sources[a].subscribers ==>
              q in s.sessions && s.sessions[q].source == a && s.sessions[q].ownerSlot >= 0 && s.sessions[q].srtpReady
  {
    forall q | q in s.sources[a].subscribers
      ensures q in s.sessions && s.sessions[q].source == a && s.sessions[q].ownerSlot >= 0 && s.sessions[q].srtpReady
    {
      assert ViewerOk(s, a, q) && SessionOk(s, q);
    }
  }

  lemma DropEvolves(s: Shm, dead: set<Addr>)
    requires Inv(s)
    requires forall q :: q in dead && q in s.sessions ==> !s.sessions[q].srtpReady
    ensures Evolves(s, DropSessions(s, dead))
  {
    var t := DropSessions(s, dead);
    DropKeepsInv(s, dead);
    forall a ensures SourceEvolves(s, t, a) { if a in s.sources { SubscribersAreSessions(s, a); } }
    forall q ensures SessionEvolves(s, t, q) { assert SessionOk(s, q); }
  }

  lemma ExpireEvolves(s: Shm, now: nat, forced: bool)
    requires Inv(s)
    ensures Inv(Expire(s, now, forced)) && Evolves(s, Expire(s, now, forced))
  {
    var dead := DueSessions(s, now, forced);
    forall q | q in dead ensures !s.sessions[q].srtpReady { assert SessionOk(s, q); }
    DropEvolves(s, dead);
    DropKeepsInv(s, dead);
    ExpireKeepsInv(s, now, forced);
    var t := DropSessions(s, dead);
    var u := Expire(s, now, forced);
    assert Evolves(t, u) by {
      forall a ensures SourceEvolves(t, u, a) { if a in t.sources { SubscribersAreSessions(t, a); } }
      forall q ensures SessionEvolves(t, u, q) { assert SessionOk(t, q) && SessionOk(u, q); }
    }
    EvolvesTransitive(s, t, u);
  }

  lemma AfterAllocEvolves(s: Shm, al: Alloc, now: nat)
    requires Inv(s)
    ensures Inv(AfterAlloc(s, al, now)) && Evolves(s, AfterAlloc(s, al, now))
  {
    if al.First? { SelfEvolves(s); } else { ExpireEvolves(s, now, true); }
  }

  lemma SelfEvolves(s: Shm)
    requires Inv(s)
    ensures Evolves(s, s)
  {
    forall a ensures SourceEvolves(s, s, a) { if a in s.sources { SubscribersAreSessions(s, a); } }
    forall q ensures SessionEvolves(s, s, q) { assert SessionOk(s, q); }
  }

  /** A new source or a new skeleton leaves the older records alone. */
  lemma InsertEvolves(s: Shm, t: Shm)
    requires Inv(s) && Inv(t) && s.births <= t.births && s.nextId <= t.nextId
    requires forall a :: a in t.sources && t.sources[a].birth < s.births ==> a in s.sources
    requires forall a :: a in s.sources ==> a in t.sources && t.sources[a] == s.sources[a]
    requires forall q :: q in t.sessions && t.sessions[q].id < s.nextId ==> q in s.sessions
    requires forall q :: q in s.sessions ==> q in t.sessions && t.sessions[q] == s.sessions[q]
    ensures Evolves(s, t)
  {
    forall a ensures SourceEvolves(s, t, a) { if a in s.sources { SubscribersAreSessions(s, a); } }
    forall q ensures SessionEvolves(s, t, q) { assert SessionOk(s, q); }
  }

  lemma SourceGetEvolves(s: Shm, name: string, now: nat, al: Alloc)
    requires Inv(s) && AllocFresh(s, al, now)
    ensures Evolves(s, SourceGet(s, name, now, al))
  {
    var u := SourceGet(s, name, now, al);
    if NameOk(name) && Lookup(s, name).None? {
      var t := AfterAlloc(s, al, now);
      AfterAllocEvolves(s, al, now);
      if !al.Failed? {
        SourceGetKeepsInv(s, name, now, al);
        InsertEvolves(t, u);
        EvolvesTransitive(s, t, u);
      }
    } else {
      SelfEvolves(s);
    }
  }

  lemma SessionAddEvolves(s: Shm, op: Op)
    requires Inv(s) && op.OpSessionAdd? && Enabled(s, op)
    ensures Evolves(s, Next(s, op))
  {
    var u := Next(s, op);
    StepKeepsInv(s, op);
    if UfragOk(op.ufrag) && PwdOk(op.pwd) && Lookup(s, op.name).Some? {
      var t := AfterAlloc(s, op.al, op.now);
      AfterAllocEvolves(s, op.al, op.now);
      if !op.al.Failed? {
        InsertEvolves(t, u);
        EvolvesTransitive(s, t, u);
      }
    } else {
      SelfEvolves(s);
    }
  }

  predicate SameViewers(s: Shm, t: Shm, a: Addr)
    requires a in t.sources
  {
    a in s.sources
    && var c, d := s.sources[a], t.sources[a];
    c.birth == d.birth && c.name == d.name && c.version == d.version && c.subscribers == d.subscribers
  }

  /** Steps that change one source and leave the skeletons alone, or the other way round. */
  lemma UpdateEvolves(s: Shm, t: Shm)
    requires Inv(s) && Inv(t) && s.births == t.births && s.nextId == t.nextId
    requires forall a :: a in t.sources ==> SameViewers(s, t, a)
    requires forall q :: q in t.sessions ==> q in s.sessions && t.sessions[q] == s.sessions[q]
    requires s.sessions.Keys == t.sessions.Keys
    ensures Evolves(s, t)
  {
    forall a ensures SourceEvolves(s, t, a) { if a in s.sources { SubscribersAreSessions(s, a); } }
    forall q ensures SessionEvolves(s, t, q) { assert SessionOk(s, q) && SessionOk(t, q); }
  }

  lemma BindEvolves(s: Shm, ufrag: string, slot: nat)
    requires Inv(s)
    ensures Evolves(s, Bind(s, ufrag, slot))
  {
    var t := Bind(s, ufrag, slot);
    forall a ensures SourceEvolves(s, t, a) { if a in s.sources { SubscribersAreSessions(s, a); } }
    forall q ensures SessionEvolves(s, t, q) { assert SessionOk(s, q); }
  }

  lemma ActivateEvolves(s: Shm, ufrag: string, slot: nat)
    requires Inv(s)
    ensures Evolves(s, Activate(s, ufrag, slot))
  {
    var t := Activate(s, ufrag, slot);
    if ClaimRc(s, ufrag, slot) == Ok {
      assert SessionOk(s, Find(s, ufrag).value);
      forall a ensures SourceEvolves(s, t, a) { if a in s.sources { SubscribersAreSessions(s, a); } }
      forall q ensures SessionEvolves(s, t, q) { assert SessionOk(s, q); }
    } else {
      SelfEvolves(s);
    }
  }

  lemma FreeEvolves(s: Shm, q: Addr, now: nat)
    requires Inv(s) && q in s.sessions
    ensures Evolves(s, FreeSession(s, q, now))
  {
    var t := FreeSession(s, q, now);
    assert SessionOk(s, q);
    forall a ensures SourceEvolves(s, t, a) {
      if a in s.sources {
        SubscribersAreSessions(s, a);
        if a == s.sessions[q].source && q in s.sources[a].subscribers {
          assert t.sources[a].version == s.sources[a].version + 1;
        }
      }
    }
    forall r ensures SessionEvolves(s, t, r) { assert SessionOk(s, r); }
  }

  lemma StepEvolves(s: Shm, op: Op)
    requires Inv(s) && Enabled(s, op)
    ensures Evolves(s, Next(s, op))
  {
    StepKeepsInv(s, op);
    match op
    case OpSourceGet(name, now, al) => SourceGetEvolves(s, name, now, al);
    case OpSessionAdd(_, _, _, _, _, _) => SessionAddEvolves(s, op);
    case OpExpire(now, forced) => ExpireEvolves(s, now, forced);
    case OpBind(ufrag, slot) => BindEvolves(s, ufrag, slot);
    case OpActivate(ufrag, slot) => ActivateEvolves(s, ufrag, slot);
    case OpRemoveIfOwner(ufrag, slot, now) =>
      if Find(s, ufrag).Some? { FreeEvolves(s, Find(s, ufrag).value, now); }
      SelfEvolves(s);
    case _ => UpdateEvolves(s, Next(s, op));
  }

  lemma {:induction false} RunEvolves(s: Shm, ops: seq<Op>)
    requires Inv(s) && CanRun(s, ops)
    ensures Inv(Run(s, ops)) && Evolves(s, Run(s, ops))
    decreases |ops|
  {
    RunKeepsInv(s, ops);
    if ops == [] {
      SelfEvolves(s);
    } else {
      var t := Next(s, ops[0]);
      StepKeepsInv(s, ops[0]);
      StepEvolves(s, ops[0]);
      RunEvolves(t, ops[1..]);
      EvolvesTransitive(s, t, Run(t, ops[1..]));
    }
  }

  /** As long as a skeleton lives, the source it was created with is the very record it points at. */
  lemma ReferencedIsNeverFreed(s: Shm, ops: seq<Op>, q: Addr, r: Addr)
    requires Inv(s) && CanRun(s, ops)
    requires q in s.sessions && r in Run(s, ops).sessions && s.sessions[q].id == Run(s, ops).sessions[r].id
    ensures q == r
    ensures var a := s.sessions[q].source;
      a == Run(s, ops).sessions[r].source && a in s.sources && a in Run(s, ops).sources
      && s.sources[a].birth == Run(s, ops).sources[a].birth
  {
    var t := Run(s, ops);
    RunEvolves(s, ops);
    assert SessionOk(s, q) && SessionEvolves(s, t, r);
    assert SameId(s, q, r);
  }

  // ---------------------------------------------------------------- ownership

  /** The owner slot of a skeleton is written at most once: two slots that both claimed it are one. */
  lemma OneOwner(s: Shm, ops: seq<Op>, u1: string, slot1: nat, u2: string, slot2: nat)
    requires Inv(s) && ClaimRc(s, u1, slot1) == Ok
    requires var t := Bind(s, u1, slot1);
      CanRun(t, ops) && ClaimRc(Run(t, ops), u2, slot2) == Ok
      && s.sessions[Find(s, u1).value].id == Run(t, ops).sessions[Find(Run(t, ops), u2).value].id
    ensures slot1 == slot2
  {
    var t := Bind(s, u1, slot1);
    var u := Run(t, ops);
    BindKeepsInv(s, u1, slot1);
    RunEvolves(t, ops);
    var q, r := Find(s, u1).value, Find(u, u2).value;
    assert SessionOk(t, q) && SessionEvolves(t, u, r) && SameId(t, q, r);
  }

  /** The same for activation, which claims the skeleton too. */
  lemma OneActivator(s: Shm, ops: seq<Op>, u1: string, slot1: nat, u2: string, slot2: nat)
    requires Inv(s) && ClaimRc(s, u1, slot1) == Ok
    requires var t := Activate(s, u1, slot1);
      CanRun(t, ops) && ClaimRc(Run(t, ops), u2, slot2) == Ok
      && s.sessions[Find(s, u1).value].id == Run(t, ops).sessions[Find(Run(t, ops), u2).value].id
    ensures slot1 == slot2
  {
    var t := Activate(s, u1, slot1);
    var u := Run(t, ops);
    ActivateKeepsInv(s, u1, slot1);
    RunEvolves(t, ops);
    var q, r := Find(s, u1).value, Find(u, u2).value;
    assert SessionOk(t, q) && SessionEvolves(t, u, r) && SameId(t, q, r);
  }

  // ---------------------------------------------------------------- versions and viewers

  lemma {:induction false} SnapshotAgrees(s: Shm, t: Shm, l: seq<Addr>, nworkers: nat, max: nat)
    requires forall q :: q in l ==> q in s.sessions && q in t.sessions
    requires forall q :: q in l ==> s.sessions[q].id == t.sessions[q].id
    requires forall q :: q in l ==> s.sessions[q].ownerSlot == t.sessions[q].ownerSlot
    requires forall q :: q in l ==> s.sessions[q].srtpReady && t.sessions[q].srtpReady
    ensures SnapshotOf(s.sessions, l, nworkers, max) == SnapshotOf(t.sessions, l, nworkers, max)
  {
    if l != [] && max != 0 {
      assert l[0] in l;
      forall q | q in l[1..] ensures q in l { }
      SnapshotAgrees(s, t, l[1..], nworkers, max - 1);
      SnapshotAgrees(s, t, l[1..], nworkers, max);
    }
  }

  /**
   On one source object, equal versions at two moments of a run mean the same subscriber list
   and the same snapshot of it.
   */
  lemma EqualVersionsEqualViewers(s: Shm, ops: seq<Op>, a: Addr, b: Addr, nworkers: nat, max: nat)
    requires Inv(s) && CanRun(s, ops) && a in s.sources && b in Run(s, ops).sources
    requires s.sources[a].birth == Run(s, ops).sources[b].birth
    requires s.sources[a].version == Run(s, ops).sources[b].version
    ensures a == b && s.sources[a].subscribers == Run(s, ops).sources[b].subscribers
    ensures Snapshot(s, s.sources[a].name, nworkers, max) == Snapshot(Run(s, ops), s.sources[a].name, nworkers, max)
  {
    var t := Run(s, ops);
    RunEvolves(s, ops);
    assert SourceOk(s, a) && SourceOk(t, b) && SourceEvolves(s, t, b);
    assert SameBirth(s, a, b);
    SubscribersAreSessions(s, a);
    forall q | q in s.sources[a].subscribers
      ensures q in t.sessions && s.sessions[q].ownerSlot == t.sessions[q].ownerSlot && t.sessions[q].srtpReady
    {
      assert SessionEvolves(s, t, q) && SessionOk(s, q);
    }
    SnapshotAgrees(s, t, s.sources[a].subscribers, nworkers, max);
  }

  // ---------------------------------------------------------------- remote viewers

  /** Viewers on the list whose owner is another slot than `slot`. */
  function CountRemote(sessions: map<Addr, Session>, l: seq<Addr>, slot: int): nat {
    if l == [] then 0
    else (if l[0] in sessions && sessions[l[0]].ownerSlot != slot then 1 else 0) + CountRemote(sessions, l[1..], slot)
  }

  predicate RemoteExact(s: Shm, a: Addr) {
    a in s.sources ==>
      s.sources[a].remote == CountRemote(s.sessions, s.sources[a].subscribers, s.sources[a].publisherSlot)
  }

  lemma {:induction false} CountAgrees(m: map<Addr, Session>, n: map<Addr, Session>, l: seq<Addr>, slot: int)
    requires forall q :: q in l ==> q in m && q in n && m[q].ownerSlot == n[q].ownerSlot
    ensures CountRemote(m, l, slot) == CountRemote(n, l, slot)
  {
    if l != [] {
      assert l[0] in l;
      forall q | q in l[1..] ensures q in l { }
      CountAgrees(m, n, l[1..], slot);
    }
  }

  lemma {:induction false} CountMinus(m: map<Addr, Session>, l: seq<Addr>, q: Addr, slot: int)
    requires NoDup(l) && q in l && q in m
    ensures CountRemote(m, l, slot)
         == CountRemote(m, Minus(l, {q}), slot) + (if m[q].ownerSlot != slot then 1 else 0)
  {
    if l[0] == q {
      assert forall x :: x in l[1..] ==> x != q;
      MinusNothing(l[1..], {q});
    } else {
      CountMinus(m, l[1..], q, slot);
      assert ([l[0]] + Minus(l[1..], {q}))[1..] == Minus(l[1..], {q});
    }
  }

  /** How many viewers of `a` are foreign to its publisher, and by how much the counter is off. */
  function Foreign(s: Shm, a: Addr): nat
    requires a in s.sources
  {
    CountRemote(s.sessions, s.sources[a].subscribers, s.sources[a].publisherSlot)
  }

  function Excess(s: Shm, a: Addr): int
    requires a in s.sources
  {
    s.sources[a].remote - Foreign(s, a)
  }

  /** A surplus stays; a shortfall is never larger than the number of foreign viewers. */
  function Carried(excess: int, foreign: nat): int {
    if excess < -(foreign as int) then -(foreign as int) else excess
  }

  lemma ActivateCarries(s: Shm, ufrag: string, slot: nat, a: Addr)
    requires Inv(s) && a in s.sources
    ensures var t := Activate(s, ufrag, slot);
      a in t.sources && Excess(t, a) == Excess(s, a) == Carried(Excess(s, a), Foreign(t, a))
  {
    if ClaimRc(s, ufrag, slot) == Ok {
      var t := Activate(s, ufrag, slot);
      var q := Find(s, ufrag).value;
      var l, at := s.sources[a].subscribers, s.sources[a].publisherSlot;
      SubscribersAreSessions(s, a);
      CountAgrees(s.sessions, t.sessions, l, at);
      assert ([q] + l)[1..] == l;
    }
  }

  lemma FreeCarries(s: Shm, q: Addr, now: nat, a: Addr)
    requires Inv(s) && q in s.sessions && a in s.sources
    ensures var t := FreeSession(s, q, now); a in t.sources && Excess(t, a) == Carried(Excess(s, a), Foreign(t, a))
  {
    var t := FreeSession(s, q, now);
    var l, at := s.sources[a].subscribers, s.sources[a].publisherSlot;
    assert SourceOk(s, a) && SessionOk(s, q);
    SubscribersAreSessions(s, a);
    if q in l { CountMinus(s.sessions, l, q, at); } else { MinusNothing(l, {q}); }
    CountAgrees(s.sessions, t.sessions, Minus(l, {q}), at);
  }

  predicate SameCount(s: Shm, t: Shm, a: Addr)
    requires a in s.sources && a in t.sources
  {
    var c, d := s.sources[a], t.sources[a];
    c.remote == d.remote && c.publisherSlot == d.publisherSlot && c.subscribers == d.subscribers
  }

  lemma QuietStep(s: Shm, op: Op, a: Addr)
    requires Inv(s) && Enabled(s, op) && a in s.sources && !op.OpActivate? && !op.OpRemoveIfOwner?
    requires !Moves(op, a, s.sources[a].publisherSlot)
    requires a in Next(s, op).sources && Next(s, op).sources[a].birth == s.sources[a].birth
    ensures SameCount(s, Next(s, op), a)
  {
    assert SourceOk(s, a);
    ExpireSameCount(s, a);
    hide Inv, Expire, AllocFresh, Lookup;
    match op
    case OpSourceGet(_, _, _) =>
    case OpSessionAdd(_, _, _, _, _, _) =>
    case _ =>
  }

  lemma ExpireSameCount(s: Shm, a: Addr)
    requires a in s.sources
    ensures forall now: nat, forced: bool :: a in Expire(s, now, forced).sources ==> SameCount(s, Expire(s, now, forced), a)
  {
    hide DueSessions, DueSources;
  }

  lemma QuietCarries(s: Shm, t: Shm, a: Addr)
    requires Inv(s) && Inv(t) && Evolves(s, t) && a in s.sources && a in t.sources
    requires s.sources[a].birth == t.sources[a].birth && s.sources[a].version == t.sources[a].version
    requires SameCount(s, t, a)
    ensures Foreign(t, a) == Foreign(s, a) && Excess(t, a) == Excess(s, a)
  {
    var l := s.sources[a].subscribers;
    assert SourceOk(s, a) && SourceEvolves(s, t, a);
    SubscribersAreSessions(s, a);
    forall q | q in l ensures q in t.sessions && s.sessions[q].ownerSlot == t.sessions[q].ownerSlot {
      assert SessionEvolves(s, t, q) && SessionOk(s, q);
    }
    CountAgrees(s.sessions, t.sessions, l, s.sources[a].publisherSlot);
  }

  lemma QuietVersion(s: Shm, op: Op, a: Addr)
    requires Inv(s) && Enabled(s, op) && a in s.sources && !op.OpActivate? && !op.OpRemoveIfOwner?
    requires a in Next(s, op).sources && Next(s, op).sources[a].birth == s.sources[a].birth
    ensures Next(s, op).sources[a].version == s.sources[a].version
  {
    assert SourceOk(s, a);
  }

  /** The step moves the publisher of `a` away from `slot`. */
  predicate Moves(op: Op, a: Addr, slot: int) {
    op.OpSetPublisherSlot? && op.a == a && op.slot != slot
  }

  /** Every step except a move of the publisher's slot carries the error of the counter along. */
  lemma StepCarries(s: Shm, op: Op, a: Addr)
    requires Inv(s) && Enabled(s, op) && a in s.sources && !Moves(op, a, s.sources[a].publisherSlot)
    requires a in Next(s, op).sources && Next(s, op).sources[a].birth == s.sources[a].birth
    ensures var t := Next(s, op);
      Excess(t, a) == Carried(Excess(s, a), Foreign(t, a)) && t.sources[a].publisherSlot == s.sources[a].publisherSlot
  {
    if op.OpActivate? {
      ActivateCarries(s, op.ufrag, op.slot, a);
    } else if op.OpRemoveIfOwner? {
      if Find(s, op.ufrag).Some? { FreeCarries(s, Find(s, op.ufrag).value, op.now, a); }
    } else {
      StepKeepsInv(s, op);
      StepEvolves(s, op);
      QuietStep(s, op, a);
      QuietVersion(s, op, a);
      QuietCarries(s, Next(s, op), a);
    }
  }

  /** No step of the run moves the publisher of `a` away from `slot`. */
  predicate Stays(ops: seq<Op>, a: Addr, slot: int) { forall i :: 0 <= i < |ops| ==> !Moves(ops[i], a, slot) }

  /** At some moment of the run the source has no foreign viewer. */
  predicate NoForeignAtSomeTime(s: Shm, ops: seq<Op>, a: Addr)
    requires CanRun(s, ops)
    decreases |ops|
  {
    (a in s.sources && Foreign(s, a) == 0) || (ops != [] && NoForeignAtSomeTime(Next(s, ops[0]), ops[1..], a))
  }

  /** The first step of a run that keeps the source. */
  lemma FirstStep(s: Shm, ops: seq<Op>, a: Addr)
    requires Inv(s) && CanRun(s, ops) && ops != [] && a in s.sources && Stays(ops, a, s.sources[a].publisherSlot)
    requires a in Run(s, ops).sources && Run(s, ops).sources[a].birth == s.sources[a].birth
    ensures var t := Next(s, ops[0]);
      && Inv(t) && a in t.sources && t.sources[a].birth == s.sources[a].birth
      && Excess(t, a) == Carried(Excess(s, a), Foreign(t, a))
      && Stays(ops[1..], a, t.sources[a].publisherSlot)
  {
    var t := Next(s, ops[0]);
    var u := Run(t, ops[1..]);
    StepKeepsInv(s, ops[0]);
    StepEvolves(s, ops[0]);
    RunEvolves(t, ops[1..]);
    assert SourceOk(s, a) && SourceEvolves(t, u, a) && SourceEvolves(s, t, a);
    assert !Moves(ops[0], a, s.sources[a].publisherSlot);
    StepCarries(s, ops[0], a);
    forall i | 0 <= i < |ops[1..]| ensures !Moves(ops[1..][i], a, t.sources[a].publisherSlot) {
      assert ops[1..][i] == ops[i + 1];
    }
  }

  /**
   While the publisher's slot stays put, the counter is exact at the end of a run if and only if it
   was exact at the start, or fell short and there was a moment without foreign viewers: a counter
   that is too high never recovers.
   */
  lemma {:induction false} ExactAfterRun(s: Shm, ops: seq<Op>, a: Addr)
    requires Inv(s) && CanRun(s, ops) && a in s.sources && Stays(ops, a, s.sources[a].publisherSlot)
    requires a in Run(s, ops).sources && Run(s, ops).sources[a].birth == s.sources[a].birth
    ensures RemoteExact(Run(s, ops), a) <==>
      RemoteExact(s, a) || (Excess(s, a) < 0 && NoForeignAtSomeTime(s, ops, a))
    decreases |ops|
  {
    if ops != [] {
      FirstStep(s, ops, a);
      ExactAfterRun(Next(s, ops[0]), ops[1..], a);
    }
  }

  /** While the publisher's slot stays put, the counter equals the number of foreign viewers. */
  lemma RemoteExactWhileSlotFixed(s: Shm, ops: seq<Op>, a: Addr)
    requires Inv(s) && CanRun(s, ops) && a in s.sources && RemoteExact(s, a)
    requires Stays(ops, a, s.sources[a].publisherSlot)
    requires a in Run(s, ops).sources && Run(s, ops).sources[a].birth == s.sources[a].birth
    ensures RemoteExact(Run(s, ops), a)
  {
    ExactAfterRun(s, ops, a);
  }

  /** Viewers on the list whose owner is `slot`. */
  function CountOwned(sessions: map<Addr, Session>, l: seq<Addr>, slot: int): nat {
    if l == [] then 0
    else (if l[0] in sessions && sessions[l[0]].ownerSlot == slot then 1 else 0) + CountOwned(sessions, l[1..], slot)
  }

  function ViewersOwnedBy(s: Shm, a: Addr, slot: int): nat
    requires a in s.sources
  {
    CountOwned(s.sessions, s.sources[a].subscribers, slot)
  }

  lemma {:induction false} OwnedOrRemote(m: map<Addr, Session>, l: seq<Addr>, slot: int)
    requires forall q :: q in l ==> q in m
    ensures CountRemote(m, l, slot) + CountOwned(m, l, slot) == |l|
  {
    if l != [] {
      assert l[0] in l;
      forall q | q in l[1..] ensures q in l { }
      OwnedOrRemote(m, l[1..], slot);
    }
  }

  /** A move leaves the counter too high by as many viewers as the new slot owns more than the old one. */
  lemma MoveShifts(s: Shm, a: Addr, slot: nat)
    requires Inv(s) && a in s.sources
    ensures Excess(SetPublisherSlot(s, a, slot), a)
         == Excess(s, a) + ViewersOwnedBy(s, a, slot) - ViewersOwnedBy(s, a, s.sources[a].publisherSlot)
  {
    var l := s.sources[a].subscribers;
    SubscribersAreSessions(s, a);
    OwnedOrRemote(s.sessions, l, slot);
    OwnedOrRemote(s.sessions, l, s.sources[a].publisherSlot);
  }

  /** A move of the publisher keeps the counter exact if and only if both slots own as many viewers. */
  lemma MoveKeepsRemoteExactly(s: Shm, a: Addr, slot: nat)
    requires Inv(s) && a in s.sources && RemoteExact(s, a)
    ensures RemoteExact(SetPublisherSlot(s, a, slot), a) <==>
      ViewersOwnedBy(s, a, slot) == ViewersOwnedBy(s, a, s.sources[a].publisherSlot)
  {
    MoveShifts(s, a, slot);
  }

  /**
   A run with one move in it ends with an exact counter if and only if at the move both slots owned
   as many viewers, or the new one owned fewer and afterwards there was a moment without foreign
   viewers.
   */
  lemma RemoteAfterMove(s: Shm, before: seq<Op>, slot: nat, after: seq<Op>, a: Addr)
    requires Inv(s) && CanRun(s, before) && a in s.sources && RemoteExact(s, a)
    requires Stays(before, a, s.sources[a].publisherSlot) && Stays(after, a, slot)
    requires var t := Run(s, before); a in t.sources && t.sources[a].birth == s.sources[a].birth
    requires var u := SetPublisherSlot(Run(s, before), a, slot);
      CanRun(u, after) && a in Run(u, after).sources && Run(u, after).sources[a].birth == s.sources[a].birth
    ensures var t := Run(s, before);
      var u := SetPublisherSlot(t, a, slot);
      var was, owns := ViewersOwnedBy(t, a, t.sources[a].publisherSlot), ViewersOwnedBy(t, a, slot);
      RemoteExact(Run(u, after), a) <==> owns == was || (owns < was && NoForeignAtSomeTime(u, after, a))
  {
    var t := Run(s, before);
    var u := SetPublisherSlot(t, a, slot);
    RunKeepsInv(s, before);
    RemoteExactWhileSlotFixed(s, before, a);
    UpdateKeepsInv(t, a, t.sources[a].(publisherSlot := slot)) by { assert SourceOk(t, a); }
    MoveShifts(t, a, slot);
    ExactAfterRun(u, after, a);
  }

  /** It can fail: the first viewer is served by the worker that publishes only later. */
  lemma MoveCanDrift(name: string, now: nat, slot: nat)
    requires NameOk(name)
    ensures var s := SessionAdd(SourceGet(EMPTY, name, now, First(0)), "u", "p", name, false, now, First(1));
      var t := Activate(s, "u", slot);
      Inv(t) && 0 in t.sources && RemoteExact(t, 0) && !RemoteExact(SetPublisherSlot(t, 0, slot), 0)
  {
    var r := SourceGet(EMPTY, name, now, First(0));
    EmptyInv();
    SourceGetKeepsInv(EMPTY, name, now, First(0));
    var s := SessionAdd(r, "u", "p", name, false, now, First(1));
    SessionAddKeepsInvExactly(r, "u", "p", name, false, now, First(1));
    assert s.sessionList == [1];
    var t := Activate(s, "u", slot);
    ActivateKeepsInv(s, "u", slot);
    assert t.sources[0].subscribers == [1] && t.sources[0].subscribers[1..] == [];
    assert CountRemote(t.sessions, [], slot) == 0 && CountRemote(t.sessions, [], -1) == 0;
  }

  // ---------------------------------------------------------------- silent publishers

  /** The source born as `birth` is gone, or idle, unreferenced and due by `deadline`. */
  ghost predicate Dying(s: Shm, birth: nat, deadline: nat) {
    forall a :: a in s.sources && s.sources[a].birth == birth ==>
      && !s.sources[a].publishing && s.sources[a].subscribers == [] && !Referenced(s, a)
      && s.sources[a].expires <= deadline
  }

  predicate Gone(s: Shm, birth: nat) {
    forall a :: a in s.sources ==> s.sources[a].birth != birth
  }

  /** The step claims the name or points a new skeleton at it. */
  predicate Revives(op: Op, name: string) {
    (op.OpTryPublish? && op.name == name) || (op.OpSessionAdd? && op.name == name)
  }

  lemma ExpireDying(s: Shm, birth: nat, deadline: nat, now: nat, forced: bool)
    requires Inv(s) && Dying(s, birth, deadline)
    ensures Dying(Expire(s, now, forced), birth, deadline)
    ensures now >= deadline ==> Gone(Expire(s, now, forced), birth)
  {
    var t := DropSessions(s, DueSessions(s, now, forced));
    var u := Expire(s, now, forced);
    forall a | a in u.sources && u.sources[a].birth == birth
      ensures !u.sources[a].publishing && u.sources[a].subscribers == [] && !Referenced(u, a)
      ensures u.sources[a].expires <= deadline && now < deadline
    {
      assert SourceOk(s, a);
      assert a in s.sources && u.sources[a].birth == s.sources[a].birth;
      assert !Referenced(t, a) by {
        if q :| q in t.sessions && t.sessions[q].source == a { assert q in s.sessions && Referenced(s, a); }
      }
    }
  }

  lemma GetDying(s: Shm, name: string, now: nat, al: Alloc, birth: nat, deadline: nat)
    requires Inv(s) && AllocFresh(s, al, now) && birth < s.births && Dying(s, birth, deadline)
    ensures Dying(SourceGet(s, name, now, al), birth, deadline)
  {
    if NameOk(name) && Lookup(s, name).None? {
      if !al.First? { ExpireDying(s, birth, deadline, now, true); }
      ReferencedOnlyBefore(AfterAlloc(s, al, now), SourceGet(s, name, now, al), birth, deadline);
    }
  }

  lemma AddDying(s: Shm, op: Op, birth: nat, deadline: nat)
    requires Inv(s) && Enabled(s, op) && op.OpSessionAdd? && Dying(s, birth, deadline)
    requires forall a :: a in s.sources && s.sources[a].birth == birth ==> s.sources[a].name != op.name
    ensures Dying(Next(s, op), birth, deadline)
  {
    if !op.al.First? { ExpireDying(s, birth, deadline, op.now, true); }
    if Lookup(s, op.name).Some? { FoundIsOk(s, op.name); }
    hide Expire;
  }

  lemma StepDying(s: Shm, op: Op, birth: nat, name: string, deadline: nat)
    requires Inv(s) && Enabled(s, op) && birth < s.births && Dying(s, birth, deadline)
    requires forall a :: a in s.sources && s.sources[a].birth == birth ==> s.sources[a].name == name
    requires !Revives(op, name)
    ensures Dying(Next(s, op), birth, deadline)
  {
    var t := Next(s, op);
    hide SourceGet, SessionAdd, Expire, AllocFresh, Referenced;
    match op {
      case OpExpire(now, forced) => ExpireDying(s, birth, deadline, now, forced);
      case OpSourceGet(_, now, al) =>
        GetDying(s, op.name, now, al, birth, deadline);
      case OpSessionAdd(_, _, _, _, _, _) => AddDying(s, op, birth, deadline);
      case OpTryPublish(name', _, _) => if Lookup(s, name').Some? { FoundIsOk(s, name'); }
      case OpActivate(ufrag, _) => ActivateDying(s, t, birth, deadline);
      case OpRemoveIfOwner(ufrag, _, now) =>
        if Find(s, ufrag).Some? { FreeDying(s, Find(s, ufrag).value, now, birth, deadline); }
      case _ => SessionsKept(s, t, birth, deadline);
    }
  }

  lemma ActivateDying(s: Shm, t: Shm, birth: nat, deadline: nat)
    requires Inv(s) && Dying(s, birth, deadline) && exists u, slot: nat :: t == Activate(s, u, slot)
    ensures Dying(t, birth, deadline)
  {
    var u, slot: nat :| t == Activate(s, u, slot);
    ActivateKeepsLinks(s, u, slot);
    hide Inv, Activate;
    forall a | a in t.sources && t.sources[a].birth == birth
      ensures t.sources[a] == s.sources[a] && !Referenced(t, a)
    {
      assert a in s.sources && s.sources[a].birth == birth && !Referenced(s, a);
      assert Referenced(t, a) ==> Referenced(s, a);
    }
  }

  /** Activation changes no link, and no source but the skeleton's own. */
  lemma ActivateKeepsLinks(s: Shm, u: string, slot: nat)
    requires Inv(s)
    ensures var t := Activate(s, u, slot);
      && t.sessions.Keys == s.sessions.Keys && t.sources.Keys == s.sources.Keys
      && (forall q :: q in s.sessions ==> t.sessions[q].source == s.sessions[q].source)
      && forall a :: a in s.sources ==>
           t.sources[a].birth == s.sources[a].birth && (!Referenced(s, a) ==> t.sources[a] == s.sources[a])
  {
    if ClaimRc(s, u, slot) == Ok { assert SessionOk(s, Find(s, u).value); }
  }

  lemma FreeDying(s: Shm, q: Addr, now: nat, birth: nat, deadline: nat)
    requires Inv(s) && Dying(s, birth, deadline) && q in s.sessions
    ensures Dying(FreeSession(s, q, now), birth, deadline)
  {
    var t := FreeSession(s, q, now);
    forall a | a in t.sources && t.sources[a].birth == birth
      ensures a in s.sources && t.sources[a] == s.sources[a] && !Referenced(t, a)
    {
      assert SessionOk(s, q);
      if s.sessions[q].source == a { assert Referenced(s, a); }
      assert a in s.sources && s.sources[a].birth == birth;
      forall r | r in t.sessions ensures t.sessions[r].source != a {
        assert r in s.sessions;
      }
    }
  }

  /** A step that adds no skeleton and does not claim the dying source. */
  lemma SessionsKept(s: Shm, t: Shm, birth: nat, deadline: nat)
    requires Inv(s) && Dying(s, birth, deadline)
    requires forall q :: q in t.sessions ==> q in s.sessions && t.sessions[q].source == s.sessions[q].source
    requires forall a :: a in t.sources && t.sources[a].birth == birth ==> KeptIdle(s, t, a)
    ensures Dying(t, birth, deadline)
  {
    forall a | a in t.sources && t.sources[a].birth == birth
      ensures !t.sources[a].publishing && t.sources[a].subscribers == [] && !Referenced(t, a)
      ensures t.sources[a].expires <= deadline
    {
      assert KeptIdle(s, t, a) && SourceOk(s, a);
      if q :| q in t.sessions && t.sessions[q].source == a {
        assert q in s.sessions && Referenced(s, a);
      }
    }
  }

  predicate KeptIdle(s: Shm, t: Shm, a: Addr)
    requires a in t.sources
  {
    a in s.sources
    && var c, d := s.sources[a], t.sources[a];
    c.birth == d.birth && c.subscribers == d.subscribers
    && (!c.publishing && c.subscribers == [] && c.expires != 0 ==> !d.publishing && d.expires == c.expires)
  }

  lemma ReferencedOnlyBefore(s: Shm, t: Shm, birth: nat, deadline: nat)
    requires Dying(s, birth, deadline) && t.sessions == s.sessions
    requires forall a :: a in t.sources && t.sources[a].birth == birth ==> a in s.sources && t.sources[a] == s.sources[a]
    ensures Dying(t, birth, deadline)
  {
    forall a | a in t.sources && t.sources[a].birth == birth ensures !Referenced(t, a) {
      assert !Referenced(s, a);
    }
  }

  lemma {:induction false} RunDying(s: Shm, ops: seq<Op>, birth: nat, name: string, deadline: nat)
    requires Inv(s) && CanRun(s, ops) && birth < s.births && Dying(s, birth, deadline)
    requires forall a :: a in s.sources && s.sources[a].birth == birth ==> s.sources[a].name == name
    requires forall i :: 0 <= i < |ops| ==> !Revives(ops[i], name)
    ensures Inv(Run(s, ops)) && Dying(Run(s, ops), birth, deadline)
    decreases |ops|
  {
    if ops != [] {
      var t := Next(s, ops[0]);
      assert !Revives(ops[0], name);
      StepKeepsInv(s, ops[0]);
      StepEvolves(s, ops[0]);
      StepDying(s, ops[0], birth, name, deadline);
      forall a | a in t.sources && t.sources[a].birth == birth ensures t.sources[a].name == name {
        assert SourceEvolves(s, t, a);
      }
      forall i | 0 <= i < |ops[1..]| ensures !Revives(ops[1..][i], name) { assert ops[1..][i] == ops[i + 1]; }
      RunDying(t, ops[1..], birth, name, deadline);
    }
  }

  /**
   A source without viewers whose publisher fell silent, and at which only overdue half-open
   skeletons point, is freed by two sweeps: one past the heartbeat grace and one past the deadline
   it leaves, whatever happens in between except a new claim or a new skeleton for the name.
   */
  lemma FreedByTwoSweeps(s: Shm, a: Addr, now1: nat, ops: seq<Op>, now2: nat)
    requires Inv(s) && a in s.sources && s.sources[a].subscribers == []
    requires s.sources[a].publishing ==> Silent(s.sources[a], now1)
    requires forall q :: q in s.sessions && s.sessions[q].source == a ==> SessionDue(s.sessions[q], now1, false)
    requires CanRun(Expire(s, now1, false), ops)
    requires forall i :: 0 <= i < |ops| ==> !Revives(ops[i], s.sources[a].name)
    requires now2 >= Settled(s.sources[a], now1).expires
    ensures s.sources[a].publishing ==> Settled(s.sources[a], now1).expires == now1 + SOURCE_EXPIRE_MS
    ensures Gone(Expire(Run(Expire(s, now1, false), ops), now2, false), s.sources[a].birth)
  {
    var c := s.sources[a];
    var t := Expire(s, now1, false);
    ExpireEvolves(s, now1, false);
    assert SourceOk(s, a);
    forall b | b in t.sources && t.sources[b].birth == c.birth
      ensures b == a && t.sources[b] == Settled(c, now1) && !Referenced(t, b)
    {
      assert SourceEvolves(s, t, b) && SameBirth(s, a, b);
    }
    assert Dying(t, c.birth, Settled(c, now1).expires);
    RunDying(t, ops, c.birth, c.name, Settled(c, now1).expires);
    ExpireDying(Run(t, ops), c.birth, Settled(c, now1).expires, now2, false);
  }
}
