/**
 The cross-worker registry as a value: sources, session skeletons and the effect of every
 operation that runs under the pool mutex.

 Slab memory is a map from addresses to records, so a pointer can dangle: a record that was
 freed is an address outside the map, and an address may be handed out again. `birth` numbers
 the allocations of sources; it tells two sources apart that held the same address in turn.
 */
module RegistrySpec {
  import opened Options
  import opened Lists

  type Addr = nat

  const SOURCE_NAME_MAX := 128
  const UFRAG_MAX := 64
  const PWD_MAX := 256
  const SESSION_EXPIRE_MS := 30000
  const SOURCE_EXPIRE_MS := 10000
  const PUBLISH_GRACE_MS := 10000
  const PUBLISHER_NONE := 0

  datatype Rc = Ok | Error | Declined | Busy

  datatype Source = Source(
    birth: nat,
    name: string,
    publishing: bool,
    publisherKind: nat,
    expires: nat,             // absolute ms, 0 = no deadline
    seenMs: nat,              // last heartbeat of the publisher, 0 = never
    publisherSlot: int,
    version: nat,             // subscribers_version
    subscribers: seq<Addr>,
    remote: nat               // remote_subscribers
  )

  datatype Session = Session(
    source: Addr,
    id: nat,
    ufrag: string,
    pwd: string,
    publishing: bool,
    srtpReady: bool,
    ownerSlot: int,
    expires: nat
  )

  datatype Shm = Shm(
    sources: map<Addr, Source>,
    sourceList: seq<Addr>,
    tree: map<string, Addr>,
    sessions: map<Addr, Session>,
    sessionList: seq<Addr>,
    nextId: nat,
    births: nat
  )

  const EMPTY := Shm(map[], [], map[], map[], [], 1, 0)

  predicate NameOk(name: string) { 0 < |name| < SOURCE_NAME_MAX }
  predicate UfragOk(ufrag: string) { 0 < |ufrag| < UFRAG_MAX }
  predicate PwdOk(pwd: string) { 0 < |pwd| < PWD_MAX }

  // ---------------------------------------------------------------- lookups

  /** The first skeleton of the session list that carries `ufrag`. */
  function FindIn(sessions: map<Addr, Session>, l: seq<Addr>, ufrag: string): (r: Option<Addr>)
    ensures r.Some? ==> r.value in l && r.value in sessions && sessions[r.value].ufrag == ufrag
  {
    if l == [] then None
    else if l[0] in sessions && sessions[l[0]].ufrag == ufrag then Some(l[0])
    else FindIn(sessions, l[1..], ufrag)
  }

  function Find(s: Shm, ufrag: string): Option<Addr> {
    if UfragOk(ufrag) then FindIn(s.sessions, s.sessionList, ufrag) else None
  }

  function Lookup(s: Shm, name: string): Option<Addr> {
    if NameOk(name) && name in s.tree && s.tree[name] in s.sources then Some(s.tree[name]) else None
  }

  /** Some skeleton still points at `a`. */
  predicate Referenced(s: Shm, a: Addr) {
    exists q :: q in s.sessions && s.sessions[q].source == a
  }

  predicate MayTouch(q: Session, slot: nat) { q.ownerSlot == -1 || q.ownerSlot == slot }

  // ---------------------------------------------------------------- the reaper

  predicate SessionDue(q: Session, now: nat, forced: bool) {
    q.ownerSlot == -1 && q.expires != 0 && (forced || now >= q.expires)
  }

  predicate Silent(c: Source, now: nat) {
    c.seenMs == 0 || now - c.seenMs >= PUBLISH_GRACE_MS
  }

  function Armed(expires: nat, now: nat): nat {
    if expires == 0 then now + SOURCE_EXPIRE_MS else expires
  }

  /** What a sweep does to a source it keeps: a silent publisher loses the source. */
  function Settled(c: Source, now: nat): Source {
    if c.publishing && Silent(c, now)
    then c.(publishing := false, publisherKind := PUBLISHER_NONE, expires := Armed(c.expires, now))
    else c
  }

  predicate SourceDue(c: Source, now: nat, forced: bool) {
    var d := Settled(c, now);
    !d.publishing && d.subscribers == [] && d.expires != 0 && (forced || now >= d.expires)
  }

  function DueSessions(s: Shm, now: nat, forced: bool): set<Addr> {
    set q | q in s.sessions && SessionDue(s.sessions[q], now, forced)
  }

  function DropSessions(s: Shm, dead: set<Addr>): Shm {
    s.(sessions := s.sessions - dead, sessionList := Minus(s.sessionList, dead))
  }

  function DueSources(s: Shm, now: nat, forced: bool): set<Addr> {
    set a | a in s.sources && SourceDue(s.sources[a], now, forced) && !Referenced(s, a)
  }

  function SettledSources(sources: map<Addr, Source>, seen: set<Addr>, dead: set<Addr>, now: nat): map<Addr, Source> {
    map a | a in sources && a !in dead :: if a in seen then Settled(sources[a], now) else sources[a]
  }

  function Untree(tree: map<string, Addr>, dead: set<Addr>): map<string, Addr> {
    map n | n in tree && tree[n] !in dead :: tree[n]
  }

  /** The second loop of the sweep after it has passed the sources in `seen`. */
  function Sweep(s: Shm, seen: set<Addr>, now: nat, forced: bool): Shm {
    var dead := DueSources(s, now, forced) * seen;
    s.(sources := SettledSources(s.sources, seen, dead, now),
       sourceList := Minus(s.sourceList, dead),
       tree := Untree(s.tree, dead))
  }

  function Expire(s: Shm, now: nat, forced: bool): Shm {
    var t := DropSessions(s, DueSessions(s, now, forced));
    Sweep(t, t.sources.Keys, now, forced)
  }

  // ---------------------------------------------------------------- operations

  function NewSource(s: Shm, name: string, now: nat): Source {
    Source(s.births, name, false, PUBLISHER_NONE, now + SOURCE_EXPIRE_MS, 0, -1, 0, [], 0)
  }

  function InsertSource(s: Shm, name: string, now: nat, at: Addr): Shm {
    s.(sources := s.sources[at := NewSource(s, name, now)],
       sourceList := [at] + s.sourceList,
       tree := s.tree[name := at],
       births := s.births + 1)
  }

  /** Result of the slab allocator: the first try, or the retry after a forced sweep. */
  datatype Alloc = First(at: Addr) | Retried(at: Addr) | Failed

  function AfterAlloc(s: Shm, al: Alloc, now: nat): Shm {
    if al.First? then s else Expire(s, now, true)
  }

  predicate AllocFresh(s: Shm, al: Alloc, now: nat) {
    al.Failed? || (al.at !in AfterAlloc(s, al, now).sources && al.at !in AfterAlloc(s, al, now).sessions)
  }

  function SourceGet(s: Shm, name: string, now: nat, al: Alloc): Shm {
    if !NameOk(name) || Lookup(s, name).Some? then s
    else
      var t := AfterAlloc(s, al, now);
      if al.Failed? then t else InsertSource(t, name, now, al.at)
  }

  predicate Removable(s: Shm, a: Addr)
    requires a in s.sources
  {
    s.sources[a].subscribers == [] && !s.sources[a].publishing && !Referenced(s, a)
  }

  function SourceRemove(s: Shm, name: string): Shm {
    match Lookup(s, name)
    case None => s
    case Some(a) =>
      if !Removable(s, a) then s
      else s.(sources := s.sources - {a}, sourceList := Minus(s.sourceList, {a}), tree := s.tree - {name})
  }

  function NewSession(s: Shm, a: Addr, ufrag: string, pwd: string, publishing: bool, now: nat): Session {
    Session(a, s.nextId, ufrag, pwd, publishing, false, -1, now + SESSION_EXPIRE_MS)
  }

  /** The source is looked up before the allocation, so a forced sweep runs in between. */
  function SessionAdd(s: Shm, ufrag: string, pwd: string, name: string, publishing: bool, now: nat, al: Alloc): Shm {
    if !UfragOk(ufrag) || !PwdOk(pwd) || Lookup(s, name).None? then s
    else
      var t := AfterAlloc(s, al, now);
      if al.Failed? then t
      else t.(sessions := t.sessions[al.at := NewSession(t, Lookup(s, name).value, ufrag, pwd, publishing, now)],
              sessionList := [al.at] + t.sessionList,
              nextId := t.nextId + 1)
  }

  /** A source that may have lost its last viewer gets its deadline back. */
  function ArmIfIdle(c: Source, now: nat): Source {
    if c.subscribers == [] && !c.publishing then c.(expires := Armed(c.expires, now)) else c
  }

  function Unsubscribed(c: Source, q: Addr, owner: int): Source {
    if q !in c.subscribers then c
    else c.(subscribers := Minus(c.subscribers, {q}),
            remote := if owner != c.publisherSlot && c.remote > 0 then c.remote - 1 else c.remote,
            version := c.version + 1)
  }

  function FreeSession(s: Shm, q: Addr, now: nat): Shm
    requires q in s.sessions
  {
    var a := s.sessions[q].source;
    var t := DropSessions(s, {q});
    if a !in s.sources then t
    else t.(sources := s.sources[a := ArmIfIdle(Unsubscribed(s.sources[a], q, s.sessions[q].ownerSlot), now)])
  }

  function RemoveIfOwner(s: Shm, ufrag: string, slot: nat, now: nat): Shm {
    match Find(s, ufrag)
    case None => s
    case Some(q) => if MayTouch(s.sessions[q], slot) then FreeSession(s, q, now) else s
  }

  /** Return code shared by bind and activate. */
  function ClaimRc(s: Shm, ufrag: string, slot: nat): Rc {
    match Find(s, ufrag)
    case None => Error
    case Some(q) => if MayTouch(s.sessions[q], slot) then Ok else Declined
  }

  function Bind(s: Shm, ufrag: string, slot: nat): Shm {
    if ClaimRc(s, ufrag, slot) != Ok then s
    else
      var q := Find(s, ufrag).value;
      s.(sessions := s.sessions[q := s.sessions[q].(ownerSlot := slot)])
  }

  function Subscribed(c: Source, q: Addr, owner: int): Source {
    c.(subscribers := [q] + c.subscribers,
       version := c.version + 1,
       expires := 0,
       remote := if owner != c.publisherSlot then c.remote + 1 else c.remote)
  }

  function Activate(s: Shm, ufrag: string, slot: nat): Shm {
    if ClaimRc(s, ufrag, slot) != Ok then s
    else
      var q := Find(s, ufrag).value;
      var sess := s.sessions[q].(ownerSlot := slot, srtpReady := true, expires := 0);
      var t := s.(sessions := s.sessions[q := sess]);
      if sess.publishing || sess.source !in s.sources || q in s.sources[sess.source].subscribers then t
      else t.(sources := s.sources[sess.source := Subscribed(s.sources[sess.source], q, slot)])
  }

  function PublishRc(s: Shm, name: string, kind: nat): Rc {
    match Lookup(s, name)
    case None => Error
    case Some(a) =>
      if s.sources[a].publisherKind != PUBLISHER_NONE && s.sources[a].publisherKind != kind then Busy else Ok
  }

  function TryPublish(s: Shm, name: string, kind: nat, now: nat): Shm {
    if PublishRc(s, name, kind) != Ok then s
    else
      var a := Lookup(s, name).value;
      s.(sources := s.sources[a := s.sources[a].(publisherKind := kind, publishing := true, expires := 0, seenMs := now)])
  }

  function Released(c: Source, now: nat): Source {
    c.(publisherKind := PUBLISHER_NONE, publishing := false,
       expires := if c.subscribers != [] then 0 else Armed(c.expires, now))
  }

  function ReleasePublish(s: Shm, name: string, kind: nat, now: nat): Shm {
    match Lookup(s, name)
    case None => s
    case Some(a) =>
      if s.sources[a].publisherKind != kind then s
      else s.(sources := s.sources[a := Released(s.sources[a], now)])
  }

  /** Written without the lock through the publisher's cached pointer. */
  function Heartbeat(s: Shm, a: Addr, now: nat): Shm
    requires a in s.sources
  {
    s.(sources := s.sources[a := s.sources[a].(seenMs := now)])
  }

  function SetPublisherSlot(s: Shm, a: Addr, slot: nat): Shm
    requires a in s.sources
  {
    s.(sources := s.sources[a := s.sources[a].(publisherSlot := slot)])
  }

  // ---------------------------------------------------------------- snapshot

  predicate ReadyViewer(q: Session, nworkers: nat) {
    q.srtpReady && 0 <= q.ownerSlot < nworkers
  }

  /** Ids and slots of the first `max` ready viewers of a subscriber list, in list order. */
  function SnapshotOf(sessions: map<Addr, Session>, l: seq<Addr>, nworkers: nat, max: nat): seq<(nat, int)> {
    if l == [] || max == 0 then []
    else if l[0] in sessions && ReadyViewer(sessions[l[0]], nworkers)
    then [(sessions[l[0]].id, sessions[l[0]].ownerSlot)] + SnapshotOf(sessions, l[1..], nworkers, max - 1)
    else SnapshotOf(sessions, l[1..], nworkers, max)
  }

  function Snapshot(s: Shm, name: string, nworkers: nat, max: nat): seq<(nat, int)> {
    match Lookup(s, name)
    case None => []
    case Some(a) => SnapshotOf(s.sessions, s.sources[a].subscribers, nworkers, max)
  }

  // ---------------------------------------------------------------- steps and runs

  /** One atomic step by any worker. */
  datatype Op =
    | OpSourceGet(name: string, now: nat, al: Alloc)
    | OpSourceRemove(name: string)
    | OpSessionAdd(ufrag: string, pwd: string, name: string, publishing: bool, now: nat, al: Alloc)
    | OpBind(ufrag: string, slot: nat)
    | OpActivate(ufrag: string, slot: nat)
    | OpRemoveIfOwner(ufrag: string, slot: nat, now: nat)
    | OpTryPublish(name: string, kind: nat, now: nat)
    | OpReleasePublish(name: string, kind: nat, now: nat)
    | OpExpire(now: nat, forced: bool)
    | OpHeartbeat(a: Addr, now: nat)
    | OpSetPublisherSlot(a: Addr, slot: nat)

  /** A forced sweep does not free the source a skeleton is about to point at. */
  predicate SurvivesPressure(s: Shm, name: string, now: nat) {
    match Lookup(s, name)
    case None => true
    case Some(a) =>
      || (s.sources[a].publishing && !Silent(s.sources[a], now))
      || s.sources[a].subscribers != []
      || exists q :: q in s.sessions && s.sessions[q].source == a && !SessionDue(s.sessions[q], now, true)
  }

  predicate Enabled(s: Shm, op: Op) {
    match op
    case OpSourceGet(_, now, al) => AllocFresh(s, al, now)
    case OpSessionAdd(_, _, name, _, now, al) =>
      AllocFresh(s, al, now) && (al.Retried? ==> SurvivesPressure(s, name, now))
    case OpTryPublish(_, kind, _) => kind != PUBLISHER_NONE
    case OpHeartbeat(a, _) => a in s.sources
    case OpSetPublisherSlot(a, _) => a in s.sources
    case _ => true
  }

  function Next(s: Shm, op: Op): Shm
    requires Enabled(s, op)
  {
    match op
    case OpSourceGet(name, now, al) => SourceGet(s, name, now, al)
    case OpSourceRemove(name) => SourceRemove(s, name)
    case OpSessionAdd(ufrag, pwd, name, publishing, now, al) => SessionAdd(s, ufrag, pwd, name, publishing, now, al)
    case OpBind(ufrag, slot) => Bind(s, ufrag, slot)
    case OpActivate(ufrag, slot) => Activate(s, ufrag, slot)
    case OpRemoveIfOwner(ufrag, slot, now) => RemoveIfOwner(s, ufrag, slot, now)
    case OpTryPublish(name, kind, now) => TryPublish(s, name, kind, now)
    case OpReleasePublish(name, kind, now) => ReleasePublish(s, name, kind, now)
    case OpExpire(now, forced) => Expire(s, now, forced)
    case OpHeartbeat(a, now) => Heartbeat(s, a, now)
    case OpSetPublisherSlot(a, slot) => SetPublisherSlot(s, a, slot)
  }

  /** `ops` is an interleaving of steps that can be taken from `s` in this order. */
  predicate CanRun(s: Shm, ops: seq<Op>)
    decreases |ops|
  {
    ops == [] || (Enabled(s, ops[0]) && CanRun(Next(s, ops[0]), ops[1..]))
  }

  function Run(s: Shm, ops: seq<Op>): Shm
    requires CanRun(s, ops)
    decreases |ops|
  {
    if ops == [] then s else Run(Next(s, ops[0]), ops[1..])
  }
}
