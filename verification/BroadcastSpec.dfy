/** The media fan-out of a publishing worker. */
module BroadcastSpec {
  // The cached list of ready viewers, and a packet's way to each of them, directly or through one ring
  // entry per other worker.

  import opened Bytes
  import opened Lists
  import opened Options
  import opened RegistrySpec
  import opened RegistryInvariant

  const RING_MAX_SESSIONS := 64
  const RING_RTP_MAX := 1500
  const MAX_SNAPSHOT := 256

  /** A cached viewer: the skeleton's id and the worker that owns it. */
  type Target = (nat, int)

  datatype Media = Media(data: seq<byte>, video: bool, gop: bool)

  datatype Entry = Entry(media: Media, ids: seq<nat>)

  /** A worker's media ring: its capacity and the entries waiting for the worker. */
  datatype Queue = Queue(size: nat, waiting: seq<Entry>)

  /**
   What the sending worker meets: the ids it still knows a session for, each worker's ring as it
   stands when its turn comes, if it has one, and the workers whose wake-up descriptor is open.
   */
  datatype Peers = Peers(self: nat, known: set<nat>, rings: seq<Option<Queue>>, open: set<nat>)

  predicate Takes(ring: Option<Queue>, m: Media) {
    ring.Some? && 0 < |m.data| <= RING_RTP_MAX && |ring.value.waiting| < ring.value.size
  }

  /** The ids of the viewers a worker owns, in list order. */
  function Owned(viewers: seq<Target>, w: int): seq<nat> {
    if viewers == [] then []
    else
      var n := |viewers| - 1;
      Owned(viewers[..n], w) + if viewers[n].1 == w then [viewers[n].0] else []
  }

  function KnownOf(ids: seq<nat>, known: set<nat>): seq<nat> {
    if ids == [] then []
    else
      var n := |ids| - 1;
      KnownOf(ids[..n], known) + if ids[n] in known then [ids[n]] else []
  }

  lemma DirectStep(viewers: seq<Target>, i: nat, w: int, known: set<nat>)
    requires i < |viewers|
    ensures KnownOf(Owned(viewers[..i + 1], w), known) ==
            KnownOf(Owned(viewers[..i], w), known) +
            if viewers[i].1 == w && viewers[i].0 in known then [viewers[i].0] else []
  {
    var front := Owned(viewers[..i], w);
    assert viewers[..i + 1][..i] == viewers[..i];
    assert front + [] == front && (front + [viewers[i].0])[..|front|] == front;
  }

  /** What the ring entry for a worker names: as many as an entry holds. */
  function Batch(viewers: seq<Target>, w: int): seq<nat> {
    var all := Owned(viewers, w);
    if |all| <= RING_MAX_SESSIONS then all else all[..RING_MAX_SESSIONS]
  }

  /** Another worker that owns a viewer and has a ring is offered an entry. */
  predicate Offers(p: Peers, viewers: seq<Target>, w: int)
    requires 0 <= w < |p.rings|
  {
    w != p.self && Owned(viewers, w) != [] && p.rings[w].Some?
  }

  function RingAfter(p: Peers, viewers: seq<Target>, m: Media, w: int): Option<Queue>
    requires 0 <= w < |p.rings|
  {
    if Offers(p, viewers, w) && Takes(p.rings[w], m)
    then Some(p.rings[w].value.(waiting := p.rings[w].value.waiting + [Entry(m, Batch(viewers, w))]))
    else p.rings[w]
  }

  /** Entries offered to the workers below `n` and refused. */
  function Refusals(p: Peers, viewers: seq<Target>, m: Media, n: nat): nat
    requires n <= |p.rings|
  {
    if n == 0 then 0
    else Refusals(p, viewers, m, n - 1) + if Offers(p, viewers, n - 1) && !Takes(p.rings[n - 1], m) then 1 else 0
  }

  /** The workers below `n` that are woken: their ring took an entry. */
  function Woken(p: Peers, viewers: seq<Target>, m: Media, n: nat): seq<nat>
    requires n <= |p.rings|
  {
    if n == 0 then []
    else
      var w := n - 1;
      Woken(p, viewers, m, w) + if Offers(p, viewers, w) && Takes(p.rings[w], m) && w in p.open then [w] else []
  }

  /** The ids a packet reaches on one worker: sent there and then, or named in the entry its ring took. */
  function ReachedOn(p: Peers, viewers: seq<Target>, m: Media, w: int): seq<nat>
    requires 0 <= w < |p.rings|
  {
    if w == p.self then KnownOf(Owned(viewers, w), p.known)
    else if Takes(p.rings[w], m) then Batch(viewers, w) else []
  }

  function Reached(p: Peers, viewers: seq<Target>, m: Media, n: nat): seq<nat>
    requires n <= |p.rings|
  {
    if n == 0 then [] else Reached(p, viewers, m, n - 1) + ReachedOn(p, viewers, m, n - 1)
  }

  // ---------------------------------------------------------------- owners

  function Ids(viewers: seq<Target>): seq<nat> { seq(|viewers|, i requires 0 <= i < |viewers| => viewers[i].0) }

  predicate OnWorkers(viewers: seq<Target>, n: nat) { forall i :: 0 <= i < |viewers| ==> 0 <= viewers[i].1 < n }

  predicate DistinctIds(viewers: seq<Target>) {
    forall i, j :: 0 <= i < j < |viewers| ==> viewers[i].0 != viewers[j].0
  }

  /** The viewers grouped by owner. */
  function Grouped(viewers: seq<Target>, n: nat): seq<nat> {
    if n == 0 then [] else Grouped(viewers, n - 1) + Owned(viewers, n - 1)
  }

  lemma BagSum(a: seq<nat>, b: seq<nat>, a0: seq<nat>, b0: seq<nat>, da: multiset<nat>, db: multiset<nat>)
    requires multiset(a) == multiset(a0) + da && multiset(b) == multiset(b0) + db
    ensures multiset(a + b) == multiset(a0 + b0) + (da + db)
  {
  }

  lemma OwnedStep(viewers: seq<Target>, w: int)
    requires viewers != []
    ensures var last := viewers[|viewers| - 1];
      multiset(Owned(viewers, w)) ==
      multiset(Owned(viewers[..|viewers| - 1], w)) + if last.1 == w then multiset{last.0} else multiset{}
  {
  }

  lemma {:induction false} GroupedStep(viewers: seq<Target>, n: nat)
    requires viewers != []
    ensures var (x, w) := viewers[|viewers| - 1];
      multiset(Grouped(viewers, n)) ==
      multiset(Grouped(viewers[..|viewers| - 1], n)) + if 0 <= w < n then multiset{x} else multiset{}
  {
    hide Owned;
    if n > 0 {
      var (x, w) := viewers[|viewers| - 1];
      var front := viewers[..|viewers| - 1];
      GroupedStep(viewers, n - 1);
      OwnedStep(viewers, n - 1);
      BagSum(Grouped(viewers, n - 1), Owned(viewers, n - 1), Grouped(front, n - 1), Owned(front, n - 1),
             if 0 <= w < n - 1 then multiset{x} else multiset{}, if w == n - 1 then multiset{x} else multiset{});
    }
  }

  lemma {:induction false} NoneOwned(n: nat)
    ensures Grouped([], n) == []
  {
    if n > 0 { NoneOwned(n - 1); }
  }

  /** Every viewer is owned by exactly one worker. */
  lemma {:induction false} OwnersPartition(viewers: seq<Target>, n: nat)
    requires OnWorkers(viewers, n)
    ensures multiset(Grouped(viewers, n)) == multiset(Ids(viewers))
  {
    if viewers == [] {
      NoneOwned(n);
    } else {
      var k := |viewers| - 1;
      GroupedStep(viewers, n);
      OwnersPartition(viewers[..k], n);
      IdsLast(viewers);
      hide Grouped, Ids;
    }
  }

  lemma IdsLast(viewers: seq<Target>)
    requires viewers != []
    ensures var k := |viewers| - 1; multiset(Ids(viewers)) == multiset(Ids(viewers[..k])) + multiset{viewers[k].0}
  {
    assert Ids(viewers) == Ids(viewers[..|viewers| - 1]) + [viewers[|viewers| - 1].0];
  }

  lemma {:induction false} OwnedIsThere(viewers: seq<Target>, w: int)
    ensures forall x :: x in Owned(viewers, w) <==> (x, w) in viewers
  {
    if viewers != [] {
      var n := |viewers| - 1;
      OwnedIsThere(viewers[..n], w);
      assert viewers == viewers[..n] + [viewers[n]];
    }
  }

  lemma DropsFit(n: nat)
    requires n < U32
    ensures Low32(n + 0) == n
  {
  }

  /** An empty cache leaves the rings alone. */
  lemma {:induction false} NobodyToServe(p: Peers, m: Media, n: nat)
    requires n <= |p.rings|
    ensures Refusals(p, [], m, n) == 0 && Woken(p, [], m, n) == []
  {
    if n > 0 { NobodyToServe(p, m, n - 1); }
  }

  // ---------------------------------------------------------------- who is reached

  lemma {:induction false} KnownOfCounts(ids: seq<nat>, known: set<nat>)
    ensures multiset(KnownOf(ids, known)) <= multiset(ids)
    ensures |KnownOf(ids, known)| == |ids| <==> forall x :: x in ids ==> x in known
    ensures forall x :: x in KnownOf(ids, known) <==> x in ids && x in known
    ensures |KnownOf(ids, known)| <= |ids|
  {
    if ids != [] {
      var n := |ids| - 1;
      KnownOfCounts(ids[..n], known);
      assert ids == ids[..n] + [ids[n]];
      assert forall x :: x in ids <==> x in ids[..n] || x == ids[n];
    }
  }

  lemma BatchCounts(viewers: seq<Target>, w: int)
    ensures multiset(Batch(viewers, w)) <= multiset(Owned(viewers, w)) && |Batch(viewers, w)| <= |Owned(viewers, w)|
    ensures |Batch(viewers, w)| == |Owned(viewers, w)| <==> |Owned(viewers, w)| <= RING_MAX_SESSIONS
  {
    var all := Owned(viewers, w);
    if |all| > RING_MAX_SESSIONS { assert all == all[..RING_MAX_SESSIONS] + all[RING_MAX_SESSIONS..]; }
  }

  /** Nothing is lost on the way to a worker: it knows its own viewers, or its ring takes one entry for all of them. */
  predicate Serves(p: Peers, viewers: seq<Target>, m: Media, w: int)
    requires 0 <= w < |p.rings|
  {
    var ids := Owned(viewers, w);
    if w == p.self then forall x :: x in ids ==> x in p.known
    else ids == [] || (|ids| <= RING_MAX_SESSIONS && Takes(p.rings[w], m))
  }

  lemma ReachedOnCounts(p: Peers, viewers: seq<Target>, m: Media, w: int)
    requires 0 <= w < |p.rings|
    ensures multiset(ReachedOn(p, viewers, m, w)) <= multiset(Owned(viewers, w))
    ensures |ReachedOn(p, viewers, m, w)| <= |Owned(viewers, w)|
    ensures |ReachedOn(p, viewers, m, w)| == |Owned(viewers, w)| <==> Serves(p, viewers, m, w)
  {
    KnownOfCounts(Owned(viewers, w), p.known);
    BatchCounts(viewers, w);
  }

  predicate AllServed(p: Peers, viewers: seq<Target>, m: Media, n: nat)
    requires n <= |p.rings|
  {
    forall w :: 0 <= w < n ==> Serves(p, viewers, m, w)
  }

  lemma NobodyIsMissed(p: Peers, viewers: seq<Target>, m: Media)
    ensures AllServed(p, viewers, m, 0)
  {
  }

  lemma AllServedStep(p: Peers, viewers: seq<Target>, m: Media, w: nat)
    requires w < |p.rings|
    ensures AllServed(p, viewers, m, w + 1) <==> AllServed(p, viewers, m, w) && Serves(p, viewers, m, w)
  {
    hide Serves;
  }

  lemma BagsBelow(a: seq<nat>, b: seq<nat>, c: seq<nat>, d: seq<nat>)
    requires multiset(a) <= multiset(c) && multiset(b) <= multiset(d)
    ensures multiset(a + b) <= multiset(c + d)
  {
  }

  lemma {:induction false} ReachedCounts(p: Peers, viewers: seq<Target>, m: Media, n: nat)
    requires n <= |p.rings|
    ensures multiset(Reached(p, viewers, m, n)) <= multiset(Grouped(viewers, n))
    ensures |Reached(p, viewers, m, n)| <= |Grouped(viewers, n)|
    ensures |Reached(p, viewers, m, n)| == |Grouped(viewers, n)| <==> AllServed(p, viewers, m, n)
  {
    hide ReachedOn, Owned, AllServed;
    if n == 0 {
      NobodyIsMissed(p, viewers, m);
    } else {
      var w := n - 1;
      ReachedCounts(p, viewers, m, w);
      ReachedOnCounts(p, viewers, m, w);
      AllServedStep(p, viewers, m, w);
      BagsBelow(Reached(p, viewers, m, w), ReachedOn(p, viewers, m, w), Grouped(viewers, w), Owned(viewers, w));
    }
  }

  lemma SameSizeSameBag(a: multiset<nat>, b: multiset<nat>)
    requires a <= b && |a| == |b|
    ensures a == b
  {
    assert b == a + (b - a);
    assert |b - a| == 0;
  }

  /**
   A packet reaches every cached viewer, each as often as it is cached, exactly when this worker
   still knows its own viewers and every other worker that owns some owns at most one ring entry
   of them and has a ring with room for the packet.
   */
  lemma EveryViewerIsServed(p: Peers, viewers: seq<Target>, m: Media)
    requires OnWorkers(viewers, |p.rings|)
    ensures multiset(Reached(p, viewers, m, |p.rings|)) == multiset(Ids(viewers)) <==>
            AllServed(p, viewers, m, |p.rings|)
  {
    var n := |p.rings|;
    var r, g := Reached(p, viewers, m, n), Grouped(viewers, n);
    OwnersPartition(viewers, n);
    ReachedCounts(p, viewers, m, n);
    assert |multiset(r)| == |r| && |multiset(g)| == |g|;
    if |r| == |g| { SameSizeSameBag(multiset(r), multiset(g)); }
  }

  lemma {:induction false} ReachedWhere(p: Peers, viewers: seq<Target>, m: Media, n: nat, x: nat)
    requires n <= |p.rings|
    ensures x in Reached(p, viewers, m, n) <==> exists w :: 0 <= w < n && x in ReachedOn(p, viewers, m, w)
  {
    hide ReachedOn;
    if n > 0 {
      ReachedWhere(p, viewers, m, n - 1, x);
      assert x in Reached(p, viewers, m, n) <==>
        x in Reached(p, viewers, m, n - 1) || x in ReachedOn(p, viewers, m, n - 1);
    }
  }

  /** Nobody else is served: a packet goes only to cached viewers. */
  lemma OnlyViewersAreServed(p: Peers, viewers: seq<Target>, m: Media, x: nat)
    requires x in Reached(p, viewers, m, |p.rings|)
    ensures exists w: nat :: w < |p.rings| && (x, w) in viewers
  {
    ReachedWhere(p, viewers, m, |p.rings|, x);
    var w: nat :| w < |p.rings| && x in ReachedOn(p, viewers, m, w);
    ReachedOnCounts(p, viewers, m, w);
    assert x in multiset(ReachedOn(p, viewers, m, w));
    assert x in Owned(viewers, w);
    OwnedIsThere(viewers, w);
  }

  lemma {:induction false} OwnedPlace(viewers: seq<Target>, i: nat)
    requires i < |viewers|
    ensures var (x, w) := viewers[i];
      |Owned(viewers[..i], w)| < |Owned(viewers, w)| && Owned(viewers, w)[|Owned(viewers[..i], w)|] == x
  {
    var n := |viewers| - 1;
    if i < n {
      OwnedPlace(viewers[..n], i);
      assert viewers[..n][..i] == viewers[..i];
    }
  }

  lemma {:induction false} OwnedDistinct(viewers: seq<Target>, w: int)
    requires DistinctIds(viewers)
    ensures forall i, j :: 0 <= i < j < |Owned(viewers, w)| ==> Owned(viewers, w)[i] != Owned(viewers, w)[j]
  {
    if viewers != [] {
      var n := |viewers| - 1;
      OwnedDistinct(viewers[..n], w);
      OwnedIsThere(viewers[..n], w);
      forall i | 0 <= i < |Owned(viewers[..n], w)| ensures Owned(viewers[..n], w)[i] != viewers[n].0 {
        assert Owned(viewers[..n], w)[i] in Owned(viewers[..n], w);
      }
    }
  }

  lemma InBatch(viewers: seq<Target>, i: nat)
    requires DistinctIds(viewers) && i < |viewers|
    ensures var (x, w) := viewers[i]; x in Batch(viewers, w) <==> |Owned(viewers[..i], w)| < RING_MAX_SESSIONS
  {
    var (x, w) := viewers[i];
    OwnedPlace(viewers, i);
    OwnedDistinct(viewers, w);
    var all, k := Owned(viewers, w), |Owned(viewers[..i], w)|;
    assert all[k] == x;
    assert k < |Batch(viewers, w)| ==> Batch(viewers, w)[k] == x;
    forall j | 0 <= j < |Batch(viewers, w)| && Batch(viewers, w)[j] == x ensures j == k {
      assert all[j] == all[k];
    }
  }

  /** What decides whether one cached viewer gets the packet. */
  predicate Gets(p: Peers, viewers: seq<Target>, m: Media, i: nat)
    requires i < |viewers| && 0 <= viewers[i].1 < |p.rings|
  {
    var (x, w) := viewers[i];
    if w == p.self then x in p.known
    else Takes(p.rings[w], m) && |Owned(viewers[..i], w)| < RING_MAX_SESSIONS
  }

  lemma ReachedHome(p: Peers, viewers: seq<Target>, m: Media, i: nat)
    requires DistinctIds(viewers) && i < |viewers| && 0 <= viewers[i].1 < |p.rings|
    ensures viewers[i].0 in ReachedOn(p, viewers, m, viewers[i].1) <==> Gets(p, viewers, m, i)
  {
    var (x, w) := viewers[i];
    OwnedIsThere(viewers, w);
    KnownOfCounts(Owned(viewers, w), p.known);
    InBatch(viewers, i);
    assert viewers[i] in viewers;
  }

  /**
   One viewer: on this worker it gets the packet when its session is known; on another worker when
   the ring takes the entry and fewer than sixty-four viewers before it on the list are owned there.
   */
  lemma ViewerIsReached(p: Peers, viewers: seq<Target>, m: Media, i: nat)
    requires OnWorkers(viewers, |p.rings|) && DistinctIds(viewers) && i < |viewers|
    ensures viewers[i].0 in Reached(p, viewers, m, |p.rings|) <==> Gets(p, viewers, m, i)
  {
    var (x, w) := viewers[i];
    ReachedWhere(p, viewers, m, |p.rings|, x);
    ReachedHome(p, viewers, m, i);
    forall v | 0 <= v < |p.rings| && x in ReachedOn(p, viewers, m, v) ensures v == w {
      ReachedOnCounts(p, viewers, m, v);
      assert x in multiset(ReachedOn(p, viewers, m, v));
      assert x in Owned(viewers, v);
      OwnedIsThere(viewers, v);
      var j :| 0 <= j < |viewers| && viewers[j] == (x, v);
      assert j == i;
    }
  }

  lemma {:induction false} OwnedByOne(viewers: seq<Target>, w: int)
    requires forall i :: 0 <= i < |viewers| ==> viewers[i].1 == w
    ensures |Owned(viewers, w)| == |viewers|
  {
    if viewers != [] { OwnedByOne(viewers[..|viewers| - 1], w); }
  }

  /**
   The sixty-fifth viewer of one other worker is missed by every packet, whatever the room in that
   worker's ring.
   */
  lemma SixtyFifthIsMissed(p: Peers, m: Media)
    requires p.self == 0 && |p.rings| == 2
    ensures var viewers: seq<Target> := seq(65, i => (i + 1, 1));
      OnWorkers(viewers, 2) && DistinctIds(viewers) && viewers[64].0 !in Reached(p, viewers, m, 2)
  {
    var viewers: seq<Target> := seq(65, i => (i + 1, 1));
    OwnedByOne(viewers[..64], 1);
    ViewerIsReached(p, viewers, m, 64);
  }

  // ---------------------------------------------------------------- what is cached

  /** The entry of one skeleton in a snapshot. */
  predicate Cached(s: Shm, q: Addr, nworkers: nat, x: Target) {
    q in s.sessions && ReadyViewer(s.sessions[q], nworkers) && x == (s.sessions[q].id, s.sessions[q].ownerSlot)
  }

  lemma {:induction false} SnapshotIsReady(s: Shm, l: seq<Addr>, nworkers: nat, max: nat, x: Target)
    requires x in SnapshotOf(s.sessions, l, nworkers, max)
    ensures exists q :: q in l && Cached(s, q, nworkers, x)
  {
    if Cached(s, l[0], nworkers, x) {
      assert l[0] in l;
    } else {
      var left := if l[0] in s.sessions && ReadyViewer(s.sessions[l[0]], nworkers) then max - 1 else max;
      SnapshotIsReady(s, l[1..], nworkers, left, x);
      var q :| q in l[1..] && Cached(s, q, nworkers, x);
      assert q in l;
    }
  }

  lemma {:induction false} SnapshotIsComplete(s: Shm, l: seq<Addr>, nworkers: nat, max: nat, q: Addr, x: Target)
    requires |l| <= max && q in l && Cached(s, q, nworkers, x)
    ensures x in SnapshotOf(s.sessions, l, nworkers, max)
  {
    if q != l[0] {
      var left := if l[0] in s.sessions && ReadyViewer(s.sessions[l[0]], nworkers) then max - 1 else max;
      SnapshotIsComplete(s, l[1..], nworkers, left, q, x);
    }
  }

  lemma OthersDiffer(s: Shm, l: seq<Addr>, nworkers: nat, x: Target)
    requires Distinct(s) && NoDup(l) && l != [] && l[0] in s.sessions
    requires exists q :: q in l[1..] && Cached(s, q, nworkers, x)
    ensures x.0 != s.sessions[l[0]].id
  {
    var first := l[0];
    var q :| q in l[1..] && Cached(s, q, nworkers, x);
    assert SameId(s, q, first) ==> q == first;
  }

  lemma {:induction false} SnapshotIsDistinct(s: Shm, l: seq<Addr>, nworkers: nat, max: nat)
    requires Distinct(s) && NoDup(l)
    ensures DistinctIds(SnapshotOf(s.sessions, l, nworkers, max))
  {
    if l != [] && max > 0 {
      if l[0] in s.sessions && ReadyViewer(s.sessions[l[0]], nworkers) {
        var rest := SnapshotOf(s.sessions, l[1..], nworkers, max - 1);
        SnapshotIsDistinct(s, l[1..], nworkers, max - 1);
        forall i | 0 <= i < |rest| ensures rest[i].0 != s.sessions[l[0]].id {
          SnapshotIsReady(s, l[1..], nworkers, max - 1, rest[i]);
          OthersDiffer(s, l, nworkers, rest[i]);
        }
      } else {
        SnapshotIsDistinct(s, l[1..], nworkers, max);
      }
    }
  }

  /**
   A snapshot of a reachable registry names workers that exist and no id twice, and, for a source
   of at most 256 viewers, exactly its viewers owned by such a worker.
   */
  lemma SnapshotIsExact(s: Shm, a: Addr, nworkers: nat)
    requires Inv(s) && a in s.sources && |s.sources[a].subscribers| <= MAX_SNAPSHOT
    ensures var viewers := Snapshot(s, s.sources[a].name, nworkers, MAX_SNAPSHOT);
      && OnWorkers(viewers, nworkers) && DistinctIds(viewers)
      && forall x :: x in viewers <==> exists q :: Viewer(s, a, q) && Cached(s, q, nworkers, x)
  {
    var l := s.sources[a].subscribers;
    assert SourceOk(s, a);
    var viewers := SnapshotOf(s.sessions, l, nworkers, MAX_SNAPSHOT);
    SnapshotIsDistinct(s, l, nworkers, MAX_SNAPSHOT);
    forall x ensures x in viewers <==> exists q :: Viewer(s, a, q) && Cached(s, q, nworkers, x) {
      if x in viewers {
        SnapshotIsReady(s, l, nworkers, MAX_SNAPSHOT, x);
        var q :| q in l && Cached(s, q, nworkers, x);
        assert ViewerOk(s, a, q);
      }
      if q :| Viewer(s, a, q) && Cached(s, q, nworkers, x) {
        assert ViewerOk(s, a, q);
        SnapshotIsComplete(s, l, nworkers, MAX_SNAPSHOT, q, x);
      }
    }
    forall i | 0 <= i < |viewers| ensures 0 <= viewers[i].1 < nworkers {
      assert viewers[i] in viewers;
    }
  }
}
