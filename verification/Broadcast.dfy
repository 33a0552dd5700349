/** The publishing worker: its cached snapshot and the loops that send a packet to it. */
module Broadcast {
  import opened Options
  import opened BroadcastSpec
  import opened Bytes
  import opened RegistrySpec
  import opened Slots
  import SnapshotCache
  import Reg = Registry

  class Broadcaster {
    var snapVersion: nat
    var viewers: seq<Target>
    var drops: nat              // 32-bit counter of entries refused by a ring

    ghost function Value(): SnapshotCache.Cache
      reads this
    {
      SnapshotCache.Cache(snapVersion, viewers)
    }

    constructor ()
      ensures Value() == SnapshotCache.COLD && drops == 0
    {
      snapVersion, viewers, drops := 0, [], 0;
    }

    /** Refreshes the snapshot unless the claimed source still has the version it was taken at. */
    method RefreshSnapshot(reg: Reg.Registry, shmSrc: Option<Addr>, name: string, nworkers: nat)
      requires reg.Valid() && (shmSrc.Some? ==> shmSrc.value in reg.sources)
      modifies `snapVersion, `viewers
      ensures Value() == SnapshotCache.Refresh(reg.Abs(), old(Value()), shmSrc, name, nworkers, MAX_SNAPSHOT)
    {
      if shmSrc.None? || reg.sources[shmSrc.value].version != snapVersion {
        viewers := reg.SourceSnapshot(name, nworkers, MAX_SNAPSHOT);
        if shmSrc.Some? { snapVersion := reg.sources[shmSrc.value].version; }
      }
    }

    /** The ids of one worker's entry, in list order. */
    method CollectBatch(w: nat) returns (ids: seq<nat>)
      ensures ids == Batch(viewers, w)
    {
      ids := [];
      var i: nat := 0;
      while i < |viewers|
        invariant i <= |viewers| && ids == Batch(viewers[..i], w)
      {
        assert viewers[..i + 1][..i] == viewers[..i];
        if viewers[i].1 == w && |ids| < RING_MAX_SESSIONS { ids := ids + [viewers[i].0]; }
        i := i + 1;
      }
      assert viewers[..i] == viewers;
    }

    /** Sends to this worker's own viewers, one by one; a session it no longer knows is passed over. */
    method SendDirect(self: nat, known: set<nat>) returns (ids: seq<nat>)
      ensures ids == KnownOf(Owned(viewers, self), known)
    {
      ids := [];
      var i: nat := 0;
      while i < |viewers|
        invariant i <= |viewers| && ids == KnownOf(Owned(viewers[..i], self), known)
      {
        DirectStep(viewers, i, self, known);
        if viewers[i].1 == self && viewers[i].0 in known { ids := ids + [viewers[i].0]; }
        i := i + 1;
      }
      assert viewers[..i] == viewers;
    }

    /** Puts an entry for worker `w` into its ring and says whether to wake it; a refusal is counted. */
    method OfferTo(p: Peers, m: Media, w: nat) returns (ring: Option<Queue>, wake: bool)
      requires w < |p.rings|
      modifies `drops
      ensures ring == RingAfter(p, viewers, m, w)
      ensures wake == (Offers(p, viewers, w) && Takes(p.rings[w], m) && w in p.open)
      ensures drops == if Offers(p, viewers, w) && !Takes(p.rings[w], m) then Low32(old(drops) + 1) else old(drops)
    {
      ring, wake := p.rings[w], false;
      if w == p.self { return; }
      var ids := CollectBatch(w);
      if |ids| == 0 || ring.None? { return; }
      if 0 < |m.data| <= RING_RTP_MAX && |ring.value.waiting| < ring.value.size {
        ring := Some(ring.value.(waiting := ring.value.waiting + [Entry(m, ids)]));
        wake := w in p.open;
      } else {
        drops := Low32(drops + 1);
      }
    }

    /** One packet: direct sends first, then an entry for every other worker that owns a viewer. */
    method FanOut(p: Peers, m: Media) returns (direct: seq<nat>, rings: seq<Option<Queue>>, woken: seq<nat>)
      requires drops < U32
      modifies `drops
      ensures direct == KnownOf(Owned(viewers, p.self), p.known)
      ensures |rings| == |p.rings| && forall w :: 0 <= w < |rings| ==> rings[w] == RingAfter(p, viewers, m, w)
      ensures woken == Woken(p, viewers, m, |p.rings|)
      ensures drops == Low32(old(drops) + Refusals(p, viewers, m, |p.rings|))
    {
      hide RingAfter, Offers, Takes, Owned, KnownOf, Low32;
      direct := SendDirect(p.self, p.known);
      rings, woken := [], [];
      assert drops == Low32(old(drops) + 0) by { DropsFit(drops); }
      var w: nat := 0;
      while w < |p.rings|
        invariant w <= |p.rings| && |rings| == w
        invariant forall v :: 0 <= v < w ==> rings[v] == RingAfter(p, viewers, m, v)
        invariant woken == Woken(p, viewers, m, w)
        invariant drops == Low32(old(drops) + Refusals(p, viewers, m, w))
      {
        WrapStep(old(drops) + Refusals(p, viewers, m, w));
        var ring, wake := OfferTo(p, m, w);
        rings := rings + [ring];
        if wake { woken := woken + [w]; }
        w := w + 1;
      }
    }

    /** The way of one media packet from the publisher: length guard, refresh, fan-out. */
    method BroadcastRtp(reg: Reg.Registry, shmSrc: Option<Addr>, name: string, p: Peers, m: Media)
      returns (direct: seq<nat>, rings: seq<Option<Queue>>, woken: seq<nat>)
      requires reg.Valid() && (shmSrc.Some? ==> shmSrc.value in reg.sources) && drops < U32
      modifies this
      ensures |m.data| > RING_RTP_MAX ==> direct == [] && rings == p.rings && woken == [] && Value() == old(Value()) && drops == old(drops)
      ensures |m.data| <= RING_RTP_MAX ==>
        && Value() == SnapshotCache.Refresh(reg.Abs(), old(Value()), shmSrc, name, |p.rings|, MAX_SNAPSHOT)
        && direct == KnownOf(Owned(viewers, p.self), p.known)
        && |rings| == |p.rings| && (forall w :: 0 <= w < |rings| ==> rings[w] == RingAfter(p, viewers, m, w))
        && woken == Woken(p, viewers, m, |p.rings|)
        && drops == Low32(old(drops) + Refusals(p, viewers, m, |p.rings|))
    {
      direct, rings, woken := [], p.rings, [];
      if |m.data| > RING_RTP_MAX { return; }
      RefreshSnapshot(reg, shmSrc, name, |p.rings|);
      if |viewers| == 0 {
        NobodyToServe(p, m, |p.rings|);
        return;
      }
      direct, rings, woken := FanOut(p, m);
    }
  }
}
