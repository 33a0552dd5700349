/** What one packet of the fan-out leaves in the rings, the wake-ups and the drop counter, told by numbers. */
module BroadcastLaws {
  // The statements name neither the offers nor the room test of the specification.

  import opened Options
  import opened Lists
  import opened BroadcastSpec

  /** Another worker that has a ring owns one of the viewers. */
  predicate Wanted(p: Peers, viewers: seq<Target>, w: nat) {
    w < |p.rings| && w != p.self && p.rings[w].Some? && exists i :: 0 <= i < |viewers| && viewers[i].1 == w
  }

  /** The packet has between 1 and 1500 octets and the ring has a free place. */
  predicate Room(p: Peers, m: Media, w: nat) {
    w < |p.rings| && p.rings[w].Some? && 1 <= |m.data| <= 1500 && |p.rings[w].value.waiting| < p.rings[w].value.size
  }

  lemma OwnsSome(viewers: seq<Target>, w: nat)
    ensures Owned(viewers, w) != [] <==> exists i :: 0 <= i < |viewers| && viewers[i].1 == w
  {
    OwnedIsThere(viewers, w);
    if Owned(viewers, w) != [] {
      var x := Owned(viewers, w)[0];
      assert x in Owned(viewers, w) && (x, w) in viewers;
    }
    forall i | 0 <= i < |viewers| && viewers[i].1 == w ensures Owned(viewers, w) != [] {
      assert (viewers[i].0, w) in viewers;
    }
  }

  lemma OffersAre(p: Peers, viewers: seq<Target>, m: Media, w: nat)
    requires w < |p.rings|
    ensures Offers(p, viewers, w) <==> Wanted(p, viewers, w)
    ensures Takes(p.rings[w], m) <==> Room(p, m, w)
  {
    OwnsSome(viewers, w);
  }

  /**
   A wanted worker's ring with room grows by one entry: the packet, for exactly the viewers it is said
   to reach there, at most 64. Every other ring stays as it is.
   */
  lemma RingGrowsExactly(p: Peers, viewers: seq<Target>, m: Media, w: nat)
    requires w < |p.rings|
    ensures RingAfter(p, viewers, m, w) ==
      if Wanted(p, viewers, w) && Room(p, m, w)
      then Some(Queue(p.rings[w].value.size, p.rings[w].value.waiting + [Entry(m, ReachedOn(p, viewers, m, w))]))
      else p.rings[w]
    ensures w != p.self ==> |ReachedOn(p, viewers, m, w)| <= 64
    ensures w != p.self && ReachedOn(p, viewers, m, w) != [] ==> Wanted(p, viewers, w) && Room(p, m, w)
  {
    OffersAre(p, viewers, m, w);
    hide Owned, Takes, Wanted, Room;
  }

  predicate Rung(p: Peers, viewers: seq<Target>, m: Media, w: nat) { Wanted(p, viewers, w) && Room(p, m, w) && w in p.open }

  /** A worker is woken, once, when its ring grew and its wake-up descriptor is open. */
  lemma {:induction false} WokenExactly(p: Peers, viewers: seq<Target>, m: Media, n: nat)
    requires n <= |p.rings|
    ensures NoDup(Woken(p, viewers, m, n))
    ensures forall w: nat :: w in Woken(p, viewers, m, n) <==> w < n && Rung(p, viewers, m, w)
  {
    hide Rung, Woken, NoDup;
    if n == 0 {
      NobodyWoken(p, viewers, m);
    } else {
      var front := Woken(p, viewers, m, n - 1);
      WokenExactly(p, viewers, m, n - 1);
      WokenStep(p, viewers, m, n - 1);
      if Rung(p, viewers, m, n - 1) { OneMoreWoken(front, n - 1); }
    }
  }

  lemma NobodyWoken(p: Peers, viewers: seq<Target>, m: Media)
    ensures Woken(p, viewers, m, 0) == [] && NoDup(Woken(p, viewers, m, 0))
  {
  }

  lemma OneMoreWoken(front: seq<nat>, w: nat)
    requires NoDup(front) && w !in front
    ensures NoDup(front + [w]) && forall x :: x in front + [w] <==> x in front || x == w
  {
  }

  lemma WokenStep(p: Peers, viewers: seq<Target>, m: Media, w: nat)
    requires w < |p.rings|
    ensures Woken(p, viewers, m, w + 1) == if Rung(p, viewers, m, w) then Woken(p, viewers, m, w) + [w] else Woken(p, viewers, m, w)
  {
    OffersAre(p, viewers, m, w);
    hide Offers, Takes, Wanted, Room;
  }

  /** The wanted workers below `n` whose ring has no room. */
  function Missed(p: Peers, viewers: seq<Target>, m: Media, n: nat): set<nat> {
    set w | 0 <= w < n && Wanted(p, viewers, w) && !Room(p, m, w)
  }

  lemma MissedStep(p: Peers, viewers: seq<Target>, m: Media, w: nat)
    requires w < |p.rings|
    ensures w !in Missed(p, viewers, m, w)
    ensures Missed(p, viewers, m, w + 1) ==
      if Wanted(p, viewers, w) && !Room(p, m, w) then Missed(p, viewers, m, w) + {w} else Missed(p, viewers, m, w)
    ensures Refusals(p, viewers, m, w + 1) ==
      Refusals(p, viewers, m, w) + if Wanted(p, viewers, w) && !Room(p, m, w) then 1 else 0
  {
    OffersAre(p, viewers, m, w);
    hide Offers, Takes, Wanted, Room;
  }

  /** The drop counter moves by one for each of them. */
  lemma {:induction false} DropsExactly(p: Peers, viewers: seq<Target>, m: Media, n: nat)
    requires n <= |p.rings|
    ensures Refusals(p, viewers, m, n) == |Missed(p, viewers, m, n)|
  {
    hide Missed, Refusals, Wanted, Room;
    if n == 0 {
      NobodyMissed(p, viewers, m);
    } else {
      DropsExactly(p, viewers, m, n - 1);
      MissedStep(p, viewers, m, n - 1);
      OneMore(Missed(p, viewers, m, n - 1), n - 1);
    }
  }

  lemma NobodyMissed(p: Peers, viewers: seq<Target>, m: Media)
    ensures Missed(p, viewers, m, 0) == {} && Refusals(p, viewers, m, 0) == 0
  {
  }

  lemma OneMore(s: set<nat>, w: nat)
    requires w !in s
    ensures |s + {w}| == |s| + 1
  {
  }
}
