/**
 A negative acknowledgement from the wire to the retransmissions: filtered by its stream, expanded
 into the caller's array, and answered under the session's budget.
 */
module NackPathSpec {
  import opened Bytes
  import opened RtcpSpec
  import G = GopRing
  import N = NackSpec
  import S = SendSpec

  const MAX_EXPANDED := 512

  /** Only feedback about the video stream counts, and only if all it asks for fits the array. */
  function HandlePacket(s: S.Session, n: N.Nack, media: nat, video: nat, entries: seq<(nat, nat)>, f: N.Feedback, w: N.Widths)
    : (S.Session, N.Nack)
  {
    if media != video || |ExpandAll(entries)| > MAX_EXPANDED then (s, n)
    else N.Handle(s, n, f.(seqs := ExpandAll(entries)), w)
  }

  lemma {:induction false} ExpansionBound(entries: seq<(nat, nat)>)
    ensures |entries| <= |ExpandAll(entries)| <= 17 * |entries|
  {
    hide ExpandEntry;
    if entries != [] {
      var n := |entries| - 1;
      EntryNames(entries[n], 0);
      EntryNotEmpty(entries[n]);
      ExpansionBound(entries[..n]);
    }
  }

  lemma EntryNotEmpty(e: (nat, nat))
    ensures |ExpandEntry(e)| >= 1
  {
  }

  /**
   A request of up to thirty entries is always answered; one that names more than 512 sequences is
   passed over as a whole, without touching the window or the budget, and so is any about another stream.
   */
  lemma SmallRequestsAreHandled(s: S.Session, n: N.Nack, video: nat, entries: seq<(nat, nat)>, f: N.Feedback, w: N.Widths)
    ensures |entries| <= 30 ==> HandlePacket(s, n, video, video, entries, f, w) == N.Handle(s, n, f.(seqs := ExpandAll(entries)), w)
    ensures |ExpandAll(entries)| > MAX_EXPANDED ==> HandlePacket(s, n, video, video, entries, f, w) == (s, n)
    ensures |entries| > MAX_EXPANDED ==> HandlePacket(s, n, video, video, entries, f, w) == (s, n)
    ensures forall media :: media != video ==> HandlePacket(s, n, media, video, entries, f, w) == (s, n)
  {
    ExpansionBound(entries);
  }

  // ---------------------------------------------------------------- what is sent again

  /** The lookups a ring of recent packets answers. */
  function CacheOf(retained: seq<G.Packet>): map<nat, seq<byte>>
    requires G.AllOk(retained)
  {
    map q: nat | q < U16 && G.Lookup(retained, q).Some? :: G.Lookup(retained, q).value.data
  }

  lemma {:induction false} LoopSendsAsked(s: S.Session, n: N.Nack, f: N.Feedback, i: nat, x: nat)
    requires i <= |f.seqs|
    requires x in N.Loop(s, n, f.seqs, f.cache, f.now, f.streakMax, f.nets, i).1.sent
    ensures x in n.sent || (x in f.seqs && x in f.cache)
    decreases |f.seqs| - i
  {
    if i < |f.seqs| && n.charged < N.BUDGET {
      var (t, m) := N.Answer(s, n, f.seqs[i], f.cache, f.now, f.streakMax, f.nets(i));
      LoopSendsAsked(t, m, f, i + 1, x);
    }
  }

  /** Whatever a request makes the session send again was asked for in it and is a retained packet of that number. */
  lemma OnlyRetainedIsResent(s: S.Session, n: N.Nack, media: nat, video: nat, entries: seq<(nat, nat)>, f: N.Feedback,
                             w: N.Widths, retained: seq<G.Packet>, x: nat)
    requires G.AllOk(retained) && f.cache == CacheOf(retained)
    requires x in HandlePacket(s, n, media, video, entries, f, w).1.sent && x !in n.sent
    ensures media == video && x in ExpandAll(entries)
    ensures x in f.cache && exists p :: p in retained && p.seq16 == x && p.data == f.cache[x]
  {
    var g := f.(seqs := ExpandAll(entries));
    LoopSendsAsked(s, N.Step(n, f.now, w), g, 0, x);
    assert G.Lookup(retained, x).value in retained;
  }

  /** When the retained packets are consecutive, a number that none of them has is never sent again, and every other can be. */
  lemma ConsecutiveCacheIsExact(retained: seq<G.Packet>, x: nat)
    requires G.AllOk(retained) && G.Consecutive(retained) && |retained| <= U16
    ensures x in CacheOf(retained) <==> exists i :: 0 <= i < |retained| && retained[i].seq16 == x
  {
    G.LookupIsExact(retained, x);
    forall i | 0 <= i < |retained| && retained[i].seq16 == x ensures x < U16 { assert G.PacketOk(retained[i]); }
  }

  /** The bounds of the response window hold whatever packet arrives. */
  lemma PacketKeepsBounds(s: S.Session, n: N.Nack, media: nat, video: nat, entries: seq<(nat, nat)>, f: N.Feedback, w: N.Widths)
    requires N.Bounded(n, w) && w.base <= w.ceiling
    ensures N.Bounded(HandlePacket(s, n, media, video, entries, f, w).1, w)
  {
    var g := f.(seqs := ExpandAll(entries));
    N.RunKeepsBounds(s, n, [g], w);
    assert N.Run(s, n, [g], w) == N.Run(N.Handle(s, n, g, w).0, N.Handle(s, n, g, w).1, [], w);
  }
}
