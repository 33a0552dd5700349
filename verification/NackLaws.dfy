/** What a retransmission request does, told by the window's clock, the budget and the packets asked for. */
module NackLaws {
  // The window is told in milliseconds and the budget in attempts; which packets go out is told by the laws of the
  // send path. The statements name no step of the specification.

  import opened Bytes
  import opened NackSpec
  import S = SendSpec
  import L = SendLaws

  /** The window's width has passed; one that was never set counts as the base. */
  predicate Opens(n: Nack, now: nat, w: Widths) {
    Low64(now - n.windowStart) >= (if n.windowMs == 0 then w.base else n.windowMs)
  }

  /** What a request finds: a new window is empty, and twice as wide after a spent budget, as wide as the base after a quiet one. */
  function Found(n: Nack, now: nat, w: Widths): Nack {
    var width := if n.windowMs == 0 then w.base else n.windowMs;
    if Low64(now - n.windowStart) < width then n.(windowMs := width)
    else
      var next := if n.charged >= 128 then (if 2 * width < w.ceiling then 2 * width else w.ceiling)
                  else if n.charged == 0 then w.base
                  else width;
      Nack(now, next, 0, [], [])
  }

  function First(f: Feedback, k: nat): Feedback
    requires k <= |f.seqs|
  {
    f.(seqs := f.seqs[..k])
  }

  function Packet(f: Feedback, i: nat): S.Offer
    requires i < |f.seqs| && f.seqs[i] in f.cache
  {
    S.Offer(f.cache[f.seqs[i]], false, f.now, f.streakMax, f.nets(i))
  }

  /** A request for nothing only moves the window. */
  lemma WindowMovesExactly(s: S.Session, n: Nack, f: Feedback, w: Widths)
    requires f.seqs == []
    ensures Handle(s, n, f, w) == (s, Found(n, f.now, w))
  {
  }

  lemma SentMeans(s: S.Session, o: S.Offer)
    ensures S.Sent(s, o) <==> L.Passes(s, o) && o.net == S.SendOk
  {
    L.JudgedBy(s, o);
    hide L.Enters, L.MustWait, L.MayGo, S.Judge;
  }

  /** One more request than the first `k`: the loop comes to it with the state they left. */
  lemma {:induction false} LoopSplits(s: S.Session, n: Nack, f: Feedback, k: nat, i: nat)
    requires i <= k < |f.seqs|
    ensures var (t, m) := Loop(s, n, f.seqs[..k], f.cache, f.now, f.streakMax, f.nets, i);
      Loop(s, n, f.seqs[..k + 1], f.cache, f.now, f.streakMax, f.nets, i) ==
        if m.charged >= BUDGET then (t, m) else Answer(t, m, f.seqs[k], f.cache, f.now, f.streakMax, f.nets(k))
    decreases k - i
  {
    hide Answer, Loop;
    LoopStep(s, n, First(f, k), i);
    LoopStep(s, n, First(f, k + 1), i);
    if n.charged < BUDGET {
      var (t, m) := Answer(s, n, f.seqs[i], f.cache, f.now, f.streakMax, f.nets(i));
      if i < k {
        LoopSplits(t, m, f, k, i + 1);
      } else {
        LoopStep(t, m, First(f, k + 1), k + 1);
      }
    }
  }

  /**
   One requested number: as long as the budget lasts it costs one attempt, and its packet goes through
   the send path exactly when it is cached and was not sent again in this window.
   */
  lemma NextIsAnswered(s: S.Session, n: Nack, f: Feedback, w: Widths, i: nat)
    requires i < |f.seqs|
    ensures var (t, m) := Handle(s, n, First(f, i), w);
      var (u, q) := Handle(s, n, First(f, i + 1), w);
      var x := f.seqs[i];
      var tries := m.charged < 128 && x in f.cache && f.cache[x] != [] && x !in m.seen;
      && q.charged == m.charged + (if m.charged < 128 then 1 else 0)
      && q.windowStart == m.windowStart && q.windowMs == m.windowMs
      && u == (if tries then S.Send(t, Packet(f, i)) else t)
      && q.sent == m.sent + (if tries && L.Passes(t, Packet(f, i)) && f.nets(i) == S.SendOk then [x] else [])
  {
    LoopSplits(s, Step(n, f.now, w), f, i, 0);
    var (t, m) := Handle(s, n, First(f, i), w);
    hide Loop, Step, S.Send, S.Sent, L.Passes;
    if f.seqs[i] in f.cache { SentMeans(t, Packet(f, i)); }
  }

  /** The attempts charged by a request: one for each number as long as the budget lasts. */
  lemma {:induction false} ChargedExactly(s: S.Session, n: Nack, f: Feedback, w: Widths, k: nat)
    requires k <= |f.seqs| && n.charged <= 128
    ensures var was := if Opens(n, f.now, w) then 0 else n.charged;
      Handle(s, n, First(f, k), w).1.charged == if was + k <= 128 then was + k else 128
    decreases k
  {
    if k == 0 {
      WindowMovesExactly(s, n, First(f, 0), w);
    } else {
      ChargedExactly(s, n, f, w, k - 1);
      NextIsAnswered(s, n, f, w, k - 1);
      hide Handle, L.Passes, S.Send, Opens;
    }
  }

  lemma {:induction false} SentStays(s: S.Session, n: Nack, f: Feedback, w: Widths, i: nat, k: nat)
    requires i <= k <= |f.seqs|
    ensures Handle(s, n, First(f, i), w).1.sent <= Handle(s, n, First(f, k), w).1.sent
    decreases k - i
  {
    if i < k {
      SentStays(s, n, f, w, i, k - 1);
      NextIsAnswered(s, n, f, w, k - 1);
      hide Handle, L.Passes, S.Send;
    }
  }

  lemma AllOfThem(f: Feedback)
    ensures First(f, |f.seqs|) == f
  {
    assert f.seqs[..|f.seqs|] == f.seqs;
  }

  lemma InPrefix(a: seq<nat>, b: seq<nat>, x: nat)
    requires a <= b && x in a
    ensures x in b
  {
    var i :| 0 <= i < |a| && a[i] == x;
    assert b[i] == x;
  }

  lemma HandledIsBounded(s: S.Session, n: Nack, f: Feedback, w: Widths)
    requires Bounded(n, w) && w.base <= w.ceiling
    ensures Bounded(Handle(s, n, f, w).1, w)
  {
    StepKeepsBounds(n, f.now, w);
    LoopKeepsBounds(s, Step(n, f.now, w), f.seqs, f.cache, f.now, f.streakMax, f.nets, 0, w);
  }

  /**
   A retained packet that is asked for within the budget and that the send path lets through is sent
   again in this window, by this request or by an earlier one.
   */
  lemma AskedIsSent(s: S.Session, n: Nack, f: Feedback, w: Widths, i: nat)
    requires Bounded(n, w) && w.base <= w.ceiling && i < |f.seqs|
    requires (if Opens(n, f.now, w) then 0 else n.charged) + i < 128
    requires f.seqs[i] in f.cache && f.cache[f.seqs[i]] != []
    requires L.Passes(Handle(s, n, First(f, i), w).0, Packet(f, i)) && f.nets(i) == S.SendOk
    ensures f.seqs[i] in Handle(s, n, f, w).1.sent
  {
    ChargedExactly(s, n, f, w, i);
    NextIsAnswered(s, n, f, w, i);
    HandledIsBounded(s, n, First(f, i), w);
    SentStays(s, n, f, w, i + 1, |f.seqs|);
    AllOfThem(f);
    hide Handle, L.Passes, Opens, S.Send;
    assert f.seqs[i] in Handle(s, n, First(f, i + 1), w).1.sent;
    InPrefix(Handle(s, n, First(f, i + 1), w).1.sent, Handle(s, n, f, w).1.sent, f.seqs[i]);
  }
}
