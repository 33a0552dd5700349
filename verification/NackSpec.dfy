/**
 Answering retransmission requests: a response window with a budget of attempts, a set of
 sequences already answered in it, and a window width that backs off under load.
 */
module NackSpec {
  import opened Bytes
  import opened Lists
  import opened SendSpec

  const BUDGET := 128

  datatype Nack = Nack(
    windowStart: nat,
    windowMs: nat,          // 0 = not set yet
    charged: nat,           // attempts spent in this window
    seen: seq<nat>,         // sequences answered in this window
    sent: seq<nat>          // log: every retransmission of this window
  )

  /** Width of the window in milliseconds: base cadence and ceiling of the backoff. */
  datatype Widths = Widths(base: nat, ceiling: nat)

  function Width(n: Nack, w: Widths): nat { if n.windowMs == 0 then w.base else n.windowMs }

  predicate Rolls(n: Nack, now: nat, w: Widths) { Low64(now - n.windowStart) >= Width(n, w) }

  /** A saturated window doubles the next one up to the ceiling; a quiet one goes back to the base. */
  function NextWidth(n: Nack, w: Widths): nat {
    if n.charged >= BUDGET then (if Width(n, w) * 2 < w.ceiling then Width(n, w) * 2 else w.ceiling)
    else if n.charged == 0 then w.base else Width(n, w)
  }

  /** Window step and, when the window rolled, the reset of the answered set. */
  function Step(n: Nack, now: nat, w: Widths): Nack {
    if Rolls(n, now, w) then Nack(now, NextWidth(n, w), 0, [], []) else n.(windowMs := Width(n, w))
  }

  /** One requested sequence: duplicates of the window and cache misses cost budget but send nothing. */
  function Answer(s: Session, n: Nack, seq16: nat, cache: map<nat, seq<byte>>, now: nat, streakMax: nat, net: Net)
    : (Session, Nack)
  {
    var m := n.(charged := n.charged + 1);
    if seq16 !in cache || |cache[seq16]| == 0 || seq16 in n.seen then (s, m)
    else
      var o := Offer(cache[seq16], false, now, streakMax, net);
      (Send(s, o),
       if !Sent(s, o) then m
       else m.(sent := m.sent + [seq16], seen := if |m.seen| < BUDGET then m.seen + [seq16] else m.seen))
  }

  function Loop(s: Session, n: Nack, seqs: seq<nat>, cache: map<nat, seq<byte>>, now: nat, streakMax: nat,
                nets: nat -> Net, i: nat): (Session, Nack)
    requires i <= |seqs|
    decreases |seqs| - i
  {
    if i == |seqs| || n.charged >= BUDGET then (s, n)
    else
      var (t, m) := Answer(s, n, seqs[i], cache, now, streakMax, nets(i));
      Loop(t, m, seqs, cache, now, streakMax, nets, i + 1)
  }

  datatype Feedback = Feedback(seqs: seq<nat>, cache: map<nat, seq<byte>>, now: nat, streakMax: nat, nets: nat -> Net)

  lemma LoopStep(s: Session, n: Nack, f: Feedback, i: nat)
    requires i <= |f.seqs|
    ensures Loop(s, n, f.seqs, f.cache, f.now, f.streakMax, f.nets, i) ==
      if i == |f.seqs| || n.charged >= BUDGET then (s, n)
      else
        var (t, m) := Answer(s, n, f.seqs[i], f.cache, f.now, f.streakMax, f.nets(i));
        Loop(t, m, f.seqs, f.cache, f.now, f.streakMax, f.nets, i + 1)
  {
    hide Answer;
  }

  function Handle(s: Session, n: Nack, f: Feedback, w: Widths): (Session, Nack) {
    Loop(s, Step(n, f.now, w), f.seqs, f.cache, f.now, f.streakMax, f.nets, 0)
  }

  function Run(s: Session, n: Nack, fs: seq<Feedback>, w: Widths): (Session, Nack)
    decreases |fs|
  {
    if fs == [] then (s, n)
    else
      var (t, m) := Handle(s, n, fs[0], w);
      Run(t, m, fs[1..], w)
  }

  /**
   At most 128 attempts are charged per window, the answered set never outgrows the charge (so it
   never overflows and is exactly what was sent), nothing is sent twice in a window, and the width
   stays between base and ceiling.
   */
  predicate Bounded(n: Nack, w: Widths) {
    && n.charged <= BUDGET && |n.seen| <= n.charged
    && n.sent == n.seen && NoDup(n.sent)
    && (n.windowMs == 0 || (w.base <= n.windowMs <= w.ceiling))
  }

  const IDLE := Nack(0, 0, 0, [], [])

  lemma StepKeepsBounds(n: Nack, now: nat, w: Widths)
    requires Bounded(n, w) && w.base <= w.ceiling
    ensures Bounded(Step(n, now, w), w)
  {
  }

  lemma AnswerKeepsBounds(s: Session, n: Nack, seq16: nat, cache: map<nat, seq<byte>>, now: nat, streakMax: nat, net: Net, w: Widths)
    requires Bounded(n, w) && n.charged < BUDGET
    ensures Bounded(Answer(s, n, seq16, cache, now, streakMax, net).1, w)
  {
  }

  lemma {:induction false} LoopKeepsBounds(s: Session, n: Nack, seqs: seq<nat>, cache: map<nat, seq<byte>>, now: nat,
                                           streakMax: nat, nets: nat -> Net, i: nat, w: Widths)
    requires i <= |seqs| && Bounded(n, w)
    ensures Bounded(Loop(s, n, seqs, cache, now, streakMax, nets, i).1, w)
    decreases |seqs| - i
  {
    if i < |seqs| && n.charged < BUDGET {
      var (t, m) := Answer(s, n, seqs[i], cache, now, streakMax, nets(i));
      AnswerKeepsBounds(s, n, seqs[i], cache, now, streakMax, nets(i), w);
      LoopKeepsBounds(t, m, seqs, cache, now, streakMax, nets, i + 1, w);
    }
  }

  /** The bounds hold after every run of feedback. */
  lemma {:induction false} RunKeepsBounds(s: Session, n: Nack, fs: seq<Feedback>, w: Widths)
    requires Bounded(n, w) && w.base <= w.ceiling
    ensures Bounded(Run(s, n, fs, w).1, w)
    decreases |fs|
  {
    if fs != [] {
      var (t, m) := Handle(s, n, fs[0], w);
      StepKeepsBounds(n, fs[0].now, w);
      LoopKeepsBounds(s, Step(n, fs[0].now, w), fs[0].seqs, fs[0].cache, fs[0].now, fs[0].streakMax, fs[0].nets, 0, w);
      RunKeepsBounds(t, m, fs[1..], w);
    }
  }
}
