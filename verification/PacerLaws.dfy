/** Which way feedback moves the send rate, in one window and over runs of windows. */
module PacerLaws {
  // Loss is compared as lost packets per thousand of the window: 51 and more lower the rate by fifteen per
  // cent, fewer than 20 raise it by eight, and the rate stays between 64 kbit/s and 8 Mbit/s.

  import opened Arith
  import opened Bytes
  import opened PacerSpec

  /** Packets of the window that were lost, and all of them, counting this feedback. */
  function LostNow(p: Pacer, lost: nat): nat { Low32(p.winLost + lost) }

  function TotalNow(p: Pacer, lost: nat, received: nat): nat { LostNow(p, lost) + Low32(p.winReceived + received) }

  /** The window is open and has lasted half a second or seen twenty packets. */
  predicate Due(p: Pacer, lost: nat, received: nat, now: nat) {
    && p.winStarted && TotalNow(p, lost, received) > 0
    && (now - p.winStart >= 500 || TotalNow(p, lost, received) >= 20)
  }

  predicate Lossy(p: Pacer, lost: nat, received: nat) { 1000 * LostNow(p, lost) >= 51 * TotalNow(p, lost, received) }

  predicate Clean(p: Pacer, lost: nat, received: nat) { 1000 * LostNow(p, lost) < 20 * TotalNow(p, lost, received) }

  predicate InRange(p: Pacer) { 64000 <= p.target <= 8000000 }

  lemma PermilleBounds(l: nat, t: nat)
    requires t > 0
    ensures 1000 * l / t > 50 <==> 1000 * l >= 51 * t
    ensures 1000 * l / t < 20 <==> 1000 * l < 20 * t
  {
    var q, r := 1000 * l / t, 1000 * l % t;
    assert 1000 * l == t * q + r;
    if q > 50 { MulMono(t, 51, q); } else { MulMono(t, q, 50); }
    if q < 20 { MulMono(t, q, 19); } else { MulMono(t, 20, q); }
  }

  lemma AdaptedIs(target: nat, lost: nat, total: nat)
    requires total > 0 && 64000 <= target <= 8000000
    ensures 1000 * lost >= 51 * total ==>
              Adapted(target, lost, total) == if target * 85 / 100 < 64000 then 64000 else target * 85 / 100
    ensures 1000 * lost < 20 * total ==>
              Adapted(target, lost, total) == if target + target * 8 / 100 > 8000000 then 8000000 else target + target * 8 / 100
    ensures 20 * total <= 1000 * lost < 51 * total ==> Adapted(target, lost, total) == target
  {
    PermilleBounds(lost, total);
    assert lost * 1000 == 1000 * lost;
  }

  /**
   A due window that lost 51 packets in a thousand or more lowers the target to 85 per cent, and one
   that lost fewer than 20 raises it to 108 per cent, both within the range; between the two it stays.
   */
  lemma FeedbackMovesTheTarget(p: Pacer, lost: nat, received: nat, now: nat)
    requires InRange(p) && Due(p, lost, received, now)
    ensures var t := OnTwcc(p, lost, received, now).target;
      && (Lossy(p, lost, received) ==>
            t <= p.target && (p.target > 64000 ==> t < p.target)
            && t == if p.target * 85 / 100 < 64000 then 64000 else p.target * 85 / 100)
      && (Clean(p, lost, received) ==>
            t >= p.target && (p.target < 8000000 ==> t > p.target)
            && t == if p.target * 108 / 100 > 8000000 then 8000000 else p.target * 108 / 100)
      && (!Lossy(p, lost, received) && !Clean(p, lost, received) ==> t == p.target)
  {
    AdaptedIs(p.target, LostNow(p, lost), TotalNow(p, lost, received));
    WhenDue(p, lost, received, now);
    hide Adapted, OnTwcc, Low32;
  }

  /** A due window sets the target and starts a new window; no surplus above the new bucket is kept. */
  lemma WhenDue(p: Pacer, lost: nat, received: nat, now: nat)
    requires InRange(p) && Due(p, lost, received, now)
    ensures var q := OnTwcc(p, lost, received, now);
      && q.target == Adapted(p.target, LostNow(p, lost), TotalNow(p, lost, received))
      && q.winLost == 0 && q.winReceived == 0 && q.winStart == now && q.winStarted
      && q.tokens <= p.tokens && q.tokens <= Bucket(q.target) && q.last == p.last
  {
    hide Adapted, Low32;
  }

  /** A window that is not due only counts, and the first feedback opens it. */
  lemma WhenNotDue(p: Pacer, lost: nat, received: nat, now: nat)
    requires InRange(p) && !Due(p, lost, received, now)
    ensures var q := OnTwcc(p, lost, received, now);
      && q.target == p.target && q.tokens == p.tokens
      && q.winLost == LostNow(p, lost) && q.winReceived == Low32(p.winReceived + received)
      && q.winStarted == (p.winStarted || TotalNow(p, lost, received) > 0)
      && q.winStart == if !p.winStarted && TotalNow(p, lost, received) > 0 then now else p.winStart
  {
    hide Adapted, Low32;
  }

  /** A receiver's estimate is an upper bound: the target becomes the smaller of the two, within the range. */
  lemma CapIsUpperBound(p: Pacer, bps: nat)
    requires InRange(p)
    ensures Cap(p, bps).target ==
      if bps >= p.target then p.target else if bps < 64000 then 64000 else bps
  {
  }

  /** How much the bucket of a started pacer holds at `now` before the packet is paid. */
  lemma RefillExactly(p: Pacer, bytes: nat, now: nat)
    requires p.started && now >= p.last
    ensures var bucket := if p.target / 80 < 1214 then 1214 else p.target / 80;
      var d := now - p.last;
      var filled := p.tokens + if d >= 100 then bucket else d * p.target / 8000;
      var have := if filled < bucket then filled else bucket;
      && (Admits(p, bytes, now) <==> have >= bytes)
      && Admit(p, bytes, now) == p.(last := now, tokens := if have >= bytes then have - bytes else have)
  {
    assert p.target * 100 / 8000 == p.target / 80;
  }

  // ---------------------------------------------------------------- runs

  /** Due windows of a run. */
  function DueCount(p: Pacer, ops: seq<Op>): nat
    decreases |ops|
  {
    if ops == [] then 0
    else
      (if ops[0].OpTwcc? && Due(p, ops[0].lost, ops[0].received, ops[0].now) then 1 else 0)
      + DueCount(Step(Account(p, 0, 0), ops[0]).p, ops[1..])
  }

  /** Every due window of the run loses 51 packets in a thousand or more. */
  predicate AllLossy(p: Pacer, ops: seq<Op>)
    decreases |ops|
  {
    ops == [] ||
      (&& (ops[0].OpTwcc? && Due(p, ops[0].lost, ops[0].received, ops[0].now) ==> Lossy(p, ops[0].lost, ops[0].received))
       && AllLossy(Step(Account(p, 0, 0), ops[0]).p, ops[1..]))
  }

  /** Every due window of the run loses fewer than 20 packets in a thousand, and no estimate caps the rate. */
  predicate AllClean(p: Pacer, ops: seq<Op>)
    decreases |ops|
  {
    ops == [] ||
      (&& !ops[0].OpCap?
       && (ops[0].OpTwcc? && Due(p, ops[0].lost, ops[0].received, ops[0].now) ==> Clean(p, ops[0].lost, ops[0].received))
       && AllClean(Step(Account(p, 0, 0), ops[0]).p, ops[1..]))
  }

  lemma OneLossyStep(p: Pacer, op: Op)
    requires InRange(p)
    requires op.OpTwcc? && Due(p, op.lost, op.received, op.now) ==> Lossy(p, op.lost, op.received)
    ensures var q, due := Step(Account(p, 0, 0), op).p, op.OpTwcc? && Due(p, op.lost, op.received, op.now);
      InRange(q) && q.target <= p.target && (due ==> q.target == 64000 || q.target + 9600 <= p.target)
  {
    if op.OpTwcc? {
      if Due(p, op.lost, op.received, op.now) {
        FeedbackMovesTheTarget(p, op.lost, op.received, op.now);
      } else {
        WhenNotDue(p, op.lost, op.received, op.now);
      }
      hide OnTwcc, Due;
    }
  }

  lemma OneCleanStep(p: Pacer, op: Op)
    requires InRange(p) && !op.OpCap?
    requires op.OpTwcc? && Due(p, op.lost, op.received, op.now) ==> Clean(p, op.lost, op.received)
    ensures var q, due := Step(Account(p, 0, 0), op).p, op.OpTwcc? && Due(p, op.lost, op.received, op.now);
      InRange(q) && q.target >= p.target && (due ==> q.target == 8000000 || q.target >= p.target + 5120)
  {
    if op.OpTwcc? {
      if Due(p, op.lost, op.received, op.now) {
        FeedbackMovesTheTarget(p, op.lost, op.received, op.now);
      } else {
        WhenNotDue(p, op.lost, op.received, op.now);
      }
      hide OnTwcc, Due;
    }
  }

  /** Heavy loss in every window brings the rate down to the floor: at the latest after one window for each 9600 bit/s above it. */
  lemma {:induction false} LossReachesTheFloor(p: Pacer, ops: seq<Op>)
    requires InRange(p) && AllLossy(p, ops)
    ensures var q := Run(Account(p, 0, 0), ops).p;
      InRange(q) && q.target <= p.target && (9600 * DueCount(p, ops) >= p.target - 64000 ==> q.target == 64000)
    decreases |ops|
  {
    if ops != [] {
      var q := Step(Account(p, 0, 0), ops[0]).p;
      OneLossyStep(p, ops[0]);
      LossReachesTheFloor(q, ops[1..]);
      RunIgnoresAccount(Step(Account(p, 0, 0), ops[0]), Account(q, 0, 0), ops[1..]);
      hide Step, Due;
    }
  }

  /** Clean windows bring the rate up to the ceiling: at the latest after one window for each 5120 bit/s below it. */
  lemma {:induction false} CleanReachesTheCeiling(p: Pacer, ops: seq<Op>)
    requires InRange(p) && AllClean(p, ops)
    ensures var q := Run(Account(p, 0, 0), ops).p;
      InRange(q) && q.target >= p.target && (5120 * DueCount(p, ops) >= 8000000 - p.target ==> q.target == 8000000)
    decreases |ops|
  {
    if ops != [] {
      var q := Step(Account(p, 0, 0), ops[0]).p;
      OneCleanStep(p, ops[0]);
      CleanReachesTheCeiling(q, ops[1..]);
      RunIgnoresAccount(Step(Account(p, 0, 0), ops[0]), Account(q, 0, 0), ops[1..]);
      hide Step, Due;
    }
  }
}
