/**
 Send pacing: a token bucket in bytes filled at a target rate that transport-wide feedback and
 receiver estimates move. The specification is a value; the class is the code's own form.
 */
module PacerSpec {
  import opened Arith
  import opened Bytes

  const MIN_BPS := 64000
  const MAX_BPS := 8000000
  const BURST_MS := 100
  const TWCC_WINDOW_MS := 500
  const TWCC_MIN_PKTS := 20
  const LOSS_HIGH_PM := 50
  const LOSS_LOW_PM := 20

  datatype Pacer = Pacer(
    target: nat,             // bits per second, 0 = never armed
    tokens: nat,             // bytes
    last: nat,               // ms of the last refill
    started: bool,
    winLost: nat, winReceived: nat, winStarted: bool, winStart: nat
  )

  function Clamp(bps: nat): nat {
    if bps < MIN_BPS then MIN_BPS else if bps > MAX_BPS then MAX_BPS else bps
  }

  /** One burst of the target rate, but never less than one packet. */
  function Bucket(target: nat): nat {
    if target * 100 / 8000 < MAX_RTP_PKT then MAX_RTP_PKT else target * 100 / 8000
  }

  function Init(p: Pacer, bps: nat): Pacer {
    p.(target := Clamp(bps), tokens := Bucket(Clamp(bps)), last := 0, started := false)
  }

  /** Bytes a refill adds before the bucket caps it. */
  function Refill(target: nat, delta: nat): nat {
    if delta >= BURST_MS then Bucket(target) else delta * target / 8000
  }

  function Refilled(p: Pacer, now: nat): Pacer {
    if !p.started then p.(started := true, last := now)
    else if now >= p.last then
      p.(last := now, tokens := Min(p.tokens + Refill(p.target, now - p.last), Bucket(p.target)))
    else p.(last := now)
  }

  predicate Admits(p: Pacer, bytes: nat, now: nat) { Refilled(p, now).tokens >= bytes }

  function Admit(p: Pacer, bytes: nat, now: nat): Pacer {
    var r := Refilled(p, now);
    if r.tokens >= bytes then r.(tokens := r.tokens - bytes) else r
  }

  function Retarget(p: Pacer, bps: nat): Pacer {
    p.(target := bps, tokens := Min(p.tokens, Bucket(bps)))
  }

  /** A receiver estimate lowers the target and never raises it. */
  function Cap(p: Pacer, bps: nat): Pacer {
    if Clamp(bps) >= p.target then p else Retarget(p, Clamp(bps))
  }

  function Adapted(target: nat, lost: nat, total: nat): nat
    requires total > 0
  {
    var pm := lost * 1000 / total;
    Clamp(if pm > LOSS_HIGH_PM then target * 85 / 100
          else if pm < LOSS_LOW_PM then target + target * 8 / 100 else target)
  }

  function Clear(p: Pacer, now: nat): Pacer { p.(winLost := 0, winReceived := 0, winStart := now) }

  function OnTwcc(p: Pacer, lost: nat, received: nat, now: nat): Pacer {
    var q := p.(winLost := Low32(p.winLost + lost), winReceived := Low32(p.winReceived + received));
    var total := q.winLost + q.winReceived;
    if total == 0 then q
    else if !q.winStarted then q.(winStarted := true, winStart := now)
    else if (if now >= q.winStart then now - q.winStart else 0) < TWCC_WINDOW_MS && total < TWCC_MIN_PKTS then q
    else if q.target == 0 then Clear(q, now)
    else Clear(Retarget(q, Adapted(q.target, q.winLost, total)), now)
  }

  // ---------------------------------------------------------------- runs

  datatype Op = OpAdmit(bytes: nat, now: nat) | OpCap(bps: nat) | OpTwcc(lost: nat, received: nat, now: nat)

  /** A pacer with the bytes it admitted and the forward time it saw. */
  datatype Account = Account(p: Pacer, admitted: nat, elapsed: nat)

  function Step(a: Account, op: Op): Account {
    match op
    case OpAdmit(bytes, now) =>
      Account(Admit(a.p, bytes, now),
              if Admits(a.p, bytes, now) then a.admitted + bytes else a.admitted,
              if a.p.started && now >= a.p.last then a.elapsed + (now - a.p.last) else a.elapsed)
    case OpCap(bps) => a.(p := Cap(a.p, bps))
    case OpTwcc(lost, received, now) => a.(p := OnTwcc(a.p, lost, received, now))
  }

  function Run(a: Account, ops: seq<Op>): Account
    decreases |ops|
  {
    if ops == [] then a else Run(Step(a, ops[0]), ops[1..])
  }

  /** The target is clamped and the bucket never overflows. */
  predicate Armed(p: Pacer) { MIN_BPS <= p.target <= MAX_BPS && p.tokens <= Bucket(p.target) }

  lemma {:induction false} RunKeepsArmed(a: Account, ops: seq<Op>)
    requires Armed(a.p)
    ensures Armed(Run(a, ops).p)
    decreases |ops|
  {
    if ops != [] { RunKeepsArmed(Step(a, ops[0]), ops[1..]); }
  }

  /** The target stays at or below `t` in every state of the run. */
  predicate StaysBelow(a: Account, ops: seq<Op>, t: nat)
    decreases |ops|
  {
    a.p.target <= t && (ops == [] || StaysBelow(Step(a, ops[0]), ops[1..], t))
  }

  /** A refill is worth at most the elapsed time at rate `m`. */
  lemma RefillBound(target: nat, delta: nat, m: nat)
    requires target <= m && 97120 <= m
    ensures 8000 * Refill(target, delta) <= m * delta
  {
    if delta >= BURST_MS {
      assert 8000 * Bucket(target) <= 100 * m;
      MulMono(m, BURST_MS, delta);
    } else {
      assert 8000 * (delta * target / 8000) <= delta * target;
      MulMono(delta, target, m);
    }
  }

  lemma StepBound(a: Account, op: Op, m: nat)
    requires a.p.target <= m && 97120 <= m
    ensures var b := Step(a, op);
      8000 * (b.admitted + b.p.tokens) + m * a.elapsed <= 8000 * (a.admitted + a.p.tokens) + m * b.elapsed
  {
    if op.OpAdmit? && a.p.started && op.now >= a.p.last {
      RefillBound(a.p.target, op.now - a.p.last, m);
      assert m * (a.elapsed + (op.now - a.p.last)) == m * a.elapsed + m * (op.now - a.p.last);
    }
  }

  /**
   The token bucket bound: bytes admitted by any run whose target stays at or below `t` are paid
   by the initial tokens and the elapsed time at rate `t`, or at the rate the one-packet bucket implies.
   */
  lemma {:induction false} AdmittedIsBounded(a: Account, ops: seq<Op>, t: nat)
    requires StaysBelow(a, ops, t)
    ensures var b := Run(a, ops);
      8000 * (b.admitted + b.p.tokens) + Max(t, 97120) * a.elapsed
      <= 8000 * (a.admitted + a.p.tokens) + Max(t, 97120) * b.elapsed
    decreases |ops|
  {
    if ops != [] {
      StepBound(a, ops[0], Max(t, 97120));
      AdmittedIsBounded(Step(a, ops[0]), ops[1..], t);
    }
  }

  /** The same from the start of a pacer. */
  lemma TokenBucketBound(p: Pacer, ops: seq<Op>, t: nat)
    requires StaysBelow(Account(p, 0, 0), ops, t)
    ensures var b := Run(Account(p, 0, 0), ops);
      8000 * b.admitted <= 8000 * p.tokens + Max(t, 97120) * b.elapsed
  {
    AdmittedIsBounded(Account(p, 0, 0), ops, t);
  }

  // ---------------------------------------------------------------- no starvation

  /** Every admit of the run is refused though the packet is a real one, and the clock never steps back. */
  predicate Starves(p: Pacer, ops: seq<Op>)
    decreases |ops|
  {
    ops == [] ||
      (&& (ops[0].OpAdmit? ==> ops[0].bytes <= MAX_RTP_PKT && ops[0].now >= p.last && !Admits(p, ops[0].bytes, ops[0].now))
       && Starves(Step(Account(p, 0, 0), ops[0]).p, ops[1..]))
  }

  lemma RefusalEarns(p: Pacer, now: nat)
    requires Armed(p) && p.started && now >= p.last && Refilled(p, now).tokens < MAX_RTP_PKT
    ensures Refilled(p, now).tokens >= p.tokens + 8 * (now - p.last)
  {
    var d := now - p.last;
    if d < BURST_MS {
      MulMono(d, 64000, p.target);
      assert d * p.target / 8000 >= d * 64000 / 8000 == 8 * d;
    }
  }

  lemma {:induction false} StarvingEarns(p: Pacer, ops: seq<Op>)
    requires Armed(p) && p.started && p.tokens < MAX_RTP_PKT && Starves(p, ops)
    ensures var q := Run(Account(p, 0, 0), ops).p;
      Armed(q) && q.tokens < MAX_RTP_PKT && q.tokens >= p.tokens + 8 * (q.last - p.last) && q.last >= p.last
    decreases |ops|
  {
    if ops != [] {
      var q := Step(Account(p, 0, 0), ops[0]).p;
      if ops[0].OpAdmit? { RefusalEarns(p, ops[0].now); }
      StarvingEarns(q, ops[1..]);
      RunIgnoresAccount(Step(Account(p, 0, 0), ops[0]), Account(q, 0, 0), ops[1..]);
    }
  }

  lemma {:induction false} RunIgnoresAccount(a: Account, b: Account, ops: seq<Op>)
    requires a.p == b.p
    ensures Run(a, ops).p == Run(b, ops).p
    decreases |ops|
  {
    if ops != [] { RunIgnoresAccount(Step(a, ops[0]), Step(b, ops[0]), ops[1..]); }
  }

  /**
   After a refusal, no run of further refusals lasts 152 ms, whatever caps and feedback come in
   between: the floor of the target rate earns a whole packet in that time.
   */
  lemma NoLongStarvation(p: Pacer, bytes: nat, now: nat, ops: seq<Op>)
    requires Armed(p) && bytes <= MAX_RTP_PKT && !Admits(p, bytes, now)
    requires Starves(Admit(p, bytes, now), ops)
    ensures Run(Account(Admit(p, bytes, now), 0, 0), ops).p.last - now < 152
  {
    StarvingEarns(Admit(p, bytes, now), ops);
  }
}
