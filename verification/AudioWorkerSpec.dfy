/** The audio worker: two threads, an input ring of AAC frames and an output ring of Opus packets. */
module AudioWorkerSpec {
  // Every section under the mutex is one atomic step; the transcoder is an arbitrary caller of the emit
  // step. The run theorems hold for every interleaving of the steps.

  import opened Bytes
  import opened VRing

  const AAC_MAX := 8192
  const OPUS_MAX := 4000
  const DEPTH := 16
  const IN_ARENA := 131136       // 16 * (4 + 8192)
  const OUT_ARENA := 64064       // 16 * (4 + 4000)

  /** Where the worker thread stands: at its loop head, transcoding a frame, or gone. */
  datatype Phase = Waiting | Busy(frame: seq<byte>) | Stopped

  datatype State = State(
    inQ: Queue, outQ: Queue,
    stop: bool, phase: Phase,
    inDropped: nat, outDropped: nat,       // 32-bit counters
    // what happened so far
    accepted: seq<seq<byte>>,              // frames the input ring took
    taken: seq<seq<byte>>,                 // frames the thread took out
    produced: seq<seq<byte>>,              // packets the output ring took
    delivered: seq<seq<byte>>,             // packets drained
    refusedIn: nat, refusedOut: nat
  )

  const INITIAL := State(Queue(IN_ARENA, []), Queue(OUT_ARENA, []), false, Waiting, 0, 0, [], [], [], [], 0, 0)

  predicate FrameOk(x: seq<byte>) { 0 < |x| <= AAC_MAX }

  predicate PacketOk(x: seq<byte>) { 0 < |x| <= OPUS_MAX }

  function Push(s: State, x: seq<byte>): State {
    if !FrameOk(x) then s
    else if Fits(s.inQ, x) then s.(inQ := Pushed(s.inQ, x), accepted := s.accepted + [x])
    else s.(inDropped := Low32(s.inDropped + 1), refusedIn := s.refusedIn + 1)
  }

  /** One turn of the thread's loop: wait, leave, or take the oldest frame. */
  function Take(s: State): State {
    if s.phase != Waiting then s
    else if s.stop then s.(phase := Stopped)
    else if s.inQ.items == [] then s
    else s.(inQ := s.inQ.(items := s.inQ.items[1..]), taken := s.taken + [s.inQ.items[0]], phase := Busy(s.inQ.items[0]))
  }

  function Emit(s: State, x: seq<byte>): State {
    if !s.phase.Busy? || !PacketOk(x) then s
    else if Fits(s.outQ, x) then s.(outQ := Pushed(s.outQ, x), produced := s.produced + [x])
    else s.(outDropped := Low32(s.outDropped + 1), refusedOut := s.refusedOut + 1)
  }

  function Finish(s: State): State { if s.phase.Busy? then s.(phase := Waiting) else s }

  function DrainOne(s: State): State {
    if s.outQ.items == [] then s
    else s.(outQ := s.outQ.(items := s.outQ.items[1..]), delivered := s.delivered + [s.outQ.items[0]])
  }

  datatype Step = SPush(x: seq<byte>) | STake | SEmit(x: seq<byte>) | SFinish | SDrainOne | SStop

  function Next(s: State, e: Step): State {
    match e
    case SPush(x) => Push(s, x)
    case STake => Take(s)
    case SEmit(x) => Emit(s, x)
    case SFinish => Finish(s)
    case SDrainOne => DrainOne(s)
    case SStop => s.(stop := true)
  }

  function Run(s: State, steps: seq<Step>): State
    decreases |steps|
  {
    if steps == [] then s else Run(Next(s, steps[0]), steps[1..])
  }

  /** Nothing is lost, reordered or invented between the threads, and the length guards hold. */
  predicate Inv(s: State) {
    && s.inQ.cap == IN_ARENA && s.outQ.cap == OUT_ARENA
    && (forall x :: x in s.inQ.items ==> FrameOk(x))
    && (forall x :: x in s.outQ.items ==> PacketOk(x))
    && s.taken + s.inQ.items == s.accepted
    && s.delivered + s.outQ.items == s.produced
    && s.inDropped == Low32(s.refusedIn) && s.outDropped == Low32(s.refusedOut)
    && (s.phase.Busy? ==> s.taken != [] && s.taken[|s.taken| - 1] == s.phase.frame)
  }

  lemma NextKeepsInv(s: State, e: Step)
    requires Inv(s)
    ensures Inv(Next(s, e))
  {
    match e
    case SPush(x) =>
      if FrameOk(x) && Fits(s.inQ, x) { assert s.taken + (s.inQ.items + [x]) == s.accepted + [x]; }
    case SEmit(x) =>
      if PacketOk(x) && Fits(s.outQ, x) { assert s.delivered + (s.outQ.items + [x]) == s.produced + [x]; }
    case STake =>
      if s.inQ.items != [] { assert s.taken + [s.inQ.items[0]] + s.inQ.items[1..] == s.accepted; }
    case SDrainOne =>
      if s.outQ.items != [] { assert s.delivered + [s.outQ.items[0]] + s.outQ.items[1..] == s.produced; }
    case _ =>
  }

  /** Both directions are FIFO over every interleaving, and every refusal is counted. */
  lemma {:induction false} RunKeepsInv(s: State, steps: seq<Step>)
    requires Inv(s)
    ensures Inv(Run(s, steps))
    decreases |steps|
  {
    if steps != [] {
      NextKeepsInv(s, steps[0]);
      RunKeepsInv(Next(s, steps[0]), steps[1..]);
    }
  }

  /** The pop whose result the thread ignores finds an entry that fits its buffer. */
  lemma IgnoredPopSucceeds(steps: seq<Step>)
    ensures var s := Run(INITIAL, steps);
      && (s.inQ.items != [] ==> Poppable(s.inQ, AAC_MAX))
      && (s.outQ.items != [] ==> Poppable(s.outQ, OPUS_MAX))
  {
    RunKeepsInv(INITIAL, steps);
    var s := Run(INITIAL, steps);
    if s.inQ.items != [] { assert s.inQ.items[0] in s.inQ.items; }
    if s.outQ.items != [] { assert s.outQ.items[0] in s.outQ.items; }
  }

  lemma {:induction false} CostBound(q: seq<seq<byte>>, max: nat)
    requires forall x :: x in q ==> |x| <= max
    ensures TotalCost(q) <= |q| * (4 + max)
  {
    if q != [] {
      assert q[0] in q;
      forall x | x in q[1..] ensures |x| <= max { assert x in q; }
      CostBound(q[1..], max);
      assert |q| * (4 + max) == |q[1..]| * (4 + max) + (4 + max) by {
        assert |q| == |q[1..]| + 1;
        assert (|q[1..]| + 1) * (4 + max) == |q[1..]| * (4 + max) + (4 + max);
      }
    }
  }

  /** The arenas keep the promised depth: with fewer than sixteen entries waiting, nothing is refused. */
  lemma DepthIsKept(s: State, x: seq<byte>)
    requires Inv(s)
    ensures |s.inQ.items| < DEPTH && FrameOk(x) ==> Fits(s.inQ, x)
    ensures |s.outQ.items| < DEPTH && PacketOk(x) ==> Fits(s.outQ, x)
  {
    CostBound(s.inQ.items, AAC_MAX);
    CostBound(s.outQ.items, OPUS_MAX);
  }

  // ---------------------------------------------------------------- progress

  /** The thread's turns: it takes a frame and finishes it, `n` times. */
  function Turns(n: nat): seq<Step> { if n == 0 then [] else [STake, SFinish] + Turns(n - 1) }

  function Drains(n: nat): seq<Step> { if n == 0 then [] else [SDrainOne] + Drains(n - 1) }

  /** Unless it is stopped, a waiting thread takes every frame that was accepted, one in each turn. */
  lemma {:induction false} ThreadTakesAll(s: State, n: nat)
    requires Inv(s) && s.phase == Waiting && !s.stop && n == |s.inQ.items|
    ensures var t := Run(s, Turns(n)); t.inQ.items == [] && t.taken == s.accepted && t.phase == Waiting
    decreases n
  {
    if n == 0 {
      assert s.taken + [] == s.taken;
    } else {
      var u := Next(Next(s, STake), SFinish);
      NextKeepsInv(s, STake);
      NextKeepsInv(Next(s, STake), SFinish);
      assert Turns(n)[1..] == [SFinish] + Turns(n - 1) && ([SFinish] + Turns(n - 1))[1..] == Turns(n - 1);
      ThreadTakesAll(u, n - 1);
    }
  }

  /** Draining hands over every packet that was produced. */
  lemma {:induction false} DrainsTakeAll(s: State, n: nat)
    requires Inv(s) && n == |s.outQ.items|
    ensures var t := Run(s, Drains(n)); t.outQ.items == [] && t.delivered == s.produced
    decreases n
  {
    if n == 0 {
      assert s.delivered + [] == s.delivered;
    } else {
      NextKeepsInv(s, SDrainOne);
      assert Drains(n)[1..] == Drains(n - 1);
      DrainsTakeAll(Next(s, SDrainOne), n - 1);
    }
  }

  /** A stopped worker takes no further frame, whatever still happens; its thread is gone at its next turn. */
  lemma {:induction false} StopIsFinal(s: State, steps: seq<Step>)
    requires s.stop
    ensures var t := Run(s, steps); t.stop && t.taken == s.taken && (s.phase == Waiting && STake in steps ==> t.phase == Stopped)
    decreases |steps|
  {
    if steps != [] {
      var u := Next(s, steps[0]);
      StopIsFinal(u, steps[1..]);
      if s.phase == Waiting && STake in steps && steps[0] != STake { assert STake in steps[1..]; }
      if s.phase == Waiting && steps[0] == STake { StoppedStays(u, steps[1..]); }
    }
  }

  lemma {:induction false} StoppedStays(s: State, steps: seq<Step>)
    requires s.phase == Stopped
    ensures Run(s, steps).phase == Stopped
    decreases |steps|
  {
    if steps != [] { StoppedStays(Next(s, steps[0]), steps[1..]); }
  }
}
