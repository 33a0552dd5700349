/**
 The per-session send path: backpressure gate, pacer with the keyframe exemption, transport-wide
 sequence stamp, SRTP and socket. What the cipher and the socket answer is the input `net`.
 */
module SendSpec {
  import opened Options
  import opened Bytes
  import opened RtpSpec
  import P = PacerSpec

  const CIPHER_CAP := 1256            // packet + authentication tag + headroom
  const SRTP_TAG := 10
  const KEYFRAME_MAX_PKTS := 256
  const STREAK_IDLE_MS := 1000

  /** Answer of the cipher and of the socket. */
  datatype Net = ProtectFails | SendError | SendAgain | SendShort | SendOk

  datatype Source = Source(videoSsrc: nat, audioSsrc: nat)

  /** What a session negotiated; an extension id of 0 means not negotiated. */
  datatype Terms = Terms(connected: bool, ready: bool, source: Option<Source>,
                         videoPt: byte, audioPt: byte, videoExt: nat, audioExt: nat)

  /** One call of the socket; `armed` when its failure made the session wait for a keyframe. */
  datatype Attempt = Attempt(video: bool, gop: bool, net: Net, armed: bool)

  datatype Session = Session(
    terms: Terms, pacer: P.Pacer, twccSeq: nat,
    dropUntilGop: bool, streak: nat, eagainMs: nat, keyframeOpen: bool, keyframePkts: nat,
    dropGop: nat, dropPacer: nat, srtpFailed: nat, sendFailed: nat, sendEagain: nat,
    // what happened so far
    delivered: nat,
    attempts: seq<Attempt>,
    stamped: seq<(seq<byte>, nat)>,   // delivered packets with the extension, and their transport sequence
    units: seq<nat>                   // per opened keyframe unit: deliveries that used the exemption
  )

  datatype Offer = Offer(rtp: seq<byte>, gop: bool, now: nat, streakMax: nat, net: Net)

  predicate TermsOk(t: Terms) { t.videoExt < 16 && t.audioExt < 16 }

  predicate Entered(s: Session, o: Offer) {
    s.terms.connected && s.terms.ready && 0 < |o.rtp| <= MAX_RTP_PKT
  }

  function Ssrc(rtp: seq<byte>): nat requires |rtp| >= HEADER { Read32(rtp, 8) }

  predicate IsVideo(t: Terms, rtp: seq<byte>) {
    |rtp| >= HEADER && t.source.Some? && Ssrc(rtp) == t.source.value.videoSsrc
  }

  lemma VideoHasHeader(t: Terms, rtp: seq<byte>)
    ensures IsVideo(t, rtp) ==> |rtp| >= HEADER
  {
  }

  predicate IsAudio(t: Terms, rtp: seq<byte>) {
    |rtp| >= HEADER && t.source.Some? && !IsVideo(t, rtp) && Ssrc(rtp) == t.source.value.audioSsrc
  }

  predicate Held(s: Session, o: Offer) { IsVideo(s.terms, o.rtp) && s.dropUntilGop && !o.gop }

  /** Part of a keyframe access unit: the packet that opens it, or one of the next 255 behind it. */
  predicate Keyframe(s: Session, o: Offer) {
    IsVideo(s.terms, o.rtp) && (o.gop || (s.keyframeOpen && s.keyframePkts < KEYFRAME_MAX_PKTS))
  }

  predicate Refused(s: Session, o: Offer) {
    s.pacer.target != 0 && !P.Admits(s.pacer, |o.rtp|, o.now)
  }

  function Charged(s: Session, o: Offer): Session {
    if s.pacer.target == 0 then s else s.(pacer := P.Admit(s.pacer, |o.rtp|, o.now))
  }

  function ExtOf(t: Terms, rtp: seq<byte>): nat {
    var id := if IsVideo(t, rtp) then t.videoExt else if IsAudio(t, rtp) then t.audioExt else 0;
    if |rtp| + 8 + SRTP_TAG > CIPHER_CAP then 0 else id
  }

  function PtOf(t: Terms, rtp: seq<byte>): byte {
    if IsVideo(t, rtp) then t.videoPt else if IsAudio(t, rtp) then t.audioPt else 0
  }

  /** The plaintext datagram: extension stamped, payload type of this session. */
  function Datagram(t: Terms, rtp: seq<byte>, tseq: nat): seq<byte>
    requires TermsOk(t) && tseq < U16
  {
    var d := if ExtOf(t, rtp) != 0 then Stamp(rtp, ExtOf(t, rtp), tseq) else rtp;
    if PtOf(t, rtp) == 0 then d else WithPt(d, PtOf(t, rtp))
  }

  // ---------------------------------------------------------------- the six ways out

  function Failed(s: Session, o: Offer): Session {
    var video := IsVideo(s.terms, o.rtp);
    s.(sendFailed := s.sendFailed + 1, dropUntilGop := s.dropUntilGop || video,
       attempts := s.attempts + [Attempt(video, o.gop, o.net, video)])
  }

  /** A streak interrupted by an idle gap starts over. */
  function StreakNow(s: Session, now: nat): nat {
    if s.streak > 0 && Low64(now - s.eagainMs) >= STREAK_IDLE_MS then 1 else s.streak + 1
  }

  function WouldBlock(s: Session, o: Offer): Session {
    var video := IsVideo(s.terms, o.rtp);
    var armed := video && StreakNow(s, o.now) >= o.streakMax;
    var t := s.(sendEagain := s.sendEagain + 1, attempts := s.attempts + [Attempt(video, o.gop, o.net, armed)]);
    if !video then t
    else t.(eagainMs := o.now, streak := if armed then 0 else StreakNow(s, o.now), dropUntilGop := s.dropUntilGop || armed)
  }

  /** Book-keeping of the exemption: a keyframe start opens a unit, other exempt packets add to it. */
  function UnitsAfter(s: Session, o: Offer, exempt: bool): seq<nat> {
    if !IsVideo(s.terms, o.rtp) then s.units
    else if o.gop then s.units + [if exempt then 1 else 0]
    else if exempt && s.units != [] then s.units[|s.units| - 1 := s.units[|s.units| - 1] + 1]
    else s.units
  }

  function Delivered(s: Session, o: Offer, exempt: bool): Session {
    var video := IsVideo(s.terms, o.rtp);
    var stamps := ExtOf(s.terms, o.rtp) != 0;
    var open := video && (o.gop || s.keyframeOpen);
    s.(delivered := s.delivered + 1,
       attempts := s.attempts + [Attempt(video, o.gop, SendOk, false)],
       twccSeq := if stamps then Low16(s.twccSeq + 1) else s.twccSeq,
       stamped := if stamps then s.stamped + [(o.rtp, s.twccSeq)] else s.stamped,
       units := UnitsAfter(s, o, exempt),
       streak := if video then 0 else s.streak,
       dropUntilGop := s.dropUntilGop && !(video && o.gop),
       keyframePkts := if open then (if o.gop then 1 else s.keyframePkts + 1) else s.keyframePkts,
       keyframeOpen := if open then o.rtp[1] < 128 else s.keyframeOpen)
  }

  /** What the gates decide: not a packet for this session, held back, refused, or on its way. */
  datatype Verdict = NotEntered | HeldBack | PacedOut | OnItsWay(exempt: bool)

  function Judge(s: Session, o: Offer): Verdict {
    if !Entered(s, o) then NotEntered
    else if Held(s, o) then HeldBack
    else if !Refused(s, o) then OnItsWay(false)
    else if Keyframe(s, o) then OnItsWay(true) else PacedOut
  }

  function Resolve(s: Session, o: Offer, v: Verdict): (t: Session)
    ensures t.terms == s.terms
    ensures s.twccSeq < U16 ==> t.twccSeq < U16
  {
    match v
    case NotEntered => s
    case HeldBack => s.(dropGop := s.dropGop + 1)
    case PacedOut => s.(dropPacer := s.dropPacer + 1)
    case OnItsWay(exempt) =>
      match o.net
      case ProtectFails => s.(srtpFailed := s.srtpFailed + 1)
      case SendError => Failed(s, o)
      case SendShort => Failed(s, o)
      case SendAgain => WouldBlock(s, o)
      case SendOk => Delivered(s, o, exempt)
  }

  function Send(s: Session, o: Offer): (t: Session)
    ensures t.terms == s.terms
    ensures s.twccSeq < U16 ==> t.twccSeq < U16
  {
    var v := Judge(s, o);
    Resolve(if v.PacedOut? || v.OnItsWay? then Charged(s, o) else s, o, v)
  }

  /** The caller learns whether the packet went out. */
  predicate Sent(s: Session, o: Offer) { Judge(s, o).OnItsWay? && o.net == SendOk }

  // ---------------------------------------------------------------- runs

  datatype Op = OpSend(o: Offer) | OpCap(bps: nat) | OpTwcc(lost: nat, received: nat, now: nat)

  function Next(s: Session, op: Op): (t: Session)
    ensures t.terms == s.terms
  {
    match op
    case OpSend(o) => Send(s, o)
    case OpCap(bps) => s.(pacer := P.Cap(s.pacer, bps))
    case OpTwcc(lost, received, now) => s.(pacer := P.OnTwcc(s.pacer, lost, received, now))
  }

  function Run(s: Session, ops: seq<Op>): (t: Session)
    ensures t.terms == s.terms
    decreases |ops|
  {
    if ops == [] then s else Run(Next(s, ops[0]), ops[1..])
  }

  // ---------------------------------------------------------------- accounting

  function Total(s: Session): nat {
    s.delivered + s.dropGop + s.dropPacer + s.srtpFailed + s.sendFailed + s.sendEagain
  }

  /** Counters only grow, so a total that grows by one means exactly one counter moved, by one. */
  predicate CountersGrow(s: Session, t: Session) {
    && s.delivered <= t.delivered && s.dropGop <= t.dropGop && s.dropPacer <= t.dropPacer
    && s.srtpFailed <= t.srtpFailed && s.sendFailed <= t.sendFailed && s.sendEagain <= t.sendEagain
  }

  lemma SendCountsOnce(s: Session, o: Offer)
    ensures CountersGrow(s, Send(s, o))
    ensures Total(Send(s, o)) == Total(s) + (if Entered(s, o) then 1 else 0)
    ensures Send(s, o).delivered == s.delivered + (if Sent(s, o) then 1 else 0)
  {
    var v := Judge(s, o);
    hide Resolve, Held, Refused, Keyframe;
    ResolveCounts(if v.PacedOut? || v.OnItsWay? then Charged(s, o) else s, o, v);
  }

  lemma ResolveCounts(s: Session, o: Offer, v: Verdict)
    ensures var t := Resolve(s, o, v);
      && CountersGrow(s, t) && Total(t) == Total(s) + (if v.NotEntered? then 0 else 1)
      && t.delivered == s.delivered + (if v.OnItsWay? && o.net == SendOk then 1 else 0)
  {
    hide IsVideo, StreakNow, ExtOf, UnitsAfter, Low16;
    if v.OnItsWay? && o.net == SendOk {
      DeliveredCounts(s, o, v.exempt);
    } else if v.OnItsWay? {
      NotSentCounts(s, o, v.exempt);
    }
  }

  lemma DeliveredCounts(s: Session, o: Offer, exempt: bool)
    ensures var t := Delivered(s, o, exempt);
      CountersGrow(s, t) && Total(t) == Total(s) + 1 && t.delivered == s.delivered + 1
  {
    hide IsVideo, ExtOf, UnitsAfter, Low16;
  }

  lemma NotSentCounts(s: Session, o: Offer, exempt: bool)
    requires o.net != SendOk
    ensures var t := Resolve(s, o, OnItsWay(exempt));
      CountersGrow(s, t) && Total(t) == Total(s) + 1 && t.delivered == s.delivered
  {
    hide IsVideo, StreakNow, Delivered;
  }

  function EnteredCount(s: Session, ops: seq<Op>): nat
    decreases |ops|
  {
    if ops == [] then 0
    else
      (if ops[0].OpSend? && Entered(s, ops[0].o) then 1 else 0) + EnteredCount(Next(s, ops[0]), ops[1..])
  }

  /** Every packet past the entry guards is counted in exactly one of the six outcomes. */
  lemma {:induction false} RunCountsEach(s: Session, ops: seq<Op>)
    ensures Total(Run(s, ops)) == Total(s) + EnteredCount(s, ops) && CountersGrow(s, Run(s, ops))
    decreases |ops|
  {
    if ops != [] {
      NextCounts(s, ops[0]);
      hide Next, Entered, Total;
      RunCountsEach(Next(s, ops[0]), ops[1..]);
    }
  }

  lemma NextCounts(s: Session, op: Op)
    ensures CountersGrow(s, Next(s, op))
    ensures Total(Next(s, op)) == Total(s) + if op.OpSend? && Entered(s, op.o) then 1 else 0
  {
    hide Send, Entered;
    if op.OpSend? { SendCountsOnce(s, op.o); }
  }

  // ---------------------------------------------------------------- transport sequence

  predicate Stamps(s: Session, s0: nat) {
    && s.twccSeq == Low16(s0 + |s.stamped|)
    && forall k :: 0 <= k < |s.stamped| ==> s.stamped[k].1 == Low16(s0 + k) && ExtOf(s.terms, s.stamped[k].0) != 0
  }

  /** The datagram built with a transport sequence carries it, behind the identifier of the extension. */
  lemma DatagramCarriesSeq(t: Terms, rtp: seq<byte>, tseq: nat)
    requires TermsOk(t) && tseq < U16 && ExtOf(t, rtp) != 0
    ensures var d := Datagram(t, rtp, tseq);
      |d| == |rtp| + 8 >= 20 && d[16] == ExtOf(t, rtp) * 16 + 1 && Read16(d, 17) == tseq
  {
    var d := Datagram(t, rtp, tseq);
    assert d[17..19] == Be16(tseq);
    Read16Of(d, 17, tseq);
  }

  lemma SendStamps(s: Session, o: Offer, s0: nat)
    requires Stamps(s, s0)
    ensures Stamps(Send(s, o), s0)
  {
    hide IsVideo, ExtOf, Low16, Delivered;
    if Sent(s, o) {
      DeliveredStamps(Charged(s, o), o, Refused(s, o), s0);
    } else {
      NotSentStampsNothing(s, o);
      hide Send;
    }
  }

  lemma NotSentStampsNothing(s: Session, o: Offer)
    requires !Sent(s, o)
    ensures Send(s, o).twccSeq == s.twccSeq && Send(s, o).stamped == s.stamped
  {
    var v := Judge(s, o);
    hide Judge, Resolve, Refused;
    ResolveStampsNothing(if v.PacedOut? || v.OnItsWay? then Charged(s, o) else s, o, v);
  }

  lemma ResolveStampsNothing(s: Session, o: Offer, v: Verdict)
    requires v.OnItsWay? ==> o.net != SendOk
    ensures Resolve(s, o, v).twccSeq == s.twccSeq && Resolve(s, o, v).stamped == s.stamped
  {
    hide IsVideo, StreakNow, Delivered;
  }

  lemma DeliveredStamps(s: Session, o: Offer, exempt: bool, s0: nat)
    requires Stamps(s, s0)
    ensures Stamps(Delivered(s, o, exempt), s0)
  {
    Low16Step(s0 + |s.stamped|);
  }

  /**
   The k-th delivered datagram that bears the extension carries transport sequence s0 + k modulo
   2^16: packets that were abandoned before or at the socket give their number back.
   */
  lemma {:induction false} RunStamps(s: Session, ops: seq<Op>, s0: nat)
    requires Stamps(s, s0)
    ensures Stamps(Run(s, ops), s0)
    decreases |ops|
  {
    if ops != [] {
      if ops[0].OpSend? { SendStamps(s, ops[0].o, s0); }
      RunStamps(Next(s, ops[0]), ops[1..], s0);
    }
  }

  // ---------------------------------------------------------------- recovery at a keyframe

  /** After attempt `i` a keyframe start was fully sent before attempt `j`. */
  ghost predicate Recovered(a: seq<Attempt>, i: int, j: int) {
    exists k: nat :: i < k < j && k < |a| && a[k].video && a[k].gop && a[k].net == SendOk
  }

  /** Between an arming failure and the next video packet inside a group lies a fully sent keyframe start. */
  ghost predicate CleanRecovery(a: seq<Attempt>) {
    forall i, j :: 0 <= i < j < |a| && a[i].armed && a[j].video && !a[j].gop ==> Recovered(a, i, j)
  }

  ghost predicate ArmedIsHeld(s: Session) {
    forall i :: 0 <= i < |s.attempts| && s.attempts[i].armed && !Recovered(s.attempts, i, |s.attempts|) ==> s.dropUntilGop
  }

  lemma RecoveredMore(a: seq<Attempt>, x: Attempt)
    ensures forall i, j :: j <= |a| && Recovered(a, i, j) ==> Recovered(a + [x], i, j)
    ensures forall i :: Recovered(a, i, |a|) ==> Recovered(a + [x], i, |a| + 1)
    ensures forall i {:trigger Recovered(a + [x], i, |a| + 1)} ::
              x.video && x.gop && x.net == SendOk && i < |a| ==> Recovered(a + [x], i, |a| + 1)
  {
    var b := a + [x];
    forall i, j | j <= |a| && Recovered(a, i, j) ensures Recovered(b, i, j) {
      var k: nat :| i < k < j && k < |a| && a[k].video && a[k].gop && a[k].net == SendOk;
      assert b[k] == a[k];
    }
    forall i | Recovered(a, i, |a|) ensures Recovered(b, i, |a| + 1) {
      var k: nat :| i < k < |a| && a[k].video && a[k].gop && a[k].net == SendOk;
      assert b[k] == a[k];
    }
    if x.video && x.gop && x.net == SendOk { assert b[|a|] == x; }
  }

  /** One more attempt that was allowed out. */
  lemma AttemptKeepsRecovery(s: Session, t: Session, x: Attempt)
    requires CleanRecovery(s.attempts) && ArmedIsHeld(s) && t.attempts == s.attempts + [x]
    requires x.video && !x.gop ==> !s.dropUntilGop
    requires x.armed ==> t.dropUntilGop
    requires s.dropUntilGop && !t.dropUntilGop ==> x.video && x.gop && x.net == SendOk
    ensures CleanRecovery(t.attempts) && ArmedIsHeld(t)
  {
    var a, b := s.attempts, t.attempts;
    RecoveredMore(a, x);
    forall i, j | 0 <= i < j < |b| && b[i].armed && b[j].video && !b[j].gop ensures Recovered(b, i, j) {
      if j < |a| { assert Recovered(a, i, j); } else { assert Recovered(a, i, |a|); RecoveredShift(a, x, i); }
    }
    forall i | 0 <= i < |b| && b[i].armed && !Recovered(b, i, |b|) ensures t.dropUntilGop {
      if i < |a| { assert !Recovered(a, i, |a|); }
    }
  }

  lemma RecoveredShift(a: seq<Attempt>, x: Attempt, i: int)
    requires Recovered(a, i, |a|)
    ensures Recovered(a + [x], i, |a|)
  {
    RecoveredMore(a, x);
  }

  lemma SendKeepsRecovery(s: Session, o: Offer)
    requires CleanRecovery(s.attempts) && ArmedIsHeld(s)
    ensures CleanRecovery(Send(s, o).attempts) && ArmedIsHeld(Send(s, o))
  {
    var v := Judge(s, o);
    ResolveKeepsRecovery(if v.PacedOut? || v.OnItsWay? then Charged(s, o) else s, o, v);
  }

  lemma ResolveKeepsRecovery(s: Session, o: Offer, v: Verdict)
    requires CleanRecovery(s.attempts) && ArmedIsHeld(s) && (v.OnItsWay? ==> !Held(s, o))
    ensures CleanRecovery(Resolve(s, o, v).attempts) && ArmedIsHeld(Resolve(s, o, v))
  {
    var t := Resolve(s, o, v);
    if v.OnItsWay? && o.net != ProtectFails {
      AttemptKeepsRecovery(s, t, t.attempts[|s.attempts|]);
    }
  }

  /** Over every run: once waiting for a keyframe, no other video reaches the socket before one is sent. */
  lemma {:induction false} RunKeepsRecovery(s: Session, ops: seq<Op>)
    requires CleanRecovery(s.attempts) && ArmedIsHeld(s)
    ensures CleanRecovery(Run(s, ops).attempts) && ArmedIsHeld(Run(s, ops))
    decreases |ops|
  {
    if ops != [] {
      if ops[0].OpSend? { SendKeepsRecovery(s, ops[0].o); }
      RunKeepsRecovery(Next(s, ops[0]), ops[1..]);
    }
  }

  /** A video packet the socket refuses hard, or refuses once too often, arms the wait. */
  lemma FailureArms(s: Session, o: Offer)
    requires Entered(s, o) && IsVideo(s.terms, o.rtp) && !Held(s, o)
    requires Refused(s, o) ==> Keyframe(s, o)
    requires o.net == SendError || o.net == SendShort || (o.net == SendAgain && StreakNow(s, o.now) >= o.streakMax)
    ensures var t := Send(s, o); t.dropUntilGop && t.attempts == s.attempts + [Attempt(true, o.gop, o.net, true)]
  {
  }

  // ---------------------------------------------------------------- the exemption is bounded

  predicate UnitsBounded(s: Session) {
    && (forall i :: 0 <= i < |s.units| ==> s.units[i] <= KEYFRAME_MAX_PKTS)
    && (s.keyframeOpen ==> s.units != [] && s.units[|s.units| - 1] <= s.keyframePkts)
  }

  lemma SendBoundsUnits(s: Session, o: Offer)
    requires UnitsBounded(s)
    ensures UnitsBounded(Send(s, o))
  {
    hide IsVideo, StreakNow, ExtOf;
    if Sent(s, o) { DeliveredBoundsUnits(Charged(s, o), o, Refused(s, o)); }
  }

  lemma DeliveredBoundsUnits(s: Session, o: Offer, exempt: bool)
    requires UnitsBounded(s) && (exempt ==> Keyframe(s, o))
    ensures UnitsBounded(Delivered(s, o, exempt))
  {
  }

  /** At most 256 delivered packets per opened keyframe unit use the pacer exemption. */
  lemma {:induction false} RunBoundsUnits(s: Session, ops: seq<Op>)
    requires UnitsBounded(s)
    ensures UnitsBounded(Run(s, ops))
    decreases |ops|
  {
    if ops != [] {
      if ops[0].OpSend? { SendBoundsUnits(s, ops[0].o); }
      RunBoundsUnits(Next(s, ops[0]), ops[1..]);
    }
  }

  /** Every delivery the pacer refused is entered in the unit it belongs to. */
  lemma ExemptionIsCounted(s: Session, o: Offer)
    requires UnitsBounded(s) && Sent(s, o) && Refused(s, o)
    ensures var t := Send(s, o);
      && t.units != [] && t.units[|t.units| - 1] >= 1
      && (if o.gop then t.units == s.units + [1]
          else s.units != [] && t.units == s.units[|s.units| - 1 := s.units[|s.units| - 1] + 1])
  {
  }
}
