/** What one packet does on the send path, told by the packet's octets, the session's fields and the answers. */
module SendLaws {
  // Which packets are held back, refused, offered and sent, what each outcome changes, and when the wait for a
  // keyframe begins and ends. The statements name no gate of the specification.

  import opened Bytes
  import opened SendSpec
  import P = PacerSpec

  /** A packet for a connected and ready session, of an acceptable length. */
  predicate Enters(s: Session, o: Offer) { s.terms.connected && s.terms.ready && 0 < |o.rtp| <= 1214 }

  /** The synchronization source a packet bears. */
  function SourceOf(rtp: seq<byte>): nat
    requires |rtp| >= 12
  {
    rtp[8] as nat * 0x100_0000 + rtp[9] as nat * 0x1_0000 + rtp[10] as nat * 0x100 + rtp[11] as nat
  }

  /** The packet bears the synchronization source of the video stream. */
  predicate Video(s: Session, o: Offer) {
    |o.rtp| >= 12 && s.terms.source.Some? && SourceOf(o.rtp) == s.terms.source.value.videoSsrc
  }

  /** The session waits for a keyframe and this is other video. */
  predicate MustWait(s: Session, o: Offer) { Video(s, o) && s.dropUntilGop && !o.gop }

  /** The pacer is not armed, or admits the packet, or the packet belongs to a keyframe. */
  predicate MayGo(s: Session, o: Offer) {
    || s.pacer.target == 0 || P.Admits(s.pacer, |o.rtp|, o.now)
    || (Video(s, o) && (o.gop || (s.keyframeOpen && s.keyframePkts < 256)))
  }

  predicate Passes(s: Session, o: Offer) { Enters(s, o) && !MustWait(s, o) && MayGo(s, o) }

  /** Refusals of the socket in a row, counting this one; a second of silence starts over. */
  function RowNow(s: Session, o: Offer): nat {
    if s.streak > 0 && Low64(o.now - s.eagainMs) >= 1000 then 1 else s.streak + 1
  }

  /** The answer makes the session wait for a keyframe. */
  predicate Arms(s: Session, o: Offer) {
    Video(s, o) && (o.net == SendError || o.net == SendShort || (o.net == SendAgain && RowNow(s, o) >= o.streakMax))
  }

  lemma VideoIsVideo(s: Session, o: Offer)
    ensures Video(s, o) <==> IsVideo(s.terms, o.rtp)
  {
  }

  lemma JudgedBy(s: Session, o: Offer)
    ensures var v := Judge(s, o);
      if !Enters(s, o) then v == NotEntered
      else if MustWait(s, o) then v == HeldBack
      else if !MayGo(s, o) then v == PacedOut
      else v == OnItsWay(s.pacer.target != 0 && !P.Admits(s.pacer, |o.rtp|, o.now))
  {
    VideoIsVideo(s, o);
    hide Video, IsVideo, P.Admits;
  }

  /** A packet that does not enter changes nothing. */
  lemma OutsidersChangeNothing(s: Session, o: Offer)
    requires !Enters(s, o)
    ensures Send(s, o) == s
  {
    JudgedBy(s, o);
    hide Judge;
  }

  /** Video inside a group is held back while the session waits, and no other packet is: one counter moves, nothing else. */
  lemma HeldBackExactly(s: Session, o: Offer)
    ensures var t := Send(s, o);
      && t.dropGop == s.dropGop + (if Enters(s, o) && Video(s, o) && !o.gop && s.dropUntilGop then 1 else 0)
      && (Enters(s, o) && Video(s, o) && !o.gop && s.dropUntilGop ==> t == s.(dropGop := s.dropGop + 1))
  {
    JudgedBy(s, o);
    hide Judge, IsVideo, Video, P.Admits, P.Admit, ExtOf, UnitsAfter, StreakNow, Low16;
  }

  /** The pacer drops a packet exactly when it refuses it and no keyframe exempts it. */
  lemma PacedOutExactly(s: Session, o: Offer)
    ensures var t := Send(s, o);
      && t.dropPacer == s.dropPacer + (if Enters(s, o) && !MustWait(s, o) && !MayGo(s, o) then 1 else 0)
      && (Enters(s, o) && !MustWait(s, o) && !MayGo(s, o) ==>
            t == s.(dropPacer := s.dropPacer + 1, pacer := P.Admit(s.pacer, |o.rtp|, o.now)))
  {
    JudgedBy(s, o);
    hide Judge, IsVideo, Video, P.Admits, P.Admit, ExtOf, UnitsAfter, StreakNow, Low16;
  }

  /** Every packet that passes is offered to the cipher, and, unless the cipher fails, to the socket; no other is. */
  lemma OfferedExactly(s: Session, o: Offer)
    ensures Send(s, o).attempts ==
      if Passes(s, o) && o.net != ProtectFails then s.attempts + [Attempt(Video(s, o), o.gop, o.net, Arms(s, o))] else s.attempts
  {
    JudgedBy(s, o);
    VideoIsVideo(s, o);
    hide Judge, IsVideo, Video, P.Admits, P.Admit, ExtOf, UnitsAfter, Low16, Low64, MayGo;
  }

  /** Which counter an outcome moves, for a packet that passes. */
  lemma OutcomesAreCounted(s: Session, o: Offer)
    requires Passes(s, o)
    ensures var t := Send(s, o);
      && t.delivered == s.delivered + (if o.net == SendOk then 1 else 0)
      && t.srtpFailed == s.srtpFailed + (if o.net == ProtectFails then 1 else 0)
      && t.sendFailed == s.sendFailed + (if o.net == SendError || o.net == SendShort then 1 else 0)
      && t.sendEagain == s.sendEagain + (if o.net == SendAgain then 1 else 0)
  {
    JudgedBy(s, o);
    hide Judge, IsVideo, Video, P.Admits, P.Admit, ExtOf, UnitsAfter, StreakNow, Low16, MayGo;
  }

  /**
   The wait for a keyframe: it begins with a hard failure of video or a row of refusals that is long
   enough, and ends with a keyframe start that was fully sent; nothing else moves it.
   */
  lemma WaitMovesExactly(s: Session, o: Offer)
    ensures Send(s, o).dropUntilGop ==
      if !Passes(s, o) || !Video(s, o) then s.dropUntilGop
      else match o.net
        case ProtectFails => s.dropUntilGop
        case SendError => true
        case SendShort => true
        case SendAgain => s.dropUntilGop || RowNow(s, o) >= o.streakMax
        case SendOk => s.dropUntilGop && !o.gop
  {
    JudgedBy(s, o);
    VideoIsVideo(s, o);
    hide Judge, IsVideo, Video, P.Admits, P.Admit, ExtOf, UnitsAfter, Low16, MayGo;
  }

  /** The row of refusals grows with refused video, starts over when it armed the wait, and ends with video that is sent. */
  lemma RowMovesExactly(s: Session, o: Offer)
    ensures Send(s, o).streak ==
      if !Passes(s, o) || !Video(s, o) then s.streak
      else if o.net == SendOk then 0
      else if o.net != SendAgain then s.streak
      else if RowNow(s, o) >= o.streakMax then 0 else RowNow(s, o)
  {
    JudgedBy(s, o);
    VideoIsVideo(s, o);
    hide Judge, IsVideo, Video, P.Admits, P.Admit, ExtOf, UnitsAfter, Low16, MayGo;
  }

  /**
   A keyframe start whose protection and sending succeed is delivered whatever the pacer says and
   whether or not the session waited, and afterwards the session does not wait.
   */
  lemma KeyframeStartGoesOut(s: Session, o: Offer)
    requires Enters(s, o) && Video(s, o) && o.gop && o.net == SendOk
    ensures var t := Send(s, o);
      && t.delivered == s.delivered + 1 && !t.dropUntilGop && t.streak == 0
      && t.attempts == s.attempts + [Attempt(true, true, SendOk, false)]
      && t.keyframePkts == 1 && (t.keyframeOpen <==> o.rtp[1] < 128)
      && t.dropGop == s.dropGop && t.dropPacer == s.dropPacer
  {
    JudgedBy(s, o);
    VideoIsVideo(s, o);
    hide Judge, IsVideo, Video, P.Admits, P.Admit, ExtOf, UnitsAfter, Low16;
  }

  /** The packets of a keyframe that follow its start: each one sent is counted, and the marker closes the unit. */
  lemma KeyframeGoesOn(s: Session, o: Offer)
    requires Enters(s, o) && Video(s, o) && !o.gop && o.net == SendOk && s.keyframeOpen && s.keyframePkts < 256 && !s.dropUntilGop
    ensures var t := Send(s, o);
      && t.delivered == s.delivered + 1 && t.keyframePkts == s.keyframePkts + 1
      && (t.keyframeOpen <==> o.rtp[1] < 128) && t.dropPacer == s.dropPacer
  {
    JudgedBy(s, o);
    VideoIsVideo(s, o);
    hide Judge, IsVideo, Video, P.Admits, P.Admit, ExtOf, UnitsAfter, Low16;
  }

  // ---------------------------------------------------------------- runs

  predicate NoneArmed(a: seq<Attempt>, from: nat) { forall i :: from <= i < |a| ==> !a[i].armed }

  lemma ArmedWhenTheWaitBegins(s: Session, op: Op)
    ensures var t := Next(s, op);
      s.attempts <= t.attempts && (NoneArmed(t.attempts, |s.attempts|) && !s.dropUntilGop ==> !t.dropUntilGop)
  {
    if op.OpSend? {
      var o, t := op.o, Send(s, op.o);
      WaitMovesExactly(s, o);
      OfferedExactly(s, o);
      hide Send, Video, MayGo, RowNow;
      if Passes(s, o) && o.net != ProtectFails { assert t.attempts[|s.attempts|].armed == Arms(s, o); }
    }
  }

  lemma {:induction false} NoWaitWithoutFailure(s: Session, ops: seq<Op>)
    requires !s.dropUntilGop && NoneArmed(Run(s, ops).attempts, |s.attempts|)
    ensures !Run(s, ops).dropUntilGop && s.attempts <= Run(s, ops).attempts
    decreases |ops|
  {
    if ops != [] {
      var t := Next(s, ops[0]);
      ArmedWhenTheWaitBegins(s, ops[0]);
      AttemptsGrow(t, ops[1..]);
      hide Next;
      assert forall i :: |s.attempts| <= i < |t.attempts| ==> t.attempts[i] == Run(t, ops[1..]).attempts[i];
      NoWaitWithoutFailure(t, ops[1..]);
    }
  }

  lemma {:induction false} AttemptsGrow(s: Session, ops: seq<Op>)
    ensures s.attempts <= Run(s, ops).attempts
    decreases |ops|
  {
    if ops != [] {
      ArmedWhenTheWaitBegins(s, ops[0]);
      hide Next;
      AttemptsGrow(Next(s, ops[0]), ops[1..]);
    }
  }

  /**
   After a keyframe start was fully sent, and as long as no attempt arms the wait again, every video
   packet that enters and that the pacer lets go is offered to the socket once it is protected.
   */
  lemma FlowsUntilArmed(s: Session, start: Offer, ops: seq<Op>, o: Offer)
    requires Enters(s, start) && Video(s, start) && start.gop && start.net == SendOk
    requires NoneArmed(Run(Send(s, start), ops).attempts, |s.attempts| + 1)
    requires var u := Run(Send(s, start), ops); Enters(u, o) && MayGo(u, o) && o.net != ProtectFails
    ensures var u := Run(Send(s, start), ops);
      |Send(u, o).attempts| == |u.attempts| + 1 && Send(u, o).dropGop == u.dropGop && Send(u, o).dropPacer == u.dropPacer
  {
    KeyframeStartGoesOut(s, start);
    var t := Send(s, start);
    hide Send;
    NoWaitWithoutFailure(t, ops);
    var u := Run(t, ops);
    OfferedExactly(u, o);
    HeldBackExactly(u, o);
    PacedOutExactly(u, o);
    hide Enters, Video, MayGo, Run;
  }

  // ---------------------------------------------------------------- the datagram

  /** The session's payload type is written over the packet's; marker, numbers and payload stay. */
  lemma DatagramKeepsTheRest(t: Terms, rtp: seq<byte>, tseq: nat)
    requires TermsOk(t) && tseq < U16 && |rtp| >= 12 && t.source.Some?
    ensures var d := Datagram(t, rtp, tseq);
      var ssrc, source := SourceOf(rtp), t.source.value;
      var pt := if ssrc == source.videoSsrc then t.videoPt else if ssrc == source.audioSsrc then t.audioPt else 0;
      && |d| >= |rtp| && d[1] / 128 == rtp[1] / 128 && d[1] % 128 == (if pt != 0 then pt % 128 else rtp[1] % 128)
      && d[2..12] == rtp[2..12] && d[|d| - (|rtp| - 12)..] == rtp[12..]
  {
  }
}
