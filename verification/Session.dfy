/** The session object of the send path, in the code's own form: fields changed step by step. */
module Session {
  import opened Bytes
  import opened RtpSpec
  import S = SendSpec
  import N = NackSpec
  import Pacing = Pacer

  class Session {
    var terms: S.Terms
    const pacer: Pacing.Pacer
    var cipher: seq<byte>               // output buffer, reused for every packet
    var twccSeq: nat
    var dropUntilGop: bool
    var streak: nat
    var eagainMs: nat
    var keyframeOpen: bool
    var keyframePkts: nat
    var dropGop: nat
    var dropPacer: nat
    var srtpFailed: nat
    var sendFailed: nat
    var sendEagain: nat

    var nackWindowStart: nat
    var nackWindowMs: nat
    var nackRetransmitted: nat
    const nackSeen: array<nat>
    var nackSeenCount: nat

    ghost var delivered: nat
    ghost var attempts: seq<S.Attempt>
    ghost var stamped: seq<(seq<byte>, nat)>
    ghost var units: seq<nat>
    ghost var nackSent: seq<nat>

    ghost function Abs(): S.Session
      reads this, pacer
    {
      S.Session(terms, pacer.Abs(), twccSeq, dropUntilGop, streak, eagainMs, keyframeOpen, keyframePkts,
                dropGop, dropPacer, srtpFailed, sendFailed, sendEagain, delivered, attempts, stamped, units)
    }

    ghost predicate Valid()
      reads `terms, `twccSeq, `nackSeenCount
    {
      S.TermsOk(terms) && twccSeq < U16 && nackSeen.Length == N.BUDGET && nackSeenCount <= N.BUDGET
    }

    ghost function NackAbs(): N.Nack
      requires Valid()
      reads `terms, `twccSeq, `nackWindowStart, `nackWindowMs, `nackRetransmitted, `nackSeenCount, `nackSent, nackSeen
    {
      N.Nack(nackWindowStart, nackWindowMs, nackRetransmitted, nackSeen[..nackSeenCount], nackSent)
    }

    constructor (terms: S.Terms, pacer: Pacing.Pacer)
      requires S.TermsOk(terms)
      ensures Valid() && this.pacer == pacer && fresh(nackSeen)
      ensures Abs() == S.Session(terms, pacer.Abs(), 0, false, 0, 0, false, 0, 0, 0, 0, 0, 0, 0, [], [], [])
      ensures NackAbs() == N.IDLE
    {
      this.terms, this.pacer := terms, pacer;
      cipher, twccSeq, dropUntilGop, streak, eagainMs := [], 0, false, 0, 0;
      keyframeOpen, keyframePkts := false, 0;
      dropGop, dropPacer, srtpFailed, sendFailed, sendEagain := 0, 0, 0, 0, 0;
      nackSeen := new nat[N.BUDGET](_ => 0);
      nackWindowStart, nackWindowMs, nackRetransmitted, nackSeenCount := 0, 0, 0, 0;
      delivered, attempts, stamped, units, nackSent := 0, [], [], [], [];
    }

    /** The gates in front of the cipher. */
    method Admit(rtp: seq<byte>, gop: bool, now: nat, ghost o: S.Offer) returns (go: bool, exempt: bool)
      requires Valid() && o.rtp == rtp && o.gop == gop && o.now == now && S.Entered(Abs(), o)
      modifies `dropGop, `dropPacer, pacer
      ensures Valid() && go == S.Judge(old(Abs()), o).OnItsWay?
      ensures go ==> exempt == S.Judge(old(Abs()), o).exempt && Abs() == S.Charged(old(Abs()), o)
      ensures !go ==> Abs() == S.Send(old(Abs()), o)
    {
      var isVideo := S.IsVideo(terms, rtp);
      var isKeyframe := isVideo && gop;
      if !isKeyframe && isVideo && keyframeOpen && keyframePkts < S.KEYFRAME_MAX_PKTS { isKeyframe := true; }
      if isVideo && dropUntilGop && !gop {
        dropGop := dropGop + 1;
        return false, false;
      }
      exempt := false;
      if pacer.target != 0 {
        var admitted := pacer.Admit(|rtp|, now);
        if !admitted && !isKeyframe {
          dropPacer := dropPacer + 1;
          return false, false;
        }
        exempt := !admitted;
      }
      return true, exempt;
    }

    /** Builds the plaintext datagram at its final offsets; takes a transport sequence if it stamps one. */
    method Build(rtp: seq<byte>) returns (stampedNow: bool)
      requires Valid() && |rtp| > 0
      modifies `cipher, `twccSeq
      ensures Valid() && cipher == S.Datagram(terms, rtp, old(twccSeq))
      ensures stampedNow == (S.ExtOf(terms, rtp) != 0)
      ensures twccSeq == if stampedNow then Low16(old(twccSeq) + 1) else old(twccSeq)
    {
      var pt, ext := 0, 0;
      if S.IsVideo(terms, rtp) { pt, ext := terms.videoPt, terms.videoExt; }
      else if S.IsAudio(terms, rtp) { pt, ext := terms.audioPt, terms.audioExt; }
      if ext != 0 && |rtp| + 8 + S.SRTP_TAG > S.CIPHER_CAP { ext := 0; }
      stampedNow := ext != 0;
      if ext != 0 {
        var tseq := twccSeq;
        twccSeq := Low16(twccSeq + 1);
        cipher := [SetX(rtp[0])] + rtp[1..HEADER]
                + [0xBE, 0xDE, 0x00, 0x01, ext * 16 + 1, tseq / 256, tseq % 256, 0x00] + rtp[HEADER..];
        assert Extension(ext, tseq) == [0xBE, 0xDE, 0x00, 0x01, ext * 16 + 1, tseq / 256, tseq % 256, 0x00];
      } else {
        cipher := rtp;
      }
      if pt != 0 { cipher := cipher[1 := cipher[1] / 128 * 128 + pt % 128]; }
    }

    /** Sends one packet; `net` is what the cipher and the socket answer. Returns whether it went out. */
    method SendRtp(rtp: seq<byte>, gop: bool, now: nat, streakMax: nat, net: S.Net) returns (ok: bool)
      requires Valid()
      modifies `cipher, `twccSeq, `dropUntilGop, `streak, `eagainMs, `keyframeOpen, `keyframePkts,
               `dropGop, `dropPacer, `srtpFailed, `sendFailed, `sendEagain,
               `delivered, `attempts, `stamped, `units, pacer
      ensures Valid() && Abs() == S.Send(old(Abs()), S.Offer(rtp, gop, now, streakMax, net))
      ensures ok == S.Sent(old(Abs()), S.Offer(rtp, gop, now, streakMax, net))
      ensures ok ==> cipher == S.Datagram(terms, rtp, old(twccSeq))
    {
      var o := S.Offer(rtp, gop, now, streakMax, net);
      if !terms.connected || !terms.ready || |rtp| == 0 || |rtp| > MAX_RTP_PKT { return false; }
      var go, exempt := Admit(rtp, gop, now, o);
      if !go { return false; }
      ok := Transmit(rtp, exempt, o);
    }

    /** From the stamp to the socket, for a packet that passed the gates. */
    method Transmit(rtp: seq<byte>, exempt: bool, o: S.Offer) returns (ok: bool)
      requires Valid() && o.rtp == rtp && |rtp| > 0
      modifies `cipher, `twccSeq, `dropUntilGop, `streak, `eagainMs, `keyframeOpen, `keyframePkts,
               `srtpFailed, `sendFailed, `sendEagain, `delivered, `attempts, `stamped, `units
      ensures Valid() && Abs() == S.Resolve(old(Abs()), o, S.OnItsWay(exempt)) && ok == (o.net == S.SendOk)
      ensures ok ==> cipher == S.Datagram(terms, rtp, old(twccSeq))
    {
      hide S.Datagram, S.IsVideo, S.IsAudio, S.ExtOf, S.Delivered, S.Failed, S.WouldBlock, Low16;
      ghost var s := Abs();
      var stampedNow := Build(rtp);
      ok := o.net == S.SendOk;
      if ok {
        Deliver(rtp, exempt, stampedNow, o, s);
      } else {
        if stampedNow { ReturnSeq(s.twccSeq); }
        Abandon(rtp, exempt, o);
      }
    }

    /** Gives the transport sequence of a packet that did not go out back. */
    method ReturnSeq(ghost was: nat)
      requires was < U16 && twccSeq == Low16(was + 1)
      modifies `twccSeq
      ensures twccSeq == was
    {
      GiveBack(was);
      twccSeq := Low16(twccSeq - 1);
    }

    method Abandon(rtp: seq<byte>, exempt: bool, o: S.Offer)
      requires Valid() && o.rtp == rtp && o.net != S.SendOk
      modifies `dropUntilGop, `streak, `eagainMs, `srtpFailed, `sendFailed, `sendEagain, `attempts
      ensures Abs() == S.Resolve(old(Abs()), o, S.OnItsWay(exempt))
    {
      var isVideo := S.IsVideo(terms, rtp);
      if o.net == S.ProtectFails {
        srtpFailed := srtpFailed + 1;
      } else if o.net == S.SendAgain {
        WouldBlock(isVideo, o);
      } else {
        sendFailed := sendFailed + 1;
        if isVideo { dropUntilGop := true; }
        attempts := attempts + [S.Attempt(isVideo, o.gop, o.net, isVideo)];
      }
    }

    method Deliver(rtp: seq<byte>, exempt: bool, stampedNow: bool, o: S.Offer, ghost s: S.Session)
      requires Valid() && o.rtp == rtp && |rtp| > 0 && stampedNow == (S.ExtOf(terms, rtp) != 0)
      requires Abs() == s.(twccSeq := if stampedNow then Low16(s.twccSeq + 1) else s.twccSeq)
      modifies `dropUntilGop, `streak, `keyframeOpen, `keyframePkts, `delivered, `attempts, `stamped, `units
      ensures Abs() == S.Delivered(s, o, exempt)
    {
      S.VideoHasHeader(terms, rtp);
      hide S.ExtOf, S.UnitsAfter, S.IsVideo, Low16;
      units := S.UnitsAfter(s, o, exempt);
      if stampedNow { stamped := stamped + [(rtp, s.twccSeq)]; }
      Resume(S.IsVideo(terms, rtp), rtp, o);
    }

    lemma GiveBack(n: nat)
      requires n < U16
      ensures Low16(Low16(n + 1) - 1) == n
    {
    }

    /** The socket buffer is full: count it, and fall back to the next keyframe after a long enough streak. */
    /** Counts one more refused video packet; true when the streak is long enough to wait for a keyframe. */
    method CountStreak(now: nat, streakMax: nat, ghost s: S.Session) returns (armed: bool)
      requires s.streak == streak && s.eagainMs == eagainMs
      modifies `dropUntilGop, `streak, `eagainMs
      ensures armed == (S.StreakNow(s, now) >= streakMax)
      ensures eagainMs == now && streak == (if armed then 0 else S.StreakNow(s, now))
      ensures dropUntilGop == (old(dropUntilGop) || armed)
    {
      armed := false;
      if streak > 0 && Low64(now - eagainMs) >= S.STREAK_IDLE_MS { streak := 0; }
      eagainMs := now;
      streak := streak + 1;
      if streak >= streakMax {
        streak := 0;
        dropUntilGop := true;
        armed := true;
      }
    }

    method WouldBlock(isVideo: bool, o: S.Offer)
      requires Valid() && isVideo == S.IsVideo(terms, o.rtp) && o.net == S.SendAgain
      modifies `sendEagain, `dropUntilGop, `streak, `eagainMs, `attempts
      ensures Abs() == S.WouldBlock(old(Abs()), o)
    {
      hide S.IsVideo, Low64;
      var armed := false;
      sendEagain := sendEagain + 1;
      if isVideo { armed := CountStreak(o.now, o.streakMax, Abs()); }
      attempts := attempts + [S.Attempt(isVideo, o.gop, o.net, armed)];
    }

    /** The packet reached the socket: a keyframe start resumes delivery and opens its unit, the marker closes it. */
    method Resume(isVideo: bool, rtp: seq<byte>, o: S.Offer)
      requires isVideo ==> |rtp| >= HEADER
      modifies `streak, `dropUntilGop, `keyframeOpen, `keyframePkts, `delivered, `attempts
      ensures delivered == old(delivered) + 1
      ensures attempts == old(attempts) + [S.Attempt(isVideo, o.gop, S.SendOk, false)]
      ensures streak == if isVideo then 0 else old(streak)
      ensures dropUntilGop == (old(dropUntilGop) && !(isVideo && o.gop))
      ensures isVideo && o.gop ==> keyframePkts == 1 && keyframeOpen == (rtp[1] < 128)
      ensures isVideo && !o.gop && old(keyframeOpen) ==> keyframePkts == old(keyframePkts) + 1 && keyframeOpen == (rtp[1] < 128)
      ensures !isVideo || (!o.gop && !old(keyframeOpen)) ==> keyframePkts == old(keyframePkts) && keyframeOpen == old(keyframeOpen)
    {
      if isVideo {
        streak := 0;
        if o.gop {
          dropUntilGop := false;
          keyframeOpen := true;
          keyframePkts := 0;
        }
        if keyframeOpen {
          keyframePkts := keyframePkts + 1;
          if rtp[1] >= 128 { keyframeOpen := false; }
        }
      }
      delivered := delivered + 1;
      attempts := attempts + [S.Attempt(isVideo, o.gop, S.SendOk, false)];
    }

    // -------------------------------------------------------------- retransmission

    /** Advances the response window when its width has passed. */
    method NackWindowStep(now: nat, w: N.Widths) returns (rolled: bool)
      requires Valid()
      modifies `nackWindowStart, `nackWindowMs, `nackRetransmitted
      ensures Valid() && rolled == N.Rolls(old(NackAbs()), now, w)
      ensures NackAbs() == if rolled then N.Step(old(NackAbs()), now, w).(seen := old(NackAbs()).seen, sent := nackSent)
                           else N.Step(old(NackAbs()), now, w)
    {
      if nackWindowMs == 0 { nackWindowMs := w.base; }
      if Low64(now - nackWindowStart) < nackWindowMs { return false; }
      if nackRetransmitted >= N.BUDGET {
        nackWindowMs := if nackWindowMs * 2 < w.ceiling then nackWindowMs * 2 else w.ceiling;
      } else if nackRetransmitted == 0 {
        nackWindowMs := w.base;
      }
      nackWindowStart := now;
      nackRetransmitted := 0;
      return true;
    }

    method NackReset()
      requires Valid()
      modifies `nackSeenCount, `nackSent
      ensures Valid() && NackAbs() == old(NackAbs()).(seen := [], sent := [])
    {
      nackSeenCount := 0;
      nackSent := [];
    }

    method NackBudgetTake() returns (ok: bool)
      requires Valid()
      modifies `nackRetransmitted
      ensures Valid() && ok == (old(nackRetransmitted) < N.BUDGET)
      ensures NackAbs() == if ok then old(NackAbs()).(charged := old(nackRetransmitted) + 1) else old(NackAbs())
    {
      if nackRetransmitted >= N.BUDGET { return false; }
      nackRetransmitted := nackRetransmitted + 1;
      return true;
    }

    method NackAnswered(seq16: nat) returns (yes: bool)
      requires Valid()
      ensures yes == (seq16 in NackAbs().seen)
    {
      var i := 0;
      while i < nackSeenCount
        invariant i <= nackSeenCount && seq16 !in nackSeen[..i]
      {
        if nackSeen[i] == seq16 {
          assert nackSeen[..nackSeenCount][i] == seq16;
          return true;
        }
        i := i + 1;
      }
      return false;
    }

    method NackRecord(seq16: nat)
      requires Valid()
      modifies nackSeen, `nackSeenCount, `nackSent
      ensures Valid()
      ensures var n := old(NackAbs());
        NackAbs() == n.(sent := n.sent + [seq16], seen := if |n.seen| < N.BUDGET then n.seen + [seq16] else n.seen)
    {
      ghost var n := NackAbs();
      if nackSeenCount < N.BUDGET {
        nackSeen[nackSeenCount] := seq16;
        nackSeenCount := nackSeenCount + 1;
        assert nackSeen[..nackSeenCount] == n.seen + [seq16];
      }
      nackSent := nackSent + [seq16];
    }

    /** Sends a retransmission unless this window answered the sequence already. */
    method RetransmitSend(seq16: nat, data: seq<byte>, now: nat, streakMax: nat, net: S.Net) returns (ok: bool)
      requires Valid() && |data| > 0
      modifies this, pacer, nackSeen
      ensures Valid()
      ensures var n, o := old(NackAbs()), S.Offer(data, false, now, streakMax, net);
        ok == (seq16 !in n.seen && S.Sent(old(Abs()), o))
        && Abs() == (if seq16 in n.seen then old(Abs()) else S.Send(old(Abs()), o))
        && NackAbs() == (if !ok then n
                         else n.(sent := n.sent + [seq16], seen := if |n.seen| < N.BUDGET then n.seen + [seq16] else n.seen))
    {
      var answered := NackAnswered(seq16);
      if answered { return false; }
      ok := SendRtp(data, false, now, streakMax, net);
      if ok { NackRecord(seq16); }
    }

    /** One requested sequence, after the budget was charged for it. */
    method Answer(seq16: nat, f: N.Feedback, net: S.Net, ghost n: N.Nack)
      requires Valid() && NackAbs() == n.(charged := n.charged + 1)
      modifies this, pacer, nackSeen
      ensures Valid() && (Abs(), NackAbs()) == N.Answer(old(Abs()), n, seq16, f.cache, f.now, f.streakMax, net)
    {
      if seq16 in f.cache && |f.cache[seq16]| > 0 {
        var _ := RetransmitSend(seq16, f.cache[seq16], f.now, f.streakMax, net);
      }
    }

    /** Advances the window and, when it rolled, forgets what was answered in the last one. */
    method RollWindow(now: nat, w: N.Widths)
      requires Valid()
      modifies `nackWindowStart, `nackWindowMs, `nackRetransmitted, `nackSeenCount, `nackSent
      ensures Valid() && NackAbs() == N.Step(old(NackAbs()), now, w)
    {
      var rolled := NackWindowStep(now, w);
      if rolled { NackReset(); }
    }

    /** Charges the budget for one requested sequence and answers it; false when the budget is spent. */
    method AnswerNext(seq16: nat, f: N.Feedback, net: S.Net) returns (ok: bool)
      requires Valid()
      modifies this, pacer, nackSeen
      ensures Valid() && ok == (old(nackRetransmitted) < N.BUDGET)
      ensures (Abs(), NackAbs()) ==
        if ok then N.Answer(old(Abs()), old(NackAbs()), seq16, f.cache, f.now, f.streakMax, net) else (old(Abs()), old(NackAbs()))
    {
      ghost var n := NackAbs();
      ok := NackBudgetTake();
      hide N.Answer;
      if ok { Answer(seq16, f, net, n); }
    }

    /** The NACK branch of the feedback handler; `f.cache` answers the lookups of cached packets. */
    method OnNack(f: N.Feedback, w: N.Widths)
      requires Valid()
      modifies this, pacer, nackSeen
      ensures Valid() && (Abs(), NackAbs()) == N.Handle(old(Abs()), old(NackAbs()), f, w)
    {
      ghost var want := N.Handle(Abs(), NackAbs(), f, w);
      hide N.Step, N.Answer, N.Loop;
      RollWindow(f.now, w);
      var i := 0;
      var ok := true;
      while ok && i < |f.seqs|
        invariant i <= |f.seqs| && Valid()
        invariant if ok then N.Loop(Abs(), NackAbs(), f.seqs, f.cache, f.now, f.streakMax, f.nets, i) == want
                  else (Abs(), NackAbs()) == want
        decreases |f.seqs| - i, ok
      {
        N.LoopStep(Abs(), NackAbs(), f, i);
        ok := AnswerNext(f.seqs[i], f, f.nets(i));
        if ok { i := i + 1; }
      }
      if ok { N.LoopStep(Abs(), NackAbs(), f, i); }
    }
  }
}
