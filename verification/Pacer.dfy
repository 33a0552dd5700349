/** The pacer with its fields, refilled and charged in place. */
module Pacer {
  import opened Bytes
  import Spec = PacerSpec

  class Pacer {
    var target: nat
    var tokens: nat
    var last: nat
    var started: bool
    var winLost: nat
    var winReceived: nat
    var winStarted: bool
    var winStart: nat

    function Abs(): Spec.Pacer
      reads this
    {
      Spec.Pacer(target, tokens, last, started, winLost, winReceived, winStarted, winStart)
    }

    constructor ()
      ensures Abs() == Spec.Pacer(0, 0, 0, false, 0, 0, false, 0)
    {
      target, tokens, last, started := 0, 0, 0, false;
      winLost, winReceived, winStarted, winStart := 0, 0, false, 0;
    }

    method BucketBytes() returns (bytes: nat)
      ensures bytes == Spec.Bucket(target)
    {
      bytes := target * Spec.BURST_MS / 8000;
      if bytes < MAX_RTP_PKT { bytes := MAX_RTP_PKT; }
    }

    method Init(bps: nat)
      modifies this
      ensures Abs() == Spec.Init(old(Abs()), bps) && Spec.Armed(Abs())
    {
      target := bps;
      if target < Spec.MIN_BPS { target := Spec.MIN_BPS; }
      else if target > Spec.MAX_BPS { target := Spec.MAX_BPS; }
      tokens := BucketBytes();
      last, started := 0, false;
    }

    method Admit(bytes: nat, now: nat) returns (ok: bool)
      modifies this
      ensures Abs() == Spec.Admit(old(Abs()), bytes, now)
      ensures ok == Spec.Admits(old(Abs()), bytes, now)
    {
      var capacity := BucketBytes();
      if !started {
        started := true;
        last := now;
      } else if now >= last {
        var delta := now - last;
        var refill := delta * target / 8000;
        if delta >= Spec.BURST_MS { refill := capacity; }
        last := now;
        tokens := tokens + refill;
        if tokens > capacity { tokens := capacity; }
      } else {
        last := now;
      }
      if tokens < bytes { return false; }
      tokens := tokens - bytes;
      return true;
    }

    method Cap(bps: nat)
      modifies this
      ensures Abs() == Spec.Cap(old(Abs()), bps)
    {
      var limit := bps;
      if limit < Spec.MIN_BPS { limit := Spec.MIN_BPS; }
      else if limit > Spec.MAX_BPS { limit := Spec.MAX_BPS; }
      if limit >= target { return; }
      target := limit;
      var capacity := BucketBytes();
      if tokens > capacity { tokens := capacity; }
    }

    method OnTwcc(lost: nat, received: nat, now: nat)
      modifies this
      ensures Abs() == Spec.OnTwcc(old(Abs()), lost, received, now)
    {
      hide Low32, Spec.Adapted, Spec.Retarget;
      winLost := Low32(winLost + lost);
      winReceived := Low32(winReceived + received);
      var total := winLost + winReceived;
      if total == 0 { return; }
      if !winStarted {
        winStarted := true;
        winStart := now;
        return;
      }
      var delta := if now >= winStart then now - winStart else 0;
      if delta < Spec.TWCC_WINDOW_MS && total < Spec.TWCC_MIN_PKTS { return; }
      if target == 0 {
        winLost, winReceived, winStart := 0, 0, now;
        return;
      }
      Adapt(total);
      winLost, winReceived, winStart := 0, 0, now;
    }

    /** Moves the target with the loss of the window and trims the tokens to the new bucket. */
    method Adapt(total: nat)
      requires total > 0
      modifies `target, `tokens
      ensures Abs() == Spec.Retarget(old(Abs()), Spec.Adapted(old(target), winLost, total))
    {
      var permille := winLost * 1000 / total;
      var t := target;
      if permille > Spec.LOSS_HIGH_PM { t := t * 85 / 100; }
      else if permille < Spec.LOSS_LOW_PM { t := t + t * 8 / 100; }
      if t < Spec.MIN_BPS { t := Spec.MIN_BPS; }
      else if t > Spec.MAX_BPS { t := Spec.MAX_BPS; }
      target := t;
      var capacity := BucketBytes();
      if tokens > capacity { tokens := capacity; }
    }
  }
}
