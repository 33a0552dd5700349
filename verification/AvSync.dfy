/** The anchors of one track, moved by sender reports. */
module AvSync {
  import opened Options
  import opened AvSyncSpec
  import opened Bytes

  datatype Status = Ok | Again

  class Track {
    var hasAnchor: bool
    var hasSlope: bool
    var ntpCur: nat
    var rtpCur: nat
    var ntpPrev: nat
    var rtpPrev: nat
    var num: nat
    var den: nat

    ghost function Value(): Clock
      reads this
    {
      Clock(hasAnchor, hasSlope, ntpCur, rtpCur, ntpPrev, rtpPrev, num, den)
    }

    ghost predicate Valid()
      reads this
    {
      Inv(Value())
    }

    constructor ()
      ensures Valid() && Value() == START
    {
      hasAnchor, hasSlope := false, false;
      ntpCur, rtpCur, ntpPrev, rtpPrev, num, den := 0, 0, 0, 0, 0, 0;
    }

    /** Records the calibration endpoints and the slope; the caller orders them. */
    method SetAnchors(fromNtp: nat, fromRtp: nat, toNtp: nat, toRtp: nat, drtp: nat)
      requires fromNtp < toNtp && drtp > 0
      modifies this
      ensures Value() == Calibrate(old(Value()), fromNtp, fromRtp, toNtp, toRtp, drtp)
    {
      ntpPrev, rtpPrev, ntpCur, rtpCur := fromNtp, fromRtp, toNtp, toRtp;
      num := toNtp - fromNtp;
      den := drtp;
      hasSlope := true;
    }

    method OnSenderReport(ntp: nat, rtp: nat) returns (status: Status)
      requires Valid() && ntp < U64 && rtp < U32
      modifies this
      ensures Valid() && Value() == OnReport(old(Value()), ntp, rtp)
      ensures status == if old(hasAnchor) then Ok else Again
    {
      if !hasAnchor {
        ntpCur, rtpCur, hasAnchor := ntp, rtp, true;
        return Again;
      }
      if ntp == ntpCur { return Ok; }
      if ntp < ntpCur {
        var late := Delta(rtpCur, rtp);
        if late <= 0 { return Ok; }
        SetAnchors(ntp, rtp, ntpCur, rtpCur, late);
        return Ok;
      }
      var drtp := Delta(rtp, rtpCur);
      if drtp <= 0 { return Ok; }
      SetAnchors(ntpCur, rtpCur, ntp, rtp, drtp);
      status := Ok;
    }

    method MapRtpToWall(rtp: nat) returns (ntp: Option<nat>)
      requires Valid() && rtp < U32
      ensures ntp == Map(Value(), rtp)
    {
      if !hasSlope { return None; }
      var delta := Delta(rtp, rtpCur);
      if delta >= 0 {
        MulNat(delta, num);
        ntp := Some(Low64(ntpCur + Low64(delta * num / den)));
        Low64Plus(ntpCur, delta * num / den);
      } else {
        MulNat(-delta, num);
        ntp := Some(Low64(ntpCur - Low64(-delta * num / den)));
        Low64Minus(ntpCur, -delta * num / den);
      }
    }
  }

  lemma Low64Plus(a: int, b: int)
    ensures Low64(a + Low64(b)) == Low64(a + b)
  {
    var q := b / 0x1_0000_0000_0000_0000;
    assert a + b == (a + Low64(b)) + q * 0x1_0000_0000_0000_0000;
  }

  lemma Low64Minus(a: int, b: int)
    ensures Low64(a - Low64(b)) == Low64(a - b)
  {
    var q := b / 0x1_0000_0000_0000_0000;
    assert a - b == (a - Low64(b)) - q * 0x1_0000_0000_0000_0000;
  }
}
