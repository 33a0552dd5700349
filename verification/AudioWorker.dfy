/** The worker with its two rings, its flag and its counters, changed under one lock. */
module AudioWorker {
  import opened Bytes
  import opened VRing
  import Spec = AudioWorkerSpec

  class AudioWorker {
    const inRing: VRing
    const outRing: VRing
    var stop: bool
    var phase: Spec.Phase
    var inDropped: nat
    var outDropped: nat
    ghost var accepted: seq<seq<byte>>
    ghost var taken: seq<seq<byte>>
    ghost var produced: seq<seq<byte>>
    ghost var delivered: seq<seq<byte>>
    ghost var refusedIn: nat
    ghost var refusedOut: nat

    ghost function Abs(): Spec.State
      reads this, inRing, inRing.buf, outRing, outRing.buf
    {
      Spec.State(inRing.Contents(), outRing.Contents(), stop, phase, inDropped, outDropped,
                 accepted, taken, produced, delivered, refusedIn, refusedOut)
    }

    ghost predicate Valid()
      reads this, inRing, inRing.buf, outRing, outRing.buf
    {
      && inRing != outRing && inRing.buf != outRing.buf
      && inRing.Valid() && outRing.Valid() && Spec.Inv(Abs())
    }

    constructor ()
      ensures Valid() && Abs() == Spec.INITIAL
      ensures fresh(inRing) && fresh(inRing.buf) && fresh(outRing) && fresh(outRing.buf)
    {
      inRing := new VRing(Spec.IN_ARENA);
      outRing := new VRing(Spec.OUT_ARENA);
      stop, phase, inDropped, outDropped := false, Spec.Waiting, 0, 0;
      accepted, taken, produced, delivered, refusedIn, refusedOut := [], [], [], [], 0, 0;
    }

    /** Offers one AAC frame; a full ring drops it and counts the drop. */
    method Push(aac: seq<byte>) returns (ok: bool)
      requires Valid()
      modifies `accepted, `inDropped, `refusedIn, inRing, inRing.buf
      ensures Valid() && Abs() == Spec.Push(old(Abs()), aac)
      ensures ok == (Spec.FrameOk(aac) && Fits(old(inRing.Contents()), aac))
    {
      if |aac| == 0 || |aac| > Spec.AAC_MAX { return false; }
      Spec.NextKeepsInv(Abs(), Spec.SPush(aac));
      hide Spec.Inv;
      ok := PushIn(aac);
    }

    method PushIn(aac: seq<byte>) returns (ok: bool)
      requires inRing != outRing && inRing.buf != outRing.buf && inRing.Valid() && Spec.FrameOk(aac)
      modifies `accepted, `inDropped, `refusedIn, inRing, inRing.buf
      ensures inRing.Valid() && Abs() == Spec.Push(old(Abs()), aac)
      ensures ok == Fits(old(inRing.Contents()), aac)
    {
      ok := inRing.Push(aac);
      if ok {
        accepted := accepted + [aac];
      } else {
        inDropped := Low32(inDropped + 1);
        refusedIn := refusedIn + 1;
      }
    }

    /** The thread's locked section; the result of the pop is not looked at. */
    method Take()
      requires Valid() && phase == Spec.Waiting
      modifies `phase, `taken, inRing
      ensures Valid() && Abs() == Spec.Take(old(Abs()))
    {
      Spec.NextKeepsInv(Abs(), Spec.STake);
      inRing.EmptyMeansNoItems();
      if !stop && inRing.Empty() { return; }
      if stop {
        phase := Spec.Stopped;
        return;
      }
      ghost var front := inRing.items[0];
      assert front in inRing.items;
      var _, aac := inRing.Pop(Spec.AAC_MAX);
      taken := taken + [front];
      phase := Spec.Busy(aac);
    }

    /** The transcoder hands over one Opus packet. */
    method Emit(opus: seq<byte>) returns (ok: bool)
      requires Valid() && phase.Busy?
      modifies `produced, `outDropped, `refusedOut, outRing, outRing.buf
      ensures Valid() && Abs() == Spec.Emit(old(Abs()), opus)
      ensures ok == Spec.PacketOk(opus)
    {
      if |opus| == 0 || |opus| > Spec.OPUS_MAX { return false; }
      Spec.NextKeepsInv(Abs(), Spec.SEmit(opus));
      hide Spec.Inv;
      PushOut(opus);
      return true;
    }

    method PushOut(opus: seq<byte>)
      requires inRing != outRing && inRing.buf != outRing.buf && outRing.Valid() && phase.Busy? && Spec.PacketOk(opus)
      modifies `produced, `outDropped, `refusedOut, outRing, outRing.buf
      ensures outRing.Valid() && Abs() == Spec.Emit(old(Abs()), opus)
    {
      var pushed := outRing.Push(opus);
      if pushed {
        produced := produced + [opus];
      } else {
        outDropped := Low32(outDropped + 1);
        refusedOut := refusedOut + 1;
      }
    }

    /** One locked section of the drain loop; the loop ends when it finds nothing. */
    method DrainOne() returns (ok: bool, opus: seq<byte>)
      requires Valid()
      modifies `delivered, outRing
      ensures Valid() && Abs() == Spec.DrainOne(old(Abs()))
      ensures ok <==> old(outRing.items) != []
      ensures ok ==> opus == old(outRing.items)[0]
    {
      Spec.NextKeepsInv(Abs(), Spec.SDrainOne);
      if outRing.items != [] { assert outRing.items[0] in outRing.items; }
      hide Spec.Inv;
      ok, opus := PopOut();
    }

    method PopOut() returns (ok: bool, opus: seq<byte>)
      requires inRing != outRing && inRing.buf != outRing.buf && outRing.Valid()
      requires outRing.items != [] ==> |outRing.items[0]| <= Spec.OPUS_MAX
      modifies `delivered, outRing
      ensures outRing.Valid() && Abs() == Spec.DrainOne(old(Abs()))
      ensures ok <==> old(outRing.items) != []
      ensures ok ==> opus == old(outRing.items)[0]
    {
      ok, opus := outRing.Pop(Spec.OPUS_MAX);
      if ok { delivered := delivered + [opus]; }
    }

    method Stop()
      requires Valid()
      modifies `stop
      ensures Valid() && Abs() == old(Abs()).(stop := true)
    {
      stop := true;
    }
  }
}
