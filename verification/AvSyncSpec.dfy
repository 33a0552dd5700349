/**
 The mapping from media timestamps to the wall clock: two sender reports anchor a line with an
 exact rational slope, and timestamps are compared by wrap-aware signed distance.
 */
module AvSyncSpec {
  import opened Options
  import opened Arith
  import opened Bytes

  const TWO_31 := 0x8000_0000
  /** The distance from `b` to `a` read as a signed 32-bit number. */
  function Delta(a: nat, b: nat): int {
    var d := Low32(a - b);
    if d < TWO_31 then d else d - U32
  }

  lemma DeltaIsAntisymmetric(a: nat, b: nat)
    ensures -TWO_31 <= Delta(a, b) < TWO_31
    ensures Delta(a, b) != -TWO_31 ==> Delta(b, a) == -Delta(a, b)
    ensures a < U32 && b < U32 && Delta(a, b) == 0 ==> a == b
  {
  }

  datatype Clock = Clock(hasAnchor: bool, hasSlope: bool, ntpCur: nat, rtpCur: nat, ntpPrev: nat, rtpPrev: nat, num: nat, den: nat)

  const START := Clock(false, false, 0, 0, 0, 0, 0, 0)

  function Calibrate(c: Clock, ntpPrev: nat, rtpPrev: nat, ntpCur: nat, rtpCur: nat, drtp: nat): Clock
    requires ntpPrev <= ntpCur
  {
    Clock(c.hasAnchor, true, ntpCur, rtpCur, ntpPrev, rtpPrev, ntpCur - ntpPrev, drtp)
  }

  function OnReport(c: Clock, ntp: nat, rtp: nat): Clock {
    if !c.hasAnchor then c.(hasAnchor := true, ntpCur := ntp, rtpCur := rtp)
    else if ntp == c.ntpCur then c
    else if ntp < c.ntpCur then
      var d := Delta(c.rtpCur, rtp);
      if d <= 0 then c else Calibrate(c, ntp, rtp, c.ntpCur, c.rtpCur, d)
    else
      var d := Delta(rtp, c.rtpCur);
      if d <= 0 then c else Calibrate(c, c.ntpCur, c.rtpCur, ntp, rtp, d)
  }

  /** The two anchors determine the slope, and the later one is the reference. */
  predicate Inv(c: Clock) {
    && c.ntpCur < U64 && c.rtpCur < U32 && c.rtpPrev < U32
    && (c.hasSlope ==>
          c.hasAnchor && c.ntpPrev < c.ntpCur && c.num == c.ntpCur - c.ntpPrev && c.den == Delta(c.rtpCur, c.rtpPrev) > 0)
  }

  datatype Report = Report(ntp: nat, rtp: nat)

  predicate InRange(rs: seq<Report>) { forall r :: r in rs ==> r.ntp < U64 && r.rtp < U32 }

  function Run(rs: seq<Report>): Clock {
    if rs == [] then START else OnReport(Run(rs[..|rs| - 1]), rs[|rs| - 1].ntp, rs[|rs| - 1].rtp)
  }

  lemma {:induction false} RunKeepsInv(rs: seq<Report>)
    requires InRange(rs)
    ensures Inv(Run(rs))
  {
    if rs != [] {
      assert rs[|rs| - 1] in rs;
      RunKeepsInv(rs[..|rs| - 1]);
    }
  }

  /** Late and duplicate reports included, the reference time of a run never goes back. */
  lemma {:induction false} ReferenceNeverRegresses(rs: seq<Report>, i: nat)
    requires i <= |rs|
    ensures Run(rs[..i]).hasAnchor ==> Run(rs).hasAnchor && Run(rs[..i]).ntpCur <= Run(rs).ntpCur
    decreases |rs|
  {
    if i == |rs| {
      assert rs[..i] == rs;
    } else {
      ReferenceNeverRegresses(rs[..|rs| - 1], i);
      assert rs[..|rs| - 1][..i] == rs[..i];
    }
  }

  /** The reference is the first report or one that moved both clocks forward. */
  lemma ReferenceMovesForward(c: Clock, ntp: nat, rtp: nat)
    requires Inv(c) && ntp < U64 && rtp < U32
    ensures var n := OnReport(c, ntp, rtp);
      (n.ntpCur, n.rtpCur) == (c.ntpCur, c.rtpCur)
      || ((n.ntpCur, n.rtpCur) == (ntp, rtp) && (c.hasAnchor ==> ntp > c.ntpCur && Delta(rtp, c.rtpCur) > 0))
  {
  }

  // ---------------------------------------------------------------- the line

  /** The point of the line `delta` timestamp ticks from the reference, rounded towards it. */
  function LineAt(c: Clock, delta: int): int
    requires c.den > 0
  {
    if delta >= 0 then c.ntpCur + delta * c.num / c.den else c.ntpCur - -delta * c.num / c.den
  }

  function Map(c: Clock, rtp: nat): Option<nat>
    requires c.hasSlope ==> c.den > 0
  {
    if !c.hasSlope then None else Some(Low64(LineAt(c, Delta(rtp, c.rtpCur))))
  }

  lemma QuotientOfProduct(a: nat, d: nat)
    requires d > 0
    ensures d * a / d == a
  {
    QuotientUnique(d * a, d, a, 0);
  }

  lemma LineAtAnchors(c: Clock)
    requires c.den > 0
    ensures LineAt(c, 0) == c.ntpCur && LineAt(c, 0 - c.den) == c.ntpCur - c.num
  {
    QuotientOfProduct(c.num, c.den);
    assert 0 * c.num == 0;
    assert c.den * c.num / c.den == c.num;
  }

  /** Both anchors are on the line, exactly. */
  lemma MapHitsAnchors(c: Clock)
    requires Inv(c) && c.hasSlope
    ensures Map(c, c.rtpCur) == Some(c.ntpCur) && Map(c, c.rtpPrev) == Some(c.ntpPrev)
  {
    DeltaIsAntisymmetric(c.rtpCur, c.rtpPrev);
    assert Delta(c.rtpPrev, c.rtpCur) == 0 - c.den && Delta(c.rtpCur, c.rtpCur) == 0;
    LineAtAnchors(c);
    hide LineAt, Delta;
  }

  /** The rounding costs less than one tick, on the reference's side: the line is within 1 of the exact rational value. */
  lemma LineIsClose(c: Clock, delta: int)
    requires c.den > 0
    ensures 0 - c.den < c.den * (LineAt(c, delta) - c.ntpCur) - delta * c.num < c.den
    ensures if delta >= 0 then c.den * (LineAt(c, delta) - c.ntpCur) <= delta * c.num
            else c.den * (LineAt(c, delta) - c.ntpCur) >= delta * c.num
  {
    var a := if delta >= 0 then delta else -delta;
    MulNat(a, c.num);
    var p := a * c.num;
    assert p == c.den * (p / c.den) + p % c.den;
    if delta < 0 {
      assert delta * c.num == -p;
      assert c.den * -(p / c.den) == -(c.den * (p / c.den));
    }
  }

  lemma MulNat(a: nat, b: nat)
    ensures a * b >= 0
  {
  }

  lemma QuotientGrows(p: nat, q: nat, d: nat)
    requires p <= q && d > 0
    ensures p / d <= q / d
  {
    assert p == d * (p / d) + p % d && q == d * (q / d) + q % d;
    if p / d > q / d { MulStep(d, q / d, p / d); }
  }

  /** Later timestamps never map to an earlier time. */
  lemma LineIsMonotone(c: Clock, d: int, e: int)
    requires c.den > 0 && d <= e
    ensures LineAt(c, d) <= LineAt(c, e)
  {
    if d >= 0 {
      MulMono(c.num, d, e);
      MulNat(d, c.num);
      QuotientGrows(d * c.num, e * c.num, c.den);
    } else if e < 0 {
      MulMono(c.num, -e, -d);
      MulNat(-e, c.num);
      QuotientGrows(-e * c.num, -d * c.num, c.den);
    } else {
      MulNat(-d, c.num);
      MulNat(e, c.num);
      QuotientGrows(0, -d * c.num, c.den);
      QuotientGrows(0, e * c.num, c.den);
    }
  }

  /** The map gives the line's value exactly when that value fits the 64-bit clock. */
  lemma MapIsExactIffItFits(c: Clock, rtp: nat)
    requires Inv(c) && c.hasSlope
    ensures Map(c, rtp) == Some(LineAt(c, Delta(rtp, c.rtpCur))) <==> 0 <= LineAt(c, Delta(rtp, c.rtpCur)) < U64
  {
    hide LineAt, Delta;
  }

  /** Where the line fits the clock, the map is monotone in signed timestamp distance. */
  lemma MapIsMonotone(c: Clock, rtp: nat, rtp': nat)
    requires Inv(c) && c.hasSlope && Delta(rtp, c.rtpCur) <= Delta(rtp', c.rtpCur)
    requires 0 <= LineAt(c, Delta(rtp, c.rtpCur)) && LineAt(c, Delta(rtp', c.rtpCur)) < U64
    ensures Map(c, rtp).Some? && Map(c, rtp').Some? && Map(c, rtp).value <= Map(c, rtp').value
  {
    hide LineAt, Delta, Map, Low64;
    LineIsMonotone(c, Delta(rtp, c.rtpCur), Delta(rtp', c.rtpCur));
    MapIsExactIffItFits(c, rtp);
    MapIsExactIffItFits(c, rtp');
  }

  /** An accepted forward report becomes the reference, and its new line still holds the old one. */
  lemma ForwardKeepsReference(c: Clock, ntp: nat, rtp: nat)
    requires Inv(c) && c.hasAnchor && c.ntpCur < ntp < U64 && rtp < U32 && Delta(rtp, c.rtpCur) > 0
    ensures var n := OnReport(c, ntp, rtp);
      Inv(n) && n.hasSlope && Map(n, rtp) == Some(ntp) && Map(n, c.rtpCur) == Some(c.ntpCur)
  {
    MapHitsAnchors(OnReport(c, ntp, rtp));
  }

  /** The report is later on both clocks, the timestamp by less than half its circle. */
  predicate IsForward(c: Clock, ntp: nat, rtp: nat) { ntp > c.ntpCur && 0 < Low32(rtp - c.rtpCur) < 0x8000_0000 }

  /** The report is earlier on both clocks. */
  predicate IsLate(c: Clock, ntp: nat, rtp: nat) { ntp < c.ntpCur && 0 < Low32(c.rtpCur - rtp) < 0x8000_0000 }

  /** The first report is the reference, and makes no line yet. */
  lemma FirstReportAnchors(c: Clock, ntp: nat, rtp: nat)
    requires Inv(c) && !c.hasAnchor
    ensures OnReport(c, ntp, rtp) == c.(hasAnchor := true, ntpCur := ntp, rtpCur := rtp) && !OnReport(c, ntp, rtp).hasSlope
  {
    hide Delta;
  }

  /** A forward report becomes the reference, a late one leaves it, and either way the new line holds both; no other report changes anything. */
  lemma ReportMovesExactly(c: Clock, ntp: nat, rtp: nat)
    requires Inv(c) && c.hasAnchor && ntp < U64 && rtp < U32
    ensures var n := OnReport(c, ntp, rtp);
      && n.ntpCur == (if IsForward(c, ntp, rtp) then ntp else c.ntpCur)
      && n.rtpCur == (if IsForward(c, ntp, rtp) then rtp else c.rtpCur)
      && (!IsForward(c, ntp, rtp) && !IsLate(c, ntp, rtp) ==> n == c)
      && (IsForward(c, ntp, rtp) || IsLate(c, ntp, rtp) ==>
            Inv(n) && n.hasSlope && Map(n, rtp) == Some(ntp) && Map(n, c.rtpCur) == Some(c.ntpCur))
  {
    DeltaIsAhead(rtp, c.rtpCur);
    DeltaIsAhead(c.rtpCur, rtp);
    ReportKeepsInv(c, ntp, rtp);
    hide Delta, Low32, Map;
    if IsForward(c, ntp, rtp) || IsLate(c, ntp, rtp) { MapHitsAnchors(OnReport(c, ntp, rtp)); }
  }

  lemma DeltaIsAhead(a: nat, b: nat)
    ensures Delta(a, b) > 0 <==> 0 < Low32(a - b) < 0x8000_0000
  {
  }

  lemma ReportKeepsInv(c: Clock, ntp: nat, rtp: nat)
    requires Inv(c) && ntp < U64 && rtp < U32
    ensures Inv(OnReport(c, ntp, rtp))
  {
    hide Delta;
  }
}
