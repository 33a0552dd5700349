/** The packetizers and the stripper, with their loops and buffers. */
module Rtp {
  import opened Arith
  import opened Bytes
  import opened RtpSpec

  datatype Rc = Ok | Invalid | TooSmall | TooLarge | Parse | Refused(code: int)

  /** Fragments one unit; `rc(i)` is what the callback answers to packet `i`, 0 to go on. */
  method PacketizeFuA(nalu: seq<byte>, f: Fields, mtu: nat, marker: bool, scratchCap: nat, rc: nat -> int)
    returns (r: Rc, out: seq<seq<byte>>, seq16: nat)
    requires FieldsOk(f)
    ensures r == Invalid <==> |nalu| < 2 || mtu == 0
    ensures r == TooSmall <==> |nalu| >= 2 && mtu > 0 && scratchCap < HEADER + 2 + Chunk(|nalu| - 1, mtu)
    ensures r == Invalid || r == TooSmall ==> out == []
    ensures r == Ok ==> out == FuA(nalu, f, mtu, marker) && forall j: nat :: j < |out| ==> rc(j) == 0
    ensures r.Refused? ==>
              && 0 < |out| <= |FuA(nalu, f, mtu, marker)| && out == FuA(nalu, f, mtu, marker)[..|out|]
              && r.code == rc(|out| - 1) != 0 && forall j: nat :: j < |out| - 1 ==> rc(j) == 0
    ensures r == Ok || r == Invalid || r == TooSmall || r.Refused?
    ensures seq16 == Low16(f.seq16 + |out|)
  {
    if |nalu| < 2 || mtu == 0 { return Invalid, [], f.seq16; }
    r, out, seq16 := EmitFragments(nalu, f, mtu, marker, scratchCap, rc);
  }

  method EmitFragments(nalu: seq<byte>, f: Fields, mtu: nat, marker: bool, scratchCap: nat, rc: nat -> int)
    returns (r: Rc, out: seq<seq<byte>>, seq16: nat)
    requires FieldsOk(f) && |nalu| >= 2 && mtu > 0
    ensures r == Ok || r == TooSmall || r.Refused?
    ensures r == TooSmall <==> scratchCap < HEADER + 2 + Chunk(|nalu| - 1, mtu)
    ensures r == TooSmall ==> out == []
    ensures r == Ok ==> out == FuA(nalu, f, mtu, marker) && forall j: nat :: j < |out| ==> rc(j) == 0
    ensures r.Refused? ==>
              && 0 < |out| <= |FuA(nalu, f, mtu, marker)| && out == FuA(nalu, f, mtu, marker)[..|out|]
              && r.code == rc(|out| - 1) != 0 && forall j: nat :: j < |out| - 1 ==> rc(j) == 0
    ensures seq16 == Low16(f.seq16 + |out|)
  {
    out := [];
    var rest := nalu[1..];
    var num := FuCount(|rest|, mtu);
    ghost var all := FuA(nalu, f, mtu, marker);
    var cur := f;
    UnderwayAtFirst(nalu, f, mtu, marker);
    hide FuA, FuCount, Fragment, Underway, Advanced, Low16, FieldsOk;
    var i := 0;
    while i < num
      invariant i <= num && Underway(all, out, nalu, f, mtu, marker, num, i, rest, cur)
      invariant i == 0 ==> rest == nalu[1..]
      invariant i > 0 ==> scratchCap >= HEADER + 2 + Chunk(|nalu| - 1, mtu)
      invariant forall j: nat :: j < i ==> rc(j) == 0
    {
      UnderwayFits(all, out, nalu, f, mtu, marker, num, i, rest, cur);
      var chunk := Chunk(|rest|, mtu);
      if scratchCap < HEADER + 2 + chunk { return TooSmall, out, cur.seq16; }
      var p := Fragment(nalu[0], rest[..chunk], i == 0, i == num - 1, cur, marker);
      UnderwayStep(all, out, nalu, f, mtu, marker, num, i, rest, cur, p);
      cur := Advanced(cur, 1);
      out := out + [p];
      if rc(i) != 0 { return Refused(rc(i)), out, cur.seq16; }
      rest := rest[chunk..];
      i := i + 1;
    }
    UnderwayAtLast(all, out, nalu, f, mtu, marker, num, rest, cur);
    return Ok, out, cur.seq16;
  }

  /** After `i` of `num` fragments: what is out, what is left of the unit, and the fields of the next one. */
  predicate Underway(all: seq<seq<byte>>, out: seq<seq<byte>>, nalu: seq<byte>, f: Fields, mtu: nat, marker: bool,
                     num: nat, i: nat, rest: seq<byte>, cur: Fields)
    requires |nalu| >= 2 && mtu > 0
  {
    && |out| == i && FieldsOk(cur) && cur == Advanced(f, i)
    && |rest| <= |nalu| - 1
    && (i < num ==>
          rest != [] && FuCount(|rest|, mtu) == num - i && all == out + Fragments(nalu[0], rest, i == 0, cur, mtu, marker))
    && (i == num ==> all == out)
  }

  lemma UnderwayAtFirst(nalu: seq<byte>, f: Fields, mtu: nat, marker: bool)
    requires FieldsOk(f) && |nalu| >= 2 && mtu > 0
    ensures var rest := nalu[1..];
      Underway(FuA(nalu, f, mtu, marker), [], nalu, f, mtu, marker, FuCount(|rest|, mtu), 0, rest, f)
  {
    hide Fragments;
    assert Advanced(f, 0) == f;
    assert [] + FuA(nalu, f, mtu, marker) == FuA(nalu, f, mtu, marker);
  }

  lemma UnderwayFits(all: seq<seq<byte>>, out: seq<seq<byte>>, nalu: seq<byte>, f: Fields, mtu: nat, marker: bool,
                     num: nat, i: nat, rest: seq<byte>, cur: Fields)
    requires |nalu| >= 2 && mtu > 0 && i < num && Underway(all, out, nalu, f, mtu, marker, num, i, rest, cur)
    ensures rest != [] && |out| == i && FieldsOk(cur) && Chunk(|rest|, mtu) <= |rest| && Chunk(|rest|, mtu) <= Chunk(|nalu| - 1, mtu)
    ensures cur.seq16 == Low16(f.seq16 + i)
  {
    hide Fragments, FuCount, Low16;
  }

  lemma UnderwayStep(all: seq<seq<byte>>, out: seq<seq<byte>>, nalu: seq<byte>, f: Fields, mtu: nat, marker: bool,
                     num: nat, i: nat, rest: seq<byte>, cur: Fields, p: seq<byte>)
    requires |nalu| >= 2 && mtu > 0 && i < num && Underway(all, out, nalu, f, mtu, marker, num, i, rest, cur)
    requires FieldsOk(cur) && rest != []
    requires p == Fragment(nalu[0], rest[..Chunk(|rest|, mtu)], i == 0, i == num - 1, cur, marker)
    ensures Underway(all, out + [p], nalu, f, mtu, marker, num, i + 1, rest[Chunk(|rest|, mtu)..], Advanced(cur, 1))
    ensures i + 1 <= |all| && all[..i + 1] == out + [p]
    ensures Advanced(cur, 1).seq16 == Low16(f.seq16 + (i + 1))
  {
    LastExactly(|rest|, mtu);
    NextFragment(nalu[0], rest, i == 0, cur, mtu, marker, all, out, p);
    AdvancedStep(f, i);
    hide Fragment, Fragments, FuCount, Low16;
  }

  lemma UnderwayAtLast(all: seq<seq<byte>>, out: seq<seq<byte>>, nalu: seq<byte>, f: Fields, mtu: nat, marker: bool,
                       num: nat, rest: seq<byte>, cur: Fields)
    requires |nalu| >= 2 && mtu > 0 && Underway(all, out, nalu, f, mtu, marker, num, num, rest, cur)
    ensures all == out && |out| == num && cur.seq16 == Low16(f.seq16 + num)
  {
    hide Fragments, FuCount, Low16;
  }

  lemma AdvancedStep(f: Fields, i: nat)
    ensures Advanced(Advanced(f, i), 1) == Advanced(f, i + 1)
  {
    Low16Step(f.seq16 + i);
  }

  function Chunk(left: nat, mtu: nat): nat { if left < mtu then left else mtu }

  /** Taking one fragment off the front of what is left to send. */
  lemma NextFragment(nal: byte, rest: seq<byte>, first: bool, f: Fields, mtu: nat, marker: bool,
                     all: seq<seq<byte>>, out: seq<seq<byte>>, p: seq<byte>)
    requires rest != [] && mtu > 0 && FieldsOk(f)
    requires all == out + Fragments(nal, rest, first, f, mtu, marker)
    requires p == Fragment(nal, rest[..Chunk(|rest|, mtu)], first, |rest| <= mtu, f, marker)
    ensures |rest| <= mtu ==> all == out + [p]
    ensures |rest| > mtu ==>
              && all == out + [p] + Fragments(nal, rest[mtu..], false, Advanced(f, 1), mtu, marker)
              && FuCount(|rest|, mtu) == 1 + FuCount(|rest| - mtu, mtu)
    ensures all[..|out| + 1] == out + [p]
  {
    if |rest| <= mtu {
      assert rest[..|rest|] == rest;
    } else {
      QuotientShrinks(|rest| - 1, mtu);
      var t := Fragments(nal, rest[mtu..], false, Advanced(f, 1), mtu, marker);
      assert out + ([p] + t) == out + [p] + t;
    }
  }

  lemma LastExactly(n: nat, mtu: nat)
    requires n > 0 && mtu > 0
    ensures FuCount(n, mtu) == 1 <==> n <= mtu
  {
    if n <= mtu { QuotientUnique(n - 1, mtu, 0, n - 1); } else { QuotientShrinks(n - 1, mtu); }
  }

  /** Header, aggregation octet, and each unit behind its length. */
  method WriteStapA(nalus: seq<seq<byte>>, octet: byte, f: Fields) returns (p: seq<byte>)
    requires FieldsOk(f) && forall x :: x in nalus ==> |x| < U16
    ensures p == StapA(nalus, octet, f) && |p| == HEADER + 1 + StapLength(nalus)
    ensures p[HEADER] == octet / 32 * 32 + 24
  {
    p := Header(f, false) + [octet / 32 * 32 + 24];
    ghost var all := StapA(nalus, octet, f);
    StapRoundTrip(nalus);
    hide Header, StapA, Be16;
    var i := 0;
    while i < |nalus|
      invariant i <= |nalus| && p + StapBody(nalus[i..]) == all
    {
      assert nalus[i] in nalus && nalus[i..][0] == nalus[i] && nalus[i..][1..] == nalus[i + 1..];
      MoveOne(p, Be16(|nalus[i]|) + nalus[i], StapBody(nalus[i + 1..]));
      p := p + (Be16(|nalus[i]|) + nalus[i]);
      i := i + 1;
    }
    assert nalus[i..] == [] && p + [] == p;
  }

  lemma MoveOne(p: seq<byte>, a: seq<byte>, b: seq<byte>)
    ensures p + (a + b) == (p + a) + b
  {
  }

  /** Bundles small units into one packet; the callback's answer is returned as it is. */
  method PacketizeStapA(nalus: seq<seq<byte>>, octet: byte, f: Fields, scratchCap: nat, rc: nat -> int)
    returns (r: Rc, out: seq<seq<byte>>, seq16: nat)
    requires FieldsOk(f) && OctetAt(nalus, octet)
    ensures r == Invalid <==> nalus == []
    ensures r == TooLarge <==> nalus != [] && 1 + StapLength(nalus) > H264_MTU
    ensures r == TooSmall <==> nalus != [] && 1 + StapLength(nalus) <= H264_MTU && scratchCap < HEADER + 1 + StapLength(nalus)
    ensures r == Ok || r.Refused? ==>
              && (forall x :: x in nalus ==> |x| < U16)
              && out == [StapA(nalus, octet, f)] && seq16 == Low16(f.seq16 + 1)
              && |out[0]| == HEADER + 1 + StapLength(nalus)
              && (nalus[0] != [] ==> out[0][HEADER] == nalus[0][0] / 32 * 32 + 24)
              && (r == Ok <==> rc(0) == 0) && (r.Refused? ==> r.code == rc(0))
    ensures !(r == Ok || r.Refused?) ==> out == [] && seq16 == f.seq16 && (r == Invalid || r == TooLarge || r == TooSmall)
  {
    out, seq16 := [], f.seq16;
    if nalus == [] { return Invalid, out, seq16; }
    var length := 1;
    var i := 0;
    while i < |nalus|
      invariant i <= |nalus| && 1 <= length <= H264_MTU
      invariant 1 + StapLength(nalus) == length + StapLength(nalus[i..])
      invariant forall j :: 0 <= j < i ==> |nalus[j]| < U16
    {
      assert nalus[i..][0] == nalus[i] && nalus[i..][1..] == nalus[i + 1..];
      assert StapLength(nalus[i..]) == 2 + |nalus[i]| + StapLength(nalus[i + 1..]);
      if |nalus[i]| > 0xffff { return TooLarge, out, seq16; }
      length := length + 2 + |nalus[i]|;
      if length > H264_MTU { return TooLarge, out, seq16; }
      i := i + 1;
    }
    if scratchCap < HEADER + length { return TooSmall, out, seq16; }
    var p := WriteStapA(nalus, octet, f);
    seq16 := Low16(seq16 + 1);
    out := [p];
    return if rc(0) == 0 then Ok else Refused(rc(0)), out, seq16;
  }

  /** Where the payload starts; false when the packet is too short for what it announces. */
  method FindPayload(a: array<byte>, len: nat) returns (ok: bool, hdr: nat)
    requires HEADER <= len <= a.Length
    ensures ok == (PayloadAt(a[..len]) >= 0) && (ok ==> hdr == PayloadAt(a[..len]))
  {
    hdr := HEADER + 4 * (a[0] as int % 16);
    if HasX(a[0]) {
      if hdr + 4 > len { return false, hdr; }
      var words := a[hdr + 2] as int * 256 + a[hdr + 3] as int;
      hdr := hdr + 4 + 4 * words;
    }
    ok := hdr <= len;
  }

  /** Moves the payload down behind the fixed header. */
  method MoveDown(a: array<byte>, len: nat, hdr: nat) returns (newLen: nat)
    requires HEADER <= hdr <= len <= a.Length
    modifies a
    ensures newLen == HEADER + (len - hdr)
    ensures a[..newLen] == old(a[..HEADER]) + old(a[hdr..len])
  {
    newLen := HEADER + (len - hdr);
    ghost var was := a[..];
    if hdr != HEADER {
      forall i | 0 <= i < len - hdr { a[HEADER + i] := a[hdr + i]; }
    }
    assert forall i :: 0 <= i < HEADER ==> a[i] == was[i];
    assert forall i :: HEADER <= i < newLen ==> a[i] == was[hdr + (i - HEADER)];
    Moved(a[..newLen], was, len, hdr);
  }

  lemma Moved(b: seq<byte>, was: seq<byte>, len: nat, hdr: nat)
    requires HEADER <= hdr <= len <= |was| && |b| == HEADER + (len - hdr)
    requires forall i :: 0 <= i < HEADER ==> b[i] == was[i]
    requires forall i :: HEADER <= i < |b| ==> b[i] == was[hdr + (i - HEADER)]
    ensures b == was[..HEADER] + was[hdr..len]
  {
  }

  lemma FirstCleared(p: seq<byte>, b: seq<byte>, c: seq<byte>)
    requires |p| >= HEADER && PayloadAt(p) >= 0 && b == p[..HEADER] + p[PayloadAt(p)..]
    requires |c| == |b| && c[0] == b[0] / 32 * 32 && forall i :: 0 < i < |b| ==> c[i] == b[i]
    ensures Strip(p) == Plain(c)
  {
    var at := PayloadAt(p);
    hide PayloadAt;
    assert c == [p[0] / 32 * 32] + p[1..HEADER] + p[at..];
  }

  /** Cuts sources and extension out of the packet in `a[..len]`, in place. */
  method StripHeaderExt(a: array<byte>, len: nat) returns (ok: bool, newLen: nat)
    requires len <= a.Length
    modifies a
    ensures ok <==> old(Strip(a[..len])).Plain?
    ensures ok ==> newLen <= len && a[..newLen] == old(Strip(a[..len])).p
    ensures !ok ==> newLen == len && a[..] == old(a[..])
  {
    ghost var p := a[..len];
    if len < HEADER { return false, len; }
    hide PayloadAt;
    var hdr: nat;
    ok, hdr := FindPayload(a, len);
    if !ok { return false, len; }
    assert a[..HEADER] == p[..HEADER] && a[hdr..len] == p[hdr..];
    newLen := MoveDown(a, len, hdr);
    ghost var b := a[..newLen];
    a[0] := a[0] / 32 * 32;
    FirstCleared(p, b, a[..newLen]);
  }
}
