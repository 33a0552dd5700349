/** RTP packets of the H.264 path, and the header extension stamped on them and stripped off them. */
module RtpSpec {
  // Fixed header, fragmentation units (RFC 6184 section 5.8) and aggregation packets (section 5.7.1).
  // Bit masks are written as divisions and remainders by powers of two.

  import opened Arith
  import opened Bytes

  const H264_MTU := 1200

  datatype Fields = Fields(seq16: nat, timestamp: nat, ssrc: nat, pt: nat)

  predicate FieldsOk(f: Fields) { f.seq16 < U16 && f.timestamp < U32 && f.ssrc < U32 && f.pt < 256 }

  function Header(f: Fields, marker: bool): (r: seq<byte>)
    requires FieldsOk(f)
    ensures |r| == HEADER
  {
    [0x80, f.pt % 128 + (if marker then 128 else 0)] + Be16(f.seq16) + Be32(f.timestamp) + Be32(f.ssrc)
  }

  predicate Marker(p: seq<byte>) requires |p| >= 2 { p[1] >= 128 }

  function Seq16(p: seq<byte>): nat requires |p| >= 4 { Read16(p, 2) }

  // ---------------------------------------------------------------- fragmentation

  function FuIndicator(nal: byte): byte { nal / 32 * 32 + 28 }

  function FuHeader(nal: byte, start: bool, end: bool): byte {
    nal % 32 + (if start then 128 else 0) + (if end then 64 else 0)
  }

  function FuCount(left: nat, mtu: nat): (r: nat)
    requires left > 0 && mtu > 0
    ensures r >= 1
  {
    1 + (left - 1) / mtu
  }

  function Advanced(f: Fields, n: nat): Fields { f.(seq16 := Low16(f.seq16 + n)) }

  function Fragment(nal: byte, chunk: seq<byte>, start: bool, end: bool, f: Fields, marker: bool): (r: seq<byte>)
    requires FieldsOk(f)
    ensures |r| == HEADER + 2 + |chunk|
  {
    Header(f, marker && end) + [FuIndicator(nal), FuHeader(nal, start, end)] + chunk
  }

  /** The fragments of `rest`, the payload that is still to be sent of a unit with header `nal`. */
  function Fragments(nal: byte, rest: seq<byte>, first: bool, f: Fields, mtu: nat, marker: bool): seq<seq<byte>>
    requires rest != [] && mtu > 0 && FieldsOk(f)
    decreases |rest|
  {
    if |rest| <= mtu then [Fragment(nal, rest, first, true, f, marker)]
    else
      var p := Fragment(nal, rest[..mtu], first, false, f, marker);
      [p] + Fragments(nal, rest[mtu..], false, Advanced(f, 1), mtu, marker)
  }

  function FuA(nalu: seq<byte>, f: Fields, mtu: nat, marker: bool): seq<seq<byte>>
    requires |nalu| >= 2 && mtu > 0 && FieldsOk(f)
  {
    Fragments(nalu[0], nalu[1..], true, f, mtu, marker)
  }

  // What a receiver reads from one fragment.
  predicate IsFuA(p: seq<byte>) { |p| >= HEADER + 2 && p[HEADER] % 32 == 28 }

  predicate FuStart(p: seq<byte>) requires IsFuA(p) { p[HEADER + 1] >= 128 }

  predicate FuEnd(p: seq<byte>) requires IsFuA(p) { p[HEADER + 1] / 64 % 2 == 1 }

  function FuNal(p: seq<byte>): byte requires IsFuA(p) { p[HEADER] / 32 * 32 + p[HEADER + 1] % 32 }

  function Body(p: seq<byte>): seq<byte> { if |p| >= HEADER + 2 then p[HEADER + 2..] else [] }

  function Bodies(packets: seq<seq<byte>>): seq<byte> {
    if packets == [] then [] else Body(packets[0]) + Bodies(packets[1..])
  }

  predicate PieceOk(packets: seq<seq<byte>>, i: nat, nal: byte)
    requires i < |packets|
  {
    var p := packets[i];
    && IsFuA(p) && FuNal(p) == nal
    && (FuStart(p) <==> i == 0) && (FuEnd(p) <==> i == |packets| - 1)
    && |packets[0]| >= HEADER && Seq16(p) == Low16(Seq16(packets[0]) + i)
  }

  /** Reassembly per section 5.8 of RFC 6184: the first packet starts the unit, only the last ends it. */
  predicate Reassembles(packets: seq<seq<byte>>, nalu: seq<byte>) {
    && packets != [] && nalu != []
    && (forall i :: 0 <= i < |packets| ==> PieceOk(packets, i, nalu[0]))
    && nalu[1..] == Bodies(packets)
  }

  /** Fragment `i` of a unit in flight. */
  predicate FragmentOk(p: seq<byte>, nal: byte, f: Fields, i: nat, starts: bool, ends: bool, marker: bool) {
    && IsFuA(p) && FuNal(p) == nal && Seq16(p) == Low16(f.seq16 + i)
    && (FuStart(p) <==> starts) && (FuEnd(p) <==> ends) && (Marker(p) <==> marker && ends)
  }

  lemma OneFragment(nal: byte, f: Fields, start: bool, end: bool, marker: bool, chunk: seq<byte>)
    requires FieldsOk(f)
    ensures var p := Fragment(nal, chunk, start, end, f, marker);
      FragmentOk(p, nal, f, 0, start, end, marker) && Body(p) == chunk
  {
    var p := Fragment(nal, chunk, start, end, f, marker);
    assert p[2..4] == Be16(f.seq16);
    Read16Of(p, 2, f.seq16);
  }

  predicate FragmentOkAt(r: seq<seq<byte>>, i: nat, nal: byte, f: Fields, first: bool, marker: bool)
    requires i < |r|
  {
    FragmentOk(r[i], nal, f, i, first && i == 0, i == |r| - 1, marker)
  }

  /** A fragment in front of good ones. */
  lemma ConsFragment(p: seq<byte>, t: seq<seq<byte>>, nal: byte, f: Fields, first: bool, marker: bool)
    requires t != [] && FieldsOk(f) && FragmentOk(p, nal, f, 0, first, false, marker)
    requires forall i :: 0 <= i < |t| ==> FragmentOkAt(t, i, nal, Advanced(f, 1), false, marker)
    ensures forall i :: 0 <= i < |t| + 1 ==> FragmentOkAt([p] + t, i, nal, f, first, marker)
  {
    forall i | 0 <= i < |t| + 1 ensures FragmentOkAt([p] + t, i, nal, f, first, marker) {
      if i > 0 { assert FragmentOkAt(t, i - 1, nal, Advanced(f, 1), false, marker); }
    }
  }

  lemma {:induction false} FragmentsOk(nal: byte, rest: seq<byte>, first: bool, f: Fields, mtu: nat, marker: bool)
    requires rest != [] && mtu > 0 && FieldsOk(f)
    ensures var r := Fragments(nal, rest, first, f, mtu, marker);
      r != [] && forall i :: 0 <= i < |r| ==> FragmentOkAt(r, i, nal, f, first, marker)
    decreases |rest|
  {
    if |rest| <= mtu {
      OneFragment(nal, f, first, true, marker, rest);
    } else {
      var p := Fragment(nal, rest[..mtu], first, false, f, marker);
      OneFragment(nal, f, first, false, marker, rest[..mtu]);
      FragmentsOk(nal, rest[mtu..], false, Advanced(f, 1), mtu, marker);
      ConsFragment(p, Fragments(nal, rest[mtu..], false, Advanced(f, 1), mtu, marker), nal, f, first, marker);
    }
  }

  lemma FragmentBody(nal: byte, f: Fields, start: bool, end: bool, marker: bool, chunk: seq<byte>)
    requires FieldsOk(f)
    ensures Body(Fragment(nal, chunk, start, end, f, marker)) == chunk
  {
  }

  lemma BodiesCons(p: seq<byte>, t: seq<seq<byte>>)
    ensures Bodies([p] + t) == Body(p) + Bodies(t)
  {
    assert ([p] + t)[1..] == t;
  }

  lemma {:induction false} FragmentsCover(nal: byte, rest: seq<byte>, first: bool, f: Fields, mtu: nat, marker: bool)
    requires rest != [] && mtu > 0 && FieldsOk(f)
    ensures var r := Fragments(nal, rest, first, f, mtu, marker); |r| == FuCount(|rest|, mtu) && Bodies(r) == rest
    decreases |rest|
  {
    hide Fragment;
    if |rest| <= mtu {
      QuotientUnique(|rest| - 1, mtu, 0, |rest| - 1);
      FragmentBody(nal, f, first, true, marker, rest);
      BodiesCons(Fragment(nal, rest, first, true, f, marker), []);
    } else {
      var p := Fragment(nal, rest[..mtu], first, false, f, marker);
      var t := Fragments(nal, rest[mtu..], false, Advanced(f, 1), mtu, marker);
      FragmentsCover(nal, rest[mtu..], false, Advanced(f, 1), mtu, marker);
      QuotientShrinks(|rest| - 1, mtu);
      FragmentBody(nal, f, first, false, marker, rest[..mtu]);
      BodiesCons(p, t);
      assert rest == rest[..mtu] + rest[mtu..];
    }
  }

  /**
   Fragmentation is lossless: every unit of two bytes or more comes back under every positive
   limit, in ceil((len - 1) / mtu) packets of consecutive sequence numbers; START is on the first
   only, END and the marker on the last only.
   */
  lemma FuARoundTrip(nalu: seq<byte>, f: Fields, mtu: nat, marker: bool)
    requires |nalu| >= 2 && mtu > 0 && FieldsOk(f)
    ensures var r := FuA(nalu, f, mtu, marker);
      && Reassembles(r, nalu)
      && |r| == (|nalu| - 1 + mtu - 1) / mtu
      && |r[0]| >= 4 && Seq16(r[0]) == f.seq16
      && (forall i :: 0 <= i < |r| ==> |r[i]| >= 2 && (Marker(r[i]) <==> marker && i == |r| - 1))
  {
    var r := FuA(nalu, f, mtu, marker);
    FragmentsOk(nalu[0], nalu[1..], true, f, mtu, marker);
    FragmentsCover(nalu[0], nalu[1..], true, f, mtu, marker);
    QuotientShrinks(|nalu| - 1 + mtu - 1, mtu);
    OkReassembles(r, nalu, f, marker);
  }

  lemma OkReassembles(r: seq<seq<byte>>, nalu: seq<byte>, f: Fields, marker: bool)
    requires nalu != [] && r != [] && FieldsOk(f) && Bodies(r) == nalu[1..]
    requires forall i :: 0 <= i < |r| ==> FragmentOkAt(r, i, nalu[0], f, true, marker)
    ensures Reassembles(r, nalu) && |r[0]| >= 4 && Seq16(r[0]) == f.seq16
    ensures forall i :: 0 <= i < |r| ==> |r[i]| >= 2 && (Marker(r[i]) <==> marker && i == |r| - 1)
  {
    FragmentIsPiece(r, 0, nalu[0], f, marker);
    forall i | 0 <= i < |r| ensures PieceOk(r, i, nalu[0]) && |r[i]| >= 2 && (Marker(r[i]) <==> marker && i == |r| - 1) {
      FragmentIsPiece(r, i, nalu[0], f, marker);
    }
    hide PieceOk, Marker, Seq16;
  }

  lemma FragmentIsPiece(r: seq<seq<byte>>, i: nat, nal: byte, f: Fields, marker: bool)
    requires FieldsOk(f) && i < |r| && FragmentOkAt(r, i, nal, f, true, marker) && FragmentOkAt(r, 0, nal, f, true, marker)
    ensures PieceOk(r, i, nal) && |r[i]| >= 2 && (Marker(r[i]) <==> marker && i == |r| - 1)
    ensures |r[0]| >= 4 && Seq16(r[0]) == f.seq16
  {
    hide FuNal, FuStart, FuEnd, Marker;
  }

  // ---------------------------------------------------------------- aggregation

  function StapBody(nalus: seq<seq<byte>>): seq<byte>
    requires forall x :: x in nalus ==> |x| < U16
  {
    if nalus == [] then []
    else
      assert nalus[0] in nalus;
      Be16(|nalus[0]|) + nalus[0] + StapBody(nalus[1..])
  }

  function StapLength(nalus: seq<seq<byte>>): nat {
    if nalus == [] then 0 else 2 + |nalus[0]| + StapLength(nalus[1..])
  }

  /** `octet` is what lies at the first unit's address: its first octet, unless the unit is empty. */
  predicate OctetAt(nalus: seq<seq<byte>>, octet: byte) { nalus != [] && nalus[0] != [] ==> octet == nalus[0][0] }

  function StapA(nalus: seq<seq<byte>>, octet: byte, f: Fields): seq<byte>
    requires FieldsOk(f) && forall x :: x in nalus ==> |x| < U16
  {
    Header(f, false) + [octet / 32 * 32 + 24] + StapBody(nalus)
  }

  /** What a receiver takes out of an aggregation payload (RFC 6184 section 5.7.1). */
  function Unpack(body: seq<byte>): seq<seq<byte>>
    decreases |body|
  {
    if |body| < 2 || |body| < 2 + Read16(body, 0) then []
    else [body[2..2 + Read16(body, 0)]] + Unpack(body[2 + Read16(body, 0)..])
  }

  lemma {:induction false} StapRoundTrip(nalus: seq<seq<byte>>)
    requires forall x :: x in nalus ==> |x| < U16
    ensures Unpack(StapBody(nalus)) == nalus && |StapBody(nalus)| == StapLength(nalus)
  {
    if nalus != [] {
      assert nalus[0] in nalus;
      StapRoundTrip(nalus[1..]);
      var b := StapBody(nalus);
      assert b[0..2] == Be16(|nalus[0]|);
      Read16Of(b, 0, |nalus[0]|);
      assert b[2 + |nalus[0]|..] == StapBody(nalus[1..]);
      assert b[2..2 + |nalus[0]|] == nalus[0];
    }
  }

  // ---------------------------------------------------------------- header extension

  predicate HasX(b: byte) { b / 16 % 2 == 1 }

  function SetX(b: byte): byte { if HasX(b) then b else b + 16 }

  /** End of header, sources and extension; none when the packet is too short for what it announces. */
  function PayloadAt(p: seq<byte>): (r: int)
    requires |p| >= HEADER
    ensures r == -1 || HEADER <= r <= |p|
  {
    var h := HEADER + 4 * (p[0] as int % 16);
    if HasX(p[0]) && h + 4 > |p| then -1
    else
      var e := if HasX(p[0]) then h + 4 + 4 * Read16(p, h + 2) else h;
      if e > |p| then -1 else e
  }

  datatype Stripped = BadPacket | Plain(p: seq<byte>)

  /** Contributing sources and the extension cut out, their header bits cleared. */
  function Strip(p: seq<byte>): Stripped {
    if |p| < HEADER || PayloadAt(p) < 0 then BadPacket
    else Plain([p[0] / 32 * 32] + p[1..HEADER] + p[PayloadAt(p)..])
  }

  /** The transport-wide-cc extension: one-byte form of RFC 8285, one word. */
  function Extension(id: nat, tseq: nat): (r: seq<byte>)
    requires 0 < id < 16 && tseq < U16
    ensures |r| == 8
  {
    [0xBE, 0xDE, 0, 1, id * 16 + 1] + Be16(tseq) + [0]
  }

  function Stamp(p: seq<byte>, id: nat, tseq: nat): (r: seq<byte>)
    requires |p| >= HEADER && 0 < id < 16 && tseq < U16
    ensures |r| == |p| + 8 && r[0] == SetX(p[0]) && r[1] == p[1]
  {
    [SetX(p[0])] + p[1..HEADER] + Extension(id, tseq) + p[HEADER..]
  }

  function WithPt(p: seq<byte>, pt: nat): seq<byte>
    requires |p| >= 2
  {
    if pt == 0 then p else p[1 := p[1] / 128 * 128 + pt % 128]
  }

  /** A stamp on a packet with nothing to strip is one extension word of which everything is cut out. */
  lemma StampedLayout(p: seq<byte>, id: nat, tseq: nat)
    requires |p| >= HEADER && 0 < id < 16 && tseq < U16 && p[0] % 32 == 0
    ensures var s := Stamp(p, id, tseq);
      s[0] == p[0] + 16 && PayloadAt(s) == HEADER + 8 && s[1..HEADER] == p[1..HEADER] && s[HEADER + 8..] == p[HEADER..]
  {
    var s := Stamp(p, id, tseq);
    assert s[14] == 0 && s[15] == 1;
  }

  lemma WithPtKeeps(s: seq<byte>, pt: nat)
    requires |s| >= HEADER
    ensures WithPt(s, pt)[0] == s[0] && WithPt(s, pt)[2..] == s[2..] && PayloadAt(WithPt(s, pt)) == PayloadAt(s)
  {
  }

  /** Stripping undoes a stamp, up to the payload type, exactly for packets that had nothing to strip. */
  lemma StripUndoesStamp(p: seq<byte>, id: nat, tseq: nat, pt: nat)
    requires |p| >= HEADER && 0 < id < 16 && tseq < U16
    ensures Strip(WithPt(Stamp(p, id, tseq), pt)) == Plain(WithPt(p, pt)) <==> p[0] % 32 == 0
  {
    hide Stamp, PayloadAt;
    var s := Stamp(p, id, tseq);
    var w := WithPt(s, pt);
    WithPtKeeps(s, pt);
    WithPtKeeps(p, pt);
    if p[0] % 32 == 0 {
      StampedLayout(p, id, tseq);
      assert w[1] == WithPt(p, pt)[1] && w[HEADER + 8..] == p[HEADER..];
      StripGives(w, WithPt(p, pt));
    } else if PayloadAt(w) >= 0 {
      assert Strip(w).p[0] == w[0] / 32 * 32;
    }
  }

  lemma StripGives(w: seq<byte>, q: seq<byte>)
    requires |w| >= |q| >= HEADER && PayloadAt(w) == |w| - |q| + HEADER
    requires w[0] / 32 * 32 == q[0] && w[1] == q[1] && w[2..HEADER] == q[2..HEADER] && w[PayloadAt(w)..] == q[HEADER..]
    ensures Strip(w) == Plain(q)
  {
    assert w[1..HEADER] == [w[1]] + w[2..HEADER];
    assert q == [q[0]] + ([q[1]] + q[2..HEADER]) + q[HEADER..];
  }

  /** A stripped packet has nothing left to strip, so the stamp put on it can be undone. */
  lemma StripIsIdempotent(p: seq<byte>)
    requires Strip(p).Plain?
    ensures Strip(Strip(p).p) == Strip(p) && Strip(p).p[0] % 32 == 0
  {
    var q := Strip(p).p;
    assert q[HEADER..] == p[PayloadAt(p)..];
    assert PayloadAt(q) == HEADER;
    assert [q[0]] + q[1..HEADER] + q[HEADER..] == q;
  }
}
