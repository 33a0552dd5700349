/** Control packets as the other side writes them, and the octets of those this side writes. */
module RtcpLaws {
  // RFC 3550 sections 6.4 and 6.5, RFC 4585 section 6.2.1, and the receiver estimated maximum bitrate message. The
  // packets of the other side are laid out here octet by octet.

  import opened Options
  import opened Results
  import opened Arith
  import opened Bytes
  import opened Octets
  import opened RtcpSpec
  import opened RtcpRoundTrip
  import T = TwccLaws
  import S = TwccSpec

  lemma NumberAt(p: seq<byte>, pre: seq<byte>, n: nat, rest: seq<byte>)
    requires n < U32 && p == pre + Be32(n) + rest
    ensures |p| >= |pre| + 4 && Number(p[|pre|..|pre| + 4]) == n
  {
    NumberOf4(n);
    assert p[|pre|..|pre| + 4] == Be32(n);
  }

  lemma NumberOf3(n: nat)
    requires n < 0x100_0000
    ensures Number([n / U16] + Be16(n % U16)) == n
  {
    NumberOfMore([n / U16], n % U16);
    assert [n / U16][..0] == [];
  }

  lemma NumberOf8(n: nat)
    requires n < U64
    ensures Number(Be32(n / U32) + Be32(n % U32)) == n
  {
    var a, m := Be32(n / U32), n % U32;
    NumberOf4(n / U32);
    NumberOfMore(a, m / U16);
    NumberOfMore(a + Be16(m / U16), m % U16);
    assert a + Be32(m) == a + Be16(m / U16) + Be16(m % U16);
  }

  // ---------------------------------------------------------------- what this side writes

  /** The report block at its place: source, fraction, 24 bits of losses, highest number, jitter, and the two times. */
  predicate BlockStands(p: seq<byte>, b: Block) {
    && |p| == 24
    && Number(p[0..4]) == b.ssrc && p[4] as nat == b.fraction && Number(p[5..8]) == b.lost
    && Number(p[8..12]) == b.highest && Number(p[12..16]) == b.jitter
    && Number(p[16..20]) == b.lsr && Number(p[20..24]) == b.dlsr
  }

  lemma BlockIsLaidOut(b: Block)
    requires BlockOk(b)
    ensures BlockStands(BlockBytes(b), b)
  {
    var s, l := Be32(b.ssrc), [b.lost / U16] + Be16(b.lost % U16);
    var p := BlockBytes(b);
    BlockInParts(s, b.fraction, b.lost / U16, Be16(b.lost % U16), Be32(b.highest), Be32(b.jitter), Be32(b.lsr), Be32(b.dlsr));
    NumberOf4(b.ssrc);
    NumberOf3(b.lost);
    NumberOf4(b.highest);
    NumberOf4(b.jitter);
    NumberOf4(b.lsr);
    NumberOf4(b.dlsr);
    hide Number, Be32, Be16;
  }

  lemma BlockInParts(a: seq<byte>, f: byte, l: byte, m: seq<byte>, h: seq<byte>, j: seq<byte>, x: seq<byte>, y: seq<byte>)
    requires |a| == |h| == |j| == |x| == |y| == 4 && |m| == 2
    ensures var p := a + [f, l] + m + h + j + x + y;
      && |p| == 24 && p[0..4] == a && p[4] == f && p[5..8] == [l] + m
      && p[8..12] == h && p[12..16] == j && p[16..20] == x && p[20..24] == y
  {
  }

  /** The head of a packet: version 2 without padding, count or format, type, and the length in words less one. */
  predicate HeadStands(p: seq<byte>, fmt: nat, typ: nat) {
    |p| >= 4 && |p| % 4 == 0 && p[0] as nat == 0x80 + fmt && p[1] as nat == typ && Number(p[2..4]) == |p| / 4 - 1
  }

  lemma HeadIsLaidOut(p: seq<byte>, typ: byte, fmt: nat, rest: seq<byte>)
    requires fmt < 32 && |p| % 4 == 0 && 4 <= |p| <= 0x4_0000 && p == Head(typ, fmt, |p|) + rest
    ensures HeadStands(p, fmt, typ as nat)
  {
    NumberOf2(|p| / 4 - 1);
    assert p[2..4] == Be16(|p| / 4 - 1);
  }

  function BlockTail(m: Message): seq<byte>
    requires MessageOk(m) && m.SenderReport?
  {
    if m.rb.Some? then BlockBytes(m.rb.value) else []
  }

  lemma ReportPieces(m: Message)
    requires MessageOk(m) && m.SenderReport?
    ensures var p := Encode(m);
      && |p| == 28 + |BlockTail(m)| && HeadStands(p, if m.rb.Some? then 1 else 0, 200)
      && p[4..8] == Be32(m.ssrc) && p[8..16] == Be32(m.ntp / U32) + Be32(m.ntp % U32) && p[16..20] == Be32(m.rtp)
      && p[20..24] == Be32(m.packets) && p[24..28] == Be32(m.octets) && p[28..] == BlockTail(m)
  {
    hide Be32, BlockBytes, Head, HeadStands;
    var fmt := if m.rb.Some? then 1 else 0;
    ReportInParts(Head(SR, fmt, Total(m)), Be32(m.ssrc), Be32(m.ntp / U32), Be32(m.ntp % U32), Be32(m.rtp), Be32(m.packets),
                  Be32(m.octets), BlockTail(m));
    HeadIsLaidOut(Encode(m), SR, fmt, Encode(m)[4..]);
  }

  /** A sender report by its octets. */
  lemma ReportIsLaidOut(m: Message)
    requires MessageOk(m) && m.SenderReport?
    ensures var p := Encode(m);
      && |p| == (if m.rb.Some? then 52 else 28) && HeadStands(p, if m.rb.Some? then 1 else 0, 200)
      && Number(p[4..8]) == m.ssrc && Number(p[8..16]) == m.ntp && Number(p[16..20]) == m.rtp
      && Number(p[20..24]) == m.packets && Number(p[24..28]) == m.octets
      && (m.rb.Some? ==> BlockStands(p[28..], m.rb.value))
  {
    ReportPieces(m);
    if m.rb.Some? { BlockIsLaidOut(m.rb.value); }
    NumberOf4(m.ssrc);
    NumberOf8(m.ntp);
    NumberOf4(m.rtp);
    NumberOf4(m.packets);
    NumberOf4(m.octets);
    hide Number, Be32, BlockBytes, BlockStands, HeadStands, Encode;
  }

  lemma ReportInParts(h: seq<byte>, a: seq<byte>, b: seq<byte>, c: seq<byte>, d: seq<byte>, e: seq<byte>, f: seq<byte>, tail: seq<byte>)
    requires |h| == |a| == |b| == |c| == |d| == |e| == |f| == 4
    ensures var p := h + a + b + c + d + e + f + tail;
      && |p| == 28 + |tail| && p == h + p[4..] && p[4..8] == a && p[8..16] == b + c && p[16..20] == d && p[20..24] == e
      && p[24..28] == f && p[28..] == tail
  {
  }

  /** A source description by its octets: one chunk with one name, ended and filled up with nulls. */
  lemma DescriptionIsLaidOut(m: Message)
    requires MessageOk(m) && m.SourceName?
    ensures var p, n := Encode(m), |m.cname|;
      && |p| > 10 + n && HeadStands(p, 1, 202) && Number(p[4..8]) == m.ssrc
      && p[8] == 1 && p[9] as nat == n && p[10..10 + n] == m.cname && (forall i :: 10 + n <= i < |p| ==> p[i] == 0)
  {
    var p := Encode(m);
    hide Number, Be32, Head, HeadStands;
    NameInParts(Head(SDES, 1, Total(m)), Be32(m.ssrc), CNAME, |m.cname|, m.cname, Nulls(Total(m) - 10 - |m.cname|));
    HeadIsLaidOut(p, SDES, 1, p[4..]);
    NumberOf4(m.ssrc);
  }

  lemma NameInParts(h: seq<byte>, a: seq<byte>, x: byte, y: byte, name: seq<byte>, end: seq<byte>)
    requires |h| == |a| == 4
    ensures var p := h + a + [x, y] + name + end;
      && |p| == 10 + |name| + |end| && p == h + p[4..] && p[4..8] == a && p[8] == x && p[9] == y
      && p[10..10 + |name|] == name && forall i :: 10 + |name| <= i < |p| ==> p[i] == end[i - 10 - |name|]
  {
  }

  /** A picture loss indication by its octets. */
  lemma PictureLossIsLaidOut(m: Message)
    requires MessageOk(m) && m.PictureLoss?
    ensures var p := Encode(m);
      |p| == 12 && HeadStands(p, 1, 206) && Number(p[4..8]) == m.ssrc && Number(p[8..12]) == m.media
  {
    var p := Encode(m);
    hide Number, Be32, Head, HeadStands;
    var h := Head(PSFB, 1, 12);
    assert p == h + (Be32(m.ssrc) + Be32(m.media));
    assert p[4..8] == Be32(m.ssrc) && p[8..12] == Be32(m.media);
    HeadIsLaidOut(p, PSFB, 1, Be32(m.ssrc) + Be32(m.media));
    NumberOf4(m.ssrc);
    NumberOf4(m.media);
  }

  // ---------------------------------------------------------------- what is refused

  /** The length in octets that a packet's head announces. */
  function Announced(mem: seq<byte>): nat
    requires |mem| >= 4
  {
    4 * (1 + mem[2] as nat * 256 + mem[3] as nat)
  }

  /** A body too short for its type and its count of blocks. */
  predicate TooShort(typ: nat, count: nat, total: nat) {
    || (typ == 200 && total < (if count > 0 then 52 else 28))
    || (typ == 201 && count > 0 && total < 32)
    || (typ == 202 && total < 8)
    || ((typ == 205 || typ == 206) && total < 12)
  }

  /** An estimate that is cut off before its sources end. */
  predicate CutEstimate(mem: seq<byte>, typ: nat, fmt: nat, total: nat)
    requires total <= |mem|
  {
    && typ == 206 && fmt == 15 && total >= 16 && mem[12..16] == [0x52, 0x45, 0x4D, 0x42]
    && (total < 20 || total < 20 + 4 * mem[16] as nat)
  }

  lemma BodyIsRefused(b: seq<byte>, typ: nat, fmt: nat)
    requires |b| >= 4
    ensures ParseBody(b, typ, fmt).Err? <==> TooShort(typ, fmt, |b|) || CutEstimate(b, typ, fmt, |b|)
    ensures ParseBody(b, typ, fmt).Err? ==> ParseBody(b, typ, fmt).error == Malformed
  {
    hide Read32, Read16, Read24, Read64, ReadBlock, Entries, Ssrcs, WalkChunks, S.Reported, S.Zeros, Pow2;
  }

  /** Why a packet is refused: it is not all there, or its version, its length or its estimate is wrong. No other one is. */
  lemma RefusedExactly(mem: seq<byte>, len: nat)
    requires len + 4 <= |mem|
    ensures var r := Parse(mem, len);
      if len < 4 || Announced(mem) > len then r == Err(NeedMore)
      else
        var typ, fmt, total := mem[1] as nat, mem[0] as nat % 32, Announced(mem);
        && (r.Err? ==> r.error == Malformed)
        && (r.Err? <==> mem[0] / 64 != 2 || TooShort(typ, fmt, total) || CutEstimate(mem, typ, fmt, total))
  {
    hide ParseBody, TooShort, Read32;
    if len >= 4 && Announced(mem) <= len {
      var total := Announced(mem);
      if total >= 16 { assert mem[..total][12..16] == mem[12..16]; }
      BodyIsRefused(mem[..total], mem[1] as nat, mem[0] as nat % 32);
    }
  }

  // ---------------------------------------------------------------- what the other side writes

  /** A packet of `tail` behind the head and the sender's source. */
  function Wire(typ: byte, fmt: nat, ssrc: nat, tail: seq<byte>): (r: seq<byte>)
    requires fmt < 32 && ssrc < U32 && |tail| % 4 == 0 && |tail| <= 0x3_FFF8
    ensures |r| == 8 + |tail|
  {
    [0x80 + fmt, typ] + Be16((8 + |tail|) / 4 - 1) + Be32(ssrc) + tail
  }

  /** A packet whose body is understood is read, whatever follows it in the buffer. */
  lemma WireReads(typ: byte, fmt: nat, ssrc: nat, tail: seq<byte>, body: Body, mem: seq<byte>, len: nat)
    requires fmt < 32 && ssrc < U32 && |tail| % 4 == 0 && |tail| <= 0x3_FFF8
    requires var p := Wire(typ, fmt, ssrc, tail);
      p <= mem && |p| <= len && len + 4 <= |mem| && ParseBody(p, typ as nat, fmt) == Ok(body)
    ensures Parse(mem, len) == Ok(Packet(0, fmt, typ as nat, 8 + |tail|, ssrc, body))
  {
    var p := Wire(typ, fmt, ssrc, tail);
    assert mem == p + mem[|p|..];
    assert mem[..|p|] == p;
    assert p == Head(typ, fmt, |p|) + Be32(ssrc) + tail;
    assert mem == Head(typ, fmt, |p|) + Be32(ssrc) + (tail + mem[|p|..]);
    hide ParseBody, Wire, Head, Be32, Parse;
    PacketReads(mem, len, typ, fmt, |p|, ssrc, tail + mem[|p|..], body);
  }

  lemma TailIs(typ: byte, fmt: nat, ssrc: nat, media: nat, more: seq<byte>)
    requires fmt < 32 && ssrc < U32 && media < U32 && |more| % 4 == 0 && |more| <= 0x3_FFF4
    ensures var p := Wire(typ, fmt, ssrc, Be32(media) + more); |p| == 12 + |more| && p[12..] == more && Read32(p, 8) == media
  {
    var p := Wire(typ, fmt, ssrc, Be32(media) + more);
    assert p[8..12] == Be32(media);
    Read32Of(p, 8, media);
    hide Be32, Be16;
  }

  /** A receiver report, with a block or without one. */
  lemma ReceiverReads(ssrc: nat, rb: Option<Block>)
    requires ssrc < U32 && (rb.Some? ==> BlockOk(rb.value))
    ensures var p := if rb.Some? then Wire(201, 1, ssrc, BlockBytes(rb.value)) else Wire(201, 0, ssrc, []);
      ParseBody(p, 201, if rb.Some? then 1 else 0) == Ok(Receiver(rb))
  {
    if rb.Some? {
      var p := Wire(201, 1, ssrc, BlockBytes(rb.value));
      assert p[8..32] == BlockBytes(rb.value);
      BlockReads(p, 8, rb.value);
      hide ReadBlock, BlockBytes, Wire;
    }
  }

  /** The entries of a negative acknowledgement: a number and a mask each. */
  predicate EntriesOk(es: seq<(nat, nat)>) { forall i :: 0 <= i < |es| ==> es[i].0 < U16 && es[i].1 < U16 }

  function Pairs(es: seq<(nat, nat)>): (r: seq<byte>)
    requires EntriesOk(es)
    ensures |r| == 4 * |es|
  {
    if es == [] then [] else Be16(es[0].0) + Be16(es[0].1) + Pairs(es[1..])
  }

  lemma {:induction false} PairsRead(b: seq<byte>, at: nat, es: seq<(nat, nat)>, i: nat)
    requires EntriesOk(es) && at <= |b| && b[at..] == Pairs(es) && i < |es|
    ensures at + 4 * i + 4 <= |b| && (Read16(b, at + 4 * i), Read16(b, at + 4 * i + 2)) == es[i]
    decreases i
  {
    hide Be16, Read16;
    var first, rest := Be16(es[0].0) + Be16(es[0].1), Pairs(es[1..]);
    assert b[at..] == first + rest;
    assert b[at + 4..] == b[at..][4..] == rest;
    if i == 0 {
      assert b[at..at + 2] == b[at..][..2] == Be16(es[0].0) && b[at + 2..at + 4] == b[at..][2..4] == Be16(es[0].1);
      Read16Of(b, at, es[0].0);
      Read16Of(b, at + 2, es[0].1);
    } else {
      PairsRead(b, at + 4, es[1..], i - 1);
    }
  }

  lemma EntriesRead(b: seq<byte>, at: nat, es: seq<(nat, nat)>, n: nat)
    requires EntriesOk(es) && at <= |b| && b[at..] == Pairs(es) && n <= |es|
    ensures at + 4 * n <= |b| && Entries(b, at, n) == es[..n]
  {
    hide Read16, Pairs;
    forall i | 0 <= i < n ensures (Read16(b, at + 4 * i), Read16(b, at + 4 * i + 2)) == es[i] { PairsRead(b, at, es, i); }
    assert |es[..n]| == n;
  }

  lemma NackBody(b: seq<byte>)
    requires |b| >= 12
    ensures ParseBody(b, 205, 1) == Ok(Nack(Read32(b, 8), Entries(b, 12, Min((|b| - 12) / 4, 128))))
  {
    hide Read32, Entries;
  }

  /** A negative acknowledgement is read entry by entry, up to 128 of them. */
  lemma NackReads(ssrc: nat, media: nat, es: seq<(nat, nat)>)
    requires ssrc < U32 && media < U32 && EntriesOk(es) && |es| <= 0xFFFD
    ensures ParseBody(Wire(205, 1, ssrc, Be32(media) + Pairs(es)), 205, 1) ==
            Ok(Nack(media, if |es| <= 128 then es else es[..128]))
  {
    hide Read32, Wire, Pairs, Be32, Entries, ParseBody, EntriesOk;
    var p := Wire(205, 1, ssrc, Be32(media) + Pairs(es));
    TailIs(205, 1, ssrc, media, Pairs(es));
    EntriesRead(p, 12, es, Min(|es|, 128));
    NackBody(p);
    assert es[..|es|] == es;
  }

  predicate WordsOk(ws: seq<nat>) { forall i :: 0 <= i < |ws| ==> ws[i] < U32 }

  function Words(ws: seq<nat>): (r: seq<byte>)
    requires WordsOk(ws)
    ensures |r| == 4 * |ws|
  {
    if ws == [] then [] else Be32(ws[0]) + Words(ws[1..])
  }

  lemma {:induction false} WordsRead(b: seq<byte>, at: nat, ws: seq<nat>, i: nat)
    requires WordsOk(ws) && at <= |b| && b[at..] == Words(ws) && i < |ws|
    ensures at + 4 * i + 4 <= |b| && Read32(b, at + 4 * i) == ws[i]
    decreases i
  {
    hide Be32, Read32;
    assert b[at + 4..] == b[at..][4..] == Words(ws[1..]);
    if i == 0 {
      assert b[at..at + 4] == b[at..][..4] == Be32(ws[0]);
      Read32Of(b, at, ws[0]);
    } else {
      WordsRead(b, at + 4, ws[1..], i - 1);
    }
  }

  /** The exponent and the two high bits of the mantissa. */
  function Top(exp: nat, mantissa: nat): byte
    requires exp < 64 && mantissa < 0x4_0000
  {
    exp * 4 + mantissa / U16
  }

  /** The estimate: its mark, the number of sources, six bits of exponent, eighteen of mantissa, the sources. */
  function Estimate(exp: nat, mantissa: nat, ssrcs: seq<nat>): (r: seq<byte>)
    requires exp < 64 && mantissa < 0x4_0000 && |ssrcs| < 256 && WordsOk(ssrcs)
    ensures |r| == 8 + 4 * |ssrcs|
  {
    [0x52, 0x45, 0x4D, 0x42, |ssrcs|, Top(exp, mantissa)] + Be16(mantissa % U16) + Words(ssrcs)
  }

  lemma SsrcsRead(b: seq<byte>, at: nat, ws: seq<nat>, n: nat)
    requires WordsOk(ws) && at <= |b| && b[at..] == Words(ws) && n <= |ws|
    ensures at + 4 * n <= |b| && Ssrcs(b, at, n) == ws[..n]
  {
    hide Read32, Words, WordsOk;
    assert |b[at..]| == 4 * |ws|;
    forall i | 0 <= i < n ensures Read32(b, at + 4 * i) == ws[..n][i] { WordsRead(b, at, ws, i); }
  }

  lemma EstimateBody(b: seq<byte>, n: nat)
    requires |b| >= 20 + 4 * n && b[12..16] == [0x52, 0x45, 0x4D, 0x42] && b[16] as nat == n
    ensures ParseBody(b, 206, 15) ==
            Ok(Bitrate(Read32(b, 8), Read24(b, 17) % 0x4_0000 * Pow2(b[17] as nat / 4) % U32, Ssrcs(b, 20, Min(n, 32))))
  {
    hide Read32, Read24, Ssrcs, Pow2;
  }

  /** An estimate is mantissa times two to the exponent, in 32 bits; at most 32 sources are kept. */
  lemma EstimateReads(ssrc: nat, media: nat, exp: nat, mantissa: nat, ssrcs: seq<nat>)
    requires ssrc < U32 && media < U32 && exp < 64 && mantissa < 0x4_0000 && |ssrcs| < 256 && WordsOk(ssrcs)
    ensures ParseBody(Wire(206, 15, ssrc, Be32(media) + Estimate(exp, mantissa, ssrcs)), 206, 15) ==
            Ok(Bitrate(media, mantissa * Pow2(exp) % U32, if |ssrcs| <= 32 then ssrcs else ssrcs[..32]))
  {
    hide Read32, Read24, Wire, Words, Be32, Estimate, Pow2, Ssrcs, ParseBody, WordsOk;
    var p := Wire(206, 15, ssrc, Be32(media) + Estimate(exp, mantissa, ssrcs));
    TailIs(206, 15, ssrc, media, Estimate(exp, mantissa, ssrcs));
    EstimateFields(p, exp, mantissa, ssrcs);
    SsrcsRead(p, 20, ssrcs, Min(|ssrcs|, 32));
    EstimateBody(p, |ssrcs|);
    assert ssrcs[..|ssrcs|] == ssrcs;
  }

  lemma EstimateFields(p: seq<byte>, exp: nat, mantissa: nat, ssrcs: seq<nat>)
    requires exp < 64 && mantissa < 0x4_0000 && |ssrcs| < 256 && WordsOk(ssrcs)
    requires |p| >= 12 && p[12..] == Estimate(exp, mantissa, ssrcs)
    ensures |p| == 20 + 4 * |ssrcs| && p[12..16] == [0x52, 0x45, 0x4D, 0x42] && p[16] as nat == |ssrcs|
    ensures p[17] as nat / 4 == exp && Read24(p, 17) % 0x4_0000 == mantissa && p[20..] == Words(ssrcs)
  {
    hide Words, Read16, Read24, Be16, Top, Spelled;
    Mantissa(exp, mantissa);
    EstimateSpelled(p, |ssrcs|, exp, mantissa, Words(ssrcs));
  }

  lemma EstimateSpelled(p: seq<byte>, n: byte, exp: nat, mantissa: nat, words: seq<byte>)
    requires exp < 64 && mantissa < 0x4_0000 && |p| >= 12
    requires p[12..] == [0x52, 0x45, 0x4D, 0x42, n, Top(exp, mantissa)] + Be16(mantissa % U16) + words
    ensures |p| == 20 + |words| && p[12..16] == [0x52, 0x45, 0x4D, 0x42] && p[16] == n && p[17] == Top(exp, mantissa)
    ensures Read24(p, 17) == Spelled(exp, mantissa) && p[20..] == words
  {
    hide Read16, Be16, Top;
    EstimateInParts(p, [0x52, 0x45, 0x4D, 0x42, n, Top(exp, mantissa)], Be16(mantissa % U16), words);
    Read16Of(p, 18, mantissa % U16);
  }

  lemma EstimateInParts(p: seq<byte>, head: seq<byte>, low: seq<byte>, words: seq<byte>)
    requires |p| >= 12 && |head| == 6 && |low| == 2 && p[12..] == head + low + words
    ensures |p| == 20 + |words| && p[12..16] == head[..4] && p[16] == head[4] && p[17] == head[5]
    ensures p[18..20] == low && p[20..] == words
  {
    var e := p[12..];
    assert p[12..16] == e[..4] && p[16] == e[4] && p[17] == e[5] && p[18..20] == e[6..8] && p[20..] == e[8..];
  }

  /** The number that the three octets of exponent and mantissa spell. */
  function Spelled(exp: nat, mantissa: nat): nat
    requires exp < 64 && mantissa < 0x4_0000
  {
    Top(exp, mantissa) as nat * U16 + mantissa % U16
  }

  lemma Mantissa(exp: nat, mantissa: nat)
    requires exp < 64 && mantissa < 0x4_0000
    ensures Top(exp, mantissa) as nat / 4 == exp && Spelled(exp, mantissa) % 0x4_0000 == mantissa
  {
  }

  lemma TransportBody(b: seq<byte>)
    requires |b| >= 20
    ensures var all := S.Reported(b, Read16(b, 14));
      ParseBody(b, 205, 15) == Ok(Transport(Read32(b, 8), Read16(b, 12), Read16(b, 14), S.Zeros(all), |all| - S.Zeros(all)))
  {
    hide Read16, Read32, S.Reported, S.Zeros;
  }

  /** The packets a feedback counts as lost: those with symbol zero among the first `count`. */
  function LostOf(cs: seq<T.Chunk>, count: nat): set<nat>
    requires count <= |T.ToldAll(cs)|
  {
    set i | 0 <= i < count && T.ToldAll(cs)[i] == 0
  }

  lemma ReportedIs(b: seq<byte>, cs: seq<T.Chunk>, count: nat)
    requires count <= |T.ToldAll(cs)| && S.Reported(b, count) == T.ToldAll(cs)[..count]
    ensures |S.Reported(b, count)| == count && S.Zeros(S.Reported(b, count)) == |LostOf(cs, count)| <= count
  {
    hide T.ToldAll, S.Reported;
    var told := T.ToldAll(cs)[..count];
    T.ZerosAreLost(told);
    assert T.Lost(told) == LostOf(cs, count);
  }

  /** The body of a feedback behind its sender's source. */
  function Summary(media: nat, base: nat, count: nat, time: seq<byte>, cs: seq<T.Chunk>, deltas: seq<byte>): seq<byte>
    requires media < U32 && base < U16 && count < U16 && T.ChunksOk(cs)
  {
    Be32(media) + (Be16(base) + Be16(count) + time + T.Words(cs) + deltas)
  }

  lemma SummaryIs(ssrc: nat, media: nat, base: nat, count: nat, time: seq<byte>, cs: seq<T.Chunk>, deltas: seq<byte>)
    requires ssrc < U32 && media < U32 && base < U16 && count < U16 && |time| == 4 && T.ChunksOk(cs)
    requires var more := Summary(media, base, count, time, cs, deltas); |more| % 4 == 0 && |more| <= 0x3_FFF8
    ensures var p := Wire(205, 15, ssrc, Summary(media, base, count, time, cs, deltas));
      |p| >= 20 && Read32(p, 8) == media && p == T.Feedback(p[..12], base, count, time, cs, deltas)
  {
    var more := Be16(base) + Be16(count) + time + T.Words(cs) + deltas;
    var p := Wire(205, 15, ssrc, Be32(media) + more);
    hide Wire, T.Words, Be16, Be32, Read32;
    TailIs(205, 15, ssrc, media, more);
    InFront(p, Be16(base), Be16(count), time, T.Words(cs), deltas);
  }

  /** Congestion-control feedback: the first `count` symbols of its chunks, zero for a lost packet. */
  lemma TransportReads(ssrc: nat, media: nat, base: nat, count: nat, time: seq<byte>, cs: seq<T.Chunk>, deltas: seq<byte>)
    requires ssrc < U32 && media < U32 && base < U16 && count < U16 && |time| == 4 && T.ChunksOk(cs) && count <= |T.ToldAll(cs)|
    requires var more := Summary(media, base, count, time, cs, deltas); |more| % 4 == 0 && |more| <= 0x3_FFF8
    ensures var lost := |LostOf(cs, count)|;
      lost <= count && ParseBody(Wire(205, 15, ssrc, Summary(media, base, count, time, cs, deltas)), 205, 15)
                       == Ok(Transport(media, base, count, lost, count - lost))
  {
    hide Read16, Read32, Wire, T.ToldAll, S.Reported, S.Zeros, Summary, ParseBody, T.Feedback, LostOf, T.ChunksOk;
    var p := Wire(205, 15, ssrc, Summary(media, base, count, time, cs, deltas));
    SummaryIs(ssrc, media, base, count, time, cs, deltas);
    T.FeedbackSays(p[..12], base, count, time, cs, deltas);
    T.FeedbackIsReported(p[..12], base, count, time, cs, deltas);
    ReportedIs(p, cs, count);
    TransportBody(p);
  }

  lemma InFront(p: seq<byte>, x: seq<byte>, y: seq<byte>, time: seq<byte>, w: seq<byte>, deltas: seq<byte>)
    requires |p| >= 12 && p[12..] == x + y + time + w + deltas
    ensures p == p[..12] + x + y + time + w + deltas
  {
    assert p == p[..12] + p[12..];
  }
}
