/**
 Reading back the control packets that were written, one by one and as a compound.

 First the fields in their places, then the chunks and items of a source description, then each
 kind of packet, and last the compound.
 */
module RtcpRoundTrip {
  import opened Options
  import opened Results
  import opened Bytes
  import opened CText
  import opened RtcpSpec

  // ---------------------------------------------------------------- fields in their places

  /** A field is where the writer put it. */
  lemma Field16(b: seq<byte>, pre: seq<byte>, n: nat, rest: seq<byte>)
    requires n < 0x1_0000 && b == pre + Be16(n) + rest
    ensures |pre| + 2 <= |b| && Read16(b, |pre|) == n && b == (pre + Be16(n)) + rest
  {
    assert b[|pre|..|pre| + 2] == Be16(n);
    Read16Of(b, |pre|, n);
  }

  lemma Field32(b: seq<byte>, pre: seq<byte>, n: nat, rest: seq<byte>)
    requires n < 0x1_0000_0000 && b == pre + Be32(n) + rest
    ensures |pre| + 4 <= |b| && Read32(b, |pre|) == n
  {
    assert b[|pre|..|pre| + 4] == Be32(n);
    Read32Of(b, |pre|, n);
  }

  /** Reading at a place of a longer text is reading the piece that is there. */
  lemma ReadInside32(b: seq<byte>, at: nat, piece: seq<byte>, k: nat)
    requires k + 4 <= |piece| && at + |piece| <= |b| && b[at..at + |piece|] == piece
    ensures Read32(b, at + k) == Read32(piece, k)
  {
    assert forall i :: 0 <= i < |piece| ==> b[at + i] == piece[i];
  }

  // ---------------------------------------------------------------- source descriptions

  lemma ItemReads(b: seq<byte>, pre: seq<byte>, i: Item, rest: seq<byte>)
    requires ItemOk(i) && b == pre + (ItemBytes(i) + rest)
    ensures |pre| + 2 + |i.text| <= |b| && b[|pre|] == i.typ && b[|pre| + 1] as nat == |i.text|
    ensures b[|pre| + 2..|pre| + 2 + |i.text|] == i.text
    ensures b == (pre + ItemBytes(i)) + rest
  {
    var n := |pre|;
    assert b[n..] == ItemBytes(i) + rest;
    assert b[n..][0] == i.typ && b[n..][1] == |i.text|;
    assert b[n..][2..2 + |i.text|] == i.text;
    assert b[n + 2..n + 2 + |i.text|] == b[n..][2..2 + |i.text|];
  }

  /** The walk over written items finds the first name among them, or goes past their end. */
  lemma {:induction false} ItemsRead(b: seq<byte>, pre: seq<byte>, items: seq<Item>, rest: seq<byte>)
    requires (forall i :: 0 <= i < |items| ==> ItemOk(items[i])) && rest != [] && rest[0] == 0
    requires b == pre + (ItemsBytes(items) + rest)
    ensures WalkItems(b, |pre|) ==
      match FirstNameIn(items)
      case Some(n) => Found(n)
      case None => Ended(|pre| + |ItemsBytes(items)| + 1)
    decreases |items|
  {
    hide ItemBytes, WalkItems;
    if items == [] {
      assert b == pre + rest;
      WalkEnds(b, |pre|);
    } else {
      var i, more := items[0], ItemsBytes(items[1..]);
      assert ItemsBytes(items) + rest == ItemBytes(i) + (more + rest);
      ItemReads(b, pre, i, more + rest);
      WalkStep(b, |pre|, |i.text|);
      if i.typ != CNAME { ItemsRead(b, pre + ItemBytes(i), items[1..], rest); }
    }
  }

  lemma WalkEnds(b: seq<byte>, off: nat)
    requires off < |b| && b[off] == 0
    ensures WalkItems(b, off) == Ended(off + 1)
  {
  }

  lemma WalkStep(b: seq<byte>, off: nat, n: nat)
    requires off + 2 + n <= |b| && b[off] != 0 && b[off + 1] as nat == n
    ensures WalkItems(b, off) == if b[off] == CNAME then Found(b[off + 2..off + 2 + n]) else WalkItems(b, off + 2 + n)
  {
  }

  /** The nulls that end a chunk carry the walk exactly to the next one. */
  lemma ChunkEnds(c: Chunk, at: nat)
    requires ChunkOk(c) && at % 4 == 0
    ensures RoundUp4(at + 4 + |ItemsBytes(c.items)| + 1) == at + |ChunkBytes(c)|
  {
    var n := |ItemsBytes(c.items)|;
    hide ItemsBytes;
    assert (at + 4 + n + 1) % 4 == (n + 1) % 4;
  }

  lemma ChunkInTwo(b: seq<byte>, pre: seq<byte>, c: Chunk, rest: seq<byte>)
    requires ChunkOk(c) && b == pre + (ChunkBytes(c) + rest)
    ensures b == (pre + Be32(c.ssrc)) + (ItemsBytes(c.items) + (ChunkEnd(|ItemsBytes(c.items)|) + rest))
    ensures b == (pre + ChunkBytes(c)) + rest
    ensures |pre| + 8 <= |b|
  {
    hide ItemsBytes, ChunkEnd, Be32;
  }

  /** For any list of chunks, the parser stores the first canonical name in it. */
  lemma {:induction false} ChunksRead(b: seq<byte>, pre: seq<byte>, cs: seq<Chunk>)
    requires ChunksOk(cs) && |pre| % 4 == 0 && b == pre + ChunksBytes(cs)
    ensures WalkChunks(b, |pre|, |cs|) == FirstName(cs)
    decreases |cs|
  {
    hide ChunkBytes, WalkItems, FirstNameIn, Be32, RoundUp4, ChunkEnd, ItemsBytes;
    if cs != [] {
      var c, rest := cs[0], ChunksBytes(cs[1..]);
      ChunkInTwo(b, pre, c, rest);
      ChunkEndIsNull(|ItemsBytes(c.items)|, rest);
      ItemsRead(b, pre + Be32(c.ssrc), c.items, ChunkEnd(|ItemsBytes(c.items)|) + rest);
      ChunkEnds(c, |pre|);
      ChunksRead(b, pre + ChunkBytes(c), cs[1..]);
    }
  }

  lemma ChunkEndIsNull(n: nat, rest: seq<byte>)
    ensures ChunkEnd(n) + rest != [] && (ChunkEnd(n) + rest)[0] == 0
  {
  }

  // ---------------------------------------------------------------- one packet

  lemma HeadReads(mem: seq<byte>, typ: byte, fmt: nat, total: nat, ssrc: nat, tail: seq<byte>)
    requires fmt < 32 && 8 <= total <= 0x4_0000 && total % 4 == 0 && Word(ssrc)
    requires mem == Head(typ, fmt, total) + Be32(ssrc) + tail && total + 4 <= |mem|
    ensures mem[0] / 64 == 2 && mem[0] as nat % 32 == fmt && mem[0] as nat / 32 % 2 == 0 && mem[1] == typ
    ensures (Read16(mem, 2) + 1) * 4 == total && Read32(mem, 4) == ssrc
  {
    var first := [0x80 + fmt, typ];
    assert mem == first + Be16(total / 4 - 1) + (Be32(ssrc) + tail);
    Field16(mem, first, total / 4 - 1, Be32(ssrc) + tail);
    Field32(mem, Head(typ, fmt, total), ssrc, tail);
  }

  /** A packet whose head and body are known parses to them. */
  lemma PacketReads(mem: seq<byte>, len: nat, typ: byte, fmt: nat, total: nat, ssrc: nat, tail: seq<byte>, body: Body)
    requires fmt < 32 && 8 <= total <= 0x4_0000 && total % 4 == 0 && Word(ssrc) && total <= len && len + 4 <= |mem|
    requires mem == Head(typ, fmt, total) + Be32(ssrc) + tail
    requires ParseBody(mem[..total], typ as nat, fmt) == Ok(body)
    ensures Parse(mem, len) == Ok(Packet(0, fmt, typ as nat, total, ssrc, body))
  {
    HeadReads(mem, typ, fmt, total, ssrc, tail);
    hide ParseBody, Head, Be32, Read16, Read32;
  }

  lemma PliBody(m: Message)
    requires MessageOk(m) && m.PictureLoss?
    ensures ParseBody(Encode(m), PSFB, FMT_PLI) == Ok(Feedback(m.media))
  {
    var b := Encode(m);
    assert b == (Head(PSFB, FMT_PLI, 12) + Be32(m.ssrc)) + Be32(m.media) + [];
    Field32(b, Head(PSFB, FMT_PLI, 12) + Be32(m.ssrc), m.media, []);
  }

  lemma NameBody(m: Message)
    requires MessageOk(m) && m.SourceName?
    ensures ParseBody(Encode(m), SDES, 1) == Ok(Description(m.cname))
  {
    var b := Encode(m);
    var item := Item(CNAME, m.cname);
    var c := Chunk(m.ssrc, [item]);
    assert [item][1..] == [];
    assert ItemsBytes([item]) == ItemBytes(item) + [] == ItemBytes(item);
    NamePadding(|m.cname|);
    assert ChunkEnd(2 + |m.cname|) == Nulls(Total(m) - 10 - |m.cname|);
    assert ChunksOk([c]) && [c][1..] == [];
    assert ChunksBytes([c]) == ChunkBytes(c) + [] == ChunkBytes(c);
    NameLayout(Head(SDES, 1, Total(m)), Be32(m.ssrc), [CNAME, |m.cname|], m.cname, Nulls(Total(m) - 10 - |m.cname|));
    assert b == Head(SDES, 1, Total(m)) + ChunksBytes([c]);
    ChunksRead(b, Head(SDES, 1, Total(m)), [c]);
    PlainText(m.cname);
    assert FirstName([c]) == m.cname;
    hide ChunksBytes, WalkChunks, FirstName, Encode;
  }

  lemma NamePadding(n: nat)
    ensures RoundUp4(n + 3) - (n + 2) == RoundUp4(11 + n) - 10 - n
  {
  }

  lemma NameLayout(h: seq<byte>, s: seq<byte>, t: seq<byte>, text: seq<byte>, z: seq<byte>)
    ensures h + s + t + text + z == h + (s + (t + text) + z)
  {
  }

  lemma BlockReads(b: seq<byte>, at: nat, rb: Block)
    requires BlockOk(rb) && at + 24 <= |b| && b[at..at + 24] == BlockBytes(rb)
    ensures ReadBlock(b, at) == rb
  {
    var p := BlockBytes(rb);
    BlockFields(rb);
    ReadInside32(b, at, p, 0);
    ReadInside32(b, at, p, 8);
    ReadInside32(b, at, p, 12);
    ReadInside32(b, at, p, 16);
    ReadInside32(b, at, p, 20);
    assert forall i :: 0 <= i < 24 ==> b[at + i] == p[i];
    assert Read24(b, at + 5) == Read24(p, 5);
    hide BlockBytes, Read32, Read24;
  }

  lemma BlockFields(rb: Block)
    requires BlockOk(rb)
    ensures var p := BlockBytes(rb);
      && Read32(p, 0) == rb.ssrc && p[4] == rb.fraction && Read24(p, 5) == rb.lost && Read32(p, 8) == rb.highest
      && Read32(p, 12) == rb.jitter && Read32(p, 16) == rb.lsr && Read32(p, 20) == rb.dlsr
  {
    var p := BlockBytes(rb);
    var h1 := Be32(rb.ssrc) + [rb.fraction, rb.lost / 0x1_0000];
    var h2 := h1 + Be16(rb.lost % 0x1_0000);
    var t := Be32(rb.highest) + (Be32(rb.jitter) + (Be32(rb.lsr) + Be32(rb.dlsr)));
    BlockLayout(h2, Be32(rb.highest), Be32(rb.jitter), Be32(rb.lsr), Be32(rb.dlsr));
    Field32(p, [], rb.ssrc, p[4..]);
    assert p == h1 + Be16(rb.lost % 0x1_0000) + t;
    Field16(p, h1, rb.lost % 0x1_0000, t);
    assert p[5] == rb.lost / 0x1_0000 && p[4] == rb.fraction;
    Field32(p, h2, rb.highest, Be32(rb.jitter) + (Be32(rb.lsr) + Be32(rb.dlsr)));
    Field32(p, h2 + Be32(rb.highest), rb.jitter, Be32(rb.lsr) + Be32(rb.dlsr));
    Field32(p, h2 + Be32(rb.highest) + Be32(rb.jitter), rb.lsr, Be32(rb.dlsr));
    Field32(p, h2 + Be32(rb.highest) + Be32(rb.jitter) + Be32(rb.lsr), rb.dlsr, []);
    hide Be32, Read32;
  }

  lemma BlockLayout(h: seq<byte>, a: seq<byte>, b: seq<byte>, c: seq<byte>, d: seq<byte>)
    ensures h + a + b + c + d == h + a + (b + (c + d)) == h + (a + (b + (c + d)))
    ensures h + a + b + c + d == (h + a) + b + (c + d)
    ensures h + a + b + c + d == (h + a + b) + c + d
    ensures h + a + b + c + d == (h + a + b + c) + d + []
  {
  }

  /** The fixed fields of a sender report. */
  lemma SenderFields(b: seq<byte>, h: seq<byte>, ssrc: nat, ntp: nat, rtp: nat, packets: nat, octets: nat, tail: seq<byte>)
    requires |h| == 4 && Word(ssrc) && ntp < 0x1_0000_0000_0000_0000 && Word(rtp) && Word(packets) && Word(octets)
    requires b == h + Be32(ssrc) + Be32(ntp / 0x1_0000_0000) + Be32(ntp % 0x1_0000_0000) + Be32(rtp) + Be32(packets)
                  + Be32(octets) + tail
    ensures |b| == 28 + |tail| && b[28..] == tail
    ensures Read64(b, 8) == ntp && Read32(b, 16) == rtp && Read32(b, 20) == packets && Read32(b, 24) == octets
  {
    var p8 := h + Be32(ssrc);
    var p12 := p8 + Be32(ntp / 0x1_0000_0000);
    var p16 := p12 + Be32(ntp % 0x1_0000_0000);
    BlockLayout(p8, Be32(ntp / 0x1_0000_0000), Be32(ntp % 0x1_0000_0000), Be32(rtp), Be32(packets) + (Be32(octets) + tail));
    BlockLayout(p16, Be32(rtp), Be32(packets), Be32(octets), tail);
    hide Be32, Read32;
    SenderLayout(p8, Be32(ntp / 0x1_0000_0000), Be32(ntp % 0x1_0000_0000), Be32(rtp), Be32(packets), Be32(octets), tail);
    Field32(b, p8, ntp / 0x1_0000_0000, b[12..]);
    Field32(b, p12, ntp % 0x1_0000_0000, b[16..]);
    Field32(b, p16, rtp, b[20..]);
    Field32(b, p16 + Be32(rtp), packets, b[24..]);
    Field32(b, p16 + Be32(rtp) + Be32(packets), octets, tail);
  }

  lemma SenderLayout(h: seq<byte>, a: seq<byte>, b: seq<byte>, c: seq<byte>, d: seq<byte>, e: seq<byte>, tail: seq<byte>)
    requires |h| == 8 && |a| == |b| == |c| == |d| == |e| == 4
    ensures var p := h + a + b + c + d + e + tail;
      && |p| == 28 + |tail|
      && p == h + a + p[12..] && p == (h + a) + b + p[16..] && p == (h + a + b) + c + p[20..]
      && p == (h + a + b + c) + d + p[24..] && p == (h + a + b + c + d) + e + tail && p[28..] == tail
  {
  }

  lemma ReportBody(m: Message)
    requires MessageOk(m) && m.SenderReport?
    ensures ParseBody(Encode(m), SR, if m.rb.Some? then 1 else 0) == Ok(Sender(m.ntp, m.rtp, m.packets, m.octets, m.rb))
  {
    var b := Encode(m);
    var tail := if m.rb.Some? then BlockBytes(m.rb.value) else [];
    var h := Head(SR, if m.rb.Some? then 1 else 0, Total(m));
    SenderFields(b, h, m.ssrc, m.ntp, m.rtp, m.packets, m.octets, tail);
    if m.rb.Some? {
      assert b[28..52] == b[28..] == tail;
      BlockReads(b, 28, m.rb.value);
    }
    hide Encode, BlockBytes, Head, Be32, Read32, Read64, ReadBlock, ParseBody;
    SenderBody(b, if m.rb.Some? then 1 else 0);
  }

  lemma SenderBody(b: seq<byte>, fmt: nat)
    requires |b| >= 28 && (fmt > 0 ==> |b| >= 52)
    ensures ParseBody(b, SR, fmt) == Ok(Sender(Read64(b, 8), Read32(b, 16), Read32(b, 20), Read32(b, 24),
                                               if fmt > 0 then Some(ReadBlock(b, 28)) else None))
  {
    hide Read32, Read64, ReadBlock;
  }

  lemma EncodeStarts(m: Message)
    requires MessageOk(m)
    ensures var (typ, fmt) := TypeOf(m);
      exists tail :: Encode(m) == Head(typ, fmt, Total(m)) + Be32(m.ssrc) + tail
  {
    match m
    case SenderReport(ssrc, ntp, rtp, packets, octets, rb) =>
      var tail := Be32(ntp / 0x1_0000_0000) + Be32(ntp % 0x1_0000_0000) + Be32(rtp) + Be32(packets) + Be32(octets)
                  + if rb.Some? then BlockBytes(rb.value) else [];
      hide Head, Be32, BlockBytes;
      FirstTwo(Head(SR, if rb.Some? then 1 else 0, Total(m)) + Be32(ssrc), Be32(ntp / 0x1_0000_0000), Be32(ntp % 0x1_0000_0000),
               Be32(rtp), Be32(packets), Be32(octets), if rb.Some? then BlockBytes(rb.value) else []);
    case SourceName(ssrc, cname) =>
      var tail := [CNAME, |cname|] + cname + Nulls(Total(m) - 10 - |cname|);
      hide Head, Be32;
      FirstTwo(Head(SDES, 1, Total(m)) + Be32(ssrc), [CNAME, |cname|], cname, Nulls(Total(m) - 10 - |cname|), [], [], []);
      NothingMore(tail);
      NothingMore(Encode(m));
    case PictureLoss(ssrc, media) =>
      hide Head;
      assert Encode(m) == Head(PSFB, FMT_PLI, 12) + Be32(ssrc) + Be32(media);
  }

  lemma FirstTwo(h: seq<byte>, a: seq<byte>, b: seq<byte>, c: seq<byte>, d: seq<byte>, e: seq<byte>, t: seq<byte>)
    ensures h + a + b + c + d + e + t == h + (a + b + c + d + e + t)
  {
  }

  lemma NothingMore(s: seq<byte>)
    ensures s + [] + [] + [] == s
  {
  }

  function TypeOf(m: Message): (byte, nat) {
    match m
    case SenderReport(_, _, _, _, _, rb) => (SR, if rb.Some? then 1 else 0)
    case SourceName(_, _) => (SDES, 1)
    case PictureLoss(_, _) => (PSFB, FMT_PLI)
  }

  /** A written packet parses to the message it was written from, whatever follows it. */
  lemma MessageReads(m: Message, rest: seq<byte>, mem: seq<byte>, len: nat)
    requires MessageOk(m) && mem == Encode(m) + rest && Total(m) <= len && len + 4 <= |mem|
    ensures Parse(mem, len) == Ok(Reading(m))
  {
    EncodeStarts(m);
    var (typ, fmt) := TypeOf(m);
    var tail :| Encode(m) == Head(typ, fmt, Total(m)) + Be32(m.ssrc) + tail;
    hide Head, Encode, Be32, ParseBody, Parse;
    assert mem == Head(typ, fmt, Total(m)) + Be32(m.ssrc) + (tail + rest);
    assert mem[..Total(m)] == Encode(m);
    match m
    case SenderReport(_, _, _, _, _, _) =>
      ReportBody(m);
      PacketReads(mem, len, typ, fmt, Total(m), m.ssrc, tail + rest, Reading(m).body);
    case SourceName(_, _) =>
      NameBody(m);
      PacketReads(mem, len, typ, fmt, Total(m), m.ssrc, tail + rest, Reading(m).body);
    case PictureLoss(_, _) =>
      PliBody(m);
      PacketReads(mem, len, typ, fmt, Total(m), m.ssrc, tail + rest, Reading(m).body);
  }

  /** A caller that is shown the packets of `rest` after `seen`, until it refuses one. */
  function Shown(seen: seq<Packet>, rest: seq<Packet>, cb: Callback): (seq<Packet>, Option<Error>)
    decreases |rest|
  {
    if rest == [] then (seen, None)
    else
      var now := seen + [rest[0]];
      if cb(now) != 0 then (now, Some(Refused(cb(now)))) else Shown(now, rest[1..], cb)
  }

  /** The decoding of written packets shows the caller exactly those messages. */
  lemma {:induction false} CompoundShows(ms: seq<Message>, mem: seq<byte>, pre: seq<byte>, slack: seq<byte>,
                                         seen: seq<Packet>, cb: Callback)
    requires MessagesOk(ms) && |slack| == 4 && mem == pre + (Compound(ms) + slack)
    ensures DecodeAll(mem, |mem| - 4, |pre|, seen, cb) == Shown(seen, Readings(ms), cb)
    decreases |ms|
  {
    hide Encode, Parse, Reading, Total;
    if ms == [] {
      assert |mem| - 4 == |pre|;
    } else {
      var m, rest := ms[0], Compound(ms[1..]);
      CompoundInTwo(mem, pre, Encode(m), rest, slack);
      MessageReads(m, rest + slack, mem[|pre|..], |mem| - 4 - |pre|);
      ReadingTotal(m);
      var now := seen + [Reading(m)];
      if cb(now) == 0 { CompoundShows(ms[1..], mem, pre + Encode(m), slack, now, cb); }
    }
  }

  /** The caller answered every packet up to `all[i]` with zero. */
  predicate Accepted(all: seq<Packet>, i: nat, cb: Callback)
    requires i <= |all|
  {
    forall k :: 0 < k <= i ==> cb(all[..k]) == 0
  }

  lemma {:induction false} ShownExactly(all: seq<Packet>, i: nat, cb: Callback)
    requires i <= |all| && Accepted(all, i, cb)
    ensures var (got, err) := Shown(all[..i], all[i..], cb);
      && got <= all && (err == None <==> Accepted(all, |all|, cb)) && (err == None ==> got == all)
      && (err.Some? ==> got != [] && err == Some(Refused(cb(got))) && cb(got) != 0 && Accepted(all, |got| - 1, cb))
    decreases |all| - i
  {
    if i < |all| {
      assert all[..i] + [all[i..][0]] == all[..i + 1] && all[i..][1..] == all[i + 1..];
      if cb(all[..i + 1]) == 0 { ShownExactly(all, i + 1, cb); }
    } else {
      assert all[..i] == all;
    }
  }

  /**
   A compound of written packets is handed to the caller as exactly those messages, in order and
   up to the first one it refuses; the decoding ends without an error exactly when it refuses none.
   */
  lemma CompoundReads(ms: seq<Message>, slack: seq<byte>, cb: Callback)
    requires MessagesOk(ms) && |slack| == 4
    ensures var (got, err), all := DecodeAll(Compound(ms) + slack, |Compound(ms)|, 0, [], cb), Readings(ms);
      && got <= all && (err == None <==> Accepted(all, |all|, cb)) && (err == None ==> got == all)
      && (err.Some? ==> got != [] && err == Some(Refused(cb(got))) && cb(got) != 0 && Accepted(all, |got| - 1, cb))
  {
    hide DecodeAll, Compound, Readings;
    var mem, all := Compound(ms) + slack, Readings(ms);
    assert mem == [] + (Compound(ms) + slack) && all[..0] == [] && all[0..] == all;
    CompoundShows(ms, mem, [], slack, [], cb);
    ShownExactly(all, 0, cb);
  }

  lemma ReadingTotal(m: Message)
    requires MessageOk(m)
    ensures Reading(m).total == Total(m)
  {
  }

  lemma CompoundInTwo(mem: seq<byte>, pre: seq<byte>, first: seq<byte>, rest: seq<byte>, slack: seq<byte>)
    requires mem == pre + (first + rest + slack)
    ensures mem[|pre|..] == first + (rest + slack) && mem == (pre + first) + (rest + slack)
  {
  }
}
