/**
 Control packets (RFC 3550 section 6, RFC 4585 section 6): reading one packet, walking the items
 of a source description, walking a compound, expanding a negative acknowledgement, and the
 packets this side writes.
 */
module RtcpSpec {
  import opened Options
  import opened Results
  import opened Arith
  import opened Bytes
  import opened CText
  import opened TwccSpec

  const SR := 200
  const RR := 201
  const SDES := 202
  const RTPFB := 205
  const PSFB := 206
  const FMT_NACK := 1
  const FMT_PLI := 1
  const FMT_TWCC := 15
  const FMT_REMB := 15
  const MAX_NACK := 128
  const MAX_REMB_SSRCS := 32
  const CNAME := 1

  datatype Error = NeedMore | Malformed | TooSmall | TooLarge | Refused(code: int)

  type Parsed<T> = Result<T, Error>

  datatype Block = Block(ssrc: nat, fraction: nat, lost: nat, highest: nat, jitter: nat, lsr: nat, dlsr: nat)

  datatype Body =
    | Sender(ntp: nat, rtp: nat, packets: nat, octets: nat, block: Option<Block>)
    | Receiver(block: Option<Block>)
    | Description(cname: seq<byte>)
    | Nack(media: nat, entries: seq<(nat, nat)>)
    | Transport(media: nat, base: nat, count: nat, lost: nat, received: nat)
    | Bitrate(media: nat, bps: nat, ssrcs: seq<nat>)
    | Feedback(media: nat)
    | Unknown

  datatype Packet = Packet(padding: nat, fmt: nat, typ: nat, total: nat, ssrc: nat, body: Body)

  // ---------------------------------------------------------------- reading

  function Read24(b: seq<byte>, at: nat): nat
    requires at + 3 <= |b|
  {
    b[at] as nat * 0x1_0000 + Read16(b, at + 1)
  }

  function Read64(b: seq<byte>, at: nat): nat
    requires at + 8 <= |b|
  {
    Read32(b, at) * 0x1_0000_0000 + Read32(b, at + 4)
  }

  function ReadBlock(b: seq<byte>, at: nat): Block
    requires at + 24 <= |b|
  {
    Block(Read32(b, at), b[at + 4] as nat, Read24(b, at + 5), Read32(b, at + 8), Read32(b, at + 12), Read32(b, at + 16),
          Read32(b, at + 20))
  }

  /** Where the items of one chunk lead: to a canonical name, to a cut-off item, or past the chunk. */
  datatype Items = Found(name: seq<byte>) | Truncated | Ended(off: nat)

  function WalkItems(b: seq<byte>, off: nat): (r: Items)
    requires off <= |b|
    ensures r.Ended? ==> off <= r.off <= |b|
    decreases |b| - off
  {
    if off == |b| then Ended(off)
    else if b[off] == 0 then Ended(off + 1)
    else if off + 2 > |b| then Truncated
    else
      var n := b[off + 1] as nat;
      if off + 2 + n > |b| then Truncated
      else if b[off] == CNAME then Found(b[off + 2..off + 2 + n])
      else WalkItems(b, off + 2 + n)
  }

  function RoundUp4(n: nat): (r: nat)
    ensures n <= r < n + 4 && r % 4 == 0
  {
    if n % 4 == 0 then n else n + (4 - n % 4)
  }

  /** The first canonical name of `chunks` chunks from `off`, as a C text; empty when there is none to be found. */
  function WalkChunks(b: seq<byte>, off: nat, chunks: nat): seq<byte>
    decreases chunks
  {
    if chunks == 0 || off + 4 > |b| then []
    else
      match WalkItems(b, off + 4)
      case Found(name) => CStr(name)
      case Truncated => []
      case Ended(end) => WalkChunks(b, RoundUp4(end), chunks - 1)
  }

  function Entries(b: seq<byte>, at: nat, n: nat): (r: seq<(nat, nat)>)
    requires at + 4 * n <= |b|
    ensures |r| == n
  {
    seq(n, i requires 0 <= i < n => (Read16(b, at + 4 * i), Read16(b, at + 4 * i + 2)))
  }

  function Ssrcs(b: seq<byte>, at: nat, n: nat): (r: seq<nat>)
    requires at + 4 * n <= |b|
    ensures |r| == n
  {
    seq(n, i requires 0 <= i < n => Read32(b, at + 4 * i))
  }

  /** The receiver's estimate, when the feedback is one; any other kind is left alone. */
  function ParseRemb(b: seq<byte>, media: nat): Parsed<Body>
    requires |b| >= 12
  {
    if |b| < 16 || b[12..16] != [0x52, 0x45, 0x4D, 0x42] then Ok(Feedback(media))
    else if |b| < 20 then Err(Malformed)
    else
      var n, exp, mantissa := b[16] as nat, b[17] as nat / 4, Read24(b, 17) % 0x4_0000;
      if |b| < 20 + 4 * n then Err(Malformed)
      else Ok(Bitrate(media, Low32(mantissa * Pow2(exp)), Ssrcs(b, 20, Min(n, MAX_REMB_SSRCS))))
  }

  function ParseBody(b: seq<byte>, typ: nat, fmt: nat): Parsed<Body>
    requires |b| >= 4
  {
    if typ == SR then
      if |b| < 28 || (fmt > 0 && |b| < 52) then Err(Malformed)
      else
        Ok(Sender(Read64(b, 8), Read32(b, 16), Read32(b, 20), Read32(b, 24), if fmt > 0 then Some(ReadBlock(b, 28)) else None))
    else if typ == RR then
      if fmt > 0 && |b| < 32 then Err(Malformed) else Ok(Receiver(if fmt > 0 then Some(ReadBlock(b, 8)) else None))
    else if typ == SDES then
      if |b| < 8 then Err(Malformed) else Ok(Description(WalkChunks(b, 4, fmt)))
    else if typ == RTPFB then
      if |b| < 12 then Err(Malformed)
      else if fmt == FMT_NACK then Ok(Nack(Read32(b, 8), Entries(b, 12, Min((|b| - 12) / 4, MAX_NACK))))
      else if fmt == FMT_TWCC then
        if |b| < 20 then Ok(Transport(Read32(b, 8), 0, 0, 0, 0))
        else
          var all := Reported(b, Read16(b, 14));
          Ok(Transport(Read32(b, 8), Read16(b, 12), Read16(b, 14), Zeros(all), |all| - Zeros(all)))
      else Ok(Feedback(Read32(b, 8)))
    else if typ == PSFB then
      if |b| < 12 then Err(Malformed)
      else if fmt == FMT_REMB then ParseRemb(b, Read32(b, 8))
      else Ok(Feedback(Read32(b, 8)))
    else Ok(Unknown)
  }

  /**
   One packet at the start of `mem[..len]`. The sender's SSRC is read from octets 4 to 7 even of a
   packet that ends before them, so those octets have to be there.
   */
  function Parse(mem: seq<byte>, len: nat): (r: Parsed<Packet>)
    requires len <= |mem| && (len >= 4 ==> 8 <= |mem|)
    ensures r.Ok? ==> 4 <= r.value.total <= len && r.value.total % 4 == 0
  {
    if len < 4 then Err(NeedMore)
    else
      var total := (Read16(mem, 2) + 1) * 4;
      if total > len then Err(NeedMore)
      else if mem[0] / 64 != 2 then Err(Malformed)
      else
        var fmt, typ := mem[0] as nat % 32, mem[1] as nat;
        var body :- ParseBody(mem[..total], typ, fmt);
        Ok(Packet(mem[0] as nat / 32 % 2, fmt, typ, total, Read32(mem, 4), body))
  }

  /** The caller's answer to the packets handed to it so far; zero lets the decoding go on. */
  type Callback = seq<Packet> -> int

  /** The packets of a compound handed to the caller after `seen`, and what ended the decoding early, if anything. */
  function DecodeAll(mem: seq<byte>, len: nat, off: nat, seen: seq<Packet>, cb: Callback): (seq<Packet>, Option<Error>)
    requires off <= len && len + 4 <= |mem|
    decreases len - off
  {
    if off == len then (seen, None)
    else
      match Parse(mem[off..], len - off)
      case Err(e) => (seen, Some(e))
      case Ok(p) =>
        var now := seen + [p];
        if cb(now) != 0 then (now, Some(Refused(cb(now)))) else DecodeAll(mem, len, off + p.total, now, cb)
  }

  // ---------------------------------------------------------------- negative acknowledgements

  predicate Bit(n: nat, j: nat) { n / Pow2(j) % 2 == 1 }

  /** The sequences the low `j` bits of a bitmask name after `pid`, in order. */
  function Following(pid: nat, blp: nat, j: nat): seq<nat> {
    if j == 0 then [] else Following(pid, blp, j - 1) + if Bit(blp, j - 1) then [Low16(pid + j)] else []
  }

  function ExpandEntry(e: (nat, nat)): seq<nat> { [e.0] + Following(e.0, e.1, 16) }

  function ExpandAll(entries: seq<(nat, nat)>): seq<nat> {
    if entries == [] then [] else ExpandAll(entries[..|entries| - 1]) + ExpandEntry(entries[|entries| - 1])
  }

  lemma {:induction false} FollowingNames(pid: nat, blp: nat, j: nat, s: nat)
    requires j <= 16
    ensures s in Following(pid, blp, j) <==> exists k :: 0 <= k < j && Bit(blp, k) && s == Low16(pid + k + 1)
    ensures |Following(pid, blp, j)| <= j
  {
    if j > 0 {
      FollowingNames(pid, blp, j - 1, s);
      if Bit(blp, j - 1) && s == Low16(pid + j) { assert s == Low16(pid + (j - 1) + 1); }
    }
  }

  /** An entry asks for its first sequence and for exactly those its mask marks, at most seventeen. */
  lemma EntryNames(e: (nat, nat), s: nat)
    ensures s in ExpandEntry(e) <==> s == e.0 || exists k :: 0 <= k < 16 && Bit(e.1, k) && s == Low16(e.0 + k + 1)
    ensures |ExpandEntry(e)| <= 17
  {
    FollowingNames(e.0, e.1, 16, s);
  }

  /** No sequence is asked for twice within an entry. */
  lemma EntryIsDistinct(e: (nat, nat), i: nat, j: nat)
    requires e.0 < 0x1_0000 && i < j < |ExpandEntry(e)|
    ensures ExpandEntry(e)[i] != ExpandEntry(e)[j]
  {
    FollowingRises(e.0, e.1, 16, j - 1);
    if i > 0 { FollowingOrder(e.0, e.1, 16, i - 1, j - 1); }
    assert After(e.0, e.0) == 0;
    hide Following, Low16;
  }

  /** How far after `pid` a sequence lies, in wrapping arithmetic. */
  function After(pid: nat, s: nat): nat { Low16(s - pid) }

  lemma AfterStep(pid: nat, j: nat)
    requires pid < 0x1_0000 && j <= 16
    ensures After(pid, Low16(pid + j)) == j
  {
  }

  lemma {:induction false} FollowingRises(pid: nat, blp: nat, j: nat, i: nat)
    requires pid < 0x1_0000 && j <= 16 && i < |Following(pid, blp, j)|
    ensures 0 < After(pid, Following(pid, blp, j)[i]) <= j
  {
    AfterStep(pid, j);
    hide After, Low16, Bit;
    if i < |Following(pid, blp, j - 1)| { FollowingRises(pid, blp, j - 1, i); }
  }

  lemma {:induction false} FollowingOrder(pid: nat, blp: nat, j: nat, i: nat, k: nat)
    requires pid < 0x1_0000 && j <= 16 && i < k < |Following(pid, blp, j)|
    ensures After(pid, Following(pid, blp, j)[i]) < After(pid, Following(pid, blp, j)[k])
  {
    AfterStep(pid, j);
    hide After, Low16, Bit;
    if k < |Following(pid, blp, j - 1)| {
      FollowingOrder(pid, blp, j - 1, i, k);
    } else {
      FollowingRises(pid, blp, j - 1, i);
    }
  }

  // ---------------------------------------------------------------- writing

  function Head(typ: byte, fmt: nat, total: nat): (r: seq<byte>)
    requires fmt < 32 && 4 <= total <= 0x4_0000
    ensures |r| == 4
  {
    [0x80 + fmt, typ] + Be16(total / 4 - 1)
  }

  datatype Message =
    | SenderReport(ssrc: nat, ntp: nat, rtp: nat, packets: nat, octets: nat, rb: Option<Block>)
    | SourceName(ssrc: nat, cname: seq<byte>)
    | PictureLoss(ssrc: nat, media: nat)

  predicate Word(n: nat) { n < 0x1_0000_0000 }

  predicate BlockOk(b: Block) {
    Word(b.ssrc) && b.fraction < 256 && b.lost < 0x100_0000 && Word(b.highest) && Word(b.jitter) && Word(b.lsr) && Word(b.dlsr)
  }

  /** Field values that fit their fields; a name is a C text, and a longer one is refused by the writer. */
  predicate MessageOk(m: Message) {
    match m
    case SenderReport(ssrc, ntp, rtp, packets, octets, rb) =>
      && Word(ssrc) && ntp < 0x1_0000_0000_0000_0000 && Word(rtp) && Word(packets) && Word(octets)
      && (rb.Some? ==> BlockOk(rb.value))
    case SourceName(ssrc, cname) => Word(ssrc) && |cname| <= 255 && NUL !in cname
    case PictureLoss(ssrc, media) => Word(ssrc) && Word(media)
  }

  function BlockBytes(b: Block): (r: seq<byte>)
    requires BlockOk(b)
    ensures |r| == 24
  {
    Be32(b.ssrc) + [b.fraction, b.lost / 0x1_0000] + Be16(b.lost % 0x1_0000)
    + Be32(b.highest) + Be32(b.jitter) + Be32(b.lsr) + Be32(b.dlsr)
  }

  /** A source description as a list of chunks of items, each chunk ended and padded with nulls. */
  datatype Item = Item(typ: byte, text: seq<byte>)

  datatype Chunk = Chunk(ssrc: nat, items: seq<Item>)

  predicate ItemOk(i: Item) { i.typ != 0 && |i.text| <= 255 }

  predicate ChunkOk(c: Chunk) { Word(c.ssrc) && forall i :: 0 <= i < |c.items| ==> ItemOk(c.items[i]) }

  function ItemBytes(i: Item): (r: seq<byte>)
    requires ItemOk(i)
    ensures |r| == 2 + |i.text|
  {
    [i.typ, |i.text|] + i.text
  }

  function ItemsBytes(items: seq<Item>): seq<byte>
    requires forall i :: 0 <= i < |items| ==> ItemOk(items[i])
  {
    if items == [] then [] else ItemBytes(items[0]) + ItemsBytes(items[1..])
  }

  function ChunkEnd(n: nat): (r: seq<byte>)
    ensures (n + |r|) % 4 == 0 && 0 < |r| <= 4 && forall i :: 0 <= i < |r| ==> r[i] == 0
  {
    Nulls(RoundUp4(n + 1) - n)
  }

  function ChunkBytes(c: Chunk): (r: seq<byte>)
    requires ChunkOk(c)
    ensures |r| % 4 == 0 && |r| >= 8
  {
    Be32(c.ssrc) + ItemsBytes(c.items) + ChunkEnd(|ItemsBytes(c.items)|)
  }

  predicate ChunksOk(cs: seq<Chunk>) { forall i :: 0 <= i < |cs| ==> ChunkOk(cs[i]) }

  function ChunksBytes(cs: seq<Chunk>): (r: seq<byte>)
    requires ChunksOk(cs)
    ensures |r| % 4 == 0
  {
    if cs == [] then [] else ChunkBytes(cs[0]) + ChunksBytes(cs[1..])
  }

  function FirstNameIn(items: seq<Item>): Option<seq<byte>> {
    if items == [] then None else if items[0].typ == CNAME then Some(items[0].text) else FirstNameIn(items[1..])
  }

  /** The first canonical name of a description, up to its first NUL. */
  function FirstName(cs: seq<Chunk>): seq<byte> {
    if cs == [] then []
    else
      match FirstNameIn(cs[0].items)
      case Some(n) => CStr(n)
      case None => FirstName(cs[1..])
  }

  function Total(m: Message): (r: nat)
    requires MessageOk(m)
    ensures r % 4 == 0 && 12 <= r <= 0x4_0000
  {
    match m
    case SenderReport(_, _, _, _, _, rb) => if rb.Some? then 52 else 28
    case SourceName(_, cname) => RoundUp4(11 + |cname|)
    case PictureLoss(_, _) => 12
  }

  /** The packet each message is written as. */
  function Encode(m: Message): (r: seq<byte>)
    requires MessageOk(m)
    ensures |r| == Total(m)
  {
    match m
    case SenderReport(ssrc, ntp, rtp, packets, octets, rb) =>
      Head(SR, if rb.Some? then 1 else 0, Total(m)) + Be32(ssrc) + Be32(ntp / 0x1_0000_0000) + Be32(ntp % 0x1_0000_0000)
      + Be32(rtp) + Be32(packets) + Be32(octets) + if rb.Some? then BlockBytes(rb.value) else []
    case SourceName(ssrc, cname) =>
      Head(SDES, 1, Total(m)) + Be32(ssrc) + [CNAME, |cname|] + cname + Nulls(Total(m) - 10 - |cname|)
    case PictureLoss(ssrc, media) => Head(PSFB, FMT_PLI, 12) + Be32(ssrc) + Be32(media)
  }

  /** What a reader makes of a message. */
  function Reading(m: Message): Packet
    requires MessageOk(m)
  {
    match m
    case SenderReport(ssrc, ntp, rtp, packets, octets, rb) =>
      Packet(0, if rb.Some? then 1 else 0, SR, Total(m), ssrc, Sender(ntp, rtp, packets, octets, rb))
    case SourceName(ssrc, cname) => Packet(0, 1, SDES, Total(m), ssrc, Description(cname))
    case PictureLoss(ssrc, media) => Packet(0, 1, PSFB, 12, ssrc, Feedback(media))
  }

  predicate MessagesOk(ms: seq<Message>) { forall i :: 0 <= i < |ms| ==> MessageOk(ms[i]) }

  function Compound(ms: seq<Message>): seq<byte>
    requires MessagesOk(ms)
  {
    if ms == [] then [] else Encode(ms[0]) + Compound(ms[1..])
  }

  function Readings(ms: seq<Message>): seq<Packet>
    requires MessagesOk(ms)
  {
    if ms == [] then [] else [Reading(ms[0])] + Readings(ms[1..])
  }
}
