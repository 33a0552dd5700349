/** The cursor loops over control packets, and the writers into a caller's buffer. */
module Rtcp {
  import opened Options
  import opened Results
  import opened Bytes
  import opened CText
  import opened RtcpSpec
  import opened Wire
  import T = Twcc

  // ---------------------------------------------------------------- reading

  /** Walks the items of one chunk; `done` when the search is over, with or without a name. */
  method ReadItems(b: seq<byte>, from: nat) returns (done: bool, name: seq<byte>, off: nat)
    requires from <= |b|
    ensures off <= |b|
    ensures match WalkItems(b, from)
            case Found(n) => done && name == n
            case Truncated => done && name == []
            case Ended(end) => !done && off == end
  {
    off := from;
    done, name := false, [];
    while off + 1 <= |b|
      invariant from <= off <= |b| && WalkItems(b, off) == WalkItems(b, from)
      decreases |b| - off
    {
      var typ := b[off];
      if typ == 0 {
        off := off + 1;
        return;
      }
      if off + 2 > |b| { return true, [], off; }
      var n := b[off + 1] as nat;
      if off + 2 + n > |b| { return true, [], off; }
      if typ == CNAME { return true, b[off + 2..off + 2 + n], off; }
      off := off + 2 + n;
    }
  }

  method SkipPadding(end: nat) returns (off: nat)
    ensures off == RoundUp4(end)
  {
    off := end;
    while off % 4 != 0
      invariant end <= off <= RoundUp4(end)
      decreases RoundUp4(end) - off
    {
      off := off + 1;
    }
  }

  /** Stores the first canonical name of a source description. */
  method ReadDescription(b: seq<byte>, chunks: nat) returns (cname: seq<byte>)
    ensures cname == WalkChunks(b, 4, chunks)
  {
    var off: nat := 4;
    var chunk: nat := 0;
    hide WalkItems, RoundUp4;
    while chunk < chunks && off + 4 <= |b|
      invariant chunk <= chunks && WalkChunks(b, off, chunks - chunk) == WalkChunks(b, 4, chunks)
      decreases chunks - chunk
    {
      var done, name, end := ReadItems(b, off + 4);
      if done { return CStr(name); }
      off := SkipPadding(end);
      chunk := chunk + 1;
    }
    cname := [];
  }

  /** Feedback on the transport: negative acknowledgements and arrival reports. */
  method ReadTransport(b: seq<byte>, fmt: nat) returns (r: Parsed<Body>)
    requires |b| >= 4
    ensures r == ParseBody(b, RTPFB, fmt)
  {
    hide Read16, Read32, Entries;
    if |b| < 12 { return Err(Malformed); }
    var media := Read32(b, 8);
    if fmt == FMT_NACK {
      var keep := (|b| - 12) / 4;
      if keep > MAX_NACK { keep := MAX_NACK; }
      r := Ok(Nack(media, Entries(b, 12, keep)));
    } else if fmt == FMT_TWCC {
      var base, count, lost, received := T.ParseTwcc(b);
      r := Ok(Transport(media, base, count, lost, received));
    } else {
      r := Ok(Feedback(media));
    }
  }

  method ReadBody(b: seq<byte>, typ: nat, fmt: nat) returns (r: Parsed<Body>)
    requires |b| >= 4
    ensures r == ParseBody(b, typ, fmt)
  {
    hide WalkChunks, ReadBlock, Read32, Read64, ParseRemb;
    if typ == SR {
      if |b| < 28 { return Err(Malformed); }
      var block: Option<Block> := None;
      if fmt > 0 {
        if |b| < 52 { return Err(Malformed); }
        block := Some(ReadBlock(b, 28));
      }
      r := Ok(Sender(Read64(b, 8), Read32(b, 16), Read32(b, 20), Read32(b, 24), block));
    } else if typ == RR {
      if fmt > 0 && |b| < 32 { return Err(Malformed); }
      r := Ok(Receiver(if fmt > 0 then Some(ReadBlock(b, 8)) else None));
    } else if typ == SDES {
      if |b| < 8 { return Err(Malformed); }
      var cname := ReadDescription(b, fmt);
      r := Ok(Description(cname));
    } else if typ == RTPFB {
      r := ReadTransport(b, fmt);
    } else if typ == PSFB {
      if |b| < 12 { return Err(Malformed); }
      var media := Read32(b, 8);
      r := if fmt == FMT_REMB then ParseRemb(b, media) else Ok(Feedback(media));
    } else {
      r := Ok(Unknown);
    }
  }

  method ReadPacket(mem: seq<byte>, len: nat) returns (r: Parsed<Packet>)
    requires len <= |mem| && (len >= 4 ==> 8 <= |mem|)
    ensures r == Parse(mem, len)
  {
    hide ParseBody;
    if len < 4 { return Err(NeedMore); }
    var total := (Read16(mem, 2) + 1) * 4;
    if total > len { return Err(NeedMore); }
    if mem[0] / 64 != 2 { return Err(Malformed); }
    var fmt, typ := mem[0] as nat % 32, mem[1] as nat;
    var body := ReadBody(mem[..total], typ, fmt);
    if body.Err? { return Err(body.error); }
    r := Ok(Packet(mem[0] as nat / 32 % 2, fmt, typ, total, Read32(mem, 4), body.value));
  }

  /** Hands the packets of a compound to the caller one by one, until the end, the first error or its first refusal. */
  method DecodeCompound(mem: seq<byte>, len: nat, cb: Callback) returns (handed: seq<Packet>, err: Option<Error>)
    requires len + 4 <= |mem|
    ensures (handed, err) == DecodeAll(mem, len, 0, [], cb)
  {
    handed, err := [], None;
    var off: nat := 0;
    ghost var all := DecodeAll(mem, len, 0, [], cb);
    hide DecodeAll;
    var stop := len == 0;
    DecodeStep(mem, len, len, handed, cb);
    while !stop
      invariant off <= len && (!stop ==> off < len && err == None)
      invariant all == if stop then (handed, err) else DecodeAll(mem, len, off, handed, cb)
      decreases len - off, !stop
    {
      handed, err, off, stop := DecodeOne(mem, len, off, handed, cb);
    }
  }

  /** Decodes the packet at `off` and hands it over. */
  method DecodeOne(mem: seq<byte>, len: nat, off: nat, seen: seq<Packet>, cb: Callback)
    returns (handed: seq<Packet>, err: Option<Error>, next: nat, stop: bool)
    requires off < len && len + 4 <= |mem|
    ensures off <= next <= len && (!stop ==> off < next < len && err == None)
    ensures DecodeAll(mem, len, off, seen, cb) == if stop then (handed, err) else DecodeAll(mem, len, next, handed, cb)
  {
    DecodeStep(mem, len, off, seen, cb);
    hide Parse, DecodeAll;
    handed, err, next, stop := seen, None, off, true;
    var r := ReadPacket(mem[off..], len - off);
    if r.Err? { return handed, Some(r.error), off, true; }
    handed := seen + [r.value];
    var rc := cb(handed);
    if rc != 0 { return handed, Some(Refused(rc)), off, true; }
    next := off + r.value.total;
    stop := next == len;
    if stop { DecodeStep(mem, len, len, handed, cb); }
  }

  lemma DecodeStep(mem: seq<byte>, len: nat, off: nat, seen: seq<Packet>, cb: Callback)
    requires off <= len && len + 4 <= |mem|
    ensures DecodeAll(mem, len, off, seen, cb) ==
      if off == len then (seen, None)
      else
        match Parse(mem[off..], len - off)
        case Err(e) => (seen, Some(e))
        case Ok(p) =>
          if cb(seen + [p]) != 0 then (seen + [p], Some(Refused(cb(seen + [p]))))
          else DecodeAll(mem, len, off + p.total, seen + [p], cb)
  {
    hide Parse;
  }

  /** Lists the requested sequences into the caller's array; short when they do not all fit. */
  method NackExpand(entries: seq<(nat, nat)>, seqs: array<nat>) returns (ok: bool, count: nat)
    modifies seqs
    ensures ok == (|ExpandAll(entries)| <= seqs.Length)
    ensures count <= seqs.Length && count <= |ExpandAll(entries)| && seqs[..count] == ExpandAll(entries)[..count]
    ensures count == if ok then |ExpandAll(entries)| else seqs.Length
  {
    count := 0;
    var i: nat := 0;
    hide Low16, Bit;
    while i < |entries|
      invariant i <= |entries| && count <= seqs.Length && seqs[..count] == ExpandAll(entries[..i])
    {
      ghost var before := ExpandAll(entries[..i]);
      assert entries[..i + 1][..i] == entries[..i];
      ExpandGrows(entries, i + 1);
      ok, count := ExpandOne(entries[i], seqs, count, before);
      if !ok {
        assert ExpandAll(entries)[..count] == ExpandAll(entries[..i + 1])[..count];
        return;
      }
      i := i + 1;
    }
    assert entries[..i] == entries;
    ok := true;
  }

  /** One entry: its first sequence, then the ones its mask marks. */
  method ExpandOne(e: (nat, nat), seqs: array<nat>, from: nat, ghost before: seq<nat>) returns (ok: bool, count: nat)
    requires from <= seqs.Length && seqs[..from] == before
    modifies seqs
    ensures ok == (from + |ExpandEntry(e)| <= seqs.Length)
    ensures if ok then count == from + |ExpandEntry(e)| && seqs[..count] == before + ExpandEntry(e)
            else count == seqs.Length <= |before + ExpandEntry(e)| && seqs[..count] == (before + ExpandEntry(e))[..count]
  {
    count := from;
    if count >= seqs.Length { return false, count; }
    seqs[count] := e.0;
    count := count + 1;
    var j: nat := 0;
    ghost var done := before + [e.0];
    hide Low16, Bit;
    while j < 16
      invariant j <= 16 && count <= seqs.Length
      invariant seqs[..count] == done + Following(e.0, e.1, j)
      invariant |done| == from + 1
    {
      FollowingGrows(e.0, e.1, j + 1, 16);
      if Bit(e.1, j) {
        if count >= seqs.Length {
          PrefixOfMore(done, Following(e.0, e.1, j), Following(e.0, e.1, 16), before, e.0);
          return false, count;
        }
        seqs[count] := Low16(e.0 + j + 1);
        count := count + 1;
      }
      j := j + 1;
    }
    ok := true;
    assert before + [e.0] + Following(e.0, e.1, 16) == before + ExpandEntry(e);
  }

  lemma {:induction false} FollowingGrows(pid: nat, blp: nat, j: nat, k: nat)
    requires j <= k
    ensures Following(pid, blp, j) <= Following(pid, blp, k)
    decreases k - j
  {
    hide Low16, Bit;
    if j < k { FollowingGrows(pid, blp, j, k - 1); }
  }

  lemma PrefixOfMore(done: seq<nat>, a: seq<nat>, b: seq<nat>, before: seq<nat>, first: nat)
    requires done == before + [first] && a <= b
    ensures var all := before + ([first] + b); |done + a| <= |all| && done + a == all[..|done + a|]
  {
  }

  lemma {:induction false} ExpandGrows(entries: seq<(nat, nat)>, i: nat)
    requires i <= |entries|
    ensures ExpandAll(entries[..i]) <= ExpandAll(entries)
    decreases |entries|
  {
    hide ExpandEntry;
    if i == |entries| {
      assert entries[..i] == entries;
    } else {
      ExpandGrows(entries[..|entries| - 1], i);
      assert entries[..|entries| - 1][..i] == entries[..i];
    }
  }

  // ---------------------------------------------------------------- writing

  method WriteHead(out: array<byte>, typ: byte, fmt: nat, total: nat)
    requires out.Length >= 4 && fmt < 32 && 4 <= total <= 0x4_0000
    modifies out
    ensures out[..4] == Head(typ, fmt, total)
  {
    out[0] := 0x80 + fmt;
    out[1] := typ;
    Write16(out, 2, total / 4 - 1);
    assert out[..2] == [0x80 + fmt, typ];
  }

  method EncodePli(m: Message, out: array<byte>) returns (r: Parsed<nat>)
    requires MessageOk(m) && m.PictureLoss?
    modifies out
    ensures r == if out.Length >= 12 then Ok(12) else Err(TooSmall)
    ensures r.Ok? ==> out[..12] == Encode(m)
  {
    if out.Length < 12 { return Err(TooSmall); }
    WriteHead(out, PSFB, FMT_PLI, 12);
    hide Head, Be32;
    var pos := Append32(out, 4, m.ssrc);
    pos := Append32(out, pos, m.media);
    r := Ok(12);
  }

  /** Writes a source description with one name; `text` is the caller's buffer, read up to its first NUL. */
  method EncodeSdes(ssrc: nat, text: seq<byte>, out: array<byte>) returns (r: Parsed<nat>)
    requires Word(ssrc)
    modifies out
    ensures |CStr(text)| > 255 ==> r == Err(TooLarge)
    ensures |CStr(text)| <= 255 ==>
      var m := SourceName(ssrc, CStr(text));
      && r == (if out.Length >= Total(m) then Ok(Total(m)) else Err(TooSmall))
      && (r.Ok? ==> out[..Total(m)] == Encode(m))
  {
    var cname := CStr(text);
    if |cname| > 255 { return Err(TooLarge); }
    var total := 11 + |cname|;
    var pad := if total % 4 == 0 then 0 else 4 - total % 4;
    total := total + pad;
    if out.Length < total { return Err(TooSmall); }
    ghost var m := SourceName(ssrc, cname);
    assert total == Total(m) && total - 10 - |cname| == 1 + pad;
    WriteHead(out, SDES, 1, total);
    hide Head, Be32, RoundUp4;
    var pos := Append32(out, 4, ssrc);
    pos := Append(out, pos, [CNAME, |cname|]);
    pos := Append(out, pos, cname);
    pos := Append(out, pos, Nulls(1 + pad));
    r := Ok(total);
  }

  /** The fixed part of a sender report: everything but its block. */
  ghost function SenderInfo(m: Message, total: nat): seq<byte>
    requires MessageOk(m) && m.SenderReport? && 4 <= total <= 0x4_0000
  {
    Head(SR, if m.rb.Some? then 1 else 0, total) + Be32(m.ssrc) + Be32(m.ntp / 0x1_0000_0000) + Be32(m.ntp % 0x1_0000_0000)
    + Be32(m.rtp) + Be32(m.packets) + Be32(m.octets)
  }

  method WriteSenderInfo(m: Message, total: nat, out: array<byte>)
    requires MessageOk(m) && m.SenderReport? && 28 <= total <= 0x4_0000 && out.Length >= total
    modifies out
    ensures out[..28] == SenderInfo(m, total)
  {
    WriteHead(out, SR, if m.rb.Some? then 1 else 0, total);
    hide Head, Be32, BlockOk;
    var pos := Append32(out, 4, m.ssrc);
    pos := Append32(out, pos, m.ntp / 0x1_0000_0000);
    pos := Append32(out, pos, m.ntp % 0x1_0000_0000);
    pos := Append32(out, pos, m.rtp);
    pos := Append32(out, pos, m.packets);
    pos := Append32(out, pos, m.octets);
  }

  /** Writes a sender report; a zero NTP time is replaced by the clock's. */
  method EncodeSr(m: Message, now: nat, out: array<byte>) returns (r: Parsed<nat>)
    requires MessageOk(m) && m.SenderReport? && now < 0x1_0000_0000_0000_0000
    modifies out
    ensures r == if out.Length >= Total(m) then Ok(Total(m)) else Err(TooSmall)
    ensures r.Ok? ==> out[..Total(m)] == Encode(if m.ntp == 0 then m.(ntp := now) else m)
  {
    var total := if m.rb.Some? then 52 else 28;
    if out.Length < total { return Err(TooSmall); }
    var stamped := if m.ntp == 0 then m.(ntp := now) else m;
    WriteSenderInfo(stamped, total, out);
    SenderBytes(stamped, total);
    hide SenderInfo, Encode, BlockBytes, BlockOk;
    ghost var fixedPart := out[..28];
    if m.rb.Some? {
      var end := Append(out, 28, BlockBytes(m.rb.value));
    } else {
      assert fixedPart + [] == fixedPart;
    }
    r := Ok(total);
  }

  lemma SenderBytes(m: Message, total: nat)
    requires MessageOk(m) && m.SenderReport? && total == Total(m)
    ensures Encode(m) == SenderInfo(m, total) + if m.rb.Some? then BlockBytes(m.rb.value) else []
  {
    hide Head, Be32, BlockBytes;
  }

  /** Appends a packet to a compound of `len` octets, unless it does not fit. */
  method CompoundAppend(compound: array<byte>, len: nat, packet: seq<byte>) returns (r: Parsed<nat>)
    modifies compound
    ensures r == if len + |packet| <= compound.Length then Ok(len + |packet|) else Err(TooSmall)
    ensures r.Ok? ==> compound[..r.value] == old(compound[..len]) + packet
    ensures r.Err? ==> compound[..] == old(compound[..])
  {
    if len > compound.Length || |packet| > compound.Length - len { return Err(TooSmall); }
    var end := Append(compound, len, packet);
    r := Ok(end);
  }
}
