/** Writing an answer into the caller's buffer, piece by piece, each piece refused if it does not fit. */
module SdpWriter {
  import opened Results
  import opened SdpText
  import opened SdpAnswer

  lemma JoinFirst(line: string, rest: seq<string>)
    ensures Join([line] + rest) == line + CRLF + Join(rest)
  {
    assert ([line] + rest)[1..] == rest;
  }

  lemma NestTransport(a: seq<string>, b: seq<string>, c: seq<string>, d: seq<string>, more: seq<string>)
    ensures a + b + c + d + more == a + (b + (c + (d + more)))
  {
  }

  lemma NestHead(a: string, b: string, c: string, d: string, e: string, f: string, g: string, more: seq<string>)
    ensures [a, b, c, d, e, f, g] + more == [a] + ([b] + ([c] + ([d] + ([e] + ([f] + ([g] + more))))))
  {
  }

  lemma NestSection(a: string, b: string, c: string, e: seq<string>, t: seq<string>, r: string, f: seq<string>, fb: seq<string>,
                    s: string, more: seq<string>)
    ensures [a, b, c] + e + t + [r] + f + fb + [s] + more
         == [a] + ([b] + ([c] + (e + (t + ([r] + (f + (fb + ([s] + more))))))))
  {
    var tail := fb + ([s] + more);
    assert [a, b, c] + e + t == [a] + ([b] + ([c] + (e + t)));
    assert [r] + f + fb + [s] + more == [r] + (f + tail);
    assert [a, b, c] + e + t + [r] + f + fb + [s] + more == ([a, b, c] + e + t) + ([r] + (f + tail));
    assert e + t + ([r] + (f + tail)) == e + (t + ([r] + (f + tail)));
  }

  class Writer {
    const data: array<char>
    var len: nat

    ghost predicate Valid()
      reads `len
    {
      len <= data.Length
    }

    ghost function Text(): string
      reads `len, data
      requires Valid()
    {
      data[..len]
    }

    /** There is room, and what has been written followed by `rest` is the whole. */
    ghost predicate Owes(rest: string, total: string)
      reads `len, data
    {
      len < data.Length && Text() + rest == total
    }

    ghost predicate Pending(lines: seq<string>, total: string)
      reads `len, data
    {
      Owes(Join(lines), total)
    }

    /** The writer has been refused: the whole does not fit the buffer with its terminator. */
    ghost predicate Refused(total: string)
      reads `len
    {
      Valid() && |total| >= data.Length
    }

    constructor (buffer: array<char>)
      ensures data == buffer && len == 0 && Valid()
    {
      data, len := buffer, 0;
    }

    /** Prints into what is left, cut short and marked full when it does not fit. */
    method Append(s: string) returns (ok: bool)
      requires Valid()
      modifies this`len, data
      ensures Valid() && ok == (|old(Text())| + |s| < data.Length)
      ensures if ok then Text() == old(Text()) + s else len == data.Length
    {
      if len >= data.Length { return false; }
      var room := data.Length - len;
      var n := if |s| < room then |s| else room - 1;
      forall i | 0 <= i < n { data[len + i] := s[i]; }
      data[len + n] := '\0';
      if |s| >= room {
        len := data.Length;
        return false;
      }
      len := len + |s|;
      ok := true;
      assert data[..len] == old(data[..len]) + s;
    }

    /** Prints the next part of what is owed. */
    method Put(s: string, ghost rest: string, ghost total: string) returns (ok: bool)
      requires Owes(s + rest, total)
      modifies this`len, data
      ensures if ok then Owes(rest, total) else Refused(total)
    {
      ok := Append(s);
      if ok { Regroup(old(Text()), s, rest); }
    }

    method PutLine(line: string, ghost more: seq<string>, ghost total: string) returns (ok: bool)
      requires Pending([line] + more, total)
      modifies this`len, data
      ensures if ok then Pending(more, total) else Refused(total)
    {
      JoinFirst(line, more);
      ok := Put(line + CRLF, Join(more), total);
    }

    method PutWhen(c: bool, line: string, ghost more: seq<string>, ghost total: string) returns (ok: bool)
      requires Pending(When(c, line) + more, total)
      modifies this`len, data
      ensures if ok then Pending(more, total) else Refused(total)
    {
      ok := true;
      if c { ok := PutLine(line, more, total); } else { assert [] + more == more; }
    }

    /** The bundle names the carried sections in order. */
    method WriteGroup(slots: seq<Slot>, ghost more: seq<string>, ghost total: string) returns (ok: bool)
      requires Pending(["a=group:BUNDLE" + GroupMids(slots)] + more, total)
      modifies this`len, data
      ensures if ok then Pending(more, total) else Refused(total)
    {
      ghost var tail := CRLF + Join(more);
      JoinFirst("a=group:BUNDLE" + GroupMids(slots), more);
      Regroup("a=group:BUNDLE" + GroupMids(slots), CRLF, Join(more));
      Regroup("a=group:BUNDLE", GroupMids(slots), tail);
      ok := Put("a=group:BUNDLE", GroupMids(slots) + tail, total);
      if !ok { return; }
      MidsFrom(slots);
      var i: nat := 0;
      while i < |slots|
        invariant i <= |slots| && Owes(MidsOf(slots, i) + tail, total)
      {
        ghost var rest := MidsOf(slots, i + 1);
        if Carried(slots[i]) {
          Regroup(" " + slots[i].mid, rest, tail);
          ok := Put(" " + slots[i].mid, rest + tail, total);
          if !ok { return; }
        } else {
          assert "" + rest == rest;
        }
        i := i + 1;
      }
      assert MidsOf(slots, i) + tail == tail;
      ok := Put(CRLF, Join(more), total);
    }

    method WriteHead(c: Answer, ghost more: seq<string>, ghost total: string) returns (ok: bool)
      requires Pending(HeadLines(c) + more, total)
      modifies this`len, data
      ensures if ok then Pending(more, total) else Refused(total)
    {
      hide Pending, Refused, GroupMids;
      var a, b, d, e, f, g := "v=0", "o=ngx-rtc 0 1 IN IP4 0.0.0.0", "s=-", "t=0 0", "a=msid-semantic: WMS", "a=ice-lite";
      ghost var group := "a=group:BUNDLE" + GroupMids(c.slots);
      NestHead(a, b, d, e, group, f, g, more);
      ghost var r6 := [g] + more;
      ghost var r5 := [f] + r6;
      ghost var r4 := [group] + r5;
      ok := PutLine(a, [b] + ([d] + ([e] + r4)), total);
      if !ok { return; }
      ok := PutLine(b, [d] + ([e] + r4), total);
      if !ok { return; }
      ok := PutLine(d, [e] + r4, total);
      if !ok { return; }
      ok := PutLine(e, r4, total);
      if !ok { return; }
      ok := WriteGroup(c.slots, r5, total);
      if !ok { return; }
      ok := PutLine(f, r6, total);
      if !ok { return; }
      ok := PutLine(g, more, total);
    }

    method WriteCredentials(c: Answer, ghost more: seq<string>, ghost total: string) returns (ok: bool)
      requires Pending(CredentialLines(c) + more, total)
      modifies this`len, data
      ensures if ok then Pending(more, total) else Refused(total)
    {
      hide Pending, Refused, When;
      var both := c.algo != "" && c.fingerprint != "";
      ghost var w1 := When(c.ufrag != "", "a=ice-ufrag:" + c.ufrag);
      ghost var w2 := When(c.pwd != "", "a=ice-pwd:" + c.pwd);
      ghost var w3 := When(both, "a=fingerprint:" + c.algo + " " + c.fingerprint);
      ghost var w4 := When(c.setup != "", "a=setup:" + c.setup);
      NestTransport(w1, w2, w3, w4, more);
      ok := PutWhen(c.ufrag != "", "a=ice-ufrag:" + c.ufrag, w2 + (w3 + (w4 + more)), total);
      if !ok { return; }
      ok := PutWhen(c.pwd != "", "a=ice-pwd:" + c.pwd, w3 + (w4 + more), total);
      if !ok { return; }
      ok := PutWhen(both, "a=fingerprint:" + c.algo + " " + c.fingerprint, w4 + more, total);
      if !ok { return; }
      ok := PutWhen(c.setup != "", "a=setup:" + c.setup, more, total);
    }

    method WriteTransport(c: Answer, ghost more: seq<string>, ghost total: string) returns (ok: bool)
      requires Pending(TransportLines(c) + more, total)
      modifies this`len, data
      ensures if ok then Pending(more, total) else Refused(total)
    {
      hide Pending, Refused, When;
      var candidate := "a=candidate:1 1 udp 2130706431 " + c.candidateIp + " " + Dec(c.candidatePort) + " typ host generation 0";
      var direction := if c.direction > 0 then "a=sendonly" else "a=recvonly";
      ghost var w1 := When(c.candidateIp != "", candidate);
      ghost var w2 := When(c.direction != 0, direction);
      ghost var w3 := When(c.mux, "a=rtcp-mux");
      ghost var w4 := When(c.rsize, "a=rtcp-rsize");
      NestTransport(w1, w2, w3, w4, more);
      ok := PutWhen(c.candidateIp != "", candidate, w2 + (w3 + (w4 + more)), total);
      if !ok { return; }
      ok := PutWhen(c.direction != 0, direction, w3 + (w4 + more), total);
      if !ok { return; }
      ok := PutWhen(c.mux, "a=rtcp-mux", w4 + more, total);
      if !ok { return; }
      ok := PutWhen(c.rsize, "a=rtcp-rsize", more, total);
    }

    method WriteFeedback(c: Answer, s: Slot, ghost more: seq<string>, ghost total: string) returns (ok: bool)
      requires Pending(FeedbackLines(c, s) + more, total)
      modifies this`len, data
      ensures if ok then Pending(more, total) else Refused(total)
    {
      hide Pending, Refused, When, Dec;
      var pli := "a=rtcp-fb:" + Dec(c.video.pt) + " nack pli";
      var nack := "a=rtcp-fb:" + Dec(c.video.pt) + " nack";
      ghost var w := When(s.typ == "video" && c.direction > 0, nack);
      assert FeedbackLines(c, s) + more == When(s.typ == "video", pli) + (w + more);
      ok := PutWhen(s.typ == "video", pli, w + more, total);
      if !ok { return; }
      ok := PutWhen(s.typ == "video" && c.direction > 0, nack, more, total);
    }

    method WriteMedia(c: Answer, s: Slot, ghost more: seq<string>, ghost total: string) returns (ok: bool)
      requires Carried(s) && Pending(SectionLines(c, s) + more, total)
      modifies this`len, data
      ensures if ok then Pending(more, total) else Refused(total)
    {
      hide Pending, Refused, When, Dec, MediaLine, RtpmapLine, SsrcLine, FeedbackLines, TransportLines;
      var p := PlanOf(c, s);
      NestSection(MediaLine(c, s), "c=IN IP4 0.0.0.0", "a=mid:" + s.mid, ExtmapLines(p), TransportLines(c), RtpmapLine(c, s),
                  FmtpLines(p), FeedbackLines(c, s), SsrcLine(p), more);
      ghost var r8 := [SsrcLine(p)] + more;
      ghost var r7 := FeedbackLines(c, s) + r8;
      ghost var r6 := FmtpLines(p) + r7;
      ghost var r5 := [RtpmapLine(c, s)] + r6;
      ghost var r4 := TransportLines(c) + r5;
      ghost var r3 := ExtmapLines(p) + r4;
      ok := PutLine(MediaLine(c, s), ["c=IN IP4 0.0.0.0"] + (["a=mid:" + s.mid] + r3), total);
      if !ok { return; }
      ok := PutLine("c=IN IP4 0.0.0.0", ["a=mid:" + s.mid] + r3, total);
      if !ok { return; }
      ok := PutLine("a=mid:" + s.mid, r3, total);
      if !ok { return; }
      ok := PutWhen(p.ext != 0 && p.uri != "", "a=extmap:" + Dec(p.ext) + " " + p.uri, r4, total);
      if !ok { return; }
      ok := WriteTransport(c, r5, total);
      if !ok { return; }
      ok := PutLine(RtpmapLine(c, s), r6, total);
      if !ok { return; }
      ok := PutWhen(p.fmtp != "", "a=fmtp:" + Dec(p.pt) + " " + p.fmtp, r7, total);
      if !ok { return; }
      ok := WriteFeedback(c, s, r8, total);
      if !ok { return; }
      ok := PutLine(SsrcLine(p), more, total);
    }

    method WriteAll(c: Answer, ghost total: string) returns (ok: bool)
      requires Pending(HeadLines(c) + (CredentialLines(c) + SectionsFrom(c, 0)), total)
      modifies this`len, data
      ensures if ok then len < data.Length && Text() == total else Refused(total)
    {
      hide HeadLines, CredentialLines, SectionsFrom, Pending, Refused;
      ok := WriteHead(c, CredentialLines(c) + SectionsFrom(c, 0), total);
      if !ok { return; }
      ok := WriteCredentials(c, SectionsFrom(c, 0), total);
      if !ok { return; }
      ok := WriteSections(c, total);
      if ok { NothingOwed(total); }
    }

    lemma NothingOwed(total: string)
      requires Pending([], total)
      ensures len < data.Length && Text() == total
    {
      assert Text() + "" == Text();
    }

    /** One section per slot, in the order of the offer. */
    method WriteSections(c: Answer, ghost total: string) returns (ok: bool)
      requires Pending(SectionsFrom(c, 0), total)
      modifies this`len, data
      ensures if ok then Pending([], total) else Refused(total)
    {
      var i: nat := 0;
      ok := true;
      hide Pending, Refused, SectionLines;
      while i < |c.slots|
        invariant i <= |c.slots| && ok && Pending(SectionsFrom(c, i), total)
      {
        ghost var more := SectionsFrom(c, i + 1);
        if Carried(c.slots[i]) {
          ok := WriteMedia(c, c.slots[i], more, total);
        } else {
          RejectionIsOneLine(c, c.slots[i]);
          ok := PutLine(MediaLine(c, c.slots[i]), more, total);
        }
        if !ok { return; }
        i := i + 1;
      }
    }
  }

  lemma AnswerInOrder(c: Answer)
    ensures AnswerText(c) == Join(HeadLines(c) + (CredentialLines(c) + SectionsFrom(c, 0)))
  {
    SectionsInTwo(c, 0);
    assert c.slots[..0] == [];
    hide HeadLines, CredentialLines, SectionsFrom, Join;
    var h, k, z := HeadLines(c), CredentialLines(c), SectionsFrom(c, 0);
    assert Sections(c, []) + z == z;
    assert h + k + z == h + (k + z);
  }

  lemma RejectionIsOneLine(c: Answer, s: Slot)
    ensures !Carried(s) ==> SectionLines(c, s) == [MediaLine(c, s)]
  {
  }

  function SectionsFrom(c: Answer, i: nat): seq<string>
    requires i <= |c.slots|
    decreases |c.slots| - i
  {
    if i == |c.slots| then [] else SectionLines(c, c.slots[i]) + SectionsFrom(c, i + 1)
  }

  lemma {:induction false} SectionsInTwo(c: Answer, i: nat)
    requires i <= |c.slots|
    ensures Sections(c, c.slots) == Sections(c, c.slots[..i]) + SectionsFrom(c, i)
    decreases |c.slots| - i
  {
    hide SectionLines;
    if i == |c.slots| {
      assert c.slots[..i] == c.slots;
    } else {
      SectionsInTwo(c, i + 1);
      assert c.slots[..i + 1][..i] == c.slots[..i];
    }
  }

  /** What the bundle line still has to name from slot `i` on. */
  function MidsOf(slots: seq<Slot>, i: nat): string
    requires i <= |slots|
    decreases |slots| - i
  {
    if i == |slots| then "" else (if Carried(slots[i]) then " " + slots[i].mid else "") + MidsOf(slots, i + 1)
  }

  lemma {:induction false} MidsInTwo(slots: seq<Slot>, i: nat)
    requires i <= |slots|
    ensures GroupMids(slots) == GroupMids(slots[..i]) + MidsOf(slots, i)
    decreases |slots| - i
  {
    if i == |slots| {
      assert slots[..i] == slots;
    } else {
      MidsInTwo(slots, i + 1);
      assert slots[..i + 1][..i] == slots[..i];
      Regroup(GroupMids(slots[..i]), if Carried(slots[i]) then " " + slots[i].mid else "", MidsOf(slots, i + 1));
    }
  }

  lemma MidsFrom(slots: seq<Slot>)
    ensures GroupMids(slots) == MidsOf(slots, 0)
  {
    MidsInTwo(slots, 0);
    assert slots[..0] == [];
    assert "" + MidsOf(slots, 0) == MidsOf(slots, 0);
  }

  /**
   Writes the answer. It succeeds exactly when the whole text and a terminator fit the buffer, and
   then the buffer holds that text.
   */
  method GenerateAnswer(c: Answer, buffer: array<char>) returns (r: Parsed<nat>)
    modifies buffer
    ensures r.Ok? <==> |AnswerText(c)| < buffer.Length
    ensures r.Ok? ==> r.value == |AnswerText(c)| && buffer[..r.value] == AnswerText(c)
    ensures r.Err? ==> r.error == TooSmall
  {
    if buffer.Length == 0 { return Err(TooSmall); }
    var w := new Writer(buffer);
    ghost var total := AnswerText(c);
    AnswerInOrder(c);
    hide HeadLines, CredentialLines, SectionsFrom, AnswerText, Join;
    assert "" + total == total;
    var ok := w.WriteAll(c, total);
    if !ok { return Err(TooSmall); }
    r := Ok(w.len);
  }
}
