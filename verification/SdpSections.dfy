/**
 What the parser makes of each kind of line an answer consists of, in context.

 The lines it has no use for leave it alone; a media line opens a section; the attributes of a
 section fill in the medium it opened; the attributes of the session fill in the credentials. A
 section read line by line is the medium its slot announces. At the end, no written line contains
 a line break, so that the text of an answer splits into the lines it was made of.
 */
module SdpSections {
  import opened Bytes
  import opened Results
  import opened SdpText
  import opened SdpSpec
  import opened SdpAnswer
  import opened SdpRoundTrip

  // ---------------------------------------------------------------- lines that are passed over

  lemma HeadIsSkipped(c: Answer)
    ensures AllSkipped(HeadLines(c))
  {
    hide Skipped, GroupMids;
    PlainHeadIsSkipped();
    GroupIsSkipped(GroupMids(c.slots));
    SemanticIsSkipped();
  }

  lemma PlainHeadIsSkipped()
    ensures Skipped("v=0") && Skipped("o=ngx-rtc 0 1 IN IP4 0.0.0.0") && Skipped("s=-") && Skipped("t=0 0")
  {
    hide Skipped;
    SkippedOther("v=0");
    SkippedOther("o=ngx-rtc 0 1 IN IP4 0.0.0.0");
    SkippedOther("s=-");
    SkippedOther("t=0 0");
  }

  lemma GroupIsSkipped(mids: string)
    ensures Skipped("a=group:BUNDLE" + mids)
  {
    Keys();
    NamesHaveNoColon();
    hide Skipped, KeyOf, Free;
    assert "a=group:BUNDLE" == "a=" + "group" + ":" + "BUNDLE";
    assert "a=group:BUNDLE" + mids == "a=" + "group" + ":" + ("BUNDLE" + mids);
    SkippedAttr("a=group:BUNDLE" + mids, "group", "BUNDLE" + mids);
  }

  lemma SemanticIsSkipped()
    ensures Skipped("a=msid-semantic: WMS") && Skipped("a=ice-lite")
  {
    Keys();
    NamesHaveNoColon();
    hide Skipped, KeyOf, Free;
    assert "a=msid-semantic: WMS" == "a=" + "msid-semantic" + ":" + " WMS";
    SkippedAttr("a=msid-semantic: WMS", "msid-semantic", " WMS");
    assert "a=ice-lite" == "a=" + "ice-lite";
    SkippedFlag("a=ice-lite", "ice-lite");
  }

  function CandidateLine(c: Answer): string {
    "a=candidate:1 1 udp 2130706431 " + c.candidateIp + " " + Dec(c.candidatePort) + " typ host generation 0"
  }

  lemma CandidateIsSkipped(c: Answer)
    ensures Skipped(CandidateLine(c))
  {
    Keys();
    NamesHaveNoColon();
    hide ParseLine, Dec, KeyOf, Skipped, Free;
    var prefix, a, b, z := "a=candidate:1 1 udp 2130706431 ", c.candidateIp, Dec(c.candidatePort), " typ host generation 0";
    assert prefix == "a=" + "candidate" + ":" + "1 1 udp 2130706431 ";
    Regroup4("a=" + "candidate" + ":", "1 1 udp 2130706431 ", a, b, z);
    SkippedAttr(CandidateLine(c), "candidate", "1 1 udp 2130706431 " + a + " " + b + z);
  }

  lemma Regroup4(h: string, p: string, a: string, b: string, z: string)
    ensures h + p + a + " " + b + z == h + (p + a + " " + b + z)
  {
  }

  lemma TransportIsSkipped(c: Answer)
    ensures AllSkipped(TransportLines(c))
  {
    hide ParseLine, Dec, Skipped;
    CandidateIsSkipped(c);
    FlagsAreSkipped();
    assert Skipped("a=candidate:1 1 udp 2130706431 " + c.candidateIp + " " + Dec(c.candidatePort) + " typ host generation 0");
  }

  lemma FlagsAreSkipped()
    ensures Skipped("a=sendonly") && Skipped("a=recvonly") && Skipped("a=rtcp-mux") && Skipped("a=rtcp-rsize")
  {
    hide ParseLine;
    Keys();
    NamesHaveNoColon();
    SkippedFlag("a=sendonly", "sendonly");
    SkippedFlag("a=recvonly", "recvonly");
    SkippedFlag("a=rtcp-mux", "rtcp-mux");
    SkippedFlag("a=rtcp-rsize", "rtcp-rsize");
    hide KeyOf, Skipped;
  }

  lemma FeedbackIsSkipped(c: Answer, s: Slot)
    ensures AllSkipped(FeedbackLines(c, s))
  {
    hide ParseLine;
    Keys();
    NamesHaveNoColon();
    var d := Dec(c.video.pt);
    assert "a=rtcp-fb:" + d + " nack pli" == "a=" + "rtcp-fb" + ":" + (d + " nack pli");
    assert "a=rtcp-fb:" + d + " nack" == "a=" + "rtcp-fb" + ":" + (d + " nack");
    SkippedAttr("a=rtcp-fb:" + d + " nack pli", "rtcp-fb", d + " nack pli");
    SkippedAttr("a=rtcp-fb:" + d + " nack", "rtcp-fb", d + " nack");
    hide KeyOf, Skipped, Dec;
  }

  // ---------------------------------------------------------------- one section

  lemma PortsAreTokens()
    ensures OneToken("9") && OneToken("0")
  {
  }

  lemma MediaLineOpens(c: Answer, s: Slot, session: Session, base: seq<Media>)
    requires Readable(c) && SlotOk(s) && |base| < MAX_MEDIA
    ensures ParseLines(Parser(session, base), [MediaLine(c, s)])
         == Ok(Reading(session, base, Media(s.typ, "", 0, if Carried(s) then [Pt(PlanOf(c, s).pt, "", 0, 0, "")] else [], 0, "")))
  {
    hide ParseMedia, OneToken, Dec, Contains, Fits, NoLeadingBlank;
    var p := Parser(session, base);
    ParseOne(p, MediaLine(c, s));
    PortsAreTokens();
    if Carried(s) {
      var d := Dec(PlanOf(c, s).pt);
      var content := s.typ + " " + "9" + " " + c.proto + " " + d;
      OpeningLine(s.typ, c.proto, d);
      MediaLineReads(p, content, s.typ, "9", c.proto, PlanOf(c, s).pt);
      MLine(p, content);
    } else {
      var content := s.typ + " " + "0" + " " + c.proto;
      OpeningLine(s.typ, c.proto, "");
      RejectedLineReads(p, content, s.typ, "0", c.proto);
      MLine(p, content);
    }
    hide ParseLine;
  }

  lemma OpeningLine(typ: string, proto: string, d: string)
    ensures "m=" + typ + " 9 " + proto + " " + d == "m=" + (typ + " " + "9" + " " + proto + " " + d)
    ensures "m=" + typ + " 0 " + proto == "m=" + (typ + " " + "0" + " " + proto)
  {
    assert " 9 " == " " + "9" + " " && " 0 " == " " + "0" + " ";
  }

  lemma MLine(p: Parser, content: string)
    ensures ParseLine(p, "m=" + content) == ParseMedia(p, content)
  {
    hide ParseMedia;
    assert ("m=" + content)[2..] == content;
  }

  lemma MidReads(session: Session, base: seq<Media>, m: Media, mid: string)
    requires Fits(mid, MID_LEN)
    ensures ParseLines(Reading(session, base, m), ["a=mid:" + mid]) == Ok(Reading(session, base, m.(mid := mid)))
  {
    Keys();
    NamesHaveNoColon();
    CStrOfText(mid);
    assert "a=mid:" + mid == "a=" + "mid" + ":" + mid;
    assert ApplyMedia(m, Mid, mid) == Ok(m.(mid := mid));
    hide KeyOf, ApplyMedia, ParseLine, CStr;
    SectionAttr(session, base, m, "a=mid:" + mid, "mid", mid, m.(mid := mid));
  }

  function WithExt(m: Media, p: Plan): Media {
    if p.ext != 0 && p.uri != "" then m.(ext := p.ext, uri := p.uri) else m
  }

  lemma ExtmapLinesRead(session: Session, base: seq<Media>, m: Media, p: Plan)
    requires PlanOk(p)
    ensures ParseLines(Reading(session, base, m), ExtmapLines(p)) == Ok(Reading(session, base, WithExt(m, p)))
  {
    hide ParseLine, Contains, Dec, ParseExtmap, Fits, OneToken, NoLeadingBlank;
    if p.ext != 0 && p.uri != "" {
      Keys();
      NamesHaveNoColon();
      var v := Dec(p.ext) + " " + p.uri;
      ExtmapText(Dec(p.ext), p.uri);
      ExtmapReads(m, v, p.ext, p.uri);
      assert ApplyMedia(m, Extmap, v) == Ok(WithExt(m, p));
      hide KeyOf, ApplyMedia, Free;
      SectionAttr(session, base, m, "a=extmap:" + Dec(p.ext) + " " + p.uri, "extmap", v, WithExt(m, p));
    }
  }

  lemma ExtmapText(id: string, uri: string)
    ensures "a=extmap:" + id + " " + uri == "a=" + "extmap" + ":" + (id + " " + uri)
  {
    assert "a=extmap:" == "a=" + "extmap" + ":";
  }

  lemma RtpmapLineReads(c: Answer, s: Slot, session: Session, base: seq<Media>, m: Media)
    requires Readable(c) && Carried(s) && |m.pts| == 1 && m.pts[0] == Pt(PlanOf(c, s).pt, "", 0, 0, "")
    ensures ParseLines(Reading(session, base, m), [RtpmapLine(c, s)])
         == Ok(Reading(session, base, m.(pts := [Pt(PlanOf(c, s).pt, EncodingOf(s), PlanOf(c, s).clock, ChannelsOf(c, s), "")])))
  {
    hide ParseLine, Contains, ParseRtpmap, Dec, Fits, OneToken, NoLeadingBlank, NoBreaks;
    Keys();
    NamesHaveNoColon();
    EncodingsAreNames();
    var p, encoding, channels := PlanOf(c, s), EncodingOf(s), ChannelsOf(c, s);
    var v := Dec(p.pt) + " " + encoding + "/" + Dec(p.clock) + Channels(channels);
    var n := m.(pts := [Pt(p.pt, encoding, p.clock, channels, "")]);
    RtpmapReads(m, v, p.pt, encoding, p.clock, channels);
    RtpmapText(Dec(p.pt), encoding, Dec(p.clock), Channels(channels));
    assert ApplyMedia(m, Rtpmap, v) == Ok(n);
    hide KeyOf, ApplyMedia, Free;
    assert RtpmapLine(c, s) == "a=rtpmap:" + Dec(p.pt) + " " + encoding + "/" + Dec(p.clock) + Channels(channels);
    SectionAttr(session, base, m, RtpmapLine(c, s), "rtpmap", v, n);
  }

  lemma EncodingsAreNames()
    ensures Free(AtSlash, "H264") && Free(AtNul, "H264") && Free(AtSlash, "opus") && Free(AtNul, "opus")
  {
  }

  lemma RtpmapText(pt: string, encoding: string, clock: string, channels: string)
    ensures "a=rtpmap:" + pt + " " + encoding + "/" + clock + channels
         == "a=" + "rtpmap" + ":" + (pt + " " + encoding + "/" + clock + channels)
  {
    assert "a=rtpmap:" == "a=" + "rtpmap" + ":";
  }

  lemma FmtpText(pt: string, fmtp: string)
    ensures "a=fmtp:" + pt + " " + fmtp == "a=" + "fmtp" + ":" + (pt + " " + fmtp)
  {
    assert "a=fmtp:" == "a=" + "fmtp" + ":";
  }

  lemma FmtpLinesRead(session: Session, base: seq<Media>, m: Media, p: Plan)
    requires PlanOk(p) && |m.pts| == 1 && m.pts[0].pt == p.pt && m.pts[0].fmtp == ""
    ensures ParseLines(Reading(session, base, m), FmtpLines(p)) == Ok(Reading(session, base, m.(pts := [m.pts[0].(fmtp := p.fmtp)])))
  {
    hide ParseLine, Contains, Dec, ParseFmtp, Fits, OneToken, NoLeadingBlank;
    if p.fmtp != "" {
      Keys();
      NamesHaveNoColon();
      var v := Dec(p.pt) + " " + p.fmtp;
      var n := m.(pts := [m.pts[0].(fmtp := p.fmtp)]);
      FmtpText(Dec(p.pt), p.fmtp);
      FmtpReads(m, v, p.pt, p.fmtp);
      assert ApplyMedia(m, Fmtp, v) == Ok(n);
      hide KeyOf, ApplyMedia, Free;
      SectionAttr(session, base, m, "a=fmtp:" + Dec(p.pt) + " " + p.fmtp, "fmtp", v, n);
    } else {
      assert m.pts == [m.pts[0].(fmtp := p.fmtp)];
    }
  }

  lemma SsrcLineReads(session: Session, base: seq<Media>, m: Media, p: Plan)
    requires p.ssrc < U32
    ensures ParseLines(Reading(session, base, m), [SsrcLine(p)]) == Ok(Reading(session, base, m.(ssrc := p.ssrc)))
  {
    hide ParseLine;
    Keys();
    NamesHaveNoColon();
    var v := Dec(p.ssrc) + " " + ("cname:" + Dec(p.ssrc));
    assert SsrcLine(p) == "a=" + "ssrc" + ":" + v;
    SsrcReads(m, v, p.ssrc, "cname:" + Dec(p.ssrc));
    assert ApplyMedia(m, Ssrc, v) == Ok(m.(ssrc := p.ssrc));
    hide KeyOf, ApplyMedia, ParseSsrc, Dec;
    SectionAttr(session, base, m, SsrcLine(p), "ssrc", v, m.(ssrc := p.ssrc));
  }

  /** A section is read as exactly what its slot announces. */
  lemma SectionReads(c: Answer, s: Slot, session: Session, base: seq<Media>)
    requires Readable(c) && SlotOk(s) && |base| < MAX_MEDIA
    ensures ParseLines(Parser(session, base), SectionLines(c, s)) == Ok(Reading(session, base, EchoMedia(c, s)))
  {
    hide ParseLine, ParseLines, MediaLine, ExtmapLines, TransportLines, RtpmapLine, FmtpLines, FeedbackLines, SsrcLine;
    hide Contains, Free, Reading, AllSkipped;
    MediaLineOpens(c, s, session, base);
    if Carried(s) {
      var p := PlanOf(c, s);
      var start := Parser(session, base);
      var m0 := Media(s.typ, "", 0, [Pt(p.pt, "", 0, 0, "")], 0, "");
      var m1 := m0.(mid := s.mid);
      var m2 := WithExt(m1, p);
      var m3 := m2.(pts := [Pt(p.pt, EncodingOf(s), p.clock, ChannelsOf(c, s), "")]);
      var m4 := m3.(pts := [m3.pts[0].(fmtp := p.fmtp)]);
      var m5 := m4.(ssrc := p.ssrc);
      var address := "c=IN IP4 0.0.0.0";
      SkippedOther(address);
      SkippedLines(Reading(session, base, m0), [address]) by { assert AllSkipped([address]) by { AddressSkipped(); } }
      MidReads(session, base, m0, s.mid);
      ExtmapLinesRead(session, base, m1, p);
      TransportIsSkipped(c);
      SkippedLines(Reading(session, base, m2), TransportLines(c));
      RtpmapLineReads(c, s, session, base, m2);
      FmtpLinesRead(session, base, m3, p);
      FeedbackIsSkipped(c, s);
      SkippedLines(Reading(session, base, m4), FeedbackLines(c, s));
      SsrcLineReads(session, base, m4, p);
      var l0 := [MediaLine(c, s)];
      var l1 := l0 + [address];
      Then(start, l0, Reading(session, base, m0), [address], Reading(session, base, m0));
      var l2 := l1 + ["a=mid:" + s.mid];
      Then(start, l1, Reading(session, base, m0), ["a=mid:" + s.mid], Reading(session, base, m1));
      Then(start, l2, Reading(session, base, m1), ExtmapLines(p), Reading(session, base, m2));
      var l3 := l2 + ExtmapLines(p);
      Then(start, l3, Reading(session, base, m2), TransportLines(c), Reading(session, base, m2));
      var l4 := l3 + TransportLines(c);
      Then(start, l4, Reading(session, base, m2), [RtpmapLine(c, s)], Reading(session, base, m3));
      var l5 := l4 + [RtpmapLine(c, s)];
      Then(start, l5, Reading(session, base, m3), FmtpLines(p), Reading(session, base, m4));
      var l6 := l5 + FmtpLines(p);
      Then(start, l6, Reading(session, base, m4), FeedbackLines(c, s), Reading(session, base, m4));
      var l7 := l6 + FeedbackLines(c, s);
      Then(start, l7, Reading(session, base, m4), [SsrcLine(p)], Reading(session, base, m5));
      assert l2 == [MediaLine(c, s), address, "a=mid:" + s.mid];
      assert SectionLines(c, s) == l7 + [SsrcLine(p)];
    }
  }

  lemma AddressSkipped()
    ensures AllSkipped(["c=IN IP4 0.0.0.0"])
  {
    SkippedOther("c=IN IP4 0.0.0.0");
  }

  lemma {:induction false} SectionsRead(c: Answer, slots: seq<Slot>, session: Session)
    requires Readable(c) && |slots| <= MAX_MEDIA && forall i :: 0 <= i < |slots| ==> SlotOk(slots[i])
    ensures ParseLines(Parser(session, []), Sections(c, slots)) == Ok(Parser(session, EchoAll(c, slots)))
    decreases |slots|
  {
    hide ParseLine, ParseLines, SectionLines, EchoMedia, Readable, SlotOk;
    var start := Parser(session, []);
    if slots == [] {
      Nothing(start);
    } else {
      var n := |slots| - 1;
      SectionsRead(c, slots[..n], session);
      SectionReads(c, slots[n], session, EchoAll(c, slots[..n]));
      assert EchoAll(c, slots) == EchoAll(c, slots[..n]) + [EchoMedia(c, slots[n])];
      Then(start, Sections(c, slots[..n]), Parser(session, EchoAll(c, slots[..n])),
           SectionLines(c, slots[n]), Parser(session, EchoAll(c, slots)));
    }
  }

  lemma Nothing(p: Parser)
    ensures ParseLines(p, []) == Ok(p)
  {
  }

  // ---------------------------------------------------------------- the session level

  /** A session attribute read before any section. */
  lemma SessionAttr(s: Session, line: string, name: string, v: string, t: Session)
    requires Free(AtColon, name) && SessionKey(KeyOf(name)) && ApplySession(s, KeyOf(name), v) == Ok(t)
    requires line == "a=" + name + ":" + v
    ensures ParseLines(Parser(s, []), [line]) == Ok(Parser(t, []))
  {
    AttrLine(Parser(s, []), name, v);
    ParseOne(Parser(s, []), line);
    hide ApplySession, KeyOf, ParseLine;
  }

  lemma SessionNames()
    ensures "a=ice-ufrag:" == "a=" + "ice-ufrag" + ":" && "a=ice-pwd:" == "a=" + "ice-pwd" + ":"
    ensures "a=setup:" == "a=" + "setup" + ":" && "a=fingerprint:" == "a=" + "fingerprint" + ":"
  {
  }

  lemma UfragReads(s: Session, v: string)
    requires s.ufrag == "" && Fits(v, UFRAG_LEN)
    ensures ParseLines(Parser(s, []), When(v != "", "a=ice-ufrag:" + v)) == Ok(Parser(s.(ufrag := v), []))
  {
    hide ParseLine;
    if v != "" {
      Keys();
      NamesHaveNoColon();
      CStrOfText(v);
      assert ApplySession(s, Ufrag, v) == Ok(s.(ufrag := v));
      hide KeyOf, ApplySession, Free, CStr;
      SessionNames();
      SessionAttr(s, "a=ice-ufrag:" + v, "ice-ufrag", v, s.(ufrag := v));
    }
  }

  lemma PwdApplies(s: Session, v: string)
    requires s.pwd == "" && Fits(v, PWD_LEN)
    ensures ApplySession(s, Pwd, v) == Ok(s.(pwd := v))
  {
    CStrOfText(v);
  }

  lemma PwdReads(s: Session, v: string)
    requires s.pwd == "" && Fits(v, PWD_LEN)
    ensures ParseLines(Parser(s, []), When(v != "", "a=ice-pwd:" + v)) == Ok(Parser(s.(pwd := v), []))
  {
    hide ParseLine;
    if v != "" {
      Keys();
      NamesHaveNoColon();
      PwdApplies(s, v);
      hide KeyOf, ApplySession, Free;
      SessionNames();
      SessionAttr(s, "a=ice-pwd:" + v, "ice-pwd", v, s.(pwd := v));
    }
  }

  lemma SetupApplies(s: Session, v: string)
    requires s.setup == "" && Fits(v, SETUP_LEN)
    ensures ApplySession(s, Setup, v) == Ok(s.(setup := v))
  {
    CStrOfText(v);
  }

  lemma SetupReads(s: Session, v: string)
    requires s.setup == "" && Fits(v, SETUP_LEN)
    ensures ParseLines(Parser(s, []), When(v != "", "a=setup:" + v)) == Ok(Parser(s.(setup := v), []))
  {
    hide ParseLine;
    if v != "" {
      Keys();
      NamesHaveNoColon();
      SetupApplies(s, v);
      hide KeyOf, ApplySession, Free;
      SessionNames();
      SessionAttr(s, "a=setup:" + v, "setup", v, s.(setup := v));
    }
  }

  lemma FingerprintValueReads(s: Session, v: string, algo: string, fp: string)
    requires s.algo == "" && OneToken(algo) && |algo| < ALGO_LEN && Fits(fp, FP_LEN) && NoLeadingBlank(fp) && v == algo + " " + fp
    ensures ParseFingerprint(s, v) == Ok(s.(algo := algo, fingerprint := fp))
  {
    hide NextToken, Scan, CStr, Free;
    CStrOfText(algo);
    CStrOfText(fp);
    FirstToken(v, algo, fp);
    RestAt(v, algo, fp);
  }

  lemma FirstToken(v: string, tok: string, rest: string)
    requires v == tok + " " + rest
    ensures v == "" + "" + tok + (" " + rest)
    ensures OneToken(tok) ==> NextToken(v, 0) == Ok((tok, |tok|))
  {
    hide NextToken, Free;
    Regroup(tok, " ", rest);
    if OneToken(tok) { TokenAt(v, "", "", tok, " " + rest); }
  }

  lemma FingerprintReads(s: Session, algo: string, fp: string)
    requires s.algo == "" && s.fingerprint == ""
    requires algo != "" && fp != "" ==> OneToken(algo) && |algo| < ALGO_LEN && Fits(fp, FP_LEN) && NoLeadingBlank(fp)
    ensures ParseLines(Parser(s, []), When(algo != "" && fp != "", "a=fingerprint:" + algo + " " + fp))
         == Ok(Parser(if algo != "" && fp != "" then s.(algo := algo, fingerprint := fp) else s, []))
  {
    hide ParseLine, ParseFingerprint, Fits, OneToken, NoLeadingBlank;
    if algo != "" && fp != "" {
      Keys();
      NamesHaveNoColon();
      var v := algo + " " + fp;
      FingerprintValueReads(s, v, algo, fp);
      assert ApplySession(s, Fingerprint, v) == Ok(s.(algo := algo, fingerprint := fp));
      hide KeyOf, ApplySession, Free;
      SessionNames();
      assert "a=fingerprint:" + algo + " " + fp == "a=" + "fingerprint" + ":" + v;
      SessionAttr(s, "a=fingerprint:" + algo + " " + fp, "fingerprint", v, s.(algo := algo, fingerprint := fp));
    }
  }

  lemma CredentialsRead(c: Answer)
    requires Readable(c)
    ensures ParseLines(START, CredentialLines(c)) == Ok(Parser(EchoSession(c), []))
  {
    hide ParseLine, ParseLines, Fits, OneToken, NoLeadingBlank, Contains, When;
    var s1 := NO_SESSION.(ufrag := c.ufrag);
    var s2 := s1.(pwd := c.pwd);
    var s3 := if c.algo != "" && c.fingerprint != "" then s2.(algo := c.algo, fingerprint := c.fingerprint) else s2;
    var s4 := s3.(setup := c.setup);
    UfragReads(NO_SESSION, c.ufrag);
    PwdReads(s1, c.pwd);
    FingerprintReads(s2, c.algo, c.fingerprint);
    SetupReads(s3, c.setup);
    hide Readable;
    var l1 := When(c.ufrag != "", "a=ice-ufrag:" + c.ufrag);
    var l2 := When(c.pwd != "", "a=ice-pwd:" + c.pwd);
    var l3 := When(c.algo != "" && c.fingerprint != "", "a=fingerprint:" + c.algo + " " + c.fingerprint);
    var l4 := When(c.setup != "", "a=setup:" + c.setup);
    Then(START, l1, Parser(s1, []), l2, Parser(s2, []));
    Then(START, l1 + l2, Parser(s2, []), l3, Parser(s3, []));
    Then(START, l1 + l2 + l3, Parser(s3, []), l4, Parser(s4, []));
  }

  // ---------------------------------------------------------------- no line contains a line break

  lemma Glue(a: string, b: string)
    requires Free(AtBreak, a) && Free(AtBreak, b)
    ensures Free(AtBreak, a + b)
  {
  }

  lemma Glue3(a: string, b: string, c: string)
    requires Free(AtBreak, a) && Free(AtBreak, b) && Free(AtBreak, c)
    ensures Free(AtBreak, a + b + c)
  {
    Glue(a, b);
    Glue(a + b, c);
  }

  lemma Glue4(a: string, b: string, c: string, d: string)
    requires Free(AtBreak, a) && Free(AtBreak, b) && Free(AtBreak, c) && Free(AtBreak, d)
    ensures Free(AtBreak, a + b + c + d)
  {
    Glue3(a, b, c);
    Glue(a + b + c, d);
  }

  lemma BothBreakFree(a: seq<string>, b: seq<string>)
    requires BreakFree(a) && BreakFree(b)
    ensures BreakFree(a + b)
  {
    hide Free;
  }

  lemma SessionLiterals()
    ensures Free(AtBreak, "v=0") && Free(AtBreak, "o=ngx-rtc 0 1 IN IP4 0.0.0.0") && Free(AtBreak, "s=-") && Free(AtBreak, "t=0 0")
    ensures Free(AtBreak, "a=group:BUNDLE") && Free(AtBreak, "a=msid-semantic: WMS") && Free(AtBreak, "a=ice-lite")
    ensures Free(AtBreak, "a=ice-ufrag:") && Free(AtBreak, "a=ice-pwd:") && Free(AtBreak, "a=fingerprint:")
    ensures Free(AtBreak, "a=setup:") && Free(AtBreak, " ") && Free(AtBreak, "")
  {
  }

  lemma SectionLiterals()
    ensures Free(AtBreak, "m=") && Free(AtBreak, " 9 ") && Free(AtBreak, " 0 ") && Free(AtBreak, "c=IN IP4 0.0.0.0")
    ensures Free(AtBreak, "a=mid:") && Free(AtBreak, "a=extmap:") && Free(AtBreak, " typ host generation 0")
    ensures Free(AtBreak, "a=candidate:1 1 udp 2130706431 ") && Free(AtBreak, "a=sendonly") && Free(AtBreak, "a=recvonly")
    ensures Free(AtBreak, "a=rtcp-mux") && Free(AtBreak, "a=rtcp-rsize") && Free(AtBreak, "a=rtpmap:") && Free(AtBreak, "a=fmtp:")
    ensures Free(AtBreak, "a=rtcp-fb:") && Free(AtBreak, " nack pli") && Free(AtBreak, " nack") && Free(AtBreak, "a=ssrc:")
    ensures Free(AtBreak, " cname:") && Free(AtBreak, "/") && Free(AtBreak, " ") && Free(AtBreak, "H264") && Free(AtBreak, "opus")
  {
    MediaLiterals();
    AttributeLiterals();
    hide Free;
  }

  lemma MediaLiterals()
    ensures Free(AtBreak, "m=") && Free(AtBreak, " 9 ") && Free(AtBreak, " 0 ") && Free(AtBreak, "c=IN IP4 0.0.0.0")
    ensures Free(AtBreak, "a=mid:") && Free(AtBreak, "a=extmap:") && Free(AtBreak, " typ host generation 0")
    ensures Free(AtBreak, "a=candidate:1 1 udp 2130706431 ") && Free(AtBreak, "a=sendonly") && Free(AtBreak, "a=recvonly")
  {
  }

  lemma AttributeLiterals()
    ensures Free(AtBreak, "a=rtcp-mux") && Free(AtBreak, "a=rtcp-rsize") && Free(AtBreak, "a=rtpmap:") && Free(AtBreak, "a=fmtp:")
    ensures Free(AtBreak, "a=rtcp-fb:") && Free(AtBreak, " nack pli") && Free(AtBreak, " nack") && Free(AtBreak, "a=ssrc:")
    ensures Free(AtBreak, " cname:") && Free(AtBreak, "/") && Free(AtBreak, " ") && Free(AtBreak, "H264") && Free(AtBreak, "opus")
  {
  }

  lemma {:induction false} GroupMidsBreakFree(slots: seq<Slot>)
    requires forall i :: 0 <= i < |slots| ==> SlotOk(slots[i])
    ensures Free(AtBreak, GroupMids(slots))
  {
    hide Free;
    SessionLiterals();
    if slots != [] {
      var n := |slots| - 1;
      assert SlotOk(slots[n]);
      GroupMidsBreakFree(slots[..n]);
      if Carried(slots[n]) { Glue(" ", slots[n].mid); }
      Glue(GroupMids(slots[..n]), if Carried(slots[n]) then " " + slots[n].mid else "");
    }
  }

  lemma SessionBreakFree(c: Answer)
    requires Readable(c)
    ensures BreakFree(HeadLines(c) + CredentialLines(c))
  {
    hide Free, SlotOk, PlanOk;
    SessionLiterals();
    GroupMidsBreakFree(c.slots);
    Glue("a=group:BUNDLE", GroupMids(c.slots));
    Glue("a=ice-ufrag:", c.ufrag);
    Glue("a=ice-pwd:", c.pwd);
    Glue("a=setup:", c.setup);
    if c.algo != "" && c.fingerprint != "" { Glue4("a=fingerprint:", c.algo, " ", c.fingerprint); }
    hide Fits, OneToken, NoLeadingBlank, Readable;
    BothBreakFree(HeadLines(c), CredentialLines(c));
  }

  lemma TransportBreakFree(c: Answer)
    requires Readable(c)
    ensures BreakFree(TransportLines(c))
  {
    hide Free, SlotOk, PlanOk;
    SectionLiterals();
    DecIsPlain(c.candidatePort);
    var d := Dec(c.candidatePort);
    hide Dec;
    Glue4("a=candidate:1 1 udp 2130706431 ", c.candidateIp, " ", d);
    Glue("a=candidate:1 1 udp 2130706431 " + c.candidateIp + " " + d, " typ host generation 0");
    hide Fits, OneToken, NoLeadingBlank, Readable;
  }

  /** The lines that describe one track. */
  lemma TrackBreakFree(c: Answer, s: Slot)
    requires Readable(c) && SlotOk(s) && Carried(s)
    ensures var p := PlanOf(c, s);
      && Free(AtBreak, RtpmapLine(c, s)) && Free(AtBreak, SsrcLine(p)) && Free(AtBreak, MediaLine(c, s))
      && BreakFree(FmtpLines(p)) && BreakFree(ExtmapLines(p))
  {
    var p := PlanOf(c, s);
    SectionLiterals();
    DecIsPlain(p.pt);
    DecIsPlain(p.clock);
    DecIsPlain(p.ssrc);
    DecIsPlain(p.ext);
    DecIsPlain(ChannelsOf(c, s));
    assert PlanOk(p);
    hide Free, Dec, Readable;
    Glue4("m=", s.typ, " 9 ", c.proto);
    Glue3("m=" + s.typ + " 9 " + c.proto, " ", Dec(p.pt));
    Glue4("a=rtpmap:", Dec(p.pt), " ", EncodingOf(s));
    Glue3("a=rtpmap:" + Dec(p.pt) + " " + EncodingOf(s), "/", Dec(p.clock));
    Glue("/", Dec(ChannelsOf(c, s)));
    NoText();
    Glue("a=rtpmap:" + Dec(p.pt) + " " + EncodingOf(s) + "/" + Dec(p.clock),
         if ChannelsOf(c, s) != 0 then "/" + Dec(ChannelsOf(c, s)) else "");
    Glue4("a=ssrc:", Dec(p.ssrc), " cname:", Dec(p.ssrc));
    Glue4("a=fmtp:", Dec(p.pt), " ", p.fmtp);
    if p.ext != 0 && p.uri != "" { Glue4("a=extmap:", Dec(p.ext), " ", p.uri); }
  }

  lemma NoText()
    ensures Free(AtBreak, "")
  {
  }

  lemma FeedbackBreakFree(c: Answer, s: Slot)
    ensures BreakFree(FeedbackLines(c, s))
  {
    SectionLiterals();
    DecIsPlain(c.video.pt);
    hide Free, Dec;
    Glue3("a=rtcp-fb:", Dec(c.video.pt), " nack pli");
    Glue3("a=rtcp-fb:", Dec(c.video.pt), " nack");
  }

  lemma SectionBreakFree(c: Answer, s: Slot)
    requires Readable(c) && SlotOk(s)
    ensures BreakFree(SectionLines(c, s))
  {
    SectionLiterals();
    hide Free, PlanOk, Dec;
    if Carried(s) {
      TrackBreakFree(c, s);
      TransportBreakFree(c);
      FeedbackBreakFree(c, s);
      Glue("a=mid:", s.mid);
      hide RtpmapLine, SsrcLine, MediaLine, FmtpLines, ExtmapLines, TransportLines, FeedbackLines, Readable, SlotOk;
      var l2 := [MediaLine(c, s), "c=IN IP4 0.0.0.0", "a=mid:" + s.mid];
      BothBreakFree(l2, ExtmapLines(PlanOf(c, s)));
      BothBreakFree(l2 + ExtmapLines(PlanOf(c, s)), TransportLines(c));
      var l4 := l2 + ExtmapLines(PlanOf(c, s)) + TransportLines(c) + [RtpmapLine(c, s)];
      BothBreakFree(l4, FmtpLines(PlanOf(c, s)));
      BothBreakFree(l4 + FmtpLines(PlanOf(c, s)), FeedbackLines(c, s));
    } else {
      Glue4("m=", s.typ, " 0 ", c.proto);
    }
  }

  lemma {:induction false} SectionsBreakFree(c: Answer, slots: seq<Slot>)
    requires Readable(c) && forall i :: 0 <= i < |slots| ==> SlotOk(slots[i])
    ensures BreakFree(Sections(c, slots))
    decreases |slots|
  {
    hide Free, SlotOk, Readable, SectionLines, BreakFree;
    if slots == [] {
      NoLines();
    } else {
      var n := |slots| - 1;
      SectionsBreakFree(c, slots[..n]);
      SectionBreakFree(c, slots[n]);
      BothBreakFree(Sections(c, slots[..n]), SectionLines(c, slots[n]));
    }
  }

  lemma NoLines()
    ensures BreakFree([])
  {
  }
}
