/**
 Reading back what the answer writer printed: lines, attributes and values.

 A text of written lines splits into those lines. A line with a name and a value reaches the
 attribute of that name with that value. Each kind of value (payload type, rtpmap, format
 parameters, SSRC, extension, media line) that was printed from numbers and strings is parsed to
 those numbers and strings.
 */
module SdpRoundTrip {
  import opened Bytes
  import opened Results
  import opened SdpText
  import opened SdpSpec
  import opened SdpAnswer

  // ---------------------------------------------------------------- lines

  ghost function ParseLines(p: Parser, lines: seq<string>): Parsed<Parser>
    decreases |lines|
  {
    if lines == [] then Ok(p)
    else
      var q :- ParseLine(p, lines[0]);
      ParseLines(q, lines[1..])
  }

  predicate BreakFree(lines: seq<string>) { forall i :: 0 <= i < |lines| ==> Free(AtBreak, lines[i]) }

  lemma LinesStep(p: Parser, lines: seq<string>, eol: string)
    requires lines != [] && BreakFree(lines)
    ensures JoinWith(lines, eol) == lines[0] + eol + JoinWith(lines[1..], eol)
    ensures Free(AtBreak, lines[0]) && BreakFree(lines[1..])
    ensures var r := ParseLine(p, lines[0]);
      ParseLines(p, lines) == if r.Ok? then ParseLines(r.value, lines[1..]) else r
  {
    hide ParseLine, Free;
  }

  lemma TextStep(p: Parser, text: string, pos: nat, end: nat, next: nat)
    requires pos < |text| && Scan(AtBreak, text, pos) == end && NextLine(text, end) == next && next <= |text|
    ensures pos <= end <= |text|
    ensures var r := ParseLine(p, text[pos..end]);
      ParseText(p, text, pos) == if r.Ok? then ParseText(r.value, text, next) else r
  {
    hide ParseLine, Scan, NextLine;
  }

  /** Where one written line ends and the next begins. */
  lemma LineEnds(text: string, pre: string, line: string, eol: string, rest: string)
    requires text == pre + line + (eol + rest) && Free(AtBreak, line) && (eol == CRLF || eol == "\n")
    ensures |pre| < |text|
    ensures var end := Scan(AtBreak, text, |pre|);
      end == |pre| + |line| && text[|pre|..end] == line && NextLine(text, end) == |pre| + |line| + |eol|
  {
    hide Scan, Free, NextLine;
    Piece(AtBreak, text, pre, line, eol + rest);
    EolSkipped(text, |pre| + |line|, eol, rest);
  }

  lemma EolSkipped(text: string, end: nat, eol: string, rest: string)
    requires end <= |text| && text[end..] == eol + rest && (eol == CRLF || eol == "\n")
    ensures end < |text| && NextLine(text, end) == end + |eol|
  {
    assert text[end] == text[end..][0] == eol[0];
    assert eol == CRLF ==> text[end + 1] == text[end..][1] == '\n';
  }

  lemma RegroupLine(text: string, pre: string, line: string, eol: string, rest: string)
    requires text == pre + (line + eol + rest)
    ensures text == pre + line + (eol + rest) && text == (pre + line + eol) + rest
  {
  }

  /** The first of the written lines: what the parser makes of it, and where it goes on. */
  lemma OneLineIsRead(p: Parser, text: string, pre: string, line: string, eol: string, rest: string)
    requires Free(AtBreak, line) && (eol == CRLF || eol == "\n") && text == pre + (line + eol + rest)
    ensures text == (pre + line + eol) + rest && |pre + line + eol| <= |text| && |pre| < |pre + line + eol|
    ensures var r := ParseLine(p, line);
      ParseText(p, text, |pre|) == if r.Ok? then ParseText(r.value, text, |pre + line + eol|) else r
  {
    hide ParseLine, NextLine, Scan, Free;
    RegroupLine(text, pre, line, eol, rest);
    LineEnds(text, pre, line, eol, rest);
    TextStep(p, text, |pre|, |pre| + |line|, |pre| + |line| + |eol|);
    hide ParseText;
  }

  /** Splitting a text of written lines gives the lines back, with either kind of line end. */
  lemma {:induction false} WrittenLinesAreRead(p: Parser, text: string, pre: string, lines: seq<string>, eol: string)
    requires BreakFree(lines) && (eol == CRLF || eol == "\n") && text == pre + JoinWith(lines, eol)
    ensures ParseText(p, text, |pre|) == ParseLines(p, lines)
    decreases |lines|
  {
    hide ParseLine, ParseText, Free, BreakFree;
    if lines == [] {
      NothingLeft(p, text, pre);
    } else {
      LinesStep(p, lines, eol);
      hide JoinWith, ParseLines;
      OneLineIsRead(p, text, pre, lines[0], eol, JoinWith(lines[1..], eol));
      var q := ParseLine(p, lines[0]);
      if q.Ok? { WrittenLinesAreRead(q.value, text, pre + lines[0] + eol, lines[1..], eol); }
    }
  }

  lemma NothingLeft(p: Parser, text: string, pre: string)
    requires text == pre + ""
    ensures |text| == |pre| && ParseText(p, text, |pre|) == Ok(p)
  {
  }

  /** A description means the same with bare line feeds as with carriage returns before them. */
  lemma LineEndsDoNotMatter(lines: seq<string>)
    requires BreakFree(lines)
    ensures ParseOffer(JoinWith(lines, "\n")) == ParseOffer(Join(lines))
  {
    hide BuildOffer, ParseText;
    assert "" + JoinWith(lines, "\n") == JoinWith(lines, "\n") && "" + Join(lines) == Join(lines);
    WrittenLinesAreRead(START, JoinWith(lines, "\n"), "", lines, "\n");
    WrittenLinesAreRead(START, Join(lines), "", lines, CRLF);
  }

  lemma {:induction false} ParseInTwo(p: Parser, a: seq<string>, b: seq<string>)
    ensures ParseLines(p, a).Ok? ==> ParseLines(p, a + b) == ParseLines(ParseLines(p, a).value, b)
    decreases |a|
  {
    hide ParseLine;
    if a == [] {
      assert a + b == b;
    } else {
      assert (a + b)[1..] == a[1..] + b && (a + b)[0] == a[0];
      var q := ParseLine(p, a[0]);
      if q.Ok? { ParseInTwo(q.value, a[1..], b); }
    }
  }

  lemma ParseOne(p: Parser, line: string)
    ensures ParseLines(p, [line]) == ParseLine(p, line)
  {
    hide ParseLine;
    assert [line][1..] == [];
    var q := ParseLine(p, line);
    if q.Ok? { assert ParseLines(q.value, []) == Ok(q.value); }
  }

  /** What parses in two steps parses in one. */
  lemma Then(p: Parser, a: seq<string>, q: Parser, b: seq<string>, r: Parser)
    requires ParseLines(p, a) == Ok(q) && ParseLines(q, b) == Ok(r)
    ensures ParseLines(p, a + b) == Ok(r)
  {
    ParseInTwo(p, a, b);
  }

  // ---------------------------------------------------------------- attribute lines

  lemma AttrLine(p: Parser, name: string, v: string)
    requires Free(AtColon, name)
    ensures ParseLine(p, "a=" + name + ":" + v) == ApplyAttr(p, KeyOf(name), v)
  {
    var line := "a=" + name + ":" + v;
    var content := line[2..];
    assert content == "" + name + (":" + v);
    ScanOver(AtColon, "", name, ":" + v);
    assert content[..|name|] == name && content[|name| + 1..] == v;
    hide ApplyAttr, KeyOf;
  }

  lemma FlagLine(p: Parser, name: string)
    requires Free(AtColon, name)
    ensures ParseLine(p, "a=" + name) == ApplyAttr(p, KeyOf(name), "")
  {
    var content := ("a=" + name)[2..];
    assert content == "" + name + "";
    ScanOver(AtColon, "", name, "");
    assert content[..|name|] == name && content[|name|..] == "";
    hide ApplyAttr, KeyOf;
  }

  /** Which attributes the parser acts on, and which it passes over. */
  lemma Keys()
    ensures KeyOf("ice-ufrag") == Ufrag && KeyOf("ice-pwd") == Pwd && KeyOf("setup") == Setup && KeyOf("fingerprint") == Fingerprint
    ensures KeyOf("mid") == Mid && KeyOf("rtpmap") == Rtpmap && KeyOf("ssrc") == Ssrc && KeyOf("fmtp") == Fmtp
    ensures KeyOf("extmap") == Extmap
    ensures KeyOf("group") == KeyOf("msid-semantic") == KeyOf("ice-lite") == KeyOf("candidate") == KeyOf("sendonly") == Other
    ensures KeyOf("recvonly") == KeyOf("rtcp-mux") == KeyOf("rtcp-rsize") == KeyOf("rtcp-fb") == Other
  {
    assert "group"[0] != "setup"[0] && "candidate"[0] != "ice-ufrag"[0] && "rtcp-fb"[0] != "ice-pwd"[0];
    assert "ssrc"[0] != "fmtp"[0] && "rtpmap"[0] != "extmap"[0];
  }

  lemma NamesHaveNoColon()
    ensures Free(AtColon, "ice-ufrag") && Free(AtColon, "ice-pwd") && Free(AtColon, "setup") && Free(AtColon, "fingerprint")
    ensures Free(AtColon, "mid") && Free(AtColon, "rtpmap") && Free(AtColon, "ssrc") && Free(AtColon, "fmtp")
    ensures Free(AtColon, "extmap") && Free(AtColon, "group") && Free(AtColon, "msid-semantic") && Free(AtColon, "ice-lite")
    ensures Free(AtColon, "candidate") && Free(AtColon, "sendonly") && Free(AtColon, "recvonly") && Free(AtColon, "rtcp-mux")
    ensures Free(AtColon, "rtcp-rsize") && Free(AtColon, "rtcp-fb")
  {
  }

  /** The parser while it reads the section of `m`, after the sections `base`. */
  function Reading(s: Session, base: seq<Media>, m: Media): Parser { Parser(s, base + [m]) }

  lemma ApplyLast(s: Session, base: seq<Media>, m: Media, k: Key, v: string)
    requires !SessionKey(k)
    ensures ApplyAttr(Reading(s, base, m), k, v) ==
      match ApplyMedia(m, k, v) case Ok(n) => Ok(Reading(s, base, n)) case Err(e) => Err(e)
  {
    hide ApplyMedia;
    var p := Reading(s, base, m);
    assert p.media[|p.media| - 1] == m;
    forall n: Media ensures p.media[|p.media| - 1 := n] == base + [n] { }
  }

  /** A section's attribute line with a key and a value, in context. */
  lemma SectionAttr(s: Session, base: seq<Media>, m: Media, line: string, name: string, v: string, n: Media)
    requires Free(AtColon, name) && !SessionKey(KeyOf(name)) && ApplyMedia(m, KeyOf(name), v) == Ok(n)
    requires line == "a=" + name + ":" + v
    ensures ParseLines(Reading(s, base, m), [line]) == Ok(Reading(s, base, n))
  {
    AttrLine(Reading(s, base, m), name, v);
    ApplyLast(s, base, m, KeyOf(name), v);
    ParseOne(Reading(s, base, m), line);
    hide ApplyMedia, ApplyAttr, KeyOf, ParseLine;
  }

  /** A line the parser has no use for, whatever it has read before. */
  ghost predicate Skipped(line: string) { forall p :: ParseLine(p, line) == Ok(p) }

  ghost predicate AllSkipped(lines: seq<string>) { forall i :: 0 <= i < |lines| ==> Skipped(lines[i]) }

  lemma {:induction false} SkippedLines(p: Parser, lines: seq<string>)
    requires AllSkipped(lines)
    ensures ParseLines(p, lines) == Ok(p)
    decreases |lines|
  {
    hide ParseLine;
    if lines != [] {
      assert Skipped(lines[0]);
      SkippedLines(p, lines[1..]);
    }
  }

  lemma SkippedAttr(line: string, name: string, v: string)
    requires Free(AtColon, name) && KeyOf(name) == Other && line == "a=" + name + ":" + v
    ensures Skipped(line)
  {
    forall p ensures ParseLine(p, line) == Ok(p) {
      AttrLine(p, name, v);
      OtherKeyChangesNothing(p, v);
    }
    hide ParseLine, KeyOf, ApplyAttr;
  }

  lemma SkippedFlag(line: string, name: string)
    requires Free(AtColon, name) && KeyOf(name) == Other && line == "a=" + name
    ensures Skipped(line)
  {
    forall p ensures ParseLine(p, line) == Ok(p) {
      FlagLine(p, name);
      OtherKeyChangesNothing(p, "");
    }
    hide ParseLine, KeyOf, ApplyAttr;
  }

  lemma OtherKeyChangesNothing(p: Parser, v: string)
    ensures ApplyAttr(p, Other, v) == Ok(p)
  {
    if p.media != [] { assert p.media[|p.media| - 1 := p.media[|p.media| - 1]] == p.media; }
  }

  lemma SkippedOther(line: string)
    requires |line| >= 2 && line[1] == '=' && line[0] != 'm' && line[0] != 'a'
    ensures Skipped(line)
  {
  }

  // ---------------------------------------------------------------- values

  lemma PtReads(m: Media, v: string, pt: nat, rest: string)
    requires |m.pts| == 1 && m.pts[0].pt == pt <= 127 && v == Dec(pt) + " " + rest
    ensures PtOf(m, v) == Ok((0, |Dec(pt)|))
  {
    var d := Dec(pt);
    DecIsPlain(pt);
    Regroup(d, " ", rest);
    assert v == "" + "" + d + (" " + rest);
    TokenAt(v, "", "", d, " " + rest);
    assert d + "" == d;
    ParseOfDec(pt, "");
    assert FindPt(m.pts, pt) == 0;
    hide NextToken, ParseU32, Free;
  }

  /** The places of the encoding, the clock rate and the channels in a written rtpmap. */
  lemma RtpmapParts(v: string, d: string, encoding: string, clock: string, tail: string)
    requires v == d + " " + encoding + "/" + clock + tail && (tail == "" || tail[0] == '/')
    requires encoding != "" && !IsBlank(encoding[0]) && Free(AtSlash, encoding) && Free(AtSlash, clock)
    ensures var e, c := |d| + 1, |d| + 1 + |encoding| + 1;
      && c + |clock| <= |v|
      && Scan(AtNonBlank, v, |d|) == e
      && Scan(AtSlash, v, e) == c - 1 && v[e..c - 1] == encoding
      && Scan(AtSlash, v, c) == c + |clock| && v[c..c + |clock|] == clock && v[c + |clock|..] == tail
  {
    hide Scan, Free;
    RtpmapGroups(v, d, encoding, clock, tail);
    RtpmapEncoding(v, d, encoding, clock + tail);
    RtpmapClock(v, d, encoding, clock, tail);
  }

  lemma RtpmapClock(v: string, d: string, encoding: string, clock: string, tail: string)
    requires v == d + " " + encoding + "/" + clock + tail && (tail == "" || tail[0] == '/') && Free(AtSlash, clock)
    ensures var c := |d| + 1 + |encoding| + 1;
      && c + |clock| <= |v| && Scan(AtSlash, v, c) == c + |clock| && v[c..c + |clock|] == clock && v[c + |clock|..] == tail
  {
    hide Scan, Free;
    var pre := d + " " + encoding + "/";
    assert |pre| == |d| + 1 + |encoding| + 1;
    PieceAt(AtSlash, v, pre, clock, tail, |pre|);
  }

  lemma PieceAt(k: Stop, s: string, a: string, b: string, c: string, at: nat)
    requires s == a + b + c && at == |a| && Free(k, b) && (c == "" || Stops(k, c[0]))
    ensures at + |b| <= |s| && Scan(k, s, at) == at + |b| && s[at..at + |b|] == b && s[at + |b|..] == c
  {
    Piece(k, s, a, b, c);
  }

  lemma RtpmapEncoding(v: string, d: string, encoding: string, ct: string)
    requires v == d + " " + (encoding + "/" + ct) && v == (d + " ") + encoding + ("/" + ct)
    requires encoding != "" && !IsBlank(encoding[0]) && Free(AtSlash, encoding) && (encoding + "/" + ct)[0] == encoding[0]
    ensures var e := |d| + 1;
      && e + |encoding| < |v| && Scan(AtNonBlank, v, |d|) == e
      && Scan(AtSlash, v, e) == e + |encoding| && v[e..e + |encoding|] == encoding
  {
    hide Scan, Free;
    RestAt(v, d, encoding + "/" + ct);
    Piece(AtSlash, v, d + " ", encoding, "/" + ct);
  }

  lemma RtpmapGroups(v: string, d: string, encoding: string, clock: string, tail: string)
    requires v == d + " " + encoding + "/" + clock + tail && encoding != ""
    ensures v == d + " " + (encoding + "/" + (clock + tail)) && (encoding + "/" + (clock + tail))[0] == encoding[0]
    ensures v == (d + " ") + encoding + ("/" + (clock + tail)) && ("/" + (clock + tail))[0] == '/'
  {
  }

  function Channels(channels: nat): string { if channels != 0 then "/" + Dec(channels) else "" }

  lemma RtpmapReads(m: Media, v: string, pt: nat, encoding: string, clock: nat, channels: nat)
    requires |m.pts| == 1 && m.pts[0].pt == pt <= 127 && m.pts[0].channels == 0 && clock < U32 && channels < U32
    requires encoding != "" && !IsBlank(encoding[0]) && Free(AtSlash, encoding) && Free(AtNul, encoding) && |encoding| < STR_LEN
    requires v == Dec(pt) + " " + encoding + "/" + Dec(clock) + Channels(channels)
    ensures ParseRtpmap(m, v) == Ok(m.(pts := [m.pts[0].(encoding := encoding, clock := clock, channels := channels)]))
  {
    hide ParseRtpmap, Scan, PtOf, ParseU32, CStr, Free, Value, Dec;
    var d, ck, tail := Dec(pt), Dec(clock), Channels(channels);
    RtpmapGroups(v, d, encoding, ck, tail);
    PtReads(m, v, pt, encoding + "/" + (ck + tail));
    DecIsPlain(clock);
    RtpmapParts(v, d, encoding, ck, tail);
    hide Channels;
    CStrOfText(encoding);
    NumberReads(clock);
    NumberReads(channels);
    var e := |d| + 1;
    ChannelsRead(v, e + |encoding| + 1 + |ck|, channels);
    RtpmapOf(m, v, |d|, e, e + |encoding|, e + |encoding| + 1 + |ck|, encoding, clock, channels);
  }

  /** What an rtpmap comes to, given where its parts are. */
  lemma RtpmapOf(m: Media, v: string, at: nat, e: nat, f: nat, g: nat, encoding: string, clock: nat, channels: nat)
    requires |m.pts| == 1 && at <= |v| && PtOf(m, v) == Ok((0, at)) && Scan(AtNonBlank, v, at) == e <= |v|
    requires Scan(AtSlash, v, e) == f && e <= f < |v| && Copy(STR_LEN, v[e..f]) == Ok(encoding)
    requires Scan(AtSlash, v, f + 1) == g && f + 1 <= g <= |v| && ParseU32(v[f + 1..g]) == Ok(clock)
    requires if Past(v, g) == |v| then channels == m.pts[0].channels else ParseU32(v[Past(v, g)..]) == Ok(channels)
    ensures ParseRtpmap(m, v) == Ok(m.(pts := [m.pts[0].(encoding := encoding, clock := clock, channels := channels)]))
  {
    hide Scan, PtOf, ParseU32, Copy;
    assert forall x :: m.pts[0 := x] == [x];
  }

  lemma ChannelsRead(v: string, end: nat, channels: nat)
    requires end <= |v| && v[end..] == Channels(channels)
    ensures channels == 0 <==> Past(v, end) == |v|
    ensures channels != 0 ==> v[Past(v, end)..] == Dec(channels)
  {
    if channels != 0 { assert v[end + 1..] == v[end..][1..] == Dec(channels); }
  }

  lemma NumberReads(n: nat)
    requires n < U32
    ensures ParseU32(Dec(n)) == Ok(n)
  {
    assert Dec(n) + "" == Dec(n);
    ParseOfDec(n, "");
  }

  lemma FmtpReads(m: Media, v: string, pt: nat, fmtp: string)
    requires |m.pts| == 1 && m.pts[0].pt == pt <= 127 && Fits(fmtp, FMTP_LEN) && NoLeadingBlank(fmtp)
    requires v == Dec(pt) + " " + fmtp
    ensures ParseFmtp(m, v) == Ok(m.(pts := [m.pts[0].(fmtp := fmtp)]))
  {
    hide Scan, PtOf, CStr, Free;
    PtReads(m, v, pt, fmtp);
    RestAt(v, Dec(pt), fmtp);
    CStrOfText(fmtp);
    assert forall x :: m.pts[0 := x] == [x];
  }

  lemma SsrcReads(m: Media, v: string, ssrc: nat, rest: string)
    requires ssrc < U32 && v == Dec(ssrc) + " " + rest
    ensures ParseSsrc(m, v) == Ok(m.(ssrc := ssrc))
  {
    hide NextToken, ParseU32, Free;
    var d := Dec(ssrc);
    DecIsPlain(ssrc);
    Regroup(d, " ", rest);
    assert v == "" + "" + d + (" " + rest);
    TokenAt(v, "", "", d, " " + rest);
    NumberReads(ssrc);
  }

  lemma UriIsOneToken(uri: string)
    requires OneToken(uri)
    ensures Free(AtUriEnd, uri) && !IsBlank(uri[0])
  {
    assert !Stops(AtBlank, uri[0]);
  }

  /** The places of the id and the URI in a written extmap. */
  lemma ExtmapParts(v: string, d: string, uri: string)
    requires v == d + " " + uri && d != "" && !IsBlank(d[0]) && Free(AtNonDigit, d)
    requires uri != "" && !IsBlank(uri[0]) && Free(AtUriEnd, uri)
    ensures |d| + 1 + |uri| == |v|
    ensures Scan(AtNonBlank, v, 0) == 0 && Scan(AtNonDigit, v, 0) == |d| && v[0..|d|] == d
    ensures Scan(AtNonBlank, v, |d|) == |d| + 1 && Scan(AtUriEnd, v, |d| + 1) == |v| && v[|d| + 1..|v|] == uri
  {
    hide Scan, Free;
    ExtmapGroups(v, d, uri);
    NothingToSkip(v);
    Piece(AtNonDigit, v, "", d, " " + uri);
    RestAt(v, d, uri);
    Piece(AtUriEnd, v, d + " ", uri, "");
  }

  lemma NothingToSkip(v: string)
    requires v != "" && !IsBlank(v[0])
    ensures Scan(AtNonBlank, v, 0) == 0
  {
  }

  lemma ExtmapReads(m: Media, v: string, id: nat, uri: string)
    requires 0 < id <= 14 && OneToken(uri) && |uri| < URI_LEN && Contains(uri, TWCC) && v == Dec(id) + " " + uri
    ensures ParseExtmap(m, v) == m.(ext := id, uri := uri)
  {
    var d := Dec(id);
    DigitFirst(id);
    hide ParseExtmap, Scan, Value, CStr, Contains, Free, Dec;
    ValueOfDec(id);
    UriIsOneToken(uri);
    CStrOfText(uri);
    ExtmapParts(v, d, uri);
    ExtmapOf(m, v, |d|, |d| + 1, |v|);
  }

  lemma ExtmapGroups(v: string, d: string, uri: string)
    requires v == d + " " + uri && d != ""
    ensures v == "" + d + (" " + uri) && v == (d + " ") + uri + "" && v[0] == d[0]
  {
  }

  lemma ThreeTokens(c: string, typ: string, port: string, proto: string, rest: string)
    requires OneToken(typ) && OneToken(port) && OneToken(proto) && (rest == "" || IsBlank(rest[0]))
    requires c == typ + " " + port + " " + proto + rest
    ensures |typ| + 1 + |port| + 1 + |proto| + |rest| == |c|
    ensures NextToken(c, 0) == Ok((typ, |typ|))
    ensures NextToken(c, |typ|) == Ok((port, |typ| + 1 + |port|))
    ensures NextToken(c, |typ| + 1 + |port|) == Ok((proto, |typ| + 1 + |port| + 1 + |proto|))
  {
    hide NextToken, Free;
    assert c == "" + "" + typ + (" " + port + " " + proto + rest);
    assert c == typ + " " + port + (" " + proto + rest);
    TokenAt(c, "", "", typ, " " + port + " " + proto + rest);
    TokenAt(c, typ, " ", port, " " + proto + rest);
    TokenAt(c, typ + " " + port, " ", proto, rest);
  }

  lemma OnePt(s: string, c: string, pt: nat)
    requires pt <= 127 && s == c + " " + Dec(pt)
    ensures |c| <= |s| && ParsePts(s, |c|, []) == Ok([Pt(pt, "", 0, 0, "")])
  {
    DecIsPlain(pt);
    NumberReads(pt);
    assert s == c + " " + Dec(pt) + "";
    TokenAt(s, c, " ", Dec(pt), "");
    assert NextToken(s, |s|).Err?;
    hide NextToken, ParseU32;
    var one := [Pt(pt, "", 0, 0, "")];
    assert [] + one == one;
    assert ParsePts(s, |s|, one) == Ok(one);
  }

  /** A media line becomes a new section with the payload type it names. */
  lemma MediaLineReads(p: Parser, c: string, typ: string, port: string, proto: string, pt: nat)
    requires |p.media| < MAX_MEDIA && OneToken(typ) && |typ| < STR_LEN && OneToken(port) && OneToken(proto) && pt <= 127
    requires c == typ + " " + port + " " + proto + " " + Dec(pt)
    ensures ParseMedia(p, c) == Ok(p.(media := p.media + [Media(typ, "", 0, [Pt(pt, "", 0, 0, "")], 0, "")]))
  {
    hide Dec, ParsePts;
    var before := typ + " " + port + " " + proto;
    Regroup(before, " ", Dec(pt));
    ThreeTokens(c, typ, port, proto, " " + Dec(pt));
    OnePt(c, before, pt);
    CStrOfText(typ);
    hide NextToken, CStr, Free;
  }

  lemma RejectedLineReads(p: Parser, c: string, typ: string, port: string, proto: string)
    requires |p.media| < MAX_MEDIA && OneToken(typ) && |typ| < STR_LEN && OneToken(port) && OneToken(proto)
    requires c == typ + " " + port + " " + proto
    ensures ParseMedia(p, c) == Ok(p.(media := p.media + [Media(typ, "", 0, [], 0, "")]))
  {
    assert c == typ + " " + port + " " + proto + "";
    NoPts(c);
    hide NextToken, CStr, ParsePts, Free;
    ThreeTokens(c, typ, port, proto, "");
    CStrOfText(typ);
  }

  lemma NoPts(c: string)
    ensures ParsePts(c, |c|, []) == Ok([])
  {
    assert NextToken(c, |c|).Err?;
  }

  /** Only the text up to the next blank is searched and stored, and after an attribute that is the attribute. */
  lemma AttributeIsTakenForUri(m: Media, v: string, id: nat, attr: string, rest: string)
    requires 0 < id <= 14 && OneToken(attr) && attr[0] == '/' && v == Dec(id) + attr + (" " + rest)
    ensures ParseExtmap(m, v) ==
            if Contains(attr, TWCC) && |attr| < URI_LEN then m.(ext := id, uri := attr) else m
  {
    var d := Dec(id);
    DigitFirst(id);
    hide ParseExtmap, Scan, Value, CStr, Contains, Free, Dec;
    ValueOfDec(id);
    UriIsOneToken(attr);
    CStrOfText(attr);
    DirectionParts(v, d, attr, " " + rest);
    ExtmapOf(m, v, |d|, |d|, |d| + |attr|);
  }

  lemma DigitFirst(n: nat)
    ensures Dec(n) != "" && !IsBlank(Dec(n)[0]) && Free(AtNonDigit, Dec(n))
  {
    assert !Stops(AtNonDigit, Dec(n)[0]);
  }

  /** What an extmap comes to, given where its id and its URI are. */
  lemma ExtmapOf(m: Media, v: string, idEnd: nat, uriStart: nat, uriEnd: nat)
    requires Scan(AtNonBlank, v, 0) == 0 && Scan(AtNonDigit, v, 0) == idEnd <= |v|
    requires Scan(AtNonBlank, v, idEnd) == uriStart <= |v| && Scan(AtUriEnd, v, uriStart) == uriEnd && uriStart <= uriEnd <= |v|
    ensures var id, uri := Low32(Value(v[0..idEnd])), v[uriStart..uriEnd];
      ParseExtmap(m, v) ==
      if 0 < id <= 14 && Contains(uri, TWCC) && 0 < |uri| < URI_LEN then m.(ext := id, uri := CStr(uri)) else m
  {
    hide Scan, Value, CStr, Contains, Low32;
  }

  /**
   An extmap written with a direction or another attribute after its id is recorded with its id
   and its URI exactly when there is no attribute, or the attribute is the URI itself.
   */
  lemma ExtmapReadsExactly(m: Media, v: string, id: nat, attr: string, uri: string)
    requires 0 < id <= 14 && OneToken(uri) && |uri| < URI_LEN && Contains(uri, TWCC)
    requires attr == "" || (OneToken(attr) && attr[0] == '/')
    requires v == Dec(id) + attr + (" " + uri)
    requires m.ext != id || m.uri != uri
    ensures ParseExtmap(m, v) == m.(ext := id, uri := uri) <==> attr == "" || attr == uri
  {
    hide ParseExtmap, Contains, OneToken, Dec;
    if attr == "" {
      assert v == Dec(id) + " " + uri by { NoAttribute(Dec(id), uri); }
      ExtmapReads(m, v, id, uri);
    } else {
      AttributeIsTakenForUri(m, v, id, attr, uri);
    }
  }

  lemma NoAttribute(d: string, uri: string)
    ensures d + "" + (" " + uri) == d + " " + uri
  {
  }

  /** An extension offered for one direction is passed over. */
  lemma DirectionHidesTheUri(m: Media)
    ensures ParseExtmap(m, "3/recvonly urn:" + TWCC) == m
  {
    var v, attr := "3/recvonly urn:" + TWCC, "/recvonly";
    assert Dec(3) == "3";
    assert v == Dec(3) + attr + (" " + ("urn:" + TWCC));
    assert !Contains(attr, TWCC);
    AttributeIsTakenForUri(m, v, 3, attr, "urn:" + TWCC);
  }

  lemma DirectionParts(v: string, d: string, token: string, rest: string)
    requires v == d + token + rest && d != "" && !IsBlank(d[0]) && Free(AtNonDigit, d)
    requires token != "" && token[0] == '/' && Free(AtUriEnd, token) && rest != "" && rest[0] == ' '
    ensures |d| + |token| <= |v|
    ensures Scan(AtNonBlank, v, 0) == 0 && Scan(AtNonDigit, v, 0) == |d| && v[0..|d|] == d
    ensures Scan(AtNonBlank, v, |d|) == |d| && Scan(AtUriEnd, v, |d|) == |d| + |token| && v[|d|..|d| + |token|] == token
  {
    hide Scan, Free;
    Regroup(d, token, rest);
    assert v == "" + d + (token + rest) && v[0] == d[0];
    assert v == d + "" + (token + rest) && (token + rest)[0] == '/';
    NothingToSkip(v);
    NoneFree();
    Piece(AtNonDigit, v, "", d, token + rest);
    Piece(AtNonBlank, v, d, "", token + rest);
    Piece(AtUriEnd, v, d, token, rest);
  }

  lemma NoneFree()
    ensures Free(AtNonBlank, "")
  {
  }
}
