/** The parser's loops and fields, and the bounded writer of answers. */
module Sdp {
  import opened Bytes
  import opened Results
  import opened SdpText
  import opened SdpSpec

  // ---------------------------------------------------------------- scanning loops

  method ScanFrom(k: Stop, s: string, pos: nat) returns (r: nat)
    requires pos <= |s|
    ensures r == Scan(k, s, pos)
  {
    r := pos;
    while r < |s| && !Stops(k, s[r])
      invariant pos <= r <= |s| && Scan(k, s, r) == Scan(k, s, pos)
    {
      r := r + 1;
    }
  }

  /** Accumulates digits, refusing a step that would not fit 32 bits. */
  method ReadU32(s: string) returns (r: Parsed<nat>)
    ensures r == ParseU32(s)
  {
    var v: nat := 0;
    var i: nat := 0;
    ghost var e := Scan(AtNonDigit, s, 0);
    while i < |s| && IsDigit(s[i])
      invariant i <= e && Free(AtNonDigit, s[..i]) && v == Value(s[..i]) && v < U32
      decreases |s| - i
    {
      var d := Digit(s[i]);
      assert s[..i + 1][..i] == s[..i];
      if v > (U32 - 1 - d) / 10 {
        assert s[..e][..i + 1] == s[..i + 1];
        ValueGrows(s[..e], i + 1);
        return Err(Malformed);
      }
      v := v * 10 + d;
      i := i + 1;
    }
    r := if i == 0 then Err(Malformed) else Ok(v);
  }

  method ReadToken(s: string, pos: nat) returns (r: Parsed<(string, nat)>)
    requires pos <= |s|
    ensures r == NextToken(s, pos)
  {
    var start := ScanFrom(AtNonBlank, s, pos);
    if start >= |s| { return Err(Malformed); }
    var end := ScanFrom(AtBlank, s, start);
    r := Ok((s[start..end], end));
  }

  method LookUpPt(pts: seq<Pt>, pt: nat) returns (i: nat)
    ensures i == FindPt(pts, pt)
  {
    i := 0;
    while i < |pts| && pts[i].pt != pt
      invariant i <= |pts| && forall j :: 0 <= j < i ==> pts[j].pt != pt
    {
      i := i + 1;
    }
  }

  method ReadPt(m: Media, v: string) returns (r: Parsed<(nat, nat)>)
    ensures r == PtOf(m, v)
  {
    var tok := ReadToken(v, 0);
    if tok.Err? { return Err(tok.error); }
    var pt := ReadU32(tok.value.0);
    if pt.Err? { return Err(pt.error); }
    if pt.value > 127 { return Err(Malformed); }
    var i := LookUpPt(m.pts, pt.value);
    r := if i == |m.pts| then Err(Malformed) else Ok((i, tok.value.1));
  }

  method ReadRtpmap(m: Media, v: string) returns (r: Parsed<Media>)
    ensures r == ParseRtpmap(m, v)
  {
    hide Scan, PtOf, ParseU32, CStr;
    var at := ReadPt(m, v);
    if at.Err? { return Err(at.error); }
    var encStart := ScanFrom(AtNonBlank, v, at.value.1);
    var encEnd := ScanFrom(AtSlash, v, encStart);
    var encoding := Copy(STR_LEN, v[encStart..encEnd]);
    if encoding.Err? { return Err(encoding.error); }
    var clockStart := Past(v, encEnd);
    var clockEnd := ScanFrom(AtSlash, v, clockStart);
    var clock := ReadU32(v[clockStart..clockEnd]);
    if clock.Err? { return Err(clock.error); }
    var p := m.pts[at.value.0].(encoding := encoding.value, clock := clock.value);
    var rest := Past(v, clockEnd);
    if rest < |v| {
      var channels := ReadU32(v[rest..]);
      if channels.Err? { return Err(channels.error); }
      p := p.(channels := channels.value);
    }
    r := Ok(m.(pts := m.pts[at.value.0 := p]));
  }

  method ReadSsrc(m: Media, v: string) returns (r: Parsed<Media>)
    ensures r == ParseSsrc(m, v)
  {
    var tok := ReadToken(v, 0);
    if tok.Err? { return Err(tok.error); }
    var ssrc := ReadU32(tok.value.0);
    if ssrc.Err? { return Err(ssrc.error); }
    r := Ok(m.(ssrc := ssrc.value));
  }

  method ReadFmtp(m: Media, v: string) returns (r: Parsed<Media>)
    ensures r == ParseFmtp(m, v)
  {
    hide PtOf, CStr, Scan;
    var at := ReadPt(m, v);
    if at.Err? { return Err(at.error); }
    var start := ScanFrom(AtNonBlank, v, at.value.1);
    var fmtp := Copy(FMTP_LEN, v[start..]);
    if fmtp.Err? { return Err(fmtp.error); }
    r := Ok(m.(pts := m.pts[at.value.0 := m.pts[at.value.0].(fmtp := fmtp.value)]));
  }

  /** The id of an extmap, accumulated in 32 bits without any check. */
  method ReadExtId(v: string, pos: nat) returns (id: nat, end: nat)
    requires pos <= |v|
    ensures end == Scan(AtNonDigit, v, pos)
    ensures id == Low32(Value(v[pos..end]))
  {
    id, end := 0, pos;
    ghost var e := Scan(AtNonDigit, v, pos);
    while end < |v| && IsDigit(v[end])
      invariant pos <= end <= e && Free(AtNonDigit, v[pos..end]) && id == Low32(Value(v[pos..end]))
      decreases |v| - end
    {
      assert v[pos..end + 1][..end - pos] == v[pos..end];
      DigitStep(Value(v[pos..end]), Digit(v[end]));
      id := Low32(id * 10 + Digit(v[end]));
      end := end + 1;
    }
  }

  lemma DigitStep(n: nat, d: nat)
    ensures Low32(Low32(n) * 10 + d) == Low32(10 * n + d)
  {
    var q := n / 0x1_0000_0000;
    assert n == 0x1_0000_0000 * q + Low32(n);
    var low := Low32(n);
    hide Low32;
    assert 10 * n + d == (low * 10 + d) + 0x1_0000_0000 * (10 * q);
    Low32Shift(low * 10 + d, 10 * q);
  }

  /** Looks for the name of the extension anywhere in the URI. */
  method NamesTwcc(uri: string) returns (matched: bool)
    ensures matched == Contains(uri, TWCC)
  {
    matched := false;
    var i: nat := 0;
    while i + |TWCC| <= |uri| && !matched
      invariant matched ==> Contains(uri, TWCC)
      invariant !matched ==> forall j: nat :: OccursAt(uri, TWCC, j) ==> j >= i
      decreases |uri| - i, !matched
    {
      if OccursAt(uri, TWCC, i) { matched := true; } else { i := i + 1; }
    }
  }

  method ReadExtmap(m: Media, v: string) returns (n: Media)
    ensures n == ParseExtmap(m, v)
  {
    hide Value, Low32, Contains, CStr;
    var idStart := ScanFrom(AtNonBlank, v, 0);
    var id, idEnd := ReadExtId(v, idStart);
    var uriStart := ScanFrom(AtNonBlank, v, idEnd);
    var uriEnd := ScanFrom(AtUriEnd, v, uriStart);
    hide Scan;
    if id == 0 { return m; }
    var uri := v[uriStart..uriEnd];
    var matched := NamesTwcc(uri);
    if matched && id <= 14 && |uri| > 0 && |uri| < URI_LEN { n := m.(ext := id, uri := CStr(uri)); } else { n := m; }
  }

  method ReadPts(content: string, from: nat) returns (r: Parsed<seq<Pt>>)
    requires from <= |content|
    ensures r == ParsePts(content, from, [])
  {
    var pos := from;
    var pts: seq<Pt> := [];
    while pos < |content|
      invariant pos <= |content| && ParsePts(content, pos, pts) == ParsePts(content, from, [])
      decreases |content| - pos
    {
      var tok := ReadToken(content, pos);
      if tok.Err? { break; }
      var pt := ReadU32(tok.value.0);
      if pt.Err? { break; }
      if pt.value > 127 { return Err(Malformed); }
      if |pts| >= MAX_PT { return Err(TooLarge); }
      pts := pts + [Pt(pt.value, "", 0, 0, "")];
      pos := tok.value.1;
    }
    r := Ok(pts);
  }

  // ---------------------------------------------------------------- the parser

  datatype Outcome = Done | Failed(error: Error)

  predicate Agrees(o: Outcome, before: Parser, r: Parsed<Parser>, now: Parser) {
    match r
    case Ok(p) => o == Done && now == p
    case Err(e) => o == Failed(e)
  }

  class OfferParser {
    var session: Session
    var media: seq<Media>
    var inMedia: bool

    ghost function Value(): Parser
      reads `session, `media
    {
      Parser(session, media)
    }

    ghost predicate Valid()
      reads this
    {
      inMedia <==> media != []
    }

    constructor ()
      ensures Valid() && Value() == START
    {
      session, media, inMedia := NO_SESSION, [], false;
    }

    method ApplySessionAttr(k: Key, v: string) returns (o: Outcome)
      requires Valid() && SessionKey(k)
      modifies `session
      ensures match ApplySession(old(session), k, v)
              case Ok(s) => o == Done && session == s
              case Err(e) => o == Failed(e)
    {
      if k.Ufrag? {
        var x := SetIfEmpty(UFRAG_LEN, session.ufrag, v);
        if x.Err? { return Failed(x.error); }
        session := session.(ufrag := x.value);
      } else if k.Pwd? {
        var x := SetIfEmpty(PWD_LEN, session.pwd, v);
        if x.Err? { return Failed(x.error); }
        session := session.(pwd := x.value);
      } else if k.Setup? {
        var x := SetIfEmpty(SETUP_LEN, session.setup, v);
        if x.Err? { return Failed(x.error); }
        session := session.(setup := x.value);
      } else {
        o := ApplyFingerprint(v);
        return;
      }
      o := Done;
    }

    method ApplyFingerprint(v: string) returns (o: Outcome)
      modifies `session
      ensures match ParseFingerprint(old(session), v)
              case Ok(s) => o == Done && session == s
              case Err(e) => o == Failed(e)
    {
      var tok := ReadToken(v, 0);
      if tok.Err? { return Failed(tok.error); }
      if session.algo != "" { return Done; }
      var algo := Copy(ALGO_LEN, tok.value.0);
      if algo.Err? { return Failed(algo.error); }
      session := session.(algo := algo.value);
      var start := ScanFrom(AtNonBlank, v, tok.value.1);
      var fp := Copy(FP_LEN, v[start..]);
      if fp.Err? { return Failed(fp.error); }
      session := session.(fingerprint := fp.value);
      o := Done;
    }

    method ApplyAttribute(name: string, v: string) returns (o: Outcome)
      requires Valid()
      modifies `session, `media
      ensures Agrees(o, old(Value()), ApplyAttr(old(Value()), KeyOf(name), v), Value())
      ensures o == Done ==> Valid()
    {
      var k := KeyOf(name);
      hide KeyOf, ApplySession;
      if SessionKey(k) {
        o := ApplySessionAttr(k, v);
        return;
      }
      if !inMedia { return Done; }
      var m := ApplyToMedia(media[|media| - 1], k, v);
      if m.Err? { return Failed(m.error); }
      media := media[|media| - 1 := m.value];
      o := Done;
    }

    method ApplyToMedia(m: Media, k: Key, v: string) returns (r: Parsed<Media>)
      ensures r == ApplyMedia(m, k, v)
    {
      hide ParseRtpmap, ParseSsrc, ParseFmtp, ParseExtmap, CStr;
      if k.Mid? {
        var x := Copy(MID_LEN, v);
        r := if x.Err? then Err(x.error) else Ok(m.(mid := x.value));
      } else if k.Rtpmap? {
        r := ReadRtpmap(m, v);
      } else if k.Ssrc? {
        r := ReadSsrc(m, v);
      } else if k.Fmtp? {
        r := ReadFmtp(m, v);
      } else if k.Extmap? {
        var n := ReadExtmap(m, v);
        r := Ok(n);
      } else {
        r := Ok(m);
      }
    }

    method ReadAttr(content: string) returns (o: Outcome)
      requires Valid()
      modifies `session, `media
      ensures Agrees(o, old(Value()), ParseAttr(old(Value()), content), Value())
      ensures o == Done ==> Valid()
    {
      hide ApplyAttr, KeyOf, Scan;
      var colon := ScanFrom(AtColon, content, 0);
      o := ApplyAttribute(content[..colon], content[Past(content, colon)..]);
    }

    method ReadMedia(content: string) returns (o: Outcome)
      requires Valid()
      modifies this
      ensures Agrees(o, old(Value()), ParseMedia(old(Value()), content), Value())
      ensures o == Done ==> Valid()
    {
      hide NextToken, ParsePts, CStr;
      if |media| >= MAX_MEDIA { return Failed(TooLarge); }
      var first := ReadToken(content, 0);
      if first.Err? { return Failed(first.error); }
      var typ := Copy(STR_LEN, first.value.0);
      if typ.Err? { return Failed(typ.error); }
      var port := ReadToken(content, first.value.1);
      if port.Err? { return Failed(port.error); }
      var proto := ReadToken(content, port.value.1);
      if proto.Err? { return Failed(proto.error); }
      var pts := ReadPts(content, proto.value.1);
      if pts.Err? { return Failed(pts.error); }
      media := media + [Media(typ.value, "", 0, pts.value, 0, "")];
      inMedia := true;
      o := Done;
    }

    method ReadLine(line: string) returns (o: Outcome)
      requires Valid() && |line| >= 2 && line[1] == '='
      modifies this
      ensures Agrees(o, old(Value()), ParseLine(old(Value()), line), Value())
      ensures o == Done ==> Valid()
    {
      hide ParseMedia, ParseAttr;
      if line[0] == 'm' {
        o := ReadMedia(line[2..]);
      } else if line[0] == 'a' {
        o := ReadAttr(line[2..]);
      } else {
        o := Done;
      }
    }

    method ReadText(text: string) returns (o: Outcome)
      requires Valid()
      modifies this
      ensures Agrees(o, old(Value()), ParseText(old(Value()), text, 0), Value())
    {
      hide ParseLine;
      var pos: nat := 0;
      o := Done;
      while pos < |text|
        invariant pos <= |text| && o == Done && Valid()
        invariant ParseText(Value(), text, pos) == ParseText(old(Value()), text, 0)
        decreases |text| - pos
      {
        var start := pos;
        pos := ScanFrom(AtBreak, text, pos);
        var line := text[start..pos];
        pos := NextLine(text, pos);
        NoLine(Value(), line);
        if |line| >= 2 && line[1] == '=' {
          o := ReadLine(line);
          if o != Done { return; }
        }
      }
    }
  }

  lemma NoLine(p: Parser, line: string)
    ensures |line| < 2 || line[1] != '=' ==> ParseLine(p, line) == Ok(p)
  {
  }

  // ---------------------------------------------------------------- the offer

  method LookUpEncoding(pts: seq<Pt>, encoding: string) returns (i: nat)
    ensures i == FindEncoding(pts, encoding)
  {
    i := 0;
    while i < |pts| && !EqualIgnoringCase(pts[i].encoding, encoding)
      invariant i <= |pts| && forall j :: 0 <= j < i ==> !EqualIgnoringCase(pts[j].encoding, encoding)
    {
      i := i + 1;
    }
  }

  method Build(p: Parser) returns (offer: Offer)
    ensures offer == BuildOffer(p)
  {
    var video, audio := NO_TRACK, NO_TRACK;
    var i: nat := 0;
    hide FindEncoding;
    while i < |p.media|
      invariant i <= |p.media| && (video, audio) == Tracks(p.media[..i])
    {
      var m := p.media[i];
      assert p.media[..i + 1][..i] == p.media[..i];
      if m.typ == "video" {
        video := video.(ext := m.ext, uri := m.uri);
        var k := LookUpEncoding(m.pts, "H264");
        if k < |m.pts| {
          var x := m.pts[k];
          video := video.(pt := x.pt, ssrc := m.ssrc, encoding := x.encoding, clock := x.clock, fmtp := x.fmtp);
        }
      } else if m.typ == "audio" {
        audio := audio.(ext := m.ext, uri := m.uri);
        var k := LookUpEncoding(m.pts, "opus");
        if k < |m.pts| {
          var x := m.pts[k];
          audio := Track(x.pt, m.ssrc, x.encoding, x.clock, x.channels, x.fmtp, m.ext, m.uri);
        }
      }
      i := i + 1;
    }
    assert p.media[..i] == p.media;
    offer := Offer(p.session, video, audio, Types(p.media), Mids(p.media));
  }

  method ReadOffer(text: string) returns (r: Parsed<Offer>)
    ensures r == ParseOffer(text)
  {
    hide ParseText, BuildOffer;
    var parser := new OfferParser();
    var o := parser.ReadText(text);
    if o.Failed? { return Err(o.error); }
    var offer := Build(Parser(parser.session, parser.media));
    r := Ok(offer);
  }
}
