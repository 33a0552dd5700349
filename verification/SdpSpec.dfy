/**
 The session description parser: one line at a time into the parser state, then the choice of the
 H264 and opus tracks. Texts are what a C reader sees in the fixed buffers the parser fills.
 */
module SdpSpec {
  import opened Bytes
  import opened Results
  import opened SdpText

  const UFRAG_LEN := 64
  const PWD_LEN := 256
  const ALGO_LEN := 32
  const FP_LEN := 160
  const SETUP_LEN := 32
  const STR_LEN := 64
  const FMTP_LEN := 256
  const MID_LEN := 32
  const URI_LEN := 96
  const MAX_MEDIA := 4
  const MAX_PT := 32
  const TWCC := "transport-wide-cc"

  datatype Session = Session(ufrag: string, pwd: string, algo: string, fingerprint: string, setup: string)

  datatype Pt = Pt(pt: nat, encoding: string, clock: nat, channels: nat, fmtp: string)

  datatype Media = Media(typ: string, mid: string, ssrc: nat, pts: seq<Pt>, ext: nat, uri: string)

  datatype Parser = Parser(session: Session, media: seq<Media>)

  const NO_SESSION := Session("", "", "", "", "")
  const START := Parser(NO_SESSION, [])

  /** Fills a buffer of `cap` characters. */
  function Copy(cap: nat, src: string): Parsed<string> {
    if |src| >= cap then Err(TooSmall) else Ok(CStr(src))
  }

  /** The session level wins: a value already present stays. */
  function SetIfEmpty(cap: nat, current: string, v: string): Parsed<string> {
    if current != "" then Ok(current) else Copy(cap, v)
  }

  function ParseFingerprint(s: Session, v: string): Parsed<Session> {
    var tok :- NextToken(v, 0);
    if s.algo != "" then Ok(s)
    else
      var algo :- Copy(ALGO_LEN, tok.0);
      var fp :- Copy(FP_LEN, v[Scan(AtNonBlank, v, tok.1)..]);
      Ok(s.(algo := algo, fingerprint := fp))
  }

  /** The place of a payload type in a media description, `|pts|` when it is not there. */
  function FindPt(pts: seq<Pt>, pt: nat): (i: nat)
    ensures i <= |pts| && (i < |pts| ==> pts[i].pt == pt) && forall j :: 0 <= j < i ==> pts[j].pt != pt
  {
    if pts == [] || pts[0].pt == pt then 0 else 1 + FindPt(pts[1..], pt)
  }

  /** The payload type that starts an attribute value, as the place of its entry. */
  function PtOf(m: Media, v: string): (r: Parsed<(nat, nat)>)
    ensures r.Ok? ==> r.value.0 < |m.pts| && r.value.1 <= |v|
  {
    var tok :- NextToken(v, 0);
    var pt :- ParseU32(tok.0);
    if pt > 127 || FindPt(m.pts, pt) == |m.pts| then Err(Malformed) else Ok((FindPt(m.pts, pt), tok.1))
  }

  /** One past a separator, unless the text has ended. */
  function Past(v: string, pos: nat): (r: nat)
    requires pos <= |v|
    ensures r <= |v|
  {
    if pos < |v| then pos + 1 else pos
  }

  function ParseRtpmap(m: Media, v: string): Parsed<Media> {
    var at :- PtOf(m, v);
    var encStart := Scan(AtNonBlank, v, at.1);
    var encEnd := Scan(AtSlash, v, encStart);
    var encoding :- Copy(STR_LEN, v[encStart..encEnd]);
    var clockStart := Past(v, encEnd);
    var clockEnd := Scan(AtSlash, v, clockStart);
    var clock :- ParseU32(v[clockStart..clockEnd]);
    var p := m.pts[at.0].(encoding := encoding, clock := clock);
    var rest := Past(v, clockEnd);
    if rest == |v| then Ok(m.(pts := m.pts[at.0 := p]))
    else
      var channels :- ParseU32(v[rest..]);
      Ok(m.(pts := m.pts[at.0 := p.(channels := channels)]))
  }

  function ParseSsrc(m: Media, v: string): Parsed<Media> {
    var tok :- NextToken(v, 0);
    var ssrc :- ParseU32(tok.0);
    Ok(m.(ssrc := ssrc))
  }

  function ParseFmtp(m: Media, v: string): Parsed<Media> {
    var at :- PtOf(m, v);
    var fmtp :- Copy(FMTP_LEN, v[Scan(AtNonBlank, v, at.1)..]);
    Ok(m.(pts := m.pts[at.0 := m.pts[at.0].(fmtp := fmtp)]))
  }

  predicate OccursAt(s: string, what: string, i: nat) { i + |what| <= |s| && s[i..i + |what|] == what }

  ghost predicate Contains(s: string, what: string) { exists i: nat :: OccursAt(s, what, i) }

  /** The id is read modulo 2^32; only a one-byte id with the right kind of URI is recorded. */
  ghost function ParseExtmap(m: Media, v: string): Media {
    var idStart := Scan(AtNonBlank, v, 0);
    var idEnd := Scan(AtNonDigit, v, idStart);
    var id := Low32(Value(v[idStart..idEnd]));
    var uriStart := Scan(AtNonBlank, v, idEnd);
    var uri := v[uriStart..Scan(AtUriEnd, v, uriStart)];
    if id != 0 && Contains(uri, TWCC) && id <= 14 && 0 < |uri| < URI_LEN then m.(ext := id, uri := CStr(uri)) else m
  }

  // ---------------------------------------------------------------- attributes

  datatype Key = Ufrag | Pwd | Setup | Fingerprint | Mid | Rtpmap | Ssrc | Fmtp | Extmap | Other

  function KeyOf(name: string): Key {
    if name == "ice-ufrag" then Ufrag
    else if name == "ice-pwd" then Pwd
    else if name == "setup" then Setup
    else if name == "fingerprint" then Fingerprint
    else if name == "mid" then Mid
    else if name == "rtpmap" then Rtpmap
    else if name == "ssrc" then Ssrc
    else if name == "fmtp" then Fmtp
    else if name == "extmap" then Extmap
    else Other
  }

  predicate SessionKey(k: Key) { k.Ufrag? || k.Pwd? || k.Setup? || k.Fingerprint? }

  function ApplySession(s: Session, k: Key, v: string): Parsed<Session>
    requires SessionKey(k)
  {
    match k
    case Ufrag => var x :- SetIfEmpty(UFRAG_LEN, s.ufrag, v); Ok(s.(ufrag := x))
    case Pwd => var x :- SetIfEmpty(PWD_LEN, s.pwd, v); Ok(s.(pwd := x))
    case Setup => var x :- SetIfEmpty(SETUP_LEN, s.setup, v); Ok(s.(setup := x))
    case Fingerprint => ParseFingerprint(s, v)
  }

  ghost function ApplyMedia(m: Media, k: Key, v: string): Parsed<Media> {
    match k
    case Mid => var x :- Copy(MID_LEN, v); Ok(m.(mid := x))
    case Rtpmap => ParseRtpmap(m, v)
    case Ssrc => ParseSsrc(m, v)
    case Fmtp => ParseFmtp(m, v)
    case Extmap => Ok(ParseExtmap(m, v))
    case _ => Ok(m)
  }

  ghost function ApplyAttr(p: Parser, k: Key, v: string): Parsed<Parser> {
    if SessionKey(k) then
      var s :- ApplySession(p.session, k, v);
      Ok(p.(session := s))
    else if p.media == [] then Ok(p)
    else
      var last := |p.media| - 1;
      var m :- ApplyMedia(p.media[last], k, v);
      Ok(p.(media := p.media[last := m]))
  }

  /** An attribute's name ends at the first colon; without one the value is empty. */
  ghost function ParseAttr(p: Parser, content: string): Parsed<Parser> {
    var colon := Scan(AtColon, content, 0);
    ApplyAttr(p, KeyOf(content[..colon]), content[Past(content, colon)..])
  }

  // ---------------------------------------------------------------- media lines

  function ParsePts(content: string, pos: nat, pts: seq<Pt>): Parsed<seq<Pt>>
    requires pos <= |content|
    decreases |content| - pos
  {
    match NextToken(content, pos)
    case Err(_) => Ok(pts)
    case Ok(tok) =>
      match ParseU32(tok.0)
      case Err(_) => Ok(pts)
      case Ok(pt) =>
        if pt > 127 then Err(Malformed)
        else if |pts| >= MAX_PT then Err(TooLarge)
        else ParsePts(content, tok.1, pts + [Pt(pt, "", 0, 0, "")])
  }

  function ParseMedia(p: Parser, content: string): Parsed<Parser> {
    if |p.media| >= MAX_MEDIA then Err(TooLarge)
    else
      var first :- NextToken(content, 0);
      var typ :- Copy(STR_LEN, first.0);
      var port :- NextToken(content, first.1);
      var proto :- NextToken(content, port.1);
      var pts :- ParsePts(content, proto.1, []);
      Ok(p.(media := p.media + [Media(typ, "", 0, pts, 0, "")]))
  }

  // ---------------------------------------------------------------- lines and the whole text

  ghost function ParseLine(p: Parser, line: string): Parsed<Parser> {
    if |line| < 2 || line[1] != '=' then Ok(p)
    else if line[0] == 'm' then ParseMedia(p, line[2..])
    else if line[0] == 'a' then ParseAttr(p, line[2..])
    else Ok(p)
  }

  /** Where the next line starts: past one carriage return and one line feed, if they are there. */
  function NextLine(text: string, end: nat): (r: nat)
    requires end <= |text|
    ensures end <= r <= |text| && (end < |text| && IsBreak(text[end]) ==> end < r)
  {
    var cr := if end < |text| && text[end] == '\r' then end + 1 else end;
    if cr < |text| && text[cr] == '\n' then cr + 1 else cr
  }

  ghost function ParseText(p: Parser, text: string, pos: nat): Parsed<Parser>
    requires pos <= |text|
    decreases |text| - pos
  {
    if pos == |text| then Ok(p)
    else
      var end := Scan(AtBreak, text, pos);
      var q :- ParseLine(p, text[pos..end]);
      ParseText(q, text, NextLine(text, end))
  }

  // ---------------------------------------------------------------- the offer

  datatype Track = Track(pt: nat, ssrc: nat, encoding: string, clock: nat, channels: nat, fmtp: string, ext: nat, uri: string)

  datatype Offer = Offer(session: Session, video: Track, audio: Track, types: seq<string>, mids: seq<string>)

  const NO_TRACK := Track(0, 0, "", 0, 0, "", 0, "")

  function Upper(c: char): char { if 'a' <= c <= 'z' then (c as int - 'a' as int + 'A' as int) as char else c }

  predicate EqualIgnoringCase(a: string, b: string) {
    |a| == |b| && forall i :: 0 <= i < |a| ==> Upper(a[i]) == Upper(b[i])
  }

  /** The first entry with the encoding, `|pts|` when there is none. */
  function FindEncoding(pts: seq<Pt>, encoding: string): (i: nat)
    ensures i <= |pts| && (i < |pts| ==> EqualIgnoringCase(pts[i].encoding, encoding))
    ensures forall j :: 0 <= j < i ==> !EqualIgnoringCase(pts[j].encoding, encoding)
  {
    if pts == [] || EqualIgnoringCase(pts[0].encoding, encoding) then 0 else 1 + FindEncoding(pts[1..], encoding)
  }

  function PickVideo(t: Track, m: Media): Track {
    var u := t.(ext := m.ext, uri := m.uri);
    var i := FindEncoding(m.pts, "H264");
    if i == |m.pts| then u
    else u.(pt := m.pts[i].pt, ssrc := m.ssrc, encoding := m.pts[i].encoding, clock := m.pts[i].clock, fmtp := m.pts[i].fmtp)
  }

  function PickAudio(t: Track, m: Media): Track {
    var u := t.(ext := m.ext, uri := m.uri);
    var i := FindEncoding(m.pts, "opus");
    if i == |m.pts| then u
    else Track(m.pts[i].pt, m.ssrc, m.pts[i].encoding, m.pts[i].clock, m.pts[i].channels, m.pts[i].fmtp, m.ext, m.uri)
  }

  /** The tracks after the media descriptions so far: later ones win. */
  function Tracks(media: seq<Media>): (Track, Track) {
    if media == [] then (NO_TRACK, NO_TRACK)
    else
      var (v, a) := Tracks(media[..|media| - 1]);
      var m := media[|media| - 1];
      if m.typ == "video" then (PickVideo(v, m), a)
      else if m.typ == "audio" then (v, PickAudio(a, m))
      else (v, a)
  }

  function Types(media: seq<Media>): seq<string> { seq(|media|, i requires 0 <= i < |media| => media[i].typ) }

  function Mids(media: seq<Media>): seq<string> { seq(|media|, i requires 0 <= i < |media| => media[i].mid) }

  function BuildOffer(p: Parser): Offer {
    var (v, a) := Tracks(p.media);
    Offer(p.session, v, a, Types(p.media), Mids(p.media))
  }

  ghost function ParseOffer(text: string): Parsed<Offer> {
    var p :- ParseText(START, text, 0);
    Ok(BuildOffer(p))
  }

  // ---------------------------------------------------------------- what every parse keeps

  /** Every text fits the buffer it was copied to. */
  predicate SessionFits(s: Session) {
    |s.ufrag| < UFRAG_LEN && |s.pwd| < PWD_LEN && |s.algo| < ALGO_LEN && |s.fingerprint| < FP_LEN && |s.setup| < SETUP_LEN
  }

  predicate PtFits(p: Pt) { p.pt <= 127 && |p.encoding| < STR_LEN && p.clock < U32 && p.channels < U32 && |p.fmtp| < FMTP_LEN }

  predicate PtsFit(pts: seq<Pt>) { |pts| <= MAX_PT && forall i :: 0 <= i < |pts| ==> PtFits(pts[i]) }

  predicate MediaFits(m: Media) {
    && |m.typ| < STR_LEN && |m.mid| < MID_LEN && m.ssrc < U32 && PtsFit(m.pts)
    && m.ext <= 14 && |m.uri| < URI_LEN && (m.ext == 0 ==> m.uri == "")
  }

  predicate ParserFits(p: Parser) {
    SessionFits(p.session) && |p.media| <= MAX_MEDIA && forall i :: 0 <= i < |p.media| ==> MediaFits(p.media[i])
  }

  lemma {:induction false} PtsStayInBounds(content: string, pos: nat, pts: seq<Pt>)
    requires pos <= |content| && PtsFit(pts)
    ensures var r := ParsePts(content, pos, pts); r.Ok? ==> PtsFit(r.value)
    decreases |content| - pos
  {
    match NextToken(content, pos)
    case Err(_) =>
    case Ok(tok) =>
      match ParseU32(tok.0)
      case Err(_) =>
      case Ok(pt) =>
        if pt <= 127 && |pts| < MAX_PT { PtsStayInBounds(content, tok.1, pts + [Pt(pt, "", 0, 0, "")]); }
  }

  lemma ApplyKeepsBounds(p: Parser, k: Key, v: string)
    requires ParserFits(p)
    ensures var r := ApplyAttr(p, k, v); r.Ok? ==> ParserFits(r.value)
  {
    if SessionKey(k) {
      SessionKeepsBounds(p.session, k, v);
    } else if p.media != [] {
      MediaKeepsBounds(p.media[|p.media| - 1], k, v);
    }
  }

  lemma SessionKeepsBounds(s: Session, k: Key, v: string)
    requires SessionFits(s) && SessionKey(k)
    ensures var r := ApplySession(s, k, v); r.Ok? ==> SessionFits(r.value)
  {
  }

  lemma MediaKeepsBounds(m: Media, k: Key, v: string)
    requires MediaFits(m)
    ensures var r := ApplyMedia(m, k, v); r.Ok? ==> MediaFits(r.value)
  {
    hide Scan, Value;
  }

  lemma LineKeepsBounds(p: Parser, line: string)
    requires ParserFits(p)
    ensures var r := ParseLine(p, line); r.Ok? ==> ParserFits(r.value)
  {
    if |line| >= 2 && line[1] == '=' {
      var content := line[2..];
      if line[0] == 'm' {
        MediaLineKeepsBounds(p, content);
      } else if line[0] == 'a' {
        var colon := Scan(AtColon, content, 0);
        ApplyKeepsBounds(p, KeyOf(content[..colon]), content[Past(content, colon)..]);
      }
    }
    hide ApplyAttr, KeyOf, ParseMedia, ParserFits;
  }

  lemma MediaLineKeepsBounds(p: Parser, content: string)
    requires ParserFits(p)
    ensures var r := ParseMedia(p, content); r.Ok? ==> ParserFits(r.value)
  {
    if |p.media| < MAX_MEDIA {
      match NextToken(content, 0)
      case Err(_) =>
      case Ok(first) =>
        match NextToken(content, first.1)
        case Err(_) =>
        case Ok(port) =>
          match NextToken(content, port.1)
          case Err(_) =>
          case Ok(proto) => PtsStayInBounds(content, proto.1, []);
    }
  }

  /** Whatever the text, no field of an accepted parse outgrows the buffer it lives in. */
  lemma {:induction false} ParseStaysInBounds(p: Parser, text: string, pos: nat)
    requires pos <= |text| && ParserFits(p)
    ensures var r := ParseText(p, text, pos); r.Ok? ==> ParserFits(r.value)
    decreases |text| - pos
  {
    if pos < |text| {
      var end := Scan(AtBreak, text, pos);
      LineKeepsBounds(p, text[pos..end]);
      var r := ParseLine(p, text[pos..end]);
      hide ParseLine, ParserFits;
      if r.Ok? { ParseStaysInBounds(r.value, text, NextLine(text, end)); }
    }
  }

  predicate TrackFits(t: Track) {
    && t.pt <= 127 && t.ssrc < U32 && |t.encoding| < STR_LEN && t.clock < U32 && t.channels < U32 && |t.fmtp| < FMTP_LEN
    && t.ext <= 14 && |t.uri| < URI_LEN && (t.ext == 0 ==> t.uri == "")
  }

  lemma {:induction false} TracksFit(media: seq<Media>)
    requires forall i :: 0 <= i < |media| ==> MediaFits(media[i])
    ensures TrackFits(Tracks(media).0) && TrackFits(Tracks(media).1)
    ensures Tracks(media).0.pt != 0 ==> EqualIgnoringCase(Tracks(media).0.encoding, "H264")
    ensures Tracks(media).1.pt != 0 ==> EqualIgnoringCase(Tracks(media).1.encoding, "opus")
  {
    if media != [] {
      TracksFit(media[..|media| - 1]);
      assert MediaFits(media[|media| - 1]);
    }
  }

  /**
   Every accepted offer fits the structure it is returned in: at most four sections, each string
   shorter than its buffer, a payload type below 128 that names the codec it was chosen for, and a
   header extension id that fits the one-byte form.
   */
  lemma OfferFits(text: string)
    ensures var r := ParseOffer(text);
      r.Ok? ==>
        var o := r.value;
        && SessionFits(o.session) && TrackFits(o.video) && TrackFits(o.audio)
        && (o.video.pt != 0 ==> EqualIgnoringCase(o.video.encoding, "H264"))
        && (o.audio.pt != 0 ==> EqualIgnoringCase(o.audio.encoding, "opus"))
        && |o.types| == |o.mids| <= MAX_MEDIA
        && forall i :: 0 <= i < |o.types| ==> |o.types[i]| < STR_LEN && |o.mids[i]| < MID_LEN
  {
    ParseStaysInBounds(START, text, 0);
    var p := ParseText(START, text, 0);
    hide ParseText;
    if p.Ok? { TracksFit(p.value.media); }
    hide Tracks, TrackFits, PtsFit, EqualIgnoringCase;
  }
}
