/** The text of an answer, as the lines the writer prints. */
module SdpAnswer {
  import opened Bytes
  import opened SdpText
  import opened SdpSpec

  datatype Slot = Slot(typ: string, mid: string)

  /** What one kind of track is announced with. */
  datatype Plan = Plan(pt: nat, ssrc: nat, clock: nat, channels: nat, fmtp: string, ext: nat, uri: string)

  /** An empty text stands for a missing one: the writer skips both. */
  datatype Answer = Answer(ufrag: string, pwd: string, algo: string, fingerprint: string, setup: string, proto: string,
                           candidateIp: string, candidatePort: nat, slots: seq<Slot>, video: Plan, audio: Plan,
                           direction: int, mux: bool, rsize: bool)

  const CRLF := "\r\n"

  /** Every line followed by its end. */
  function JoinWith(lines: seq<string>, eol: string): string {
    if lines == [] then "" else lines[0] + eol + JoinWith(lines[1..], eol)
  }

  function Join(lines: seq<string>): string { JoinWith(lines, CRLF) }

  function When(c: bool, line: string): seq<string> { if c then [line] else [] }

  predicate Carried(s: Slot) { s.typ == "video" || s.typ == "audio" }

  function PlanOf(c: Answer, s: Slot): Plan { if s.typ == "video" then c.video else c.audio }

  function EncodingOf(s: Slot): string { if s.typ == "video" then "H264" else "opus" }

  /** A video track announces no channels. */
  function ChannelsOf(c: Answer, s: Slot): nat { if s.typ == "video" then 0 else c.audio.channels }

  function GroupMids(slots: seq<Slot>): string {
    if slots == [] then ""
    else GroupMids(slots[..|slots| - 1]) + if Carried(slots[|slots| - 1]) then " " + slots[|slots| - 1].mid else ""
  }

  function HeadLines(c: Answer): seq<string> {
    ["v=0", "o=ngx-rtc 0 1 IN IP4 0.0.0.0", "s=-", "t=0 0", "a=group:BUNDLE" + GroupMids(c.slots), "a=msid-semantic: WMS",
     "a=ice-lite"]
  }

  function CredentialLines(c: Answer): seq<string> {
    When(c.ufrag != "", "a=ice-ufrag:" + c.ufrag) + When(c.pwd != "", "a=ice-pwd:" + c.pwd)
    + When(c.algo != "" && c.fingerprint != "", "a=fingerprint:" + c.algo + " " + c.fingerprint)
    + When(c.setup != "", "a=setup:" + c.setup)
  }

  function MediaLine(c: Answer, s: Slot): string {
    if Carried(s) then "m=" + s.typ + " 9 " + c.proto + " " + Dec(PlanOf(c, s).pt) else "m=" + s.typ + " 0 " + c.proto
  }

  function ExtmapLines(p: Plan): seq<string> { When(p.ext != 0 && p.uri != "", "a=extmap:" + Dec(p.ext) + " " + p.uri) }

  function TransportLines(c: Answer): seq<string> {
    When(c.candidateIp != "",
         "a=candidate:1 1 udp 2130706431 " + c.candidateIp + " " + Dec(c.candidatePort) + " typ host generation 0")
    + When(c.direction != 0, if c.direction > 0 then "a=sendonly" else "a=recvonly")
    + When(c.mux, "a=rtcp-mux") + When(c.rsize, "a=rtcp-rsize")
  }

  function RtpmapLine(c: Answer, s: Slot): string {
    "a=rtpmap:" + Dec(PlanOf(c, s).pt) + " " + EncodingOf(s) + "/" + Dec(PlanOf(c, s).clock)
    + if ChannelsOf(c, s) != 0 then "/" + Dec(ChannelsOf(c, s)) else ""
  }

  function FmtpLines(p: Plan): seq<string> { When(p.fmtp != "", "a=fmtp:" + Dec(p.pt) + " " + p.fmtp) }

  /** Feedback is announced for video only, and retransmission only where the server sends. */
  function FeedbackLines(c: Answer, s: Slot): seq<string> {
    When(s.typ == "video", "a=rtcp-fb:" + Dec(c.video.pt) + " nack pli")
    + When(s.typ == "video" && c.direction > 0, "a=rtcp-fb:" + Dec(c.video.pt) + " nack")
  }

  function SsrcLine(p: Plan): string { "a=ssrc:" + Dec(p.ssrc) + " cname:" + Dec(p.ssrc) }

  /** One section in the slot's place: a carried track, or a rejection with port 0. */
  function SectionLines(c: Answer, s: Slot): seq<string> {
    if !Carried(s) then [MediaLine(c, s)]
    else
      [MediaLine(c, s), "c=IN IP4 0.0.0.0", "a=mid:" + s.mid] + ExtmapLines(PlanOf(c, s)) + TransportLines(c)
      + [RtpmapLine(c, s)] + FmtpLines(PlanOf(c, s)) + FeedbackLines(c, s) + [SsrcLine(PlanOf(c, s))]
  }

  function Sections(c: Answer, slots: seq<Slot>): seq<string> {
    if slots == [] then [] else Sections(c, slots[..|slots| - 1]) + SectionLines(c, slots[|slots| - 1])
  }

  function AnswerLines(c: Answer): seq<string> { HeadLines(c) + CredentialLines(c) + Sections(c, c.slots) }

  function AnswerText(c: Answer): string { Join(AnswerLines(c)) }

  lemma {:induction false} JoinOfConcat(a: seq<string>, b: seq<string>)
    ensures Join(a + b) == Join(a) + Join(b)
  {
    if a == [] {
      assert a + b == b;
    } else {
      JoinOfConcat(a[1..], b);
      assert (a + b)[1..] == a[1..] + b;
      assert a[0] + CRLF + (Join(a[1..]) + Join(b)) == (a[0] + CRLF + Join(a[1..])) + Join(b);
    }
  }

  // ---------------------------------------------------------------- what a reader of the answer should get

  predicate NoBreaks(s: string) { Free(AtBreak, s) && Free(AtNul, s) }

  /** A value that is read to the end of its line. */
  predicate Fits(s: string, cap: nat) { NoBreaks(s) && |s| < cap }

  predicate OneToken(s: string) { s != "" && NoBreaks(s) && Free(AtBlank, s) }

  predicate NoLeadingBlank(s: string) { s != "" ==> !IsBlank(s[0]) }

  ghost predicate PlanOk(p: Plan) {
    && p.pt <= 127 && p.ssrc < U32 && p.clock < U32 && p.channels < U32
    && Fits(p.fmtp, FMTP_LEN) && NoLeadingBlank(p.fmtp)
    && (p.ext != 0 && p.uri != "" ==> p.ext <= 14 && OneToken(p.uri) && |p.uri| < URI_LEN && Contains(p.uri, TWCC))
  }

  predicate SlotOk(s: Slot) { OneToken(s.typ) && |s.typ| < STR_LEN && (Carried(s) ==> Fits(s.mid, MID_LEN)) }

  /** The answers whose strings a reader can hold and tell apart. */
  ghost predicate Readable(c: Answer) {
    && Fits(c.ufrag, UFRAG_LEN) && Fits(c.pwd, PWD_LEN) && Fits(c.setup, SETUP_LEN)
    && (c.algo != "" && c.fingerprint != "" ==>
          OneToken(c.algo) && |c.algo| < ALGO_LEN && Fits(c.fingerprint, FP_LEN) && NoLeadingBlank(c.fingerprint))
    && OneToken(c.proto) && NoBreaks(c.candidateIp)
    && |c.slots| <= MAX_MEDIA && (forall i :: 0 <= i < |c.slots| ==> SlotOk(c.slots[i]))
    && PlanOk(c.video) && PlanOk(c.audio)
  }

  function EchoSession(c: Answer): Session {
    var both := c.algo != "" && c.fingerprint != "";
    Session(c.ufrag, c.pwd, if both then c.algo else "", if both then c.fingerprint else "", c.setup)
  }

  function EchoMedia(c: Answer, s: Slot): Media {
    if !Carried(s) then Media(s.typ, "", 0, [], 0, "")
    else
      var p := PlanOf(c, s);
      var ext := p.ext != 0 && p.uri != "";
      Media(s.typ, s.mid, p.ssrc, [Pt(p.pt, EncodingOf(s), p.clock, ChannelsOf(c, s), p.fmtp)],
            if ext then p.ext else 0, if ext then p.uri else "")
  }

  function EchoAll(c: Answer, slots: seq<Slot>): seq<Media> {
    seq(|slots|, i requires 0 <= i < |slots| => EchoMedia(c, slots[i]))
  }

  predicate HasTrack(slots: seq<Slot>, typ: string) { exists i :: 0 <= i < |slots| && slots[i].typ == typ }

  /** The track a reader finds, when some slot carries it. */
  function EchoTrack(slots: seq<Slot>, typ: string, p: Plan, encoding: string, channels: nat): Track {
    if HasTrack(slots, typ) then
      var ext := p.ext != 0 && p.uri != "";
      Track(p.pt, p.ssrc, encoding, p.clock, channels, p.fmtp, if ext then p.ext else 0, if ext then p.uri else "")
    else NO_TRACK
  }

  /** The offer an answer reads back as: its order of sections, its mids, its credentials and its tracks. */
  function Echo(c: Answer): Offer {
    Offer(EchoSession(c),
          EchoTrack(c.slots, "video", c.video, "H264", 0), EchoTrack(c.slots, "audio", c.audio, "opus", c.audio.channels),
          seq(|c.slots|, i requires 0 <= i < |c.slots| => c.slots[i].typ),
          seq(|c.slots|, i requires 0 <= i < |c.slots| => if Carried(c.slots[i]) then c.slots[i].mid else ""))
  }
}
