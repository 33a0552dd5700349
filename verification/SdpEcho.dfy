/** The answer reads back as the offer it announces. */
module SdpEcho {
  import opened Results
  import opened SdpText
  import opened SdpSpec
  import opened SdpAnswer
  import opened SdpRoundTrip
  import opened SdpSections

  // ---------------------------------------------------------------- the chosen tracks

  lemma {:induction false} TracksOfEcho(c: Answer, slots: seq<Slot>)
    ensures Tracks(EchoAll(c, slots)) ==
      (EchoTrack(slots, "video", c.video, "H264", 0), EchoTrack(slots, "audio", c.audio, "opus", c.audio.channels))
    decreases |slots|
  {
    if slots != [] {
      var n := |slots| - 1;
      var s := slots[n];
      var before := slots[..n];
      TracksOfEcho(c, before);
      var all := EchoAll(c, slots);
      assert all[..n] == EchoAll(c, before) && all[n] == EchoMedia(c, s);
      OneMoreSlot(slots, "video");
      OneMoreSlot(slots, "audio");
      PickOfEcho(c, s, EchoTrack(before, "video", c.video, "H264", 0),
                 EchoTrack(before, "audio", c.audio, "opus", c.audio.channels));
      hide EchoMedia, PickVideo, PickAudio, HasTrack;
    }
  }

  lemma OneMoreSlot(slots: seq<Slot>, typ: string)
    requires slots != []
    ensures HasTrack(slots, typ) <==> HasTrack(slots[..|slots| - 1], typ) || slots[|slots| - 1].typ == typ
  {
    var n := |slots| - 1;
    if HasTrack(slots[..n], typ) {
      var i :| 0 <= i < n && slots[..n][i].typ == typ;
      assert slots[i].typ == typ;
    }
    if HasTrack(slots, typ) {
      var i :| 0 <= i < |slots| && slots[i].typ == typ;
      assert i < n ==> slots[..n][i].typ == typ;
    }
  }

  lemma PickOfEcho(c: Answer, s: Slot, v: Track, a: Track)
    requires v == NO_TRACK || v.channels == 0
    ensures s.typ == "video" ==> PickVideo(v, EchoMedia(c, s)) == EchoTrack([s], "video", c.video, "H264", 0)
    ensures s.typ == "audio" ==> PickAudio(a, EchoMedia(c, s)) == EchoTrack([s], "audio", c.audio, "opus", c.audio.channels)
    ensures EchoMedia(c, s).typ == s.typ
  {
    assert [s][0] == s;
    if Carried(s) { assert EqualIgnoringCase(EncodingOf(s), EncodingOf(s)); }
  }

  // ---------------------------------------------------------------- the whole answer

  lemma AnswerReadsAsLines(c: Answer)
    requires Readable(c)
    ensures ParseLines(START, AnswerLines(c)) == Ok(Parser(EchoSession(c), EchoAll(c, c.slots)))
  {
    HeadIsSkipped(c);
    SkippedLines(START, HeadLines(c));
    CredentialsRead(c);
    SectionsRead(c, c.slots, EchoSession(c));
    hide ParseLine, ParseLines, HeadLines, CredentialLines, Sections, EchoSession, EchoAll, Readable;
    Then(START, HeadLines(c), START, CredentialLines(c), Parser(EchoSession(c), []));
    Then(START, HeadLines(c) + CredentialLines(c), Parser(EchoSession(c), []),
         Sections(c, c.slots), Parser(EchoSession(c), EchoAll(c, c.slots)));
  }

  // ---------------------------------------------------------------- the theorem

  lemma EchoOfParser(c: Answer)
    ensures BuildOffer(Parser(EchoSession(c), EchoAll(c, c.slots))) == Echo(c)
  {
    TracksOfEcho(c, c.slots);
    hide Tracks, EchoTrack;
    var all := EchoAll(c, c.slots);
    var types := seq(|c.slots|, i requires 0 <= i < |c.slots| => c.slots[i].typ);
    var mids := seq(|c.slots|, i requires 0 <= i < |c.slots| => if Carried(c.slots[i]) then c.slots[i].mid else "");
    assert Types(all) == types && Mids(all) == mids;
  }

  /**
   Parsing the text of an answer succeeds and recovers what it announces: the credentials, the
   fingerprint and the role; the order, kinds and mids of the sections; and for each carried track
   the payload type, the SSRC, the encoding, the clock rate, the channels, the format parameters
   and the header extension.
   */
  lemma AnswerReadsBack(c: Answer)
    requires Readable(c)
    ensures ParseOffer(AnswerText(c)) == Ok(Echo(c))
  {
    SessionBreakFree(c);
    SectionsBreakFree(c, c.slots);
    AnswerReadsAsLines(c);
    EchoOfParser(c);
    hide Readable, Echo, BuildOffer, HeadLines, CredentialLines, Sections, ParseLine, ParseText, ParseLines, Free;
    var text := AnswerText(c);
    assert text == "" + text;
    BothBreakFree(HeadLines(c) + CredentialLines(c), Sections(c, c.slots));
    WrittenLinesAreRead(START, text, "", AnswerLines(c), CRLF);
  }
}
