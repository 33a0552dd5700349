/** What a peer that knows nothing of the writer reads in an answer about its transport. */
module SdpPeer {
  // The reader splits a text into lines, a line at its first colon and its blanks, and keeps what RFC 8866, RFC 8839,
  // RFC 5761, RFC 5506 and RFC 4585 give a meaning: the bundle, the sections with their ports and formats, the
  // direction, the candidate, and the feedback. It is written without the writer's lines, and the answer's lines
  // are proved to tell it what was configured.

  import opened Options
  import opened SdpAnswer
  import opened SdpRoundTrip
  import opened SdpSections
  import opened SdpText

  // ---------------------------------------------------------------- the reader

  datatype Direction = Unsaid | SendOnly | RecvOnly

  datatype Candidate = Candidate(transport: string, address: string, port: nat, kind: string)

  /** A media section: its line, and what its attributes say about the transport. */
  datatype Seen = Seen(words: seq<string>, direction: Direction, candidate: Option<Candidate>,
                       mux: bool, rsize: bool, feedback: seq<seq<string>>)

  datatype Peer = Peer(bundle: seq<string>, lite: bool, sections: seq<Seen>)

  const NOTHING := Peer([], false, [])

  /** Where a character first stands, the length where it does not. */
  function Place(s: string, c: char): (i: nat)
    ensures i <= |s| && (i < |s| ==> s[i] == c) && forall j :: 0 <= j < i ==> s[j] != c
  {
    if s == "" || s[0] == c then 0 else 1 + Place(s[1..], c)
  }

  function Words(s: string): (r: seq<string>)
    ensures r != []
    decreases |s|
  {
    var i := Place(s, ' ');
    if i == |s| then [s] else [s[..i]] + Words(s[i + 1..])
  }

  function Number(s: string): Option<nat> {
    if s != "" && Free(AtNonDigit, s) then Some(Value(s)) else None
  }

  /** A candidate: foundation, component, transport, priority, address, port, and its kind after "typ". */
  function CandidateOf(value: string): Option<Candidate> {
    var w := Words(value);
    if |w| < 8 || w[6] != "typ" || Number(w[5]).None? then None
    else Some(Candidate(w[2], w[4], Number(w[5]).value, w[7]))
  }

  function TakeAttr(x: Seen, name: string, value: string): Seen {
    if name == "sendonly" then x.(direction := SendOnly)
    else if name == "recvonly" then x.(direction := RecvOnly)
    else if name == "candidate" then x.(candidate := CandidateOf(value))
    else if name == "rtcp-mux" then x.(mux := true)
    else if name == "rtcp-rsize" then x.(rsize := true)
    else if name == "rtcp-fb" then x.(feedback := x.feedback + [Words(value)])
    else x
  }

  function TakeSession(p: Peer, name: string, value: string): Peer {
    if name == "group" && Words(value)[0] == "BUNDLE" then p.(bundle := Words(value)[1..])
    else if name == "ice-lite" then p.(lite := true)
    else p
  }

  function TakeLine(p: Peer, line: string): Peer {
    if |line| < 2 || line[1] != '=' then p
    else if line[0] == 'm' then p.(sections := p.sections + [Seen(Words(line[2..]), Unsaid, None, false, false, [])])
    else if line[0] != 'a' then p
    else
      var rest := line[2..];
      var colon := Place(rest, ':');
      var name, value := rest[..colon], if colon < |rest| then rest[colon + 1..] else "";
      if p.sections == [] then TakeSession(p, name, value)
      else
        var last := |p.sections| - 1;
        p.(sections := p.sections[..last] + [TakeAttr(p.sections[last], name, value)])
  }

  function TakeLines(p: Peer, lines: seq<string>): Peer
    decreases |lines|
  {
    if lines == [] then p else TakeLines(TakeLine(p, lines[0]), lines[1..])
  }

  /** The lines of a text, each ended by a line feed with or without a carriage return before it. */
  function LinesOf(text: string): seq<string>
    decreases |text|
  {
    if text == "" then []
    else
      var i := Place(text, '\n');
      var line := if i > 0 && text[i - 1] == '\r' then text[..i - 1] else text[..i];
      [line] + LinesOf(if i < |text| then text[i + 1..] else "")
  }

  function PeerOf(text: string): Peer { TakeLines(NOTHING, LinesOf(text)) }

  // ---------------------------------------------------------------- what was configured

  function CarriedMids(slots: seq<Slot>): seq<string> {
    if slots == [] then []
    else CarriedMids(slots[..|slots| - 1]) + if Carried(slots[|slots| - 1]) then [slots[|slots| - 1].mid] else []
  }

  /** Retransmission requests are invited for video where the server sends, keyframe requests for all video. */
  function InvitedFeedback(c: Answer, s: Slot): seq<seq<string>> {
    if s.typ != "video" then []
    else [[Dec(c.video.pt), "nack", "pli"]] + if c.direction > 0 then [[Dec(c.video.pt), "nack"]] else []
  }

  function Told(c: Answer, s: Slot): Seen {
    if !Carried(s) then Seen([s.typ, "0", c.proto], Unsaid, None, false, false, [])
    else
      Seen([s.typ, "9", c.proto, Dec((if s.typ == "video" then c.video else c.audio).pt)],
           if c.direction > 0 then SendOnly else if c.direction < 0 then RecvOnly else Unsaid,
           if c.candidateIp != "" then Some(Candidate("udp", c.candidateIp, c.candidatePort, "host")) else None,
           c.mux, c.rsize, InvitedFeedback(c, s))
  }

  function ToldAll(c: Answer, slots: seq<Slot>): seq<Seen> {
    if slots == [] then [] else ToldAll(c, slots[..|slots| - 1]) + [Told(c, slots[|slots| - 1])]
  }

  predicate OneWord(s: string) { ' ' !in s }

  /** The candidate's address and the mids of carried sections are single words. */
  predicate PlainNames(c: Answer) {
    OneWord(c.candidateIp) && forall i :: 0 <= i < |c.slots| && Carried(c.slots[i]) ==> OneWord(c.slots[i].mid)
  }

  // ---------------------------------------------------------------- words and names

  lemma PlaceAt(a: string, c: char, b: string)
    requires c !in a
    ensures Place(a + [c] + b, c) == |a|
  {
    var s := a + [c] + b;
    assert s[|a|] == c && forall j :: 0 <= j < |a| ==> s[j] == a[j];
  }

  lemma PlaceNone(a: string, c: char)
    requires c !in a
    ensures Place(a, c) == |a|
  {
  }

  lemma OneWordOnly(a: string)
    requires OneWord(a)
    ensures Words(a) == [a]
  {
    PlaceNone(a, ' ');
  }

  lemma {:induction false} WordsOfBoth(a: string, b: string)
    ensures Words(a + " " + b) == Words(a) + Words(b)
    decreases |a|
  {
    var i := Place(a, ' ');
    if i == |a| {
      PlaceAt(a, ' ', b);
      assert (a + " " + b)[..|a|] == a && (a + " " + b)[|a| + 1..] == b;
    } else {
      var head, tail := a[..i], a[i + 1..];
      HeadAndTail(a, b, i);
      PlaceAt(head, ' ', tail + " " + b);
      WordsOfBoth(tail, b);
    }
  }

  lemma HeadAndTail(a: string, b: string, i: nat)
    requires i < |a| && a[i] == ' '
    ensures var s := a + " " + b; s == a[..i] + [' '] + (a[i + 1..] + " " + b) && s[..i] == a[..i] && s[i + 1..] == a[i + 1..] + " " + b
  {
  }

  lemma ThreeWords(a: string, b: string, c: string)
    requires OneWord(a) && OneWord(b) && OneWord(c)
    ensures Words(a + " " + b + " " + c) == [a, b, c]
  {
    WordsOfBoth(a + " " + b, c);
    WordsOfBoth(a, b);
    OneWordOnly(a);
    OneWordOnly(b);
    OneWordOnly(c);
    hide Words;
  }

  lemma NumberOfDec(n: nat)
    ensures Number(Dec(n)) == Some(n) && OneWord(Dec(n))
  {
    ValueOfDec(n);
    var d := Dec(n);
    forall i | 0 <= i < |d| ensures d[i] != ' ' { assert !Stops(AtNonDigit, d[i]); }
    hide Dec, Value;
  }

  // ---------------------------------------------------------------- one line

  /** A section attribute changes the last section by its name and value. */
  lemma AttrIsTaken(p: Peer, base: seq<Seen>, x: Seen, line: string, name: string, value: string)
    requires p.sections == base + [x] && ':' !in name
    requires line == "a=" + name + ":" + value || (line == "a=" + name && value == "")
    ensures TakeLine(p, line) == p.(sections := base + [TakeAttr(x, name, value)])
  {
    NameIsCut(line, name, value);
    assert p.sections[..|p.sections| - 1] == base;
    hide TakeAttr, TakeSession, Place;
  }

  lemma SessionIsTaken(p: Peer, line: string, name: string, value: string)
    requires p.sections == [] && ':' !in name
    requires line == "a=" + name + ":" + value || (line == "a=" + name && value == "")
    ensures TakeLine(p, line) == TakeSession(p, name, value)
  {
    NameIsCut(line, name, value);
    hide TakeAttr, TakeSession, Place;
  }

  lemma NameIsCut(line: string, name: string, value: string)
    requires ':' !in name
    requires line == "a=" + name + ":" + value || (line == "a=" + name && value == "")
    ensures |line| >= 2 && line[0] == 'a' && line[1] == '='
    ensures var rest := line[2..]; var colon := Place(rest, ':');
      rest[..colon] == name && (if colon < |rest| then rest[colon + 1..] else "") == value
  {
    if line == "a=" + name + ":" + value {
      assert line[2..] == name + [':'] + value;
      PlaceAt(name, ':', value);
    } else {
      assert line[2..] == name;
      PlaceNone(name, ':');
    }
  }

  /** An attribute line whose name the reader has no use for. */
  ghost predicate AttrOf(line: string, name: string, value: string) {
    && ':' !in name && line == "a=" + name + ":" + value
    && name !in {"sendonly", "recvonly", "candidate", "rtcp-mux", "rtcp-rsize", "rtcp-fb", "group", "ice-lite"}
  }

  /** The line tells the reader nothing, in a section or before all sections. */
  ghost predicate SaysNothing(line: string) {
    || (|line| >= 2 && line[1] == '=' && line[0] != 'm' && line[0] != 'a')
    || exists name, value :: AttrOf(line, name, value)
  }

  lemma PassedBy(p: Peer, line: string)
    requires SaysNothing(line)
    ensures TakeLine(p, line) == p
  {
    hide TakeLine, AttrOf;
    if name, value :| AttrOf(line, name, value) {
      AttributePasses(p, line, name, value);
    } else {
      OtherPasses(p, line);
    }
  }

  lemma OtherPasses(p: Peer, line: string)
    requires |line| >= 2 && line[1] == '=' && line[0] != 'm' && line[0] != 'a'
    ensures TakeLine(p, line) == p
  {
  }

  lemma AttributePasses(p: Peer, line: string, name: string, value: string)
    requires AttrOf(line, name, value)
    ensures TakeLine(p, line) == p
  {
    NameIsCut(line, name, value);
    if p.sections != [] { SameSections(p.sections); }
    hide Place, CandidateOf, Words;
  }

  lemma SameSections(s: seq<Seen>)
    requires s != []
    ensures s[..|s| - 1] + [s[|s| - 1]] == s
  {
  }

  lemma {:induction false} AllPassedBy(p: Peer, lines: seq<string>)
    requires forall i :: 0 <= i < |lines| ==> SaysNothing(lines[i])
    ensures TakeLines(p, lines) == p
    decreases |lines|
  {
    hide SaysNothing, TakeLine;
    if lines != [] {
      PassedBy(p, lines[0]);
      AllPassedBy(p, lines[1..]);
    }
  }

  lemma {:induction false} TakenInTwo(p: Peer, a: seq<string>, b: seq<string>)
    ensures TakeLines(p, a + b) == TakeLines(TakeLines(p, a), b)
    decreases |a|
  {
    hide TakeLine;
    if a == [] {
      assert a + b == b;
    } else {
      assert (a + b)[1..] == a[1..] + b && (a + b)[0] == a[0];
      TakenInTwo(TakeLine(p, a[0]), a[1..], b);
    }
  }

  lemma TakenOne(p: Peer, line: string)
    ensures TakeLines(p, [line]) == TakeLine(p, line)
  {
    hide TakeLine;
    assert [line][1..] == [];
  }

  // ---------------------------------------------------------------- the lines of a section

  /** The sections with the last one replaced. */
  function Last(p: Peer, base: seq<Seen>, x: Seen): Peer { p.(sections := base + [x]) }

  lemma OneAttr(p: Peer, base: seq<Seen>, x: Seen, line: string, name: string, value: string, y: Seen)
    requires ':' !in name && y == TakeAttr(x, name, value)
    requires line == "a=" + name + ":" + value || (line == "a=" + name && value == "")
    ensures TakeLines(Last(p, base, x), [line]) == Last(p, base, y)
  {
    hide TakeAttr, TakeLine;
    AttrIsTaken(Last(p, base, x), base, x, line, name, value);
    TakenOne(Last(p, base, x), line);
  }

  lemma Nothing(p: Peer)
    ensures TakeLines(p, []) == p
  {
  }

  lemma CandidateReads(ip: string, port: nat)
    requires OneWord(ip)
    ensures var value := "1 1 udp 2130706431 " + ip + " " + Dec(port) + " typ host generation 0";
      CandidateOf(value) == Some(Candidate("udp", ip, port, "host"))
  {
    hide Words, Place, Dec, Number, OneWord;
    var d := Dec(port);
    NumberOfDec(port);
    HeadWords();
    TailWords();
    OneWordOnly(ip);
    OneWordOnly(d);
    CandidateGroups(ip, d);
    WordsOfBoth("1 1 udp 2130706431", ip);
    WordsOfBoth("1 1 udp 2130706431" + " " + ip, d);
    WordsOfBoth("1 1 udp 2130706431" + " " + ip + " " + d, "typ host generation 0");
  }

  lemma CandidateGroups(ip: string, d: string)
    ensures "1 1 udp 2130706431 " + ip + " " + d + " typ host generation 0"
         == "1 1 udp 2130706431" + " " + ip + " " + d + " " + "typ host generation 0"
  {
    assert "1 1 udp 2130706431 " == "1 1 udp 2130706431" + " ";
    assert " typ host generation 0" == " " + "typ host generation 0";
  }

  lemma HeadWords()
    ensures Words("1 1 udp 2130706431") == ["1", "1", "udp", "2130706431"]
  {
    hide Words, Place;
    ThreeWords("1", "1", "udp");
    assert "1 1 udp" == "1" + " " + "1" + " " + "udp";
    OneWordOnly("2130706431");
    WordsOfBoth("1 1 udp", "2130706431");
    assert "1 1 udp 2130706431" == "1 1 udp" + " " + "2130706431";
  }

  lemma TailWords()
    ensures Words("typ host generation 0") == ["typ", "host", "generation", "0"]
  {
    hide Words, Place;
    ThreeWords("typ", "host", "generation");
    assert "typ host generation" == "typ" + " " + "host" + " " + "generation";
    OneWordOnly("0");
    WordsOfBoth("typ host generation", "0");
    assert "typ host generation 0" == "typ host generation" + " " + "0";
  }

  lemma CandidateIsTaken(p: Peer, base: seq<Seen>, x: Seen, c: Answer)
    requires OneWord(c.candidateIp) && x.candidate == None
    ensures TakeLines(Last(p, base, x), When(c.candidateIp != "",
              "a=candidate:1 1 udp 2130706431 " + c.candidateIp + " " + Dec(c.candidatePort) + " typ host generation 0"))
         == Last(p, base, x.(candidate :=
              if c.candidateIp != "" then Some(Candidate("udp", c.candidateIp, c.candidatePort, "host")) else None))
  {
    if c.candidateIp != "" {
      CandidateReads(c.candidateIp, c.candidatePort);
      var d := Dec(c.candidatePort);
      hide CandidateOf, TakeLine, TakeLines, Dec;
      CandidateLineGroups(c.candidateIp, d);
      OneAttr(p, base, x, "a=candidate:1 1 udp 2130706431 " + c.candidateIp + " " + d + " typ host generation 0", "candidate",
              "1 1 udp 2130706431 " + c.candidateIp + " " + d + " typ host generation 0",
              x.(candidate := Some(Candidate("udp", c.candidateIp, c.candidatePort, "host"))));
    } else {
      Nothing(Last(p, base, x));
    }
  }

  lemma CandidateLineGroups(ip: string, d: string)
    ensures "a=candidate:1 1 udp 2130706431 " + ip + " " + d + " typ host generation 0"
         == "a=" + "candidate" + ":" + ("1 1 udp 2130706431 " + ip + " " + d + " typ host generation 0")
  {
    assert "a=candidate:1 1 udp 2130706431 " == "a=" + "candidate" + ":" + "1 1 udp 2130706431 ";
    var h, z := "a=" + "candidate" + ":", " typ host generation 0";
    InFour(h, "1 1 udp 2130706431 ", ip, " ", d, z);
  }

  lemma InFour(h: string, a: string, b: string, c: string, d: string, e: string)
    ensures (h + a) + b + c + d + e == h + (a + b + c + d + e)
  {
  }

  lemma DirectionIsTaken(p: Peer, base: seq<Seen>, x: Seen, c: Answer)
    requires x.direction == Unsaid
    ensures TakeLines(Last(p, base, x), When(c.direction != 0, if c.direction > 0 then "a=sendonly" else "a=recvonly"))
         == Last(p, base, x.(direction := if c.direction > 0 then SendOnly else if c.direction < 0 then RecvOnly else Unsaid))
  {
    hide TakeLine, TakeLines;
    if c.direction > 0 {
      assert "a=sendonly" == "a=" + "sendonly";
      OneAttr(p, base, x, "a=sendonly", "sendonly", "", x.(direction := SendOnly));
    } else if c.direction < 0 {
      assert "a=recvonly" == "a=" + "recvonly";
      OneAttr(p, base, x, "a=recvonly", "recvonly", "", x.(direction := RecvOnly));
    } else {
      Nothing(Last(p, base, x));
    }
  }

  lemma FlagsAreTaken(p: Peer, base: seq<Seen>, x: Seen, c: Answer)
    requires !x.mux && !x.rsize
    ensures TakeLines(Last(p, base, x), When(c.mux, "a=rtcp-mux")) == Last(p, base, x.(mux := c.mux))
    ensures TakeLines(Last(p, base, x.(mux := c.mux)), When(c.rsize, "a=rtcp-rsize"))
         == Last(p, base, x.(mux := c.mux, rsize := c.rsize))
  {
    hide TakeLine, TakeLines;
    var y := x.(mux := c.mux);
    Nothing(Last(p, base, x));
    Nothing(Last(p, base, y));
    if c.mux {
      assert "a=rtcp-mux" == "a=" + "rtcp-mux";
      OneAttr(p, base, x, "a=rtcp-mux", "rtcp-mux", "", y);
    }
    if c.rsize {
      assert "a=rtcp-rsize" == "a=" + "rtcp-rsize";
      OneAttr(p, base, y, "a=rtcp-rsize", "rtcp-rsize", "", y.(rsize := true));
    }
  }

  lemma TransportIsTaken(p: Peer, base: seq<Seen>, words: seq<string>, c: Answer)
    requires OneWord(c.candidateIp)
    ensures TakeLines(Last(p, base, Seen(words, Unsaid, None, false, false, [])), TransportLines(c)) ==
      Last(p, base, Seen(words, if c.direction > 0 then SendOnly else if c.direction < 0 then RecvOnly else Unsaid,
        if c.candidateIp != "" then Some(Candidate("udp", c.candidateIp, c.candidatePort, "host")) else None,
        c.mux, c.rsize, []))
  {
    var x0 := Seen(words, Unsaid, None, false, false, []);
    var x1 := x0.(candidate := if c.candidateIp != "" then Some(Candidate("udp", c.candidateIp, c.candidatePort, "host")) else None);
    var x2 := x1.(direction := if c.direction > 0 then SendOnly else if c.direction < 0 then RecvOnly else Unsaid);
    hide TakeLines, TakeLine, Dec, When, Last;
    var a := When(c.candidateIp != "",
      "a=candidate:1 1 udp 2130706431 " + c.candidateIp + " " + Dec(c.candidatePort) + " typ host generation 0");
    var b := When(c.direction != 0, if c.direction > 0 then "a=sendonly" else "a=recvonly");
    var m, r := When(c.mux, "a=rtcp-mux"), When(c.rsize, "a=rtcp-rsize");
    CandidateIsTaken(p, base, x0, c);
    DirectionIsTaken(p, base, x1, c);
    FlagsAreTaken(p, base, x2, c);
    FourTaken(Last(p, base, x0), a, b, m, r);
  }

  lemma FourTaken(p: Peer, a: seq<string>, b: seq<string>, c: seq<string>, d: seq<string>)
    ensures TakeLines(p, a + b + c + d) == TakeLines(TakeLines(TakeLines(TakeLines(p, a), b), c), d)
  {
    hide TakeLines;
    TakenInTwo(p, a + b + c, d);
    TakenInTwo(p, a + b, c);
    TakenInTwo(p, a, b);
  }

  lemma FeedbackIsTaken(p: Peer, base: seq<Seen>, x: Seen, c: Answer, s: Slot)
    requires x.feedback == []
    ensures TakeLines(Last(p, base, x), FeedbackLines(c, s)) == Last(p, base, x.(feedback := InvitedFeedback(c, s)))
  {
    var d := Dec(c.video.pt);
    NumberOfDec(c.video.pt);
    hide TakeLine, TakeLines, Dec, Last;
    Nothing(Last(p, base, x));
    if s.typ == "video" {
      var y := x.(feedback := [[d, "nack", "pli"]]);
      OneFeedback(p, base, x, d, "nack pli", [d, "nack", "pli"], y) by { NackPli(d); }
      if c.direction > 0 {
        OneFeedback(p, base, y, d, "nack", [d, "nack"], y.(feedback := y.feedback + [[d, "nack"]])) by { NackAlone(d); }
        TakenInTwo(Last(p, base, x), ["a=rtcp-fb:" + d + " nack pli"], ["a=rtcp-fb:" + d + " nack"]);
        FeedbackGroups(d);
      } else {
        FeedbackGroups(d);
        assert ["a=rtcp-fb:" + d + " nack pli"] + [] == ["a=rtcp-fb:" + d + " nack pli"];
        assert InvitedFeedback(c, s) == [[d, "nack", "pli"]];
      }
    } else {
      assert FeedbackLines(c, s) == [];
    }
  }

  lemma FeedbackGroups(d: string)
    ensures "a=rtcp-fb:" + d + " nack pli" == "a=rtcp-fb:" + d + " " + "nack pli"
    ensures "a=rtcp-fb:" + d + " nack" == "a=rtcp-fb:" + d + " " + "nack"
  {
    assert " nack pli" == " " + "nack pli" && " nack" == " " + "nack";
  }

  lemma NackPli(d: string)
    requires OneWord(d)
    ensures Words(d + " " + "nack pli") == [d, "nack", "pli"]
  {
    hide Words, Place;
    ThreeWords(d, "nack", "pli");
    assert "nack pli" == "nack" + " " + "pli";
    assert d + " " + "nack" + " " + "pli" == d + " " + ("nack" + " " + "pli");
  }

  lemma NackAlone(d: string)
    requires OneWord(d)
    ensures Words(d + " " + "nack") == [d, "nack"]
  {
    WordsOfBoth(d, "nack");
    OneWordOnly(d);
    OneWordOnly("nack");
  }

  lemma OneFeedback(p: Peer, base: seq<Seen>, x: Seen, d: string, what: string, words: seq<string>, y: Seen)
    requires Words(d + " " + what) == words && y == x.(feedback := x.feedback + [words])
    ensures TakeLines(Last(p, base, x), ["a=rtcp-fb:" + d + " " + what]) == Last(p, base, y)
  {
    hide TakeLine, TakeLines, Words;
    assert "a=rtcp-fb:" == "a=" + "rtcp-fb" + ":";
    InTwo("a=" + "rtcp-fb" + ":", d, " ", what);
    OneAttr(p, base, x, "a=rtcp-fb:" + d + " " + what, "rtcp-fb", d + " " + what, y);
  }

  lemma InTwo(h: string, a: string, b: string, c: string)
    ensures h + a + b + c == h + (a + b + c)
  {
  }

  // ---------------------------------------------------------------- a section

  lemma Unheard(line: string, name: string, value: string)
    requires AttrOf(line, name, value)
    ensures SaysNothing(line)
  {
  }

  lemma MidSaysNothing(mid: string)
    ensures SaysNothing("a=mid:" + mid)
  {
    assert "a=mid:" == "a=" + "mid" + ":";
    Unheard("a=mid:" + mid, "mid", mid);
  }

  lemma ExtmapSaysNothing(p: Plan)
    ensures forall i :: 0 <= i < |ExtmapLines(p)| ==> SaysNothing(ExtmapLines(p)[i])
  {
    var d := Dec(p.ext);
    hide SaysNothing, Dec;
    assert "a=extmap:" == "a=" + "extmap" + ":";
    InTwo("a=" + "extmap" + ":", d, " ", p.uri);
    Unheard("a=extmap:" + d + " " + p.uri, "extmap", d + " " + p.uri);
  }

  lemma RtpmapSaysNothing(c: Answer, s: Slot)
    ensures SaysNothing(RtpmapLine(c, s))
  {
    var d, e, k := Dec(PlanOf(c, s).pt), EncodingOf(s), Dec(PlanOf(c, s).clock);
    var tail := if ChannelsOf(c, s) != 0 then "/" + Dec(ChannelsOf(c, s)) else "";
    hide SaysNothing, Dec, EncodingOf, ChannelsOf, PlanOf;
    assert "a=rtpmap:" == "a=" + "rtpmap" + ":";
    InFive("a=" + "rtpmap" + ":", d, " ", e, "/", k, tail);
    Unheard(RtpmapLine(c, s), "rtpmap", d + " " + e + "/" + k + tail);
  }

  lemma InFive(h: string, a: string, b: string, c: string, d: string, e: string, f: string)
    ensures h + a + b + c + d + e + f == h + (a + b + c + d + e + f)
  {
  }

  lemma FmtpSaysNothing(p: Plan)
    ensures forall i :: 0 <= i < |FmtpLines(p)| ==> SaysNothing(FmtpLines(p)[i])
  {
    var d := Dec(p.pt);
    hide SaysNothing, Dec;
    assert "a=fmtp:" == "a=" + "fmtp" + ":";
    InTwo("a=" + "fmtp" + ":", d, " ", p.fmtp);
    Unheard("a=fmtp:" + d + " " + p.fmtp, "fmtp", d + " " + p.fmtp);
  }

  lemma SsrcSaysNothing(p: Plan)
    ensures SaysNothing(SsrcLine(p))
  {
    var d := Dec(p.ssrc);
    hide SaysNothing, Dec;
    assert "a=ssrc:" == "a=" + "ssrc" + ":";
    InTwo("a=" + "ssrc" + ":", d, " cname:", d);
    Unheard(SsrcLine(p), "ssrc", d + " cname:" + d);
  }

  /** A media line opens a section with its words. */
  lemma MediaIsTaken(p: Peer, line: string, content: string)
    requires line == "m=" + content
    ensures TakeLine(p, line) == Last(p, p.sections, Seen(Words(content), Unsaid, None, false, false, []))
  {
    assert line[2..] == content;
    hide Words;
  }

  lemma CarriedWords(c: Answer, s: Slot)
    requires Carried(s) && OneWord(s.typ) && OneWord(c.proto)
    ensures MediaLine(c, s)[..2] == "m=" && Words(MediaLine(c, s)[2..]) == [s.typ, "9", c.proto, Dec(PlanOf(c, s).pt)]
  {
    var d := Dec(PlanOf(c, s).pt);
    NumberOfDec(PlanOf(c, s).pt);
    hide Words, Dec, PlanOf, Place, Number;
    OneWordOnly(d);
    ThreeWords(s.typ, "9", c.proto);
    WordsOfBoth(s.typ + " " + "9" + " " + c.proto, d);
    MediaGroups(s.typ, " 9 ", "9", c.proto);
    assert MediaLine(c, s) == "m=" + s.typ + " 9 " + c.proto + " " + d;
    InTwo("m=", s.typ, " 9 ", c.proto);
    assert MediaLine(c, s) == "m=" + ((s.typ + " 9 " + c.proto) + " " + d) by {
      InOne("m=", s.typ + " 9 " + c.proto, " ", d);
    }
  }

  lemma InOne(h: string, a: string, b: string, c: string)
    ensures h + a + b + c == h + (a + b + c)
  {
  }

  lemma MediaGroups(typ: string, port: string, digit: string, proto: string)
    requires port == " " + digit + " "
    ensures typ + port + proto == typ + " " + digit + " " + proto
  {
  }

  lemma RejectedWords(c: Answer, s: Slot)
    requires !Carried(s) && OneWord(s.typ) && OneWord(c.proto)
    ensures MediaLine(c, s)[..2] == "m=" && Words(MediaLine(c, s)[2..]) == [s.typ, "0", c.proto]
  {
    hide Words, Place;
    ThreeWords(s.typ, "0", c.proto);
    MediaGroups(s.typ, " 0 ", "0", c.proto);
    assert " 0 " == " " + "0" + " ";
    InTwo("m=", s.typ, " 0 ", c.proto);
  }

  lemma TokenIsWord(s: string)
    requires OneToken(s)
    ensures OneWord(s)
  {
    forall i | 0 <= i < |s| ensures s[i] != ' ' { assert !Stops(AtBlank, s[i]); }
  }

  /** A written section, in its place behind the sections before it, tells what was configured for it. */
  lemma SectionIsTold(p: Peer, c: Answer, s: Slot)
    requires OneToken(s.typ) && OneToken(c.proto) && OneWord(c.candidateIp)
    ensures TakeLines(p, SectionLines(c, s)) == p.(sections := p.sections + [Told(c, s)])
  {
    TokenIsWord(s.typ);
    TokenIsWord(c.proto);
    hide TakeLine, TakeLines, OneToken, Words;
    if Carried(s) {
      CarriedIsTold(p, c, s);
    } else {
      RejectedWords(c, s);
      MediaStarts(MediaLine(c, s));
      MediaIsTaken(p, MediaLine(c, s), MediaLine(c, s)[2..]);
      TakenOne(p, MediaLine(c, s));
    }
  }

  lemma MediaStarts(line: string)
    requires |line| >= 2 && line[..2] == "m="
    ensures line == "m=" + line[2..]
  {
  }

  lemma CarriedIsTold(p: Peer, c: Answer, s: Slot)
    requires Carried(s) && OneWord(s.typ) && OneWord(c.proto) && OneWord(c.candidateIp)
    ensures TakeLines(p, SectionLines(c, s)) == p.(sections := p.sections + [Told(c, s)])
  {
    var words := [s.typ, "9", c.proto, Dec(PlanOf(c, s).pt)];
    var x := Seen(words, Unsaid, None, false, false, []);
    var told := Told(c, s);
    var y := told.(feedback := []);
    CarriedWords(c, s);
    hide TakeLine, TakeLines, Words, Dec, SaysNothing, RtpmapLine, SsrcLine, ExtmapLines, FmtpLines, FeedbackLines, TransportLines,
         MediaLine, InvitedFeedback, Last;
    MediaStarts(MediaLine(c, s));
    MediaIsTaken(p, MediaLine(c, s), MediaLine(c, s)[2..]);
    var p1 := Last(p, p.sections, x);
    ConnectionSaysNothing();
    MidSaysNothing(s.mid);
    OpeningInOrder(p, p1, MediaLine(c, s), "c=IN IP4 0.0.0.0", "a=mid:" + s.mid);
    ExtmapSaysNothing(PlanOf(c, s));
    AllPassedBy(p1, ExtmapLines(PlanOf(c, s)));
    TransportIsTaken(p, p.sections, words, c);
    var p2 := Last(p, p.sections, y);
    RtpmapSaysNothing(c, s);
    PassedBy(p2, RtpmapLine(c, s));
    TakenOne(p2, RtpmapLine(c, s));
    FmtpSaysNothing(PlanOf(c, s));
    AllPassedBy(p2, FmtpLines(PlanOf(c, s)));
    FeedbackIsTaken(p, p.sections, y, c, s);
    var p3 := Last(p, p.sections, told);
    SsrcSaysNothing(PlanOf(c, s));
    PassedBy(p3, SsrcLine(PlanOf(c, s)));
    TakenOne(p3, SsrcLine(PlanOf(c, s)));
    SevenTaken(p, [MediaLine(c, s), "c=IN IP4 0.0.0.0", "a=mid:" + s.mid], ExtmapLines(PlanOf(c, s)), TransportLines(c),
               [RtpmapLine(c, s)], FmtpLines(PlanOf(c, s)), FeedbackLines(c, s), [SsrcLine(PlanOf(c, s))]);
    LastIs(p, told);
  }

  lemma LastIs(p: Peer, x: Seen)
    ensures Last(p, p.sections, x) == p.(sections := p.sections + [x])
  {
  }

  lemma OpeningInOrder(p: Peer, q: Peer, a: string, b: string, c: string)
    requires TakeLine(p, a) == q && SaysNothing(b) && SaysNothing(c)
    ensures TakeLines(p, [a, b, c]) == q
  {
    hide TakeLine, TakeLines, SaysNothing;
    PassedBy(q, b);
    PassedBy(q, c);
    ThreeLines(p, a, b, c);
  }

  lemma ThreeLines(p: Peer, a: string, b: string, c: string)
    ensures TakeLines(p, [a, b, c]) == TakeLine(TakeLine(TakeLine(p, a), b), c)
  {
    hide TakeLine;
    assert [a, b, c][1..] == [b, c] && [b, c][1..] == [c];
    TakenOne(TakeLine(TakeLine(p, a), b), c);
  }

  lemma ConnectionSaysNothing()
    ensures SaysNothing("c=IN IP4 0.0.0.0")
  {
  }

  lemma SevenTaken(p: Peer, a: seq<string>, b: seq<string>, c: seq<string>, d: seq<string>, e: seq<string>, f: seq<string>, g: seq<string>)
    ensures TakeLines(p, a + b + c + d + e + f + g) ==
      TakeLines(TakeLines(TakeLines(TakeLines(TakeLines(TakeLines(TakeLines(p, a), b), c), d), e), f), g)
  {
    hide TakeLines;
    TakenInTwo(p, a + b + c + d + e + f, g);
    TakenInTwo(p, a + b + c + d + e, f);
    TakenInTwo(p, a + b + c + d, e);
    FourTaken(p, a, b, c, d);
  }

  lemma {:induction false} SectionsAreTold(p: Peer, c: Answer, slots: seq<Slot>)
    requires (forall i :: 0 <= i < |slots| ==> OneToken(slots[i].typ)) && OneToken(c.proto) && OneWord(c.candidateIp)
    ensures TakeLines(p, Sections(c, slots)) == p.(sections := p.sections + ToldAll(c, slots))
  {
    hide TakeLines, SectionLines, Told, OneToken;
    if slots == [] {
      Nothing(p);
      assert p.sections + [] == p.sections;
    } else {
      var front, s := slots[..|slots| - 1], slots[|slots| - 1];
      var q := p.(sections := p.sections + ToldAll(c, front));
      SectionsAreTold(p, c, front);
      TakenInTwo(p, Sections(c, front), SectionLines(c, s));
      SectionIsTold(q, c, s);
      assert p.sections + (ToldAll(c, front) + [Told(c, s)]) == (p.sections + ToldAll(c, front)) + [Told(c, s)];
    }
  }

  // ---------------------------------------------------------------- the head

  lemma {:induction false} BundleWords(slots: seq<Slot>)
    requires forall i :: 0 <= i < |slots| && Carried(slots[i]) ==> OneWord(slots[i].mid)
    ensures Words("BUNDLE" + GroupMids(slots)) == ["BUNDLE"] + CarriedMids(slots)
  {
    hide Words, Place;
    if slots == [] {
      assert "BUNDLE" + "" == "BUNDLE";
      OneWordOnly("BUNDLE");
    } else {
      var front, s := slots[..|slots| - 1], slots[|slots| - 1];
      BundleWords(front);
      if Carried(s) {
        OneWordOnly(s.mid);
        WordsOfBoth("BUNDLE" + GroupMids(front), s.mid);
        MidGroups("BUNDLE", GroupMids(front), s.mid);
        assert ["BUNDLE"] + (CarriedMids(front) + [s.mid]) == (["BUNDLE"] + CarriedMids(front)) + [s.mid];
      } else {
        assert GroupMids(front) + "" == GroupMids(front) && CarriedMids(front) + [] == CarriedMids(front);
      }
    }
  }

  lemma MidGroups(h: string, mids: string, mid: string)
    ensures h + (mids + (" " + mid)) == h + mids + " " + mid
  {
  }

  lemma HeadIsTold(c: Answer)
    requires forall i :: 0 <= i < |c.slots| && Carried(c.slots[i]) ==> OneWord(c.slots[i].mid)
    ensures TakeLines(NOTHING, HeadLines(c)) == Peer(CarriedMids(c.slots), true, [])
  {
    var mids := GroupMids(c.slots);
    BundleWords(c.slots);
    PlainHead();
    hide TakeLine, TakeLines, SaysNothing, Words, GroupMids;
    GroupIsTold(mids, CarriedMids(c.slots));
    LiteIsTold(CarriedMids(c.slots));
    HeadInOrder("v=0", "o=ngx-rtc 0 1 IN IP4 0.0.0.0", "s=-", "t=0 0", "a=group:BUNDLE" + mids, "a=msid-semantic: WMS", "a=ice-lite",
                CarriedMids(c.slots));
  }

  lemma LiteIsTold(names: seq<string>)
    ensures TakeLine(Peer(names, false, []), "a=ice-lite") == Peer(names, true, [])
  {
    hide TakeLine;
    assert "a=ice-lite" == "a=" + "ice-lite";
    SessionIsTaken(Peer(names, false, []), "a=ice-lite", "ice-lite", "");
  }

  lemma HeadInOrder(a: string, b: string, c: string, d: string, group: string, sem: string, lite: string, names: seq<string>)
    requires SaysNothing(a) && SaysNothing(b) && SaysNothing(c) && SaysNothing(d) && SaysNothing(sem)
    requires TakeLine(NOTHING, group) == Peer(names, false, [])
    requires TakeLine(Peer(names, false, []), lite) == Peer(names, true, [])
    ensures TakeLines(NOTHING, [a, b, c, d, group, sem, lite]) == Peer(names, true, [])
  {
    hide TakeLine, SaysNothing;
    var plain := [a, b, c, d];
    AllPassedBy(NOTHING, plain);
    PassedBy(Peer(names, false, []), sem);
    hide TakeLines;
    ThreeLines(NOTHING, group, sem, lite);
    TakenInTwo(NOTHING, plain, [group, sem, lite]);
    assert [a, b, c, d, group, sem, lite] == plain + [group, sem, lite];
  }

  lemma PlainHead()
    ensures SaysNothing("v=0") && SaysNothing("o=ngx-rtc 0 1 IN IP4 0.0.0.0") && SaysNothing("s=-") && SaysNothing("t=0 0")
    ensures SaysNothing("a=msid-semantic: WMS")
  {
    assert "a=msid-semantic: WMS" == "a=" + "msid-semantic" + ":" + " WMS";
    Unheard("a=msid-semantic: WMS", "msid-semantic", " WMS");
  }

  lemma GroupIsTold(mids: string, names: seq<string>)
    requires Words("BUNDLE" + mids) == ["BUNDLE"] + names
    ensures TakeLine(NOTHING, "a=group:BUNDLE" + mids) == Peer(names, false, [])
  {
    hide TakeLine, Words;
    assert "a=group:BUNDLE" == "a=" + "group" + ":" + "BUNDLE";
    assert "a=group:BUNDLE" + mids == "a=" + "group" + ":" + ("BUNDLE" + mids);
    SessionIsTaken(NOTHING, "a=group:BUNDLE" + mids, "group", "BUNDLE" + mids);
    assert (["BUNDLE"] + names)[1..] == names;
  }

  lemma CredentialsSayNothing(c: Answer)
    ensures forall i :: 0 <= i < |CredentialLines(c)| ==> SaysNothing(CredentialLines(c)[i])
  {
    assert "a=ice-ufrag:" == "a=" + "ice-ufrag" + ":" && "a=ice-pwd:" == "a=" + "ice-pwd" + ":";
    assert "a=fingerprint:" == "a=" + "fingerprint" + ":" && "a=setup:" == "a=" + "setup" + ":";
    Unheard("a=ice-ufrag:" + c.ufrag, "ice-ufrag", c.ufrag);
    Unheard("a=ice-pwd:" + c.pwd, "ice-pwd", c.pwd);
    InTwo("a=" + "fingerprint" + ":", c.algo, " ", c.fingerprint);
    Unheard("a=fingerprint:" + c.algo + " " + c.fingerprint, "fingerprint", c.algo + " " + c.fingerprint);
    Unheard("a=setup:" + c.setup, "setup", c.setup);
    hide SaysNothing;
  }

  // ---------------------------------------------------------------- the text

  lemma {:induction false} LinesOfWritten(lines: seq<string>)
    requires BreakFree(lines)
    ensures LinesOf(Join(lines)) == lines
    decreases |lines|
  {
    hide Place, LinesOf;
    if lines == [] {
      NoLines();
    } else {
      LinesOfWritten(lines[1..]);
      FirstLine(lines[0], Join(lines[1..]));
      assert lines == [lines[0]] + lines[1..];
    }
  }

  lemma NoLines()
    ensures LinesOf("") == []
  {
  }

  lemma FirstLine(line: string, rest: string)
    requires Free(AtBreak, line)
    ensures LinesOf(line + CRLF + rest) == [line] + LinesOf(rest)
  {
    var text, front := line + CRLF + rest, line + "\r";
    forall i | 0 <= i < |front| ensures front[i] != '\n' { if i < |line| { assert !Stops(AtBreak, line[i]); } }
    FirstCut(line, rest);
    PlaceAt(front, '\n', rest);
    hide Place;
    assert text[..|line|] == line && text[|line|] == '\r' && text[|line| + 2..] == rest;
  }

  lemma FirstCut(line: string, rest: string)
    ensures line + CRLF + rest == (line + "\r") + ['\n'] + rest
  {
  }

  /**
   What a peer reads in the text of an answer: the mids of the carried sections in the bundle, a lite
   agent, and for each section its line and exactly the configured direction, candidate, multiplexing,
   reduced size and feedback.
   */
  lemma PeerReadsAnswer(c: Answer)
    requires Readable(c) && PlainNames(c)
    ensures PeerOf(AnswerText(c)) == Peer(CarriedMids(c.slots), true, ToldAll(c, c.slots))
  {
    SlotsAreTokens(c);
    SessionBreakFree(c);
    SectionsBreakFree(c, c.slots);
    BothBreakFree(HeadLines(c) + CredentialLines(c), Sections(c, c.slots));
    hide Readable, TakeLines, LinesOf, HeadLines, CredentialLines, Sections, Told, BreakFree, OneToken, Join;
    LinesOfWritten(AnswerLines(c));
    var p := Peer(CarriedMids(c.slots), true, []);
    HeadIsTold(c);
    CredentialsSayNothing(c);
    AllPassedBy(p, CredentialLines(c));
    SectionsAreTold(p, c, c.slots);
    TakenInTwo(NOTHING, HeadLines(c) + CredentialLines(c), Sections(c, c.slots));
    TakenInTwo(NOTHING, HeadLines(c), CredentialLines(c));
    assert [] + ToldAll(c, c.slots) == ToldAll(c, c.slots);
  }

  lemma SlotsAreTokens(c: Answer)
    requires Readable(c)
    ensures forall i :: 0 <= i < |c.slots| ==> OneToken(c.slots[i].typ)
    ensures OneToken(c.proto)
  {
    assert forall i :: 0 <= i < |c.slots| ==> SlotOk(c.slots[i]);
    hide OneToken;
  }
}
