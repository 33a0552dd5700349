/** What holds of every text the description parser reads, and of media lines with many payload types. */
module SdpLaws {
  import opened Results
  import opened SdpText
  import opened SdpSpec
  import opened SdpAnswer
  import opened SdpRoundTrip

  // ---------------------------------------------------------------- what is read stays

  /** A credential once read is not read again. */
  predicate Keeps(s: Session, t: Session) {
    && (s.ufrag != "" ==> t.ufrag == s.ufrag)
    && (s.pwd != "" ==> t.pwd == s.pwd)
    && (s.setup != "" ==> t.setup == s.setup)
    && (s.algo != "" ==> t.algo == s.algo && t.fingerprint == s.fingerprint)
  }

  /** Sections are only added behind, and only the last one is still written to. */
  predicate Grows(a: seq<Media>, b: seq<Media>) {
    && |a| <= |b|
    && (forall i :: 0 <= i < |a| - 1 ==> b[i] == a[i])
    && (forall i :: 0 <= i < |a| ==> b[i].typ == a[i].typ)
  }

  lemma ApplyGoesOn(p: Parser, k: Key, v: string)
    requires ApplyAttr(p, k, v).Ok?
    ensures var q := ApplyAttr(p, k, v).value; Keeps(p.session, q.session) && Grows(p.media, q.media)
  {
    hide Scan, ParseExtmap, NextToken, PtOf, ParseU32, CStr;
    if SessionKey(k) {
      SessionKeeps(p.session, k, v);
    } else if p.media != [] {
      TypeStays(p.media[|p.media| - 1], k, v);
    }
    hide ApplySession, ApplyMedia;
  }

  lemma SessionKeeps(s: Session, k: Key, v: string)
    requires SessionKey(k) && ApplySession(s, k, v).Ok?
    ensures Keeps(s, ApplySession(s, k, v).value)
  {
    hide Scan, NextToken, CStr;
  }

  lemma TypeStays(m: Media, k: Key, v: string)
    requires ApplyMedia(m, k, v).Ok?
    ensures ApplyMedia(m, k, v).value.typ == m.typ
  {
    hide Scan, NextToken, CStr, PtOf, ParseU32, Value;
  }

  lemma MediaGoesOn(p: Parser, content: string)
    requires ParseMedia(p, content).Ok?
    ensures var q := ParseMedia(p, content).value; q.session == p.session && Grows(p.media, q.media)
  {
    hide NextToken, ParsePts, Copy;
  }

  lemma LineGoesOn(p: Parser, line: string)
    requires ParseLine(p, line).Ok?
    ensures var q := ParseLine(p, line).value; Keeps(p.session, q.session) && Grows(p.media, q.media)
  {
    hide ApplyAttr, ParseMedia, KeyOf, Scan;
    if |line| >= 2 && line[1] == '=' {
      var content := line[2..];
      if line[0] == 'm' {
        MediaGoesOn(p, content);
      } else if line[0] == 'a' {
        var colon := Scan(AtColon, content, 0);
        ApplyGoesOn(p, KeyOf(content[..colon]), content[Past(content, colon)..]);
      }
    }
  }

  /** From any point of a text on: what is known of the session stays, and so do the sections behind which another one began. */
  lemma {:induction false} ReadingGoesOn(p: Parser, text: string, pos: nat)
    requires pos <= |text| && ParseText(p, text, pos).Ok?
    ensures var q := ParseText(p, text, pos).value; Keeps(p.session, q.session) && Grows(p.media, q.media)
    decreases |text| - pos
  {
    hide ParseLine, Scan, NextLine, Keeps, Grows;
    if pos == |text| {
      NothingRead(p);
    } else {
      var end := Scan(AtBreak, text, pos);
      LineGoesOn(p, text[pos..end]);
      var q := ParseLine(p, text[pos..end]).value;
      ReadingGoesOn(q, text, NextLine(text, end));
      GoesOnAndOn(p, q, ParseText(p, text, pos).value);
    }
  }

  lemma NothingRead(p: Parser)
    ensures Keeps(p.session, p.session) && Grows(p.media, p.media)
  {
  }

  lemma GoesOnAndOn(p: Parser, q: Parser, r: Parser)
    requires Keeps(p.session, q.session) && Grows(p.media, q.media) && Keeps(q.session, r.session) && Grows(q.media, r.media)
    ensures Keeps(p.session, r.session) && Grows(p.media, r.media)
  {
  }

  // ---------------------------------------------------------------- many payload types

  function Numerals(pts: seq<nat>): string { if pts == [] then "" else " " + Dec(pts[0]) + Numerals(pts[1..]) }

  function Listed(pts: seq<nat>): seq<Pt> { seq(|pts|, i requires 0 <= i < |pts| => Pt(pts[i], "", 0, 0, "")) }

  predicate SmallTypes(pts: seq<nat>) { forall i :: 0 <= i < |pts| ==> pts[i] <= 127 }

  lemma {:induction false} NumeralsRead(c: string, before: string, pts: seq<nat>, got: seq<Pt>)
    requires c == before + Numerals(pts) && SmallTypes(pts) && |got| <= MAX_PT
    ensures ParsePts(c, |before|, got) == if |got| + |pts| <= MAX_PT then Ok(got + Listed(pts)) else Err(TooLarge)
    decreases |pts|
  {
    hide Dec, NextToken, ParseU32;
    if pts == [] {
      NothingNext(c);
      assert got + Listed(pts) == got;
    } else {
      var d, rest := Dec(pts[0]), Numerals(pts[1..]);
      OneNumeral(c, before, pts[0], rest);
      if |got| < MAX_PT {
        var now := got + [Pt(pts[0], "", 0, 0, "")];
        assert before + " " + d + rest == before + (" " + d + rest);
        NumeralsRead(c, before + " " + d, pts[1..], now);
        assert now + Listed(pts[1..]) == got + Listed(pts);
      }
    }
  }

  lemma NothingNext(c: string)
    ensures NextToken(c, |c|).Err?
  {
  }

  lemma BlankFirst(pts: seq<nat>)
    ensures Numerals(pts) == "" || IsBlank(Numerals(pts)[0])
  {
  }

  lemma OneNumeral(c: string, before: string, n: nat, rest: string)
    requires n <= 127 && c == before + (" " + Dec(n) + rest) && (rest == "" || IsBlank(rest[0]))
    ensures NextToken(c, |before|) == Ok((Dec(n), |before| + 1 + |Dec(n)|)) && ParseU32(Dec(n)) == Ok(n)
  {
    DecIsPlain(n);
    ParseOfDec(n, "");
    assert Dec(n) + "" == Dec(n);
    assert c == before + " " + Dec(n) + rest;
    TokenAt(c, before, " ", Dec(n), rest);
    hide Dec, NextToken, ParseU32;
  }

  /** A media line lists its payload types in order, up to 32 of them; with more the description is refused. */
  lemma TypesRead(p: Parser, c: string, typ: string, port: string, proto: string, pts: seq<nat>)
    requires |p.media| < MAX_MEDIA && OneToken(typ) && |typ| < STR_LEN && OneToken(port) && OneToken(proto) && SmallTypes(pts)
    requires c == typ + " " + port + " " + proto + Numerals(pts)
    ensures ParseMedia(p, c) ==
      if |pts| <= 32 then Ok(p.(media := p.media + [Media(typ, "", 0, Listed(pts), 0, "")])) else Err(TooLarge)
  {
    hide NextToken, Free, Numerals, OneToken, Listed, Copy, ParseMedia, SmallTypes;
    BlankFirst(pts);
    ThreeTokens(c, typ, port, proto, Numerals(pts));
    CopyOfToken(typ);
    TypesFollow(p, c, typ, |typ|, port, |typ| + 1 + |port|, proto, typ + " " + port + " " + proto, pts);
  }

  lemma TypesFollow(p: Parser, c: string, typ: string, e1: nat, port: string, e2: nat, proto: string, before: string, pts: seq<nat>)
    requires |p.media| < MAX_MEDIA && c == before + Numerals(pts) && SmallTypes(pts) && e1 <= |c| && e2 <= |c|
    requires NextToken(c, 0) == Ok((typ, e1)) && NextToken(c, e1) == Ok((port, e2)) && NextToken(c, e2) == Ok((proto, |before|))
    requires Copy(STR_LEN, typ) == Ok(typ)
    ensures ParseMedia(p, c) ==
      if |pts| <= 32 then Ok(p.(media := p.media + [Media(typ, "", 0, Listed(pts), 0, "")])) else Err(TooLarge)
  {
    hide NextToken, ParsePts, Numerals, Listed, Copy, ParseMedia, SmallTypes;
    NumeralsRead(c, before, pts, []);
    NothingBefore(Listed(pts));
    MediaOf(p, c, typ, e1, port, e2, proto, |before|);
  }

  lemma NothingBefore(pts: seq<Pt>)
    ensures [] + pts == pts
  {
  }

  lemma CopyOfToken(typ: string)
    requires OneToken(typ) && |typ| < STR_LEN
    ensures Copy(STR_LEN, typ) == Ok(typ)
  {
    CStrOfText(typ);
    hide CStr;
  }

  /** A media line whose three tokens are known: what remains is the list of payload types. */
  lemma MediaOf(p: Parser, c: string, typ: string, e1: nat, port: string, e2: nat, proto: string, e3: nat)
    requires |p.media| < MAX_MEDIA && e1 <= |c| && e2 <= |c| && e3 <= |c|
    requires NextToken(c, 0) == Ok((typ, e1)) && NextToken(c, e1) == Ok((port, e2)) && NextToken(c, e2) == Ok((proto, e3))
    requires Copy(STR_LEN, typ) == Ok(typ)
    ensures ParseMedia(p, c) ==
      match ParsePts(c, e3, [])
      case Err(e) => Err(e)
      case Ok(pts) => Ok(p.(media := p.media + [Media(typ, "", 0, pts, 0, "")]))
  {
    hide NextToken, ParsePts, Copy;
  }
}
