/** The decoder's cursor loop, the integrity check, and the response written and patched in place. */
module Stun {
  import opened Options
  import opened Bytes
  import opened CText
  import opened StunSpec
  import opened Wire

  /** Splits a user name as C does: up to the first colon that is not past a NUL. */
  method SplitUsername(value: seq<byte>) returns (r: Option<(seq<byte>, seq<byte>)>)
    ensures r == SplitUser(value)
  {
    var user := First(value, USER_MAX);
    var i: nat := 0;
    while i < |user| && user[i] != COLON && user[i] != NUL
      invariant i <= |user| && forall j :: 0 <= j < i ==> user[j] != COLON && user[j] != NUL
    {
      i := i + 1;
    }
    ghost var text := CStr(user);
    assert i <= |text|;
    if i < |user| && user[i] == COLON {
      assert i < |text|;
      IndexIs(text, COLON, i);
      var remote := First(user[i + 1..], UFRAG_MAX);
      r := Some((First(user[..i], UFRAG_MAX), CStr(remote)));
    } else {
      IndexIs(user, NUL, i);
      IndexIs(text, COLON, |text|);
      r := None;
    }
  }

  method ApplyAttribute(s: Stun, typ: nat, value: seq<byte>, pos: nat) returns (r: Stun)
    ensures r == Apply(s, typ, value, pos)
  {
    r := s;
    if typ == USERNAME {
      var u := SplitUsername(value);
      if u.Some? { r := s.(hasUsername := true, local := u.value.0, remote := u.value.1); }
    } else if typ == USE_CANDIDATE {
      r := s.(useCandidate := true);
    } else if typ == ICE_CONTROLLED {
      r := s.(controlled := true);
    } else if typ == ICE_CONTROLLING {
      r := s.(controlling := true);
    } else if typ == MESSAGE_INTEGRITY {
      r := s.(hasIntegrity := true, integrityOffset := Low16(pos));
    } else if typ == FINGERPRINT {
      r := s.(hasFingerprint := true, fingerprintOffset := Low16(pos));
    }
  }

  method DecodeMessage(data: seq<byte>) returns (r: Option<Stun>)
    ensures r == Decode(data)
  {
    hide Walk, Read16;
    if |data| < HEADER_LEN { return None; }
    if HEADER_LEN + Read16(data, 2) != |data| { return None; }
    r := DecodeAttributes(Blank(Read16(data, 0), data[8..20]), data);
  }

  method DecodeAttributes(start: Stun, data: seq<byte>) returns (r: Option<Stun>)
    ensures r == Walk(start, data, HEADER_LEN)
  {
    var s := start;
    var pos: nat := HEADER_LEN;
    hide Walk;
    while pos + 4 <= |data|
      invariant Walk(s, data, pos) == Walk(start, data, HEADER_LEN)
      decreases |data| - pos
    {
      var next, end := DecodeAttribute(s, data, pos);
      if next.None? { return None; }
      s, pos := next.value, end;
    }
    WalkEnd(s, data, pos);
    r := Some(s);
  }

  /** One attribute: its header, its value if all of it is there, and the padding after it. */
  method DecodeAttribute(s: Stun, data: seq<byte>, pos: nat) returns (r: Option<Stun>, end: nat)
    requires pos + 4 <= |data|
    ensures end > pos
    ensures Walk(s, data, pos) == match r case None => None case Some(n) => Walk(n, data, end)
  {
    hide Apply, Read16, Walk;
    WalkStep(s, data, pos);
    var typ, n := Read16(data, pos), Read16(data, pos + 2);
    end := pos + 4 + n;
    if end > |data| { return None, end; }
    var next := ApplyAttribute(s, typ, data[pos + 4..end], pos + 4);
    if n % 4 != 0 { end := end + (4 - n % 4); }
    r := Some(next);
  }

  lemma WalkEnd(s: Stun, data: seq<byte>, pos: nat)
    requires pos + 4 > |data|
    ensures Walk(s, data, pos) == Some(s)
  {
  }

  lemma WalkStep(s: Stun, data: seq<byte>, pos: nat)
    ensures Walk(s, data, pos) ==
      if pos + 4 > |data| then Some(s)
      else
        var typ, n := Read16(data, pos), Read16(data, pos + 2);
        if pos + 4 + n > |data| then None
        else Walk(Apply(s, typ, data[pos + 4..pos + 4 + n], pos + 4), data, pos + 4 + n + Padding(n))
  {
    hide Apply, Read16;
  }

  /** Hashes a copy of the message whose length field was moved to the end of the integrity. */
  method VerifyMessage(s: Stun, data: seq<byte>, hmac: Hmac, pwd: seq<byte>) returns (ok: bool)
    requires s.integrityOffset < 0x1_0000
    ensures ok == Verifies(s, data, hmac, pwd)
  {
    if !s.hasIntegrity { return false; }
    if |data| > MAX_VERIFIED || s.integrityOffset + 20 > |data| || s.integrityOffset < 4 { return false; }
    var tmp := new byte[|data|](i requires 0 <= i < |data| => data[i]);
    assert tmp[..] == data;
    Write16(tmp, 2, s.integrityOffset);
    assert tmp[..] == WithLength(data, s.integrityOffset);
    var at := s.integrityOffset;
    assert tmp[..at - 4] == tmp[..][..at - 4];
    ok := data[at..at + 20] == hmac(pwd, tmp[..at - 4]);
  }

  // ---------------------------------------------------------------- writing

  /** Writes an attribute after what is there, padded to four octets. */
  method WriteAttr(out: array<byte>, pos: nat, a: Attr) returns (end: nat)
    requires AttrOk(a) && pos + |Tlv(a)| <= out.Length
    modifies out
    ensures end == pos + |Tlv(a)| && out[..end] == old(out[..pos]) + Tlv(a)
  {
    ghost var before := out[..pos];
    Write16(out, pos, a.typ);
    assert out[..pos + 2] == before + Be16(a.typ);
    Write16(out, pos + 2, |a.value|);
    assert out[..pos + 4] == before + Be16(a.typ) + Be16(|a.value|);
    WriteBytes(out, pos + 4, a.value);
    var pad := Padding(|a.value|);
    assert out[..pos + 4 + |a.value|] == before + Be16(a.typ) + Be16(|a.value|) + a.value;
    WriteBytes(out, pos + 4 + |a.value|, Nulls(pad));
    end := pos + 4 + |a.value| + pad;
    assert out[..end] == before + Be16(a.typ) + Be16(|a.value|) + a.value + Nulls(pad);
    Regroup4(before, Be16(a.typ), Be16(|a.value|), a.value, Nulls(pad));
  }

  lemma Regroup4(p: seq<byte>, a: seq<byte>, b: seq<byte>, c: seq<byte>, d: seq<byte>)
    ensures p + a + b + c + d == p + (a + b + c + d)
  {
  }

  /** Rewrites the length field of what has been written so far. */
  method PatchLength(out: array<byte>, pos: nat, n: nat, ghost m: nat, ghost tid: seq<byte>, ghost rest: seq<byte>)
    requires 20 <= pos <= out.Length && n < 0x1_0000 && m < 0x1_0000 && |tid| == 12
    requires out[..pos] == Header(m, tid) + rest
    modifies out
    ensures out[..pos] == Header(n, tid) + rest
  {
    ghost var before := out[..pos];
    Write16(out, 2, n);
    assert out[..pos] == WithLength(before, n);
    HeaderReads(m, tid, rest);
  }

  method WriteHeader(out: array<byte>, tid: seq<byte>)
    requires out.Length >= 20 && |tid| == 12
    modifies out
    ensures out[..20] == Header(0, tid)
  {
    Write16(out, 0, BINDING_RESPONSE);
    assert out[..2] == Be16(BINDING_RESPONSE);
    Write16(out, 2, 0);
    assert out[..4] == Be16(BINDING_RESPONSE) + Be16(0);
    Write32(out, 4, MAGIC_COOKIE);
    assert out[..8] == Be16(BINDING_RESPONSE) + Be16(0) + Be32(MAGIC_COOKIE);
    WriteBytes(out, 8, tid);
    assert out[..20] == Be16(BINDING_RESPONSE) + Be16(0) + Be32(MAGIC_COOKIE) + tid;
  }

  /**
   Writes the response to a request that named its user. The length field is patched three times:
   before the hash, before the checksum, and at the end.
   */
  method EncodeBindingResponse(req: Stun, addr: bv32, port: bv16, hmac: Hmac, crc: Crc, pwd: seq<byte>, out: array<byte>)
    returns (r: Option<nat>)
    requires RequestOk(req)
    modifies out
    ensures r.Some? <==> out.Length >= MIN_RESPONSE_BUFFER && req.hasUsername
    ensures r.Some? ==> r.value <= out.Length && out[..r.value] == Response(req, addr, port, hmac, crc, pwd)
  {
    if out.Length < MIN_RESPONSE_BUFFER { return None; }
    if !req.hasUsername { return None; }
    var pos := WriteIdentity(req, addr, port, out);
    ghost var body := Body(req, addr, port);
    hide Body, Header, Tlv, Response, Fingerprinted, Check, Signed;
    pos := WriteIntegrity(req, addr, port, hmac, pwd, out, pos);
    pos := WriteCheck(req, addr, port, hmac, crc, pwd, out, pos);
    r := Some(pos);
  }

  method WriteIdentity(req: Stun, addr: bv32, port: bv16, out: array<byte>) returns (pos: nat)
    requires RequestOk(req) && out.Length >= MIN_RESPONSE_BUFFER
    modifies out
    ensures pos == 20 + |Body(req, addr, port)| <= out.Length && out[..pos] == Header(0, req.tid) + Body(req, addr, port)
  {
    WriteHeader(out, req.tid);
    var user, mapped := Attr(USERNAME, User(req)), Attr(XOR_MAPPED_ADDR, Mapped(addr, port));
    BodyIs(req, addr, port);
    hide Header, Mapped;
    pos := WriteAttr(out, 20, user);
    pos := WriteAttr(out, pos, mapped);
    hide Tlv;
    Regroup2(Header(0, req.tid), Tlv(user), Tlv(mapped));
  }

  lemma Regroup2(a: seq<byte>, b: seq<byte>, c: seq<byte>)
    ensures a + b + c == a + (b + c)
  {
  }

  method WriteIntegrity(req: Stun, addr: bv32, port: bv16, hmac: Hmac, pwd: seq<byte>, out: array<byte>, at: nat)
    returns (pos: nat)
    requires RequestOk(req) && out.Length >= MIN_RESPONSE_BUFFER && at == 20 + |Body(req, addr, port)|
    requires out[..at] == Header(0, req.tid) + Body(req, addr, port)
    modifies out
    ensures pos == at + 24 <= out.Length && out[..pos] == Fingerprinted(req, addr, port, hmac, pwd)
  {
    ghost var body := Body(req, addr, port);
    hide Body, Header, Tlv;
    PatchLength(out, at, at - 20 + 24, 0, req.tid, body);
    var mac := hmac(pwd, out[..at]);
    assert mac == Integrity(req, addr, port, hmac, pwd).value;
    pos := WriteAttr(out, at, Attr(MESSAGE_INTEGRITY, mac));
    ghost var tlv := Tlv(Attr(MESSAGE_INTEGRITY, mac));
    Regroup2(Header(at + 4, req.tid), body, tlv);
    PatchLength(out, pos, pos - 20 + 8, at + 4, req.tid, body + tlv);
    Regroup2(Header(pos - 12, req.tid), body, tlv);
  }

  method WriteCheck(req: Stun, addr: bv32, port: bv16, hmac: Hmac, crc: Crc, pwd: seq<byte>, out: array<byte>, at: nat)
    returns (pos: nat)
    requires RequestOk(req) && out.Length >= MIN_RESPONSE_BUFFER && at == 44 + |Body(req, addr, port)|
    requires at <= out.Length && out[..at] == Fingerprinted(req, addr, port, hmac, pwd)
    modifies out
    ensures pos == at + 8 <= out.Length && out[..pos] == Response(req, addr, port, hmac, crc, pwd)
  {
    ghost var fp := Fingerprinted(req, addr, port, hmac, pwd);
    ghost var body := Body(req, addr, port);
    assert Check(req, addr, port, hmac, crc, pwd) == Checksum(fp, crc);
    ResponseParts(req, addr, port, hmac, crc, pwd);
    hide Body, Header, Tlv, Check, Fingerprinted, Response, Integrity;
    var check := Checksum(out[..at], crc);
    pos := WriteAttr(out, at, check);
    PatchLength(out, pos, pos - 20, |body| + 32, req.tid, body + Tlv(Integrity(req, addr, port, hmac, pwd)) + Tlv(check));
  }

  lemma ResponseParts(req: Stun, addr: bv32, port: bv16, hmac: Hmac, crc: Crc, pwd: seq<byte>)
    requires RequestOk(req)
    ensures var (i, c) := (Integrity(req, addr, port, hmac, pwd), Check(req, addr, port, hmac, crc, pwd));
      && Response(req, addr, port, hmac, crc, pwd) == Fingerprinted(req, addr, port, hmac, pwd) + Tlv(c)
      && Response(req, addr, port, hmac, crc, pwd)
           == Header(|Body(req, addr, port)| + 32, req.tid) + (Body(req, addr, port) + Tlv(i) + Tlv(c))
  {
    hide Check, Integrity, Header, Body, Tlv;
  }
}
