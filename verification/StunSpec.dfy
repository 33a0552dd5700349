/**
 Connectivity checks (RFC 5389): decoding a message, verifying its integrity, and the binding
 response. The keyed hash is any function of key and text with 20-octet results.
 */
module StunSpec {
  import opened Options
  import opened Bytes
  import opened CText

  const HEADER_LEN := 20
  const UFRAG_MAX := 16
  const USER_MAX := 33
  const MAX_VERIFIED := 2048
  const MIN_RESPONSE_BUFFER := 128
  const MAGIC_COOKIE := 0x2112A442
  const BINDING_RESPONSE := 0x0101

  const USERNAME := 0x0006
  const MESSAGE_INTEGRITY := 0x0008
  const XOR_MAPPED_ADDR := 0x0020
  const USE_CANDIDATE := 0x0025
  const FINGERPRINT := 0x8028
  const ICE_CONTROLLED := 0x8029
  const ICE_CONTROLLING := 0x802A

  const COLON: byte := 58

  type Digest = s: seq<byte> | |s| == 20 witness [0, 0, 0, 0, 0, 0, 0, 0, 0, 0, 0, 0, 0, 0, 0, 0, 0, 0, 0, 0]

  /** HMAC-SHA1 as far as this unit knows it. */
  type Hmac = (seq<byte>, seq<byte>) -> Digest

  type Crc = seq<byte> -> bv32

  datatype Stun = Stun(typ: nat, tid: seq<byte>, hasUsername: bool, local: seq<byte>, remote: seq<byte>,
                       useCandidate: bool, controlled: bool, controlling: bool,
                       hasIntegrity: bool, integrityOffset: nat, hasFingerprint: bool, fingerprintOffset: nat)

  // ---------------------------------------------------------------- user names

  function First(s: seq<byte>, n: nat): seq<byte> { if |s| <= n then s else s[..n] }

  /** The two ufrags of a user name, split at the first colon of its text; none without a colon. */
  function SplitUser(value: seq<byte>): Option<(seq<byte>, seq<byte>)> {
    var user := First(value, USER_MAX);
    var colon := IndexOf(CStr(user), COLON);
    if colon == |CStr(user)| then None
    else Some((First(user[..colon], UFRAG_MAX), CStr(First(user[colon + 1..], UFRAG_MAX))))
  }

  // ---------------------------------------------------------------- decoding

  /** Records one attribute whose value starts at `pos`. */
  function Apply(s: Stun, typ: nat, value: seq<byte>, pos: nat): Stun {
    if typ == USERNAME then
      match SplitUser(value)
      case None => s
      case Some(u) => s.(hasUsername := true, local := u.0, remote := u.1)
    else if typ == USE_CANDIDATE then s.(useCandidate := true)
    else if typ == ICE_CONTROLLED then s.(controlled := true)
    else if typ == ICE_CONTROLLING then s.(controlling := true)
    else if typ == MESSAGE_INTEGRITY then s.(hasIntegrity := true, integrityOffset := Low16(pos))
    else if typ == FINGERPRINT then s.(hasFingerprint := true, fingerprintOffset := Low16(pos))
    else s
  }

  function Padding(n: nat): (r: nat)
    ensures r < 4 && (n + r) % 4 == 0
  {
    if n % 4 == 0 then 0 else 4 - n % 4
  }

  /** Walks the attributes from `pos`; a value that runs past the end refuses the message. */
  function Walk(s: Stun, data: seq<byte>, pos: nat): Option<Stun>
    decreases if pos <= |data| then |data| - pos else 0
  {
    if pos + 4 > |data| then Some(s)
    else
      var typ, n := Read16(data, pos), Read16(data, pos + 2);
      if pos + 4 + n > |data| then None
      else Walk(Apply(s, typ, data[pos + 4..pos + 4 + n], pos + 4), data, pos + 4 + n + Padding(n))
  }

  function Blank(typ: nat, tid: seq<byte>): Stun { Stun(typ, tid, false, [], [], false, false, false, false, 0, false, 0) }

  function Decode(data: seq<byte>): Option<Stun> {
    if |data| < HEADER_LEN || HEADER_LEN + Read16(data, 2) != |data| then None
    else Walk(Blank(Read16(data, 0), data[8..20]), data, HEADER_LEN)
  }

  // ---------------------------------------------------------------- verification

  function WithLength(data: seq<byte>, n: nat): (r: seq<byte>)
    requires |data| >= 4 && n < 0x1_0000
    ensures |r| == |data|
  {
    data[..2] + Be16(n) + data[4..]
  }

  /** The integrity covers everything before its attribute, under a length that ends after it. */
  predicate Verifies(s: Stun, data: seq<byte>, hmac: Hmac, pwd: seq<byte>) {
    && s.hasIntegrity
    && |data| <= MAX_VERIFIED && s.integrityOffset + 20 <= |data| && s.integrityOffset >= 4
    && data[s.integrityOffset..s.integrityOffset + 20]
         == hmac(pwd, WithLength(data, s.integrityOffset)[..s.integrityOffset - 4])
  }

  // ---------------------------------------------------------------- messages as lists of attributes

  datatype Attr = Attr(typ: nat, value: seq<byte>)

  predicate AttrOk(a: Attr) { a.typ < 0x1_0000 && |a.value| < 0x1_0000 }

  function Tlv(a: Attr): (r: seq<byte>)
    requires AttrOk(a)
    ensures |r| == 4 + |a.value| + Padding(|a.value|)
  {
    Be16(a.typ) + Be16(|a.value|) + a.value + Nulls(Padding(|a.value|))
  }

  predicate AttrsOk(attrs: seq<Attr>) { forall i :: 0 <= i < |attrs| ==> AttrOk(attrs[i]) }

  function Tlvs(attrs: seq<Attr>): seq<byte>
    requires AttrsOk(attrs)
  {
    if attrs == [] then [] else Tlv(attrs[0]) + Tlvs(attrs[1..])
  }

  /** What a message with these attributes means, its first attribute at `pos`. */
  function Meaning(s: Stun, attrs: seq<Attr>, pos: nat): Stun
    decreases |attrs|
  {
    if attrs == [] then s
    else
      var a := attrs[0];
      Meaning(Apply(s, a.typ, a.value, pos + 4), attrs[1..], pos + 4 + |a.value| + Padding(|a.value|))
  }

  lemma TlvReads(data: seq<byte>, pre: seq<byte>, a: Attr, rest: seq<byte>)
    requires AttrOk(a) && data == pre + (Tlv(a) + rest)
    ensures |pre| + 4 + |a.value| <= |data|
    ensures Read16(data, |pre|) == a.typ && Read16(data, |pre| + 2) == |a.value|
    ensures data[|pre| + 4..|pre| + 4 + |a.value|] == a.value
  {
    var n := |pre|;
    var tail := Nulls(Padding(|a.value|)) + rest;
    assert data == pre + Be16(a.typ) + (Be16(|a.value|) + (a.value + tail));
    assert data[n..n + 2] == Be16(a.typ);
    assert data == (pre + Be16(a.typ)) + Be16(|a.value|) + (a.value + tail);
    assert data[n + 2..n + 4] == Be16(|a.value|);
    assert data == (pre + Be16(a.typ) + Be16(|a.value|)) + a.value + tail;
    Read16Of(data, n, a.typ);
    Read16Of(data, n + 2, |a.value|);
  }

  /** Decoding walks exactly the attributes that were written, whatever they are. */
  lemma {:induction false} WalkReadsAttributes(s: Stun, data: seq<byte>, pre: seq<byte>, attrs: seq<Attr>)
    requires AttrsOk(attrs) && data == pre + Tlvs(attrs)
    ensures Walk(s, data, |pre|) == Some(Meaning(s, attrs, |pre|))
    decreases |attrs|
  {
    hide Apply, Tlv, Read16;
    if attrs == [] {
      assert data == pre;
    } else {
      var a, rest := attrs[0], Tlvs(attrs[1..]);
      TlvReads(data, pre, a, rest);
      assert data == (pre + Tlv(a)) + rest;
      WalkReadsAttributes(Apply(s, a.typ, a.value, |pre| + 4), data, pre + Tlv(a), attrs[1..]);
    }
  }

  // ---------------------------------------------------------------- the binding response

  function Header(length: nat, tid: seq<byte>): (r: seq<byte>)
    requires length < 0x1_0000
    ensures |r| == 8 + |tid|
  {
    Be16(BINDING_RESPONSE) + Be16(length) + Be32(MAGIC_COOKIE) + tid
  }

  function User(req: Stun): seq<byte> { req.local + [COLON] + req.remote }

  function Masked16(port: bv16): bv16 { port ^ 0x2112 }

  function Masked32(addr: bv32): bv32 { addr ^ 0x2112A442 }

  function Mapped(addr: bv32, port: bv16): (r: seq<byte>)
    ensures |r| == 8
  {
    [0, 1] + Be16(Masked16(port) as nat) + Be32(Masked32(addr) as nat)
  }

  /** A ufrag as the decoded request holds it. */
  predicate UfragOk(u: seq<byte>) { |u| <= UFRAG_MAX && NUL !in u }

  predicate RequestOk(req: Stun) { |req.tid| == 12 && UfragOk(req.local) && UfragOk(req.remote) }

  function Identity(req: Stun, addr: bv32, port: bv16): (r: seq<Attr>)
    requires RequestOk(req)
    ensures AttrsOk(r)
  {
    [Attr(USERNAME, User(req)), Attr(XOR_MAPPED_ADDR, Mapped(addr, port))]
  }

  /** The attributes before the integrity, as octets. */
  function Body(req: Stun, addr: bv32, port: bv16): (r: seq<byte>)
    requires RequestOk(req)
    ensures |r| == 16 + |User(req)| + Padding(|User(req)|) <= 52
  {
    Tlv(Attr(USERNAME, User(req))) + Tlv(Attr(XOR_MAPPED_ADDR, Mapped(addr, port)))
  }

  /** What the integrity is computed over: the length field already counts its attribute. */
  function Signed(req: Stun, addr: bv32, port: bv16): (r: seq<byte>)
    requires RequestOk(req)
    ensures |r| == 20 + |Body(req, addr, port)|
  {
    Header(|Body(req, addr, port)| + 24, req.tid) + Body(req, addr, port)
  }

  function Integrity(req: Stun, addr: bv32, port: bv16, hmac: Hmac, pwd: seq<byte>): Attr
    requires RequestOk(req)
  {
    Attr(MESSAGE_INTEGRITY, hmac(pwd, Signed(req, addr, port)))
  }

  function Fingerprinted(req: Stun, addr: bv32, port: bv16, hmac: Hmac, pwd: seq<byte>): seq<byte>
    requires RequestOk(req)
  {
    Header(|Body(req, addr, port)| + 32, req.tid) + Body(req, addr, port) + Tlv(Integrity(req, addr, port, hmac, pwd))
  }

  /** The fingerprint attribute of a message so far. */
  function Checksum(text: seq<byte>, crc: Crc): (a: Attr)
    ensures AttrOk(a) && |a.value| == 4
  {
    Attr(FINGERPRINT, Be32((crc(text) ^ 0x5354554E) as nat))
  }

  function Check(req: Stun, addr: bv32, port: bv16, hmac: Hmac, crc: Crc, pwd: seq<byte>): (a: Attr)
    requires RequestOk(req)
    ensures AttrOk(a) && |a.value| == 4
  {
    Checksum(Fingerprinted(req, addr, port, hmac, pwd), crc)
  }

  function Response(req: Stun, addr: bv32, port: bv16, hmac: Hmac, crc: Crc, pwd: seq<byte>): (r: seq<byte>)
    requires RequestOk(req)
    ensures |r| == 52 + |Body(req, addr, port)|
  {
    Fingerprinted(req, addr, port, hmac, pwd) + Tlv(Check(req, addr, port, hmac, crc, pwd))
  }

  lemma ResponseIsAttributes(req: Stun, addr: bv32, port: bv16, hmac: Hmac, crc: Crc, pwd: seq<byte>)
    requires RequestOk(req)
    ensures var attrs := Identity(req, addr, port) + [Integrity(req, addr, port, hmac, pwd), Check(req, addr, port, hmac, crc, pwd)];
      && AttrsOk(attrs)
      && Response(req, addr, port, hmac, crc, pwd) == Header(|Body(req, addr, port)| + 32, req.tid) + Tlvs(attrs)
  {
    var a, b := Attr(USERNAME, User(req)), Attr(XOR_MAPPED_ADDR, Mapped(addr, port));
    var c, d := Integrity(req, addr, port, hmac, pwd), Check(req, addr, port, hmac, crc, pwd);
    var attrs := Identity(req, addr, port) + [c, d];
    assert attrs == [a, b, c, d];
    hide Tlv, Header, Check, Integrity, Body;
    assert attrs[1..] == [b, c, d] && [b, c, d][1..] == [c, d] && [c, d][1..] == [d] && [d][1..] == [];
    assert Tlvs([d]) == Tlv(d) + [] == Tlv(d);
    assert Tlvs([c, d]) == Tlv(c) + Tlv(d);
    assert Tlvs([b, c, d]) == Tlv(b) + (Tlv(c) + Tlv(d));
    assert Tlvs(attrs) == Tlv(a) + (Tlv(b) + (Tlv(c) + Tlv(d)));
    Regroup(Header(|Body(req, addr, port)| + 32, req.tid), Tlv(a), Tlv(b), Tlv(c), Tlv(d));
    BodyIs(req, addr, port);
  }

  lemma BodyIs(req: Stun, addr: bv32, port: bv16)
    requires RequestOk(req)
    ensures Body(req, addr, port) == Tlv(Attr(USERNAME, User(req))) + Tlv(Attr(XOR_MAPPED_ADDR, Mapped(addr, port)))
  {
  }

  lemma Regroup(h: seq<byte>, a: seq<byte>, b: seq<byte>, c: seq<byte>, d: seq<byte>)
    ensures h + (a + b) + c + d == h + (a + (b + (c + d)))
  {
  }

  // ---------------------------------------------------------------- reading a response back

  /** The user name splits back into the ufrags it was made of exactly when the local one has no colon. */
  lemma UserSplitsBack(local: seq<byte>, remote: seq<byte>)
    requires UfragOk(local) && UfragOk(remote)
    ensures SplitUser(local + [COLON] + remote) == Some((local, remote)) <==> COLON !in local
  {
    var user := local + [COLON] + remote;
    assert forall i :: 0 <= i < |local| ==> user[i] == local[i];
    assert forall i :: |local| < i < |user| ==> user[i] == remote[i - |local| - 1];
    assert First(user, USER_MAX) == user;
    PlainText(user);
    var colon := IndexOf(user, COLON);
    assert user[|local|] == COLON;
    if COLON !in local {
      IndexIs(user, COLON, |local|);
      assert user[..colon] == local && user[colon + 1..] == remote;
      PlainText(remote);
    } else {
      var k :| 0 <= k < |local| && local[k] == COLON;
      assert colon <= k;
    }
  }

  /** Whatever its octets, a user name splits into texts that a request can hold, the local one without a colon. */
  lemma SplitIsOk(value: seq<byte>)
    ensures match SplitUser(value)
      case None => true
      case Some((local, remote)) => UfragOk(local) && UfragOk(remote) && COLON !in local
  {
    var user := First(value, USER_MAX);
    var colon := IndexOf(CStr(user), COLON);
    if colon < |CStr(user)| {
      assert user[..colon] == CStr(user)[..colon];
      assert forall i :: 0 <= i < colon ==> CStr(user)[i] in CStr(user);
    }
  }

  predicate Answerable(s: Stun) { RequestOk(s) && COLON !in s.local }

  lemma {:induction false} WalkIsAnswerable(s: Stun, data: seq<byte>, pos: nat)
    requires Answerable(s)
    ensures Walk(s, data, pos).Some? ==> Answerable(Walk(s, data, pos).value)
    decreases if pos <= |data| then |data| - pos else 0
  {
    hide SplitUser, Read16;
    if pos + 4 <= |data| {
      var typ, n := Read16(data, pos), Read16(data, pos + 2);
      if pos + 4 + n <= |data| {
        var value := data[pos + 4..pos + 4 + n];
        SplitIsOk(value);
        WalkIsAnswerable(Apply(s, typ, value, pos + 4), data, pos + 4 + n + Padding(n));
      }
    }
  }

  /** What the peer learns from a response. */
  function Echo(req: Stun, body: nat): Stun {
    Stun(BINDING_RESPONSE, req.tid, true, req.local, req.remote, false, false, false, true, 24 + body, true, 48 + body)
  }

  lemma HeaderReads(length: nat, tid: seq<byte>, rest: seq<byte>)
    requires length < 0x1_0000 && |tid| == 12
    ensures var data := Header(length, tid) + rest;
      && Read16(data, 0) == BINDING_RESPONSE && Read16(data, 2) == length && data[8..20] == tid
      && forall n :: 0 <= n < 0x1_0000 ==> WithLength(data, n) == Header(n, tid) + rest
  {
    var data := Header(length, tid) + rest;
    assert data[0..2] == Be16(BINDING_RESPONSE) && data[2..4] == Be16(length);
    Read16Of(data, 0, BINDING_RESPONSE);
    Read16Of(data, 2, length);
    forall n | 0 <= n < 0x1_0000 ensures WithLength(data, n) == Header(n, tid) + rest {
      assert data[..2] == Be16(BINDING_RESPONSE) && data[4..] == Be32(MAGIC_COOKIE) + tid + rest;
    }
  }

  lemma ApplyUser(s: Stun, user: seq<byte>, at: nat, local: seq<byte>, remote: seq<byte>)
    requires SplitUser(user) == Some((local, remote))
    ensures Apply(s, USERNAME, user, at) == s.(hasUsername := true, local := local, remote := remote)
  {
    hide SplitUser;
  }

  lemma ApplyUnknown(s: Stun, v: seq<byte>, at: nat)
    ensures Apply(s, XOR_MAPPED_ADDR, v, at) == s
  {
    hide SplitUser;
  }

  lemma ApplyIntegrity(s: Stun, v: seq<byte>, at: nat)
    requires at < 0x1_0000
    ensures Apply(s, MESSAGE_INTEGRITY, v, at) == s.(hasIntegrity := true, integrityOffset := at)
  {
    hide SplitUser;
  }

  lemma ApplyCheck(s: Stun, v: seq<byte>, at: nat)
    requires at < 0x1_0000
    ensures Apply(s, FINGERPRINT, v, at) == s.(hasFingerprint := true, fingerprintOffset := at)
  {
    hide SplitUser;
  }

  lemma MeaningOfFour(s0: Stun, local: seq<byte>, remote: seq<byte>, a: Attr, b: Attr, c: Attr, d: Attr)
    requires a.typ == USERNAME && b.typ == XOR_MAPPED_ADDR && c.typ == MESSAGE_INTEGRITY && d.typ == FINGERPRINT
    requires SplitUser(a.value) == Some((local, remote)) && |a.value| <= 33 && |b.value| == 8 && |c.value| == 20
    ensures var n := 36 + |a.value| + Padding(|a.value|);
      Meaning(s0, [a, b, c, d], 20) == s0.(hasUsername := true, local := local, remote := remote,
        hasIntegrity := true, integrityOffset := n + 4, hasFingerprint := true, fingerprintOffset := n + 28)
  {
    var n := 36 + |a.value| + Padding(|a.value|);
    hide Apply, SplitUser, Padding, Meaning;
    MeaningOfIdentity(s0, local, remote, a, b, [c, d]);
    assert [a, b] + [c, d] == [a, b, c, d];
    MeaningOfSeals(s0.(hasUsername := true, local := local, remote := remote), c, d, n);
  }

  lemma MeaningOfIdentity(s0: Stun, local: seq<byte>, remote: seq<byte>, a: Attr, b: Attr, rest: seq<Attr>)
    requires a.typ == USERNAME && b.typ == XOR_MAPPED_ADDR && SplitUser(a.value) == Some((local, remote)) && |b.value| == 8
    ensures Meaning(s0, [a, b] + rest, 20) ==
      Meaning(s0.(hasUsername := true, local := local, remote := remote), rest, 36 + |a.value| + Padding(|a.value|))
  {
    var s1 := s0.(hasUsername := true, local := local, remote := remote);
    hide Apply, SplitUser, Meaning;
    ApplyUser(s0, a.value, 24, local, remote);
    MeaningCons(s0, a, [b] + rest, 20);
    assert [a, b] + rest == [a] + ([b] + rest);
    PassedOver(s1, b, rest, 24 + |a.value| + Padding(|a.value|));
  }

  /** The mapped address tells the reader nothing it keeps. */
  lemma PassedOver(s: Stun, b: Attr, rest: seq<Attr>, pos: nat)
    requires b.typ == XOR_MAPPED_ADDR && |b.value| == 8
    ensures Meaning(s, [b] + rest, pos) == Meaning(s, rest, pos + 12)
  {
    PaddingOf8And20();
    hide Apply, Meaning, Padding;
    ApplyUnknown(s, b.value, pos + 4);
    MeaningCons(s, b, rest, pos);
  }

  lemma MeaningCons(s: Stun, a: Attr, rest: seq<Attr>, pos: nat)
    ensures Meaning(s, [a] + rest, pos) ==
      Meaning(Apply(s, a.typ, a.value, pos + 4), rest, pos + 4 + |a.value| + Padding(|a.value|))
  {
    hide Apply, Padding;
    MeaningStep(s, [a] + rest, pos);
    assert ([a] + rest)[1..] == rest;
  }

  lemma MeaningOfSeals(s: Stun, c: Attr, d: Attr, n: nat)
    requires c.typ == MESSAGE_INTEGRITY && d.typ == FINGERPRINT && |c.value| == 20 && n + 28 < 0x1_0000
    ensures Meaning(s, [c, d], n) ==
      s.(hasIntegrity := true, integrityOffset := n + 4, hasFingerprint := true, fingerprintOffset := n + 28)
  {
    var s2 := s.(hasIntegrity := true, integrityOffset := n + 4);
    PaddingOf8And20();
    hide Apply, SplitUser, Padding;
    ApplyIntegrity(s, c.value, n + 4);
    ApplyCheck(s2, d.value, n + 28);
    MeaningCons(s, c, [d], n);
    assert [c, d] == [c] + [d];
    MeaningCons(s2, d, [], n + 24);
    assert [d] == [d] + [];
  }

  lemma MeaningOfResponse(req: Stun, addr: bv32, port: bv16, c: Attr, d: Attr)
    requires RequestOk(req) && COLON !in req.local
    requires c.typ == MESSAGE_INTEGRITY && |c.value| == 20 && d.typ == FINGERPRINT
    ensures Meaning(Blank(BINDING_RESPONSE, req.tid), Identity(req, addr, port) + [c, d], 20)
         == Echo(req, |Body(req, addr, port)|)
  {
    var a, b := Attr(USERNAME, User(req)), Attr(XOR_MAPPED_ADDR, Mapped(addr, port));
    UserSplitsBack(req.local, req.remote);
    assert Identity(req, addr, port) + [c, d] == [a, b, c, d];
    hide SplitUser, Mapped, Meaning;
    MeaningOfFour(Blank(BINDING_RESPONSE, req.tid), req.local, req.remote, a, b, c, d);
  }

  lemma PaddingOf8And20()
    ensures Padding(8) == 0 && Padding(20) == 0
  {
  }

  lemma MeaningStep(s: Stun, attrs: seq<Attr>, pos: nat)
    requires attrs != []
    ensures Meaning(s, attrs, pos) ==
      Meaning(Apply(s, attrs[0].typ, attrs[0].value, pos + 4), attrs[1..], pos + 4 + |attrs[0].value| + Padding(|attrs[0].value|))
  {
  }

  /** A response decodes to the request's transaction and ufrags. */
  lemma ResponseDecodes(req: Stun, addr: bv32, port: bv16, hmac: Hmac, crc: Crc, pwd: seq<byte>)
    requires Answerable(req)
    ensures Decode(Response(req, addr, port, hmac, crc, pwd)) == Some(Echo(req, |Body(req, addr, port)|))
  {
    var c, d := Integrity(req, addr, port, hmac, pwd), Check(req, addr, port, hmac, crc, pwd);
    var attrs := Identity(req, addr, port) + [c, d];
    var n := |Body(req, addr, port)| + 32;
    var data := Response(req, addr, port, hmac, crc, pwd);
    ResponseIsAttributes(req, addr, port, hmac, crc, pwd);
    HeaderReads(n, req.tid, Tlvs(attrs));
    MeaningOfResponse(req, addr, port, c, d);
    hide Response, Check, Integrity, Header, Identity, Body, Read16, Walk, Meaning, Tlvs, WithLength;
    WalkReadsAttributes(Blank(BINDING_RESPONSE, req.tid), data, Header(n, req.tid), attrs);
  }

  /** Every message that decodes can be answered, and its response decodes to its transaction and ufrags. */
  lemma DecodedIsAnswered(data: seq<byte>, addr: bv32, port: bv16, hmac: Hmac, crc: Crc, pwd: seq<byte>)
    requires Decode(data).Some?
    ensures var req := Decode(data).value;
      Answerable(req) && Decode(Response(req, addr, port, hmac, crc, pwd)) == Some(Echo(req, |Body(req, addr, port)|))
  {
    WalkIsAnswerable(Blank(Read16(data, 0), data[8..20]), data, HEADER_LEN);
    ResponseDecodes(Decode(data).value, addr, port, hmac, crc, pwd);
    hide Response, Walk, Body;
  }

  /**
   A response verifies under a password exactly when that password gives its signed part the hash
   the sender's password gave it; under the sender's own it always does.
   */
  lemma ResponseVerifies(req: Stun, addr: bv32, port: bv16, hmac: Hmac, crc: Crc, pwd: seq<byte>, other: seq<byte>)
    requires RequestOk(req)
    ensures var data := Response(req, addr, port, hmac, crc, pwd);
      Verifies(Echo(req, |Body(req, addr, port)|), data, hmac, other) ==
        (hmac(other, Signed(req, addr, port)) == hmac(pwd, Signed(req, addr, port)))
  {
    var body := Body(req, addr, port);
    var data := Response(req, addr, port, hmac, crc, pwd);
    var c, d := Integrity(req, addr, port, hmac, pwd), Check(req, addr, port, hmac, crc, pwd);
    var rest := body + Tlv(c) + Tlv(d);
    assert data == Header(|body| + 32, req.tid) + rest;
    HeaderReads(|body| + 32, req.tid, rest);
    var at := 24 + |body|;
    assert WithLength(data, at) == Header(at, req.tid) + rest;
    assert (Header(at, req.tid) + rest)[..at - 4] == Signed(req, addr, port);
    IntegrityPlace(data, Header(|body| + 32, req.tid) + body, c, Tlv(d));
  }

  lemma IntegrityPlace(data: seq<byte>, before: seq<byte>, c: Attr, after: seq<byte>)
    requires AttrOk(c) && |c.value| == 20 && data == before + Tlv(c) + after
    ensures |before| + 24 <= |data| && data[|before| + 4..|before| + 24] == c.value
  {
    assert data == before + (Tlv(c) + after);
    TlvReads(data, before, c, after);
  }

  /** The address a response maps back is the one it was given. */
  lemma MaskUndoes(addr: bv32, port: bv16)
    ensures Masked32(Masked32(addr)) == addr && Masked16(Masked16(port)) == port
  {
  }
}
