/** What the peer behind a connectivity check gets from the response. */
module StunPeer {
  // A reader of messages that owes nothing to the writer: it finds an attribute by its type, from octets alone, and
  // undoes the mask with the octets of the message's own header.

  import opened Options
  import opened Bytes
  import opened StunSpec

  function Octets16(a: byte, b: byte): (r: nat)
    ensures r < 0x1_0000
  {
    a as nat * 0x100 + b as nat
  }

  /** The number of four octets, high first. */
  function Octets32(b: seq<byte>): (r: nat)
    requires |b| == 4
    ensures r < 0x1_0000_0000
  {
    b[0] as nat * 0x100_0000 + b[1] as nat * 0x1_0000 + b[2] as nat * 0x100 + b[3] as nat
  }

  /** The place of the first attribute of a type, counted in octets from the start of the message. */
  function PlaceOf(data: seq<byte>, pos: nat, typ: nat): Option<nat>
    decreases if pos < |data| then |data| - pos else 0
  {
    if pos + 4 > |data| then None
    else if Octets16(data[pos], data[pos + 1]) == typ then Some(pos)
    else PlaceOf(data, pos + 4 + (Octets16(data[pos + 2], data[pos + 3]) + 3) / 4 * 4, typ)
  }

  /** The value of an attribute that the message holds to its end. */
  function ValueOf(data: seq<byte>, typ: nat): Option<seq<byte>> {
    match PlaceOf(data, 20, typ)
    case None => None
    case Some(at) =>
      if at + 4 > |data| || at + 4 + Octets16(data[at + 2], data[at + 3]) > |data| then None
      else Some(data[at + 4..at + 4 + Octets16(data[at + 2], data[at + 3])])
  }

  /** A response: its type, length and cookie are right. */
  predicate IsResponse(data: seq<byte>) {
    && |data| >= 20
    && data[..2] == [1, 1]
    && Octets16(data[2], data[3]) == |data| - 20
    && data[4..8] == [0x21, 0x12, 0xA4, 0x42]
  }

  /** A number under the mask of the cookie (RFC 5389 section 15.2): the address by all of it, the port by its high half. */
  function Crossed32(addr: bv32): bv32 { addr ^ 0x2112_A442 }

  function Crossed16(port: bv16): bv16 { port ^ 0x2112 }

  function Number32(a: bv32): (n: nat) ensures n < U32 { a as nat }

  function Number16(p: bv16): (n: nat) ensures n < U16 { p as nat }

  /** The mapped address tells this IPv4 address and this port. */
  predicate Maps(data: seq<byte>, addr: bv32, port: bv16) {
    match ValueOf(data, 0x0020)
    case None => false
    case Some(v) =>
      && |v| == 8 && v[..2] == [0, 1]
      && Octets16(v[2], v[3]) == Number16(Crossed16(port)) && Octets32(v[4..8]) == Number32(Crossed32(addr))
  }

  // ---------------------------------------------------------------- any message

  /** Some attribute has this type. */
  predicate Has(data: seq<byte>, pos: nat, typ: nat) { PlaceOf(data, pos, typ).Some? }

  lemma NoneAtEnd(data: seq<byte>, pos: nat, typ: nat)
    requires pos + 4 > |data|
    ensures !Has(data, pos, typ)
  {
  }

  lemma HasStep(data: seq<byte>, pos: nat, typ: nat)
    requires pos + 4 <= |data|
    ensures Has(data, pos, typ) <==>
      Read16(data, pos) == typ || Has(data, pos + 4 + Read16(data, pos + 2) + Padding(Read16(data, pos + 2)), typ)
  {
    PlaceStep(data, pos, typ);
    Rounded(Read16(data, pos + 2));
    hide PlaceOf, Padding;
  }

  /** What the flags say: they were set before, or an attribute of their type is on the way. */
  predicate Says(before: Stun, after: Stun, data: seq<byte>, pos: nat) {
    && (after.useCandidate <==> before.useCandidate || Has(data, pos, 0x0025))
    && (after.controlled <==> before.controlled || Has(data, pos, 0x8029))
    && (after.controlling <==> before.controlling || Has(data, pos, 0x802A))
    && (after.hasIntegrity <==> before.hasIntegrity || Has(data, pos, 0x0008))
    && (after.hasFingerprint <==> before.hasFingerprint || Has(data, pos, 0x8028))
    && after.typ == before.typ && after.tid == before.tid
  }

  lemma OneSaysRole(s: Stun, typ: nat, value: seq<byte>, at: nat)
    ensures var t := Apply(s, typ, value, at);
      && t.useCandidate == (s.useCandidate || typ == 0x0025)
      && t.controlled == (s.controlled || typ == 0x8029) && t.controlling == (s.controlling || typ == 0x802A)
  {
    hide SplitUser;
  }

  lemma OneSaysSeal(s: Stun, typ: nat, value: seq<byte>, at: nat)
    ensures var t := Apply(s, typ, value, at);
      && t.hasIntegrity == (s.hasIntegrity || typ == 0x0008) && t.hasFingerprint == (s.hasFingerprint || typ == 0x8028)
      && t.typ == s.typ && t.tid == s.tid
  {
    hide SplitUser;
  }

  lemma {:induction false} WalkSays(s: Stun, data: seq<byte>, pos: nat)
    requires Walk(s, data, pos).Some?
    ensures Says(s, Walk(s, data, pos).value, data, pos)
    decreases if pos <= |data| then |data| - pos else 0
  {
    hide Has, Read16, Padding, Apply;
    if pos + 4 > |data| {
      NoneAtEnd(data, pos, 0x0025);
      NoneAtEnd(data, pos, 0x8029);
      NoneAtEnd(data, pos, 0x802A);
      NoneAtEnd(data, pos, 0x0008);
      NoneAtEnd(data, pos, 0x8028);
    } else {
      HasStep(data, pos, 0x0025);
      HasStep(data, pos, 0x8029);
      HasStep(data, pos, 0x802A);
      HasStep(data, pos, 0x0008);
      HasStep(data, pos, 0x8028);
      var n := Read16(data, pos + 2);
      OneSaysRole(s, Read16(data, pos), data[pos + 4..pos + 4 + n], pos + 4);
      OneSaysSeal(s, Read16(data, pos), data[pos + 4..pos + 4 + n], pos + 4);
      WalkSays(Apply(s, Read16(data, pos), data[pos + 4..pos + 4 + n], pos + 4), data, pos + 4 + n + Padding(n));
    }
  }

  /** Whatever message is decoded, each of its flags says that an attribute of one type is in it, and no other. */
  lemma FlagsAreThere(data: seq<byte>)
    requires Decode(data).Some?
    ensures |data| >= 20 && Octets16(data[2], data[3]) == |data| - 20
    ensures var m := Decode(data).value;
      && m.typ == Octets16(data[0], data[1]) && m.tid == data[8..20]
      && (m.useCandidate <==> Has(data, 20, 0x0025))
      && (m.controlled <==> Has(data, 20, 0x8029)) && (m.controlling <==> Has(data, 20, 0x802A))
      && (m.hasIntegrity <==> Has(data, 20, 0x0008)) && (m.hasFingerprint <==> Has(data, 20, 0x8028))
  {
    WalkSays(Blank(Read16(data, 0), data[8..20]), data, HEADER_LEN);
    hide Walk, Has;
  }

  // ---------------------------------------------------------------- finding what was written

  lemma TlvStands(data: seq<byte>, pre: seq<byte>, a: Attr, rest: seq<byte>)
    requires AttrOk(a) && data == pre + (Tlv(a) + rest)
    ensures var n := |pre|;
      && n + 4 + |a.value| <= |data|
      && Octets16(data[n], data[n + 1]) == a.typ && Octets16(data[n + 2], data[n + 3]) == |a.value|
      && data[n + 4..n + 4 + |a.value|] == a.value
  {
    TlvReads(data, pre, a, rest);
    hide Tlv;
  }

  lemma Rounded(n: nat)
    ensures n + Padding(n) == (n + 3) / 4 * 4
  {
  }

  lemma PlaceStep(data: seq<byte>, pos: nat, typ: nat)
    requires pos + 4 <= |data|
    ensures PlaceOf(data, pos, typ) ==
      if Octets16(data[pos], data[pos + 1]) == typ then Some(pos)
      else PlaceOf(data, pos + 4 + (Octets16(data[pos + 2], data[pos + 3]) + 3) / 4 * 4, typ)
  {
  }

  predicate FirstOf(attrs: seq<Attr>, typ: nat, k: nat) {
    k < |attrs| && attrs[k].typ == typ && forall i :: 0 <= i < k ==> attrs[i].typ != typ
  }

  /** The attribute stands at `at`, with its length and value. */
  predicate Stands(data: seq<byte>, at: nat, v: seq<byte>) {
    && at + 4 + |v| <= |data|
    && Octets16(data[at + 2], data[at + 3]) == |v|
    && data[at + 4..at + 4 + |v|] == v
  }

  lemma NextPlace(data: seq<byte>, pre: seq<byte>, a: Attr, rest: seq<byte>, typ: nat)
    requires AttrOk(a) && data == pre + (Tlv(a) + rest)
    ensures a.typ == typ ==> PlaceOf(data, |pre|, typ) == Some(|pre|) && Stands(data, |pre|, a.value)
    ensures a.typ != typ ==> PlaceOf(data, |pre|, typ) == PlaceOf(data, |pre + Tlv(a)|, typ)
    ensures data == (pre + Tlv(a)) + rest
  {
    hide Tlv, PlaceOf, Octets16, Padding;
    TlvStands(data, pre, a, rest);
    PlaceStep(data, |pre|, typ);
    Rounded(|a.value|);
  }

  lemma TlvsStep(attrs: seq<Attr>)
    requires AttrsOk(attrs) && attrs != []
    ensures Tlvs(attrs) == Tlv(attrs[0]) + Tlvs(attrs[1..])
  {
    hide Tlv;
  }

  /** The first attribute of a type is found behind those that were written before it. */
  lemma {:induction false} WrittenIsFound(data: seq<byte>, pre: seq<byte>, attrs: seq<Attr>, typ: nat, k: nat)
    requires AttrsOk(attrs) && data == pre + Tlvs(attrs) && FirstOf(attrs, typ, k)
    ensures var at := |pre| + |Tlvs(attrs[..k])|; PlaceOf(data, |pre|, typ) == Some(at) && Stands(data, at, attrs[k].value)
    decreases k
  {
    hide Tlv, Tlvs, PlaceOf, Stands;
    TlvsStep(attrs);
    NextPlace(data, pre, attrs[0], Tlvs(attrs[1..]), typ);
    if k == 0 {
      NoTlvs(attrs[..0]);
    } else {
      WrittenIsFound(data, pre + Tlv(attrs[0]), attrs[1..], typ, k - 1);
      assert attrs[..k][1..] == attrs[1..][..k - 1];
      TlvsStep(attrs[..k]);
    }
  }

  lemma NoTlvs(attrs: seq<Attr>)
    requires attrs == []
    ensures Tlvs(attrs) == []
  {
  }

  // ---------------------------------------------------------------- the response

  lemma HeadStands(n: nat, tid: seq<byte>, rest: seq<byte>)
    requires n < 0x1_0000 && |tid| == 12 && n == |rest|
    ensures var data := Header(n, tid) + rest; IsResponse(data) && data[8..20] == tid
  {
    var data := Header(n, tid) + rest;
    assert Be16(BINDING_RESPONSE) == [1, 1] && Be32(MAGIC_COOKIE) == [0x21, 0x12, 0xA4, 0x42];
    assert data[2..4] == Be16(n);
    assert data[2] == data[2..4][0] && data[3] == data[2..4][1];
    assert data[4..8] == Be32(MAGIC_COOKIE);
  }

  lemma Octets32Of(n: nat)
    requires n < 0x1_0000_0000
    ensures Octets32(Be32(n)) == n
  {
  }

  function Word32(n: nat): bv32 requires n < U32 { n as bv32 }

  function Word16(n: nat): bv16 requires n < U16 { n as bv16 }

  lemma WordBack(a: bv32)
    ensures Word32(Number32(a)) == a
  {
  }

  lemma HalfBack(p: bv16)
    ensures Word16(Number16(p)) == p
  {
  }

  lemma CrossedApart(a: bv32, b: bv32, p: bv16, q: bv16)
    ensures Crossed32(a) == Crossed32(b) ==> a == b
    ensures Crossed16(p) == Crossed16(q) ==> p == q
  {
  }

  /** A message maps back to one address and port at most. */
  lemma MapsToOne(data: seq<byte>, addr: bv32, port: bv16, addr': bv32, port': bv16)
    requires Maps(data, addr, port) && Maps(data, addr', port')
    ensures addr == addr' && port == port'
  {
    hide Crossed32, Crossed16, ValueOf, Octets16, Octets32, Number32, Number16, Word32, Word16;
    WordBack(Crossed32(addr));
    WordBack(Crossed32(addr'));
    HalfBack(Crossed16(port));
    HalfBack(Crossed16(port'));
    CrossedApart(addr, addr', port, port');
  }

  lemma FieldsStand(p: nat, a: nat)
    requires p < 0x1_0000 && a < 0x1_0000_0000
    ensures var v := [0, 1] + Be16(p) + Be32(a); v[..2] == [0, 1] && Octets32(v[4..8]) == a && Octets16(v[2], v[3]) == p
  {
    var v: seq<byte> := [0, 1] + Be16(p) + Be32(a);
    hide Be32;
    assert v[4..8] == Be32(a);
    Octets32Of(a);
  }

  lemma CrossedIsMasked(addr: bv32, port: bv16)
    ensures Masked32(addr) == Crossed32(addr) && Masked16(port) == Crossed16(port)
  {
  }

  lemma MappedStands(addr: bv32, port: bv16)
    ensures var v := Mapped(addr, port);
      v[..2] == [0, 1] && Octets32(v[4..8]) == Number32(Crossed32(addr)) && Octets16(v[2], v[3]) == Number16(Crossed16(port))
  {
    hide Octets32, Octets16, Masked32, Masked16, Be16, Be32, Crossed32, Crossed16;
    CrossedIsMasked(addr, port);
    FieldsStand(Masked16(port) as nat, Masked32(addr) as nat);
  }

  /** The four attributes of a response, in order. */
  lemma FourWritten(req: Stun, addr: bv32, port: bv16, hmac: Hmac, crc: Crc, pwd: seq<byte>) returns (attrs: seq<Attr>)
    requires RequestOk(req)
    ensures |attrs| == 4 && AttrsOk(attrs)
    ensures attrs[0] == Attr(0x0006, User(req)) && attrs[1] == Attr(0x0020, Mapped(addr, port))
    ensures attrs[2] == Integrity(req, addr, port, hmac, pwd) && attrs[3] == Check(req, addr, port, hmac, crc, pwd)
    ensures attrs[2].typ == 0x0008 && attrs[3].typ == 0x8028 && |attrs[2].value| == 20 && |attrs[3].value| == 4
    ensures Response(req, addr, port, hmac, crc, pwd) == Header(|Body(req, addr, port)| + 32, req.tid) + Tlvs(attrs)
  {
    ResponseIsAttributes(req, addr, port, hmac, crc, pwd);
    attrs := Identity(req, addr, port) + [Integrity(req, addr, port, hmac, pwd), Check(req, addr, port, hmac, crc, pwd)];
  }

  lemma ValueStands(data: seq<byte>, at: nat, typ: nat, v: seq<byte>)
    requires PlaceOf(data, 20, typ) == Some(at) && Stands(data, at, v)
    ensures ValueOf(data, typ) == Some(v)
  {
    hide PlaceOf;
  }

  lemma MappedIs(data: seq<byte>, addr: bv32, port: bv16)
    requires ValueOf(data, 0x0020) == Some(Mapped(addr, port))
    ensures Maps(data, addr, port)
  {
    hide ValueOf, Mapped, Octets32, Octets16, Crossed32, Crossed16, Number32, Number16;
    MappedStands(addr, port);
  }

  /** The written attributes read back, by type. */
  lemma WrittenIsRead(data: seq<byte>, pre: seq<byte>, attrs: seq<Attr>, typ: nat, k: nat)
    requires AttrsOk(attrs) && |pre| == 20 && data == pre + Tlvs(attrs) && FirstOf(attrs, typ, k)
    ensures PlaceOf(data, 20, typ) == Some(20 + |Tlvs(attrs[..k])|) && ValueOf(data, typ) == Some(attrs[k].value)
  {
    WrittenIsFound(data, pre, attrs, typ, k);
    ValueStands(data, 20 + |Tlvs(attrs[..k])|, typ, attrs[k].value);
    hide Tlvs, PlaceOf, ValueOf, Stands, FirstOf;
  }

  lemma IdentityIsRead(data: seq<byte>, pre: seq<byte>, attrs: seq<Attr>, user: seq<byte>, addr: bv32, port: bv16)
    requires AttrsOk(attrs) && |pre| == 20 && data == pre + Tlvs(attrs)
    requires |attrs| >= 2 && attrs[0] == Attr(0x0006, user) && attrs[1] == Attr(0x0020, Mapped(addr, port))
    ensures ValueOf(data, 0x0006) == Some(user) && Maps(data, addr, port)
  {
    hide Tlvs, PlaceOf, ValueOf, Maps, Mapped;
    WrittenIsRead(data, pre, attrs, 0x0006, 0);
    WrittenIsRead(data, pre, attrs, 0x0020, 1);
    MappedIs(data, addr, port);
  }

  /** A response tells its receiver the transaction, the two ufrags, and the address and port it was sent to. */
  lemma PeerReadsResponse(req: Stun, addr: bv32, port: bv16, hmac: Hmac, crc: Crc, pwd: seq<byte>)
    requires RequestOk(req)
    ensures var data := Response(req, addr, port, hmac, crc, pwd);
      && IsResponse(data) && data[8..20] == req.tid
      && ValueOf(data, 0x0006) == Some(req.local + [58] + req.remote)
      && Maps(data, addr, port)
  {
    hide Response, Body, Mapped, Tlvs, IsResponse, ValueOf, Maps, Integrity, Check, Header;
    var head := Header(|Body(req, addr, port)| + 32, req.tid);
    var attrs := FourWritten(req, addr, port, hmac, crc, pwd);
    HeadStands(|Body(req, addr, port)| + 32, req.tid, Tlvs(attrs));
    IdentityIsRead(Response(req, addr, port, hmac, crc, pwd), head, attrs, User(req), addr, port);
  }

  lemma FrontOf(req: Stun, addr: bv32, port: bv16, hmac: Hmac, crc: Crc, pwd: seq<byte>)
    requires RequestOk(req)
    ensures var data, body := Response(req, addr, port, hmac, crc, pwd), Body(req, addr, port);
      && data[..2] + Be16(|body| + 24) + data[4..20 + |body|] == Signed(req, addr, port)
      && data[..|data| - 8] == Fingerprinted(req, addr, port, hmac, pwd)
  {
    var data, body := Response(req, addr, port, hmac, crc, pwd), Body(req, addr, port);
    var c, d := Integrity(req, addr, port, hmac, pwd), Check(req, addr, port, hmac, crc, pwd);
    hide Body, Integrity, Check, Tlv;
    assert data[..2] == Be16(BINDING_RESPONSE);
    assert data[4..20 + |body|] == Be32(MAGIC_COOKIE) + req.tid + body;
  }

  lemma TlvsFront(req: Stun, addr: bv32, port: bv16, attrs: seq<Attr>)
    requires RequestOk(req) && AttrsOk(attrs) && |attrs| == 4
    requires attrs[0] == Attr(0x0006, User(req)) && attrs[1] == Attr(0x0020, Mapped(addr, port)) && |attrs[2].value| == 20
    ensures |Tlvs(attrs[..2])| == |Body(req, addr, port)| && |Tlvs(attrs[..3])| == |Body(req, addr, port)| + 24
  {
    hide Tlv, Mapped, Tlvs;
    TlvsStep(attrs[..2]);
    TlvsStep(attrs[..3]);
    assert attrs[..2][1..] == [attrs[1]] && attrs[..3][1..] == [attrs[1], attrs[2]];
    TlvsStep([attrs[1]]);
    TlvsStep([attrs[1], attrs[2]]);
    assert [attrs[1], attrs[2]][1..] == [attrs[2]];
    TlvsStep([attrs[2]]);
    NoTlvs([attrs[1]][1..]);
    NoTlvs([attrs[2]][1..]);
  }

  /** The integrity is the keyed hash of what stands before it, under a length that ends behind it. */
  lemma PeerFindsIntegrity(req: Stun, addr: bv32, port: bv16, hmac: Hmac, crc: Crc, pwd: seq<byte>)
    requires RequestOk(req)
    ensures var data := Response(req, addr, port, hmac, crc, pwd);
      exists at :: 20 <= at < 0x1_0000 - 4 && at <= |data| && PlaceOf(data, 20, 0x0008) == Some(at)
        && ValueOf(data, 0x0008) == Some(hmac(pwd, data[..2] + Be16(at + 4) + data[4..at]))
  {
    var n, at := |Body(req, addr, port)| + 32, 20 + |Body(req, addr, port)|;
    hide Response, Body, Mapped, Tlvs, PlaceOf, Stands, ValueOf, Check, Header, Signed;
    var attrs := FourWritten(req, addr, port, hmac, crc, pwd);
    var data := Response(req, addr, port, hmac, crc, pwd);
    TlvsFront(req, addr, port, attrs);
    FrontOf(req, addr, port, hmac, crc, pwd);
    WrittenIsRead(data, Header(n, req.tid), attrs, 0x0008, 2);
    assert PlaceOf(data, 20, 0x0008) == Some(at);
  }

  /** A checksum under the fingerprint's mask (section 15.5). */
  function Sealed(c: bv32): bv32 { c ^ 0x5354_554E }

  /** The fingerprint is the last attribute; it is the masked checksum of everything before it. */
  lemma PeerFindsFingerprint(req: Stun, addr: bv32, port: bv16, hmac: Hmac, crc: Crc, pwd: seq<byte>)
    requires RequestOk(req)
    ensures var data := Response(req, addr, port, hmac, crc, pwd);
      && |data| >= 28 && PlaceOf(data, 20, 0x8028) == Some(|data| - 8)
      && Octets32(data[|data| - 4..]) == Number32(Sealed(crc(data[..|data| - 8])))
  {
    hide Response, Body, PlaceOf, Octets32, Check, Sealed, Number32;
    CheckIsLast(req, addr, port, hmac, crc, pwd);
    FrontOf(req, addr, port, hmac, crc, pwd);
    ChecksumStands(Fingerprinted(req, addr, port, hmac, pwd), crc);
    CheckIs(req, addr, port, hmac, crc, pwd);
  }

  lemma CheckIsLast(req: Stun, addr: bv32, port: bv16, hmac: Hmac, crc: Crc, pwd: seq<byte>)
    requires RequestOk(req)
    ensures var data := Response(req, addr, port, hmac, crc, pwd);
      && |data| >= 28 && PlaceOf(data, 20, 0x8028) == Some(|data| - 8)
      && data[|data| - 4..] == Check(req, addr, port, hmac, crc, pwd).value
  {
    hide Response, Body, Mapped, Tlvs, PlaceOf, Stands, Check, Header, Integrity;
    var data := Response(req, addr, port, hmac, crc, pwd);
    var attrs := FourWritten(req, addr, port, hmac, crc, pwd);
    TlvsFront(req, addr, port, attrs);
    WrittenIsFound(data, Header(|Body(req, addr, port)| + 32, req.tid), attrs, 0x8028, 3);
    LastFour(data, |data| - 8, attrs[3].value);
  }

  lemma LastFour(data: seq<byte>, at: nat, v: seq<byte>)
    requires Stands(data, at, v) && |data| == at + 8 && |v| == 4
    ensures data[|data| - 4..] == v
  {
  }

  lemma CheckIs(req: Stun, addr: bv32, port: bv16, hmac: Hmac, crc: Crc, pwd: seq<byte>)
    requires RequestOk(req)
    ensures Check(req, addr, port, hmac, crc, pwd) == Checksum(Fingerprinted(req, addr, port, hmac, pwd), crc)
  {
  }

  lemma ChecksumIs(text: seq<byte>, crc: Crc)
    ensures Checksum(text, crc).value == Be32(Sealed(crc(text)) as nat)
  {
    hide Be32;
  }

  lemma ChecksumStands(text: seq<byte>, crc: Crc)
    ensures Octets32(Checksum(text, crc).value) == Number32(Sealed(crc(text)))
  {
    hide Be32, Octets32, Checksum, Sealed;
    ChecksumIs(text, crc);
    Octets32Of(Sealed(crc(text)) as nat);
  }
}
