/** The octets of the packets this side builds, told one by one. */
module RtpLaws {
  import opened Bytes
  import opened Octets
  import opened RtpSpec

  /** Version 2 and nothing else in the first octet; marker, payload type, number, time and source in their places. */
  predicate Bears(p: seq<byte>, f: Fields, number: nat, marker: bool) {
    && |p| >= 12
    && p[0] == 0x80
    && p[1] % 128 == f.pt % 128 && (p[1] >= 128 <==> marker)
    && Number(p[2..4]) == number
    && Number(p[4..8]) == f.timestamp
    && Number(p[8..12]) == f.ssrc
  }

  lemma HeaderBears(f: Fields, marker: bool, rest: seq<byte>)
    requires FieldsOk(f)
    ensures Bears(Header(f, marker) + rest, f, f.seq16, marker)
  {
    var p := Header(f, marker) + rest;
    NumberOf2(f.seq16);
    NumberOf4(f.timestamp);
    NumberOf4(f.ssrc);
    assert p[2..4] == Be16(f.seq16) && p[4..8] == Be32(f.timestamp) && p[8..12] == Be32(f.ssrc);
  }

  lemma FragmentBears(nal: byte, chunk: seq<byte>, start: bool, end: bool, f: Fields, marker: bool)
    requires FieldsOk(f)
    ensures Bears(Fragment(nal, chunk, start, end, f, marker), f, f.seq16, marker && end)
  {
    HeaderBears(f, marker && end, [FuIndicator(nal), FuHeader(nal, start, end)] + chunk);
    assert Header(f, marker && end) + [FuIndicator(nal), FuHeader(nal, start, end)] + chunk ==
           Header(f, marker && end) + ([FuIndicator(nal), FuHeader(nal, start, end)] + chunk);
    hide Header, Bears;
  }

  predicate BearsAt(r: seq<seq<byte>>, i: nat, f: Fields, mtu: nat, marker: bool)
    requires i < |r|
  {
    && Bears(r[i], f, Low16(f.seq16 + i), marker && i == |r| - 1)
    && |r[i]| <= 14 + mtu && (i < |r| - 1 ==> |r[i]| == 14 + mtu)
  }

  lemma {:induction false} FragmentsBear(nal: byte, rest: seq<byte>, first: bool, f: Fields, mtu: nat, marker: bool)
    requires rest != [] && mtu > 0 && FieldsOk(f)
    ensures var r := Fragments(nal, rest, first, f, mtu, marker);
      r != [] && forall i :: 0 <= i < |r| ==> BearsAt(r, i, f, mtu, marker)
    decreases |rest|
  {
    hide Bears, Fragment;
    if |rest| <= mtu {
      FragmentBears(nal, rest, first, true, f, marker);
    } else {
      FragmentBears(nal, rest[..mtu], first, false, f, marker);
      FragmentsBear(nal, rest[mtu..], false, Advanced(f, 1), mtu, marker);
      var t := Fragments(nal, rest[mtu..], false, Advanced(f, 1), mtu, marker);
      ConsBears(Fragment(nal, rest[..mtu], first, false, f, marker), t, f, mtu, marker);
    }
  }

  lemma AdvancedBears(p: seq<byte>, f: Fields, n: nat, marker: bool)
    requires Bears(p, Advanced(f, 1), n, marker)
    ensures Bears(p, f, n, marker)
  {
    hide Number;
  }

  lemma NextNumber(f: Fields, i: nat)
    requires i > 0
    ensures Low16(Advanced(f, 1).seq16 + (i - 1)) == Low16(f.seq16 + i)
  {
  }

  lemma ConsBears(p: seq<byte>, t: seq<seq<byte>>, f: Fields, mtu: nat, marker: bool)
    requires FieldsOk(f) && t != [] && |p| == 14 + mtu && Bears(p, f, f.seq16, false)
    requires forall i :: 0 <= i < |t| ==> BearsAt(t, i, Advanced(f, 1), mtu, marker)
    ensures forall i :: 0 <= i < |t| + 1 ==> BearsAt([p] + t, i, f, mtu, marker)
  {
    forall i | 0 <= i < |t| + 1 ensures BearsAt([p] + t, i, f, mtu, marker) {
      hide Bears, Advanced;
      if i > 0 {
        assert BearsAt(t, i - 1, Advanced(f, 1), mtu, marker);
        NextNumber(f, i);
        AdvancedBears(t[i - 1], f, Low16(f.seq16 + i), marker && i == |t|);
      }
    }
  }

  /**
   Every fragment of a unit bears its time, source and payload type and the next number; all but the
   last are full, and only the last can bear the marker.
   */
  lemma FuABears(nalu: seq<byte>, f: Fields, mtu: nat, marker: bool, i: nat)
    requires |nalu| >= 2 && mtu > 0 && FieldsOk(f) && i < |FuA(nalu, f, mtu, marker)|
    ensures var r := FuA(nalu, f, mtu, marker);
      && Bears(r[i], f, Low16(f.seq16 + i), marker && i == |r| - 1)
      && 14 <= |r[i]| <= 14 + mtu && (i < |r| - 1 ==> |r[i]| == 14 + mtu)
      && r[i][12] % 32 == 28 && r[i][12] / 32 == nalu[0] / 32
  {
    FragmentsBear(nalu[0], nalu[1..], true, f, mtu, marker);
    FuARoundTrip(nalu, f, mtu, marker);
    var r := FuA(nalu, f, mtu, marker);
    hide FuA, Bears;
    assert BearsAt(r, i, f, mtu, marker) && PieceOk(r, i, nalu[0]);
  }

  /** A bundle bears no marker, type 24 under the importance of its octet, and the units with their lengths. */
  lemma StapABears(nalus: seq<seq<byte>>, octet: byte, f: Fields)
    requires FieldsOk(f) && forall x :: x in nalus ==> |x| < U16
    ensures var p := StapA(nalus, octet, f);
      Bears(p, f, f.seq16, false) && |p| >= 13 && p[12] % 32 == 24 && p[12] / 32 == octet / 32 && Unpack(p[13..]) == nalus
  {
    var body := StapBody(nalus);
    StapRoundTrip(nalus);
    HeaderBears(f, false, [octet / 32 * 32 + 24] + body);
    hide Header, StapBody, Bears, Unpack;
    Behind(Header(f, false), octet / 32 * 32 + 24, body);
  }

  lemma Behind(head: seq<byte>, x: byte, body: seq<byte>)
    requires |head| == 12
    ensures var p := head + [x] + body; p == head + ([x] + body) && p[12] == x && p[13..] == body
  {
  }

  // ---------------------------------------------------------------- what is stripped

  /** An extension of `words` words behind its two marks and its length. */
  function Extended(mark: seq<byte>, words: nat, data: seq<byte>): seq<byte>
    requires |mark| == 2 && words < U16 && |data| == 4 * words
  {
    mark + Be16(words) + data
  }

  lemma AfterSources(p: seq<byte>, first: byte, head: seq<byte>, sources: seq<byte>, rest: seq<byte>)
    requires |head| == 11 && |sources| == 4 * (first % 16) && p == [first] + head + sources + rest
    ensures |p| >= 12 && p[0] == first && p[1..12] == head && p[12 + |sources|..] == rest
  {
  }

  /** Without an extension, stripping removes the contributing sources, however many there are. */
  lemma SourcesAreCut(first: byte, head: seq<byte>, sources: seq<byte>, payload: seq<byte>)
    requires |head| == 11 && |sources| == 4 * (first % 16) && first / 16 % 2 == 0
    ensures Strip([first] + head + sources + payload) == Plain([first / 32 * 32] + head + payload)
  {
    AfterSources([first] + head + sources + payload, first, head, sources, payload);
  }

  lemma ExtensionEnds(p: seq<byte>, at: nat, mark: seq<byte>, words: nat, data: seq<byte>, payload: seq<byte>)
    requires |mark| == 2 && words < U16 && |data| == 4 * words && at <= |p| && p[at..] == Extended(mark, words, data) + payload
    ensures at + 4 + 4 * words <= |p| && Read16(p, at + 2) == words && p[at + 4 + 4 * words..] == payload
  {
    var e := p[at..];
    assert p[at + 2..at + 4] == e[2..4] == Be16(words);
    Read16Of(p, at + 2, words);
    assert p[at + 4 + 4 * words..] == e[4 + 4 * words..] == payload;
  }

  /** With one, it removes the sources and the extension, whatever its length. */
  lemma ExtensionIsCut(first: byte, head: seq<byte>, sources: seq<byte>, mark: seq<byte>, words: nat, data: seq<byte>, payload: seq<byte>)
    requires |head| == 11 && |sources| == 4 * (first % 16) && first / 16 % 2 == 1
    requires |mark| == 2 && words < U16 && |data| == 4 * words
    ensures Strip([first] + head + sources + (Extended(mark, words, data) + payload)) == Plain([first / 32 * 32] + head + payload)
  {
    var p := [first] + head + sources + (Extended(mark, words, data) + payload);
    AfterSources(p, first, head, sources, Extended(mark, words, data) + payload);
    ExtensionEnds(p, 12 + |sources|, mark, words, data, payload);
    hide Read16, Extended;
  }
}
