/** Octets, wrap-around of machine integers, and big-endian fields shared by the wire formats. */
module Bytes {
  type byte = x: int | 0 <= x < 256

  const U16 := 0x1_0000
  const U32 := 0x1_0000_0000
  const U64 := 0x1_0000_0000_0000_0000

  /** The fixed part of a media packet's header. */
  const HEADER := 12

  /** The largest packet the core takes in. */
  const MAX_RTP_PKT := 1214

  function Low16(n: int): (r: nat) ensures r < 0x1_0000 { n % 0x1_0000 }

  function Low32(n: int): (r: nat) ensures r < 0x1_0000_0000 { n % 0x1_0000_0000 }

  function Low64(n: int): (r: nat) ensures r < 0x1_0000_0000_0000_0000 { n % 0x1_0000_0000_0000_0000 }

  /** Whole turns do not change the wrapped value. */
  lemma Low16Shift(a: int, k: int)
    ensures Low16(a + 0x1_0000 * k) == Low16(a)
  {
  }

  lemma Low32Shift(a: int, k: int)
    ensures Low32(a + 0x1_0000_0000 * k) == Low32(a)
  {
  }

  /** Stepping a wrapping counter once more. */
  lemma Low16Step(n: int)
    ensures Low16(Low16(n) + 1) == Low16(n + 1)
  {
    var q := n / 0x1_0000;
    assert n + 1 == 0x1_0000 * q + (Low16(n) + 1);
  }

  function Nulls(n: nat): (r: seq<byte>)
    ensures |r| == n
  {
    seq(n, _ => 0)
  }

  /** Big-endian fields. */
  function Be16(n: nat): (r: seq<byte>)
    requires n < 0x1_0000
    ensures |r| == 2
  {
    [n / 256, n % 256]
  }

  function Be32(n: nat): (r: seq<byte>)
    requires n < 0x1_0000_0000
    ensures |r| == 4
  {
    Be16(n / 0x1_0000) + Be16(n % 0x1_0000)
  }

  function Read16(b: seq<byte>, at: nat): (r: nat)
    requires at + 2 <= |b|
    ensures r < 0x1_0000
  {
    b[at] as int * 256 + b[at + 1] as int
  }

  function Read32(b: seq<byte>, at: nat): (r: nat)
    requires at + 4 <= |b|
    ensures r < 0x1_0000_0000
  {
    Read16(b, at) * 0x1_0000 + Read16(b, at + 2)
  }

  lemma Read16Of(b: seq<byte>, at: nat, n: nat)
    requires n < 0x1_0000 && at + 2 <= |b| && b[at..at + 2] == Be16(n)
    ensures Read16(b, at) == n
  {
    assert b[at] == b[at..at + 2][0] && b[at + 1] == b[at..at + 2][1];
  }

  lemma Read32Of(b: seq<byte>, at: nat, n: nat)
    requires n < 0x1_0000_0000 && at + 4 <= |b| && b[at..at + 4] == Be32(n)
    ensures Read32(b, at) == n
  {
    assert b[at..at + 2] == b[at..at + 4][..2] == Be16(n / 0x1_0000);
    assert b[at + 2..at + 4] == b[at..at + 4][2..] == Be16(n % 0x1_0000);
    Read16Of(b, at, n / 0x1_0000);
    Read16Of(b, at + 2, n % 0x1_0000);
  }
}
