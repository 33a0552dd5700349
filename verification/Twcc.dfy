/** The loops that count the symbols of a feedback. */
module Twcc {
  import opened Arith
  import opened Bytes
  import opened TwccSpec

  /** Counts the symbols of one chunk as far as the packet count allows. */
  method CountChunk(chunk: nat, room: nat) returns (lost: nat, received: nat)
    ensures var n := Min(room, |Symbols(chunk)|);
      lost == Zeros(Symbols(chunk)[..n]) && lost + received == n
  {
    lost, received := 0, 0;
    ghost var all := Symbols(chunk);
    if chunk / 0x8000 == 0 {
      var run := chunk % 0x2000;
      var symbol := chunk / 0x2000 % 4;
      if run > room { run := room; }
      ZerosOfRun(symbol, run);
      assert all[..run] == Rep(symbol, run);
      if symbol == 0 { lost := run; } else { received := run; }
    } else if chunk / 0x4000 % 2 == 0 {
      lost, received := CountOneBit(chunk, room);
    } else {
      lost, received := CountTwoBit(chunk, room);
    }
  }

  lemma NoneCounted(s: seq<nat>)
    ensures Zeros(s[..0]) == 0
  {
  }

  lemma OneMore(s: seq<nat>, k: nat)
    requires k < |s|
    ensures Zeros(s[..k + 1]) == Zeros(s[..k]) + if s[k] == 0 then 1 else 0
  {
    assert s[..k + 1][..k] == s[..k];
  }

  lemma OneBitSymbols(chunk: nat)
    requires chunk / 0x8000 != 0 && chunk / 0x4000 % 2 == 0
    ensures |Symbols(chunk)| == 14 && forall i :: 0 <= i < 14 ==> Symbols(chunk)[i] == chunk / Pow2(13 - i) % 2
  {
    hide Pow2;
  }

  lemma TwoBitSymbols(chunk: nat)
    requires chunk / 0x8000 != 0 && chunk / 0x4000 % 2 != 0
    ensures |Symbols(chunk)| == 7 && forall i :: 0 <= i < 7 ==> Symbols(chunk)[i] == chunk / Pow2(12 - 2 * i) % 4
  {
    hide Pow2;
  }

  method CountOneBit(chunk: nat, room: nat) returns (lost: nat, received: nat)
    requires chunk / 0x8000 != 0 && chunk / 0x4000 % 2 == 0
    ensures var n := Min(room, |Symbols(chunk)|);
      lost == Zeros(Symbols(chunk)[..n]) && lost + received == n
  {
    lost, received := 0, 0;
    var symbol: nat := 0;
    ghost var all := Symbols(chunk);
    OneBitSymbols(chunk);
    hide Symbols, Zeros, Pow2;
    NoneCounted(all);
    while symbol < 14 && symbol < room
      invariant symbol <= 14 && symbol <= room
      invariant lost == Zeros(all[..symbol]) && lost + received == symbol
    {
      OneMore(all, symbol);
      if chunk / Pow2(13 - symbol) % 2 == 0 { lost := lost + 1; } else { received := received + 1; }
      symbol := symbol + 1;
    }
  }

  method CountTwoBit(chunk: nat, room: nat) returns (lost: nat, received: nat)
    requires chunk / 0x8000 != 0 && chunk / 0x4000 % 2 != 0
    ensures var n := Min(room, |Symbols(chunk)|);
      lost == Zeros(Symbols(chunk)[..n]) && lost + received == n
  {
    lost, received := 0, 0;
    var symbol: nat := 0;
    ghost var all := Symbols(chunk);
    TwoBitSymbols(chunk);
    hide Symbols, Zeros, Pow2;
    NoneCounted(all);
    while symbol < 7 && symbol < room
      invariant symbol <= 7 && symbol <= room
      invariant lost == Zeros(all[..symbol]) && lost + received == symbol
    {
      OneMore(all, symbol);
      if chunk / Pow2(12 - 2 * symbol) % 4 == 0 { lost := lost + 1; } else { received := received + 1; }
      symbol := symbol + 1;
    }
  }

  /**
   Summarises one feedback packet: the packets lost and received are those of the first `count`
   symbols, so together they are the packet count or all the symbols there are, if fewer.
   */
  method ParseTwcc(b: seq<byte>) returns (base: nat, count: nat, lost: nat, received: nat)
    ensures |b| < 20 ==> base == 0 && count == 0 && lost == 0 && received == 0
    ensures |b| >= 20 ==>
      && base == Read16(b, 12) && count == Read16(b, 14)
      && lost == Zeros(Reported(b, count))
      && lost + received == |Reported(b, count)|
  {
    base, count, lost, received := 0, 0, 0, 0;
    if |b| < 20 { return; }
    base, count := Read16(b, 12), Read16(b, 14);
    var p: nat := 20;
    var parsed: nat := 0;
    ghost var seen: seq<nat> := [];
    CountStart(b, count);
    hide Read16, Counted, Symbols, Zeros, Reported;
    while parsed < count && p + 2 <= |b|
      invariant Counted(b, p, seen, parsed, count, lost) && lost + received == parsed
      decreases |b| - p
    {
      var more, got := CountChunk(Read16(b, p), count - parsed);
      CountStep(b, p, seen, parsed, count, lost, more, got);
      seen := seen + Symbols(Read16(b, p));
      p := p + 2;
      lost, received, parsed := lost + more, received + got, parsed + more + got;
    }
    CountEnd(b, p, seen, parsed, count, lost);
  }

  /** The chunks before `p` stand for `seen`, and as many of it as are asked for are counted. */
  predicate Counted(b: seq<byte>, p: nat, seen: seq<nat>, parsed: nat, count: nat, lost: nat) {
    && Expand(Chunks(b, 20)) == seen + Expand(Chunks(b, p))
    && parsed == Min(count, |seen|) && lost == Zeros(seen[..parsed])
  }

  lemma CountStart(b: seq<byte>, count: nat)
    ensures Counted(b, 20, [], 0, count, 0)
  {
    hide Symbols, Expand, Chunks;
    assert [] + Expand(Chunks(b, 20)) == Expand(Chunks(b, 20));
  }

  /** Counting one more chunk. */
  lemma CountStep(b: seq<byte>, p: nat, seen: seq<nat>, parsed: nat, count: nat, lost: nat, more: nat, got: nat)
    requires p + 2 <= |b| && Counted(b, p, seen, parsed, count, lost) && parsed < count
    requires var s := Symbols(Read16(b, p)); var n := Min(count - parsed, |s|); more == Zeros(s[..n]) && more + got == n
    ensures Counted(b, p + 2, seen + Symbols(Read16(b, p)), parsed + more + got, count, lost + more)
  {
    hide Symbols, Expand, Chunks, Zeros;
    OneChunk(b, p);
    CountMore(seen, Symbols(Read16(b, p)), Expand(Chunks(b, p + 2)), parsed, count, more + got);
  }

  lemma CountMore(seen: seq<nat>, s: seq<nat>, rest: seq<nat>, parsed: nat, count: nat, n: nat)
    requires parsed == Min(count, |seen|) && parsed < count && n == Min(count - parsed, |s|)
    ensures seen + (s + rest) == (seen + s) + rest
    ensures parsed + n == Min(count, |seen + s|)
    ensures Zeros((seen + s)[..parsed + n]) == Zeros(seen[..parsed]) + Zeros(s[..n])
  {
    hide Zeros;
    assert seen[..parsed] == seen;
    ZerosOfConcat(seen, s[..n]);
    assert (seen + s)[..parsed + n] == seen + s[..n];
  }

  lemma CountEnd(b: seq<byte>, p: nat, seen: seq<nat>, parsed: nat, count: nat, lost: nat)
    requires Counted(b, p, seen, parsed, count, lost) && (parsed < count ==> p + 2 > |b|)
    ensures lost == Zeros(Reported(b, count)) && parsed == |Reported(b, count)|
  {
    hide Symbols, Zeros;
    if parsed < count { assert Chunks(b, p) == []; }
    assert seen[..parsed] == Reported(b, count);
  }

  lemma OneChunk(b: seq<byte>, p: nat)
    requires p + 2 <= |b|
    ensures Expand(Chunks(b, p)) == Symbols(Read16(b, p)) + Expand(Chunks(b, p + 2))
  {
    hide Symbols;
    assert Chunks(b, p)[1..] == Chunks(b, p + 2);
  }
}
