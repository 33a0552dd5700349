/** The loss summary of transport-wide congestion control feedback. */
module TwccSpec {
  // Sections 3.1.3 and 3.1.4 of draft-holmer-rmcat-transport-wide-cc-extensions-01: what the chunks mean
  // as a list of packet symbols, and the counts the receiver takes from it.

  import opened Arith
  import opened Bytes

  function Rep(symbol: nat, n: nat): seq<nat> { seq(n, _ => symbol) }

  /** The packet symbols a chunk stands for: a run, fourteen one-bit ones, or seven two-bit ones. */
  function Symbols(chunk: nat): seq<nat> {
    if chunk / 0x8000 == 0 then Rep(chunk / 0x2000 % 4, chunk % 0x2000)
    else if chunk / 0x4000 % 2 == 0 then seq(14, i requires 0 <= i < 14 => chunk / Pow2(13 - i) % 2)
    else seq(7, i requires 0 <= i < 7 => chunk / Pow2(12 - 2 * i) % 4)
  }

  function Chunks(b: seq<byte>, pos: nat): seq<nat>
    decreases |b| - pos
  {
    if pos + 2 <= |b| then [Read16(b, pos)] + Chunks(b, pos + 2) else []
  }

  function Expand(chunks: seq<nat>): seq<nat> {
    if chunks == [] then [] else Symbols(chunks[0]) + Expand(chunks[1..])
  }

  /** How many packets of a list were not received. */
  function Zeros(s: seq<nat>): (n: nat)
    ensures n <= |s|
  {
    if s == [] then 0 else Zeros(s[..|s| - 1]) + if s[|s| - 1] == 0 then 1 else 0
  }

  /** The symbols a feedback reports on: the first `count` of those its chunks expand to. */
  function Reported(b: seq<byte>, count: nat): (r: seq<nat>)
    ensures |r| == Min(count, |Expand(Chunks(b, 20))|)
  {
    var all := Expand(Chunks(b, 20));
    all[..Min(count, |all|)]
  }

  lemma {:induction false} ZerosOfConcat(a: seq<nat>, b: seq<nat>)
    ensures Zeros(a + b) == Zeros(a) + Zeros(b)
  {
    if b == [] {
      assert a + b == a;
    } else {
      ZerosOfConcat(a, b[..|b| - 1]);
      assert (a + b)[..|a + b| - 1] == a + b[..|b| - 1];
    }
  }

  lemma {:induction false} ZerosOfRun(symbol: nat, n: nat)
    ensures Zeros(Rep(symbol, n)) == if symbol == 0 then n else 0
  {
    if n > 0 {
      ZerosOfRun(symbol, n - 1);
      assert Rep(symbol, n)[..n - 1] == Rep(symbol, n - 1);
    }
  }

  /** Cutting a feedback into chunks differently does not change what it reports. */
  lemma {:induction false} ExpandOfConcat(a: seq<nat>, b: seq<nat>)
    ensures Expand(a + b) == Expand(a) + Expand(b)
  {
    hide Symbols;
    if a == [] {
      assert a + b == b;
    } else {
      ExpandOfConcat(a[1..], b);
      assert (a + b)[1..] == a[1..] + b && (a + b)[0] == a[0];
      assert Symbols(a[0]) + (Expand(a[1..]) + Expand(b)) == (Symbols(a[0]) + Expand(a[1..])) + Expand(b);
    }
  }

  /** A run of `n` equal symbols is the same feedback as two shorter runs. */
  lemma RunsMerge(symbol: nat, m: nat, n: nat)
    requires symbol < 4 && m + n < 0x2000
    ensures Expand([symbol * 0x2000 + m, symbol * 0x2000 + n]) == Expand([symbol * 0x2000 + m + n])
  {
    hide Symbols, Expand;
    RunMeans(symbol, m);
    RunMeans(symbol, n);
    RunMeans(symbol, m + n);
    ExpandOfTwo(symbol * 0x2000 + m, symbol * 0x2000 + n);
    ExpandOfOne(symbol * 0x2000 + m + n);
    assert Rep(symbol, m) + Rep(symbol, n) == Rep(symbol, m + n);
  }

  lemma ExpandOfOne(c: nat)
    ensures Expand([c]) == Symbols(c)
  {
    hide Symbols;
    assert [c][1..] == [];
  }

  lemma ExpandOfTwo(a: nat, b: nat)
    ensures Expand([a, b]) == Symbols(a) + Symbols(b)
  {
    hide Symbols;
    assert [a, b] == [a] + [b];
    ExpandOfConcat([a], [b]);
    ExpandOfOne(a);
    ExpandOfOne(b);
  }

  lemma RunMeans(symbol: nat, n: nat)
    requires symbol < 4 && n < 0x2000
    ensures Symbols(symbol * 0x2000 + n) == Rep(symbol, n)
  {
  }
}
