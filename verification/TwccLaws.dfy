/** Congestion-control feedback as its sender writes it, and what the summary makes of it. */
module TwccLaws {
  // Sections 3.1.3 and 3.1.4 of draft-holmer-rmcat-transport-wide-cc-extensions-01: a chunk is a number of sixteen
  // bits, written here by its digits.

  import opened Arith
  import opened Bytes
  import opened TwccSpec

  /** A run of one symbol; fourteen symbols of one bit; seven symbols of two bits. */
  datatype Chunk = Run(symbol: nat, n: nat) | OneBit(bits: seq<nat>) | TwoBit(pairs: seq<nat>)

  predicate Digits(ds: seq<nat>, base: nat) { forall i :: 0 <= i < |ds| ==> ds[i] < base }

  predicate ChunkOk(c: Chunk) {
    match c
    case Run(symbol, n) => symbol < 4 && n < 0x2000
    case OneBit(bits) => |bits| == 14 && Digits(bits, 2)
    case TwoBit(pairs) => |pairs| == 7 && Digits(pairs, 4)
  }

  /** The number with these digits, the highest first. */
  function Number(ds: seq<nat>, base: nat): nat {
    if ds == [] then 0 else base * Number(ds[..|ds| - 1], base) + ds[|ds| - 1]
  }

  function Word(c: Chunk): nat {
    match c
    case Run(symbol, n) => symbol * 0x2000 + n
    case OneBit(bits) => Number([1, 0] + bits, 2)
    case TwoBit(pairs) => Number([3] + pairs, 4)
  }

  function Told(c: Chunk): seq<nat> {
    match c
    case Run(symbol, n) => seq(n, _ => symbol)
    case OneBit(bits) => bits
    case TwoBit(pairs) => pairs
  }

  // ---------------------------------------------------------------- digits

  function Power(base: nat, n: nat): (r: nat)
    requires base > 0
    ensures r > 0
  {
    if n == 0 then 1 else
      MulPositive(base, Power(base, n - 1));
      base * Power(base, n - 1)
  }

  lemma MulPositive(a: nat, b: nat)
    requires a > 0 && b > 0
    ensures a * b > 0
  {
  }

  /** Dividing by a product is dividing twice. */
  lemma DivTwice(n: nat, a: nat, b: nat)
    requires a > 0 && b > 0
    ensures a * b > 0 && n / (a * b) == n / a / b
  {
    MulPositive(a, b);
    var q, r := n / a, n % a;
    var p, s := q / b, q % b;
    Parts(n, a);
    Parts(q, b);
    Unfold(n, a, b, p, s, r);
    QuotientUnique(n, a * b, p, a * s + r);
  }

  lemma Parts(n: nat, a: nat)
    requires a > 0
    ensures n == a * (n / a) + n % a && n % a < a
  {
  }

  lemma Unfold(n: nat, a: nat, b: nat, p: nat, s: nat, r: nat)
    requires n == a * (b * p + s) + r && s < b && r < a
    ensures n == (a * b) * p + (a * s + r) && 0 <= a * s + r < a * b
  {
    MulStep(a, s, b);
    assert a * (b * p + s) == a * (b * p) + a * s;
    assert a * (b * p) == (a * b) * p;
  }

  /** Digit `k` from the right, by division. */
  lemma {:induction false} DigitAt(ds: seq<nat>, base: nat, k: nat)
    requires base > 0 && Digits(ds, base) && k < |ds|
    ensures Number(ds, base) / Power(base, k) % base == ds[|ds| - 1 - k]
    decreases k
  {
    var n, last := Number(ds[..|ds| - 1], base), ds[|ds| - 1];
    QuotientUnique(base * n + last, base, n, last);
    if k > 0 {
      DivTwice(Number(ds, base), base, Power(base, k - 1));
      DigitAt(ds[..|ds| - 1], base, k - 1);
    }
  }

  lemma {:induction false} PowersOfTwo(n: nat)
    ensures Power(2, n) == Pow2(n) && Power(4, n) == Pow2(2 * n)
  {
    if n > 0 {
      PowersOfTwo(n - 1);
      assert Pow2(2 * n) == 2 * Pow2(2 * n - 1);
    }
  }

  // ---------------------------------------------------------------- chunks

  lemma TopBits()
    ensures Power(2, 15) == 0x8000 && Power(2, 14) == 0x4000 && Power(4, 7) == 0x4000
  {
    PowersOfTwo(15);
    PowersOfTwo(14);
    PowersOfTwo(7);
    assert Pow2(15) == 0x8000;
  }

  /** Two leading digits tell a chunk of single bits from a run and from one of pairs. */
  lemma OneBitKind(ds: seq<nat>)
    requires |ds| == 16 && Digits(ds, 2) && ds[0] == 1 && ds[1] == 0
    ensures Number(ds, 2) / 0x8000 != 0 && Number(ds, 2) / 0x4000 % 2 == 0
  {
    hide Number, Power, Digits;
    TopBits();
    DigitAt(ds, 2, 15);
    DigitAt(ds, 2, 14);
  }

  lemma TwoBitKind(ds: seq<nat>)
    requires |ds| == 8 && Digits(ds, 4) && ds[0] == 3
    ensures Number(ds, 4) / 0x8000 != 0 && Number(ds, 4) / 0x4000 % 2 != 0
  {
    hide Number, Power, Digits;
    TopBits();
    DigitAt(ds, 4, 7);
    TopPair(Number(ds, 4));
  }

  lemma TopPair(n: nat)
    requires n / 0x4000 % 4 == 3
    ensures n / 0x8000 != 0 && n / 0x4000 % 2 != 0
  {
  }

  lemma OneBitIsTold(bits: seq<nat>)
    requires ChunkOk(OneBit(bits))
    ensures Symbols(Word(OneBit(bits))) == bits
  {
    var ds := [1, 0] + bits;
    OneBitKind(ds);
    forall i | 0 <= i < 14 ensures Number(ds, 2) / Pow2(13 - i) % 2 == bits[i] {
      DigitAt(ds, 2, 13 - i);
      PowersOfTwo(13 - i);
      hide Number, Power, Pow2;
    }
    hide Number, Pow2;
    assert Word(OneBit(bits)) == Number(ds, 2);
  }

  lemma PairAt(ds: seq<nat>, i: nat)
    requires |ds| == 8 && Digits(ds, 4) && i < 7
    ensures Number(ds, 4) / Pow2(12 - 2 * i) % 4 == ds[i + 1]
  {
    hide Number, Power, Pow2, Digits;
    DigitAt(ds, 4, 6 - i);
    PowersOfTwo(6 - i);
    assert 2 * (6 - i) == 12 - 2 * i;
  }

  lemma TwoBitIsTold(pairs: seq<nat>)
    requires ChunkOk(TwoBit(pairs))
    ensures Symbols(Word(TwoBit(pairs))) == pairs
  {
    hide Number, Pow2;
    var ds := [3] + pairs;
    TwoBitKind(ds);
    forall i | 0 <= i < 7 ensures Number(ds, 4) / Pow2(12 - 2 * i) % 4 == pairs[i] { PairAt(ds, i); }
    PairSymbols(Number(ds, 4), pairs);
  }

  lemma PairSymbols(n: nat, pairs: seq<nat>)
    requires n / 0x8000 != 0 && n / 0x4000 % 2 != 0 && |pairs| == 7
    requires forall i :: 0 <= i < 7 ==> n / Pow2(12 - 2 * i) % 4 == pairs[i]
    ensures Symbols(n) == pairs
  {
    hide Pow2;
  }

  /** Every chunk expands to the symbols it was written for. */
  lemma ChunkIsTold(c: Chunk)
    requires ChunkOk(c)
    ensures Symbols(Word(c)) == Told(c)
  {
    match c {
      case Run(symbol, n) => RunMeans(symbol, n);
      case OneBit(bits) => OneBitIsTold(bits);
      case TwoBit(pairs) => TwoBitIsTold(pairs);
    }
    hide Number, Pow2;
  }

  lemma WordFits(c: Chunk)
    requires ChunkOk(c)
    ensures Word(c) < U16
  {
    match c {
      case Run(symbol, n) =>
      case OneBit(bits) => NumberFits([1, 0] + bits, 2);
      case TwoBit(pairs) => NumberFits([3] + pairs, 4);
    }
    hide Number;
    SixteenBits();
  }

  lemma SixteenBits()
    ensures Power(2, 16) == U16 && Power(4, 8) == U16
  {
    PowersOfTwo(16);
    PowersOfTwo(8);
    assert Pow2(16) == U16;
  }

  lemma {:induction false} NumberFits(ds: seq<nat>, base: nat)
    requires base > 0 && Digits(ds, base)
    ensures Number(ds, base) < Power(base, |ds|)
  {
    if ds != [] {
      var n := Number(ds[..|ds| - 1], base);
      NumberFits(ds[..|ds| - 1], base);
      MulStep(base, n, Power(base, |ds| - 1));
    }
  }

  // ---------------------------------------------------------------- feedback

  predicate ChunksOk(cs: seq<Chunk>) { forall i :: 0 <= i < |cs| ==> ChunkOk(cs[i]) }

  function Words(cs: seq<Chunk>): (r: seq<byte>)
    requires ChunksOk(cs)
    ensures |r| == 2 * |cs|
  {
    if cs == [] then []
    else
      WordFits(cs[0]);
      Be16(Word(cs[0])) + Words(cs[1..])
  }

  function ToldAll(cs: seq<Chunk>): seq<nat> { if cs == [] then [] else Told(cs[0]) + ToldAll(cs[1..]) }

  /** The chunks of a feedback are read as they were written, and then what follows them. */
  lemma {:induction false} WordsExpand(b: seq<byte>, pos: nat, cs: seq<Chunk>, rest: seq<byte>)
    requires ChunksOk(cs) && pos <= |b| && b[pos..] == Words(cs) + rest
    ensures pos + 2 * |cs| <= |b| && Expand(Chunks(b, pos)) == ToldAll(cs) + Expand(Chunks(b, pos + 2 * |cs|))
    decreases |cs|
  {
    hide Word, Told, Symbols;
    if cs == [] {
      assert [] + Expand(Chunks(b, pos)) == Expand(Chunks(b, pos));
    } else {
      WordFits(cs[0]);
      ChunkIsTold(cs[0]);
      var w := Be16(Word(cs[0]));
      assert Words(cs) + rest == w + (Words(cs[1..]) + rest);
      assert b[pos..pos + 2] == b[pos..][..2] == w && b[pos + 2..] == b[pos..][2..];
      Read16Of(b, pos, Word(cs[0]));
      WordsExpand(b, pos + 2, cs[1..], rest);
      OneMoreChunk(b, pos, cs);
    }
  }

  lemma OneMoreChunk(b: seq<byte>, pos: nat, cs: seq<Chunk>)
    requires cs != [] && pos + 2 * |cs| <= |b| && Told(cs[0]) == Symbols(Read16(b, pos))
    requires Expand(Chunks(b, pos + 2)) == ToldAll(cs[1..]) + Expand(Chunks(b, pos + 2 * |cs|))
    ensures Expand(Chunks(b, pos)) == ToldAll(cs) + Expand(Chunks(b, pos + 2 * |cs|))
  {
    hide Symbols, Told;
    assert Chunks(b, pos)[1..] == Chunks(b, pos + 2);
  }

  function Lost(s: seq<nat>): set<nat> { set i | 0 <= i < |s| && s[i] == 0 }

  lemma LostStep(s: seq<nat>)
    requires s != []
    ensures var n := |s| - 1; n !in Lost(s[..n]) && Lost(s) == if s[n] == 0 then Lost(s[..n]) + {n} else Lost(s[..n])
  {
  }

  /** A lost packet is one whose symbol is zero. */
  lemma {:induction false} ZerosAreLost(s: seq<nat>)
    ensures Zeros(s) == |Lost(s)|
  {
    if s == [] {
      assert Lost(s) == {};
    } else {
      LostStep(s);
      ZerosAreLost(s[..|s| - 1]);
      hide Lost;
    }
  }

  /**
   The feedback a sender makes of a base, a packet count and chunks; `head` is everything before the
   base and `deltas` the arrival times behind the chunks.
   */
  function Feedback(head: seq<byte>, base: nat, count: nat, time: seq<byte>, cs: seq<Chunk>, deltas: seq<byte>): seq<byte>
    requires |head| == 12 && |time| == 4 && base < U16 && count < U16 && ChunksOk(cs)
  {
    head + Be16(base) + Be16(count) + time + Words(cs) + deltas
  }

  lemma FeedbackFields(head: seq<byte>, x: seq<byte>, y: seq<byte>, time: seq<byte>, w: seq<byte>, deltas: seq<byte>)
    requires |head| == 12 && |x| == |y| == 2 && |time| == 4
    ensures var b := head + x + y + time + w + deltas; b[12..14] == x && b[14..16] == y && b[20..] == w + deltas
  {
    InTwo(head + x + y + time, w, deltas);
  }

  lemma InTwo(front: seq<byte>, w: seq<byte>, deltas: seq<byte>)
    ensures (front + w + deltas)[|front|..] == w + deltas
  {
    assert front + w + deltas == front + (w + deltas);
  }

  lemma ReportedFront(b: seq<byte>, count: nat, told: seq<nat>, rest: seq<nat>)
    requires Expand(Chunks(b, 20)) == told + rest && count <= |told|
    ensures Reported(b, count) == told[..count]
  {
    hide Expand, Chunks;
    assert (told + rest)[..count] == told[..count];
  }

  lemma WordsReported(b: seq<byte>, count: nat, cs: seq<Chunk>, deltas: seq<byte>)
    requires ChunksOk(cs) && count <= |ToldAll(cs)| && |b| >= 20 && b[20..] == Words(cs) + deltas
    ensures Reported(b, count) == ToldAll(cs)[..count]
  {
    WordsExpand(b, 20, cs, deltas);
    ReportedFront(b, count, ToldAll(cs), Expand(Chunks(b, 20 + 2 * |cs|)));
    hide Words, Reported, Chunks, Expand;
  }

  /** Base and packet count are read as they were written. */
  lemma FeedbackSays(head: seq<byte>, base: nat, count: nat, time: seq<byte>, cs: seq<Chunk>, deltas: seq<byte>)
    requires |head| == 12 && |time| == 4 && base < U16 && count < U16 && ChunksOk(cs)
    ensures var b := Feedback(head, base, count, time, cs, deltas);
      |b| >= 20 && Read16(b, 12) == base && Read16(b, 14) == count && b[20..] == Words(cs) + deltas
  {
    hide Words, Read16, ChunksOk;
    var b := Feedback(head, base, count, time, cs, deltas);
    FeedbackFields(head, Be16(base), Be16(count), time, Words(cs), deltas);
    Read16Of(b, 12, base);
    Read16Of(b, 14, count);
  }

  /** What is reported is the first `count` of the symbols that were written, whatever follows them. */
  lemma FeedbackIsReported(head: seq<byte>, base: nat, count: nat, time: seq<byte>, cs: seq<Chunk>, deltas: seq<byte>)
    requires |head| == 12 && |time| == 4 && base < U16 && count < U16 && ChunksOk(cs) && count <= |ToldAll(cs)|
    ensures Reported(Feedback(head, base, count, time, cs, deltas), count) == ToldAll(cs)[..count]
  {
    FeedbackSays(head, base, count, time, cs, deltas);
    WordsReported(Feedback(head, base, count, time, cs, deltas), count, cs, deltas);
    hide Words, Reported, Feedback, Read16;
  }
}
