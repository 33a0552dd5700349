/** The variable-length byte ring, and that it is a FIFO queue of byte strings. */
module VRing {
  // Entries are a 4-byte length followed by the payload, laid out in a circular arena where prefix and
  // payload may both straddle the end.

  import opened Arith
  import opened Bytes

  // ---------------------------------------------------------------- the queue

  /** Bytes an entry takes in the arena. */
  function Cost(x: seq<byte>): nat { 4 + |x| }

  function TotalCost(q: seq<seq<byte>>): nat {
    if q == [] then 0 else Cost(q[0]) + TotalCost(q[1..])
  }

  datatype Queue = Queue(cap: nat, items: seq<seq<byte>>)

  /** A push is taken exactly when the entry fits into the free bytes. */
  predicate Fits(q: Queue, x: seq<byte>) { x != [] && TotalCost(q.items) + Cost(x) <= q.cap }

  function Pushed(q: Queue, x: seq<byte>): Queue {
    if Fits(q, x) then q.(items := q.items + [x]) else q
  }

  /** A pop needs an entry, and room for it at the caller. */
  predicate Poppable(q: Queue, room: nat) { q.items != [] && |q.items[0]| <= room }

  function Popped(q: Queue, room: nat): Queue {
    if Poppable(q, room) then q.(items := q.items[1..]) else q
  }

  datatype Op = PushOp(x: seq<byte>) | PopOp(room: nat)

  datatype Log = Log(q: Queue, accepted: seq<seq<byte>>, taken: seq<seq<byte>>)

  function Step(l: Log, op: Op): Log {
    match op
    case PushOp(x) => l.(q := Pushed(l.q, x), accepted := if Fits(l.q, x) then l.accepted + [x] else l.accepted)
    case PopOp(room) =>
      l.(q := Popped(l.q, room), taken := if Poppable(l.q, room) then l.taken + [l.q.items[0]] else l.taken)
  }

  function Run(l: Log, ops: seq<Op>): Log
    decreases |ops|
  {
    if ops == [] then l else Run(Step(l, ops[0]), ops[1..])
  }

  lemma {:induction false} TotalCostAppend(q: seq<seq<byte>>, x: seq<byte>)
    ensures TotalCost(q + [x]) == TotalCost(q) + Cost(x)
  {
    if q == [] {
      assert q + [x] == [x];
    } else {
      assert (q + [x])[1..] == q[1..] + [x];
      TotalCostAppend(q[1..], x);
    }
  }

  /** First in, first out, over every run: what was taken followed by what waits is what was accepted. */
  lemma {:induction false} RunIsFifo(l: Log, ops: seq<Op>)
    requires l.taken + l.q.items == l.accepted && TotalCost(l.q.items) <= l.q.cap
    ensures var m := Run(l, ops); m.taken + m.q.items == m.accepted && TotalCost(m.q.items) <= m.q.cap
    decreases |ops|
  {
    if ops != [] {
      if ops[0].PushOp? {
        TotalCostAppend(l.q.items, ops[0].x);
        assert l.taken + (l.q.items + [ops[0].x]) == l.accepted + [ops[0].x];
      } else if Poppable(l.q, ops[0].room) {
        assert l.taken + [l.q.items[0]] + l.q.items[1..] == l.accepted;
      }
      RunIsFifo(Step(l, ops[0]), ops[1..]);
    }
  }

  // ---------------------------------------------------------------- circular layout

  /** Position `i` of a ring of `cap` cells, for an index less than two turns. */
  function Wrap(i: nat, cap: nat): nat { if i < cap then i else i - cap }

  /** The head moves on by what is added behind it. */
  lemma WrapTwice(tail: nat, used: nat, more: nat, cap: nat)
    requires tail < cap && used + more <= cap
    ensures (Wrap(tail + used, cap) + more) % cap == Wrap(tail + (used + more), cap)
  {
    WrapIsMod(Wrap(tail + used, cap) + more, cap);
  }

  /** The head stays where it is when the tail moves towards it. */
  lemma WrapAgain(tail: nat, gone: nat, used: nat, cap: nat)
    requires tail < cap && gone <= used <= cap
    ensures (tail + gone) % cap == Wrap(tail + gone, cap) < cap
    ensures Wrap(Wrap(tail + gone, cap) + (used - gone), cap) == Wrap(tail + used, cap)
  {
    WrapIsMod(tail + gone, cap);
  }

  lemma WrapIsMod(i: nat, cap: nat)
    requires 0 < cap && i < 2 * cap
    ensures i % cap == Wrap(i, cap)
  {
    if i >= cap { QuotientUnique(i, cap, 1, i - cap); }
  }

  /** `n` cells read around the ring from `off`. */
  function Around(buf: seq<byte>, off: nat, n: nat): (r: seq<byte>)
    requires off < |buf| && n <= |buf|
    ensures |r| == n && forall i :: 0 <= i < n ==> r[i] == buf[Wrap(off + i, |buf|)]
  {
    seq(n, i requires 0 <= i < n => buf[Wrap(off + i, |buf|)])
  }

  /** How far cell `j` lies behind `off` in ring order. */
  function Rank(j: nat, off: nat, cap: nat): int { if j >= off then j - off else j + cap - off }

  /** `b` is `a` with `src` written around the ring from `off`. */
  predicate Written(a: seq<byte>, b: seq<byte>, off: nat, src: seq<byte>)
    requires |a| == |b| && off < |a| && |src| <= |a|
  {
    forall j :: 0 <= j < |a| ==> b[j] == if Rank(j, off, |a|) < |src| then src[Rank(j, off, |a|)] else a[j]
  }

  /** Writing behind the used part leaves it alone and extends it. */
  lemma WriteExtends(a: seq<byte>, b: seq<byte>, tail: nat, used: nat, src: seq<byte>)
    requires |a| == |b| && tail < |a| && used + |src| <= |a| && used < |a|
    requires Written(a, b, Wrap(tail + used, |a|), src)
    ensures Around(b, tail, used + |src|) == Around(a, tail, used) + src
  {
    var off := Wrap(tail + used, |a|);
    forall i | 0 <= i < used + |src|
      ensures Around(b, tail, used + |src|)[i] == (Around(a, tail, used) + src)[i]
    {
      var j := Wrap(tail + i, |a|);
      assert Rank(j, off, |a|) == if i >= used then i - used else i - used + |a|;
    }
  }

  lemma AroundSplit(buf: seq<byte>, off: nat, m: nat, n: nat)
    requires off < |buf| && m + n <= |buf| && m < |buf|
    ensures Around(buf, off, m + n) == Around(buf, off, m) + Around(buf, Wrap(off + m, |buf|), n)
  {
    var l, r := Around(buf, off, m + n), Around(buf, off, m) + Around(buf, Wrap(off + m, |buf|), n);
    forall i | 0 <= i < m + n ensures l[i] == r[i] {
    }
  }

  lemma SplitConcat<T>(a: seq<T>, b: seq<T>, c: seq<T>, d: seq<T>)
    requires |a| == |c| && a + b == c + d
    ensures a == c && b == d
  {
    assert a == (a + b)[..|a|] && b == (a + b)[|a|..];
    assert c == (c + d)[..|c|] && d == (c + d)[|c|..];
  }

  /** `k` octets of a number, low octet first, and the number they stand for. */
  function Octets(n: nat, k: nat): (r: seq<byte>)
    ensures |r| == k
  {
    if k == 0 then [] else [n % 256] + Octets(n / 256, k - 1)
  }

  function Value(b: seq<byte>): nat {
    if b == [] then 0 else b[0] as int + 256 * Value(b[1..])
  }

  function Power(k: nat): nat { if k == 0 then 1 else 256 * Power(k - 1) }

  lemma {:induction false} OctetsRoundTrip(n: nat, k: nat)
    requires n < Power(k)
    ensures Value(Octets(n, k)) == n
  {
    if k > 0 {
      OctetsRoundTrip(n / 256, k - 1);
      assert Octets(n, k)[1..] == Octets(n / 256, k - 1);
    }
  }

  /** The 32-bit length prefix. */
  function LengthBytes(n: nat): (r: seq<byte>)
    requires n < U32
    ensures |r| == 4
  {
    Octets(n, 4)
  }

  lemma LengthRoundTrip(n: nat)
    requires n < U32
    ensures Value(LengthBytes(n)) == n
  {
    assert Power(4) == 256 * Power(3) && Power(2) == 256 * Power(1) && Power(1) == 256;
    OctetsRoundTrip(n, 4);
  }

  /** The arena bytes of a queue. */
  function Flat(q: seq<seq<byte>>): (r: seq<byte>)
    requires forall x :: x in q ==> |x| < 0x1_0000_0000
    ensures |r| == TotalCost(q)
  {
    if q == [] then [] else LengthBytes(|q[0]|) + q[0] + Flat(q[1..])
  }

  lemma {:induction false} FlatAppend(q: seq<seq<byte>>, x: seq<byte>)
    requires (forall y :: y in q ==> |y| < 0x1_0000_0000) && |x| < 0x1_0000_0000
    ensures Flat(q + [x]) == Flat(q) + (LengthBytes(|x|) + x)
  {
    if q == [] {
      assert q + [x] == [x] && Flat([x][1..]) == [];
    } else {
      assert (q + [x])[1..] == q[1..] + [x];
      FlatAppend(q[1..], x);
    }
  }

  /** Prefix and payload written one after the other extend the used part by the entry. */
  lemma EntryExtends(a: seq<byte>, m: seq<byte>, b: seq<byte>, tail: nat, used: nat, x: seq<byte>)
    requires 0 < |x| < U32 && |a| == |m| == |b| && tail < |a| && used + 4 + |x| <= |a|
    requires Written(a, m, Wrap(tail + used, |a|), LengthBytes(|x|))
    requires Written(m, b, Wrap(tail + used + 4, |a|), x)
    ensures Around(b, tail, used + 4 + |x|) == Around(a, tail, used) + (LengthBytes(|x|) + x)
  {
    WriteExtends(a, m, tail, used, LengthBytes(|x|));
    WriteExtends(m, b, tail, used + 4, x);
    assert Around(a, tail, used) + LengthBytes(|x|) + x == Around(a, tail, used) + (LengthBytes(|x|) + x);
  }

  /** Reading around the ring splits like the bytes that lie there. */
  lemma AroundSplits(buf: seq<byte>, off: nat, x: seq<byte>, y: seq<byte>)
    requires off < |buf| && |x| < |buf| && |x| + |y| <= |buf|
    requires Around(buf, off, |x| + |y|) == x + y
    ensures Around(buf, off, |x|) == x && Around(buf, Wrap(off + |x|, |buf|), |y|) == y
  {
    AroundSplit(buf, off, |x|, |y|);
    SplitConcat(Around(buf, off, |x|), Around(buf, Wrap(off + |x|, |buf|), |y|), x, y);
  }

  lemma FrontSplits(buf: seq<byte>, tail: nat, p: seq<byte>, x: seq<byte>, rest: seq<byte>)
    requires tail < |buf| && 0 < |p| && 0 < |x| && |p| + |x| + |rest| <= |buf|
    requires Around(buf, tail, |p| + |x| + |rest|) == p + x + rest
    ensures Around(buf, tail, |p|) == p && Around(buf, Wrap(tail + |p|, |buf|), |x|) == x
    ensures Around(buf, Wrap(tail + |p| + |x|, |buf|), |rest|) == rest
  {
    assert p + x + rest == p + (x + rest);
    AroundSplits(buf, tail, p, x + rest);
    AroundSplits(buf, Wrap(tail + |p|, |buf|), x, rest);
  }

  /** The oldest entry lies at the tail: prefix, payload, then the younger entries. */
  lemma FrontEntry(buf: seq<byte>, tail: nat, used: nat, q: seq<seq<byte>>)
    requires tail < |buf| && used <= |buf| && q != [] && (forall x :: x in q ==> 0 < |x| < U32)
    requires Around(buf, tail, used) == Flat(q)
    ensures var n := |q[0]|;
      && 0 < n < U32 && 4 + n <= used
      && Around(buf, tail, 4) == LengthBytes(n)
      && Around(buf, Wrap(tail + 4, |buf|), n) == q[0]
      && Around(buf, Wrap(tail + 4 + n, |buf|), used - 4 - n) == Flat(q[1..])
  {
    assert q[0] in q;
    assert |Flat(q)| == used;
    FrontSplits(buf, tail, LengthBytes(|q[0]|), q[0], Flat(q[1..]));
  }

  // ---------------------------------------------------------------- the ring

  const MAX_CAPACITY := 0x8000_0000

  class VRing {
    const buf: array<byte>
    var head: nat
    var tail: nat
    var bytes: nat
    ghost var items: seq<seq<byte>>

    ghost predicate Valid()
      reads this, buf
    {
      && 0 < buf.Length <= MAX_CAPACITY
      && tail < buf.Length && bytes <= buf.Length
      && head == Wrap(tail + bytes, buf.Length)
      && (forall x :: x in items ==> 0 < |x| < 0x1_0000_0000)
      && Around(buf[..], tail, bytes) == Flat(items)
    }

    ghost function Contents(): Queue
      reads this, buf
    {
      Queue(buf.Length, items)
    }

    constructor (capacity: nat)
      requires 0 < capacity <= MAX_CAPACITY
      ensures Valid() && fresh(buf) && Contents() == Queue(capacity, [])
    {
      buf := new byte[capacity](_ => 0);
      head, tail, bytes, items := 0, 0, 0, [];
    }

    predicate Empty()
      reads this
    {
      bytes == 0
    }

    lemma EmptyMeansNoItems()
      requires Valid()
      ensures Empty() <==> items == []
      ensures bytes == TotalCost(items)
    {
      assert |Flat(items)| == TotalCost(items);
    }

    /** Copies `src` into the arena from `off`, in two pieces when it crosses the end. */
    method WriteAt(off: nat, src: seq<byte>)
      requires off < buf.Length && |src| <= buf.Length
      modifies buf
      ensures Written(old(buf[..]), buf[..], off, src)
    {
      var first := buf.Length - off;
      if first > |src| { first := |src|; }
      forall i | 0 <= i < first { buf[off + i] := src[i]; }
      if first < |src| {
        forall i | 0 <= i < |src| - first { buf[i] := src[first + i]; }
      }
    }

    method ReadAt(off: nat, n: nat) returns (dst: seq<byte>)
      requires off < buf.Length && n <= buf.Length
      ensures dst == Around(buf[..], off, n)
    {
      var first := buf.Length - off;
      if first > n { first := n; }
      dst := buf[off..off + first];
      if first < n { dst := dst + buf[..n - first]; }
    }

    /** Lays out prefix and payload behind the used bytes. */
    method WriteEntry(data: seq<byte>)
      requires 0 < |data| < U32 && 0 < buf.Length && tail < buf.Length && bytes + 4 + |data| <= buf.Length
      requires head == Wrap(tail + bytes, buf.Length)
      modifies buf
      ensures Around(buf[..], tail, bytes + 4 + |data|)
           == old(Around(buf[..], tail, bytes)) + (LengthBytes(|data|) + data)
    {
      ghost var a := buf[..];
      WriteAt(head, LengthBytes(|data|));
      ghost var m := buf[..];
      WrapIsMod(head + 4, buf.Length);
      WriteAt((head + 4) % buf.Length, data);
      EntryExtends(a, m, buf[..], tail, bytes, data);
    }

    /** The 32-bit sum of prefix, payload and used bytes must not wrap. */
    method Push(data: seq<byte>) returns (ok: bool)
      requires Valid() && 4 + |data| + bytes < U32
      modifies this, buf
      ensures Valid() && Contents() == Pushed(old(Contents()), data)
      ensures ok == Fits(old(Contents()), data)
    {
      EmptyMeansNoItems();
      if |data| == 0 { return false; }
      var total := 4 + |data|;
      if bytes + total > buf.Length { return false; }
      Append(data);
      return true;
    }

    /** Writes the entry and moves the head. */
    method Append(data: seq<byte>)
      requires Valid() && 0 < |data| < U32 && bytes + 4 + |data| <= buf.Length
      modifies `head, `bytes, `items, buf
      ensures Valid() && items == old(items) + [data]
    {
      hide Around, LengthBytes, Flat, Wrap;
      WriteEntry(data);
      WrapTwice(tail, bytes, 4 + |data|, buf.Length);
      FlatAppend(items, data);
      head := (head + (4 + |data|)) % buf.Length;
      bytes := bytes + (4 + |data|);
      items := items + [data];
    }

    /** The length of the oldest entry. */
    method FrontLength() returns (len: nat)
      requires Valid() && items != []
      ensures len == |items[0]| && 4 + len <= bytes
    {
      FrontEntry(buf[..], tail, bytes, items);
      hide Around, LengthBytes, Flat, Wrap, Value;
      LengthRoundTrip(|items[0]|);
      var prefix := ReadAt(tail, 4);
      len := Value(prefix);
    }

    /** Copies the oldest entry out. */
    method FrontData(len: nat) returns (out: seq<byte>)
      requires Valid() && items != [] && len == |items[0]|
      ensures out == items[0]
    {
      FrontEntry(buf[..], tail, bytes, items);
      WrapIsMod(tail + 4, buf.Length);
      hide Around, LengthBytes, Flat, Wrap;
      out := ReadAt((tail + 4) % buf.Length, len);
    }

    /** Moves the tail past the oldest entry. */
    method DropFront(len: nat)
      requires Valid() && items != [] && len == |items[0]|
      modifies `tail, `bytes, `items
      ensures Valid() && items == old(items)[1..]
    {
      FrontEntry(buf[..], tail, bytes, items);
      WrapAgain(tail, 4 + len, bytes, buf.Length);
      hide Around, LengthBytes, Flat, Wrap;
      tail := (tail + (4 + len)) % buf.Length;
      bytes := bytes - (4 + len);
      items := items[1..];
    }

    method Pop(room: nat) returns (ok: bool, out: seq<byte>)
      requires Valid()
      modifies this
      ensures Valid() && Contents() == Popped(old(Contents()), room)
      ensures ok == Poppable(old(Contents()), room)
      ensures ok ==> out == old(items)[0]
    {
      EmptyMeansNoItems();
      if bytes == 0 { return false, []; }
      var len := FrontLength();
      if len > room { return false, []; }
      out := FrontData(len);
      DropFront(len);
      return true, out;
    }
  }
}
