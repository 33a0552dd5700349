/** The engine over one machine: the current state, the caller's path buffer, what has been run. */
module Hsm {
  import opened Options
  import opened HsmSpec

  /** The next value of an 8-bit counter. */
  function Next8(n: nat): nat { (n + 1) % 256 }

  lemma RunOne(t: Table, s: Id)
    requires IsState(t, s)
    ensures Exits(t, [s]) == if t.nodes[s].hasExit then [Exited(s)] else []
    ensures Entries(t, [s]) == if t.nodes[s].hasEntry then [EnteredState(s)] else []
  {
    assert [s][1..] == [];
  }

  method GetStateDepth(t: Table, s: Option<Id>) returns (depth: nat)
    requires Forest(t) && Shallow(t) && (s.Some? ==> IsState(t, s.value))
    ensures depth == |UpOf(t, s)|
  {
    depth := 0;
    var iter := s;
    while iter.Some?
      invariant iter.Some? ==> IsState(t, iter.value)
      invariant depth + |UpOf(t, iter)| == |UpOf(t, s)| <= MAX_DEPTH
      decreases |UpOf(t, iter)|
    {
      depth := Next8(depth);
      iter := t.nodes[iter.value].parent;
    }
  }

  method FindCommon(t: Table, a: Option<Id>, b: Option<Id>) returns (r: Option<Id>)
    requires Forest(t) && Shallow(t) && (a.Some? ==> IsState(t, a.value)) && (b.Some? ==> IsState(t, b.value))
    ensures r == FindLca(t, a, b)
    ensures r.Some? ==> IsState(t, r.value)
  {
    if a.None? { return b; }
    if b.None? { return a; }
    var p, q := a, b;
    var dp := GetStateDepth(t, p);
    var dq := GetStateDepth(t, q);
    while dp > dq
      invariant p.Some? ==> IsState(t, p.value)
      invariant dp == |UpOf(t, p)|
      invariant Climb(t, p, Sub(dp, dq)) == Climb(t, a, Sub(|UpOf(t, a)|, dq))
      invariant dp <= dq ==> dp == |UpOf(t, a)| || dp == dq
    {
      p := t.nodes[p.value].parent;
      dp := dp - 1;
    }
    while dq > dp
      invariant q.Some? ==> IsState(t, q.value)
      invariant dq == |UpOf(t, q)|
      invariant Climb(t, q, Sub(dq, dp)) == Climb(t, b, Sub(|UpOf(t, b)|, dp))
      invariant dq <= dp ==> dq == |UpOf(t, b)| || dq == dp
    {
      q := t.nodes[q.value].parent;
      dq := dq - 1;
    }
    assert Meet(t, p, q) == FindLca(t, a, b);
    while p != q
      invariant p.Some? ==> IsState(t, p.value)
      invariant q.Some? ==> IsState(t, q.value)
      invariant |UpOf(t, p)| == |UpOf(t, q)|
      invariant Meet(t, p, q) == FindLca(t, a, b)
      decreases |UpOf(t, p)|
    {
      p, q := t.nodes[p.value].parent, t.nodes[q.value].parent;
    }
    r := p;
  }

  method FindMatching(ts: seq<Transition>, event: nat, pass: nat -> bool) returns (r: Option<Transition>)
    ensures r == Match(ts, event, pass)
  {
    r := None;
    var i := 0;
    while i < |ts| && r.None?
      invariant i <= |ts|
      invariant if r.None? then Match(ts, event, pass) == Match(ts[i..], event, pass) else r == Match(ts, event, pass)
    {
      assert ts[i..][1..] == ts[i + 1..];
      if ts[i].event == event && (ts[i].guard.None? || pass(ts[i].guard.value)) { r := Some(ts[i]); }
      i := i + 1;
    }
  }

  class Hsm {
    const table: Table
    const buffer: array<Id>
    const initial: Id
    var current: Option<Id>
    /** Whether a hook for unhandled events is set. */
    var hook: bool
    /** The actions run so far, in order. */
    var trace: seq<Event>
    /** The calls of the hook so far: the event, and the state it found. */
    var reported: seq<(nat, Option<Id>)>

    ghost function Value(): Machine
      reads `current, `trace
    {
      Machine(current, buffer.Length, trace)
    }

    ghost predicate Valid()
      reads `current
    {
      && Forest(table) && Shallow(table) && Targets(table) && 0 < buffer.Length < 256 && IsState(table, initial)
      && (current.Some? ==> IsState(table, current.value))
    }

    /** Starts in the initial state; its entry action does not run, for there is no source to come from. */
    constructor (t: Table, start: Id, size: nat, hasHook: bool)
      requires Forest(t) && Shallow(t) && Targets(t) && IsState(t, start) && 0 < size < 256
      ensures Valid() && fresh(buffer) && table == t && initial == start && buffer.Length == size
      ensures Value() == Machine(Some(start), size, []) && hook == hasHook && reported == []
    {
      table, buffer, initial, hook := t, new Id[size], start, hasHook;
      current, trace, reported := None, [], [];
      new;
      var ok := PerformTransition(start);
    }

    /** Records the path from the target up to `lca`; false when the buffer is too small for it. */
    method BuildEntryPath(target: Id, lca: Option<Id>) returns (ok: bool)
      requires Valid() && IsState(table, target)
      modifies buffer
      ensures var path := Below(Up(table, target), lca);
        ok == (|path| <= buffer.Length) && (ok ==> buffer[..|path|] == path)
    {
      ok := true;
      var idx: nat := 0;
      var iter: Option<Id> := Some(target);
      ghost var chain := Up(table, target);
      ghost var n := |Below(chain, lca)|;
      hide Below, Shallow, Forest, Targets, Up, At;
      PathStart(table, target, lca);
      while iter.Some? && iter != lca && ok
        invariant idx <= n && idx <= buffer.Length && iter == At(chain, idx)
        invariant buffer[..idx] == chain[..idx]
        invariant !ok ==> n > buffer.Length
        decreases n - idx, ok
      {
        PathStep(table, target, lca, idx);
        if idx < buffer.Length {
          buffer[idx] := iter.value;
          idx := Next8(idx);
          iter := table.nodes[iter.value].parent;
        } else {
          ok := false;
        }
      }
      if ok { PathStep(table, target, lca, idx); }
    }

    method PathLength(target: Id, lca: Option<Id>) returns (length: nat)
      requires Valid() && IsState(table, target) && |Below(Up(table, target), lca)| < 256
      ensures length == |Below(Up(table, target), lca)|
    {
      length := 0;
      var iter: Option<Id> := Some(target);
      ghost var chain := Up(table, target);
      ghost var n := |Below(chain, lca)|;
      hide Below, Shallow, Forest, Targets, Up, At;
      PathStart(table, target, lca);
      while iter.Some? && iter != lca
        invariant length <= n && iter == At(chain, length)
        decreases n - length
      {
        PathStep(table, target, lca, length);
        length := Next8(length);
        iter := table.nodes[iter.value].parent;
      }
      PathStep(table, target, lca, length);
    }

    method ExecuteExits(source: Option<Id>, lca: Option<Id>)
      requires Valid() && (source.Some? ==> IsState(table, source.value))
      modifies `trace
      ensures trace == old(trace) + Exits(table, Below(UpOf(table, source), lca))
    {
      var iter: Option<Id> := source;
      ghost var chain := UpOf(table, source);
      ghost var path := Below(chain, lca);
      ghost var n: nat := 0;
      BelowIsPrefix(chain, lca);
      hide Below, Shallow, Forest, Targets, Up;
      assert path[0..] == path;
      while iter.Some? && iter != lca
        invariant n <= |path| && iter == At(chain, n)
        invariant trace + Exits(table, path[n..]) == old(trace) + Exits(table, path)
        decreases |chain| - n
      {
        ParentAt(table, source.value, n);
        assert path[n..][1..] == path[n + 1..] && path[n..][0] == iter.value;
        if table.nodes[iter.value].hasExit { trace := trace + [Exited(iter.value)]; }
        iter := table.nodes[iter.value].parent;
        n := n + 1;
      }
      assert path[n..] == [];
    }

    /** Runs the recorded entries from the outermost in. */
    method ExecuteEntries(length: nat)
      requires Valid() && length <= buffer.Length
      requires forall i :: 0 <= i < length ==> IsState(table, buffer[i])
      modifies `trace
      ensures trace == old(trace) + Entries(table, buffer[..length])
    {
      var n: nat := length;
      ghost var path := buffer[..length];
      hide Shallow, Forest, Targets;
      while n > 0
        invariant n <= length && path == buffer[..length]
        invariant trace == old(trace) + Entries(table, path[n..])
      {
        n := n - 1;
        assert path[n..][1..] == path[n + 1..] && path[n..][0] == buffer[n];
        if table.nodes[buffer[n]].hasEntry { trace := trace + [EnteredState(buffer[n])]; }
      }
      assert path[0..] == path;
    }

    method PerformTransition(target: Id) returns (ok: bool)
      requires Valid() && IsState(table, target)
      modifies `current, `trace, buffer
      ensures Valid()
      ensures Value() == Perform(table, old(Value()), target) && ok == Fits(table, old(Value()), target)
    {
      hide Below, Exits, Entries, FindLca, Shallow, Forest, Targets;
      var source := current;
      if source == Some(target) {
        RunOne(table, target);
        if table.nodes[target].hasExit { trace := trace + [Exited(target)]; }
        if table.nodes[target].hasEntry { trace := trace + [EnteredState(target)]; }
        return true;
      }
      var lca := FindCommon(table, source, Some(target));
      ok := BuildEntryPath(target, lca);
      if ok {
        var length := PathLength(target, lca);
        ExecuteExits(source, lca);
        current := Some(target);
        BelowIsPrefix(Up(table, target), lca);
        ExecuteEntries(length);
      }
    }

    method ExecuteTransition(tr: Transition) returns (ok: bool)
      requires Valid() && (tr.target.Some? ==> IsState(table, tr.target.value))
      modifies `current, `trace, buffer
      ensures Valid()
      ensures (Value(), ok) == Execute(table, old(Value()), tr)
    {
      if tr.action.Some? { trace := trace + [Acted(tr.action.value)]; }
      if tr.internal {
        ok := true;
      } else if tr.target.Some? {
        ok := PerformTransition(tr.target.value);
      } else {
        ok := false;
      }
    }

    method SetHook(on: bool)
      modifies `hook
      ensures hook == on
    {
      hook := on;
    }

    /** An event nobody handled goes to the hook, with the state it left. */
    method DispatchEvent(event: nat, pass: nat -> bool) returns (handled: bool)
      requires Valid()
      modifies `current, `trace, `reported, buffer
      ensures Valid()
      ensures reported == old(reported) + if hook && !handled then [(event, current)] else []
      ensures (Value(), handled) == Dispatch(table, old(Value()), event, pass)
    {
      handled := false;
      var iter := current;
      while iter.Some? && !handled
        invariant Valid() && (iter.Some? ==> IsState(table, iter.value)) && reported == old(reported)
        invariant if handled then (Value(), true) == Dispatch(table, old(Value()), event, pass)
                  else Bubble(table, Value(), iter, event, pass) == Dispatch(table, old(Value()), event, pass)
        decreases |UpOf(table, iter)|, !handled
      {
        var tr := FindMatching(table.nodes[iter.value].transitions, event, pass);
        MatchTarget(table, iter.value, event, pass);
        if tr.Some? { handled := ExecuteTransition(tr.value); }
        if !handled { iter := table.nodes[iter.value].parent; }
      }
      if !handled && hook { reported := reported + [(event, current)]; }
    }

    method IsInState(s: Id) returns (r: bool)
      requires Valid()
      ensures r == (s in UpOf(table, current))
    {
      r := false;
      var iter := current;
      while iter.Some? && !r
        invariant iter.Some? ==> IsState(table, iter.value)
        invariant if r then s in UpOf(table, current) else s in UpOf(table, current) <==> s in UpOf(table, iter)
        decreases |UpOf(table, iter)|, !r
      {
        if iter.value == s { r := true; } else { iter := table.nodes[iter.value].parent; }
      }
    }

    /** Adopts a state learned from outside: no exit or entry runs. */
    method RestoreState(s: Option<Id>) returns (ok: bool)
      requires Valid() && (s.Some? ==> IsState(table, s.value))
      modifies `current
      ensures Valid() && ok == s.Some? && current == if ok then s else old(current)
    {
      if s.Some? { current := s; }
      ok := s.Some?;
    }
  }
}
