/** The hierarchical state machine engine. */
module HsmSpec {
  // States are a table of nodes with parent links; `rank` is the model's witness that the links have no
  // cycle. Entry, exit and transition actions are events of a trace; they do not change the machine.

  import opened Options

  type Id = nat

  datatype Transition = Transition(event: nat, target: Option<Id>, guard: Option<nat>, action: Option<nat>, internal: bool)

  datatype Node = Node(parent: Option<Id>, hasEntry: bool, hasExit: bool, transitions: seq<Transition>)

  datatype Table = Table(nodes: seq<Node>, rank: seq<nat>)

  const MAX_DEPTH := 255

  predicate Forest(t: Table) {
    && |t.rank| == |t.nodes|
    && forall i :: 0 <= i < |t.nodes| && t.nodes[i].parent.Some? ==>
         t.nodes[i].parent.value < |t.nodes| && t.rank[t.nodes[i].parent.value] < t.rank[i]
  }

  /** Every transition leads to a state of the table. */
  predicate Targets(t: Table) {
    forall i, j :: 0 <= i < |t.nodes| && 0 <= j < |t.nodes[i].transitions| && t.nodes[i].transitions[j].target.Some? ==>
      t.nodes[i].transitions[j].target.value < |t.nodes|
  }

  predicate IsState(t: Table, s: Id) { s < |t.nodes| }

  /** The state and its ancestors, innermost first. */
  function Up(t: Table, s: Id): (r: seq<Id>)
    requires Forest(t) && IsState(t, s)
    ensures r != [] && r[0] == s && forall x :: x in r ==> IsState(t, x)
    decreases t.rank[s]
  {
    match t.nodes[s].parent
    case None => [s]
    case Some(p) => [s] + Up(t, p)
  }

  function UpOf(t: Table, s: Option<Id>): seq<Id>
    requires Forest(t) && (s.Some? ==> IsState(t, s.value))
  {
    if s.None? then [] else Up(t, s.value)
  }

  /** The hierarchy fits the 8-bit depth counter. */
  predicate Shallow(t: Table)
    requires Forest(t)
  {
    forall s :: 0 <= s < |t.nodes| ==> |Up(t, s)| <= MAX_DEPTH
  }

  // ---------------------------------------------------------------- lowest common ancestor

  /** `c` is an ancestor of both, and below every other common ancestor. */
  predicate IsLca(t: Table, a: Id, b: Id, c: Option<Id>)
    requires Forest(t) && IsState(t, a) && IsState(t, b)
  {
    match c
    case None => forall x :: x in Up(t, a) ==> x !in Up(t, b)
    case Some(l) =>
      && l in Up(t, a) && l in Up(t, b)
      && forall x :: x in Up(t, a) && x in Up(t, b) ==> x in Up(t, l)
  }

  /** The walk from two states of equal depth. */
  function Meet(t: Table, a: Option<Id>, b: Option<Id>): Option<Id>
    requires Forest(t) && (a.Some? ==> IsState(t, a.value)) && (b.Some? ==> IsState(t, b.value))
    decreases if a.Some? then 1 + t.rank[a.value] else 0
  {
    if a == b then a
    else if a.None? || b.None? then None
    else Meet(t, t.nodes[a.value].parent, t.nodes[b.value].parent)
  }

  function Climb(t: Table, s: Option<Id>, n: nat): (r: Option<Id>)
    requires Forest(t) && (s.Some? ==> IsState(t, s.value))
    ensures r.Some? ==> IsState(t, r.value)
    decreases n
  {
    if n == 0 || s.None? then s else Climb(t, t.nodes[s.value].parent, n - 1)
  }

  function Sub(a: nat, b: nat): nat { if a > b then a - b else 0 }

  function FindLca(t: Table, a: Option<Id>, b: Option<Id>): Option<Id>
    requires Forest(t) && (a.Some? ==> IsState(t, a.value)) && (b.Some? ==> IsState(t, b.value))
  {
    if a.None? then b
    else if b.None? then a
    else
      var da, db := |UpOf(t, a)|, |UpOf(t, b)|;
      Meet(t, Climb(t, a, Sub(da, db)), Climb(t, b, Sub(db, da)))
  }

  lemma {:induction false} ClimbIsSuffix(t: Table, s: Option<Id>, n: nat)
    requires Forest(t) && (s.Some? ==> IsState(t, s.value)) && n <= |UpOf(t, s)|
    ensures UpOf(t, Climb(t, s, n)) == UpOf(t, s)[n..]
    decreases n
  {
    if n > 0 && s.Some? { ClimbIsSuffix(t, t.nodes[s.value].parent, n - 1); }
  }

  /** A state determines its chain, so a state occurs in a chain only where its own chain begins. */
  lemma {:induction false} ChainTail(t: Table, a: Id, x: Id)
    requires Forest(t) && IsState(t, a) && x in Up(t, a)
    ensures IsState(t, x) && exists k: nat :: k < |Up(t, a)| && Up(t, a)[k..] == Up(t, x)
    decreases t.rank[a]
  {
    var ups := Up(t, a);
    if x == a {
      assert ups[0..] == Up(t, x);
    } else {
      var p := t.nodes[a].parent.value;
      var ps := Up(t, p);
      assert ups == [a] + ps;
      hide Up;
      ChainTail(t, p, x);
      hide Forest;
      SuffixOfMore(a, ps, ups, Up(t, x));
    }
  }

  lemma SuffixOfMore(a: Id, ps: seq<Id>, ups: seq<Id>, tail: seq<Id>)
    requires ups == [a] + ps && exists k: nat :: k < |ps| && ps[k..] == tail
    ensures exists k: nat :: k < |ups| && ups[k..] == tail
  {
    var k: nat :| k < |ps| && ps[k..] == tail;
    assert ups[k + 1..] == ps[k..];
  }

  /** From two chains of equal length the walk finds where they meet. */
  lemma {:induction false} MeetIsLca(t: Table, a: Id, b: Id)
    requires Forest(t) && IsState(t, a) && IsState(t, b) && |Up(t, a)| == |Up(t, b)|
    ensures IsLca(t, a, b, Meet(t, Some(a), Some(b)))
    decreases t.rank[a]
  {
    if a != b {
      var pa, pb := t.nodes[a].parent, t.nodes[b].parent;
      EqualDepthApart(t, a, b);
      if pa.Some? { MeetIsLca(t, pa.value, pb.value); }
    }
  }

  /** Different states of one depth are not above one another. */
  lemma EqualDepthApart(t: Table, a: Id, b: Id)
    requires Forest(t) && IsState(t, a) && IsState(t, b) && |Up(t, a)| == |Up(t, b)| && a != b
    ensures a !in Up(t, b) && b !in Up(t, a)
  {
    if a in Up(t, b) { ChainTail(t, b, a); }
    if b in Up(t, a) { ChainTail(t, a, b); }
  }

  /** Climbing from the deeper state does not lose a common ancestor. */
  lemma ClimbKeepsCommon(t: Table, a: Id, b: Id, n: nat)
    requires Forest(t) && IsState(t, a) && IsState(t, b) && n + |Up(t, b)| == |Up(t, a)|
    ensures Climb(t, Some(a), n).Some?
    ensures forall x :: x in Up(t, b) ==> (x in Up(t, a) <==> x in Up(t, Climb(t, Some(a), n).value))
    ensures |Up(t, Climb(t, Some(a), n).value)| == |Up(t, b)|
  {
    ClimbIsSuffix(t, Some(a), n);
    var c := Climb(t, Some(a), n).value;
    assert Up(t, c) == Up(t, a)[n..];
    forall x | x in Up(t, b) && x in Up(t, a) ensures x in Up(t, c) {
      ChainTail(t, a, x);
      ChainTail(t, b, x);
      var k: nat :| k < |Up(t, a)| && Up(t, a)[k..] == Up(t, x);
      assert |Up(t, x)| <= |Up(t, b)|;
      assert k >= n;
      assert Up(t, c)[k - n] == Up(t, a)[k] == x;
    }
  }

  /** The engine's search finds the lowest common ancestor of every two states. */
  lemma FindLcaIsLca(t: Table, a: Id, b: Id)
    requires Forest(t) && IsState(t, a) && IsState(t, b)
    ensures IsLca(t, a, b, FindLca(t, Some(a), Some(b)))
  {
    var da, db := |Up(t, a)|, |Up(t, b)|;
    if da >= db {
      ClimbKeepsCommon(t, a, b, da - db);
      var c := Climb(t, Some(a), da - db).value;
      MeetIsLca(t, c, b);
      ClimbIsSuffix(t, Some(a), da - db);
      assert forall x :: x in Up(t, c) ==> x in Up(t, a);
    } else {
      ClimbKeepsCommon(t, b, a, db - da);
      var c := Climb(t, Some(b), db - da).value;
      MeetIsLca(t, a, c);
      ClimbIsSuffix(t, Some(b), db - da);
      assert forall x :: x in Up(t, c) ==> x in Up(t, b);
    }
  }

  // ---------------------------------------------------------------- transitions

  datatype Event = Exited(s: Id) | EnteredState(s: Id) | Acted(action: nat)

  /** The part of a chain strictly below `stop`. */
  function Below(chain: seq<Id>, stop: Option<Id>): seq<Id> {
    if chain == [] || stop == Some(chain[0]) then [] else [chain[0]] + Below(chain[1..], stop)
  }

  function Exits(t: Table, l: seq<Id>): seq<Event> {
    if l == [] then []
    else (if l[0] < |t.nodes| && t.nodes[l[0]].hasExit then [Exited(l[0])] else []) + Exits(t, l[1..])
  }

  /** Entries run in the opposite order of the chain: outermost first. */
  function Entries(t: Table, l: seq<Id>): seq<Event> {
    if l == [] then []
    else Entries(t, l[1..]) + (if l[0] < |t.nodes| && t.nodes[l[0]].hasEntry then [EnteredState(l[0])] else [])
  }

  datatype Machine = Machine(current: Option<Id>, bufferSize: nat, trace: seq<Event>)

  predicate MachineOk(t: Table, m: Machine) {
    && Forest(t) && Shallow(t) && Targets(t) && m.bufferSize < 256
    && (m.current.Some? ==> IsState(t, m.current.value))
  }

  function EntryPath(t: Table, source: Option<Id>, target: Id): seq<Id>
    requires Forest(t) && IsState(t, target) && (source.Some? ==> IsState(t, source.value))
  {
    Below(Up(t, target), FindLca(t, source, Some(target)))
  }

  /** Whether the path from the common ancestor down to the target fits the caller's buffer. */
  predicate Fits(t: Table, m: Machine, target: Id)
    requires MachineOk(t, m) && IsState(t, target)
  {
    m.current == Some(target) || |EntryPath(t, m.current, target)| <= m.bufferSize
  }

  function Perform(t: Table, m: Machine, target: Id): Machine
    requires MachineOk(t, m) && IsState(t, target)
  {
    if m.current == Some(target) then m.(trace := m.trace + Exits(t, [target]) + Entries(t, [target]))
    else if !Fits(t, m, target) then m
    else
      var lca := FindLca(t, m.current, Some(target));
      m.(current := Some(target),
         trace := m.trace + Exits(t, Below(UpOf(t, m.current), lca)) + Entries(t, EntryPath(t, m.current, target)))
  }

  /** What a chain below a stop consists of: the states up to it, or all when it is not on the chain. */
  lemma {:induction false} BelowIsPrefix(chain: seq<Id>, stop: Option<Id>)
    ensures var b := Below(chain, stop);
      && |b| <= |chain| && b == chain[..|b|]
      && (forall i :: 0 <= i < |b| ==> Some(b[i]) != stop)
      && (|b| < |chain| ==> stop == Some(chain[|b|]))
  {
    if chain != [] && stop != Some(chain[0]) {
      BelowIsPrefix(chain[1..], stop);
      var b := Below(chain, stop);
      assert b[1..] == Below(chain[1..], stop);
    }
  }

  lemma {:induction false} ChainSuffix(t: Table, a: Id, k: nat)
    requires Forest(t) && IsState(t, a) && k < |Up(t, a)|
    ensures IsState(t, Up(t, a)[k]) && Up(t, a)[k..] == Up(t, Up(t, a)[k])
    decreases k
  {
    if k > 0 {
      var p := t.nodes[a].parent.value;
      ChainSuffix(t, p, k - 1);
      assert Up(t, a)[k..] == Up(t, p)[k - 1..];
    }
  }

  function At(chain: seq<Id>, k: nat): Option<Id> { if k < |chain| then Some(chain[k]) else None }

  /** Following a parent link moves one place along the chain. */
  lemma ParentAt(t: Table, a: Id, k: nat)
    requires Forest(t) && IsState(t, a) && k < |Up(t, a)|
    ensures IsState(t, Up(t, a)[k]) && t.nodes[Up(t, a)[k]].parent == At(Up(t, a), k + 1)
  {
    ChainSuffix(t, a, k);
    var x := Up(t, a)[k];
    assert k + 1 < |Up(t, a)| ==> Up(t, a)[k + 1] == Up(t, x)[1];
    assert |Up(t, a)[k..]| == |Up(t, x)|;
  }

  lemma PathStart(t: Table, a: Id, stop: Option<Id>)
    requires Forest(t) && IsState(t, a)
    ensures Some(a) == At(Up(t, a), 0) && |Below(Up(t, a), stop)| <= |Up(t, a)|
    ensures Below(Up(t, a), stop) == Up(t, a)[..|Below(Up(t, a), stop)|]
  {
    BelowIsPrefix(Up(t, a), stop);
  }

  /** One step of a walk up to `stop`: it goes on exactly while the path lasts, to the state after it on the chain. */
  lemma PathStep(t: Table, a: Id, stop: Option<Id>, k: nat)
    requires Forest(t) && IsState(t, a) && k <= |Below(Up(t, a), stop)|
    ensures var chain := Up(t, a); var x := At(chain, k);
      && (x.Some? && x != stop <==> k < |Below(chain, stop)|)
      && (k < |Below(chain, stop)| ==>
            && k < |chain| && x == Some(chain[k]) && IsState(t, chain[k])
            && t.nodes[chain[k]].parent == At(chain, k + 1))
  {
    BelowIsPrefix(Up(t, a), stop);
    hide Below, Up;
    if k < |Up(t, a)| { ParentAt(t, a, k); }
  }

  /**
   The chains of two states share exactly what lies from `i` on in one and from `j` on in the
   other. This says where the common part begins without mentioning any search for it.
   */
  predicate Splits(ups: seq<Id>, downs: seq<Id>, i: nat, j: nat) {
    && i <= |ups| && j <= |downs|
    && ups[i..] == downs[j..]
    && (forall x :: x in ups[..i] ==> x !in downs)
    && (forall x :: x in downs[..j] ==> x !in ups)
  }

  /** At most one pair of places can do that. */
  lemma SplitIsUnique(ups: seq<Id>, downs: seq<Id>, i: nat, j: nat, i': nat, j': nat)
    requires Splits(ups, downs, i, j) && Splits(ups, downs, i', j')
    ensures i == i' && j == j'
  {
    if i < i' { SplitNotBefore(ups, downs, i, j, i', j'); }
    if i' < i { SplitNotBefore(ups, downs, i', j', i, j); }
    assert |ups[i..]| == |downs[j..]| && |ups[i'..]| == |downs[j'..]|;
  }

  lemma SharedFrom(ups: seq<Id>, downs: seq<Id>, i: nat, j: nat)
    requires Splits(ups, downs, i, j) && i < |ups|
    ensures ups[i] in downs
  {
    assert ups[i] == ups[i..][0] == downs[j..][0] == downs[j];
  }

  lemma SplitNotBefore(ups: seq<Id>, downs: seq<Id>, i: nat, j: nat, i': nat, j': nat)
    requires Splits(ups, downs, i, j) && Splits(ups, downs, i', j')
    ensures i >= i'
  {
    if i < i' {
      SharedFrom(ups, downs, i, j);
      assert false;
    }
  }

  /** A state of one chain strictly below a meeting place is not on the other chain. */
  lemma NotAbove(t: Table, a: Id, b: Id, l: Id, i: nat, x: Id)
    requires Forest(t) && IsState(t, a) && IsState(t, b) && IsLca(t, a, b, Some(l))
    requires i < |Up(t, a)| && Up(t, a)[i] == l && x in Up(t, a)[..i]
    ensures x !in Up(t, b)
  {
    if x in Up(t, b) {
      assert x in Up(t, l);
      ChainSuffix(t, a, i);
      var m: nat :| m < i && Up(t, a)[m] == x;
      ChainSuffix(t, a, m);
      ChainTail(t, l, x);
    }
  }

  /** Two chains that meet at places `i` and `j` in their lowest common state share the rest. */
  lemma MeetingSplits(t: Table, a: Id, b: Id, l: Id, i: nat, j: nat)
    requires Forest(t) && IsState(t, a) && IsState(t, b) && IsLca(t, a, b, Some(l))
    requires i < |Up(t, a)| && Up(t, a)[i] == l && j < |Up(t, b)| && Up(t, b)[j] == l
    ensures Splits(Up(t, a), Up(t, b), i, j)
  {
    ChainSuffix(t, a, i);
    ChainSuffix(t, b, j);
    forall x | x in Up(t, a)[..i] ensures x !in Up(t, b) { NotAbove(t, a, b, l, i, x); }
    forall x | x in Up(t, b)[..j] ensures x !in Up(t, a) { NotAbove(t, b, a, l, j, x); }
  }

  /** The walk up to a state of the chain stops right there. */
  lemma BelowStopsAt(chain: seq<Id>, l: Id)
    requires l in chain
    ensures var i := |Below(chain, Some(l))|; i < |chain| && chain[i] == l && Below(chain, Some(l)) == chain[..i]
  {
    BelowIsPrefix(chain, Some(l));
    var i := |Below(chain, Some(l))|;
    if i == |chain| {
      var x: nat :| x < |chain| && chain[x] == l;
      assert Some(Below(chain, Some(l))[x]) == Some(l);
    }
  }

  lemma SplitsAt(t: Table, a: Id, b: Id, c: Option<Id>)
    requires Forest(t) && IsState(t, a) && IsState(t, b) && IsLca(t, a, b, c)
    ensures var i, j := |Below(Up(t, a), c)|, |Below(Up(t, b), c)|;
      Splits(Up(t, a), Up(t, b), i, j) && Below(Up(t, a), c) == Up(t, a)[..i] && Below(Up(t, b), c) == Up(t, b)[..j]
  {
    hide Up;
    if c.Some? {
      BelowStopsAt(Up(t, a), c.value);
      BelowStopsAt(Up(t, b), c.value);
      hide Below, Splits;
      MeetingSplits(t, a, b, c.value, |Below(Up(t, a), c)|, |Below(Up(t, b), c)|);
    } else {
      BelowIsPrefix(Up(t, a), c);
      BelowIsPrefix(Up(t, b), c);
    }
  }

  /** What the engine walks through on both sides is what the two chains do not share. */
  lemma SearchSplits(t: Table, a: Id, b: Id)
    requires Forest(t) && IsState(t, a) && IsState(t, b)
    ensures var c := FindLca(t, Some(a), Some(b));
      var i, j := |Below(Up(t, a), c)|, |Below(Up(t, b), c)|;
      Splits(Up(t, a), Up(t, b), i, j) && Below(Up(t, a), c) == Up(t, a)[..i] && Below(Up(t, b), c) == Up(t, b)[..j]
  {
    FindLcaIsLca(t, a, b);
    hide FindLca, Up, Below, IsLca, Splits;
    SplitsAt(t, a, b, FindLca(t, Some(a), Some(b)));
  }

  /**
   An external transition to another state leaves exactly the states the target's chain does not
   share, innermost first, enters exactly the ones the source's chain does not share, outermost
   first, and ends in the target; a path that does not fit runs nothing and stays.
   */
  lemma PerformRunsThePath(t: Table, m: Machine, target: Id, i: nat, j: nat)
    requires MachineOk(t, m) && IsState(t, target) && m.current.Some? && m.current != Some(target)
    requires Splits(Up(t, m.current.value), Up(t, target), i, j)
    ensures
      var ups, downs := Up(t, m.current.value), Up(t, target);
      Perform(t, m, target) ==
        if j > m.bufferSize then m
        else m.(current := Some(target), trace := m.trace + Exits(t, ups[..i]) + Entries(t, downs[..j]))
  {
    var source := m.current.value;
    var ups, downs := Up(t, source), Up(t, target);
    SearchSplits(t, source, target);
    var c := FindLca(t, Some(source), Some(target));
    SplitIsUnique(ups, downs, i, j, |Below(ups, c)|, |Below(downs, c)|);
    hide FindLca, Splits, Shallow;
  }

  // ---------------------------------------------------------------- dispatch

  /** The first transition of a state that matches the event and whose guard passes. */
  function Match(ts: seq<Transition>, event: nat, pass: nat -> bool): (r: Option<Transition>)
    ensures r.Some? ==> r.value in ts && r.value.event == event && (r.value.guard.Some? ==> pass(r.value.guard.value))
  {
    if ts == [] then None
    else if ts[0].event == event && (ts[0].guard.None? || pass(ts[0].guard.value)) then Some(ts[0])
    else Match(ts[1..], event, pass)
  }

  /** A transition takes the event: it is for it, and its guard, if any, passes. */
  predicate TakesEvent(tr: Transition, event: nat, pass: nat -> bool) {
    tr.event == event && (tr.guard.Some? ==> pass(tr.guard.value))
  }

  /** The first `i` transitions leave the event alone. */
  predicate NoneTakes(ts: seq<Transition>, i: nat, event: nat, pass: nat -> bool)
    requires i <= |ts|
  {
    forall k :: 0 <= k < i ==> !TakesEvent(ts[k], event, pass)
  }

  /** The match is the first transition of the list that takes the event, and none is missed. */
  lemma {:induction false} MatchIsFirst(ts: seq<Transition>, event: nat, pass: nat -> bool)
    ensures Match(ts, event, pass).None? <==> NoneTakes(ts, |ts|, event, pass)
    ensures Match(ts, event, pass).Some? ==>
      exists i :: 0 <= i < |ts| && ts[i] == Match(ts, event, pass).value && TakesEvent(ts[i], event, pass)
                  && NoneTakes(ts, i, event, pass)
  {
    if ts != [] && !TakesEvent(ts[0], event, pass) {
      var rest := ts[1..];
      MatchIsFirst(rest, event, pass);
      if Match(ts, event, pass).Some? {
        var i :| 0 <= i < |rest| && rest[i] == Match(ts, event, pass).value && TakesEvent(rest[i], event, pass)
                 && NoneTakes(rest, i, event, pass);
        NoneMore(ts, i, event, pass);
        assert ts[i + 1] == Match(ts, event, pass).value;
      } else {
        NoneMore(ts, |rest|, event, pass);
      }
    }
  }

  lemma NoneMore(ts: seq<Transition>, i: nat, event: nat, pass: nat -> bool)
    requires i < |ts| && !TakesEvent(ts[0], event, pass) && NoneTakes(ts[1..], i, event, pass)
    ensures NoneTakes(ts, i + 1, event, pass)
  {
    forall k | 0 <= k < i + 1 ensures !TakesEvent(ts[k], event, pass) {
      if k > 0 { assert ts[k] == ts[1..][k - 1]; }
    }
  }

  function WithAction(m: Machine, tr: Transition): Machine {
    if tr.action.None? then m else m.(trace := m.trace + [Acted(tr.action.value)])
  }

  function Execute(t: Table, m: Machine, tr: Transition): (Machine, bool)
    requires MachineOk(t, m) && (tr.target.Some? ==> IsState(t, tr.target.value))
  {
    var a := WithAction(m, tr);
    if tr.internal then (a, true)
    else if tr.target.None? then (a, false)
    else (Perform(t, a, tr.target.value), Fits(t, a, tr.target.value))
  }

  lemma MatchTarget(t: Table, s: Id, event: nat, pass: nat -> bool)
    requires Targets(t) && IsState(t, s)
    ensures var tr := Match(t.nodes[s].transitions, event, pass);
      tr.Some? && tr.value.target.Some? ==> IsState(t, tr.value.target.value)
  {
    var ts := t.nodes[s].transitions;
    if Match(ts, event, pass).Some? {
      var j :| 0 <= j < |ts| && ts[j] == Match(ts, event, pass).value;
    }
  }

  /** Offers the event to `s` and, as long as nobody handled it, to its ancestors. */
  function Bubble(t: Table, m: Machine, s: Option<Id>, event: nat, pass: nat -> bool): (r: (Machine, bool))
    requires MachineOk(t, m) && (s.Some? ==> IsState(t, s.value))
    ensures MachineOk(t, r.0) && r.0.bufferSize == m.bufferSize
    decreases if s.Some? then 1 + t.rank[s.value] else 0
  {
    if s.None? then (m, false)
    else
      MatchTarget(t, s.value, event, pass);
      match Match(t.nodes[s.value].transitions, event, pass)
      case None => Bubble(t, m, t.nodes[s.value].parent, event, pass)
      case Some(tr) =>
        var (n, done) := Execute(t, m, tr);
        if done then (n, true) else Bubble(t, n, t.nodes[s.value].parent, event, pass)
  }

  function Dispatch(t: Table, m: Machine, event: nat, pass: nat -> bool): (Machine, bool)
    requires MachineOk(t, m)
  {
    Bubble(t, m, m.current, event, pass)
  }

  /** An unhandled event leaves the state alone and runs no exit or entry, only transition actions. */
  lemma {:induction false} UnhandledStays(t: Table, m: Machine, s: Option<Id>, event: nat, pass: nat -> bool)
    requires MachineOk(t, m) && (s.Some? ==> IsState(t, s.value)) && !Bubble(t, m, s, event, pass).1
    ensures var n := Bubble(t, m, s, event, pass).0;
      n.current == m.current && m.trace <= n.trace && forall i :: |m.trace| <= i < |n.trace| ==> n.trace[i].Acted?
    decreases if s.Some? then 1 + t.rank[s.value] else 0
  {
    if s.Some? {
      MatchTarget(t, s.value, event, pass);
      match Match(t.nodes[s.value].transitions, event, pass) {
        case None => UnhandledStays(t, m, t.nodes[s.value].parent, event, pass);
        case Some(tr) => UnhandledStays(t, Execute(t, m, tr).0, t.nodes[s.value].parent, event, pass);
      }
    }
  }
}
