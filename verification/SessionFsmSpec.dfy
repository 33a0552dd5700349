/**
 The session lifecycle as an instance of the state machine engine: one root and five leaves. The
 specification is a flat machine over the five phases; the table is proved to be that machine.
 */
module SessionFsmSpec {
  import opened Options
  import opened Bytes
  import opened HsmSpec

  const STUN_BINDING := 1
  const DTLS_PACKET := 2
  const DTLS_HANDSHAKE_DONE := 3
  const SRTP_READY := 4
  const TIMEOUT := 0x10
  const CLOSE := 0x20
  const RTCP_BYE := 0x30

  const BINDING_GUARD := 0
  const DTLS_GUARD := 1

  const DTLS_RECORD_MIN := 13
  const DTLS_TYPE_MIN := 20
  const DTLS_TYPE_MAX := 63

  /** What the caller saw when the event arrived. */
  datatype Context = Context(conn: bool, data: Option<seq<byte>>)

  datatype Phase = New | IceBound | DtlsHandshake | SrtpReady | Closed

  predicate BindingOk(ctx: Option<Context>) { ctx.None? || ctx.value.conn }

  predicate DtlsOk(ctx: Option<Context>) {
    ctx.Some? ==>
      && ctx.value.data.Some?
      && |ctx.value.data.value| >= DTLS_RECORD_MIN
      && DTLS_TYPE_MIN <= ctx.value.data.value[0] as int <= DTLS_TYPE_MAX
  }

  function Guards(ctx: Option<Context>): nat -> bool {
    guard => if guard == BINDING_GUARD then BindingOk(ctx) else DtlsOk(ctx)
  }

  // ---------------------------------------------------------------- the table

  function To(event: nat, target: Id, guard: Option<nat>): Transition { Transition(event, Some(target), guard, None, false) }

  function Stay(event: nat, guard: Option<nat>): Transition { Transition(event, None, guard, None, true) }

  const TOP: Id := 0

  function StateOf(p: Phase): (s: Id)
    ensures 1 <= s <= 5
  {
    match p case New => 1 case IceBound => 2 case DtlsHandshake => 3 case SrtpReady => 4 case Closed => 5
  }

  function TopRules(): seq<Transition> { [To(CLOSE, 5, None), To(TIMEOUT, 5, None), To(RTCP_BYE, 5, None)] }

  function RulesOf(p: Phase): seq<Transition> {
    match p
    case New => [To(STUN_BINDING, 2, Some(BINDING_GUARD))]
    case IceBound => [Stay(STUN_BINDING, Some(BINDING_GUARD)), To(DTLS_PACKET, 3, Some(DTLS_GUARD))]
    case DtlsHandshake =>
      [To(DTLS_HANDSHAKE_DONE, 4, None), To(SRTP_READY, 4, None), Stay(STUN_BINDING, Some(BINDING_GUARD))]
    case SrtpReady => [Stay(SRTP_READY, None), Stay(STUN_BINDING, Some(BINDING_GUARD))]
    case Closed => [Stay(CLOSE, None), Stay(TIMEOUT, None), Stay(RTCP_BYE, None)]
  }

  function Leaf(p: Phase): Node { Node(Some(TOP), false, false, RulesOf(p)) }

  function SessionTable(): Table {
    Table([Node(None, false, false, TopRules()), Leaf(New), Leaf(IceBound), Leaf(DtlsHandshake), Leaf(SrtpReady), Leaf(Closed)],
          [0, 1, 1, 1, 1, 1])
  }

  lemma TableIsForest()
    ensures Forest(SessionTable()) && Targets(SessionTable())
  {
  }

  lemma Chains()
    ensures Forest(SessionTable()) && Up(SessionTable(), TOP) == [TOP]
    ensures forall p :: Up(SessionTable(), StateOf(p)) == [StateOf(p), TOP]
  {
    TableIsForest();
    var t := SessionTable();
    forall p ensures Up(t, StateOf(p)) == [StateOf(p), TOP] {
      assert t.nodes[StateOf(p)] == Leaf(p);
      assert Up(t, TOP) == [TOP];
    }
  }

  lemma TableIsShallow()
    ensures Forest(SessionTable()) && Shallow(SessionTable())
  {
    Chains();
    forall s | 0 <= s < 6 ensures |Up(SessionTable(), s)| <= 2 {
      assert s == TOP || s == StateOf(New) || s == StateOf(IceBound) || s == StateOf(DtlsHandshake) || s == StateOf(SrtpReady)
        || s == StateOf(Closed);
    }
  }

  // ---------------------------------------------------------------- the flat machine

  predicate CloseClass(event: nat) { event == CLOSE || event == TIMEOUT || event == RTCP_BYE }

  function Flat(p: Phase, event: nat, ctx: Option<Context>): (Phase, bool) {
    if CloseClass(event) then (Closed, true)
    else
      match p
      case New => if event == STUN_BINDING && BindingOk(ctx) then (IceBound, true) else (p, false)
      case IceBound =>
        if event == STUN_BINDING && BindingOk(ctx) then (p, true)
        else if event == DTLS_PACKET && DtlsOk(ctx) then (DtlsHandshake, true)
        else (p, false)
      case DtlsHandshake =>
        if event == DTLS_HANDSHAKE_DONE || event == SRTP_READY then (SrtpReady, true)
        else (p, event == STUN_BINDING && BindingOk(ctx))
      case SrtpReady => (p, event == SRTP_READY || (event == STUN_BINDING && BindingOk(ctx)))
      case Closed => (p, false)
  }

  predicate InPhase(m: Machine, p: Phase) {
    MachineOk(SessionTable(), m) && m.current == Some(StateOf(p))
  }

  /** Between two states under one root a single slot of path buffer is enough. */
  lemma SiblingMove(t: Table, m: Machine, a: Id, b: Id, root: Id)
    requires MachineOk(t, m) && IsState(t, a) && IsState(t, b) && m.current == Some(a) && a != b && m.bufferSize >= 1
    requires Up(t, a) == [a, root] && Up(t, b) == [b, root] && a != root && b != root
    ensures Fits(t, m, b)
    ensures Perform(t, m, b) == m.(current := Some(b), trace := m.trace + Exits(t, [a]) + Entries(t, [b]))
  {
    var ups, downs := [a, root], [b, root];
    assert ups[1..] == downs[1..] && ups[..1] == [a] && downs[..1] == [b];
    PerformRunsThePath(t, m, b, 1, 1);
    SearchSplits(t, a, b);
    var c := FindLca(t, Some(a), Some(b));
    hide FindLca, Shallow, Forest, Targets;
    SplitIsUnique(ups, downs, 1, 1, |Below(ups, c)|, |Below(downs, c)|);
  }

  lemma MoveFits(m: Machine, p: Phase, q: Phase)
    requires InPhase(m, p) && m.bufferSize >= 1
    ensures IsState(SessionTable(), StateOf(q))
    ensures Perform(SessionTable(), m, StateOf(q)) == m.(current := Some(StateOf(q))) && Fits(SessionTable(), m, StateOf(q))
  {
    Chains();
    NothingRuns([StateOf(p)]);
    NothingRuns([StateOf(q)]);
    if p != q { SiblingMove(SessionTable(), m, StateOf(p), StateOf(q), TOP); }
    hide FindLca, Shallow, Forest, Targets, EntryPath;
  }

  lemma {:induction false} NothingRuns(l: seq<Id>)
    ensures Exits(SessionTable(), l) == [] && Entries(SessionTable(), l) == []
  {
    if l != [] { NothingRuns(l[1..]); }
  }

  /** The hierarchical table is the flat machine: same phase, same answer, no action run. */
  lemma DispatchRefinesFlat(m: Machine, p: Phase, event: nat, ctx: Option<Context>)
    requires InPhase(m, p) && m.bufferSize >= 1
    ensures var (q, handled) := Flat(p, event, ctx);
      Dispatch(SessionTable(), m, event, Guards(ctx)) == (m.(current := Some(StateOf(q))), handled)
  {
    var t := SessionTable();
    var pass := Guards(ctx);
    var (q, handled) := Flat(p, event, ctx);
    MoveFits(m, p, q);
    LeafMatch(p, event, ctx);
    var tr := Match(RulesOf(p), event, pass);
    assert t.nodes[StateOf(p)] == Leaf(p);
    hide Perform, Fits;
    if tr.None? {
      RootMatch(event, pass);
      var up := Match(TopRules(), event, pass);
      assert Bubble(t, m, None, event, pass) == (m, false);
      assert Bubble(t, m, Some(TOP), event, pass) == (m.(current := Some(StateOf(q))), handled);
    }
  }

  lemma LeafMatch(p: Phase, event: nat, ctx: Option<Context>)
    ensures var tr := Match(RulesOf(p), event, Guards(ctx));
      var (q, handled) := Flat(p, event, ctx);
      match tr
      case None => !handled || (CloseClass(event) && p != Closed)
      case Some(r) => handled && if r.internal then r == r.(action := None) && q == p else r == To(event, StateOf(q), r.guard)
  {
    var ts := RulesOf(p);
    var pass := Guards(ctx);
    MatchStep(ts, event, pass);
    if |ts| > 1 { MatchStep(ts[1..], event, pass); }
    if |ts| > 2 { MatchStep(ts[1..][1..], event, pass); }
    assert |ts| == 1 ==> ts[1..] == [];
    assert |ts| == 2 ==> ts[1..][1..] == [];
    assert |ts| == 3 ==> ts[1..][1..][1..] == [];
  }

  lemma MatchStep(ts: seq<Transition>, event: nat, pass: nat -> bool)
    requires ts != []
    ensures Match(ts, event, pass) ==
      if ts[0].event == event && (ts[0].guard.None? || pass(ts[0].guard.value)) then Some(ts[0]) else Match(ts[1..], event, pass)
  {
  }

  lemma RootMatch(event: nat, pass: nat -> bool)
    ensures Match(TopRules(), event, pass) == if CloseClass(event) then Some(To(event, StateOf(Closed), None)) else None
  {
    var ts := TopRules();
    assert ts[1..] == [ts[1], ts[2]] && ts[1..][1..] == [ts[2]] && ts[1..][1..][1..] == [];
  }

  // ---------------------------------------------------------------- runs

  datatype Arrival = Arrival(event: nat, ctx: Option<Context>)

  function FlatRun(p: Phase, evs: seq<Arrival>): Phase {
    if evs == [] then p else Flat(FlatRun(p, evs[..|evs| - 1]), evs[|evs| - 1].event, evs[|evs| - 1].ctx).0
  }

  function DispatchRun(m: Machine, evs: seq<Arrival>): (r: Machine)
    requires MachineOk(SessionTable(), m)
    ensures MachineOk(SessionTable(), r)
  {
    if evs == [] then m
    else
      var last := evs[|evs| - 1];
      Dispatch(SessionTable(), DispatchRun(m, evs[..|evs| - 1]), last.event, Guards(last.ctx)).0
  }

  lemma {:induction false} RunRefinesFlat(m: Machine, p: Phase, evs: seq<Arrival>)
    requires InPhase(m, p) && m.bufferSize >= 1
    ensures DispatchRun(m, evs) == m.(current := Some(StateOf(FlatRun(p, evs))))
  {
    hide SessionTable, Dispatch;
    if evs != [] {
      var n := |evs| - 1;
      RunRefinesFlat(m, p, evs[..n]);
      DispatchRefinesFlat(DispatchRun(m, evs[..n]), FlatRun(p, evs[..n]), evs[n].event, evs[n].ctx);
    }
  }

  function Order(p: Phase): nat {
    match p case New => 0 case IceBound => 1 case DtlsHandshake => 2 case SrtpReady => 3 case Closed => 4
  }

  lemma {:induction false} FlatRunIsForward(p: Phase, evs: seq<Arrival>, i: nat)
    requires i <= |evs|
    ensures Order(FlatRun(p, evs[..i])) <= Order(FlatRun(p, evs))
    decreases |evs|
  {
    if i == |evs| {
      assert evs[..i] == evs;
    } else {
      var n := |evs| - 1;
      FlatRunIsForward(p, evs[..n], i);
      assert evs[..n][..i] == evs[..i];
    }
  }

  /**
   Whatever events arrive with whatever evidence, the lifecycle only moves forward, a closed
   session stays closed, and no dispatch is ever refused for lack of path buffer.
   */
  lemma LifecycleIsForward(m: Machine, p: Phase, evs: seq<Arrival>, i: nat)
    requires InPhase(m, p) && m.bufferSize >= 1 && i <= |evs|
    ensures exists early, late ::
      && InPhase(DispatchRun(m, evs[..i]), early) && InPhase(DispatchRun(m, evs), late)
      && Order(p) <= Order(early) <= Order(late) && (early == Closed ==> late == Closed)
  {
    hide SessionTable, Dispatch;
    RunRefinesFlat(m, p, evs[..i]);
    RunRefinesFlat(m, p, evs);
    FlatRunIsForward(p, evs[..i], 0);
    assert evs[..i][..0] == [];
    FlatRunIsForward(p, evs, i);
    assert InPhase(DispatchRun(m, evs[..i]), FlatRun(p, evs[..i])) && InPhase(DispatchRun(m, evs), FlatRun(p, evs));
  }

  predicate BoundAt(evs: seq<Arrival>, i: nat) { i < |evs| && evs[i].event == STUN_BINDING && BindingOk(evs[i].ctx) }

  predicate StartedAt(evs: seq<Arrival>, i: nat, j: nat) {
    BoundAt(evs, i) && i < j < |evs| && evs[j].event == DTLS_PACKET && DtlsOk(evs[j].ctx)
  }

  /** The evidence that leads a new session to readiness, in the order it must have arrived. */
  predicate EarnedAt(evs: seq<Arrival>, i: nat, j: nat, k: nat) {
    StartedAt(evs, i, j) && j < k < |evs| && (evs[k].event == DTLS_HANDSHAKE_DONE || evs[k].event == SRTP_READY)
  }

  /** No session becomes ready except by a binding, then a DTLS record, then the end of the handshake. */
  lemma {:induction false} ReadyIsEarned(evs: seq<Arrival>)
    ensures match FlatRun(New, evs)
      case New => true
      case IceBound => exists i: nat :: BoundAt(evs, i)
      case DtlsHandshake => exists i: nat, j: nat :: StartedAt(evs, i, j)
      case SrtpReady => exists i: nat, j: nat, k: nat :: EarnedAt(evs, i, j, k)
      case Closed => exists i: nat :: i < |evs| && CloseClass(evs[i].event)
  {
    if evs != [] {
      var n := |evs| - 1;
      var before := evs[..n];
      ReadyIsEarned(before);
      var now := FlatRun(New, evs);
      match FlatRun(New, before) {
        case New => assert now == IceBound ==> BoundAt(evs, n);
        case IceBound =>
          var i: nat :| BoundAt(before, i);
          assert BoundAt(evs, i);
          assert now == DtlsHandshake ==> StartedAt(evs, i, n);
        case DtlsHandshake =>
          var i: nat, j: nat :| StartedAt(before, i, j);
          assert StartedAt(evs, i, j);
          assert now == SrtpReady ==> EarnedAt(evs, i, j, n);
        case SrtpReady =>
          var i: nat, j: nat, k: nat :| EarnedAt(before, i, j, k);
          assert EarnedAt(evs, i, j, k);
        case Closed =>
          var i: nat :| i < |before| && CloseClass(before[i].event);
          assert CloseClass(evs[i].event);
      }
      assert now == Closed && FlatRun(New, before) != Closed ==> CloseClass(evs[n].event);
    }
  }
}
