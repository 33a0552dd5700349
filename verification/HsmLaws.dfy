/** Which state answers an event, and in which order its actions run. */
module HsmLaws {
  // Told by the chain of the current state, from the innermost state outwards; the statements name neither the
  // search for a transition nor its execution.

  import opened Options
  import opened HsmSpec

  /** No transition of a state takes the event. */
  predicate Quiet(t: Table, s: Id, event: nat, pass: nat -> bool) {
    IsState(t, s) && NoneTakes(t.nodes[s].transitions, |t.nodes[s].transitions|, event, pass)
  }

  /** The first `k` states of the chain do not take the event. */
  predicate Passed(t: Table, chain: seq<Id>, k: nat, event: nat, pass: nat -> bool) {
    k <= |chain| && forall i :: 0 <= i < k ==> Quiet(t, chain[i], event, pass)
  }

  /** Transition `j` of state `s` is its first one that takes the event. */
  predicate Answers(t: Table, s: Id, j: nat, event: nat, pass: nat -> bool)
    requires IsState(t, s)
  {
    var ts := t.nodes[s].transitions;
    j < |ts| && TakesEvent(ts[j], event, pass) && NoneTakes(ts, j, event, pass)
  }

  lemma MatchIs(ts: seq<Transition>, j: nat, event: nat, pass: nat -> bool)
    requires j < |ts| && TakesEvent(ts[j], event, pass) && NoneTakes(ts, j, event, pass)
    ensures Match(ts, event, pass) == Some(ts[j])
  {
    MatchIsFirst(ts, event, pass);
    assert !NoneTakes(ts, |ts|, event, pass);
    var i :| 0 <= i < |ts| && ts[i] == Match(ts, event, pass).value && TakesEvent(ts[i], event, pass)
             && NoneTakes(ts, i, event, pass);
    assert i <= j && j <= i;
  }

  /** The event passes over states that do not take it. */
  lemma {:induction false} BubblesTo(t: Table, m: Machine, s: Id, k: nat, event: nat, pass: nat -> bool)
    requires MachineOk(t, m) && IsState(t, s) && k <= |Up(t, s)| && Passed(t, Up(t, s), k, event, pass)
    ensures At(Up(t, s), k).Some? ==> IsState(t, At(Up(t, s), k).value)
    ensures Bubble(t, m, Some(s), event, pass) == Bubble(t, m, At(Up(t, s), k), event, pass)
    decreases k
  {
    hide Perform, Fits, Execute, Shallow, Targets, Match, NoneTakes;
    if k > 0 {
      assert Quiet(t, Up(t, s)[0], event, pass);
      MatchIsFirst(t.nodes[s].transitions, event, pass);
      match t.nodes[s].parent
      case None =>
      case Some(p) =>
        assert Up(t, s) == [s] + Up(t, p);
        assert forall i :: 0 <= i < k - 1 ==> Up(t, p)[i] == Up(t, s)[i + 1];
        BubblesTo(t, m, p, k - 1, event, pass);
    }
  }

  /** An event that no state of the chain takes changes nothing and is not handled. */
  lemma NobodyAnswers(t: Table, m: Machine, event: nat, pass: nat -> bool)
    requires MachineOk(t, m) && m.current.Some?
    requires Passed(t, Up(t, m.current.value), |Up(t, m.current.value)|, event, pass)
    ensures Dispatch(t, m, event, pass) == (m, false)
  {
    BubblesTo(t, m, m.current.value, |Up(t, m.current.value)|, event, pass);
    hide Up, Match, Passed, Shallow, Targets;
  }

  function Acts(tr: Transition): seq<Event> { if tr.action.Some? then [Acted(tr.action.value)] else [] }

  /**
   The innermost state that takes the event answers it with its first transition: the action runs first;
   an internal transition leaves the state alone; another one leaves the unshared states innermost first,
   enters the others outermost first, and ends in the target; one to the current state leaves and enters it.
   */
  lemma InnermostAnswers(t: Table, m: Machine, event: nat, pass: nat -> bool, k: nat, j: nat)
    requires MachineOk(t, m) && m.current.Some?
    requires k < |Up(t, m.current.value)| && Passed(t, Up(t, m.current.value), k, event, pass)
    requires Answers(t, Up(t, m.current.value)[k], j, event, pass)
    ensures var here := m.current.value;
      var tr := t.nodes[Up(t, here)[k]].transitions[j];
      var acted := m.trace + Acts(tr);
      && (tr.internal ==> Dispatch(t, m, event, pass) == (m.(trace := acted), true))
      && (!tr.internal && tr.target == Some(here) ==>
            Dispatch(t, m, event, pass) == (m.(trace := acted + Exits(t, [here]) + Entries(t, [here])), true))
      && (!tr.internal && tr.target.Some? && tr.target != Some(here) ==>
            IsState(t, tr.target.value) && forall x: nat, y: nat ::
              Splits(Up(t, here), Up(t, tr.target.value), x, y) && y <= m.bufferSize ==>
                Dispatch(t, m, event, pass) ==
                  (m.(current := tr.target, trace := acted + Exits(t, Up(t, here)[..x]) + Entries(t, Up(t, tr.target.value)[..y])), true))
  {
    var here := m.current.value;
    var s := Up(t, here)[k];
    assert s in Up(t, here);
    var tr := t.nodes[s].transitions[j];
    var a := m.(trace := m.trace + Acts(tr));
    BubblesTo(t, m, here, k, event, pass);
    MatchIs(t.nodes[s].transitions, j, event, pass);
    MatchTarget(t, s, event, pass);
    ActedIs(m, tr);
    hide Up, Match, Passed, Shallow, Perform, Fits, Splits;
    if !tr.internal && tr.target.Some? { LeadsTo(t, a, tr.target.value); }
  }

  lemma ActedIs(m: Machine, tr: Transition)
    ensures WithAction(m, tr) == m.(trace := m.trace + Acts(tr))
  {
  }

  lemma SplitFits(ups: seq<Id>, downs: seq<Id>, x: nat, y: nat)
    requires Splits(ups, downs, x, y)
    ensures x <= |ups| && y <= |downs|
  {
  }

  lemma LeadsTo(t: Table, m: Machine, target: Id)
    requires MachineOk(t, m) && m.current.Some? && IsState(t, target)
    ensures m.current == Some(target) ==>
      Fits(t, m, target) && Perform(t, m, target) == m.(trace := m.trace + Exits(t, [target]) + Entries(t, [target]))
    ensures m.current != Some(target) ==> forall x: nat, y: nat ::
      Splits(Up(t, m.current.value), Up(t, target), x, y) && y <= m.bufferSize ==>
        && Fits(t, m, target)
        && Perform(t, m, target) ==
             m.(current := Some(target), trace := m.trace + Exits(t, Up(t, m.current.value)[..x]) + Entries(t, Up(t, target)[..y]))
  {
    hide Up, Splits, Shallow;
    if m.current != Some(target) {
      forall x: nat, y: nat | Splits(Up(t, m.current.value), Up(t, target), x, y) && y <= m.bufferSize
        ensures Fits(t, m, target)
        ensures x <= |Up(t, m.current.value)| && y <= |Up(t, target)|
        ensures Perform(t, m, target) ==
             m.(current := Some(target), trace := m.trace + Exits(t, Up(t, m.current.value)[..x]) + Entries(t, Up(t, target)[..y]))
      {
        SplitFits(Up(t, m.current.value), Up(t, target), x, y);
        PerformRunsThePath(t, m, target, x, y);
        SearchSplits(t, m.current.value, target);
        var c := FindLca(t, m.current, Some(target));
        SplitIsUnique(Up(t, m.current.value), Up(t, target), x, y,
                      |Below(Up(t, m.current.value), c)|, |Below(Up(t, target), c)|);
      }
    }
  }
}
