/** The session's machine: the table above driven through the engine. */
module SessionFsm {
  import opened Options
  import opened HsmSpec
  import opened SessionFsmSpec
  import H = Hsm

  const MAX_DEPTH := 2

  class SessionMachine {
    const sm: H.Hsm

    ghost predicate Valid()
      reads this, sm
    {
      sm.Valid() && sm.table == SessionTable() && (exists p :: sm.current == Some(StateOf(p)))
    }

    ghost predicate Is(p: Phase)
      reads this, sm
    {
      sm.current == Some(StateOf(p))
    }

    constructor (size: nat, reporter: bool)
      requires 0 < size < 256
      ensures Valid() && Is(New) && sm.hook == reporter && fresh(sm) && fresh(sm.buffer)
    {
      TableIsForest();
      TableIsShallow();
      sm := new H.Hsm(SessionTable(), StateOf(New), size, reporter);
    }

    /** Offers an event with its evidence; the flat machine says what comes of it. */
    method DispatchCtx(event: nat, ctx: Option<Context>, ghost p: Phase) returns (handled: bool)
      requires Valid() && Is(p)
      modifies sm, sm.buffer
      ensures Valid() && Is(Flat(p, event, ctx).0) && handled == Flat(p, event, ctx).1
      ensures sm.trace == old(sm.trace) && sm.hook == old(sm.hook)
      ensures sm.reported == old(sm.reported) + if sm.hook && !handled then [(event, Some(StateOf(p)))] else []
    {
      DispatchRefinesFlat(sm.Value(), p, event, ctx);
      hide SessionTable, Dispatch;
      handled := sm.DispatchEvent(event, Guards(ctx));
    }

    /** Sets or clears the report of unhandled events. */
    method SetReporter(reporter: bool)
      requires Valid()
      modifies sm`hook
      ensures Valid() && sm.hook == reporter
    {
      sm.SetHook(reporter);
    }

    method GetState() returns (r: Option<Phase>)
      requires Valid()
      ensures r.Some? && Is(r.value)
    {
      Chains();
      var in4 := sm.IsInState(4);
      if in4 { return Some(SrtpReady); }
      var in3 := sm.IsInState(3);
      if in3 { return Some(DtlsHandshake); }
      var in2 := sm.IsInState(2);
      if in2 { return Some(IceBound); }
      var in5 := sm.IsInState(5);
      if in5 { return Some(Closed); }
      var in1 := sm.IsInState(1);
      if in1 { return Some(New); }
      return None;
    }

    /** The DTLS context still has to be created. */
    method DtlsPending() returns (r: bool)
      requires Valid()
      ensures r == (Is(New) || Is(IceBound))
    {
      Chains();
      r := sm.IsInState(1);
      if !r { r := sm.IsInState(2); }
    }

    /** Adopts a phase learned from the shared registry; an unknown one changes nothing. */
    method Restore(state: Option<Phase>) returns (ok: bool)
      requires Valid()
      modifies sm`current
      ensures Valid() && ok == state.Some?
      ensures if ok then Is(state.value) else sm.current == old(sm.current)
    {
      ok := sm.RestoreState(if state.Some? then Some(StateOf(state.value)) else None);
    }
  }
}
