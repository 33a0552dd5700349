/** Where a session's lifecycle stands, told by the events that arrived and the evidence they brought. */
module SessionFsmLaws {
  // The statements name no rule of the table: an event is told by its number, its evidence by what the caller saw,
  // and a phase by the number of its state.

  import opened Options
  import opened HsmSpec
  import opened SessionFsmSpec

  /** A connectivity check; without a context, or on a known connection. */
  predicate Binding(a: Arrival) { a.event == 1 && (a.ctx == None || a.ctx.value.conn) }

  /** A record of the handshake: at least thirteen octets, the first one between 20 and 63. */
  predicate Record(a: Arrival) {
    a.event == 2 && (a.ctx == None || (
      && a.ctx.value.data.Some?
      && |a.ctx.value.data.value| >= 13 && 20 <= a.ctx.value.data.value[0] <= 63))
  }

  /** The end of the handshake or the readiness of the keys. */
  predicate Done(a: Arrival) { a.event == 3 || a.event == 4 }

  /** A timeout, a close or a goodbye. */
  predicate Ending(a: Arrival) { a.event == 0x10 || a.event == 0x20 || a.event == 0x30 }

  /** What has been seen by the end of a run that began in phase `p`. */
  predicate WasBound(p: Phase, evs: seq<Arrival>) { p != New || exists i :: 0 <= i < |evs| && Binding(evs[i]) }

  predicate WasShaken(p: Phase, evs: seq<Arrival>) {
    (p != New && p != IceBound) || exists j :: 0 <= j < |evs| && Record(evs[j]) && WasBound(p, evs[..j])
  }

  predicate WasReady(p: Phase, evs: seq<Arrival>) {
    (p == SrtpReady || p == Closed) || exists k :: 0 <= k < |evs| && Done(evs[k]) && WasShaken(p, evs[..k])
  }

  predicate WasEnded(p: Phase, evs: seq<Arrival>) { p == Closed || exists i :: 0 <= i < |evs| && Ending(evs[i]) }

  lemma BoundStep(p: Phase, evs: seq<Arrival>)
    requires evs != []
    ensures var n := |evs| - 1; WasBound(p, evs) <==> WasBound(p, evs[..n]) || Binding(evs[n])
  {
    var n := |evs| - 1;
    assert forall i :: 0 <= i < n ==> evs[..n][i] == evs[i];
  }

  lemma ShakenStep(p: Phase, evs: seq<Arrival>)
    requires evs != []
    ensures var n := |evs| - 1; WasShaken(p, evs) <==> WasShaken(p, evs[..n]) || (Record(evs[n]) && WasBound(p, evs[..n]))
  {
    var n := |evs| - 1;
    hide Record, WasBound;
    assert forall i :: 0 <= i < n ==> evs[..n][i] == evs[i] && evs[..n][..i] == evs[..i];
  }

  lemma ReadyStep(p: Phase, evs: seq<Arrival>)
    requires evs != []
    ensures var n := |evs| - 1; WasReady(p, evs) <==> WasReady(p, evs[..n]) || (Done(evs[n]) && WasShaken(p, evs[..n]))
  {
    var n := |evs| - 1;
    hide Done, WasShaken;
    assert forall i :: 0 <= i < n ==> evs[..n][i] == evs[i] && evs[..n][..i] == evs[..i];
  }

  lemma EndedStep(p: Phase, evs: seq<Arrival>)
    requires evs != []
    ensures var n := |evs| - 1; WasEnded(p, evs) <==> WasEnded(p, evs[..n]) || Ending(evs[n])
  {
    var n := |evs| - 1;
    assert forall i :: 0 <= i < n ==> evs[..n][i] == evs[i];
  }

  function StandsAt(p: Phase, evs: seq<Arrival>): Phase {
    if WasEnded(p, evs) then Closed
    else if WasReady(p, evs) then SrtpReady
    else if WasShaken(p, evs) then DtlsHandshake
    else if WasBound(p, evs) then IceBound
    else New
  }

  /** One seen thing brings the next: a record needs a binding before it, readiness a record. */
  lemma {:induction false} InOrder(p: Phase, evs: seq<Arrival>)
    ensures WasShaken(p, evs) ==> WasBound(p, evs)
    ensures WasReady(p, evs) ==> WasShaken(p, evs)
  {
    if evs != [] {
      hide WasBound, WasShaken, WasReady;
      InOrder(p, evs[..|evs| - 1]);
      BoundStep(p, evs);
      ShakenStep(p, evs);
      ReadyStep(p, evs);
    }
  }

  lemma {:induction false} RunStandsAt(p: Phase, evs: seq<Arrival>)
    ensures FlatRun(p, evs) == StandsAt(p, evs)
  {
    if evs != [] {
      var n := |evs| - 1;
      hide WasBound, WasShaken, WasReady, WasEnded;
      RunStandsAt(p, evs[..n]);
      InOrder(p, evs[..n]);
      BoundStep(p, evs);
      ShakenStep(p, evs);
      ReadyStep(p, evs);
      EndedStep(p, evs);
    }
  }

  /**
   Where the machine stands after any events is decided by what arrived: it is closed when some event
   ended it, else ready when the handshake ended after a record that came after a binding, else shaking
   hands, else bound, else new.
   */
  lemma StandsExactly(m: Machine, p: Phase, evs: seq<Arrival>)
    requires InPhase(m, p) && m.bufferSize >= 1
    ensures DispatchRun(m, evs) == m.(current := Some(
      if WasEnded(p, evs) then 5 else if WasReady(p, evs) then 4 else if WasShaken(p, evs) then 3 else if WasBound(p, evs) then 2 else 1))
  {
    RunStandsAt(p, evs);
    RunRefinesFlat(m, p, evs);
    hide DispatchRun, WasBound, WasShaken, WasReady, WasEnded, InPhase;
  }

  /** A binding, then a record, then the end of the handshake make a new session ready, and any ending closes it. */
  lemma ThreeMakeReady(m: Machine, binding: Arrival, record: Arrival, done: Arrival, ending: Arrival)
    requires InPhase(m, New) && m.bufferSize >= 1
    requires Binding(binding) && Record(record) && Done(done) && Ending(ending)
    ensures DispatchRun(m, [binding, record, done]).current == Some(4)
    ensures DispatchRun(m, [binding, record, done, ending]).current == Some(5)
  {
    var three, four := [binding, record, done], [binding, record, done, ending];
    StandsExactly(m, New, three);
    StandsExactly(m, New, four);
    hide DispatchRun, InPhase;
    assert three[..1][0] == binding && three[..2][1] == record && three[..2][..1] == [binding];
    assert WasBound(New, three[..1]) && three[1] == record;
    assert WasShaken(New, three[..2]) && three[2] == done;
    assert four[3] == ending;
  }

  /** Which events are answered in a phase; every other one is reported as not handled. */
  lemma AnsweredExactly(m: Machine, p: Phase, a: Arrival)
    requires InPhase(m, p) && m.bufferSize >= 1
    ensures Dispatch(SessionTable(), m, a.event, Guards(a.ctx)).1 <==>
      || Ending(a)
      || (p != Closed && Binding(a))
      || (p == IceBound && Record(a))
      || (p == DtlsHandshake && Done(a))
      || (p == SrtpReady && a.event == 4)
  {
    DispatchRefinesFlat(m, p, a.event, a.ctx);
    hide Dispatch, SessionTable, InPhase;
  }
}
