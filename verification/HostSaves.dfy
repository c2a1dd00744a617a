/**
  Saving one host: saveHost asks for a flush only when the host differs from what the flush
  thread recorded as it woke, which is not always what it then wrote
  (app/backend/computermanager.cpp:362-372, 558-569).
*/
module HostSaves {

  import opened Options
  import opened HostStore
  import opened HostFlusher

  /**
    `serialized` is the map recorded at the last wake-up. `unsaved` and `strayed` are history:
    the uuids touched since they were last saved, by saveHost or saveHosts; and those which the
    last primary array holds otherwise than `serialized` does.
  */
  datatype Saver = Saver(machine: Machine, serialized: Hosts, unsaved: set<string>, strayed: set<string>)

  datatype Event = Do(action: Action) | SaveHost(uuid: string)

  function UnsavedAfter(s: Saver, a: Action): (u: set<string>)
  {
    match a
    case SetHosts(hosts) => s.unsaved + Differing(s.machine.known, hosts)
    case Change(u, _) => s.unsaved + {u}
    case SaveHosts => {}
    case _ => s.unsaved
  }

  /** Hosts that came or went between wake-up and loop, and hosts changed when they are written. */
  function StrayedAfter(s: Saver): (u: set<string>)
  {
    match s.machine.phase
    case PrimaryBegun =>
      set u | u in s.machine.known.Keys + s.serialized.Keys && (u !in s.machine.known || u !in s.serialized)
    case PrimaryLoop(o, i) =>
      if i < |o| && o[i] in s.machine.known && o[i] in s.serialized && s.machine.known[o[i]] != s.serialized[o[i]]
      then s.strayed + {o[i]} else s.strayed
    case _ => s.strayed
  }

  /** None when the event cannot happen now. */
  function Step(s: Saver, e: Event): (r: Option<Saver>)
  {
    match e
    case Do(a) =>
      var m := HostFlusher.Step(s.machine, a);
      if m.None? then None
      else
        Some(Saver(m.value,
                   if s.machine.phase == Idle && m.value.phase == Woken then s.machine.known else s.serialized,
                   UnsavedAfter(s, a),
                   if a.FlushStep? then StrayedAfter(s) else s.strayed))
    case SaveHost(u) =>
      var m := s.machine;
      if u !in m.known then None
      else if u in s.serialized && s.serialized[u] == m.known[u] then Some(s.(unsaved := s.unsaved - {u}))
      else
        var m' := HostFlusher.Step(m, SaveHosts);
        if m'.None? then None else Some(s.(machine := m'.value, unsaved := {}))
  }

  // ---------------------------------------------------------------- the invariant

  predicate SameAt(a: Hosts, b: Hosts, u: string)
  {
    (u in a <==> u in b) && (u in a ==> a[u] == b[u])
  }

  /** The strayed uuids are those at which `hosts` is not what was recorded. */
  ghost predicate Recorded(hosts: Hosts, serialized: Hosts, strayed: set<string>)
  {
    forall u :: u in strayed <==> !SameAt(hosts, serialized, u)
  }

  /** Of the items written so far, and of the uuids still to come. */
  ghost predicate LoopRecorded(s: Saver, order: seq<string>, next: nat)
  {
    var cells := s.machine.store.primary.cells;
    && LoopOk(s.machine, order, next)
    && (forall j :: 0 <= j < next ==>
          (order[j] in s.strayed <==> order[j] !in s.serialized || cells[j].host != s.serialized[order[j]]))
    && (forall j :: next <= j < |order| ==> (order[j] in s.strayed <==> order[j] !in s.serialized))
    && (forall u :: u !in order ==> (u in s.strayed <==> u in s.serialized))
  }

  ghost predicate Inv(s: Saver)
  {
    && HostFlusher.Inv(s.machine)
    && (!s.machine.needsFlush ==> forall u :: u !in s.unsaved ==> SameAt(s.machine.known, s.serialized, u))
    && match s.machine.phase
       case Idle => Recorded(Restored(s.machine.store), s.serialized, s.strayed)
       case Stopped => Recorded(Restored(s.machine.store), s.serialized, s.strayed)
       case PrimaryLoop(order, next) => LoopRecorded(s, order, next)
       case PrimaryDone => Recorded(PrimaryHosts(s.machine.store), s.serialized, s.strayed)
       case _ => true
  }

  lemma LoopBegins(s: Saver, order: seq<string>)
    requires s.machine.store.primary.cells == map[] && s.machine.phase == PrimaryBegun
        && Enumerates(order, s.machine.known)
    ensures var m := s.machine.(phase := PrimaryLoop(order, 0));
            LoopRecorded(s.(machine := m, strayed := StrayedAfter(s)), order, 0)
  {
  }

  lemma LoopGoesOn(s: Saver, order: seq<string>, next: nat)
    requires s.machine.phase == PrimaryLoop(order, next) && next < |order| && LoopRecorded(s, order, next)
    ensures order[next] in s.machine.known
    ensures var m := s.machine;
            var store := Apply(m.store, WriteItem(Primary, next, Item(order[next], m.known[order[next]]), true));
            LoopRecorded(s.(machine := m.(store := store, phase := PrimaryLoop(order, next + 1)),
              strayed := StrayedAfter(s)), order, next + 1)
  {
    hide LoopOk;
    var m := s.machine;
    LoopWrites(m, order, next);
    var store := Apply(m.store, WriteItem(Primary, next, Item(order[next], m.known[order[next]]), true));
    LoopCells(m, order, next);
    assert store.primary.cells == m.store.primary.cells[next := Item(order[next], m.known[order[next]])];
  }

  lemma LoopCells(m: Machine, order: seq<string>, next: nat)
    requires LoopOk(m, order, next)
    ensures next !in m.store.primary.cells && next <= |order|
    ensures forall j :: 0 <= j < next ==> j in m.store.primary.cells && m.store.primary.cells[j].uuid == order[j]
    ensures forall i, j :: 0 <= i < j < |order| ==> order[i] != order[j]
    ensures next < |order| ==> order[next] in m.known
  {
  }

  lemma LoopCloses(s: Saver, order: seq<string>)
    requires LoopRecorded(s, order, |order|)
    ensures Recorded(HostsOf(Items(s.machine.store.primary.(size := Some(|order|)))), s.serialized, s.strayed)
  {
    hide HostsOf, LoopOk, Items;
    LoopCells(s.machine, order, |order|);
    var items := Items(s.machine.store.primary.(size := Some(|order|)));
    assert |items| == |order|;
    assert forall i :: 0 <= i < |items| ==> items[i] == CellAt(s.machine.store.primary.(size := Some(|order|)), i);
    assert forall i :: 0 <= i < |items| ==> items[i].uuid == order[i];
    HostsOfDistinct(items);
    forall u ensures u in s.strayed <==> !SameAt(HostsOf(items), s.serialized, u) {
      if u in order {
        var j :| 0 <= j < |order| && order[j] == u;
        assert items[j].uuid == u;
      }
    }
  }

  lemma FlushKeepsInv(s: Saver, order: seq<string>)
    requires Inv(s) && Step(s, Do(FlushStep(order))).Some?
    ensures Inv(Step(s, Do(FlushStep(order))).value)
  {
    hide HostFlusher.Inv, HostsOf, Enumerates, LoopOk, LoopRecorded, Recorded, Written;
    FlushStepKeepsInv(s.machine, order);
    match s.machine.phase
    case PrimaryBegun =>
      CellsEmpty(s.machine);
      LoopBegins(s, order);
    case PrimaryLoop(o, i) =>
      LoopStart(s, o, i);
      if i < |o| {
        LoopGoesOn(s, o, i);
      } else {
        LoopCloses(s, o);
      }
    case PrimaryDone => RestoredFromPrimary(Apply(s.machine.store, Remove(Backup)));
    case _ =>
  }

  lemma CellsEmpty(m: Machine)
    requires HostFlusher.Inv(m) && m.phase == PrimaryBegun
    ensures m.store.primary.cells == map[]
  {
  }

  lemma LoopStart(s: Saver, order: seq<string>, next: nat)
    requires LoopRecorded(s, order, next)
    ensures next <= |order|
  {
  }

  lemma StepKeepsInv(s: Saver, e: Event)
    requires Inv(s) && Step(s, e).Some?
    ensures Inv(Step(s, e).value)
  {
    match e
    case Do(a) =>
      if a.FlushStep? {
        FlushKeepsInv(s, a.order);
      } else {
        OtherKeepsInv(s, a);
      }
    case SaveHost(u) => SaveHostKeepsInv(s, u);
  }

  lemma OtherKeepsInv(s: Saver, a: Action)
    requires Inv(s) && !a.FlushStep? && Step(s, Do(a)).Some?
    ensures Inv(Step(s, Do(a)).value)
  {
    hide HostFlusher.Inv, Restored, PrimaryHosts, HostsOf, LoopOk, Recorded;
    HostFlusher.StepKeepsInv(s.machine, a);
    LoopOkKept(s.machine, a);
  }

  lemma SaveHostKeepsInv(s: Saver, u: string)
    requires Inv(s) && Step(s, SaveHost(u)).Some?
    ensures Inv(Step(s, SaveHost(u)).value)
  {
    hide HostFlusher.Inv, Restored, PrimaryHosts, HostsOf, LoopOk, Recorded;
    if HostFlusher.Step(s.machine, SaveHosts).Some? {
      HostFlusher.StepKeepsInv(s.machine, SaveHosts);
      LoopOkKept(s.machine, SaveHosts);
    }
  }

  lemma LoopOkKept(m: Machine, a: Action)
    requires HostFlusher.Inv(m) && !a.FlushStep? && HostFlusher.Step(m, a).Some?
    ensures m.phase.PrimaryLoop? ==> LoopOk(HostFlusher.Step(m, a).value, m.phase.order, m.phase.next)
  {
    HostFlusher.StepKeepsInv(m, a);
  }

  // ---------------------------------------------------------------- runs

  /** After a restart, which records the hosts it found. */
  function Initial(store: Store): (s: Saver)
  {
    Saver(HostFlusher.Initial(store), Restored(store), {}, {})
  }

  function Run(s: Saver, events: seq<Event>): (r: Option<Saver>)
    decreases |events|
  {
    if events == [] then Some(s)
    else
      match Run(s, events[..|events| - 1])
      case None => None
      case Some(before) => Step(before, events[|events| - 1])
  }

  lemma {:induction false} RunKeepsInv(store: Store, events: seq<Event>)
    requires Run(Initial(store), events).Some?
    ensures Inv(Run(Initial(store), events).value)
    decreases |events|
  {
    hide Inv, Step;
    if events == [] {
      InitialInv(store);
    } else {
      var n := |events| - 1;
      RunKeepsInv(store, events[..n]);
      StepKeepsInv(Run(Initial(store), events[..n]).value, events[n]);
    }
  }

  lemma InitialInv(store: Store)
    ensures Inv(Initial(store))
  {
    hide Restored;
  }

  /**
    In every interleaving: with the flusher idle and no flush due, or stopped, a host that was
    saved after its last change is as a restart finds it, if and only if the last primary array
    has it as it was when the flusher woke.
  */
  lemma SavedHostKept(store: Store, events: seq<Event>, s: Saver, u: string)
    requires Run(Initial(store), events) == Some(s)
    requires (s.machine.phase == Idle && !s.machine.needsFlush) || s.machine.phase == Stopped
    requires u !in s.unsaved
    ensures SameAt(Restored(s.machine.store), s.machine.known, u) <==> u !in s.strayed
  {
    hide HostFlusher.Inv, Run, Restored;
    RunKeepsInv(store, events);
    NotStopped(s.machine);
  }

  // ---------------------------------------------------------------- a host that is lost

  lemma RunThen(s: Saver, events: seq<Event>, e: Event)
    requires Run(s, events).Some?
    ensures Run(s, events + [e]) == Step(Run(s, events).value, e)
  {
    hide Step;
    assert (events + [e])[..|events|] == events;
  }

  /** What the flusher does does not depend on the history. */
  lemma {:induction false} HistoryIrrelevant(m: Machine, saved: Option<Hosts>, touched: set<string>, steps: seq<Action>)
    requires forall i :: 0 <= i < |steps| ==> steps[i].FlushStep?
    ensures var a, b := HostFlusher.Run(m, steps), HostFlusher.Run(m.(saved := saved, touched := touched), steps);
            (a.Some? <==> b.Some?) && (a.Some? ==> b.value == a.value.(saved := saved, touched := touched))
    decreases |steps|
  {
    hide FlusherStep;
    if steps != [] {
      var n := |steps| - 1;
      HistoryIrrelevant(m, saved, touched, steps[..n]);
      var before := HostFlusher.Run(m, steps[..n]);
      if before.Some? {
        HistoryOfStep(before.value, saved, touched, steps[n].order);
      }
    }
  }

  lemma HistoryOfStep(m: Machine, saved: Option<Hosts>, touched: set<string>, order: seq<string>)
    ensures var a, b := FlusherStep(m, order), FlusherStep(m.(saved := saved, touched := touched), order);
            (a.Some? <==> b.Some?) && (a.Some? ==> b.value == a.value.(saved := saved, touched := touched))
  {
    if InLoop(m.phase) {
      HistoryOfLoop(m, saved, touched, order);
    } else {
      hide Apply, Enumerates;
    }
  }

  lemma HistoryOfLoop(m: Machine, saved: Option<Hosts>, touched: set<string>, order: seq<string>)
    requires InLoop(m.phase)
    ensures var a, b := FlusherStep(m, order), FlusherStep(m.(saved := saved, touched := touched), order);
            (a.Some? <==> b.Some?) && (a.Some? ==> b.value == a.value.(saved := saved, touched := touched))
  {
    hide Apply, Enumerates;
  }

  function Lifted(steps: seq<Action>): (events: seq<Event>)
    ensures |events| == |steps| && forall i :: 0 <= i < |steps| ==> events[i] == Do(steps[i])
  {
    seq(|steps|, i requires 0 <= i < |steps| => Do(steps[i]))
  }

  /** With no flush due, the flusher's own steps record nothing anew. */
  lemma {:induction false} FlushStepsLifted(s: Saver, events: seq<Event>, steps: seq<Action>)
    requires Run(s, events).Some? && !Run(s, events).value.machine.needsFlush
    requires forall i :: 0 <= i < |steps| ==> steps[i].FlushStep?
    requires HostFlusher.Run(Run(s, events).value.machine, steps).Some?
    ensures var before, after := Run(s, events).value, Run(s, events + Lifted(steps));
            && after.Some?
            && after.value.machine == HostFlusher.Run(before.machine, steps).value
            && after.value.serialized == before.serialized && after.value.unsaved == before.unsaved
            && !after.value.machine.needsFlush
    decreases |steps|
  {
    hide Step, FlusherStep, StrayedAfter;
    if steps == [] {
      assert events + Lifted(steps) == events;
    } else {
      var n := |steps| - 1;
      FlushStepsLifted(s, events, steps[..n]);
      assert Lifted(steps) == Lifted(steps[..n]) + [Do(steps[n])];
      assert events + Lifted(steps) == events + Lifted(steps[..n]) + [Do(steps[n])];
      RunThen(s, events + Lifted(steps[..n]), Do(steps[n]));
      FlushLifted(Run(s, events + Lifted(steps[..n])).value, steps[n]);
    }
  }

  lemma FlushLifted(s: Saver, a: Action)
    requires a.FlushStep? && !s.machine.needsFlush && HostFlusher.Step(s.machine, a).Some?
    ensures var r := Step(s, Do(a));
            && r.Some? && r.value.machine == HostFlusher.Step(s.machine, a).value
            && r.value.serialized == s.serialized && r.value.unsaved == s.unsaved
            && !r.value.machine.needsFlush
  {
    hide Apply, Enumerates, StrayedAfter;
  }

  /**
    Strayed hosts do occur. From any store and for any host: another save wakes the flusher, the
    host changes, is written, changes back and is saved. No flush is due, and a restart finds
    the host as it was in between.
  */
  lemma SavedHostLost(store: Store, u: string, other: Host) returns (events: seq<Event>, s: Saver)
    requires u in Restored(store) && other != Restored(store)[u]
    ensures Run(Initial(store), events) == Some(s)
    ensures s.machine.phase == Idle && !s.machine.needsFlush && s.unsaved == {}
    ensures s.machine.known == Restored(store)
    ensures u in Restored(s.machine.store) && Restored(s.machine.store)[u] == other
  {
    hide HostStore.Restored, Run, Step, HostFlusher.Run, FlusherStep;
    var start := Initial(store);
    var woken := [Do(SaveHosts)] + [Do(FlushStep([]))] + [Do(Change(u, other))];
    WokenThenChanged(store, u, other);
    var s3 := Run(start, woken).value;
    var m := s3.machine;
    var anew := m.(saved := Some(m.known), touched := {});
    var steps, m' := FlushCompletes(anew);
    HistoryIrrelevant(anew, m.saved, m.touched, steps);
    assert anew.(saved := m.saved, touched := m.touched) == m;
    FlushStepsLifted(start, woken, steps);
    var done := woken + Lifted(steps);
    RunThen(start, done, Do(Change(u, Restored(store)[u])));
    var s4 := Run(start, done).value;
    ChangeBack(s4, u, Restored(store)[u]);
    events := done + [Do(Change(u, Restored(store)[u]))] + [SaveHost(u)];
    RunThen(start, done + [Do(Change(u, Restored(store)[u]))], SaveHost(u));
    s := Run(start, events).value;
    assert m.known[u := Restored(store)[u]] == Restored(store);
  }

  lemma WokenThenChanged(store: Store, u: string, other: Host)
    requires u in Restored(store)
    ensures var r := Run(Initial(store), [Do(SaveHosts)] + [Do(FlushStep([]))] + [Do(Change(u, other))]);
            && r.Some? && r.value.serialized == Restored(store) && r.value.unsaved == {u}
            && r.value.machine.phase == Woken && !r.value.machine.needsFlush
            && r.value.machine.known == Restored(store)[u := other]
            && HostFlusher.Inv(r.value.machine.(saved := Some(r.value.machine.known), touched := {}))
  {
    hide Restored, Run;
    var start := Initial(store);
    RunEmpty(start);
    RunThen(start, [], Do(SaveHosts));
    assert [] + [Do(SaveHosts)] == [Do(SaveHosts)];
    RunThen(start, [Do(SaveHosts)], Do(FlushStep([])));
    RunThen(start, [Do(SaveHosts)] + [Do(FlushStep([]))], Do(Change(u, other)));
  }

  lemma RunEmpty(s: Saver)
    ensures Run(s, []) == Some(s)
  {
  }

  lemma ChangeBack(s: Saver, u: string, host: Host)
    requires u in s.machine.known && u in s.serialized && s.serialized[u] == host && s.unsaved == {u}
    ensures var r := Step(s, Do(Change(u, host)));
            && r.Some?
            && var r' := Step(r.value, SaveHost(u));
               && r'.Some? && r'.value.unsaved == {} && r'.value.serialized == s.serialized
               && r'.value.machine.phase == s.machine.phase && r'.value.machine.needsFlush == s.machine.needsFlush
               && r'.value.machine.store == s.machine.store && r'.value.machine.known == s.machine.known[u := host]
  {
  }
}
