/**
  The delayed flush thread beside the threads that change and save hosts, interleaved step by
  step (app/backend/computermanager.cpp:345-419).
*/
module HostFlusher {

  import opened Options
  import opened HostStore

  /** Where the flush thread is. In a loop it holds the manager's lock for reading. */
  datatype Phase =
    | Idle | Stopped
    | Woken | BackupBegun | BackupLoop(order: seq<string>, next: nat) | BackupDone
    | PrimaryRemoved | PrimaryBegun | PrimaryLoop(order: seq<string>, next: nat) | PrimaryDone

  /**
    `saved` and `touched` are history: the hosts as of the latest saveHosts, and the uuids
    whose hosts were changed, added or removed since.
  */
  datatype Machine = Machine(
    known: Hosts, needsFlush: bool, quitting: bool, phase: Phase, store: Store,
    saved: Option<Hosts>, touched: set<string>)

  datatype Action =
    | SetHosts(hosts: Hosts)          // hosts come, go or move to other uuids
    | Change(uuid: string, host: Host) // a host's own attributes change, under its own lock
    | SaveHosts
    | Quit
    | FlushStep(order: seq<string>)    // the flush thread's next step; `order` is the map's

  function Differing(a: Hosts, b: Hosts): (d: set<string>)
  {
    set u | u in a.Keys + b.Keys && (u !in a || u !in b || a[u] != b[u])
  }

  predicate InLoop(p: Phase)
  {
    p.BackupLoop? || p.PrimaryLoop?
  }

  function FlusherStep(m: Machine, order: seq<string>): (r: Option<Machine>)
  {
    match m.phase
    case Idle =>
      if m.needsFlush then Some(m.(needsFlush := false, phase := Woken))
      else if m.quitting then Some(m.(phase := Stopped))
      else None
    case Stopped => None
    case Woken => Some(m.(store := Apply(m.store, BeginWriteArray(Backup)), phase := BackupBegun))
    case BackupBegun =>
      if Enumerates(order, m.known) then Some(m.(phase := BackupLoop(order, 0))) else None
    case BackupLoop(o, i) =>
      if i < |o| then
        if o[i] in m.known then
          Some(m.(store := Apply(m.store, WriteItem(Backup, i, Item(o[i], m.known[o[i]]), false)),
            phase := BackupLoop(o, i + 1)))
        else None
      else Some(m.(store := Apply(m.store, EndArray(Backup, i)), phase := BackupDone))
    case BackupDone => Some(m.(store := Apply(m.store, Remove(Primary)), phase := PrimaryRemoved))
    case PrimaryRemoved => Some(m.(store := Apply(m.store, BeginWriteArray(Primary)), phase := PrimaryBegun))
    case PrimaryBegun =>
      if Enumerates(order, m.known) then Some(m.(phase := PrimaryLoop(order, 0))) else None
    case PrimaryLoop(o, i) =>
      if i < |o| then
        if o[i] in m.known then
          Some(m.(store := Apply(m.store, WriteItem(Primary, i, Item(o[i], m.known[o[i]]), true)),
            phase := PrimaryLoop(o, i + 1)))
        else None
      else Some(m.(store := Apply(m.store, EndArray(Primary, i)), phase := PrimaryDone))
    case PrimaryDone => Some(m.(store := Apply(m.store, Remove(Backup)), phase := Idle))
  }

  /** None when the action cannot happen now. */
  function Step(m: Machine, a: Action): (r: Option<Machine>)
  {
    match a
    case SetHosts(hosts) =>
      if InLoop(m.phase) then None
      else Some(m.(known := hosts, touched := m.touched + Differing(m.known, hosts)))
    case Change(u, host) =>
      if u in m.known then Some(m.(known := m.known[u := host], touched := m.touched + {u})) else None
    case SaveHosts =>
      if m.phase == Stopped then None
      else Some(m.(needsFlush := true, saved := Some(m.known), touched := {}))
    case Quit => Some(m.(quitting := true))
    case FlushStep(order) => FlusherStep(m, order)
  }

  // ---------------------------------------------------------------- the invariant

  /** The same hosts, but for the uuids in `except`. */
  ghost predicate Agree(a: Hosts, b: Hosts, except: set<string>)
  {
    forall u :: u !in except ==> (u in a <==> u in b) && (u in a ==> a[u] == b[u])
  }

  /** Unless another flush is due, the primary array has the hosts as they are. */
  ghost predicate Flushed(m: Machine)
  {
    m.needsFlush || Agree(PrimaryHosts(m.store), m.known, m.touched)
  }

  /** The cells written so far, each fresh, touched, or to be written again. */
  predicate LoopOk(m: Machine, order: seq<string>, next: nat)
  {
    && next <= |order| && Enumerates(order, m.known)
    && (forall i :: i in m.store.primary.cells ==> i < next)
    && (forall i :: 0 <= i < next ==>
          && i in m.store.primary.cells && m.store.primary.cells[i].uuid == order[i]
          && (m.needsFlush || order[i] in m.touched || m.store.primary.cells[i].host == m.known[order[i]]))
  }

  /** Between flushes, once there was one, only the primary array is left. */
  ghost predicate Settled(m: Machine)
  {
    m.saved.Some? && !m.needsFlush ==> Flushed(m) && Items(m.store.backup) == []
  }

  ghost predicate Inv(m: Machine)
  {
    && (m.needsFlush || (m.phase != Idle && m.phase != Stopped) ==> m.saved.Some?)
    && (m.saved.Some? ==> Agree(m.known, m.saved.value, m.touched))
    && (m.phase == Stopped ==> !m.needsFlush)
    && match m.phase
       case Idle => Settled(m)
       case Stopped => Settled(m)
       case BackupLoop(order, next) => next <= |order| && Enumerates(order, m.known)
       case PrimaryRemoved => m.store.primary.cells == map[]
       case PrimaryBegun => m.store.primary.cells == map[]
       case PrimaryLoop(order, next) => LoopOk(m, order, next)
       case PrimaryDone => Flushed(m)
       case _ => true
  }

  lemma StillAgree(a: Hosts, b: Hosts, c: Hosts, except: set<string>)
    requires Agree(a, b, except)
    ensures Agree(a, c, except + Differing(b, c))
    ensures Agree(c, a, except + Differing(b, c))
  {
  }

  lemma AgreeSymmetric(a: Hosts, b: Hosts, except: set<string>)
    requires Agree(a, b, except)
    ensures Agree(b, a, except)
  {
  }

  lemma ChangeDiffers(hosts: Hosts, u: string, host: Host)
    requires u in hosts
    ensures Differing(hosts, hosts[u := host]) <= {u}
  {
  }

  lemma AgreeWeaker(a: Hosts, b: Hosts, except: set<string>, more: set<string>)
    requires Agree(a, b, except) && except <= more
    ensures Agree(a, b, more)
  {
  }

  /** Closing the primary array of a finished loop. */
  lemma LoopEnds(m: Machine, order: seq<string>)
    requires LoopOk(m, order, |order|)
    ensures m.needsFlush || Agree(HostsOf(Items(m.store.primary.(size := Some(|order|)))), m.known, m.touched)
  {
    hide HostsOf, Items;
    var items := Items(m.store.primary.(size := Some(|order|)));
    assert |items| == |order|;
    assert forall i :: 0 <= i < |items| ==> items[i] == CellAt(m.store.primary, i);
    assert forall i :: 0 <= i < |items| ==> items[i].uuid == order[i];
    HostsOfDistinct(items);
    if !m.needsFlush {
      ItemsAgree(m.known, items, order, m.touched);
    }
  }

  lemma ItemsAgree(known: Hosts, items: seq<Item>, order: seq<string>, except: set<string>)
    requires Enumerates(order, known) && |items| == |order|
    requires forall i :: 0 <= i < |items| ==> items[i].uuid == order[i]
    requires forall i :: 0 <= i < |items| ==> order[i] in except || items[i].host == known[order[i]]
    requires forall i :: 0 <= i < |items| ==>
        items[i].uuid in HostsOf(items) && HostsOf(items)[items[i].uuid] == items[i].host
    requires forall u :: u in HostsOf(items) ==> exists i :: 0 <= i < |items| && items[i].uuid == u
    ensures Agree(HostsOf(items), known, except)
  {
    hide HostsOf;
    forall u | u !in except
      ensures (u in HostsOf(items) <==> u in known) && (u in known ==> HostsOf(items)[u] == known[u])
    {
      if u in known {
        var i :| 0 <= i < |order| && order[i] == u;
        assert items[i].uuid == u;
      }
    }
  }

  lemma HostsChangeKeepsInv(m: Machine, m': Machine)
    requires Inv(m) && !InLoop(m.phase)
    requires m' == m.(known := m'.known, touched := m.touched + Differing(m.known, m'.known))
    ensures Inv(m')
  {
    hide Differing, Agree, PrimaryHosts, Items;
    if m.saved.Some? {
      AgreeSymmetric(m.known, m.saved.value, m.touched);
      StillAgree(m.saved.value, m.known, m'.known, m.touched);
    }
    if Agree(PrimaryHosts(m.store), m.known, m.touched) {
      StillAgree(PrimaryHosts(m.store), m.known, m'.known, m.touched);
    }
  }

  lemma ChangeKeepsInv(m: Machine, u: string, host: Host)
    requires Inv(m) && u in m.known
    ensures Inv(m.(known := m.known[u := host], touched := m.touched + {u}))
  {
    hide Differing, Agree, PrimaryHosts, Items;
    var known' := m.known[u := host];
    var m' := m.(known := known', touched := m.touched + {u});
    ChangeDiffers(m.known, u, host);
    if m.saved.Some? {
      AgreeSymmetric(m.known, m.saved.value, m.touched);
      StillAgree(m.saved.value, m.known, known', m.touched);
      AgreeWeaker(known', m.saved.value, m.touched + Differing(m.known, known'), m'.touched);
    }
    if Agree(PrimaryHosts(m.store), m.known, m.touched) {
      StillAgree(PrimaryHosts(m.store), m.known, known', m.touched);
      AgreeWeaker(PrimaryHosts(m.store), known', m.touched + Differing(m.known, known'), m'.touched);
    }
  }

  lemma LoopStarts(m: Machine, order: seq<string>)
    requires m.store.primary.cells == map[] && Enumerates(order, m.known)
    ensures LoopOk(m.(phase := PrimaryLoop(order, 0)), order, 0)
  {
  }

  lemma LoopWrites(m: Machine, order: seq<string>, next: nat)
    requires LoopOk(m, order, next) && next < |order|
    ensures order[next] in m.known
    ensures LoopOk(m.(store := Apply(m.store, WriteItem(Primary, next, Item(order[next], m.known[order[next]]), true)),
                      phase := PrimaryLoop(order, next + 1)), order, next + 1)
  {
  }

  lemma FlushStepKeepsInv(m: Machine, order: seq<string>)
    requires Inv(m) && FlusherStep(m, order).Some?
    ensures Inv(FlusherStep(m, order).value)
  {
    hide Agree, HostsOf, Enumerates, LoopOk, Written;
    match m.phase
    case PrimaryBegun => LoopStarts(m, order);
    case PrimaryLoop(o, i) =>
      if i < |o| {
        LoopWrites(m, o, i);
      } else {
        LoopIndex(m, o, i);
        LoopEnds(m, o);
      }
    case _ =>
  }

  lemma LoopIndex(m: Machine, order: seq<string>, next: nat)
    requires LoopOk(m, order, next)
    ensures next <= |order|
  {
  }

  /** Every action of every thread keeps the invariant. */
  lemma StepKeepsInv(m: Machine, a: Action)
    requires Inv(m) && Step(m, a).Some?
    ensures Inv(Step(m, a).value)
  {
    match a
    case SetHosts(hosts) => HostsChangeKeepsInv(m, Step(m, a).value);
    case Change(u, host) => ChangeKeepsInv(m, u, host);
    case SaveHosts =>
    case Quit =>
    case FlushStep(order) => FlushStepKeepsInv(m, order);
  }

  // ---------------------------------------------------------------- runs

  /** After a restart from any store, before anything was saved. */
  function Initial(store: Store): (m: Machine)
    ensures Inv(m)
  {
    Machine(Restored(store), false, false, Idle, store, None, {})
  }

  function Run(m: Machine, actions: seq<Action>): (r: Option<Machine>)
    decreases |actions|
  {
    if actions == [] then Some(m)
    else
      match Run(m, actions[..|actions| - 1])
      case None => None
      case Some(before) => Step(before, actions[|actions| - 1])
  }

  lemma {:induction false} RunKeepsInv(m: Machine, actions: seq<Action>)
    requires Inv(m) && Run(m, actions).Some?
    ensures Inv(Run(m, actions).value)
    decreases |actions|
  {
    hide Inv, Step;
    if actions != [] {
      var n := |actions| - 1;
      RunKeepsInv(m, actions[..n]);
      StepKeepsInv(Run(m, actions[..n]).value, actions[n]);
    }
  }

  /**
    However the threads interleave: when the flusher is idle and no flush is due, or when it
    has stopped, a restart finds the hosts as of the latest saveHosts, but for hosts changed after it; and if
    none were, exactly those hosts.
  */
  lemma SavedIsFlushed(store: Store, actions: seq<Action>, m: Machine)
    requires Run(Initial(store), actions) == Some(m)
    requires (m.phase == Idle && !m.needsFlush) || m.phase == Stopped
    requires m.saved.Some?
    ensures Agree(Restored(m.store), m.saved.value, m.touched)
    ensures m.touched == {} ==> Restored(m.store) == m.saved.value == m.known
  {
    hide PrimaryHosts, Items, HostsOf, Run;
    RunKeepsInv(Initial(store), actions);
    var h := PrimaryHosts(m.store);
    RestoredFromPrimary(m.store);
    AgreeThrough(h, m.known, m.saved.value, m.touched);
  }

  lemma RestoredFromPrimary(s: Store)
    requires Items(s.backup) == []
    ensures Restored(s) == PrimaryHosts(s)
  {
  }

  lemma AgreeThrough(a: Hosts, b: Hosts, c: Hosts, except: set<string>)
    requires Agree(a, b, except) && Agree(b, c, except)
    ensures Agree(a, c, except)
    ensures except == {} ==> a == b == c
  {
  }

  // ---------------------------------------------------------------- getting there

  /** Every host map has an order to go through it. */
  lemma {:induction false} SomeOrder(hosts: Hosts) returns (order: seq<string>)
    ensures Enumerates(order, hosts)
    decreases |hosts|
  {
    if hosts == map[] {
      order := [];
    } else {
      var u :| u in hosts;
      var rest := hosts - {u};
      assert |rest.Keys| < |hosts.Keys|;
      order := SomeOrder(rest);
      assert forall v :: v in hosts ==> v == u || v in rest;
      order := order + [u];
    }
  }

  lemma {:induction false} OrderLength(order: seq<string>, hosts: Hosts)
    requires Enumerates(order, hosts)
    ensures |order| == |hosts|
    decreases |order|
  {
    if order == [] {
      assert hosts == map[];
    } else {
      var last := order[|order| - 1];
      var rest := hosts - {last};
      OrderLength(order[..|order| - 1], rest);
      assert rest.Keys == hosts.Keys - {last};
      assert |rest| == |rest.Keys| && |hosts| == |hosts.Keys|;
    }
  }

  predicate LoopOkay(p: Phase)
  {
    InLoop(p) ==> p.next <= |p.order|
  }

  /** The steps from phase `p` to the end of the flush, with `n` hosts. */
  function StepsLeft(p: Phase, n: nat): (k: nat)
    requires LoopOkay(p)
  {
    match p
    case Idle => 0
    case Stopped => 0
    case Woken => 8 + n + n
    case BackupBegun => 7 + n + n
    case BackupLoop(o, i) => 6 + n + (|o| - i)
    case BackupDone => 5 + n
    case PrimaryRemoved => 4 + n
    case PrimaryBegun => 3 + n
    case PrimaryLoop(o, i) => 2 + (|o| - i)
    case PrimaryDone => 1
  }

  /** How many steps the flusher still has to take when nobody else does anything. */
  function Remaining(m: Machine): (n: nat)
    requires LoopOkay(m.phase)
  {
    StepsLeft(m.phase, |m.known|) + if m.needsFlush then 9 + |m.known| + |m.known| else 0
  }

  lemma LoopInRange(m: Machine)
    requires Inv(m)
    ensures LoopOkay(m.phase) && (InLoop(m.phase) ==> Enumerates(m.phase.order, m.known))
  {
    hide Enumerates;
  }

  lemma FlushEnabled(m: Machine, order: seq<string>)
    requires Inv(m) && Enumerates(order, m.known)
    requires m.needsFlush || (m.phase != Idle && m.phase != Stopped)
    ensures FlusherStep(m, order).Some?
  {
    hide Inv, Apply;
    LoopInRange(m);
    NotStopped(m);
  }

  lemma NotStopped(m: Machine)
    requires Inv(m)
    ensures m.phase == Stopped ==> !m.needsFlush
  {
  }

  /** A flush under way or asked for can always go on, and each step brings its end nearer by one. */
  lemma FlushAdvances(m: Machine, order: seq<string>)
    requires Inv(m) && Enumerates(order, m.known)
    requires m.needsFlush || (m.phase != Idle && m.phase != Stopped)
    ensures LoopOkay(m.phase)
    ensures FlusherStep(m, order).Some?
    ensures var m' := FlusherStep(m, order).value;
            && Inv(m') && LoopOkay(m'.phase)
            && Remaining(m') == Remaining(m) - 1
            && m'.known == m.known && m'.saved == m.saved && m'.touched == m.touched
  {
    hide Inv, FlusherStep, Enumerates, Remaining;
    FlushEnabled(m, order);
    OrderLength(order, m.known);
    LoopInRange(m);
    NotStopped(m);
    FlushStepKeepsInv(m, order);
    LoopInRange(FlusherStep(m, order).value);
    RemainingFalls(m, order);
  }

  /** The flusher changes no host, and the flag only when it wakes. */
  lemma FlushStepFrame(m: Machine, order: seq<string>)
    requires FlusherStep(m, order).Some?
    ensures var m' := FlusherStep(m, order).value;
            && m'.known == m.known && m'.saved == m.saved && m'.touched == m.touched
            && (m.phase != Idle ==> m'.needsFlush == m.needsFlush)
            && (m.phase == Idle && m.needsFlush ==> m'.phase == Woken && !m'.needsFlush)
  {
    hide Enumerates, Apply;
  }

  lemma PhaseFalls(m: Machine, order: seq<string>)
    requires |order| == |m.known| && FlusherStep(m, order).Some? && LoopOkay(m.phase) && m.phase != Idle
    ensures var p := FlusherStep(m, order).value.phase;
            LoopOkay(p) && StepsLeft(p, |m.known|) == StepsLeft(m.phase, |m.known|) - 1
  {
    if InLoop(m.phase) {
      LoopFalls(m, order);
    } else {
      hide Enumerates, Apply;
    }
  }

  lemma LoopFalls(m: Machine, order: seq<string>)
    requires InLoop(m.phase) && FlusherStep(m, order).Some? && LoopOkay(m.phase)
    ensures var p := FlusherStep(m, order).value.phase;
            LoopOkay(p) && StepsLeft(p, |m.known|) == StepsLeft(m.phase, |m.known|) - 1
  {
    hide Enumerates, Apply;
  }

  lemma RemainingFalls(m: Machine, order: seq<string>)
    requires |order| == |m.known| && FlusherStep(m, order).Some?
    requires m.needsFlush || m.phase != Idle
    requires LoopOkay(m.phase)
    ensures var m' := FlusherStep(m, order).value;
            && LoopOkay(m'.phase) && Remaining(m') == Remaining(m) - 1
            && m'.known == m.known && m'.saved == m.saved && m'.touched == m.touched
  {
    hide FlusherStep;
    FlushStepFrame(m, order);
    if m.phase != Idle {
      PhaseFalls(m, order);
    }
  }

  /**
    Left alone, the flusher becomes idle with a clear flag in as many steps as `Remaining`
    says, with the hosts as they are: what was saved is then what a restart finds.
  */
  lemma {:induction false} FlushCompletes(m: Machine) returns (steps: seq<Action>, m': Machine)
    requires Inv(m) && m.phase != Stopped && m.saved.Some?
    ensures LoopOkay(m.phase)
    ensures |steps| == Remaining(m) && forall i :: 0 <= i < |steps| ==> steps[i].FlushStep?
    ensures Run(m, steps) == Some(m')
    ensures m'.phase == Idle && !m'.needsFlush && m'.known == m.known
    ensures Agree(Restored(m'.store), m.saved.value, m.touched)
    decreases if LoopOkay(m.phase) then Remaining(m) else 0
  {
    hide Inv, FlusherStep, Restored, Agree;
    LoopInRange(m);
    if m.phase == Idle && !m.needsFlush {
      steps, m' := [], m;
      IdleIsFlushed(m);
    } else {
      var order := SomeOrder(m.known);
      FlushAdvances(m, order);
      var next := FlusherStep(m, order).value;
      StoppedOnlyWhenIdle(m, order);
      var rest;
      rest, m' := FlushCompletes(next);
      steps := [FlushStep(order)] + rest;
      RunFirst(m, FlushStep(order), rest);
    }
  }

  lemma IdleIsFlushed(m: Machine)
    requires Inv(m) && m.phase == Idle && !m.needsFlush && m.saved.Some?
    ensures Agree(Restored(m.store), m.saved.value, m.touched)
  {
    hide PrimaryHosts, Items, HostsOf;
    RestoredFromPrimary(m.store);
    AgreeThrough(PrimaryHosts(m.store), m.known, m.saved.value, m.touched);
  }

  lemma StoppedOnlyWhenIdle(m: Machine, order: seq<string>)
    requires FlusherStep(m, order).Some? && (m.needsFlush || m.phase != Idle)
    ensures FlusherStep(m, order).value.phase != Stopped
  {
    hide Apply;
  }

  lemma {:induction false} RunFirst(m: Machine, a: Action, rest: seq<Action>)
    requires Step(m, a).Some?
    ensures Run(m, [a] + rest) == Run(Step(m, a).value, rest)
    decreases |rest|
  {
    hide Step;
    var all := [a] + rest;
    if rest == [] {
      assert all[..0] == [];
      assert Run(m, all[..0]) == Some(m);
      assert all == [a];
    } else {
      RunFirst(m, a, rest[..|rest| - 1]);
      assert all[..|all| - 1] == [a] + rest[..|rest| - 1];
    }
  }
}
