/**
  A crash at any moment of the running program: what a restart finds in every state of the flush
  thread beside the threads that change and save hosts
  (app/backend/computermanager.cpp:259-277, 345-419).
*/
module HostCrashes {

  import opened Options
  import opened HostStore
  import opened HostFlusher

  /**
    The machine with a history. `woken` are the hosts as the flusher last woke, `moved` the uuids
    whose hosts were changed, added or removed since; `prior` is what a restart would have found
    at that moment and `base` what the primary array alone would have given.
  */
  datatype Watch = Watch(machine: Machine, woken: Hosts, moved: set<string>, prior: Hosts, base: Hosts)

  function MovedAfter(w: Watch, a: Action): (u: set<string>)
  {
    match a
    case SetHosts(hosts) => w.moved + Differing(w.machine.known, hosts)
    case Change(u, _) => w.moved + {u}
    case _ => w.moved
  }

  function Step(w: Watch, a: Action): (r: Option<Watch>)
  {
    var m := HostFlusher.Step(w.machine, a);
    if m.None? then None
    else if w.machine.phase == Idle && m.value.phase == Woken then
      Some(Watch(m.value, w.machine.known, {}, Restored(m.value.store), PrimaryHosts(m.value.store)))
    else Some(w.(machine := m.value, moved := MovedAfter(w, a)))
  }

  // ---------------------------------------------------------------- what is in the store

  /** The same hosts but for their app lists and for the uuids in `except`. */
  ghost predicate AgreeBare(a: Hosts, b: Hosts, except: set<string>)
  {
    forall u :: u !in except ==> (u in a <==> u in b) && (u in a ==> a[u].attributes == b[u].attributes)
  }

  /** The first `next` cells are the hosts of `order`, as they were or moved. */
  predicate Cells(a: Area, order: seq<string>, next: nat, woken: Hosts, moved: set<string>)
  {
    && next <= |order|
    && forall i :: 0 <= i < next ==>
         && i in a.cells && a.cells[i].uuid == order[i]
         && (order[i] in moved || (order[i] in woken && a.cells[i].host.attributes == woken[order[i]].attributes))
  }

  /** The backup array is closed and holds the hosts. */
  ghost predicate BackupOk(w: Watch)
  {
    AgreeBare(HostsOf(Items(w.machine.store.backup)), w.woken, w.moved)
  }

  /** In the first part of a flush nothing of it counts yet. */
  predicate Early(m: Machine)
  {
    || m.phase == BackupBegun || m.phase.BackupLoop?
    || (m.phase == BackupDone && Items(m.store.backup) == [])
  }

  ghost predicate Inv(w: Watch)
  {
    var m := w.machine;
    && AgreeBare(m.known, w.woken, w.moved)
    && (m.saved.Some? && !m.needsFlush ==> w.moved <= m.touched)
    && match m.phase
       case Idle => AgreeBare(Restored(m.store), w.woken, w.moved)
       case Stopped => AgreeBare(Restored(m.store), w.woken, w.moved)
       case Woken => Restored(m.store) == w.prior && PrimaryHosts(m.store) == w.base
       case BackupBegun => Items(m.store.backup) == [] && PrimaryHosts(m.store) == w.base
       case BackupLoop(o, i) =>
         && Items(m.store.backup) == [] && PrimaryHosts(m.store) == w.base
         && Enumerates(o, m.known) && Cells(m.store.backup, o, i, w.woken, w.moved)
       case BackupDone => BackupOk(w) && PrimaryHosts(m.store) == w.base
       case PrimaryRemoved => BackupOk(w) && Items(m.store.primary) == []
       case PrimaryBegun => BackupOk(w) && Items(m.store.primary) == []
       case PrimaryLoop(o, i) =>
         && BackupOk(w) && Items(m.store.primary) == []
         && Enumerates(o, m.known) && Cells(m.store.primary, o, i, w.woken, w.moved)
       case PrimaryDone => BackupOk(w) && AgreeBare(PrimaryHosts(m.store), w.woken, w.moved)
  }

  /** A closed array whose cells are the hosts of an enumeration. */
  lemma CellsClose(a: Area, order: seq<string>, known: Hosts, woken: Hosts, moved: set<string>)
    requires Cells(a, order, |order|, woken, moved) && Enumerates(order, known) && AgreeBare(known, woken, moved)
    ensures AgreeBare(HostsOf(Items(a.(size := Some(|order|)))), woken, moved)
  {
    hide HostsOf, Items, AgreeBare, Enumerates;
    var items := Items(a.(size := Some(|order|)));
    assert |items| == |order|;
    assert forall i :: 0 <= i < |items| ==> items[i] == CellAt(a.(size := Some(|order|)), i);
    OrderDistinct(order, known);
    HostsOfDistinct(items);
    ItemsAgreeBare(HostsOf(items), items, order, known, woken, moved);
  }

  lemma OrderDistinct(order: seq<string>, known: Hosts)
    requires Enumerates(order, known)
    ensures forall i, j :: 0 <= i < j < |order| ==> order[i] != order[j]
  {
  }

  lemma ItemsAgreeBare(hosts: Hosts, items: seq<Item>, order: seq<string>, known: Hosts, woken: Hosts,
      moved: set<string>)
    requires Enumerates(order, known) && AgreeBare(known, woken, moved) && |items| == |order|
    requires forall i :: 0 <= i < |items| ==>
               && items[i].uuid == order[i]
               && (order[i] in moved || (order[i] in woken && items[i].host.attributes == woken[order[i]].attributes))
    requires forall i :: 0 <= i < |items| ==> items[i].uuid in hosts && hosts[items[i].uuid] == items[i].host
    requires forall u :: u in hosts ==> exists i :: 0 <= i < |items| && items[i].uuid == u
    ensures AgreeBare(hosts, woken, moved)
  {
    forall u | u !in moved
      ensures (u in hosts <==> u in woken) && (u in woken ==> hosts[u].attributes == woken[u].attributes)
    {
      if u in known {
        var i :| 0 <= i < |order| && order[i] == u;
        assert items[i].uuid == u;
      }
    }
  }

  lemma CellWritten(a: Area, order: seq<string>, next: nat, known: Hosts, woken: Hosts, moved: set<string>,
      withApps: bool)
    requires Cells(a, order, next, woken, moved) && next < |order| && order[next] in known
    requires AgreeBare(known, woken, moved)
    ensures var item := Item(order[next], known[order[next]]);
            Cells(a.(cells := a.cells[next := Written(a, next, item, withApps)]), order, next + 1, woken, moved)
  {
    hide Written;
  }

  lemma NothingWritten(a: Area, order: seq<string>, woken: Hosts, moved: set<string>)
    ensures Cells(a, order, 0, woken, moved)
  {
  }

  /** The hosts move on; what was written agrees with them outside the uuids moved. */
  lemma HostsMoveOn(w: Watch, a: Action)
    requires Inv(w) && !a.FlushStep? && Step(w, a).Some?
    ensures Inv(Step(w, a).value)
  {
    hide Restored, PrimaryHosts, HostsOf, Items, AgreeBare, Enumerates, Differing, Cells;
    var m := w.machine;
    match a
    case SetHosts(hosts) =>
      HostsReplaced(m.known, hosts, w.woken, w.moved);
      StaysBare(w, w.moved + Differing(m.known, hosts));
    case Change(u, host) =>
      HostChanged(m.known, u, host, w.woken, w.moved);
      StaysBare(w, w.moved + {u});
      if InLoop(m.phase) {
        EnumeratesChanged(m.phase.order, m.known, u, host);
      }
    case _ =>
  }

  lemma HostsReplaced(known: Hosts, hosts: Hosts, woken: Hosts, moved: set<string>)
    requires AgreeBare(known, woken, moved)
    ensures AgreeBare(hosts, woken, moved + Differing(known, hosts))
  {
  }

  lemma HostChanged(known: Hosts, u: string, host: Host, woken: Hosts, moved: set<string>)
    requires u in known && AgreeBare(known, woken, moved)
    ensures AgreeBare(known[u := host], woken, moved + {u})
  {
  }

  lemma EnumeratesChanged(order: seq<string>, known: Hosts, u: string, host: Host)
    requires u in known && Enumerates(order, known)
    ensures Enumerates(order, known[u := host])
  {
  }

  /** What is in the store agrees with the recorded hosts outside any larger set of uuids too. */
  lemma StaysBare(w: Watch, more: set<string>)
    requires w.moved <= more
    ensures forall hosts {:trigger AgreeBare(hosts, w.woken, more)} ::
              AgreeBare(hosts, w.woken, w.moved) ==> AgreeBare(hosts, w.woken, more)
    ensures forall a, o, i {:trigger Cells(a, o, i, w.woken, more)} ::
              Cells(a, o, i, w.woken, w.moved) ==> Cells(a, o, i, w.woken, more)
  {
  }

  lemma BackupStep(w: Watch, order: seq<string>)
    requires Inv(w) && Step(w, FlushStep(order)).Some?
    requires w.machine.phase in {Idle, Stopped, Woken, BackupBegun} || w.machine.phase.BackupLoop?
    ensures Inv(Step(w, FlushStep(order)).value)
  {
    hide HostsOf, Enumerates, Cells, AgreeBare, Written;
    match w.machine.phase
    case BackupBegun => NothingWritten(w.machine.store.backup, order, w.woken, w.moved);
    case BackupLoop(o, i) =>
      CellsRange(w.machine.store.backup, o, i, w.woken, w.moved);
      if i < |o| {
        CellWritten(w.machine.store.backup, o, i, w.machine.known, w.woken, w.moved, false);
      } else {
        CellsClose(w.machine.store.backup, o, w.machine.known, w.woken, w.moved);
      }
    case _ => SelfAgrees(w.machine.known);
  }

  lemma CellsRange(a: Area, order: seq<string>, next: nat, woken: Hosts, moved: set<string>)
    requires Cells(a, order, next, woken, moved)
    ensures next <= |order|
  {
  }

  lemma SelfAgrees(hosts: Hosts)
    ensures AgreeBare(hosts, hosts, {})
  {
  }

  lemma PrimaryStep(w: Watch, order: seq<string>)
    requires Inv(w) && Step(w, FlushStep(order)).Some?
    requires w.machine.phase in {BackupDone, PrimaryRemoved, PrimaryBegun, PrimaryDone} || w.machine.phase.PrimaryLoop?
    ensures Inv(Step(w, FlushStep(order)).value)
  {
    hide HostsOf, Enumerates, Cells, AgreeBare, Written;
    match w.machine.phase
    case PrimaryBegun => NothingWritten(w.machine.store.primary, order, w.woken, w.moved);
    case PrimaryLoop(o, i) =>
      CellsRange(w.machine.store.primary, o, i, w.woken, w.moved);
      if i < |o| {
        CellWritten(w.machine.store.primary, o, i, w.machine.known, w.woken, w.moved, true);
      } else {
        CellsClose(w.machine.store.primary, o, w.machine.known, w.woken, w.moved);
      }
    case PrimaryDone => RestoredFromPrimary(Apply(w.machine.store, Remove(Backup)));
    case _ =>
  }

  lemma StepKeepsInv(w: Watch, a: Action)
    requires Inv(w) && Step(w, a).Some?
    ensures Inv(Step(w, a).value)
  {
    hide Inv, Step;
    if !a.FlushStep? {
      HostsMoveOn(w, a);
    } else if w.machine.phase in {Idle, Stopped, Woken, BackupBegun} || w.machine.phase.BackupLoop? {
      BackupStep(w, a.order);
    } else {
      PrimaryStep(w, a.order);
    }
  }

  // ---------------------------------------------------------------- runs

  /** After a restart; until the flusher wakes, a second crash would find the same. */
  function Initial(store: Store): (w: Watch)
  {
    Watch(HostFlusher.Initial(store), Restored(store), {}, Restored(store), PrimaryHosts(store))
  }

  function Run(w: Watch, actions: seq<Action>): (r: Option<Watch>)
    decreases |actions|
  {
    if actions == [] then Some(w)
    else
      match Run(w, actions[..|actions| - 1])
      case None => None
      case Some(before) => Step(before, actions[|actions| - 1])
  }

  lemma {:induction false} RunKeepsInv(store: Store, actions: seq<Action>)
    requires Run(Initial(store), actions).Some?
    ensures Inv(Run(Initial(store), actions).value)
    decreases |actions|
  {
    hide Inv, Step;
    if actions == [] {
      InitialInv(store);
    } else {
      var n := |actions| - 1;
      RunKeepsInv(store, actions[..n]);
      StepKeepsInv(Run(Initial(store), actions[..n]).value, actions[n]);
    }
  }

  lemma InitialInv(store: Store)
    ensures Inv(Initial(store))
  {
    hide Restored, PrimaryHosts;
    SelfAgrees(Restored(store));
  }

  /**
    A crash in any reachable state: early in a flush, a restart finds what the primary array
    held when the flusher woke; before its first store step, what it would have found then; and
    otherwise the hosts as the flusher woke, but for those changed, added or removed since.
    These are also the hosts as of the latest saveHosts, when no other flush is due.
  */
  lemma CrashAnywhere(store: Store, actions: seq<Action>, w: Watch)
    requires Run(Initial(store), actions) == Some(w)
    ensures var m, found := w.machine, Restored(w.machine.store);
            && (m.phase == Woken ==> found == w.prior)
            && (Early(m) ==> found == w.base)
            && (m.phase != Woken && !Early(m) ==>
                  && AgreeBare(found, w.woken, w.moved)
                  && (m.saved.Some? && !m.needsFlush ==> AgreeBare(found, m.saved.value, m.touched)))
  {
    hide Run, HostsOf, Enumerates, Cells, HostFlusher.Inv;
    RunKeepsInv(store, actions);
    SavedAgrees(store, actions, w);
    NoItemsNoHosts();
  }

  lemma NoItemsNoHosts()
    ensures HostsOf([]) == map[]
  {
  }

  /** The watched machine is the machine, so what holds of its runs holds here. */
  lemma {:induction false} SameMachine(store: Store, actions: seq<Action>)
    requires Run(Initial(store), actions).Some?
    ensures HostFlusher.Run(HostFlusher.Initial(store), actions) == Some(Run(Initial(store), actions).value.machine)
    decreases |actions|
  {
    hide HostFlusher.Step;
    if actions != [] {
      SameMachine(store, actions[..|actions| - 1]);
    }
  }

  lemma SavedAgrees(store: Store, actions: seq<Action>, w: Watch)
    requires Run(Initial(store), actions) == Some(w)
    ensures w.machine.saved.Some? ==> Agree(w.machine.known, w.machine.saved.value, w.machine.touched)
  {
    hide Run, HostFlusher.Run;
    SameMachine(store, actions);
    HostFlusher.RunKeepsInv(HostFlusher.Initial(store), actions);
  }

  // ---------------------------------------------------------------- starting in good order

  /** Between flushes no backup is left, and so what it would say does not differ from the primary. */
  predicate Clean(w: Watch)
  {
    && w.prior == w.base
    && (w.machine.phase == Idle || w.machine.phase == Stopped ==> Items(w.machine.store.backup) == [])
  }

  lemma StepKeepsClean(w: Watch, a: Action)
    requires Clean(w) && Step(w, a).Some?
    ensures Clean(Step(w, a).value)
  {
    hide Restored, PrimaryHosts, Enumerates, Written, Differing;
    if w.machine.phase == Idle {
      RestoredFromPrimary(w.machine.store);
    }
  }

  lemma {:induction false} RunKeepsClean(store: Store, actions: seq<Action>)
    requires Items(store.backup) == [] && Run(Initial(store), actions).Some?
    ensures Clean(Run(Initial(store), actions).value)
    decreases |actions|
  {
    hide Clean, Step;
    if actions == [] {
      CleanStart(store);
    } else {
      var n := |actions| - 1;
      RunKeepsClean(store, actions[..n]);
      StepKeepsClean(Run(Initial(store), actions[..n]).value, actions[n]);
    }
  }

  lemma CleanStart(store: Store)
    requires Items(store.backup) == []
    ensures Clean(Initial(store))
  {
    hide Restored, PrimaryHosts;
    RestoredFromPrimary(store);
  }

  /**
    From a store without a leftover backup, a crash at any moment is safe: a restart finds just
    what it would have found as the flusher last woke, or else the hosts of that moment, but for
    those moved since.
  */
  lemma CrashFindsOldOrNew(store: Store, actions: seq<Action>, w: Watch)
    requires Items(store.backup) == [] && Run(Initial(store), actions) == Some(w)
    ensures Restored(w.machine.store) == w.prior || AgreeBare(Restored(w.machine.store), w.woken, w.moved)
  {
    hide Run, Restored, Early, AgreeBare;
    RunKeepsClean(store, actions);
    CrashAnywhere(store, actions, w);
  }

  // ---------------------------------------------------------------- app lists

  lemma StepSparesBackup(w: Watch, a: Action)
    requires WithoutApps(w.machine.store.backup) && Step(w, a).Some?
    ensures WithoutApps(Step(w, a).value.machine.store.backup)
  {
    hide Restored, PrimaryHosts, Enumerates, Differing;
  }

  lemma {:induction false} RunSparesBackup(store: Store, actions: seq<Action>)
    requires WithoutApps(store.backup) && Run(Initial(store), actions).Some?
    ensures WithoutApps(Run(Initial(store), actions).value.machine.store.backup)
    decreases |actions|
  {
    hide Step, WithoutApps;
    if actions != [] {
      var n := |actions| - 1;
      RunSparesBackup(store, actions[..n]);
      StepSparesBackup(Run(Initial(store), actions[..n]).value, actions[n]);
    }
  }

  /** Whenever a restart takes the hosts from the backup, they come back without their app lists. */
  lemma BackupHasNoApps(store: Store, actions: seq<Action>, w: Watch)
    requires WithoutApps(store.backup) && Run(Initial(store), actions) == Some(w)
    requires Items(w.machine.store.backup) != []
    ensures var found := Restored(w.machine.store); forall u :: u in found ==> found[u].apps == []
  {
    hide Run, Restored, WithoutApps, Items;
    RunSparesBackup(store, actions);
    RestoredWithoutApps(w.machine.store);
  }
}
