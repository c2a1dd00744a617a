/**
  How the host list is kept across restarts: the two arrays of the settings store, the flush
  that rewrites them, and what a restart finds after a crash between any two store steps
  (app/backend/computermanager.cpp:259-277, 375-406, app/backend/nvcomputer.cpp:220-265).
*/
module HostStore {

  import opened Options

  /** A host apart from its uuid. Only `apps` may be missing from what is stored. */
  datatype Host = Host(attributes: string, apps: seq<string>)

  datatype Item = Item(uuid: string, host: Host)

  type Hosts = map<string, Host>

  // ---------------------------------------------------------------- the store

  datatype Place = Primary | Backup

  /** An array is there once its size is; cells may be left from before. */
  datatype Area = Area(size: Option<nat>, cells: map<nat, Item>)

  datatype Store = Store(primary: Area, backup: Area)

  const NO_AREA := Area(None, map[])

  datatype Op =
    | BeginWriteArray(place: Place)
    | WriteItem(place: Place, index: nat, item: Item, withApps: bool)
    | EndArray(place: Place, count: nat)
    | Remove(place: Place)

  function AreaOf(s: Store, p: Place): (a: Area)
  {
    if p == Primary then s.primary else s.backup
  }

  function WithArea(s: Store, p: Place, a: Area): (t: Store)
    ensures AreaOf(t, p) == a
    ensures forall q :: q != p ==> AreaOf(t, q) == AreaOf(s, q)
  {
    if p == Primary then s.(primary := a) else s.(backup := a)
  }

  /** An app list is only written when there is one and it is asked for; an older one stays. */
  function Written(a: Area, index: nat, item: Item, withApps: bool): (w: Item)
    ensures w.uuid == item.uuid && w.host.attributes == item.host.attributes
  {
    var kept := if index in a.cells then a.cells[index].host.apps else [];
    item.(host := item.host.(apps := if withApps && item.host.apps != [] then item.host.apps else kept))
  }

  function Apply(s: Store, op: Op): (t: Store)
  {
    var a := AreaOf(s, op.place);
    WithArea(s, op.place,
      match op
      case BeginWriteArray(_) => a.(size := None)
      case WriteItem(_, i, item, withApps) => a.(cells := a.cells[i := Written(a, i, item, withApps)])
      case EndArray(_, count) => a.(size := Some(count))
      case Remove(_) => NO_AREA)
  }

  function Run(s: Store, ops: seq<Op>): (t: Store)
  {
    if ops == [] then s else Apply(Run(s, ops[..|ops| - 1]), ops[|ops| - 1])
  }

  lemma {:induction false} RunAppend(s: Store, a: seq<Op>, b: seq<Op>)
    ensures Run(s, a + b) == Run(Run(s, a), b)
  {
    if b == [] {
      assert a + b == a;
    } else {
      RunAppend(s, a, b[..|b| - 1]);
      assert (a + b)[..|a + b| - 1] == a + b[..|b| - 1];
    }
  }

  lemma RunOne(s: Store, op: Op)
    ensures Run(s, [op]) == Apply(s, op)
  {
    assert [op][..0] == [];
    assert Run(s, [op][..0]) == s;
  }

  // ---------------------------------------------------------------- reading

  function CellAt(a: Area, i: nat): (item: Item)
  {
    if i in a.cells then a.cells[i] else Item("", Host("", []))
  }

  /** The items a reader sees; none when there is no size. */
  function Items(a: Area): (items: seq<Item>)
    ensures |items| == if a.size.Some? then a.size.value else 0
    ensures forall i :: 0 <= i < |items| ==> items[i] == CellAt(a, i)
  {
    if a.size.None? then [] else seq(a.size.value, i requires 0 <= i => CellAt(a, i))
  }

  /** A later item with the same uuid replaces an earlier one. */
  function HostsOf(items: seq<Item>): (hosts: Hosts)
  {
    if items == [] then map[]
    else
      var last := items[|items| - 1];
      HostsOf(items[..|items| - 1])[last.uuid := last.host]
  }

  function PrimaryHosts(s: Store): (hosts: Hosts)
  {
    HostsOf(Items(s.primary))
  }

  /** What a restart brings back: the backup if it holds anything, else the primary array. */
  function Restored(s: Store): (hosts: Hosts)
  {
    HostsOf(Items(if |Items(s.backup)| == 0 then s.primary else s.backup))
  }

  /** Host sets compared without their app lists. */
  function Bare(hosts: Hosts): (b: map<string, string>)
    ensures b.Keys == hosts.Keys
  {
    map u | u in hosts :: hosts[u].attributes
  }

  /** Two lists of items of which one may have lost or kept other app lists. */
  predicate SameBare(a: seq<Item>, b: seq<Item>)
  {
    && |a| == |b|
    && forall i :: 0 <= i < |a| ==> a[i].uuid == b[i].uuid && a[i].host.attributes == b[i].host.attributes
  }

  lemma {:induction false} SameBareHosts(a: seq<Item>, b: seq<Item>)
    requires SameBare(a, b)
    ensures Bare(HostsOf(a)) == Bare(HostsOf(b))
  {
    if a != [] {
      SameBareHosts(a[..|a| - 1], b[..|b| - 1]);
      assert Bare(HostsOf(a)) == Bare(HostsOf(a[..|a| - 1]))[a[|a| - 1].uuid := a[|a| - 1].host.attributes];
      assert Bare(HostsOf(b)) == Bare(HostsOf(b[..|b| - 1]))[b[|b| - 1].uuid := b[|b| - 1].host.attributes];
    }
  }

  // ---------------------------------------------------------------- the host map

  /** `order` goes through the keys of `hosts`, each once. */
  predicate Enumerates(order: seq<string>, hosts: Hosts)
  {
    && (forall i :: 0 <= i < |order| ==> order[i] in hosts)
    && (forall u :: u in hosts ==> u in order)
    && (forall i, j :: 0 <= i < j < |order| ==> order[i] != order[j])
  }

  function ItemsIn(order: seq<string>, hosts: Hosts): (items: seq<Item>)
    requires forall i :: 0 <= i < |order| ==> order[i] in hosts
    ensures |items| == |order|
    ensures forall i :: 0 <= i < |items| ==> items[i] == Item(order[i], hosts[order[i]])
  {
    seq(|order|, i requires 0 <= i < |order| => Item(order[i], hosts[order[i]]))
  }

  /** Items with different uuids give the map that has just them. */
  lemma {:induction false} HostsOfDistinct(items: seq<Item>)
    requires forall i, j :: 0 <= i < j < |items| ==> items[i].uuid != items[j].uuid
    ensures forall i :: 0 <= i < |items| ==>
        items[i].uuid in HostsOf(items) && HostsOf(items)[items[i].uuid] == items[i].host
    ensures forall u :: u in HostsOf(items) ==> exists i :: 0 <= i < |items| && items[i].uuid == u
  {
    if items != [] {
      HostsOfDistinct(items[..|items| - 1]);
    }
  }

  lemma EnumeratedHosts(order: seq<string>, hosts: Hosts)
    requires Enumerates(order, hosts)
    ensures HostsOf(ItemsIn(order, hosts)) == hosts
  {
    var items := ItemsIn(order, hosts);
    HostsOfDistinct(items);
    forall u | u in hosts ensures u in HostsOf(items) && HostsOf(items)[u] == hosts[u] {
      var i :| 0 <= i < |order| && order[i] == u;
      assert items[i].uuid == u;
    }
  }

  // ---------------------------------------------------------------- the flush

  /** Writing `items` one by one. */
  function Writes(p: Place, items: seq<Item>, withApps: bool): (ops: seq<Op>)
    ensures |ops| == |items|
    ensures forall i :: 0 <= i < |ops| ==> ops[i] == WriteItem(p, i, items[i], withApps)
  {
    seq(|items|, i requires 0 <= i < |items| => WriteItem(p, i, items[i], withApps))
  }

  function BackupOps(items: seq<Item>): (ops: seq<Op>)
  {
    [BeginWriteArray(Backup)] + Writes(Backup, items, false) + [EndArray(Backup, |items|)]
  }

  function PrimaryOps(items: seq<Item>): (ops: seq<Op>)
  {
    [Remove(Primary), BeginWriteArray(Primary)] + Writes(Primary, items, true) + [EndArray(Primary, |items|)]
  }

  /**
    The store steps of one flush, the hosts being `first` when the backup is written and
    `second` when the primary array is.
  */
  function FlushOps(first: seq<Item>, second: seq<Item>): (ops: seq<Op>)
  {
    BackupOps(first) + PrimaryOps(second) + [Remove(Backup)]
  }

  /** The first `k` cells hold the items, whatever their app lists. */
  predicate Holds(a: Area, items: seq<Item>, k: nat)
    requires k <= |items|
  {
    forall i :: 0 <= i < k ==>
      i in a.cells && a.cells[i].uuid == items[i].uuid && a.cells[i].host.attributes == items[i].host.attributes
  }

  lemma RunNext(s: Store, ops: seq<Op>, k: nat)
    requires k < |ops|
    ensures Run(s, ops[..k + 1]) == Apply(Run(s, ops[..k]), ops[k])
  {
    hide Apply;
    assert ops[..k + 1][..k] == ops[..k];
  }

  /** One item written: one cell changes. */
  lemma WriteChanges(s: Store, p: Place, i: nat, item: Item, withApps: bool)
    ensures var t, a := Apply(s, WriteItem(p, i, item, withApps)), AreaOf(s, p);
            && AreaOf(t, p) == a.(cells := a.cells[i := Written(a, i, item, withApps)])
            && forall q :: q != p ==> AreaOf(t, q) == AreaOf(s, q)
  {
    hide Written;
  }

  lemma HoldsOneMore(a: Area, items: seq<Item>, k: nat, withApps: bool)
    requires k < |items| && Holds(a, items, k)
    ensures Holds(a.(cells := a.cells[k := Written(a, k, items[k], withApps)]), items, k + 1)
  {
    hide Written;
  }

  /** Writing touches one array, and no size. */
  lemma {:induction false} WritesState(s: Store, p: Place, items: seq<Item>, withApps: bool, k: nat)
    requires k <= |items|
    ensures var t := Run(s, Writes(p, items, withApps)[..k]);
            && Holds(AreaOf(t, p), items, k)
            && AreaOf(t, p).size == AreaOf(s, p).size
            && (forall q :: q != p ==> AreaOf(t, q) == AreaOf(s, q))
  {
    var ops := Writes(p, items, withApps);
    if k > 0 {
      hide Run, Apply, AreaOf, Written, Holds;
      WritesState(s, p, items, withApps, k - 1);
      RunNext(s, ops, k - 1);
      WriteChanges(Run(s, ops[..k - 1]), p, k - 1, items[k - 1], withApps);
      HoldsOneMore(AreaOf(Run(s, ops[..k - 1]), p), items, k - 1, withApps);
    } else {
      assert ops[..0] == [];
    }
  }

  /** Into an empty array, app lists are written as they are. */
  lemma {:induction false} WritesFresh(s: Store, p: Place, items: seq<Item>, k: nat)
    requires k <= |items| && AreaOf(s, p).cells == map[]
    ensures var cells := AreaOf(Run(s, Writes(p, items, true)[..k]), p).cells;
            forall i: nat :: if i < k then i in cells && cells[i] == items[i] else i !in cells
  {
    var ops := Writes(p, items, true);
    if k > 0 {
      hide Run, Apply, AreaOf;
      WritesFresh(s, p, items, k - 1);
      RunNext(s, ops, k - 1);
      WriteChanges(Run(s, ops[..k - 1]), p, k - 1, items[k - 1], true);
    } else {
      assert ops[..0] == [];
    }
  }

  /** The backup array has no size from the first step to the last, and the primary is untouched. */
  lemma BackupPhase(s: Store, items: seq<Item>, k: nat)
    requires k <= |BackupOps(items)|
    ensures var t := Run(s, BackupOps(items)[..k]);
            && t.primary == s.primary
            && (k == 0 ==> t == s)
            && (0 < k < |BackupOps(items)| ==> Items(t.backup) == [])
            && (k == |BackupOps(items)| ==> SameBare(Items(t.backup), items))
  {
    hide Run, Holds, BackupOps, Written;
    var ops := BackupOps(items);
    var n := |items|;
    BackupOpsShape(items);
    if k == 0 {
      RunNone(s);
      assert ops[..k] == [];
    } else {
      var begin := [BeginWriteArray(Backup)];
      RunOne(s, begin[0]);
      var s1 := Run(s, begin);
      var j := if k - 1 <= n then k - 1 else n;
      WritesState(s1, Backup, items, false, j);
      RunAppend(s, begin, Writes(Backup, items, false)[..j]);
      var s2 := Run(s, begin + Writes(Backup, items, false)[..j]);
      assert s2.backup == AreaOf(s2, Backup) && s2.primary == AreaOf(s2, Primary);
      assert s1.backup == AreaOf(s1, Backup) && s1.primary == AreaOf(s1, Primary);
      if k <= n + 1 {
        assert ops[..k] == begin + Writes(Backup, items, false)[..j];
      } else {
        assert ops[..k] == (begin + Writes(Backup, items, false)[..j]) + [EndArray(Backup, n)];
        RunAppend(s, begin + Writes(Backup, items, false)[..j], [EndArray(Backup, n)]);
        RunOne(s2, EndArray(Backup, n));
        ClosedItems(s2.backup, items);
      }
    }
  }

  lemma BackupOpsShape(items: seq<Item>)
    ensures |BackupOps(items)| == |items| + 2
    ensures BackupOps(items) == [BeginWriteArray(Backup)] + Writes(Backup, items, false) + [EndArray(Backup, |items|)]
  {
  }

  lemma RunNone(s: Store)
    ensures Run(s, []) == s
  {
  }

  lemma ClosedItems(a: Area, items: seq<Item>)
    requires Holds(a, items, |items|)
    ensures SameBare(Items(a.(size := Some(|items|))), items)
  {
  }

  lemma PrimaryPhase(s: Store, items: seq<Item>, k: nat)
    requires k <= |PrimaryOps(items)|
    ensures var t := Run(s, PrimaryOps(items)[..k]);
            && t.backup == s.backup
            && (k == 0 ==> t == s)
            && (0 < k < |PrimaryOps(items)| ==> Items(t.primary) == [])
            && (k == |PrimaryOps(items)| ==> Items(t.primary) == items)
  {
    hide Run, Holds, PrimaryOps, Written;
    var ops := PrimaryOps(items);
    var n := |items|;
    PrimaryOpsShape(items);
    RunNone(s);
    RunOne(s, Remove(Primary));
    if k == 0 {
      assert ops[..k] == [];
    } else if k == 1 {
      assert ops[..k] == [Remove(Primary)];
    } else {
      var begin := [Remove(Primary)] + [BeginWriteArray(Primary)];
      RunAppend(s, [Remove(Primary)], [BeginWriteArray(Primary)]);
      RunOne(Run(s, [Remove(Primary)]), BeginWriteArray(Primary));
      var s1 := Run(s, begin);
      var j := if k - 2 <= n then k - 2 else n;
      WritesState(s1, Primary, items, true, j);
      WritesFresh(s1, Primary, items, j);
      RunAppend(s, begin, Writes(Primary, items, true)[..j]);
      var s2 := Run(s, begin + Writes(Primary, items, true)[..j]);
      assert s2.backup == AreaOf(s2, Backup) && s2.primary == AreaOf(s2, Primary);
      assert s1.backup == AreaOf(s1, Backup) && s1.primary == AreaOf(s1, Primary);
      if k <= n + 2 {
        assert ops[..k] == begin + Writes(Primary, items, true)[..j];
      } else {
        assert ops[..k] == (begin + Writes(Primary, items, true)[..j]) + [EndArray(Primary, n)];
        RunAppend(s, begin + Writes(Primary, items, true)[..j], [EndArray(Primary, n)]);
        RunOne(s2, EndArray(Primary, n));
        assert Items(s2.primary.(size := Some(n))) == items;
      }
    }
  }

  lemma PrimaryOpsShape(items: seq<Item>)
    ensures |PrimaryOps(items)| == |items| + 3
    ensures PrimaryOps(items)
        == [Remove(Primary), BeginWriteArray(Primary)] + Writes(Primary, items, true) + [EndArray(Primary, |items|)]
  {
  }

  /** What a restart after the first `n` steps of a flush brings back. */
  lemma CrashAt(s: Store, first: seq<Item>, second: seq<Item>, n: nat)
    requires n <= |FlushOps(first, second)|
    ensures var t := Run(s, FlushOps(first, second)[..n]);
            var b := |BackupOps(first)|;
            && (n == 0 ==> t == s)
            && (0 < n < b ==> Restored(t) == PrimaryHosts(s))
            && (n == b ==> Bare(Restored(t)) == if first == [] then Bare(PrimaryHosts(s)) else Bare(HostsOf(first)))
            && (b < n ==> Bare(Restored(t)) in {Bare(HostsOf(first)), Bare(HostsOf(second))})
            && (n == |FlushOps(first, second)| ==>
                  t.backup == NO_AREA && Items(t.primary) == second && Restored(t) == HostsOf(second))
  {
    hide Run, BackupOps, PrimaryOps, Bare, HostsOf;
    var b, p := BackupOps(first), PrimaryOps(second);
    BackupOpsShape(first);
    PrimaryOpsShape(second);
    var ops := FlushOps(first, second);
    if n <= |b| {
      assert ops[..n] == b[..n];
      BackupPhase(s, first, n);
      var t := Run(s, b[..n]);
      if n == |b| && first != [] {
        SameBareHosts(Items(t.backup), first);
      }
    } else {
      BackupPhase(s, first, |b|);
      assert b[..|b|] == b;
      var s1 := Run(s, b);
      SameBareHosts(Items(s1.backup), first);
      var k := if n - |b| <= |p| then n - |b| else |p|;
      PrimaryPhase(s1, second, k);
      RunAppend(s, b, p[..k]);
      var s2 := Run(s, b + p[..k]);
      if n <= |b| + |p| {
        assert ops[..n] == b + p[..k];
        NoItems(first);
      } else {
        assert ops[..n] == (b + p[..k]) + [Remove(Backup)];
        RunAppend(s, b + p[..k], [Remove(Backup)]);
        RunOne(s2, Remove(Backup));
      }
    }
  }

  lemma NoItems(items: seq<Item>)
    ensures items == [] ==> HostsOf(items) == map[]
  {
  }

  // ---------------------------------------------------------------- crashes

  /** The steps of flushing the same `hosts` to both arrays. */
  function FlushOf(hosts: Hosts, order: seq<string>): (ops: seq<Op>)
    requires Enumerates(order, hosts)
  {
    FlushOps(ItemsIn(order, hosts), ItemsIn(order, hosts))
  }

  /** A crash after any number of steps brings back the old host set or the new. */
  predicate CrashSafe(s: Store, hosts: Hosts, order: seq<string>)
    requires Enumerates(order, hosts)
  {
    forall n :: 0 <= n <= |FlushOf(hosts, order)| ==>
      Bare(Restored(Run(s, FlushOf(hosts, order)[..n]))) in {Bare(Restored(s)), Bare(hosts)}
  }

  /**
    A flush is safe against one crash exactly when the primary array by itself already gives
    the old set or the new one.
  */
  lemma CrashSafeExactly(s: Store, hosts: Hosts, order: seq<string>)
    requires Enumerates(order, hosts)
    ensures CrashSafe(s, hosts, order) <==> Bare(PrimaryHosts(s)) in {Bare(Restored(s)), Bare(hosts)}
  {
    hide Run, FlushOps, Restored, PrimaryHosts, HostsOf, Bare;
    var items := ItemsIn(order, hosts);
    EnumeratedHosts(order, hosts);
    BackupOpsShape(items);
    FlushOpsLonger(items, items);
    forall n | 0 <= n <= |FlushOf(hosts, order)|
      ensures Bare(Restored(Run(s, FlushOf(hosts, order)[..n]))) in {Bare(Restored(s)), Bare(hosts),
          Bare(PrimaryHosts(s))}
      ensures n == 1 ==> Restored(Run(s, FlushOf(hosts, order)[..n])) == PrimaryHosts(s)
    {
      CrashAt(s, items, items, n);
    }
    assert Restored(Run(s, FlushOf(hosts, order)[..1])) == PrimaryHosts(s);
  }

  lemma FlushOpsLonger(first: seq<Item>, second: seq<Item>)
    ensures |FlushOps(first, second)| > |BackupOps(first)| >= 2
  {
  }

  /** The usual start, no backup left over, is safe; every completed flush leaves such a store. */
  lemma CleanStoreIsSafe(s: Store, hosts: Hosts, order: seq<string>)
    requires Enumerates(order, hosts) && Items(s.backup) == []
    ensures CrashSafe(s, hosts, order)
  {
    hide Run, FlushOps, HostsOf, Bare;
    CrashSafeExactly(s, hosts, order);
  }

  /**
    Two crashes are one too many: from a store in good order, a crash while the primary array
    is missing and another as the next flush has just begun lose every host.
  */
  lemma TwoCrashesLoseHosts(s: Store, hosts: Hosts, order: seq<string>) returns (n: nat)
    requires Enumerates(order, hosts) && hosts != map[]
    ensures n <= |FlushOf(hosts, order)|
    ensures var crashed := Run(s, FlushOf(hosts, order)[..n]);
            && Bare(Restored(crashed)) == Bare(hosts)
            && Restored(Run(crashed, FlushOf(hosts, order)[..1])) == map[]
  {
    hide Run, FlushOps, HostsOf, Bare, BackupOps, PrimaryOps, Restored, Items;
    var items := ItemsIn(order, hosts);
    var b := BackupOps(items);
    BackupOpsShape(items);
    PrimaryOpsShape(items);
    FlushOpsLonger(items, items);
    n := |b| + 1;
    CrashAt(s, items, items, n);
    EnumeratedHosts(order, hosts);
    PrimaryMissing(s, items);
    CrashAt(Run(s, FlushOf(hosts, order)[..n]), items, items, 1);
    NoItems([]);
  }

  lemma PrimaryMissing(s: Store, items: seq<Item>)
    ensures |BackupOps(items)| + 1 <= |FlushOps(items, items)|
    ensures Items(Run(s, FlushOps(items, items)[..|BackupOps(items)| + 1]).primary) == []
  {
    hide Run, BackupOps, PrimaryOps;
    var b, p := BackupOps(items), PrimaryOps(items);
    BackupOpsShape(items);
    PrimaryOpsShape(items);
    RunAppend(s, b, p[..1]);
    PrimaryPhase(Run(s, b), items, 1);
    assert FlushOps(items, items)[..|b| + 1] == b + p[..1];
  }

  // ---------------------------------------------------------------- app lists

  /** No cell, of this array or left from an earlier one, has an app list. */
  predicate WithoutApps(a: Area)
  {
    forall i :: i in a.cells ==> a.cells[i].host.apps == []
  }

  /** The op puts no app list into the backup. */
  predicate SparesBackup(op: Op)
  {
    op.WriteItem? && op.place == Backup ==> !op.withApps
  }

  lemma ApplySpares(s: Store, op: Op)
    requires WithoutApps(s.backup) && SparesBackup(op)
    ensures WithoutApps(Apply(s, op).backup)
  {
  }

  lemma {:induction false} RunSpares(s: Store, ops: seq<Op>)
    requires WithoutApps(s.backup) && forall i :: 0 <= i < |ops| ==> SparesBackup(ops[i])
    ensures WithoutApps(Run(s, ops).backup)
    decreases |ops|
  {
    hide Apply, WithoutApps, SparesBackup;
    if ops != [] {
      RunSpares(s, ops[..|ops| - 1]);
      ApplySpares(Run(s, ops[..|ops| - 1]), ops[|ops| - 1]);
    }
  }

  lemma FlushSpares(first: seq<Item>, second: seq<Item>)
    ensures forall i :: 0 <= i < |FlushOps(first, second)| ==> SparesBackup(FlushOps(first, second)[i])
  {
  }

  lemma {:induction false} HostsWithoutApps(items: seq<Item>)
    requires forall i :: 0 <= i < |items| ==> items[i].host.apps == []
    ensures forall u :: u in HostsOf(items) ==> HostsOf(items)[u].apps == []
    decreases |items|
  {
    if items != [] {
      HostsWithoutApps(items[..|items| - 1]);
    }
  }

  lemma RestoredWithoutApps(s: Store)
    requires WithoutApps(s.backup) && Items(s.backup) != []
    ensures forall u :: u in Restored(s) ==> Restored(s)[u].apps == []
  {
    hide HostsOf;
    HostsWithoutApps(Items(s.backup));
  }

  /**
    The price of a crash while the backup stands: the hosts come back, and none has its app
    list. The primary array keeps them, so a flush that ends loses none.
  */
  lemma CrashLosesApps(s: Store, first: seq<Item>, second: seq<Item>, n: nat)
    requires WithoutApps(s.backup) && n <= |FlushOps(first, second)|
    ensures var t := Run(s, FlushOps(first, second)[..n]);
            && WithoutApps(t.backup)
            && (Items(t.backup) != [] ==> forall u :: u in Restored(t) ==> Restored(t)[u].apps == [])
            && (first != [] && |BackupOps(first)| <= n < |FlushOps(first, second)| ==> Items(t.backup) != [])
  {
    hide Run, FlushOps, BackupOps, SparesBackup, WithoutApps, Restored, Items;
    var t := Run(s, FlushOps(first, second)[..n]);
    FlushSpares(first, second);
    RunSpares(s, FlushOps(first, second)[..n]);
    if Items(t.backup) != [] {
      RestoredWithoutApps(t);
    }
    if first != [] && |BackupOps(first)| <= n < |FlushOps(first, second)| {
      BackupStands(s, first, second, n);
    }
  }

  lemma BackupStands(s: Store, first: seq<Item>, second: seq<Item>, n: nat)
    requires first != [] && |BackupOps(first)| <= n < |FlushOps(first, second)|
    ensures Items(Run(s, FlushOps(first, second)[..n]).backup) != []
  {
    hide Run, BackupOps, PrimaryOps, Items;
    var b, p := BackupOps(first), PrimaryOps(second);
    BackupPhase(s, first, |b|);
    assert b[..|b|] == b;
    var k := n - |b|;
    RunAppend(s, b, p[..k]);
    PrimaryPhase(Run(s, b), second, k);
    assert FlushOps(first, second)[..n] == b + p[..k];
  }

  // ---------------------------------------------------------------- the code

  /** The settings store; `done` is the history of its steps. */
  class Settings {
    var state: Store
    ghost var done: seq<Op>

    constructor (s: Store)
      ensures state == s && done == []
    {
      state := s;
      done := [];
    }

    method Step(op: Op)
      modifies this
      ensures state == Apply(old(state), op) && done == old(done) + [op]
    {
      state := Apply(state, op);
      done := done + [op];
    }
  }

  /** Writes the hosts to one array, one after the other. */
  method WriteHosts(settings: Settings, p: Place, hosts: Hosts, order: seq<string>, withApps: bool)
    requires Enumerates(order, hosts)
    modifies settings
    ensures settings.done == old(settings.done) + Writes(p, ItemsIn(order, hosts), withApps)
    ensures settings.state == Run(old(settings.state), Writes(p, ItemsIn(order, hosts), withApps))
  {
    hide Apply;
    ghost var ops := Writes(p, ItemsIn(order, hosts), withApps);
    for i := 0 to |order|
      invariant settings.done == old(settings.done) + ops[..i]
      invariant settings.state == Run(old(settings.state), ops[..i])
    {
      assert ops[..i + 1] == ops[..i] + [ops[i]];
      settings.Step(WriteItem(p, i, Item(order[i], hosts[order[i]]), withApps));
    }
    assert ops[..|order|] == ops;
  }

  method WriteBackup(settings: Settings, hosts: Hosts, order: seq<string>)
    requires Enumerates(order, hosts)
    modifies settings
    ensures settings.done == old(settings.done) + BackupOps(ItemsIn(order, hosts))
    ensures settings.state == Run(old(settings.state), BackupOps(ItemsIn(order, hosts)))
  {
    hide Run, Apply;
    ghost var s := settings.state;
    ghost var writes := Writes(Backup, ItemsIn(order, hosts), false);
    settings.Step(BeginWriteArray(Backup));
    RunOne(s, BeginWriteArray(Backup));
    WriteHosts(settings, Backup, hosts, order, false);
    RunAppend(s, [BeginWriteArray(Backup)], writes);
    settings.Step(EndArray(Backup, |order|));
    RunAnother(s, [BeginWriteArray(Backup)] + writes, EndArray(Backup, |order|));
  }

  method WritePrimary(settings: Settings, hosts: Hosts, order: seq<string>)
    requires Enumerates(order, hosts)
    modifies settings
    ensures settings.done == old(settings.done) + PrimaryOps(ItemsIn(order, hosts))
    ensures settings.state == Run(old(settings.state), PrimaryOps(ItemsIn(order, hosts)))
  {
    hide Run, Apply;
    ghost var s := settings.state;
    ghost var begin := [Remove(Primary), BeginWriteArray(Primary)];
    ghost var writes := Writes(Primary, ItemsIn(order, hosts), true);
    settings.Step(Remove(Primary));
    RunOne(s, Remove(Primary));
    settings.Step(BeginWriteArray(Primary));
    RunAnother(s, [Remove(Primary)], BeginWriteArray(Primary));
    assert [Remove(Primary)] + [BeginWriteArray(Primary)] == begin;
    WriteHosts(settings, Primary, hosts, order, true);
    RunAppend(s, begin, writes);
    settings.Step(EndArray(Primary, |order|));
    RunAnother(s, begin + writes, EndArray(Primary, |order|));
  }

  /**
    One flush: the steps are exactly those the crash results are about, one store step each.
    The lock is given up between the two loops: `earlier` is the map the first one goes
    through, `hosts` the map the second does.
  */
  method Flush(settings: Settings, earlier: Hosts, earlierOrder: seq<string>, hosts: Hosts, order: seq<string>)
    requires Enumerates(earlierOrder, earlier) && Enumerates(order, hosts)
    modifies settings
    ensures settings.done == old(settings.done) + FlushOps(ItemsIn(earlierOrder, earlier), ItemsIn(order, hosts))
    ensures settings.state
         == Run(old(settings.state), FlushOps(ItemsIn(earlierOrder, earlier), ItemsIn(order, hosts)))
    ensures Items(settings.state.backup) == [] && Restored(settings.state) == hosts
  {
    hide Run, Apply, Restored, Items, BackupOps, PrimaryOps;
    ghost var s := settings.state;
    ghost var first, second := ItemsIn(earlierOrder, earlier), ItemsIn(order, hosts);
    WriteBackup(settings, earlier, earlierOrder);
    WritePrimary(settings, hosts, order);
    RunAppend(s, BackupOps(first), PrimaryOps(second));
    settings.Step(Remove(Backup));
    RunAnother(s, BackupOps(first) + PrimaryOps(second), Remove(Backup));
    FlushEnds(s, first, hosts, order);
  }

  lemma RunAnother(s: Store, ops: seq<Op>, op: Op)
    ensures Run(s, ops + [op]) == Apply(Run(s, ops), op)
  {
    RunAppend(s, ops, [op]);
    RunOne(Run(s, ops), op);
  }

  /** Whatever a flush starts from, it ends with no backup and with just the hosts written last. */
  lemma FlushEnds(s: Store, first: seq<Item>, hosts: Hosts, order: seq<string>)
    requires Enumerates(order, hosts)
    ensures var t := Run(s, FlushOps(first, ItemsIn(order, hosts)));
            Items(t.backup) == [] && Restored(t) == PrimaryHosts(t) == hosts
  {
    hide Run, FlushOps, HostsOf, Bare;
    var ops := FlushOps(first, ItemsIn(order, hosts));
    EnumeratedHosts(order, hosts);
    CrashAt(s, first, ItemsIn(order, hosts), |ops|);
    assert ops[..|ops|] == ops;
  }

  /** The restart: the backup when it holds hosts, else the primary array. */
  method RestoreHosts(s: Store) returns (hosts: Hosts)
    ensures hosts == Restored(s)
  {
    var items := Items(s.backup);
    if |items| == 0 {
      items := Items(s.primary);
    }
    hosts := map[];
    for i := 0 to |items|
      invariant hosts == HostsOf(items[..i])
    {
      assert items[..i + 1][..i] == items[..i];
      hosts := hosts[items[i].uuid := items[i].host];
    }
    assert items[..|items|] == items;
  }
}
