/**
  The hand-over of DRM master between Qt and SDL in app/masterhook.c and
  app/masterhook_internal.c, over an abstract kernel that knows which open file description
  each descriptor refers to and which description is master.
*/
module MasterHook {

  const MAX_SDL_FD_COUNT := 8

  import opened Options

  // ---------------------------------------------------------------- the kernel

  /**
    `descs`: the description behind each descriptor of the card. `master`: the description
    that is master. `wasMaster`: those that have been, and so may become master again.
  */
  datatype Kernel = Kernel(descs: map<int, nat>, master: Option<nat>, wasMaster: set<nat>)
  {
    /** Descriptors share a description only through dup. */
    predicate IsMaster(fd: int)
    {
      fd in descs && master == Some(descs[fd])
    }

    /** A new description becomes master when nobody is. */
    function Open(fd: int, desc: nat): (k: Kernel)
    {
      var k := this.(descs := descs[fd := desc]);
      if master.None? then k.(master := Some(desc), wasMaster := wasMaster + {desc}) else k
    }

    function Dup(fd: int, newFd: int): (k: Kernel)
    {
      if fd in descs then this.(descs := descs[newFd := descs[fd]]) else this
    }

    /** Closing the last descriptor of the master description leaves no master. */
    function Close(fd: int): (k: Kernel)
    {
      var k := this.(descs := descs - {fd});
      if IsMaster(fd) && descs[fd] !in k.descs.Values then k.(master := None) else k
    }

    predicate CanSetMaster(fd: int)
    {
      fd in descs && (IsMaster(fd) || (master.None? && descs[fd] in wasMaster))
    }

    function SetMaster(fd: int): (k: Kernel)
    {
      if CanSetMaster(fd) then this.(master := Some(descs[fd])) else this
    }

    function DropMaster(fd: int): (k: Kernel)
    {
      if IsMaster(fd) then this.(master := None) else this
    }

    /** Descriptor numbers and descriptions handed out by open are unused ones. */
    predicate FreshFd(fd: int)
    {
      fd >= 0 && fd !in descs
    }

    predicate FreshDesc(desc: nat)
    {
      desc !in descs.Values && desc !in wasMaster && master != Some(desc)
    }
  }

  // ---------------------------------------------------------------- the hooks' state

  datatype Drm = Drm(qtFd: int, table: seq<int>, count: int, kernel: Kernel)
  {
    predicate CounterRight()
    {
      |table| == MAX_SDL_FD_COUNT && count == Used(table) && forall i :: 0 <= i < |table| ==> table[i] >= -1
    }

    predicate Empty()
    {
      forall i :: 0 <= i < |table| ==> table[i] < 0
    }

    predicate QtHolds()
    {
      qtFd != -1 && kernel.IsMaster(qtFd)
    }
  }

  /** The number of occupied slots. */
  function Used(table: seq<int>): (n: nat)
    ensures n <= |table|
  {
    if table == [] then 0
    else Used(table[..|table| - 1]) + (if table[|table| - 1] >= 0 then 1 else 0)
  }

  /** Writing one slot moves the number of occupied slots by that slot alone. */
  lemma {:induction false} UsedUpdate(table: seq<int>, i: nat, fd: int)
    requires i < |table|
    ensures Used(table[i := fd])
         == Used(table) - (if table[i] >= 0 then 1 else 0) + (if fd >= 0 then 1 else 0)
    decreases |table|
  {
    var n := |table| - 1;
    if i < n {
      UsedUpdate(table[..n], i, fd);
      assert table[i := fd][..n] == table[..n][i := fd];
    } else {
      assert table[i := fd][..n] == table[..n];
    }
  }

  lemma {:induction false} UsedZero(table: seq<int>)
    ensures Used(table) == 0 <==> forall i :: 0 <= i < |table| ==> table[i] < 0
    decreases |table|
  {
    if table != [] {
      var n := |table| - 1;
      UsedZero(table[..n]);
      assert forall i :: 0 <= i < n ==> table[i] == table[..n][i];
    }
  }

  /** The first slot that is unused, or the first that is used; -1 when there is none. */
  predicate IsEntryIndex(table: seq<int>, unused: bool, index: int)
  {
    && -1 <= index < |table|
    && (index >= 0 ==> (table[index] < 0) == unused)
    && forall i :: 0 <= i < (if index >= 0 then index else |table|) ==> (table[i] < 0) != unused
  }

  function EntryIndex(table: seq<int>, unused: bool): (index: int)
    ensures IsEntryIndex(table, unused, index)
  {
    EntryIndexFrom(table, unused, 0)
  }

  function EntryIndexFrom(table: seq<int>, unused: bool, i: nat): (index: int)
    requires i <= |table| && forall k :: 0 <= k < i ==> (table[k] < 0) != unused
    ensures IsEntryIndex(table, unused, index)
    decreases |table| - i
  {
    if i == |table| then -1
    else if (table[i] < 0) == unused then i
    else EntryIndexFrom(table, unused, i + 1)
  }

  /** The first slot that holds `fd`, or -1. */
  function SlotOf(table: seq<int>, fd: int): (slot: int)
    ensures -1 <= slot < |table|
    ensures if slot >= 0 then table[slot] == fd && fd !in table[..slot] else fd !in table
  {
    if table == [] then -1
    else
      var front := SlotOf(table[..|table| - 1], fd);
      if front >= 0 then front
      else if table[|table| - 1] == fd then |table| - 1
      else -1
  }

  // ---------------------------------------------------------------- the hooks as transitions

  function RemoveFd(s: Drm, fd: int): (r: (Drm, bool))
  {
    if fd == -1 || s.count == 0 then (s, false)
    else
      var slot := SlotOf(s.table, fd);
      var s' := if slot >= 0 then s.(table := s.table[slot := -1], count := s.count - 1) else s;
      (s', s'.count == 0)
  }

  /** The drop of master on any one SDL descriptor; yields the one used, or -1. */
  function TakeMaster(s: Drm): (r: (Drm, int))
    requires |s.table| == MAX_SDL_FD_COUNT
  {
    var index := EntryIndex(s.table, false);
    if index >= 0 && s.kernel.IsMaster(s.table[index])
    then (s.(kernel := s.kernel.DropMaster(s.table[index])), s.table[index])
    else (s, -1)
  }

  /** What the kernel answers to the calls of one openHook, in the order of the calls. */
  datatype OpenAnswers = OpenAnswers(
    fd: int,        // the first open: a new descriptor, or negative on failure
    desc: nat,      // its description
    sameCard: bool, // the path and fstat say this is the card Qt has
    dropFails: bool,// drmDropMaster is refused although Qt is master
    fd2: int,       // the dup or the second open
    desc2: nat)     // the description of the second open

  function OpenHook(s: Drm, a: OpenAnswers): (r: (Drm, int))
    requires |s.table| == MAX_SDL_FD_COUNT
  {
    var first := if a.fd >= 0 && a.sameCard then s.(kernel := s.kernel.Open(a.fd, a.desc)) else s;
    if a.fd < 0 || s.qtFd == -1 || !a.sameCard then (first, a.fd)
    else
      var free, used := EntryIndex(s.table, true), EntryIndex(s.table, false);
      if free < 0 then (first, a.fd)
      else if used >= 0 then
        var closed := first.kernel.Close(a.fd);
        if a.fd2 >= 0 then Insert(s.(kernel := closed.Dup(s.table[used], a.fd2)), free, a.fd2)
        else (s.(kernel := closed), a.fd2)
      else if a.dropFails || !first.kernel.IsMaster(s.qtFd) then (first, a.fd)
      else
        var closed := first.kernel.DropMaster(s.qtFd).Close(a.fd);
        if a.fd2 >= 0 then Insert(s.(kernel := closed.Open(a.fd2, a.desc2)), free, a.fd2)
        else (s.(kernel := closed), a.fd2)
  }

  function Insert(s: Drm, free: nat, fd: int): (r: (Drm, int))
    requires free < |s.table|
  {
    (s.(kernel := s.kernel.SetMaster(fd), table := s.table[free := fd], count := s.count + 1), fd)
  }

  /** `closeOk`: the real close returned 0. */
  function CloseHook(s: Drm, fd: int, closeOk: bool): (s': Drm)
  {
    var (removed, last) := RemoveFd(s, fd);
    if !closeOk then removed
    else
      var k := removed.kernel.Close(fd);
      removed.(kernel := if last then k.SetMaster(s.qtFd) else k)
  }

  const EACCES := 13

  /** A display call on `fd` succeeds for the master only. */
  function DisplayCall(k: Kernel, fd: int): (err: int)
  {
    if k.IsMaster(fd) then 0 else -EACCES
  }

  /** The page flip, and the commit after its capture step. */
  function Flip(s: Drm, fd: int): (r: (Drm, int))
    requires |s.table| == MAX_SDL_FD_COUNT
  {
    var err := DisplayCall(s.kernel, fd);
    if err == -EACCES && fd == s.qtFd then
      var (taken, oldMasterFd) := TakeMaster(s);
      var k := taken.kernel.SetMaster(fd);
      var err' := DisplayCall(k, fd);
      var dropped := k.DropMaster(fd);
      (taken.(kernel := if oldMasterFd != -1 then dropped.SetMaster(oldMasterFd) else dropped), err')
    else (s, err)
  }

  /** The first master descriptor that comes by is Qt's. */
  function Capture(s: Drm, fd: int): (s': Drm)
  {
    if s.qtFd == -1 && s.kernel.IsMaster(fd) then s.(qtFd := fd) else s
  }

  function Commit(s: Drm, fd: int): (r: (Drm, int))
    requires |s.table| == MAX_SDL_FD_COUNT
  {
    Flip(Capture(s, fd), fd)
  }

  // ---------------------------------------------------------------- runs

  datatype Event =
    | EvOpen(answers: OpenAnswers)
    | EvClose(fd: int, closeOk: bool)
    | EvSetCrtc(fd: int)
    | EvFlip(fd: int)
    | EvCommit(fd: int)

  function Step(s: Drm, e: Event): (s': Drm)
    requires s.CounterRight()
  {
    match e
    case EvOpen(a) => OpenHook(s, a).0
    case EvClose(fd, ok) => CloseHook(s, fd, ok)
    case EvSetCrtc(fd) => Capture(s, fd)
    case EvFlip(fd) => Flip(s, fd).0
    case EvCommit(fd) => Commit(s, fd).0
  }

  /** The counter is right after every hook, whatever the kernel answers. */
  lemma StepKeepsCounter(s: Drm, e: Event)
    requires s.CounterRight()
    ensures Step(s, e).CounterRight()
  {
    match e
    case EvOpen(a) =>
      var free := EntryIndex(s.table, true);
      if free >= 0 {
        UsedUpdate(s.table, free, a.fd2);
      }
    case EvClose(fd, ok) =>
      RemoveKeepsCounter(s, fd);
    case EvSetCrtc(fd) =>
    case EvFlip(fd) =>
    case EvCommit(fd) =>
  }

  /** Removing reports the last descriptor exactly when the counter falls from one to zero. */
  lemma RemoveKeepsCounter(s: Drm, fd: int)
    requires s.CounterRight()
    ensures var (s', last) := RemoveFd(s, fd);
            && s'.CounterRight()
            && (last <==> s.count == 1 && s'.count == 0)
            && (last ==> fd in s.table && s'.Empty())
            && s' == s.(table := s'.table, count := s'.count)
  {
    var slot := SlotOf(s.table, fd);
    UsedZero(s.table);
    if slot >= 0 {
      UsedUpdate(s.table, slot, -1);
      UsedZero(s.table[slot := -1]);
    }
  }

  /**
    What threads do to the table one at a time, under its lock, when their hooks interleave;
    `Elsewhere` is everything done without it.
  */
  datatype Section = RemoveSection(fd: int) | InsertSection(fd: int) | Elsewhere(qtFd: int, kernel: Kernel)

  function SectionStep(s: Drm, c: Section): (s': Drm)
  {
    match c
    case RemoveSection(fd) => RemoveFd(s, fd).0
    case InsertSection(fd) =>
      var free := EntryIndex(s.table, true);
      if free >= 0 && fd >= 0 then Insert(s, free, fd).0 else s
    case Elsewhere(qtFd, kernel) => s.(qtFd := qtFd, kernel := kernel)
  }

  function RunSections(s: Drm, sections: seq<Section>): (s': Drm)
  {
    if sections == [] then s
    else SectionStep(RunSections(s, sections[..|sections| - 1]), sections[|sections| - 1])
  }

  /** However hooks interleave, the counter counts the occupied slots. */
  lemma {:induction false} SectionsKeepCounter(s: Drm, sections: seq<Section>)
    requires s.CounterRight()
    ensures RunSections(s, sections).CounterRight()
  {
    if sections != [] {
      var before := RunSections(s, sections[..|sections| - 1]);
      SectionsKeepCounter(s, sections[..|sections| - 1]);
      match sections[|sections| - 1]
      case RemoveSection(fd) => RemoveKeepsCounter(before, fd);
      case InsertSection(fd) =>
        var free := EntryIndex(before.table, true);
        if free >= 0 {
          UsedUpdate(before.table, free, fd);
        }
      case Elsewhere(_, _) =>
    }
  }

  /** All descriptors of `d` sit in the table. */
  predicate OnlyInTable(s: Drm, d: nat)
  {
    forall fd :: fd in s.kernel.descs && s.kernel.descs[fd] == d ==> fd in s.table
  }

  /** All table entries are dups of one description that is master and not Qt's. */
  predicate SdlHolds(s: Drm, d: nat)
  {
    && s.kernel.master == Some(d) && d in s.kernel.wasMaster
    && s.qtFd in s.kernel.descs && s.kernel.descs[s.qtFd] != d
    && (forall i :: 0 <= i < |s.table| && s.table[i] >= 0 ==>
          s.table[i] in s.kernel.descs && s.kernel.descs[s.table[i]] == d)
    && OnlyInTable(s, d)
  }

  predicate NoRepeats(table: seq<int>)
  {
    forall i, j :: 0 <= i < j < |table| && table[i] >= 0 ==> table[i] != table[j]
  }

  /** Qt is master while the table is empty; otherwise the description behind the table is. */
  predicate Owned(s: Drm)
  {
    && s.CounterRight() && NoRepeats(s.table)
    && (forall fd :: fd in s.kernel.descs ==> fd >= 0)
    && s.qtFd in s.kernel.descs && s.kernel.descs[s.qtFd] in s.kernel.wasMaster
    && (if s.Empty() then s.kernel.IsMaster(s.qtFd)
        else s.kernel.master.Some? && SdlHolds(s, s.kernel.master.value))
  }

  /**
    The hook calls ownership is claimed for: fresh numbers from the kernel, its calls
    successful, and Qt's descriptor left open.
  */
  predicate Regular(s: Drm, e: Event)
  {
    match e
    case EvOpen(a) =>
      && (a.fd >= 0 ==> s.kernel.FreshFd(a.fd) && s.kernel.FreshDesc(a.desc))
      && !a.dropFails
      && (a.fd2 >= 0 ==> s.kernel.FreshFd(a.fd2))
      && (s.qtFd != -1 && s.Empty() ==> a.fd2 >= 0 && s.kernel.FreshDesc(a.desc2))
    case EvClose(fd, ok) => ok && fd != s.qtFd
    case _ => true
  }

  lemma FlipKeepsState(s: Drm, fd: int)
    requires Owned(s)
    ensures Flip(s, fd).0 == s
    ensures fd == s.qtFd ==> Flip(s, fd).1 == 0
  {
    if fd == s.qtFd && !s.Empty() {
      var index := EntryIndex(s.table, false);
      var k := s.kernel;
      var taken := TakeMaster(s).0;
      assert taken.kernel == k.(master := None);
      assert taken.kernel.SetMaster(fd) == k.(master := Some(k.descs[fd]));
      assert taken.kernel.SetMaster(fd).DropMaster(fd) == k.(master := None);
    }
  }

  lemma RemoveKeepsNoRepeats(s: Drm, fd: int)
    requires s.CounterRight() && NoRepeats(s.table)
    ensures var s' := RemoveFd(s, fd).0;
            && NoRepeats(s'.table)
            && (fd != -1 ==> fd !in s'.table)
            && forall x :: x != fd && x >= 0 ==> (x in s'.table <==> x in s.table)
  {
    UsedZero(s.table);
    var slot := SlotOf(s.table, fd);
    var s' := RemoveFd(s, fd).0;
    if slot >= 0 && fd != -1 {
      assert s.table[slot] == fd;
      forall x | x != fd && x >= 0
        ensures x in s'.table <==> x in s.table
      {
        if x in s.table {
          var i :| 0 <= i < |s.table| && s.table[i] == x;
          assert s'.table[i] == x;
        }
      }
    }
  }

  /** Qt's own description survives the close of another descriptor, and stays master if it was. */
  lemma CloseLeavesQt(k: Kernel, qtFd: int, fd: int)
    requires qtFd in k.descs && fd != qtFd
    ensures var k' := k.Close(fd);
            && qtFd in k'.descs && k'.descs[qtFd] == k.descs[qtFd]
            && (k.IsMaster(qtFd) ==> k'.master == k.master)
  {
    var k' := k.Close(fd);
    assert k'.descs[qtFd] in k'.descs.Values;
  }

  /** Closing the last table entry leaves no master, so Qt can take it. */
  lemma CloseLast(s: Drm, fd: int)
    requires Owned(s) && !s.Empty() && fd != s.qtFd
    requires RemoveFd(s, fd).1
    ensures s.kernel.Close(fd).master.None?
  {
    RemoveKeepsCounter(s, fd);
    RemoveKeepsNoRepeats(s, fd);
    var d, removed := s.kernel.master.value, RemoveFd(s, fd).0;
    assert fd in s.table;
    var descs := s.kernel.descs - {fd};
    forall x | x in descs
      ensures descs[x] != d
    {
      assert x in s.table ==> x in removed.table;
    }
  }

  lemma NotLastLeaves(s: Drm, fd: int)
    requires s.CounterRight() && !s.Empty() && !RemoveFd(s, fd).1
    ensures !RemoveFd(s, fd).0.Empty()
  {
    hide Used, SlotOf;
    RemoveKeepsCounter(s, fd);
    UsedZero(s.table);
    UsedZero(RemoveFd(s, fd).0.table);
  }

  /** While another entry is left, its description stays master. */
  lemma CloseNotLast(s: Drm, fd: int)
    requires Owned(s) && !s.Empty() && fd != s.qtFd
    requires !RemoveFd(s, fd).1
    ensures var removed := RemoveFd(s, fd).0;
            && !removed.Empty()
            && SdlHolds(removed.(kernel := s.kernel.Close(fd)), s.kernel.master.value)
            && s.kernel.Close(fd).master == s.kernel.master
  {
    hide RemoveFd, Used, SlotOf, NoRepeats;
    RemoveKeepsCounter(s, fd);
    RemoveKeepsNoRepeats(s, fd);
    NotLastLeaves(s, fd);
    var k, d, removed := s.kernel.Close(fd), s.kernel.master.value, RemoveFd(s, fd).0;
    var i :| 0 <= i < |removed.table| && removed.table[i] >= 0;
    var x := removed.table[i];
    assert x in removed.table && x in s.table && x != fd;
    assert k.descs[x] == d && d in k.descs.Values;
    forall j | 0 <= j < |removed.table| && removed.table[j] >= 0
      ensures removed.table[j] in k.descs && k.descs[removed.table[j]] == d
    {
      assert removed.table[j] in removed.table;
      assert removed.table[j] in s.table;
    }
  }

  lemma CloseKeepsOwned(s: Drm, fd: int)
    requires Owned(s) && fd != s.qtFd
    ensures Owned(CloseHook(s, fd, true))
  {
    RemoveKeepsCounter(s, fd);
    RemoveKeepsNoRepeats(s, fd);
    CloseLeavesQt(s.kernel, s.qtFd, fd);
    UsedZero(s.table);
    if !s.Empty() {
      if RemoveFd(s, fd).1 {
        CloseLast(s, fd);
      } else {
        CloseNotLast(s, fd);
      }
    }
    hide SlotOf, Used;
  }

  /** Filling a free slot adds its descriptor and loses none. */
  lemma FillSlot(table: seq<int>, free: nat, fd: int)
    requires free < |table| && table[free] < 0 && fd >= 0 && fd !in table && NoRepeats(table)
    ensures var table' := table[free := fd];
            && NoRepeats(table') && fd in table'
            && forall x :: x >= 0 && x in table ==> x in table'
  {
    var table' := table[free := fd];
    assert table'[free] == fd;
    forall x | x >= 0 && x in table
      ensures x in table'
    {
      var i :| 0 <= i < |table| && table[i] == x;
      assert table'[i] == x;
    }
  }

  /** SDL opens the card again: the new entry is a dup of those that hold master. */
  lemma OpenDup(s: Drm, a: OpenAnswers)
    requires Owned(s) && s.qtFd != -1 && Regular(s, EvOpen(a)) && !s.Empty() && a.fd2 >= 0
    requires s.kernel.FreshFd(a.fd)
    ensures var free, used := EntryIndex(s.table, true), EntryIndex(s.table, false);
            used >= 0 && (free >= 0 ==>
              var k := s.kernel.Open(a.fd, a.desc).Close(a.fd).Dup(s.table[used], a.fd2);
              Owned(Insert(s.(kernel := k), free, a.fd2).0))
  {
    var free, used := EntryIndex(s.table, true), EntryIndex(s.table, false);
    var d := s.kernel.master.value;
    var first := s.kernel.Open(a.fd, a.desc);
    assert first.descs - {a.fd} == s.kernel.descs;
    assert first.Close(a.fd) == s.kernel;
    if free >= 0 {
      assert a.fd2 !in s.table;
      FillSlot(s.table, free, a.fd2);
      UsedUpdate(s.table, free, a.fd2);
      var s' := Insert(s.(kernel := s.kernel.Dup(s.table[used], a.fd2)), free, a.fd2).0;
      assert s'.kernel == s.kernel.(descs := s.kernel.descs[a.fd2 := d]);
      assert SdlHolds(s', d);
      assert s'.table[free] >= 0;
    }
  }

  /** SDL opens the card first: Qt gives master up and the new description takes it. */
  lemma OpenFirst(s: Drm, a: OpenAnswers)
    requires Owned(s) && s.qtFd != -1 && Regular(s, EvOpen(a)) && s.Empty()
    requires s.kernel.FreshFd(a.fd) && s.kernel.FreshDesc(a.desc)
    ensures var free, used := EntryIndex(s.table, true), EntryIndex(s.table, false);
            && free >= 0 && used < 0
            && var k := s.kernel.Open(a.fd, a.desc).DropMaster(s.qtFd).Close(a.fd).Open(a.fd2, a.desc2);
               Owned(Insert(s.(kernel := k), free, a.fd2).0)
  {
    var free, used := EntryIndex(s.table, true), EntryIndex(s.table, false);
    assert s.table[0] < 0;
    var dropped := s.kernel.Open(a.fd, a.desc).DropMaster(s.qtFd);
    assert dropped == s.kernel.(descs := s.kernel.descs[a.fd := a.desc], master := None);
    assert dropped.descs - {a.fd} == s.kernel.descs;
    var k := dropped.Close(a.fd).Open(a.fd2, a.desc2);
    assert k == Kernel(s.kernel.descs[a.fd2 := a.desc2], Some(a.desc2), s.kernel.wasMaster + {a.desc2});
    FillSlot(s.table, free, a.fd2);
    UsedUpdate(s.table, free, a.fd2);
    var s' := Insert(s.(kernel := k), free, a.fd2).0;
    assert s.kernel.descs[s.qtFd] in s.kernel.descs.Values;
    forall x | x in s.kernel.descs
      ensures s.kernel.descs[x] != a.desc2
    {
      assert s.kernel.descs[x] in s.kernel.descs.Values;
    }
    assert SdlHolds(s', a.desc2);
    assert s'.table[free] >= 0;
  }

  /** An open that is not tracked changes nothing that matters. */
  lemma OpenUntracked(s: Drm, a: OpenAnswers)
    requires Owned(s) && s.kernel.FreshFd(a.fd) && s.kernel.FreshDesc(a.desc)
    ensures Owned(s.(kernel := s.kernel.Open(a.fd, a.desc)))
  {
    var s' := s.(kernel := s.kernel.Open(a.fd, a.desc));
    assert s'.kernel == s.kernel.(descs := s.kernel.descs[a.fd := a.desc]);
    if !s.Empty() {
      assert SdlHolds(s', s.kernel.master.value);
    }
  }

  lemma OpenKeepsOwned(s: Drm, a: OpenAnswers)
    requires Owned(s) && s.qtFd != -1 && Regular(s, EvOpen(a))
    ensures Owned(OpenHook(s, a).0)
  {
    if a.fd >= 0 && a.sameCard {
      var free := EntryIndex(s.table, true);
      if free < 0 {
        OpenUntracked(s, a);
      } else if s.Empty() {
        OpenFirst(s, a);
        assert s.kernel.Open(a.fd, a.desc).IsMaster(s.qtFd);
      } else if a.fd2 >= 0 {
        OpenDup(s, a);
      } else {
        assert s.kernel.Open(a.fd, a.desc).descs - {a.fd} == s.kernel.descs;
        assert s.kernel.Open(a.fd, a.desc).Close(a.fd) == s.kernel;
        var i :| 0 <= i < |s.table| && s.table[i] >= 0;
        assert EntryIndex(s.table, false) >= 0;
      }
    }
  }

  // ---------------------------------------------------------------- what an open gives back

  /** Answers a kernel can give: unused numbers, and a dup only of a descriptor that is open. */
  predicate Possible(s: Drm, a: OpenAnswers)
  {
    && (a.fd >= 0 ==> s.kernel.FreshFd(a.fd) && s.kernel.FreshDesc(a.desc))
    && (a.fd2 >= 0 ==> s.kernel.FreshFd(a.fd2))
    && (a.fd2 >= 0 ==> forall i :: 0 <= i < |s.table| && s.table[i] >= 0 ==> s.table[i] in s.kernel.descs)
  }

  /** The open is taken over: a captured card, a free slot, and master to be had for SDL. */
  predicate Tracked(s: Drm, a: OpenAnswers)
  {
    && s.qtFd != -1 && a.fd >= 0 && a.fd2 >= 0 && s.count < 8
    && (s.count > 0 || (!a.dropFails && s.kernel.Open(a.fd, a.desc).IsMaster(s.qtFd)))
  }

  lemma {:induction false} UsedFull(table: seq<int>)
    ensures Used(table) == |table| <==> forall i :: 0 <= i < |table| ==> table[i] >= 0
    decreases |table|
  {
    if table != [] {
      var n := |table| - 1;
      UsedFull(table[..n]);
      assert forall i :: 0 <= i < n ==> table[i] == table[..n][i];
    }
  }

  lemma FreeAndUsed(table: seq<int>)
    ensures EntryIndex(table, true) >= 0 <==> Used(table) < |table|
    ensures EntryIndex(table, false) >= 0 <==> Used(table) > 0
  {
    UsedZero(table);
    UsedFull(table);
  }

  /**
    What SDL gets from opening Qt's card: a descriptor that is open, the only one that was
    not before, or an error after which all is as before. It is put in a slot that was free
    exactly when the open is tracked, and no other slot changes.
  */
  lemma OpenGivesBack(s: Drm, a: OpenAnswers)
    requires s.CounterRight() && a.sameCard && Possible(s, a)
    ensures var (s', fd) := OpenHook(s, a);
            && s'.qtFd == s.qtFd
            && s'.kernel.descs.Keys == (if fd >= 0 then s.kernel.descs.Keys + {fd} else s.kernel.descs.Keys)
            && (fd >= 0 ==> fd !in s.kernel.descs)
            && (Tracked(s, a) ==>
                  && fd >= 0 && s'.count == s.count + 1
                  && exists i :: 0 <= i < 8 && s.table[i] < 0 && s'.table == s.table[i := fd])
            && (!Tracked(s, a) ==> s'.table == s.table && s'.count == s.count)
  {
    FreeAndUsed(s.table);
    var free, used := EntryIndex(s.table, true), EntryIndex(s.table, false);
    var first := s.kernel.Open(a.fd, a.desc);
    if s.qtFd != -1 && a.fd >= 0 {
      assert first.descs - {a.fd} == s.kernel.descs;
    }
  }

  /** With ownership right and the kernel willing, a tracked descriptor is master at once. */
  lemma OpenGivesMaster(s: Drm, a: OpenAnswers)
    requires Owned(s) && s.qtFd != -1 && a.sameCard && Regular(s, EvOpen(a)) && Tracked(s, a)
    ensures var (s', fd) := OpenHook(s, a);
            fd in s'.table && s'.kernel.IsMaster(fd) && !s'.kernel.IsMaster(s.qtFd)
  {
    UsedZero(s.table);
    OpenGivesBack(s, a);
    OpenKeepsOwned(s, a);
    var (s', fd) := OpenHook(s, a);
    var i :| 0 <= i < 8 && s.table[i] < 0 && s'.table == s.table[i := fd];
    assert s'.table[i] == fd;
  }

  /** Before the capture, for other cards and for failed opens the hook passes on what it got. */
  lemma OtherOpens(s: Drm, a: OpenAnswers)
    requires s.CounterRight() && (s.qtFd == -1 || !a.sameCard || a.fd < 0)
    ensures var (s', fd) := OpenHook(s, a);
            fd == a.fd && s'.table == s.table && s'.count == s.count && s'.qtFd == s.qtFd
  {
  }

  /** A close takes the descriptor out of the table, and out of the kernel when that agrees. */
  lemma CloseForgets(s: Drm, fd: int, closeOk: bool)
    requires s.CounterRight() && NoRepeats(s.table)
    ensures var s' := CloseHook(s, fd, closeOk);
            && s'.qtFd == s.qtFd
            && s'.kernel.descs == (if closeOk then s.kernel.descs - {fd} else s.kernel.descs)
            && (!closeOk ==> s'.kernel == s.kernel)
            && (fd != -1 ==> fd !in s'.table)
            && forall x :: x != fd && x >= 0 ==> (x in s'.table <==> x in s.table)
  {
    RemoveKeepsCounter(s, fd);
    RemoveKeepsNoRepeats(s, fd);
  }

  // ---------------------------------------------------------------- capture and other descriptors

  /** A commit or a set-CRTC on a descriptor that is master captures it, once; nothing else does. */
  lemma CaptureExactly(s: Drm, fd: int)
    requires s.CounterRight()
    ensures var qtFd := if s.qtFd == -1 && s.kernel.IsMaster(fd) then fd else s.qtFd;
            && Step(s, EvSetCrtc(fd)) == s.(qtFd := qtFd)
            && Step(s, EvCommit(fd)).qtFd == qtFd
            && Step(s, EvFlip(fd)).qtFd == s.qtFd
  {
  }

  /** On other descriptors than Qt's, flips and commits only pass on what the kernel says. */
  lemma OthersPassedOn(s: Drm, fd: int)
    requires s.CounterRight() && fd != s.qtFd && s.qtFd != -1
    ensures Flip(s, fd) == (s, if s.kernel.IsMaster(fd) then 0 else -13)
    ensures Commit(s, fd) == Flip(s, fd)
  {
  }

  /** Before the capture the hooks leave the table empty; after it, ownership is right. */
  predicate Inv(s: Drm)
  {
    && s.CounterRight()
    && (forall fd :: fd in s.kernel.descs ==> fd >= 0)
    && (s.kernel.master.Some? ==> s.kernel.master.value in s.kernel.wasMaster)
    && (if s.qtFd == -1 then s.Empty() else Owned(s))
  }

  lemma StepKeepsInv(s: Drm, e: Event)
    requires Inv(s) && Regular(s, e)
    ensures Inv(Step(s, e))
    ensures s.qtFd != -1 ==> Step(s, e).qtFd == s.qtFd
  {
    StepKeepsCounter(s, e);
    UsedZero(s.table);
    if s.qtFd != -1 {
      match e
      case EvOpen(a) => OpenKeepsOwned(s, a);
      case EvClose(fd, ok) => CloseKeepsOwned(s, fd);
      case EvSetCrtc(fd) =>
      case EvFlip(fd) => FlipKeepsState(s, fd);
      case EvCommit(fd) => FlipKeepsState(s, fd);
    } else {
      match e
      case EvOpen(a) =>
      case EvClose(fd, ok) =>
      case EvSetCrtc(fd) =>
      case EvFlip(fd) =>
        assert fd == -1 ==> !s.kernel.IsMaster(fd);
        FlipUncaptured(s, fd);
      case EvCommit(fd) =>
        if s.kernel.IsMaster(fd) {
          FlipKeepsState(Capture(s, fd), fd);
        } else {
          FlipUncaptured(s, fd);
        }
    }
  }

  /** Without a captured descriptor a display call is passed through. */
  lemma FlipUncaptured(s: Drm, fd: int)
    requires Inv(s) && s.qtFd == -1
    ensures Inv(Flip(s, fd).0)
  {
    if fd == -1 {
      assert EntryIndex(s.table, false) < 0;
    }
  }

  function Run(s: Drm, events: seq<Event>): (s': Drm)
    requires s.CounterRight()
    ensures s'.CounterRight()
  {
    if events == [] then s
    else
      var before := Run(s, events[..|events| - 1]);
      StepKeepsCounter(before, events[|events| - 1]);
      Step(before, events[|events| - 1])
  }

  predicate RegularRun(s: Drm, events: seq<Event>)
    requires s.CounterRight()
  {
    forall i :: 0 <= i < |events| ==> Regular(Run(s, events[..i]), events[i])
  }

  /** The state in which the process starts: nothing captured, nothing tracked. */
  predicate Start(s: Drm)
  {
    && s.qtFd == -1 && s.count == 0 && s.table == seq(MAX_SDL_FD_COUNT, _ => -1)
    && (forall fd :: fd in s.kernel.descs ==> fd >= 0)
    && (s.kernel.master.Some? ==> s.kernel.master.value in s.kernel.wasMaster)
  }

  lemma StartIsInv(s: Drm)
    requires Start(s)
    ensures Inv(s)
  {
    UsedZero(s.table);
  }

  lemma {:induction false} RunKeepsInv(s: Drm, events: seq<Event>)
    requires Start(s) && s.CounterRight() && RegularRun(s, events)
    ensures Inv(Run(s, events))
    decreases |events|
  {
    hide Inv, Regular, Step, Start;
    if events == [] {
      StartIsInv(s);
    } else {
      var n := |events| - 1;
      forall i | 0 <= i < n
        ensures Regular(Run(s, events[..n][..i]), events[..n][i])
      {
        assert events[..n][..i] == events[..i];
      }
      RunKeepsInv(s, events[..n]);
      StepKeepsInv(Run(s, events[..n]), events[n]);
    }
  }

  /**
    Ownership over whole runs: once Qt's descriptor is captured, Qt holds master exactly when
    no SDL descriptor is tracked, and otherwise every tracked descriptor does; and a flip or
    commit by Qt succeeds and leaves everything as it was.
  */
  lemma Ownership(s: Drm, events: seq<Event>)
    requires Start(s) && s.CounterRight() && RegularRun(s, events)
    ensures var r := Run(s, events);
            r.qtFd != -1 ==>
              && (r.QtHolds() <==> r.Empty())
              && (r.count == 0 <==> r.Empty())
              && (forall i :: 0 <= i < |r.table| && r.table[i] >= 0 ==> r.kernel.IsMaster(r.table[i]))
              && Flip(r, r.qtFd) == (r, 0) && Commit(r, r.qtFd) == (r, 0)
  {
    RunKeepsInv(s, events);
    var r := Run(s, events);
    UsedZero(r.table);
    if r.qtFd != -1 {
      FlipKeepsState(r, r.qtFd);
    }
  }

  // ---------------------------------------------------------------- the code

  /** The globals of the two files, and the kernel they talk to. */
  class Hooks {
    var qtFd: int
    const table: array<int>
    var count: int
    var kernel: Kernel

    predicate Valid()
      reads this, table
    {
      Value().CounterRight()
    }

    function Value(): (s: Drm)
      reads this, table
    {
      Drm(qtFd, table[..], count, kernel)
    }

    constructor (kernel: Kernel)
      ensures Valid() && Value() == Drm(-1, seq(MAX_SDL_FD_COUNT, _ => -1), 0, kernel)
      ensures fresh(table)
    {
      qtFd := -1;
      table := new int[MAX_SDL_FD_COUNT](_ => -1);
      count := 0;
      this.kernel := kernel;
      new;
      assert table[..] == seq(MAX_SDL_FD_COUNT, _ => -1);
      UsedZero(table[..]);
    }

    method GetSdlFdEntryIndex(unused: bool) returns (index: int)
      requires Valid()
      ensures index == EntryIndex(table[..], unused)
    {
      for i := 0 to table.Length
        invariant forall k :: 0 <= k < i ==> (table[k] < 0) != unused
        invariant EntryIndex(table[..], unused) == EntryIndexFrom(table[..], unused, i)
      {
        if unused && table[i] < 0 {
          return i;
        } else if !unused && table[i] >= 0 {
          return i;
        }
      }
      return -1;
    }

    method RemoveSdlFd(fd: int) returns (last: bool)
      requires Valid()
      modifies this`count, table
      ensures Valid() && (Value(), last) == RemoveFd(old(Value()), fd)
    {
      RemoveKeepsCounter(Value(), fd);
      if fd == -1 {
        return false;
      }
      if count != 0 {
        var i := 0;
        while i < table.Length
          invariant 0 <= i <= table.Length && fd !in table[..i]
          invariant table[..] == old(table[..]) && count == old(count)
        {
          if fd == table[i] {
            assert SlotOf(table[..], fd) == i;
            table[i] := -1;
            count := count - 1;
            break;
          }
          i := i + 1;
        }
        if count == 0 {
          return true;
        }
      }
      return false;
    }

    method TakeMasterFromSdlFd() returns (fd: int)
      requires Valid()
      modifies this`kernel
      ensures Valid() && (Value(), fd) == TakeMaster(old(Value()))
    {
      fd := -1;
      var index := GetSdlFdEntryIndex(false);
      if index != -1 {
        fd := table[index];
      }
      if fd >= 0 && kernel.IsMaster(fd) {
        kernel := kernel.DropMaster(fd);
        return fd;
      }
      return -1;
    }

    /** openHook, with the kernel's answers to its calls. */
    method Open(a: OpenAnswers) returns (fd: int)
      requires Valid()
      modifies this`count, this`kernel, table
      ensures Valid() && (Value(), fd) == OpenHook(old(Value()), a)
    {
      StepKeepsCounter(Value(), EvOpen(a));
      fd := a.fd;
      if fd >= 0 && a.sameCard {
        kernel := kernel.Open(fd, a.desc);
      }
      if fd >= 0 && qtFd != -1 && a.sameCard {
        var freeFdIndex := GetSdlFdEntryIndex(true);
        if freeFdIndex < 0 {
          return;
        }
        var allocatedFdIndex := GetSdlFdEntryIndex(false);
        if allocatedFdIndex >= 0 {
          kernel := kernel.Close(fd);
          fd := a.fd2;
          if fd >= 0 {
            kernel := kernel.Dup(table[allocatedFdIndex], fd);
          }
        } else {
          if a.dropFails || !kernel.IsMaster(qtFd) {
            return;
          }
          kernel := kernel.DropMaster(qtFd);
          kernel := kernel.Close(fd);
          fd := a.fd2;
          if fd >= 0 {
            kernel := kernel.Open(fd, a.desc2);
          }
        }
        if fd >= 0 {
          kernel := kernel.SetMaster(fd);
          table[freeFdIndex] := fd;
          count := count + 1;
        }
      }
    }

    method Close(fd: int, closeOk: bool)
      requires Valid()
      modifies this`count, this`kernel, table
      ensures Valid() && Value() == CloseHook(old(Value()), fd, closeOk)
    {
      var lastSdlFd := RemoveSdlFd(fd);
      if closeOk {
        kernel := kernel.Close(fd);
        if lastSdlFd {
          kernel := kernel.SetMaster(qtFd);
        }
      }
    }

    method SetCrtc(fd: int) returns (err: int)
      requires Valid()
      modifies this`qtFd
      ensures Valid() && Value() == Capture(old(Value()), fd)
      ensures err == DisplayCall(kernel, fd)
    {
      if qtFd == -1 && kernel.IsMaster(fd) {
        qtFd := fd;
      }
      err := DisplayCall(kernel, fd);
    }

    method PageFlip(fd: int) returns (err: int)
      requires Valid()
      modifies this`kernel
      ensures Valid() && (Value(), err) == Flip(old(Value()), fd)
    {
      err := DisplayCall(kernel, fd);
      if err == -EACCES && fd == qtFd {
        var oldMasterFd := TakeMasterFromSdlFd();
        kernel := kernel.SetMaster(fd);
        err := DisplayCall(kernel, fd);
        kernel := kernel.DropMaster(fd);
        if oldMasterFd != -1 {
          kernel := kernel.SetMaster(oldMasterFd);
        }
      }
    }

    method AtomicCommit(fd: int) returns (err: int)
      requires Valid()
      modifies this`qtFd, this`kernel
      ensures Valid() && (Value(), err) == Commit(old(Value()), fd)
    {
      if qtFd == -1 && kernel.IsMaster(fd) {
        qtFd := fd;
      }
      err := DisplayCall(kernel, fd);
      if err == -EACCES && fd == qtFd {
        var oldMasterFd := TakeMasterFromSdlFd();
        kernel := kernel.SetMaster(fd);
        err := DisplayCall(kernel, fd);
        kernel := kernel.DropMaster(fd);
        if oldMasterFd != -1 {
          kernel := kernel.SetMaster(oldMasterFd);
        }
      }
    }
  }
}
