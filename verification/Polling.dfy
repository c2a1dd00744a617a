/**
  Which hosts are polled: the reference count, the host map, the poll entries and the polling
  threads themselves, through every operation that touches them
  (app/backend/computermanager.cpp:457-514, 591-621, 663-672, 851-876, 962-984, 1053-1093,
  1280-1337, app/backend/computermanager.h:136-207, app/backend/nvcomputer.cpp:36-51, 68-102,
  550-605).
*/
module Polling {

  import opened Options

  /**
    A bookmark's uuid is made from the address it is created for or moved to; any other host
    has the one its server reports.
  */
  datatype Uuid = BookmarkUuid(address: string) | ServerUuid(id: string)

  /** A host object; a polling thread is named by the host object it polls. */
  type Computer = nat

  /**
    `address` is the manual address, empty when there is none; `server` the identity a
    bookmark is bound to once a server has answered at its address.
  */
  datatype Host = Host(computer: Computer, bookmark: bool, address: string, server: Option<string>)

  /** `inactive` threads were asked to stop and are awaited. */
  datatype Entry = Entry(active: Option<Computer>, inactive: seq<Computer>)

  const NEW_ENTRY := Entry(None, [])

  function Interrupt(e: Entry): (r: Entry)
    ensures r.active.None?
  {
    match e.active
    case Some(c) => Entry(None, e.inactive + [c])
    case None => e
  }

  /** Starting leaves a running thread alone. */
  function Start(e: Entry, c: Computer): (r: Entry)
    ensures r.active.Some?
  {
    if e.active.None? then e.(active := Some(c)) else e
  }

  type Known = map<Uuid, Host>
  type Entries = map<Uuid, Entry>

  /** `running`: the hosts polled by a thread that nobody has asked to stop. */
  datatype State = State(pollingRef: nat, known: Known, entries: Entries, running: set<Computer>, quitting: bool)

  function EntryOf(entries: Entries, uuid: Uuid): (e: Entry)
  {
    if uuid in entries then entries[uuid] else NEW_ENTRY
  }

  /** The thread an entry can stop. */
  function ThreadOf(entries: Entries, uuid: Uuid): (threads: set<Computer>)
  {
    match EntryOf(entries, uuid).active
    case Some(c) => {c}
    case None => {}
  }

  /** Whether a host other than the one under `skip` has the address. */
  predicate AddressTaken(known: Known, address: string, skip: Option<Uuid>)
  {
    exists u :: u in known && Some(u) != skip && known[u].address == address
  }

  // ---------------------------------------------------------------- starting and stopping

  function StartComputer(s: State, uuid: Uuid): (t: State)
    requires uuid in s.known
  {
    if s.pollingRef == 0 then s
    else
      var e, c := EntryOf(s.entries, uuid), s.known[uuid].computer;
      s.(entries := s.entries[uuid := Start(e, c)],
         running := if e.active.None? then s.running + {c} else s.running)
  }

  /** The hosts in `todo` started, each under its uuid. */
  function StartSome(s: State, todo: set<Uuid>): (t: State)
    requires todo <= s.known.Keys
  {
    s.(entries := map u | u in s.entries.Keys + todo ::
                    if u in todo then Start(EntryOf(s.entries, u), s.known[u].computer) else s.entries[u],
       running := s.running + set u | u in todo && EntryOf(s.entries, u).active.None? :: s.known[u].computer)
  }

  lemma StartedNone(s: State)
    ensures StartSome(s, {}) == s
  {
  }

  lemma StartedOneMore(s: State, started: set<Uuid>, uuid: Uuid)
    requires s.pollingRef > 0 && started <= s.known.Keys && uuid in s.known && uuid !in started
    ensures StartSome(s, started + {uuid}) == StartComputer(StartSome(s, started), uuid)
  {
    var a, b := StartSome(s, started + {uuid}), StartComputer(StartSome(s, started), uuid);
    assert EntryOf(StartSome(s, started).entries, uuid) == EntryOf(s.entries, uuid);
    assert a.entries == b.entries;
    assert a.running == b.running;
  }

  function StartPolling(s: State): (t: State)
  {
    var t := s.(pollingRef := s.pollingRef + 1);
    if t.pollingRef > 1 then t else StartSome(t, t.known.Keys)
  }

  /** The entries in `todo` asked to stop their threads. */
  function InterruptSome(s: State, todo: set<Uuid>): (t: State)
    requires todo <= s.entries.Keys
  {
    s.(entries := map u | u in s.entries :: if u in todo then Interrupt(s.entries[u]) else s.entries[u],
       running := s.running - set u | u in todo && s.entries[u].active.Some? :: s.entries[u].active.value)
  }

  lemma InterruptedNone(s: State)
    ensures InterruptSome(s, {}) == s
  {
  }

  lemma InterruptedOneMore(s: State, done: set<Uuid>, uuid: Uuid)
    requires done <= s.entries.Keys && uuid in s.entries && uuid !in done
    ensures var t := InterruptSome(s, done);
              InterruptSome(s, done + {uuid})
                == t.(entries := t.entries[uuid := Interrupt(s.entries[uuid])],
                  running := t.running - ThreadOf(s.entries, uuid))
  {
    var t := InterruptSome(s, done);
    assert InterruptSome(s, done + {uuid}).entries == t.entries[uuid := Interrupt(s.entries[uuid])];
    assert InterruptSome(s, done + {uuid}).running == t.running - ThreadOf(s.entries, uuid);
  }

  function StopPolling(s: State): (t: State)
    requires s.pollingRef > 0
  {
    var t := s.(pollingRef := s.pollingRef - 1);
    if t.pollingRef > 0 then t else InterruptSome(t, t.entries.Keys)
  }

  function AboutToQuit(s: State): (t: State)
  {
    InterruptSome(s.(quitting := true), s.entries.Keys)
  }

  // ---------------------------------------------------------------- hosts come, go and move

  /** Adding by hand: the host already at the address is edited instead of a new one added. */
  function AddBookmark(s: State, address: string, c: Computer): (t: State)
  {
    if AddressTaken(s.known, address, None) then s
    else
      var uuid := BookmarkUuid(address);
      StartComputer(s.(known := s.known[uuid := Host(c, true, address, None)]), uuid)
  }

  /** A server answered that no known host stands for; `address` is empty when mDNS found it. */
  function AddServer(s: State, id: string, address: string, c: Computer): (t: State)
  {
    StartComputer(s.(known := s.known[ServerUuid(id) := Host(c, false, address, None)]), ServerUuid(id))
  }

  /** The known host a server's answer is folded into: the one with its uuid, else a bookmark for it. */
  predicate StandsFor(known: Known, uuid: Uuid, id: string, address: string)
  {
    && uuid in known
    && if ServerUuid(id) in known then uuid == ServerUuid(id)
       else known[uuid].bookmark
            && (known[uuid].server == Some(id) || (address != "" && known[uuid].address == address))
  }

  /** The fold gives the host a manual address but leaves its uuid. */
  function Fold(s: State, uuid: Uuid, id: string, address: string): (t: State)
    requires uuid in s.known
  {
    var h := s.known[uuid];
    s.(known := s.known[uuid := h.(address := if address != "" then address else h.address,
                                   server := if h.bookmark && h.server.None? then Some(id) else h.server)])
  }

  /** The deferred deletion; the taken entry is destroyed, which stops its thread. */
  function DeleteHost(s: State, uuid: Uuid): (t: State)
  {
    s.(known := s.known - {uuid}, entries := s.entries - {uuid}, running := s.running - ThreadOf(s.entries, uuid))
  }

  /** Whether editing the bookmark's address changes the maps at all. */
  predicate Moves(s: State, uuid: Uuid, address: string)
    requires uuid in s.known
  {
    && s.known[uuid].bookmark
    && s.known[uuid].address != address
    && !AddressTaken(s.known, address, Some(uuid))
  }

  /** The edit is refused, or moves the host and its entry to the uuid of the new address. */
  function EditBookmark(s: State, uuid: Uuid, address: string): (t: State)
    requires uuid in s.known
  {
    if !Moves(s, uuid, address) then s
    else
      var uuid' := BookmarkUuid(address);
      var entries := s.entries - {uuid};
      StartComputer(
        s.(known := (s.known - {uuid})[uuid' := s.known[uuid].(address := address, server := None)],
           entries := if uuid in s.entries then entries[uuid' := Interrupt(s.entries[uuid])] else entries,
           running := s.running - ThreadOf(s.entries, uuid)),
        uuid')
  }

  /**
    What any thread may do, each under the manager's lock. `AnswerAction` is a polling thread
    whose server answers at an address the host already has.
  */
  datatype Action =
    | StartAction | StopAction | QuitAction
    | AddBookmarkAction(address: string, computer: Computer)
    | AddServerAction(id: string, address: string, computer: Computer)
    | FoldAction(uuid: Uuid, id: string, address: string)
    | AnswerAction(uuid: Uuid, id: string)
    | DeleteAction(uuid: Uuid)
    | EditAction(uuid: Uuid, address: string)

  /** A new host object: no known host is it and no thread polls it. */
  predicate Fresh(s: State, c: Computer)
  {
    c !in s.running && forall u :: u in s.known ==> s.known[u].computer != c
  }

  /** None where an assertion or a check of the source excludes the call. */
  function Step(s: State, a: Action): (r: Option<State>)
  {
    match a
    case StartAction => Some(StartPolling(s))
    case StopAction => if s.pollingRef > 0 then Some(StopPolling(s)) else None
    case QuitAction => Some(AboutToQuit(s))
    case AddBookmarkAction(address, c) => if Fresh(s, c) then Some(AddBookmark(s, address, c)) else None
    case AddServerAction(id, address, c) =>
      if Fresh(s, c) && ServerUuid(id) !in s.known then Some(AddServer(s, id, address, c)) else None
    case FoldAction(u, id, address) =>
      if StandsFor(s.known, u, id, address) then Some(Fold(s, u, id, address)) else None
    case AnswerAction(u, id) => if u in s.known then Some(Fold(s, u, id, "")) else None
    case DeleteAction(u) => if u in s.known then Some(DeleteHost(s, u)) else None
    case EditAction(u, address) => if u in s.known then Some(EditBookmark(s, u, address)) else None
  }

  // ---------------------------------------------------------------- the invariant

  /** No host object under two uuids, and no thread in two entries. */
  predicate Distinct(known: Known, entries: Entries)
  {
    && (forall u, v :: u in known && v in known && known[u].computer == known[v].computer ==> u == v)
    && (forall u, v :: u in entries && v in entries && entries[u].active.Some? ==>
          entries[u].active == entries[v].active ==> u == v)
  }

  predicate Inv(s: State)
  {
    && Distinct(s.known, s.entries)
    && s.entries.Keys <= s.known.Keys
    && (s.pollingRef == 0 ==> forall u :: u in s.entries ==> s.entries[u].active.None?)
    && (s.pollingRef > 0 ==> s.known.Keys <= s.entries.Keys)
    && (s.pollingRef > 0 && !s.quitting ==> forall u :: u in s.entries ==> s.entries[u].active.Some?)
    && (forall u :: u in s.entries && s.entries[u].active.Some? ==> s.entries[u].active.value in s.running)
    && (forall u :: u in s.known && s.known[u].computer in s.running ==>
          u in s.entries && s.entries[u].active == Some(s.known[u].computer))
  }

  lemma StepKeepsInv(s: State, a: Action)
    requires Inv(s) && Step(s, a).Some?
    ensures Inv(Step(s, a).value)
  {
    match a
    case StartAction => StartKeepsInv(s);
    case StopAction => StopKeepsInv(s);
    case QuitAction => QuitKeepsInv(s);
    case AddBookmarkAction(address, c) =>
      if !AddressTaken(s.known, address, None) {
        AddKeepsInv(s, BookmarkUuid(address), Host(c, true, address, None));
      }
    case AddServerAction(id, address, c) => AddKeepsInv(s, ServerUuid(id), Host(c, false, address, None));
    case FoldAction(u, id, address) => FoldKeepsInv(s, u, id, address);
    case AnswerAction(u, id) => FoldKeepsInv(s, u, id, "");
    case DeleteAction(u) => DeleteKeepsInv(s, u);
    case EditAction(u, address) => EditKeepsInv(s, u, address);
  }

  lemma StartKeepsInv(s: State)
    requires Inv(s)
    ensures Inv(StartPolling(s))
  {
    if s.pollingRef == 0 {
      hide StartSome;
      EveryoneStarted(s.(pollingRef := 1));
    }
  }

  lemma EveryoneStarted(s: State)
    requires s.entries.Keys <= s.known.Keys && forall u :: u in s.entries ==> s.entries[u].active.None?
    ensures var t := StartSome(s, s.known.Keys);
            && t == s.(entries := t.entries, running := t.running)
            && t.entries.Keys == s.known.Keys
            && (forall u :: u in s.known ==> t.entries[u].active == Some(s.known[u].computer))
            && (forall u :: u in s.known ==> s.known[u].computer in t.running)
  {
  }

  lemma StopKeepsInv(s: State)
    requires Inv(s) && s.pollingRef > 0
    ensures Inv(StopPolling(s))
  {
  }

  lemma QuitKeepsInv(s: State)
    requires Inv(s)
    ensures Inv(AboutToQuit(s))
  {
  }

  lemma AddKeepsInv(s: State, uuid: Uuid, h: Host)
    requires Inv(s) && Fresh(s, h.computer)
    ensures Inv(StartComputer(s.(known := s.known[uuid := h]), uuid))
  {
  }

  lemma FoldKeepsInv(s: State, uuid: Uuid, id: string, address: string)
    requires Inv(s) && uuid in s.known
    ensures Inv(Fold(s, uuid, id, address))
  {
  }

  lemma DeleteKeepsInv(s: State, uuid: Uuid)
    requires Inv(s) && uuid in s.known
    ensures Inv(DeleteHost(s, uuid))
  {
  }

  lemma EditKeepsInv(s: State, uuid: Uuid, address: string)
    requires Inv(s) && uuid in s.known
    ensures Inv(EditBookmark(s, uuid, address))
  {
    hide AddressTaken, DeleteHost, ThreadOf, Inv, Fresh, StartComputer;
    if Moves(s, uuid, address) {
      var m := DeleteHost(s, uuid);
      DeleteKeepsInv(s, uuid);
      DeletedIsFresh(s, uuid);
      var h := s.known[uuid].(address := address, server := None);
      if uuid in s.entries {
        PlaceKeepsInv(m, BookmarkUuid(address), h, Interrupt(s.entries[uuid]));
      } else {
        AddKeepsInv(m, BookmarkUuid(address), h);
      }
    }
  }

  lemma DeletedIsFresh(s: State, uuid: Uuid)
    requires Inv(s) && uuid in s.known
    ensures var m := DeleteHost(s, uuid);
            && Fresh(m, s.known[uuid].computer)
            && m == s.(known := s.known - {uuid}, entries := s.entries - {uuid},
               running := s.running - ThreadOf(s.entries, uuid))
  {
  }

  /** Putting a host under a uuid, and with it an entry whose thread was stopped. */
  lemma PlaceKeepsInv(s: State, uuid: Uuid, h: Host, e: Entry)
    requires Inv(s) && Fresh(s, h.computer) && e.active.None?
    ensures Inv(StartComputer(s.(known := s.known[uuid := h], entries := s.entries[uuid := e]), uuid))
  {
    hide Inv, Fresh;
    if s.pollingRef == 0 {
      PlacedIdle(s, uuid, h, e);
    } else {
      PlacedPolling(s, uuid, h, Start(e, h.computer));
      assert s.entries[uuid := e][uuid := Start(e, h.computer)] == s.entries[uuid := Start(e, h.computer)];
    }
  }

  lemma PlacedPolling(s: State, uuid: Uuid, h: Host, e: Entry)
    requires Inv(s) && Fresh(s, h.computer) && s.pollingRef > 0 && e.active == Some(h.computer)
    ensures Inv(s.(known := s.known[uuid := h], entries := s.entries[uuid := e], running := s.running + {h.computer}))
  {
  }

  lemma PlacedIdle(s: State, uuid: Uuid, h: Host, e: Entry)
    requires Inv(s) && Fresh(s, h.computer) && s.pollingRef == 0 && e.active.None?
    ensures Inv(s.(known := s.known[uuid := h], entries := s.entries[uuid := e]))
  {
  }

  // ---------------------------------------------------------------- threads without an entry

  /** The hosts that entries have running threads for. */
  function Polled(s: State): (p: set<Computer>)
  {
    set u | u in s.entries && s.entries[u].active.Some? :: s.entries[u].active.value
  }

  /** The threads no entry has any more, so that no stop reaches them. */
  function Orphaned(s: State): (p: set<Computer>)
  {
    s.running - Polled(s)
  }

  /**
    The thread an action cuts off: an edit that is not refused moves an entry over the entry
    of another host.
  */
  function CutOff(s: State, a: Action): (threads: set<Computer>)
  {
    if a.EditAction? && a.uuid in s.entries && a.uuid in s.known && Moves(s, a.uuid, a.address)
       && BookmarkUuid(a.address) != a.uuid
    then ThreadOf(s.entries, BookmarkUuid(a.address))
    else {}
  }

  lemma PolledHas(s: State, uuid: Uuid)
    requires uuid in s.entries && s.entries[uuid].active.Some?
    ensures s.entries[uuid].active.value in Polled(s)
  {
  }

  lemma PolledBy(s: State, c: Computer) returns (uuid: Uuid)
    requires c in Polled(s)
    ensures uuid in s.entries && s.entries[uuid].active == Some(c)
  {
    uuid :| uuid in s.entries && s.entries[uuid].active.Some? && s.entries[uuid].active.value == c;
  }

  predicate SameEntry(a: Entries, b: Entries, uuid: Uuid)
  {
    (uuid in a <==> uuid in b) && (uuid in a ==> a[uuid] == b[uuid])
  }

  /** Changing one entry changes who is polled by that entry's thread alone. */
  lemma PolledOneEntry(s: State, t: State, uuid: Uuid)
    requires Distinct(s.known, s.entries)
    requires forall u :: u in s.entries.Keys + t.entries.Keys && u != uuid ==> SameEntry(s.entries, t.entries, u)
    ensures Polled(t) == Polled(s) - ThreadOf(s.entries, uuid) + ThreadOf(t.entries, uuid)
  {
    hide Polled;
    forall c | c in Polled(t) ensures c in Polled(s) - ThreadOf(s.entries, uuid) + ThreadOf(t.entries, uuid) {
      var u := PolledBy(t, c);
      if u != uuid {
        assert SameEntry(s.entries, t.entries, u);
        PolledHas(s, u);
      }
    }
    forall c | c in Polled(s) - ThreadOf(s.entries, uuid) ensures c in Polled(t) {
      var u := PolledBy(s, c);
      assert SameEntry(s.entries, t.entries, u);
      PolledHas(t, u);
    }
    if uuid in t.entries && t.entries[uuid].active.Some? {
      PolledHas(t, uuid);
    }
  }

  /** No other action loses a thread, and none finds one again. */
  lemma StepOrphans(s: State, a: Action)
    requires Inv(s) && Step(s, a).Some?
    ensures Orphaned(Step(s, a).value) == Orphaned(s) + CutOff(s, a)
  {
    match a
    case StartAction => StartOrphans(s);
    case StopAction => StopOrphans(s);
    case QuitAction => InterruptOrphans(s.(quitting := true));
    case AddBookmarkAction(address, c) =>
      if !AddressTaken(s.known, address, None) {
        AddOrphans(s, BookmarkUuid(address), Host(c, true, address, None));
      }
    case AddServerAction(id, address, c) => AddOrphans(s, ServerUuid(id), Host(c, false, address, None));
    case FoldAction(u, id, address) =>
    case AnswerAction(u, id) =>
    case DeleteAction(u) => DeleteOrphans(s, u);
    case EditAction(u, address) => EditOrphans(s, u, address);
  }

  lemma StartOrphans(s: State)
    requires Inv(s)
    ensures Orphaned(StartPolling(s)) == Orphaned(s)
  {
    var t := StartPolling(s);
    if s.pollingRef == 0 {
      var started := set u | u in s.known :: s.known[u].computer;
      assert Polled(s) == {};
      forall c | c in started ensures c in Polled(t) && c !in s.running {
        var u :| u in s.known && s.known[u].computer == c;
        PolledHas(t, u);
      }
      forall c | c in Polled(t) ensures c in started {
        var u := PolledBy(t, c);
      }
    } else {
      assert Polled(t) == Polled(s);
    }
  }

  lemma InterruptOrphans(s: State)
    ensures Orphaned(InterruptSome(s, s.entries.Keys)) == Orphaned(s)
  {
    assert Polled(InterruptSome(s, s.entries.Keys)) == {};
  }

  lemma StopOrphans(s: State)
    requires Inv(s) && s.pollingRef > 0
    ensures Orphaned(StopPolling(s)) == Orphaned(s)
  {
    InterruptOrphans(s.(pollingRef := s.pollingRef - 1));
    assert Polled(s.(pollingRef := s.pollingRef - 1)) == Polled(s);
  }

  lemma AddOrphans(s: State, uuid: Uuid, h: Host)
    requires Inv(s) && Fresh(s, h.computer)
    ensures Orphaned(StartComputer(s.(known := s.known[uuid := h]), uuid)) == Orphaned(s)
  {
    hide Polled;
    PolledOneEntry(s, StartComputer(s.(known := s.known[uuid := h]), uuid), uuid);
    if uuid in s.entries && s.entries[uuid].active.Some? {
      PolledHas(s, uuid);
    }
  }

  lemma DeleteOrphans(s: State, uuid: Uuid)
    requires Inv(s)
    ensures Orphaned(DeleteHost(s, uuid)) == Orphaned(s)
  {
    hide Polled;
    PolledOneEntry(s, DeleteHost(s, uuid), uuid);
    ThreadIsPolled(s, uuid);
  }

  lemma EditOrphans(s: State, uuid: Uuid, address: string)
    requires Inv(s) && uuid in s.known
    ensures Orphaned(EditBookmark(s, uuid, address)) == Orphaned(s) + CutOff(s, EditAction(uuid, address))
  {
    hide AddressTaken, Polled, ThreadOf, Inv;
    if Moves(s, uuid, address) {
      hide EditBookmark, CutOff;
      EditPolled(s, uuid, address);
      ThreadIsPolled(s, uuid);
      ThreadIsPolled(s, BookmarkUuid(address));
      EditThreads(s, uuid, address);
    }
  }

  lemma EditPolled(s: State, uuid: Uuid, address: string)
    requires Inv(s) && uuid in s.known && Moves(s, uuid, address)
    ensures var t, uuid' := EditBookmark(s, uuid, address), BookmarkUuid(address);
            Polled(t) == Polled(s) - ThreadOf(s.entries, uuid) - ThreadOf(s.entries - {uuid}, uuid')
              + ThreadOf(t.entries, uuid')
  {
    hide AddressTaken, Polled;
    var between := s.(entries := s.entries - {uuid});
    PolledOneEntry(s, between, uuid);
    PolledOneEntry(between, EditBookmark(s, uuid, address), BookmarkUuid(address));
  }

  lemma ThreadIsPolled(s: State, uuid: Uuid)
    ensures ThreadOf(s.entries, uuid) <= Polled(s)
  {
    if uuid in s.entries && s.entries[uuid].active.Some? {
      PolledHas(s, uuid);
    }
  }

  /** The threads an edit that is not refused stops, cuts off and starts. */
  lemma EditThreads(s: State, uuid: Uuid, address: string)
    requires Inv(s) && uuid in s.known && Moves(s, uuid, address)
    ensures var t, uuid', c := EditBookmark(s, uuid, address), BookmarkUuid(address), s.known[uuid].computer;
            var stopped, started := ThreadOf(s.entries, uuid), ThreadOf(t.entries, uuid');
            var lost := CutOff(s, EditAction(uuid, address));
            && t.running == s.running - stopped + started
            && (c in s.running ==> c in stopped) && started <= {c}
            && lost <= s.running && lost !! stopped && c !in lost
            && lost == ThreadOf(s.entries - {uuid}, uuid')
  {
    hide AddressTaken, Polled;
  }

  // ---------------------------------------------------------------- entries of replaced hosts

  /** The uuids whose running thread polls another host than the one known under it. */
  function Stale(s: State): (uuids: set<Uuid>)
  {
    set u | u in s.entries && u in s.known && s.entries[u].active.Some?
            && s.entries[u].active.value != s.known[u].computer
  }

  /**
    How an action changes them. A host added under a uuid that is being polled starts no thread
    of its own; the entry is put right by a full stop, by deleting the host, and by moving it.
  */
  function StaleAfter(s: State, stale: set<Uuid>, a: Action): (uuids: set<Uuid>)
  {
    match a
    case StopAction => if s.pollingRef == 1 then {} else stale
    case QuitAction => {}
    case AddBookmarkAction(address, c) =>
      if !AddressTaken(s.known, address, None) && ThreadOf(s.entries, BookmarkUuid(address)) != {}
      then stale + {BookmarkUuid(address)} else stale
    case DeleteAction(u) => stale - {u}
    case EditAction(u, address) =>
      if u in s.known && Moves(s, u, address) then stale - {u, BookmarkUuid(address)} else stale
    case _ => stale
  }

  lemma StepStale(s: State, a: Action)
    requires Inv(s) && Step(s, a).Some?
    ensures Stale(Step(s, a).value) == StaleAfter(s, Stale(s), a)
  {
    match a
    case StartAction => StartStale(s);
    case StopAction => StopStale(s);
    case QuitAction => InterruptedStale(s);
    case AddBookmarkAction(address, c) => AddBookmarkStale(s, address, c);
    case AddServerAction(id, address, c) => AddServerStale(s, id, address, c);
    case FoldAction(u, id, address) => FoldStale(s, u, id, address);
    case AnswerAction(u, id) => FoldStale(s, u, id, "");
    case DeleteAction(u) => DeleteStale(s, u);
    case EditAction(u, address) => EditStale(s, u, address);
  }

  lemma StartStale(s: State)
    requires Inv(s)
    ensures Stale(StartPolling(s)) == Stale(s)
  {
  }

  lemma StopStale(s: State)
    requires Inv(s) && s.pollingRef > 0
    ensures Stale(StopPolling(s)) == if s.pollingRef == 1 then {} else Stale(s)
  {
  }

  lemma InterruptedStale(s: State)
    ensures Stale(AboutToQuit(s)) == {}
  {
  }

  lemma AddBookmarkStale(s: State, address: string, c: Computer)
    requires Inv(s) && Fresh(s, c)
    ensures Stale(AddBookmark(s, address, c)) == StaleAfter(s, Stale(s), AddBookmarkAction(address, c))
  {
    hide AddressTaken;
    var u := BookmarkUuid(address);
    if u in s.entries && s.entries[u].active.Some? {
      assert s.entries[u].active.value in s.running;
    }
  }

  lemma AddServerStale(s: State, id: string, address: string, c: Computer)
    requires Inv(s) && Fresh(s, c) && ServerUuid(id) !in s.known
    ensures Stale(AddServer(s, id, address, c)) == Stale(s)
  {
  }

  lemma FoldStale(s: State, uuid: Uuid, id: string, address: string)
    requires uuid in s.known
    ensures Stale(Fold(s, uuid, id, address)) == Stale(s)
  {
  }

  lemma DeleteStale(s: State, uuid: Uuid)
    ensures Stale(DeleteHost(s, uuid)) == Stale(s) - {uuid}
  {
  }

  lemma EditStale(s: State, uuid: Uuid, address: string)
    requires Inv(s) && uuid in s.known
    ensures Stale(EditBookmark(s, uuid, address)) == StaleAfter(s, Stale(s), EditAction(uuid, address))
  {
    hide AddressTaken;
  }

  /** Every known host is polled under its own uuid. */
  predicate OwnPolled(s: State)
  {
    forall u :: u in s.known ==> u in s.entries && s.entries[u].active == Some(s.known[u].computer)
  }

  /**
    Adding by hand while hosts are polled keeps every host polled exactly when the address is
    already somebody's, so that nothing is added, or nobody has the new uuid.
  */
  lemma AddKeepsOwnPolled(s: State, address: string, c: Computer)
    requires Inv(s) && Fresh(s, c) && s.pollingRef > 0 && OwnPolled(s)
    ensures OwnPolled(AddBookmark(s, address, c)) <==>
            AddressTaken(s.known, address, None) || BookmarkUuid(address) !in s.known
  {
    hide AddressTaken;
    var u := BookmarkUuid(address);
    if !AddressTaken(s.known, address, None) && u in s.known {
      var t := AddBookmark(s, address, c);
      assert t.known[u].computer == c && t.entries[u].active == Some(s.known[u].computer);
    }
  }

  /**
    Adding by hand, polled or not, keeps every host known exactly then too: a host whose uuid
    is taken over leaves the map, and the next flush leaves it out.
  */
  lemma AddKeepsHosts(s: State, address: string, c: Computer)
    requires Inv(s) && Fresh(s, c)
    ensures Computers(s.known) <= Computers(AddBookmark(s, address, c).known) <==>
            AddressTaken(s.known, address, None) || BookmarkUuid(address) !in s.known
  {
    hide AddressTaken;
    var u, t := BookmarkUuid(address), AddBookmark(s, address, c);
    if !AddressTaken(s.known, address, None) {
      if u in s.known {
        assert s.known[u].computer in Computers(s.known);
        assert s.known[u].computer !in Computers(t.known);
      } else {
        forall d | d in Computers(s.known) ensures d in Computers(t.known) {
          var v :| v in s.known && s.known[v].computer == d;
          assert t.known[v].computer == d;
        }
      }
    }
  }

  /** Every other host is still known, under the same uuid and with the same poll entry. */
  predicate OthersUntouched(s: State, t: State, uuid: Uuid)
  {
    forall w :: w in s.known && w != uuid ==>
      w in t.known && t.known[w] == s.known[w] && SameEntry(s.entries, t.entries, w)
  }

  /**
    Editing a bookmark leaves the others alone exactly when the edit is refused or changes no
    address, or the new uuid is the bookmark's own, or no other host has it.
  */
  lemma EditTouchesOthers(s: State, uuid: Uuid, address: string)
    requires Inv(s) && uuid in s.known
    ensures OthersUntouched(s, EditBookmark(s, uuid, address), uuid) <==>
            !Moves(s, uuid, address) || BookmarkUuid(address) == uuid || BookmarkUuid(address) !in s.known
  {
    hide AddressTaken;
    var uuid', t := BookmarkUuid(address), EditBookmark(s, uuid, address);
    if !Moves(s, uuid, address) {
      assert t == s;
    } else if uuid' != uuid && uuid' in s.known {
      assert t.known[uuid'].computer == s.known[uuid].computer;
      assert s.known[uuid'].computer != s.known[uuid].computer;
    } else {
      MoveToFreeUuid(s, uuid, address);
    }
  }

  lemma MoveToFreeUuid(s: State, uuid: Uuid, address: string)
    requires Inv(s) && uuid in s.known && Moves(s, uuid, address)
    requires BookmarkUuid(address) == uuid || BookmarkUuid(address) !in s.known
    ensures OthersUntouched(s, EditBookmark(s, uuid, address), uuid)
  {
    hide AddressTaken, ThreadOf, Interrupt, StartComputer;
    var uuid' := BookmarkUuid(address);
    var entries := s.entries - {uuid};
    var moved := s.(known := (s.known - {uuid})[uuid' := s.known[uuid].(address := address, server := None)],
                    entries := if uuid in s.entries then entries[uuid' := Interrupt(s.entries[uuid])] else entries,
                    running := s.running - ThreadOf(s.entries, uuid));
    var t := StartComputer(moved, uuid');
    StartFrame(moved, uuid');
    forall w | w in s.known && w != uuid
      ensures w in t.known && t.known[w] == s.known[w] && SameEntry(s.entries, t.entries, w)
    {
      assert w != uuid' && SameEntry(moved.entries, t.entries, w);
    }
  }

  lemma StartFrame(s: State, uuid: Uuid)
    requires uuid in s.known
    ensures StartComputer(s, uuid).known == s.known
    ensures forall w :: w != uuid ==> SameEntry(s.entries, StartComputer(s, uuid).entries, w)
  {
  }

  // ---------------------------------------------------------------- what is stored of a host

  /** After an edit that moves: the same object, a bookmark at the new address, bound to no server. */
  lemma EditStores(s: State, uuid: Uuid, address: string)
    requires uuid in s.known && Moves(s, uuid, address)
    ensures var t, uuid' := EditBookmark(s, uuid, address), BookmarkUuid(address);
            && t.known.Keys == s.known.Keys - {uuid} + {uuid'}
            && t.known[uuid'] == Host(s.known[uuid].computer, true, address, None)
  {
    hide AddressTaken;
  }

  lemma AddStores(s: State, address: string, c: Computer)
    requires !AddressTaken(s.known, address, None)
    ensures var t, uuid' := AddBookmark(s, address, c), BookmarkUuid(address);
            && t.known.Keys == s.known.Keys + {uuid'}
            && t.known[uuid'] == Host(c, true, address, None)
  {
    hide AddressTaken;
  }

  /** An edit does anything exactly for a bookmark and an address that is neither its own nor another host's. */
  lemma EditChangesExactly(s: State, uuid: Uuid, address: string)
    requires uuid in s.known
    ensures EditBookmark(s, uuid, address) != s <==>
              && s.known[uuid].bookmark
              && forall v :: v in s.known ==> s.known[v].address != address
  {
    if Moves(s, uuid, address) {
      EditStores(s, uuid, address);
    }
  }

  /** Adding by hand adds exactly when no host is at the address. */
  lemma AddChangesExactly(s: State, address: string, c: Computer)
    requires Fresh(s, c)
    ensures AddBookmark(s, address, c) != s <==> forall v :: v in s.known ==> s.known[v].address != address
  {
    if !AddressTaken(s.known, address, None) {
      AddStores(s, address, c);
    }
  }

  /**
    A server found by hand is known at that address: adding a bookmark there afterwards changes
    nothing, while one found by mDNS stands in no bookmark's way.
  */
  lemma ServerTakesAddress(s: State, id: string, address: string, c: Computer, other: string, d: Computer)
    requires ServerUuid(id) !in s.known
    ensures var t := AddServer(s, id, address, c);
            && t.known.Keys == s.known.Keys + {ServerUuid(id)}
            && !t.known[ServerUuid(id)].bookmark && t.known[ServerUuid(id)].computer == c
            && AddBookmark(t, address, d) == t
            && (other != address ==> AddressTaken(t.known, other, None) == AddressTaken(s.known, other, None))
  {
    var t := AddServer(s, id, address, c);
    assert t.known[ServerUuid(id)].address == address;
    if AddressTaken(t.known, other, None) && other != address {
      var u :| u in t.known && t.known[u].address == other;
      assert s.known[u].address == other;
    }
    if AddressTaken(s.known, other, None) {
      var u :| u in s.known && s.known[u].address == other;
      assert t.known[u].address == other;
    }
  }

  /** So it does once it is folded into a host by an answer at an address given by hand. */
  lemma FoldTakesAddress(s: State, uuid: Uuid, id: string, address: string, d: Computer)
    requires uuid in s.known && address != ""
    ensures var t := Fold(s, uuid, id, address);
            && t.known.Keys == s.known.Keys && t.known[uuid].computer == s.known[uuid].computer
            && t.known[uuid].bookmark == s.known[uuid].bookmark
            && AddBookmark(t, address, d) == t
            && Fold(s, uuid, id, "").known[uuid].address == s.known[uuid].address
  {
    assert Fold(s, uuid, id, address).known[uuid].address == address;
  }

  // ---------------------------------------------------------------- which server a bookmark is for

  /** A bookmark at its own uuid that no server has answered for yet. */
  predicate Unbound(s: State, address: string, c: Computer)
  {
    BookmarkUuid(address) in s.known && s.known[BookmarkUuid(address)] == Host(c, true, address, None)
  }

  /** The action is about the host under the uuid. */
  predicate Reaches(a: Action, uuid: Uuid)
  {
    match a
    case FoldAction(u, _, _) => u == uuid
    case AnswerAction(u, _) => u == uuid
    case DeleteAction(u) => u == uuid
    case EditAction(u, _) => u == uuid
    case _ => false
  }

  lemma StepKeepsUnbound(s: State, a: Action, address: string, c: Computer)
    requires Unbound(s, address, c) && Step(s, a).Some? && !Reaches(a, BookmarkUuid(address))
    ensures Unbound(Step(s, a).value, address, c)
  {
    var u := BookmarkUuid(address);
    assert s.known[u].address == address;
    match a
    case AddBookmarkAction(other, d) => assert other == address ==> AddressTaken(s.known, other, None);
    case EditAction(v, other) => assert other == address ==> AddressTaken(s.known, other, Some(v));
    case _ =>
  }

  /** The answer of a server known under its own uuid goes there alone, any other only to a bookmark. */
  lemma KnownServerFirst(known: Known, uuid: Uuid, id: string, address: string)
    requires uuid in known
    ensures ServerUuid(id) in known ==> (StandsFor(known, uuid, id, address) <==> uuid == ServerUuid(id))
    ensures ServerUuid(id) !in known && StandsFor(known, uuid, id, address) ==>
              known[uuid].bookmark && (known[uuid].server == Some(id) || known[uuid].address == address != "")
  {
  }

  /** An unbound bookmark stands for no server, but for whichever answers at its address. */
  lemma UnboundStandsForNone(s: State, address: string, c: Computer, id: string, at: string)
    requires Unbound(s, address, c) && ServerUuid(id) !in s.known
    ensures StandsFor(s.known, BookmarkUuid(address), id, at) <==> at == address && at != ""
  {
  }

  /** The first answer binds it: from then on it stands for that server's answers alone. */
  lemma AnswerBinds(s: State, address: string, c: Computer, a: Action, id: string)
    requires Unbound(s, address, c) && Step(s, a).Some?
    requires a == AnswerAction(BookmarkUuid(address), id)
             || (a.FoldAction? && a.uuid == BookmarkUuid(address) && a.id == id)
    ensures var t, u := Step(s, a).value, BookmarkUuid(address);
            && u in t.known && t.known[u].computer == c && t.known[u].server == Some(id)
            && forall other :: ServerUuid(other) !in t.known ==> (StandsFor(t.known, u, other, "") <==> other == id)
  {
  }

  /**
    From any state: a bookmark that an edit has moved forgets its server. Whatever happens
    elsewhere, no answer of any server is folded into it for who it is, until the first one
    that reaches it; from then on that server's are, and no other's.
  */
  lemma EditedBookmarkForgets(
      s: State, uuid: Uuid, address: string, actions: seq<Action>, t: State, id: string)
    requires uuid in s.known && Moves(s, uuid, address)
    requires Run(EditBookmark(s, uuid, address), actions) == Some(t)
    requires forall i :: 0 <= i < |actions| ==> !Reaches(actions[i], BookmarkUuid(address))
    ensures var u := BookmarkUuid(address);
            && Unbound(t, address, s.known[uuid].computer)
            && (ServerUuid(id) !in t.known ==> !StandsFor(t.known, u, id, ""))
            && var bound := Step(t, AnswerAction(u, id));
               bound.Some? && forall other :: ServerUuid(other) !in t.known ==>
                 (StandsFor(bound.value.known, u, other, "") <==> other == id)
  {
    hide Run, Moves, EditBookmark;
    var moved := EditBookmark(s, uuid, address);
    EditStores(s, uuid, address);
    UnboundRun(moved, actions, address, s.known[uuid].computer);
    if ServerUuid(id) !in t.known {
      UnboundStandsForNone(t, address, s.known[uuid].computer, id, "");
    }
    AnswerBinds(t, address, s.known[uuid].computer, AnswerAction(BookmarkUuid(address), id), id);
  }

  lemma {:induction false} UnboundRun(s: State, actions: seq<Action>, address: string, c: Computer)
    requires Unbound(s, address, c) && Run(s, actions).Some?
    requires forall i :: 0 <= i < |actions| ==> !Reaches(actions[i], BookmarkUuid(address))
    ensures Unbound(Run(s, actions).value, address, c)
    decreases |actions|
  {
    hide Unbound, Step;
    if actions != [] {
      var n := |actions| - 1;
      UnboundRun(s, actions[..n], address, c);
      StepKeepsUnbound(Run(s, actions[..n]).value, actions[n], address, c);
    }
  }

  // ---------------------------------------------------------------- no thread is forgotten

  /** Of the threads of `a`, those being awaited still are, and a running one goes on or is now awaited. */
  predicate Carries(a: Entry, b: Entry)
  {
    && a.inactive <= b.inactive
    && (a.active.Some? ==> b.active == a.active || a.active.value in b.inactive)
  }

  /**
    No action but a deletion, which waits for them, drops a thread that an entry knows: the
    threads stay with their entry, and move with it when a bookmark moves. Only an entry a
    bookmark moves onto is lost, with its threads.
  */
  lemma StepCarries(s: State, a: Action, u: Uuid)
    requires u in s.entries && Step(s, a).Some?
    ensures var t := Step(s, a).value;
            if a == DeleteAction(u) then u !in t.entries
            else if a.EditAction? && Moves(s, a.uuid, a.address) && u == a.uuid then
              BookmarkUuid(a.address) in t.entries && Carries(s.entries[u], t.entries[BookmarkUuid(a.address)])
            else if a.EditAction? && Moves(s, a.uuid, a.address) && u == BookmarkUuid(a.address)
                    && a.uuid in s.entries then
              Carries(s.entries[a.uuid], t.entries[u])
            else u in t.entries && Carries(s.entries[u], t.entries[u])
  {
    hide AddressTaken;
    match a
    case EditAction(v, address) => EditCarries(s, v, address, u);
    case _ =>
  }

  lemma EditCarries(s: State, v: Uuid, address: string, u: Uuid)
    requires u in s.entries && v in s.known
    ensures var t, uuid' := EditBookmark(s, v, address), BookmarkUuid(address);
            if Moves(s, v, address) && u == v then uuid' in t.entries && Carries(s.entries[u], t.entries[uuid'])
            else if Moves(s, v, address) && u == uuid' && v in s.entries then Carries(s.entries[v], t.entries[u])
            else u in t.entries && Carries(s.entries[u], t.entries[u])
  {
    hide AddressTaken;
  }

  // ---------------------------------------------------------------- runs

  /** The hosts of the store, nobody polled. */
  function Initial(known: Known): (s: State)
  {
    State(0, known, map[], {}, false)
  }

  function Run(s: State, actions: seq<Action>): (r: Option<State>)
    decreases |actions|
  {
    if actions == [] then Some(s)
    else
      match Run(s, actions[..|actions| - 1])
      case None => None
      case Some(before) => Step(before, actions[|actions| - 1])
  }

  function Count(actions: seq<Action>, a: Action): (n: nat)
  {
    if actions == [] then 0
    else Count(actions[..|actions| - 1], a) + (if actions[|actions| - 1] == a then 1 else 0)
  }

  /** The threads cut off in a run, by its edits one after the other. */
  function CutOffIn(s: State, actions: seq<Action>): (threads: set<Computer>)
    decreases |actions|
  {
    if actions == [] then {}
    else
      var before := Run(s, actions[..|actions| - 1]);
      CutOffIn(s, actions[..|actions| - 1]) + if before.Some? then CutOff(before.value, actions[|actions| - 1]) else {}
  }

  /** The uuids a run has left stale. */
  function StaleIn(s: State, actions: seq<Action>): (uuids: set<Uuid>)
    decreases |actions|
  {
    if actions == [] then {}
    else
      var before, stale := Run(s, actions[..|actions| - 1]), StaleIn(s, actions[..|actions| - 1]);
      if before.Some? then StaleAfter(before.value, stale, actions[|actions| - 1]) else stale
  }

  predicate DistinctHosts(known: Known)
  {
    forall u, v :: u in known && v in known && known[u].computer == known[v].computer ==> u == v
  }

  lemma {:induction false} RunKeepsInv(known: Known, actions: seq<Action>)
    requires DistinctHosts(known) && Run(Initial(known), actions).Some?
    ensures var s := Run(Initial(known), actions).value;
            && Inv(s)
            && s.pollingRef == Count(actions, StartAction) - Count(actions, StopAction)
            && (s.quitting <==> Count(actions, QuitAction) > 0)
            && Orphaned(s) == CutOffIn(Initial(known), actions)
            && Stale(s) == StaleIn(Initial(known), actions)
    decreases |actions|
  {
    hide Inv, Step, StaleAfter, CutOff, Orphaned, Stale;
    if actions == [] {
      InitialInv(known);
    } else {
      var n := |actions| - 1;
      RunKeepsInv(known, actions[..n]);
      var before := Run(Initial(known), actions[..n]).value;
      StepKeepsInv(before, actions[n]);
      StepCounts(before, actions[n]);
      StepOrphans(before, actions[n]);
      StepStale(before, actions[n]);
    }
  }

  lemma InitialInv(known: Known)
    requires DistinctHosts(known)
    ensures Inv(Initial(known)) && Orphaned(Initial(known)) == {} && Stale(Initial(known)) == {}
  {
  }

  lemma StepCounts(s: State, a: Action)
    requires Step(s, a).Some?
    ensures Step(s, a).value.pollingRef
              == s.pollingRef + (if a == StartAction then 1 else 0) - (if a == StopAction then 1 else 0)
    ensures Step(s, a).value.quitting == (s.quitting || a == QuitAction)
  {
    hide AddressTaken;
  }

  /** The host objects known. */
  function Computers(known: Known): (cs: set<Computer>)
  {
    set u | u in known :: known[u].computer
  }

  /**
    After any run: with as many stops as starts no entry has a running thread, and the threads
    still running are those cut off by edits. With more starts, and before quitting, every
    known host has an entry with a running thread, which polls that host unless its uuid is
    stale; and the hosts polled are exactly the known ones if and only if no edit cut off a
    thread and no uuid is stale.
  */
  lemma PollingFollowsCount(known: Known, actions: seq<Action>, s: State)
    requires DistinctHosts(known) && Run(Initial(known), actions) == Some(s)
    ensures Count(actions, StartAction) >= Count(actions, StopAction)
    ensures s.running == Polled(s) <==> CutOffIn(Initial(known), actions) == {}
    ensures Count(actions, StartAction) == Count(actions, StopAction) ==>
              Polled(s) == {} && s.running == CutOffIn(Initial(known), actions)
    ensures Count(actions, StartAction) > Count(actions, StopAction) && Count(actions, QuitAction) == 0 ==>
              && s.entries.Keys == s.known.Keys
              && (forall u :: u in s.known ==>
                    && s.entries[u].active.Some?
                    && (s.entries[u].active == Some(s.known[u].computer) <==> u !in StaleIn(Initial(known), actions)))
              && (s.running == Computers(s.known) <==>
                    CutOffIn(Initial(known), actions) == {} && StaleIn(Initial(known), actions) == {})
  {
    hide Run, CutOffIn, StaleIn, Polled, Computers;
    RunKeepsInv(known, actions);
    PolledAreRunning(s);
    if s.pollingRef == 0 {
      NoneActive(s);
    } else if !s.quitting {
      RunningAreKnown(s);
    }
  }

  lemma PolledAreRunning(s: State)
    requires Inv(s)
    ensures Polled(s) <= s.running
    ensures s.running == Polled(s) <==> Orphaned(s) == {}
  {
    hide Polled;
    forall c | c in Polled(s) ensures c in s.running {
      var u := PolledBy(s, c);
    }
    if Orphaned(s) == {} {
      forall c | c in s.running ensures c in Polled(s) {
        assert c !in Orphaned(s);
      }
    }
  }

  lemma NoneActive(s: State)
    requires forall u :: u in s.entries ==> s.entries[u].active.None?
    ensures Polled(s) == {}
  {
  }

  lemma RunningAreKnown(s: State)
    requires Inv(s) && s.pollingRef > 0 && !s.quitting
    ensures s.running == Computers(s.known) <==> Orphaned(s) == {} && Stale(s) == {}
  {
    hide Polled;
    PolledAreRunning(s);
    if Orphaned(s) == {} && Stale(s) == {} {
      forall c | c in s.running ensures c in Computers(s.known) {
        var u := PolledBy(s, c);
        assert u !in Stale(s);
      }
      forall c | c in Computers(s.known) ensures c in s.running {
        var u :| u in s.known && s.known[u].computer == c;
        assert u !in Stale(s);
      }
    }
    if s.running == Computers(s.known) {
      forall c | c in s.running ensures c in Polled(s) {
        var u :| u in s.known && s.known[u].computer == c;
        PolledHas(s, u);
      }
      forall u | u in s.entries ensures u !in Stale(s) {
        assert s.known[u].computer in s.running;
      }
    }
  }

  // ---------------------------------------------------------------- a taken uuid behind a free address

  lemma RunThen(s: State, actions: seq<Action>, a: Action)
    requires Run(s, actions).Some?
    ensures Run(s, actions + [a]) == Step(Run(s, actions).value, a)
  {
    hide Step;
    assert (actions + [a])[..|actions|] == actions;
  }

  lemma RunNone(s: State)
    ensures Run(s, []) == Some(s)
  {
  }

  /** Host 1, bookmarked at a and found by its server at c, and host 2, bookmarked at b. */
  function TwoBookmarks(): (s: State)
  {
    var a, b := BookmarkUuid("a"), BookmarkUuid("b");
    State(1, map[a := Host(1, true, "c", Some("S")), b := Host(2, true, "b", None)],
          map[a := Entry(Some(1), []), b := Entry(Some(2), [])], {1, 2}, false)
  }

  function ToTwoBookmarks(): (actions: seq<Action>)
  {
    [StartAction] + [AddBookmarkAction("a", 1)] + [AnswerAction(BookmarkUuid("a"), "S")]
    + [AddBookmarkAction("b", 2)] + [FoldAction(BookmarkUuid("a"), "S", "c")]
  }

  lemma FirstStart()
    ensures Step(Initial(map[]), StartAction) == Some(State(1, map[], map[], {}, false))
  {
    var t := StartPolling(Initial(map[]));
    assert t.entries == map[] && t.running == {};
  }

  /** Adding where neither address nor uuid is taken. */
  lemma FirstAdd(s: State, address: string, c: Computer)
    requires Fresh(s, c) && s.pollingRef > 0 && !AddressTaken(s.known, address, None)
        && BookmarkUuid(address) !in s.entries
    ensures var u := BookmarkUuid(address);
            Step(s, AddBookmarkAction(address, c))
              == Some(s.(known := s.known[u := Host(c, true, address, None)],
                         entries := s.entries[u := Entry(Some(c), [])], running := s.running + {c}))
  {
  }

  lemma TwoBookmarksReached()
    ensures Run(Initial(map[]), ToTwoBookmarks()) == Some(TwoBookmarks())
  {
    hide Run, Step;
    var s, a, b := Initial(map[]), BookmarkUuid("a"), BookmarkUuid("b");
    RunNone(s);
    FirstStart();
    RunThen(s, [], StartAction);
    assert [] + [StartAction] == [StartAction];
    var s1 := State(1, map[], map[], {}, false);
    RunThen(s, [StartAction], AddBookmarkAction("a", 1));
    FirstAdd(s1, "a", 1);
    var s2 := State(1, map[a := Host(1, true, "a", None)], map[a := Entry(Some(1), [])], {1}, false);
    assert s1.known[a := Host(1, true, "a", None)] == s2.known && s1.entries[a := Entry(Some(1), [])] == s2.entries
      && {} + {1} == s2.running;
    var r2 := [StartAction] + [AddBookmarkAction("a", 1)];
    assert Run(s, r2) == Some(s2);
    RunThen(s, r2, AnswerAction(a, "S"));
    var s3 := s2.(known := map[a := Host(1, true, "a", Some("S"))]);
    FoldGives(s2, a, "S", "", s3.known);
    var r3 := r2 + [AnswerAction(a, "S")];
    assert Run(s, r3) == Some(s3);
    RunThen(s, r3, AddBookmarkAction("b", 2));
    FirstAdd(s3, "b", 2);
    var s4 := TwoBookmarks().(known := map[a := Host(1, true, "a", Some("S")), b := Host(2, true, "b", None)]);
    assert s3.known[b := Host(2, true, "b", None)] == s4.known && s3.entries[b := Entry(Some(2), [])] == s4.entries
      && {1} + {2} == s4.running;
    var r4 := r3 + [AddBookmarkAction("b", 2)];
    assert Run(s, r4) == Some(s4);
    RunThen(s, r4, FoldAction(a, "S", "c"));
    FoldGives(s4, a, "S", "c", TwoBookmarks().known);
  }

  /** The two ways a server's answer reaches a bookmark that is or gets bound to it. */
  lemma FoldGives(s: State, uuid: Uuid, id: string, address: string, known: Known)
    requires uuid in s.known && known == Fold(s, uuid, id, address).known
    ensures address == "" ==> Step(s, AnswerAction(uuid, id)) == Some(s.(known := known))
    ensures StandsFor(s.known, uuid, id, address) ==> Step(s, FoldAction(uuid, id, address)) == Some(s.(known := known))
  {
  }

  /**
    The uuid of a free address can be taken: host 1 still has the uuid of address a, where it
    is no more. The check of the code lets host 2 move there; host 1 is then polled for good.
  */
  lemma TakenUuidReached()
    ensures var s, b := TwoBookmarks(), BookmarkUuid("b");
            && Run(Initial(map[]), ToTwoBookmarks()) == Some(s)
            && Moves(s, b, "a") && BookmarkUuid("a") in s.known
            && !OthersUntouched(s, EditBookmark(s, b, "a"), b)
    ensures var r := Run(Initial(map[]), ToTwoBookmarks() + [EditAction(BookmarkUuid("b"), "a")] + [StopAction]);
            r.Some? && r.value.pollingRef == 0 && Polled(r.value) == {} && r.value.running == {1}
  {
    hide Run, ToTwoBookmarks, Step;
    var s, a, b := TwoBookmarks(), BookmarkUuid("a"), BookmarkUuid("b");
    TwoBookmarksReached();
    EditTaken();
    assert EditBookmark(s, b, "a").known[a].computer == 2;
    RunThen(Initial(map[]), ToTwoBookmarks(), EditAction(b, "a"));
    RunThen(Initial(map[]), ToTwoBookmarks() + [EditAction(b, "a")], StopAction);
    StopTaken();
  }

  /** Host 2 moved over host 1. */
  function AfterEdit(): (s: State)
  {
    var a := BookmarkUuid("a");
    State(1, map[a := Host(2, true, "a", None)], map[a := Entry(Some(2), [2])], {1, 2}, false)
  }

  lemma EditTaken()
    ensures Moves(TwoBookmarks(), BookmarkUuid("b"), "a")
    ensures EditBookmark(TwoBookmarks(), BookmarkUuid("b"), "a") == AfterEdit()
    ensures Step(TwoBookmarks(), EditAction(BookmarkUuid("b"), "a")) == Some(AfterEdit())
  {
    var e, t := EditBookmark(TwoBookmarks(), BookmarkUuid("b"), "a"), AfterEdit();
    assert Interrupt(Entry(Some(2), [])) == Entry(None, [2]);
    assert e.known == t.known;
    assert e.entries == t.entries;
    assert e.running == t.running;
  }

  lemma StopTaken()
    ensures var r := Step(AfterEdit(), StopAction);
            r.Some? && r.value.pollingRef == 0 && Polled(r.value) == {} && r.value.running == {1}
  {
    var s, a := AfterEdit(), BookmarkUuid("a");
    var stopped := set u | u in s.entries.Keys && s.entries[u].active.Some? :: s.entries[u].active.value;
    assert s.entries[a].active == Some(2);
    assert stopped == {2};
  }

  /** So can the uuid of a bookmark added at a free address; host 3 is then not polled, and host 1 forgotten. */
  lemma StaleUuidReached()
    ensures var s := TwoBookmarks();
            && Run(Initial(map[]), ToTwoBookmarks()) == Some(s) && OwnPolled(s)
            && !AddressTaken(s.known, "a", None) && Fresh(s, 3)
            && !OwnPolled(AddBookmark(s, "a", 3)) && 3 !in AddBookmark(s, "a", 3).running
            && 1 in Computers(s.known) && 1 !in Computers(AddBookmark(s, "a", 3).known)
  {
    hide Run, ToTwoBookmarks;
    TwoBookmarksReached();
    var t, a := AddBookmark(TwoBookmarks(), "a", 3), BookmarkUuid("a");
    assert t.known[a].computer == 3 && t.entries[a].active == Some(1);
    assert TwoBookmarks().known[a].computer == 1;
  }

  // ---------------------------------------------------------------- the code

  class ComputerManager {
    var pollingRef: nat
    var known: Known
    var entries: Entries
    var running: set<Computer>
    var quitting: bool

    ghost function Now(): (s: State)
      reads this
    {
      State(pollingRef, known, entries, running, quitting)
    }

    constructor (hosts: Known)
      ensures Now() == Initial(hosts)
    {
      pollingRef, known, entries, running, quitting := 0, hosts, map[], {}, false;
    }

    method StartPollingComputer(uuid: Uuid)
      requires uuid in known
      modifies this
      ensures Now() == StartComputer(old(Now()), uuid)
    {
      if pollingRef == 0 {
        return;
      }
      if uuid !in entries {
        entries := entries[uuid := NEW_ENTRY];
      }
      var entry := entries[uuid];
      if entry.active.None? {
        entries := entries[uuid := entry.(active := Some(known[uuid].computer))];
        running := running + {known[uuid].computer};
      }
    }

    method StartPollingAll()
      modifies this
      ensures Now() == StartPolling(old(Now()))
    {
      hide StartSome, StartComputer;
      pollingRef := pollingRef + 1;
      if pollingRef > 1 {
        return;
      }
      ghost var begun := Now();
      var todo := known.Keys;
      StartedNone(begun);
      assert known.Keys - todo == {};
      while todo != {}
        invariant todo <= known.Keys == begun.known.Keys
        invariant Now() == StartSome(begun, begun.known.Keys - todo)
        invariant known == begun.known && pollingRef == 1
        decreases |todo|
      {
        var uuid :| uuid in todo;
        StartedOneMore(begun, begun.known.Keys - todo, uuid);
        assert begun.known.Keys - (todo - {uuid}) == begun.known.Keys - todo + {uuid};
        StartPollingComputer(uuid);
        StartKeepsKnown(StartSome(begun, begun.known.Keys - todo), uuid);
        todo := todo - {uuid};
      }
      assert begun.known.Keys - todo == begun.known.Keys;
    }

    static lemma StartKeepsKnown(s: State, uuid: Uuid)
      requires uuid in s.known
      ensures StartComputer(s, uuid).known == s.known && StartComputer(s, uuid).pollingRef == s.pollingRef
    {
    }

    method StopPollingAsync()
      requires pollingRef > 0
      modifies this
      ensures Now() == StopPolling(old(Now()))
    {
      pollingRef := pollingRef - 1;
      if pollingRef > 0 {
        return;
      }
      InterruptEntries();
    }

    method InterruptEntries()
      modifies this
      ensures Now() == InterruptSome(old(Now()), old(entries.Keys))
    {
      hide InterruptSome;
      ghost var s := Now();
      var todo := entries.Keys;
      InterruptedNone(s);
      assert s.entries.Keys - todo == {};
      while todo != {}
        invariant todo <= s.entries.Keys
        invariant Now() == InterruptSome(s, s.entries.Keys - todo)
        invariant entries.Keys == s.entries.Keys && forall u :: u in todo ==> entries[u] == s.entries[u]
        decreases |todo|
      {
        var uuid :| uuid in todo;
        InterruptedOneMore(s, s.entries.Keys - todo, uuid);
        assert s.entries.Keys - (todo - {uuid}) == s.entries.Keys - todo + {uuid};
        InterruptEntry(uuid);
        todo := todo - {uuid};
      }
      assert s.entries.Keys - todo == s.entries.Keys;
    }

    method InterruptEntry(uuid: Uuid)
      requires uuid in entries
      modifies this
      ensures Now() == old(Now()).(entries := old(entries)[uuid := Interrupt(old(entries)[uuid])],
                                   running := old(running) - ThreadOf(old(entries), uuid))
    {
      var entry := entries[uuid];
      if entry.active.Some? {
        running := running - {entry.active.value};
        entry := Entry(None, entry.inactive + [entry.active.value]);
      }
      entries := entries[uuid := entry];
    }

    /** The scan of both add and edit for a host that has the address. */
    method FindAddress(address: string, skip: Option<Uuid>) returns (taken: bool)
      ensures taken == AddressTaken(known, address, skip)
    {
      var todo := known.Keys;
      while todo != {}
        invariant todo <= known.Keys
        invariant forall u :: u in known && u !in todo ==> Some(u) == skip || known[u].address != address
        decreases |todo|
      {
        var uuid :| uuid in todo;
        todo := todo - {uuid};
        if Some(uuid) == skip {
          continue;
        }
        if known[uuid].address == address {
          return true;
        }
      }
      return false;
    }

    method Add(address: string, c: Computer)
      modifies this
      ensures Now() == AddBookmark(old(Now()), address, c)
    {
      var taken := FindAddress(address, None);
      if !taken {
        var uuid := BookmarkUuid(address);
        known := known[uuid := Host(c, true, address, None)];
        StartPollingComputer(uuid);
      }
    }

    method AddFound(id: string, address: string, c: Computer)
      requires ServerUuid(id) !in known
      modifies this
      ensures Now() == AddServer(old(Now()), id, address, c)
    {
      known := known[ServerUuid(id) := Host(c, false, address, None)];
      StartPollingComputer(ServerUuid(id));
    }

    /** The deferred deletion: both maps under the lock, then the taken entry is destroyed. */
    method Delete(uuid: Uuid)
      modifies this
      ensures Now() == DeleteHost(old(Now()), uuid)
    {
      var taken := None;
      if uuid in entries {
        taken := Some(entries[uuid]);
      }
      entries := entries - {uuid};
      known := known - {uuid};
      if taken.Some? && taken.value.active.Some? {
        running := running - {taken.value.active.value};
      }
    }

    /** editManualBookmark, as far as the maps go; `ok` is its answer when the rest is valid. */
    method Edit(uuid: Uuid, address: string) returns (ok: bool)
      requires uuid in known
      modifies this
      ensures Now() == EditBookmark(old(Now()), uuid, address)
      ensures ok <==>
          old(known[uuid].bookmark && (known[uuid].address == address || !AddressTaken(known, address, Some(uuid))))
    {
      hide AddressTaken;
      if !known[uuid].bookmark {
        return false;
      }
      if known[uuid].address == address {
        return true;
      }
      var other := FindAddress(address, Some(uuid));
      if other {
        return false;
      }
      MoveEntry(uuid, address);
      return true;
    }

    method MoveEntry(uuid: Uuid, address: string)
      requires uuid in known && Moves(Now(), uuid, address)
      modifies this
      ensures Now() == EditBookmark(old(Now()), uuid, address)
    {
      hide AddressTaken;
      ghost var s := Now();
      var uuid' := BookmarkUuid(address);
      var taken := None;
      if uuid in entries {
        InterruptEntry(uuid);
        taken := Some(entries[uuid]);
      }
      assert entries - {uuid} == s.entries - {uuid} && running == s.running - ThreadOf(s.entries, uuid);
      entries := entries - {uuid};
      var moved := known[uuid].(address := address, server := None);
      known := known - {uuid};
      known := known[uuid' := moved];
      if taken.Some? {
        entries := entries[uuid' := taken.value];
      }
      StartPollingComputer(uuid');
    }

    method HandleAboutToQuit()
      modifies this
      ensures Now() == AboutToQuit(old(Now()))
    {
      quitting := true;
      InterruptEntries();
    }
  }
}
