/**
  The descriptor table under interleaved threads: why its sections may be taken one at a time.
  A section writes a slot and then the counter, as two steps between which any other thread
  may run (app/masterhook_internal.c:85-113, 172-231).
*/
module MasterTable {

  import opened Options
  import opened MasterHook
  import Locks = MasterLocks

  /** A thread that has written a slot and not yet the counter. */
  datatype Half = Half(thread: nat, section: Section)

  /** `done` is the history of the sections, in the order they were finished. */
  datatype Machine = Machine(locks: Locks.State, table: seq<int>, count: int, half: Option<Half>, done: seq<Section>)

  datatype Action =
    | LockAction(thread: nat, choice: Locks.Choice)
    | SlotAction(thread: nat, section: Section)
    | CountAction(thread: nat)

  /** The slot a section writes, or -1 when it writes none. */
  function SlotFor(table: seq<int>, count: int, section: Section): (slot: int)
    ensures -1 <= slot < |table|
  {
    match section
    case RemoveSection(fd) => if fd == -1 || count == 0 then -1 else SlotOf(table, fd)
    case InsertSection(fd) => if fd < 0 then -1 else EntryIndex(table, true)
    case Elsewhere(_, _) => -1
  }

  predicate InHalf(m: Machine, t: nat)
  {
    m.half.Some? && m.half.value.thread == t
  }

  /**
    None when the action cannot happen now. Only a thread whose running hook has the table lock
    writes; nothing here keeps it from writing between the two steps of another thread.
  */
  function Step(m: Machine, a: Action): (r: Option<Machine>)
    requires Locks.Inv(m.locks)
  {
    match a
    case LockAction(t, c) =>
      var s := Locks.Step(m.locks, t, c);
      if InHalf(m, t) || s.None? then None else Some(m.(locks := s.value))
    case SlotAction(t, section) =>
      var slot := SlotFor(m.table, m.count, section);
      if t >= |m.locks.threads| || !Locks.TopHoldsTable(m.locks.threads[t]) || InHalf(m, t) || slot < 0 then None
      else
        Some(m.(table := m.table[slot := if section.InsertSection? then section.fd else -1],
                half := Some(Half(t, section))))
    case CountAction(t) =>
      if !InHalf(m, t) then None
      else
        var section := m.half.value.section;
        Some(m.(count := if section.InsertSection? then m.count + 1 else m.count - 1,
                half := None, done := m.done + [section]))
  }

  /** Table and counter are those of the sections done, one after the other, and half of one more. */
  predicate Inv(m: Machine, start: Drm)
  {
    var d := RunSections(start, m.done);
    && Locks.Inv(m.locks)
    && d.CounterRight()
    && m.count == d.count
    && match m.half
       case None => m.table == d.table
       case Some(h) =>
         && h.thread < |m.locks.threads| && Locks.TopHoldsTable(m.locks.threads[h.thread])
         && SlotFor(d.table, d.count, h.section) >= 0
         && m.table == SectionStep(d, h.section).table
  }

  lemma OthersKeepStack(s: Locks.State, t: nat, c: Locks.Choice, u: nat)
    requires Locks.Inv(s) && Locks.Step(s, t, c).Some? && u != t && u < |s.threads|
    ensures |Locks.Step(s, t, c).value.threads| == |s.threads|
    ensures Locks.Step(s, t, c).value.threads[u] == s.threads[u]
  {
    hide Locks.Program, Locks.Holds, Locks.MasterCount, Locks.TopHoldsTable;
  }

  /** A section as the two writes of it. */
  lemma SectionIsTwoWrites(d: Drm, section: Section)
    requires d.CounterRight() && SlotFor(d.table, d.count, section) >= 0
    ensures var slot := SlotFor(d.table, d.count, section);
            var d' := SectionStep(d, section);
            && d'.table == d.table[slot := if section.InsertSection? then section.fd else -1]
            && d'.count == if section.InsertSection? then d.count + 1 else d.count - 1
  {
  }

  lemma StepKeepsInv(m: Machine, start: Drm, a: Action)
    requires start.CounterRight() && Inv(m, start) && Step(m, a).Some?
    ensures Inv(Step(m, a).value, start)
  {
    match a
    case LockAction(t, c) => LockKeepsInv(m, start, t, c);
    case SlotAction(t, section) => SlotKeepsInv(m, start, t, section);
    case CountAction(t) => CountKeepsInv(m, start, t);
  }

  lemma LockKeepsInv(m: Machine, start: Drm, t: nat, c: Locks.Choice)
    requires Inv(m, start) && Step(m, LockAction(t, c)).Some?
    ensures Inv(Step(m, LockAction(t, c)).value, start)
  {
    hide RunSections, SectionStep, SlotFor, Locks.Inv, Locks.Step, Locks.TopHoldsTable;
    Locks.StepKeepsInv(m.locks, t, c);
    if m.half.Some? {
      OthersKeepStack(m.locks, t, c, m.half.value.thread);
    }
  }

  /** Nobody is between two writes when a holder of the table lock begins its own. */
  lemma SlotKeepsInv(m: Machine, start: Drm, t: nat, section: Section)
    requires Inv(m, start) && Step(m, SlotAction(t, section)).Some?
    ensures Inv(Step(m, SlotAction(t, section)).value, start)
  {
    hide RunSections, SectionStep, SlotFor, Locks.Inv, Locks.Step, Locks.TopHoldsTable;
    if m.half.Some? {
      Locks.TableExclusive(m.locks, t, m.half.value.thread);
      assert false;
    }
    SectionIsTwoWrites(RunSections(start, m.done), section);
  }

  lemma CountKeepsInv(m: Machine, start: Drm, t: nat)
    requires start.CounterRight() && Inv(m, start) && Step(m, CountAction(t)).Some?
    ensures Inv(Step(m, CountAction(t)).value, start)
  {
    hide RunSections, SectionStep, SlotFor, Locks.Inv, Locks.Step, Locks.TopHoldsTable;
    var section := m.half.value.section;
    SectionIsTwoWrites(RunSections(start, m.done), section);
    RunOneMore(start, m.done, section);
    SectionsKeepCounter(start, m.done + [section]);
  }

  lemma RunOneMore(start: Drm, sections: seq<Section>, section: Section)
    ensures RunSections(start, sections + [section]) == SectionStep(RunSections(start, sections), section)
  {
    hide SectionStep;
    assert (sections + [section])[..|sections|] == sections;
  }

  // ---------------------------------------------------------------- runs

  /** `n` idle threads. */
  function Initial(n: nat, start: Drm): (m: Machine)
    ensures Locks.Inv(m.locks)
  {
    Machine(Locks.Initial(n), start.table, start.count, None, [])
  }

  ghost function Run(n: nat, start: Drm, actions: seq<Action>): (r: Option<Machine>)
    requires start.CounterRight()
    ensures r.Some? ==> Inv(r.value, start)
    decreases |actions|
  {
    if actions == [] then Some(Initial(n, start))
    else
      match Run(n, start, actions[..|actions| - 1])
      case None => None
      case Some(before) =>
        var r := Step(before, actions[|actions| - 1]);
        if r.Some? then
          StepKeepsInv(before, start, actions[|actions| - 1]);
          r
        else None
  }

  /**
    In every reachable state of every interleaving: with the table lock free, table and counter
    are those of whole sections one after the other, and the counter is right; with it held, the
    counter is off by one only between the holder's own two writes.
  */
  lemma SectionsAreAtomic(n: nat, start: Drm, actions: seq<Action>, m: Machine)
    requires start.CounterRight() && Run(n, start, actions) == Some(m)
    ensures Inv(m, start)
    ensures m.half.Some? ==> m.locks.table == Some(m.half.value.thread)
    ensures m.locks.table.None? ==>
              && m.count == Used(m.table)
              && m.table == RunSections(start, m.done).table && m.count == RunSections(start, m.done).count
    ensures m.half.None? ==> m.count == Used(m.table)
    ensures m.half.Some? ==> m.count - Used(m.table) == if m.half.value.section.InsertSection? then -1 else 1
  {
    hide RunSections, SectionStep;
    var d := RunSections(start, m.done);
    if m.half.Some? {
      var section := m.half.value.section;
      SectionIsTwoWrites(d, section);
      SectionKeepsCounter(d, section);
    }
  }

  lemma SectionKeepsCounter(d: Drm, section: Section)
    requires d.CounterRight()
    ensures SectionStep(d, section).CounterRight()
  {
    SectionsKeepCounter(d, [] + [section]);
    RunOneMore(d, [], section);
  }
}
