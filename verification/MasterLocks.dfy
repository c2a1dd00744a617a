/**
  The two locks of app/masterhook_internal.c under any interleaving of hooks on any number of
  threads, with hooks re-entered from driver calls.
*/
module MasterLocks {

  import opened Options

  /** `g_MasterLock` is recursive, `g_FdTableLock` is not. */
  datatype Lock = Master | Table

  /**
    The steps of a hook that matter here. `Call` is a call into the driver library, which may
    enter hooks again before it comes back; `Plain` is a call that does not, such as dup, the
    real open and close, and taking or dropping master. `Branch` goes on at any of its targets.
  */
  datatype Instr =
    | Acquire(lock: Lock)
    | Release(lock: Lock)
    | Call
    | Plain
    | Branch(targets: seq<nat>)
    | Return

  datatype Hook = OpenHook | CloseHook | FlipHook | CommitHook | SetCrtcHook

  /** The hooks, lock action by lock action, with every return path of its own. */
  function Program(h: Hook): (p: seq<Instr>)
  {
    match h
    case OpenHook =>
      [ Plain,             //  0: the real open
        Branch([2, 17]),   //  1: not our card, or nothing captured
        Acquire(Master),   //  2
        Acquire(Table),    //  3
        Branch([5, 8]),    //  4: is the table full?
        Release(Table),    //  5
        Release(Master),   //  6
        Return,            //  7
        Branch([9, 11]),   //  8: is no entry in use yet?
        Plain,             //  9: Qt drops master
        Branch([5, 11]),   // 10: was that refused?
        Plain,             // 11: the real close
        Plain,             // 12: dup, or the real open again
        Branch([14, 15]),  // 13: is there a descriptor?
        Plain,             // 14: it takes master
        Release(Table),    // 15
        Release(Master),   // 16
        Return ]           // 17
    case CloseHook =>
      [ Branch([1, 4]),    //  0: descriptor -1 is in no table
        Acquire(Table),    //  1
        Branch([3, 6]),    //  2: was it the last entry?
        Release(Table),    //  3
        Plain,             //  4: the real close
        Return,            //  5
        Release(Table),    //  6
        Plain,             //  7: the real close
        Branch([9, 5]),    //  8: did it succeed?
        Acquire(Master),   //  9
        Plain,             // 10: Qt takes master
        Branch([12, 13]),  // 11: is there a display state?
        Call,              // 12: it is restored
        Release(Master),   // 13
        Return ]           // 14
    case SetCrtcHook =>
      [ Plain,             //  0: is the descriptor master?
        Call,              //  1
        Return ]           //  2
    case _ =>
      [ Branch([1, 2]),    //  0: does a commit look for a descriptor to capture?
        Plain,             //  1: is the descriptor master?
        Call,              //  2: the real flip or commit
        Branch([4, 11]),   //  3: was it refused to Qt?
        Acquire(Master),   //  4
        Acquire(Table),    //  5: a tracked descriptor is looked up
        Release(Table),    //  6
        Plain,             //  7: it drops master, Qt takes it
        Call,              //  8: the flip or commit again
        Plain,             //  9: Qt drops master, the other takes it
        Release(Master),   // 10
        Return ]           // 11
  }

  /** Whether a hook holds the lock before its instruction `pc`. */
  predicate Holds(h: Hook, pc: nat, lock: Lock)
  {
    match (h, lock)
    case (OpenHook, Master) => 3 <= pc <= 16 && pc != 7
    case (OpenHook, Table) => 4 <= pc <= 15 && pc != 6 && pc != 7
    case (CloseHook, Master) => 10 <= pc <= 13
    case (CloseHook, Table) => pc in {2, 3, 6}
    case (SetCrtcHook, _) => false
    case (_, Master) => 5 <= pc <= 10
    case (_, Table) => pc == 6
  }

  /** The locks held before and after a step are as `Holds` says, on every path. */
  predicate Consistent(h: Hook, pc: nat)
    requires pc < |Program(h)|
  {
    var p := Program(h);
    match p[pc]
    case Acquire(l) =>
      && pc + 1 < |p| && !Holds(h, pc, l) && Holds(h, pc + 1, l)
      && !Holds(h, pc, Table)
      && Holds(h, pc, Other(l)) == Holds(h, pc + 1, Other(l))
    case Release(l) =>
      && pc + 1 < |p| && Holds(h, pc, l) && !Holds(h, pc + 1, l)
      && Holds(h, pc, Other(l)) == Holds(h, pc + 1, Other(l))
    case Call =>
      && pc + 1 < |p| && !Holds(h, pc, Table)
      && (forall l :: Holds(h, pc, l) == Holds(h, pc + 1, l))
    case Plain =>
      && pc + 1 < |p| && (forall l :: Holds(h, pc, l) == Holds(h, pc + 1, l))
    case Branch(targets) =>
      && targets != []
      && forall i :: 0 <= i < |targets| ==>
           targets[i] < |p| && forall l :: Holds(h, pc, l) == Holds(h, targets[i], l)
    case Return => forall l :: !Holds(h, pc, l)
  }

  function Other(l: Lock): (o: Lock)
  {
    if l == Master then Table else Master
  }

  /**
    Every hook takes the table lock last, makes no call that may enter a hook while it has it,
    and on each of its return paths has given back what it took.
  */
  lemma ProgramsConsistent(h: Hook, pc: nat)
    requires pc < |Program(h)|
    ensures Consistent(h, pc)
    ensures forall l :: !Holds(h, 0, l)
  {
    hide Consistent;
    match h
    case OpenHook => OpenConsistent(pc);
    case CloseHook => CloseConsistent(pc);
    case _ => DisplayConsistent(h, pc);
  }

  lemma OpenConsistent(pc: nat)
    requires pc < |Program(OpenHook)|
    ensures Consistent(OpenHook, pc)
  {
  }

  lemma CloseConsistent(pc: nat)
    requires pc < |Program(CloseHook)|
    ensures Consistent(CloseHook, pc)
  {
  }

  lemma DisplayConsistent(h: Hook, pc: nat)
    requires h != OpenHook && h != CloseHook && pc < |Program(h)|
    ensures Consistent(h, pc)
  {
  }

  // ---------------------------------------------------------------- threads

  datatype Frame = Frame(hook: Hook, pc: nat)

  /** Each thread's stack of hooks, and the owners of the locks. */
  datatype State = State(threads: seq<seq<Frame>>, master: Option<nat>, depth: nat, table: Option<nat>)

  predicate FrameOk(f: Frame)
  {
    f.pc < |Program(f.hook)|
  }

  /** How many frames of a stack hold the master lock. */
  function MasterCount(stack: seq<Frame>): (n: nat)
  {
    if stack == [] then 0
    else
      var top := stack[|stack| - 1];
      MasterCount(stack[..|stack| - 1]) + (if Holds(top.hook, top.pc, Master) then 1 else 0)
  }

  predicate TopHoldsTable(stack: seq<Frame>)
  {
    stack != [] && Holds(stack[|stack| - 1].hook, stack[|stack| - 1].pc, Table)
  }

  /** A suspended frame is inside a call. */
  predicate StackOk(stack: seq<Frame>)
  {
    && (forall i :: 0 <= i < |stack| ==> FrameOk(stack[i]))
    && (forall i :: 0 <= i < |stack| - 1 ==> Program(stack[i].hook)[stack[i].pc] == Call)
  }

  /** Ownership is what the stacks say. */
  predicate Inv(s: State)
  {
    && (forall t :: 0 <= t < |s.threads| ==>
          && StackOk(s.threads[t])
          && MasterCount(s.threads[t]) == (if s.master == Some(t) then s.depth else 0)
          && (TopHoldsTable(s.threads[t]) <==> s.table == Some(t)))
    && (s.master.Some? <==> s.depth > 0)
    && (s.master.Some? ==> s.master.value < |s.threads|)
    && (s.table.Some? ==> s.table.value < |s.threads|)
  }

  /** The instruction a busy thread is about to execute. */
  function Current(stack: seq<Frame>): (i: Instr)
    requires stack != [] && StackOk(stack)
  {
    var f := stack[|stack| - 1];
    Program(f.hook)[f.pc]
  }

  /** What a thread does next: enter a hook, or go on, by which target of a branch. */
  datatype Choice = Enter(hook: Hook) | Advance(target: nat)

  function Top(stack: seq<Frame>, pc: nat): (r: seq<Frame>)
    requires stack != []
  {
    stack[|stack| - 1 := Frame(stack[|stack| - 1].hook, pc)]
  }

  /** The threads' next state, or None when thread `t` cannot do that now. */
  function Step(s: State, t: nat, c: Choice): (r: Option<State>)
    requires Inv(s)
  {
    if t >= |s.threads| then None
    else
      var stack := s.threads[t];
      match c
      case Enter(h) =>
        if stack == [] || Current(stack) == Call
        then Some(s.(threads := s.threads[t := stack + [Frame(h, 0)]]))
        else None
      case Advance(target) =>
        if stack == [] then None
        else
          var next := s.(threads := s.threads[t := Top(stack, stack[|stack| - 1].pc + 1)]);
          match Current(stack)
          case Acquire(Master) =>
            if s.master.None? || s.master == Some(t) then Some(next.(master := Some(t), depth := s.depth + 1))
            else None
          case Acquire(Table) =>
            if s.table.None? then Some(next.(table := Some(t))) else None
          case Release(Master) =>
            Some(next.(master := if s.depth == 1 then None else s.master,
                       depth := if s.depth > 0 then s.depth - 1 else 0))
          case Release(Table) => Some(next.(table := None))
          case Call => Some(next)
          case Plain => Some(next)
          case Branch(targets) =>
            if target < |targets| then Some(s.(threads := s.threads[t := Top(stack, targets[target])])) else None
          case Return => Some(s.(threads := s.threads[t := stack[..|stack| - 1]]))
  }

  lemma MasterCountTop(stack: seq<Frame>, f: Frame)
    ensures MasterCount(stack + [f]) == MasterCount(stack) + (if Holds(f.hook, f.pc, Master) then 1 else 0)
  {
    assert (stack + [f])[..|stack|] == stack;
  }

  /** Entering a hook changes no lock. */
  lemma EnterKeepsInv(s: State, t: nat, h: Hook)
    requires Inv(s) && Step(s, t, Enter(h)).Some?
    ensures Inv(Step(s, t, Enter(h)).value)
  {
    hide Program, Holds, StackOk, TopHoldsTable, MasterCount;
    FrameEntered(s.threads[t], h);
  }

  /** A hook starts with no lock of its own, over a caller that is not in a table section. */
  lemma FrameEntered(stack: seq<Frame>, h: Hook)
    requires StackOk(stack) && (stack == [] || Current(stack) == Call)
    ensures var entered := stack + [Frame(h, 0)];
            && StackOk(entered) && MasterCount(entered) == MasterCount(stack)
            && !TopHoldsTable(entered) && !TopHoldsTable(stack)
  {
    hide Program, Holds, MasterCount;
    MasterCountTop(stack, Frame(h, 0));
    ProgramNonEmpty(h);
    ProgramsConsistent(h, 0);
    if stack != [] {
      ProgramsConsistent(stack[|stack| - 1].hook, stack[|stack| - 1].pc);
    }
  }

  lemma ProgramNonEmpty(h: Hook)
    ensures |Program(h)| > 0
  {
  }

  /** Returning to the caller changes no lock. */
  lemma ReturnKeepsInv(s: State, t: nat)
    requires Inv(s) && t < |s.threads| && s.threads[t] != [] && Current(s.threads[t]) == Return
    ensures Inv(s.(threads := s.threads[t := s.threads[t][..|s.threads[t]| - 1]]))
  {
    hide Program, Holds;
    var stack := s.threads[t];
    var n := |stack| - 1;
    ProgramsConsistent(stack[n].hook, stack[n].pc);
    if n > 0 {
      ProgramsConsistent(stack[n - 1].hook, stack[n - 1].pc);
    }
  }

  /** Moving the top frame on, with the lock owners moved as its program says. */
  lemma MoveKeepsInv(s: State, t: nat, pc: nat, s': State)
    requires Inv(s) && t < |s.threads| && s.threads[t] != []
    requires var f := s.threads[t][|s.threads[t]| - 1];
             && pc < |Program(f.hook)|
             && s'.threads == s.threads[t := Top(s.threads[t], pc)]
             && LocksFollow(s, s', t, f.hook, f.pc, pc)
    ensures Inv(s')
  {
    hide Program, Holds, StackOk, TopHoldsTable, MasterCount;
    TopCounts(s.threads[t], pc);
    assert s'.threads[t] == Top(s.threads[t], pc);
  }

  lemma TopCounts(stack: seq<Frame>, pc: nat)
    requires StackOk(stack) && stack != [] && pc < |Program(stack[|stack| - 1].hook)|
    ensures StackOk(Top(stack, pc))
    ensures var h := stack[|stack| - 1].hook;
            var was := stack[|stack| - 1].pc;
            && MasterCount(Top(stack, pc)) - (if Holds(h, pc, Master) then 1 else 0)
               == MasterCount(stack) - (if Holds(h, was, Master) then 1 else 0)
            && (TopHoldsTable(stack) <==> Holds(h, was, Table))
            && (TopHoldsTable(Top(stack, pc)) <==> Holds(h, pc, Table))
  {
    hide Program, Holds;
    var n := |stack| - 1;
    var f := stack[n];
    assert stack == stack[..n] + [f];
    MasterCountTop(stack[..n], f);
    assert Top(stack, pc) == stack[..n] + [Frame(f.hook, pc)];
    MasterCountTop(stack[..n], Frame(f.hook, pc));
  }

  /** The owners of both locks change as the thread's step from `pc` to `pc'` says. */
  predicate LocksFollow(s: State, s': State, t: nat, h: Hook, pc: nat, pc': nat)
  {
    && (if Holds(h, pc, Table) == Holds(h, pc', Table) then s'.table == s.table
        else if Holds(h, pc, Table) then s.table == Some(t) && s'.table == None
        else s.table == None && s'.table == Some(t))
    && (if Holds(h, pc, Master) == Holds(h, pc', Master) then s'.master == s.master && s'.depth == s.depth
        else if Holds(h, pc, Master) then
          && s.master == Some(t) && s.depth > 0 && s'.depth == s.depth - 1
          && s'.master == (if s.depth == 1 then None else s.master)
        else (s.master == None || s.master == Some(t)) && s'.master == Some(t) && s'.depth == s.depth + 1)
  }

  lemma HolderIsOwner(s: State, t: nat)
    requires Inv(s) && t < |s.threads| && s.threads[t] != []
    ensures var f := s.threads[t][|s.threads[t]| - 1];
            && (Holds(f.hook, f.pc, Master) ==> s.master == Some(t) && s.depth > 0)
            && (Holds(f.hook, f.pc, Table) <==> s.table == Some(t))
  {
  }

  /** A step inside a hook moves its top frame, and the lock owners with it. */
  lemma AdvanceFollows(s: State, t: nat, target: nat)
    requires Inv(s) && Step(s, t, Advance(target)).Some? && Current(s.threads[t]) != Return
    ensures var s' := Step(s, t, Advance(target)).value;
            var n := |s.threads[t]| - 1;
            var f := s.threads[t][n];
            && |s'.threads| == |s.threads| && |s'.threads[t]| == n + 1
            && var pc := s'.threads[t][n].pc;
               && pc < |Program(f.hook)|
               && s'.threads == s.threads[t := Top(s.threads[t], pc)]
               && LocksFollow(s, s', t, f.hook, f.pc, pc)
  {
    hide Program, Holds, MasterCount, StackOk, TopHoldsTable;
    var f := s.threads[t][|s.threads[t]| - 1];
    FramesOk(s, t);
    ProgramsConsistent(f.hook, f.pc);
    HolderIsOwner(s, t);
  }

  lemma FramesOk(s: State, t: nat)
    requires Inv(s) && t < |s.threads| && s.threads[t] != []
    ensures StackOk(s.threads[t]) && FrameOk(s.threads[t][|s.threads[t]| - 1])
  {
    hide Program, Holds, MasterCount;
  }

  /** Every step of every thread keeps the invariant. */
  lemma StepKeepsInv(s: State, t: nat, c: Choice)
    requires Inv(s) && Step(s, t, c).Some?
    ensures Inv(Step(s, t, c).value)
  {
    if c.Enter? {
      EnterKeepsInv(s, t, c.hook);
    } else {
      hide Program, Holds, MasterCount;
      var stack := s.threads[t];
      var f := stack[|stack| - 1];
      if Current(stack) == Return {
        ReturnKeepsInv(s, t);
      } else {
        AdvanceFollows(s, t, c.target);
        MoveKeepsInv(s, t, Step(s, t, c).value.threads[t][|stack| - 1].pc, Step(s, t, c).value);
      }
    }
  }

  // ---------------------------------------------------------------- runs

  datatype Action = Action(thread: nat, choice: Choice)

  /** `n` threads, all idle, both locks free. */
  function Initial(n: nat): (s: State)
    ensures Inv(s)
  {
    State(seq(n, _ => []), None, 0, None)
  }

  /** The state after a schedule; None when the schedule asks for a step nobody can do. */
  function Run(s: State, schedule: seq<Action>): (r: Option<State>)
    requires Inv(s)
    ensures r.Some? ==> Inv(r.value)
    decreases |schedule|
  {
    if schedule == [] then Some(s)
    else
      var last := schedule[|schedule| - 1];
      match Run(s, schedule[..|schedule| - 1])
      case None => None
      case Some(before) =>
        var r := Step(before, last.thread, last.choice);
        if r.Some? then
          StepKeepsInv(before, last.thread, last.choice);
          r
        else None
  }

  predicate Reachable(n: nat, schedule: seq<Action>, s: State)
  {
    Run(Initial(n), schedule) == Some(s)
  }

  predicate Busy(s: State, t: nat)
  {
    t < |s.threads| && s.threads[t] != []
  }

  /** The lock a busy thread is about to take. */
  predicate Wants(s: State, t: nat, l: Lock)
    requires Inv(s)
  {
    Busy(s, t) && Current(s.threads[t]) == Acquire(l)
  }

  /** `t` cannot go on before `u` gives up a lock. */
  predicate WaitsFor(s: State, t: nat, u: nat)
    requires Inv(s)
  {
    || (Wants(s, t, Master) && s.master == Some(u) && t != u)
    || (Wants(s, t, Table) && s.table == Some(u))
  }

  /** The lock order: whoever holds the table lock waits for nothing, itself included. */
  lemma TableHolderNeverWaits(s: State, t: nat, l: Lock)
    requires Inv(s) && s.table == Some(t)
    ensures !Wants(s, t, l)
  {
    hide Program, Holds;
    if Wants(s, t, l) {
      var f := s.threads[t][|s.threads[t]| - 1];
      ProgramsConsistent(f.hook, f.pc);
      HolderIsOwner(s, t);
    }
  }

  /** One thread at a time is inside a section guarded by the table lock. */
  lemma TableExclusive(s: State, t: nat, u: nat)
    requires Inv(s) && t < |s.threads| && u < |s.threads|
    requires TopHoldsTable(s.threads[t]) && TopHoldsTable(s.threads[u])
    ensures t == u
  {
  }

  /** Waiting goes through at most one other waiting thread. */
  lemma NoLongWait(s: State, a: nat, b: nat, c: nat, d: nat)
    requires Inv(s) && WaitsFor(s, a, b) && WaitsFor(s, b, c)
    ensures !WaitsFor(s, c, d)
  {
    if s.table == Some(b) {
      TableHolderNeverWaits(s, b, Master);
      TableHolderNeverWaits(s, b, Table);
    } else if s.table == Some(c) {
      TableHolderNeverWaits(s, c, Master);
      TableHolderNeverWaits(s, c, Table);
    }
  }

  function Next(circle: seq<nat>, i: nat): (j: nat)
    requires i < |circle|
    ensures j < |circle|
  {
    if i + 1 < |circle| then i + 1 else 0
  }

  function After(circle: seq<nat>, i: nat): (t: nat)
    requires i < |circle|
  {
    circle[Next(circle, i)]
  }

  /** Each thread of the circle waits for the next, and the last for the first. */
  predicate WaitCircle(s: State, circle: seq<nat>)
    requires Inv(s)
  {
    circle != [] && forall i :: 0 <= i < |circle| ==> WaitsFor(s, circle[i], After(circle, i))
  }

  /**
    In every reachable state of every schedule no threads wait for each other in a circle,
    and an idle thread has nothing locked.
  */
  lemma NoDeadlock(n: nat, schedule: seq<Action>, s: State, circle: seq<nat>)
    requires Reachable(n, schedule, s) && Inv(s)
    ensures !WaitCircle(s, circle)
    ensures forall t :: 0 <= t < |s.threads| && s.threads[t] == [] ==> s.master != Some(t) && s.table != Some(t)
  {
    hide Program, Holds, Run, WaitsFor;
    NoCircle(s, circle);
    forall t | 0 <= t < |s.threads| && s.threads[t] == [] ensures s.master != Some(t) && s.table != Some(t) {
      assert MasterCount(s.threads[t]) == 0;
    }
  }

  lemma NoCircle(s: State, circle: seq<nat>)
    requires Inv(s)
    ensures !WaitCircle(s, circle)
  {
    hide Inv, WaitsFor;
    if WaitCircle(s, circle) {
      var i1 := Next(circle, 0);
      var i2 := Next(circle, i1);
      assert WaitsFor(s, circle[0], After(circle, 0)) && WaitsFor(s, circle[i1], After(circle, i1));
      assert WaitsFor(s, circle[i2], After(circle, i2));
      NoLongWait(s, circle[0], circle[i1], circle[i2], After(circle, i2));
      assert false;
    }
  }

  /** While a hook is running somewhere, some thread can take a step. */
  lemma Progress(s: State, t: nat) returns (u: nat, c: Choice)
    requires Inv(s) && Busy(s, t)
    ensures Busy(s, u) && Step(s, u, c).Some?
  {
    hide Program, Holds;
    u, c := t, Advance(0);
    if Step(s, u, c).None? {
      var f := s.threads[t][|s.threads[t]| - 1];
      ProgramsConsistent(f.hook, f.pc);
      if Wants(s, t, Master) {
        u := s.master.value;
        OwnerIsBusy(s, u);
        var g := s.threads[u][|s.threads[u]| - 1];
        ProgramsConsistent(g.hook, g.pc);
        if Step(s, u, c).None? {
          assert Wants(s, u, Table);
          u := s.table.value;
        }
      } else {
        u := s.table.value;
      }
      if s.table == Some(u) {
        var g := s.threads[u][|s.threads[u]| - 1];
        ProgramsConsistent(g.hook, g.pc);
        TableHolderNeverWaits(s, u, Master);
        TableHolderNeverWaits(s, u, Table);
      }
    }
  }

  lemma OwnerIsBusy(s: State, t: nat)
    requires Inv(s) && s.master == Some(t)
    ensures Busy(s, t)
  {
    assert MasterCount([]) == 0;
  }
}
