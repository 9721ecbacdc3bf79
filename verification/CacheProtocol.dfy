/**
 src/userinfo.c: the protocol between lookups, rebuilds and the signal handler.

 Any number of threads call user_belongs_to_group or init_user_cache while a signal
 may set the flag and the databases may change, all interleaved at the grain of the
 statements that touch shared state.  The state also records what the properties
 speak about: when things happened, and which version of the databases was read.
 */
module CacheProtocol {

  type Tid = nat

  /** Where a thread stands; the names say what it does next. */
  datatype Pc =
    | Idle
    | TestFlag
    | LockWrite | Recheck | ClearFlag | ResetBlock | ReadUsers | SortNames | ReadGroups | SortUids | SortGids | UnlockWrite
    | LockRead | Lookup | UnlockRead

  /** `query` is false for a bare init_user_cache; the rest is recorded at its flag test. */
  datatype Thread = Thread(pc: Pc, query: bool, seen: int, seenDb: nat)

  /** How far the tables are. */
  datatype Phase = Ready | Stale | Emptied | UsersRead | NameSorted | GroupsRead | UidSorted

  datatype State = State(
    flag: bool, writing: bool, readers: set<Tid>, threads: map<Tid, Thread>, phase: Phase,
    db: nat,                      // version of the databases
    usersVersion: nat,            // version the user table was read from
    groupsVersion: nat,           // version the group table was read from
    time: nat,                    // steps so far
    begun: int,                   // when the latest rebuild began, or -1
    invalidated: int,             // when the latest invalidation happened, or -1
    invalidatedDb: nat)           // version of the databases then

  datatype Step = Invalidate | ChangeDb | Call(t: Tid, query: bool) | Act(t: Tid, pc: Pc)

  predicate Initial(s: State) {
    && s.flag && !s.writing && s.readers == {} && s.phase == Ready
    && s.time == 0 && s.begun == -1 && s.invalidated == -1 && s.invalidatedDb == 0
    && forall t :: t in s.threads ==> s.threads[t].pc == Idle && s.threads[t].seen == -1 && s.threads[t].seenDb == 0
  }

  predicate Enabled(s: State, step: Step) {
    match step
    case Invalidate => true
    case ChangeDb => true
    case Call(t, _) => t in s.threads && s.threads[t].pc == Idle
    case Act(t, pc) =>
      && t in s.threads && s.threads[t].pc == pc && pc != Idle
      && (pc == LockWrite ==> !s.writing && s.readers == {})
      && (pc == LockRead ==> !s.writing)
  }

  /** The thread after its step. */
  function Advance(s: State, th: Thread): Thread {
    match th.pc
    case TestFlag => Thread(if s.flag then LockWrite else LockRead, th.query, s.invalidated, s.invalidatedDb)
    case LockWrite => th.(pc := Recheck)
    case Recheck => th.(pc := if s.flag then ClearFlag else UnlockWrite)
    case ClearFlag => th.(pc := ResetBlock)
    case ResetBlock => th.(pc := ReadUsers)
    case ReadUsers => th.(pc := SortNames)
    case SortNames => th.(pc := ReadGroups)
    case ReadGroups => th.(pc := SortUids)
    case SortUids => th.(pc := SortGids)
    case SortGids => th.(pc := UnlockWrite)
    case UnlockWrite => th.(pc := if th.query then LockRead else Idle)
    case LockRead => th.(pc := Lookup)
    case Lookup => th.(pc := UnlockRead)
    case UnlockRead => th.(pc := Idle)
    case Idle => th
  }

  /** The shared state after a step of thread `t`. */
  function Effect(s: State, t: Tid, pc: Pc): State {
    match pc
    case LockWrite => s.(writing := true)
    case ClearFlag => s.(flag := false, begun := s.time, phase := Stale)
    case ResetBlock => s.(phase := Emptied)
    case ReadUsers => s.(phase := UsersRead, usersVersion := s.db)
    case SortNames => s.(phase := NameSorted)
    case ReadGroups => s.(phase := GroupsRead, groupsVersion := s.db)
    case SortUids => s.(phase := UidSorted)
    case SortGids => s.(phase := Ready)
    case UnlockWrite => s.(writing := false)
    case LockRead => s.(readers := s.readers + {t})
    case UnlockRead => s.(readers := s.readers - {t})
    case _ => s
  }

  function Do(s: State, step: Step): State
    requires Enabled(s, step)
  {
    match step
    case Invalidate => s.(flag := true, invalidated := s.time, invalidatedDb := s.db, time := s.time + 1)
    case ChangeDb => s.(db := s.db + 1, time := s.time + 1)
    case Call(t, query) =>
      s.(threads := s.threads[t := s.threads[t].(pc := if query then TestFlag else LockWrite, query := query)], time := s.time + 1)
    case Act(t, pc) =>
      Effect(s, t, pc).(threads := s.threads[t := Advance(s, s.threads[t])], time := s.time + 1)
  }

  // ----- What every reachable state looks like

  predicate HoldsWrite(pc: Pc) {
    pc in {Recheck, ClearFlag, ResetBlock, ReadUsers, SortNames, ReadGroups, SortUids, SortGids, UnlockWrite}
  }

  predicate HoldsRead(pc: Pc) {
    pc == Lookup || pc == UnlockRead
  }

  /** How far the tables are when the writer is about to do something. */
  function PhaseAt(pc: Pc): Phase {
    match pc
    case ResetBlock => Stale
    case ReadUsers => Emptied
    case SortNames => UsersRead
    case ReadGroups => NameSorted
    case SortUids => GroupsRead
    case SortGids => UidSorted
    case _ => Ready
  }

  /** The read lock is held by exactly the threads that are reading. */
  ghost predicate ReadersAgree(s: State) {
    && s.readers <= s.threads.Keys
    && forall t :: t in s.threads ==> (HoldsRead(s.threads[t].pc) <==> t in s.readers)
  }

  /** At most one thread writes; the tables are as far as that thread is, and whole otherwise. */
  ghost predicate WriterAgrees(s: State) {
    && (forall t :: t in s.threads && HoldsWrite(s.threads[t].pc) ==> s.writing && s.phase == PhaseAt(s.threads[t].pc))
    && (forall t, u :: t in s.threads && u in s.threads && HoldsWrite(s.threads[t].pc) && HoldsWrite(s.threads[u].pc) ==> t == u)
    && (if s.writing then SomeoneWrites(s) else s.phase == Ready)
  }

  ghost predicate SomeoneWrites(s: State) {
    exists t :: t in s.threads && HoldsWrite(s.threads[t].pc)
  }

  /** The lock excludes. */
  ghost predicate Exclusive(s: State) {
    ReadersAgree(s) && WriterAgrees(s) && (s.writing ==> s.readers == {})
  }

  /** What is in the tables so far was read from version `v` or a later one. */
  predicate Covers(s: State, v: nat) {
    && v <= s.db
    && (s.phase in {UsersRead, NameSorted, GroupsRead, UidSorted, Ready} ==> v <= s.usersVersion)
    && (s.phase in {GroupsRead, UidSorted, Ready} ==> v <= s.groupsVersion)
  }

  /** The tables, finished or under way, belong to a rebuild that began after `when`. */
  predicate Newer(s: State, when: int, v: nat) {
    when < s.begun && Covers(s, v)
  }

  /** The flag is set, or the latest invalidation has been acted upon. */
  ghost predicate Fresh(s: State) {
    && s.invalidatedDb <= s.db && -1 <= s.invalidated < s.time && s.begun < s.time
    && (!s.flag ==> Newer(s, s.invalidated, s.invalidatedDb))
  }

  /** A thread past its flag test and past the write lock only meets newer tables. */
  ghost predicate Promised(s: State, th: Thread) {
    && th.seenDb <= s.invalidatedDb && -1 <= th.seen <= s.invalidated
    && (th.pc in {TestFlag, LockRead, Lookup, UnlockRead} ==> th.query)
    && (th.query && (th.pc in {LockRead, Lookup, UnlockRead, UnlockWrite} || (HoldsWrite(th.pc) && th.pc != Recheck && th.pc != ClearFlag)) ==>
          Newer(s, th.seen, th.seenDb))
  }

  ghost predicate Inv(s: State) {
    Exclusive(s) && Fresh(s) && forall t :: t in s.threads ==> Promised(s, s.threads[t])
  }

  lemma InitialInv(s: State)
    requires Initial(s)
    ensures Inv(s)
  {
  }

  /** What a step does to the read lock, and to who holds it. */
  lemma {:induction false} ReadersStep(s: State, step: Step)
    requires Enabled(s, step)
    ensures Do(s, step).threads.Keys == s.threads.Keys
    ensures Do(s, step).readers ==
            if step.Act? && step.pc == LockRead then s.readers + {step.t}
            else if step.Act? && step.pc == UnlockRead then s.readers - {step.t} else s.readers
  {
  }

  lemma {:induction false} ReaderStep(s: State, step: Step, u: Tid)
    requires Enabled(s, step) && u in s.threads
    ensures u in Do(s, step).threads
    ensures HoldsRead(Do(s, step).threads[u].pc) <==>
            if step.Act? && step.t == u then step.pc == LockRead || step.pc == Lookup else HoldsRead(s.threads[u].pc)
    ensures step.Act? && step.t == u ==> s.threads[u].pc == step.pc
  {
  }

  lemma {:induction false} ReadersKept(s: State, step: Step)
    requires ReadersAgree(s) && Enabled(s, step)
    ensures ReadersAgree(Do(s, step))
  {
    hide Do, Enabled;
    var s' := Do(s, step);
    ReadersStep(s, step);
    forall u | u in s'.threads
      ensures HoldsRead(s'.threads[u].pc) <==> u in s'.readers
    {
      assert u in s.threads;
      ReaderStep(s, step, u);
    }
    assert step.Act? ==> step.t in s.threads by {
      ActorExists(s, step);
    }
  }

  lemma ActorExists(s: State, step: Step)
    requires Enabled(s, step)
    ensures step.Act? ==> step.t in s.threads
  {
  }

  /** What a step of the thread that holds the write lock does. */
  lemma {:induction false} WriterStep(s: State, t: Tid, pc: Pc)
    requires Enabled(s, Act(t, pc)) && HoldsWrite(pc) && s.writing && s.phase == PhaseAt(pc)
    ensures var s' := Do(s, Act(t, pc));
            && t in s'.threads && s'.threads == s.threads[t := s'.threads[t]]
            && (if HoldsWrite(s'.threads[t].pc) then s'.writing && s'.phase == PhaseAt(s'.threads[t].pc) else !s'.writing && s'.phase == Ready)
  {
  }

  /** A step by the thread that holds the write lock. */
  lemma {:induction false} WriterActs(s: State, t: Tid, pc: Pc)
    requires WriterAgrees(s) && Enabled(s, Act(t, pc)) && HoldsWrite(pc)
    ensures WriterAgrees(Do(s, Act(t, pc)))
  {
    WriterStep(s, t, pc);
    hide Do, HoldsWrite, PhaseAt;
    var s' := Do(s, Act(t, pc));
    forall u | u in s'.threads && u != t
      ensures !HoldsWrite(s'.threads[u].pc)
    {
      assert s'.threads[u] == s.threads[u];
    }
  }

  /** A step that takes the write lock, when nobody writes. */
  lemma {:induction false} WriterEnters(s: State, t: Tid)
    requires WriterAgrees(s) && Enabled(s, Act(t, LockWrite))
    ensures WriterAgrees(Do(s, Act(t, LockWrite)))
  {
    var s' := Do(s, Act(t, LockWrite));
    assert HoldsWrite(s'.threads[t].pc);
  }

  /** Any other step leaves the threads that hold the write lock, and what they hold it for, alone. */
  lemma {:induction false} WritersStay(s: State, step: Step, u: Tid)
    requires Enabled(s, step) && !(step.Act? && (HoldsWrite(step.pc) || step.pc == LockWrite)) && u in s.threads
    ensures u in Do(s, step).threads && (HoldsWrite(Do(s, step).threads[u].pc) <==> HoldsWrite(s.threads[u].pc))
    ensures HoldsWrite(s.threads[u].pc) ==> Do(s, step).threads[u] == s.threads[u]
  {
  }

  lemma {:induction false} LockStays(s: State, step: Step)
    requires Enabled(s, step) && !(step.Act? && (HoldsWrite(step.pc) || step.pc == LockWrite))
    ensures Do(s, step).threads.Keys == s.threads.Keys
    ensures Do(s, step).writing == s.writing && Do(s, step).phase == s.phase
  {
  }

  lemma {:induction false} OthersAct(s: State, step: Step)
    requires WriterAgrees(s) && Enabled(s, step) && !(step.Act? && (HoldsWrite(step.pc) || step.pc == LockWrite))
    ensures WriterAgrees(Do(s, step))
  {
    hide Do, Enabled, HoldsWrite, PhaseAt;
    var s' := Do(s, step);
    LockStays(s, step);
    forall u | u in s.threads
      ensures u in s'.threads && (HoldsWrite(s'.threads[u].pc) <==> HoldsWrite(s.threads[u].pc))
      ensures HoldsWrite(s.threads[u].pc) ==> s'.threads[u] == s.threads[u]
    {
      WritersStay(s, step, u);
    }
    if s.writing {
      var w :| w in s.threads && HoldsWrite(s.threads[w].pc);
      assert w in s'.threads;
    }
  }

  lemma {:induction false} WriterKept(s: State, step: Step)
    requires WriterAgrees(s) && Enabled(s, step)
    ensures WriterAgrees(Do(s, step))
  {
    hide WriterAgrees;
    if step.Act? && HoldsWrite(step.pc) {
      WriterActs(s, step.t, step.pc);
    } else if step.Act? && step.pc == LockWrite {
      WriterEnters(s, step.t);
    } else {
      OthersAct(s, step);
    }
  }

  lemma {:induction false} ExclusiveKept(s: State, step: Step)
    requires Exclusive(s) && Enabled(s, step)
    ensures Exclusive(Do(s, step))
  {
    hide ReadersAgree, WriterAgrees;
    ReadersKept(s, step);
    WriterKept(s, step);
  }

  /** A promise about the tables survives every step. */
  lemma {:induction false} NewerKept(s: State, step: Step, when: int, v: nat)
    requires Exclusive(s) && Enabled(s, step) && s.begun < s.time && Newer(s, when, v)
    ensures Newer(Do(s, step), when, v)
  {
    match step {
      case Act(t, pc) => assert HoldsWrite(pc) ==> s.phase == PhaseAt(pc);
      case _ =>
    }
  }

  lemma {:induction false} FreshKept(s: State, step: Step)
    requires Exclusive(s) && Fresh(s) && Enabled(s, step)
    ensures Fresh(Do(s, step))
  {
    if !s.flag {
      NewerKept(s, step, s.invalidated, s.invalidatedDb);
    }
  }

  /** A thread that does not move. */
  lemma {:induction false} PromisedStands(s: State, step: Step, th: Thread)
    requires Exclusive(s) && Fresh(s) && Enabled(s, step) && Promised(s, th)
    ensures Promised(Do(s, step), th)
  {
    hide Exclusive, Newer;
    if Newer(s, th.seen, th.seenDb) {
      NewerKept(s, step, th.seen, th.seenDb);
    }
  }

  /** The thread that moves. */
  lemma {:induction false} PromisedMoves(s: State, t: Tid, pc: Pc)
    requires Exclusive(s) && Fresh(s) && Enabled(s, Act(t, pc)) && Promised(s, s.threads[t])
    ensures Promised(Do(s, Act(t, pc)), Advance(s, s.threads[t]))
  {
    hide Exclusive;
    var th := s.threads[t];
    if Newer(s, th.seen, th.seenDb) {
      NewerKept(s, Act(t, pc), th.seen, th.seenDb);
    }
    if !s.flag {
      NewerKept(s, Act(t, pc), s.invalidated, s.invalidatedDb);
    }
  }

  lemma {:induction false} PromisedKept(s: State, step: Step, u: Tid)
    requires Exclusive(s) && Fresh(s) && Enabled(s, step) && u in s.threads && Promised(s, s.threads[u])
    ensures u in Do(s, step).threads && Promised(Do(s, step), Do(s, step).threads[u])
  {
    hide Exclusive, Fresh, Advance, Effect, Newer;
    PromisedStands(s, step, s.threads[u]);
    if step.Act? && step.t == u {
      PromisedMoves(s, u, step.pc);
    }
  }

  lemma {:induction false} InvKept(s: State, step: Step)
    requires Inv(s) && Enabled(s, step)
    ensures Inv(Do(s, step))
  {
    hide Exclusive, Fresh, Promised;
    var s' := Do(s, step);
    ExclusiveKept(s, step);
    FreshKept(s, step);
    forall u | u in s'.threads
      ensures Promised(s', s'.threads[u])
    {
      assert u in s.threads;
      PromisedKept(s, step, u);
    }
  }

  // ----- Runs

  /** `states[i]` takes `steps[i]` to `states[i + 1]`, from an initial state on. */
  ghost predicate IsRun(states: seq<State>, steps: seq<Step>) {
    && |states| == |steps| + 1 && Initial(states[0])
    && forall i :: 0 <= i < |steps| ==> Enabled(states[i], steps[i]) && states[i + 1] == Do(states[i], steps[i])
  }

  lemma {:induction false} RunInv(states: seq<State>, steps: seq<Step>, i: nat)
    requires IsRun(states, steps) && i < |states|
    ensures Inv(states[i]) && states[i].time == i
    decreases i
  {
    if i == 0 {
      InitialInv(states[0]);
    } else {
      RunInv(states, steps, i - 1);
      InvKept(states[i - 1], steps[i - 1]);
    }
  }

  /** No lookup ever sees tables that were never built, are half built, or are sorted by name. */
  lemma {:induction false} LookupsSeeWholeTables(states: seq<State>, steps: seq<Step>, i: nat, t: Tid)
    requires IsRun(states, steps) && i < |steps| && steps[i] == Act(t, Lookup)
    ensures states[i].phase == Ready && !states[i].writing && 0 <= states[i].begun
  {
    RunInv(states, steps, i);
    assert HoldsRead(states[i].threads[t].pc);
  }

  /** What a step does to the times and versions on record. */
  lemma RecordStep(s: State, step: Step)
    requires Enabled(s, step)
    ensures Do(s, step).time == s.time + 1
    ensures Do(s, step).begun == if step.Act? && step.pc == ClearFlag then s.time else s.begun
    ensures Do(s, step).invalidated == if step == Invalidate then s.time else s.invalidated
    ensures Do(s, step).invalidatedDb == if step == Invalidate then s.db else s.invalidatedDb
  {
  }

  lemma {:induction false} RunStep(states: seq<State>, steps: seq<Step>, i: nat)
    requires IsRun(states, steps) && i < |steps|
    ensures Enabled(states[i], steps[i]) && states[i + 1] == Do(states[i], steps[i])
    ensures states[0].begun == -1
  {
  }

  lemma RunLength(states: seq<State>, steps: seq<Step>)
    requires IsRun(states, steps)
    ensures |states| == |steps| + 1 && states[0].begun == -1 && states[0].time == 0
  {
  }

  /** The latest rebuild began with a step that cleared the flag. */
  lemma {:induction false} BegunIsClear(states: seq<State>, steps: seq<Step>, i: nat)
    requires IsRun(states, steps) && i < |states|
    ensures states[i].time == i
    ensures states[i].begun == -1 || (0 <= states[i].begun < i < |steps| + 1 && steps[states[i].begun].Act? && steps[states[i].begun].pc == ClearFlag)
    decreases i
  {
    hide IsRun, Do, Enabled;
    RunLength(states, steps);
    if i > 0 {
      BegunIsClear(states, steps, i - 1);
      RunStep(states, steps, i - 1);
      RecordStep(states[i - 1], steps[i - 1]);
    }
  }

  lemma InvBounds(s: State)
    requires Inv(s)
    ensures s.invalidatedDb <= s.db && s.invalidated < s.time
  {
  }

  /** An invalidation stays on record, with the version of the databases at that time. */
  lemma {:induction false} InvalidationRecorded(states: seq<State>, steps: seq<Step>, i: nat, j: nat)
    requires IsRun(states, steps) && i < j < |states| && steps[i] == Invalidate
    ensures i <= states[j].invalidated && states[i].db <= states[j].invalidatedDb
    decreases j
  {
    hide Inv, IsRun, Do, Enabled;
    RunLength(states, steps);
    RunInv(states, steps, j - 1);
    InvBounds(states[j - 1]);
    RunStep(states, steps, j - 1);
    RecordStep(states[j - 1], steps[j - 1]);
    if i < j - 1 {
      InvalidationRecorded(states, steps, i, j - 1);
    }
  }

  /** Until its next flag test, a thread remembers what it saw at the last one. */
  lemma {:induction false} TestRemembered(states: seq<State>, steps: seq<Step>, j: nat, k: nat, t: Tid)
    requires IsRun(states, steps) && j < k < |states| && steps[j] == Act(t, TestFlag)
    requires forall m :: j < m < k ==> steps[m] != Act(t, TestFlag)
    ensures t in states[k].threads
    ensures states[k].threads[t].seen == states[j].invalidated && states[k].threads[t].seenDb == states[j].invalidatedDb
    decreases k
  {
    if j < k - 1 {
      TestRemembered(states, steps, j, k - 1, t);
    }
  }

  /**
   No invalidation is lost.  A lookup whose flag test comes after an invalidation
   reads tables whose rebuild began after that invalidation, and which were read
   from the databases as they were then, or later.
   */
  lemma {:induction false} NoLostInvalidation(states: seq<State>, steps: seq<Step>, i: nat, j: nat, k: nat, t: Tid)
    requires IsRun(states, steps) && i < j < k < |steps|
    requires steps[i] == Invalidate && steps[j] == Act(t, TestFlag) && steps[k] == Act(t, Lookup)
    requires forall m :: j < m < k ==> steps[m] != Act(t, TestFlag)
    ensures var b := states[k].begun; i < b < k && steps[b].Act? && steps[b].pc == ClearFlag
    ensures states[i].db <= states[k].usersVersion && states[i].db <= states[k].groupsVersion
  {
    hide Inv, Exclusive, Fresh;
    RunInv(states, steps, k);
    LookupsSeeWholeTables(states, steps, k, t);
    InvalidationRecorded(states, steps, i, j);
    TestRemembered(states, steps, j, k, t);
    BegunIsClear(states, steps, k);
    PromiseAt(states[k], t);
  }

  lemma PromiseAt(s: State, t: Tid)
    requires Inv(s) && t in s.threads
    ensures Promised(s, s.threads[t])
  {
  }

  // ----- No deadlock

  /** As long as some call is under way, some thread can take its next step. */
  lemma {:induction false} NoDeadlock(states: seq<State>, steps: seq<Step>, i: nat, t: Tid)
    requires IsRun(states, steps) && i < |states|
    requires t in states[i].threads && states[i].threads[t].pc != Idle
    ensures exists u :: u in states[i].threads && Enabled(states[i], Act(u, states[i].threads[u].pc))
  {
    RunInv(states, steps, i);
    var s := states[i];
    if s.writing {
      var w :| w in s.threads && HoldsWrite(s.threads[w].pc);
      assert Enabled(s, Act(w, s.threads[w].pc));
    } else if s.readers != {} {
      var r :| r in s.readers;
      assert Enabled(s, Act(r, s.threads[r].pc));
    } else {
      assert Enabled(s, Act(t, s.threads[t].pc));
    }
  }

  // ----- What a call goes through

  /** A query that has tested the flag and not looked up yet. */
  predicate Pending(th: Thread) {
    th.query && th.pc !in {Idle, TestFlag, UnlockRead}
  }

  /** What one step does to a call under way. */
  lemma {:induction false} CallStep(s: State, step: Step, t: Tid)
    requires Enabled(s, step) && t in s.threads && s.threads[t].pc != Idle
    ensures t in Do(s, step).threads
    ensures !(step.Act? && step.t == t) ==> Do(s, step).threads[t] == s.threads[t]
    ensures s.threads[t].pc == TestFlag && s.threads[t].query && step == Act(t, TestFlag) ==> Pending(Do(s, step).threads[t])
    ensures Pending(s.threads[t]) && step != Act(t, Lookup) ==> Pending(Do(s, step).threads[t])
    ensures step.Act? && step.t == t ==> step.pc == s.threads[t].pc
  {
  }

  lemma CallStarts(s: State, t: Tid)
    requires Enabled(s, Call(t, true))
    ensures t in Do(s, Call(t, true)).threads
    ensures Do(s, Call(t, true)).threads[t].pc == TestFlag && Do(s, Call(t, true)).threads[t].query
  {
  }

  ghost predicate TestedBetween(steps: seq<Step>, i: nat, k: nat, t: Tid) {
    exists j :: i < j < k && j < |steps| && steps[j] == Act(t, TestFlag)
  }

  ghost predicate LookedUpBetween(steps: seq<Step>, i: nat, k: nat, t: Tid) {
    exists j, l :: i < j < l < k && l < |steps| && steps[j] == Act(t, TestFlag) && steps[l] == Act(t, Lookup)
  }

  lemma {:induction false} QueryProgress(states: seq<State>, steps: seq<Step>, i: nat, k: nat, t: Tid)
    requires IsRun(states, steps) && i < k < |states| && steps[i] == Call(t, true)
    ensures LookedUpBetween(steps, i, k, t) || t in states[k].threads
    ensures || LookedUpBetween(steps, i, k, t)
            || (states[k].threads[t].pc == TestFlag && states[k].threads[t].query)
            || (Pending(states[k].threads[t]) && TestedBetween(steps, i, k, t))
    decreases k
  {
    hide IsRun, Do, Enabled, Pending;
    RunLength(states, steps);
    RunStep(states, steps, k - 1);
    if k - 1 == i {
      CallStarts(states[i], t);
    } else {
      QueryProgress(states, steps, i, k - 1, t);
      if !LookedUpBetween(steps, i, k - 1, t) {
        NotIdle(states[k - 1].threads[t]);
        CallStep(states[k - 1], steps[k - 1], t);
      }
    }
  }

  lemma NotIdle(th: Thread)
    ensures Pending(th) || th.pc == TestFlag ==> th.pc != Idle
  {
  }

  /** A query only returns after testing the flag and then looking up, both after it was called. */
  lemma {:induction false} QueriesLookUp(states: seq<State>, steps: seq<Step>, i: nat, k: nat, t: Tid)
    requires IsRun(states, steps) && i < k < |states| && steps[i] == Call(t, true)
    requires t in states[k].threads && states[k].threads[t].pc == Idle
    ensures exists j, l :: i < j < l < k && steps[j] == Act(t, TestFlag) && steps[l] == Act(t, Lookup)
  {
    hide IsRun;
    QueryProgress(states, steps, i, k, t);
    NotIdle(states[k].threads[t]);
  }

  /** A bare init_user_cache on its way: before it withdraws a request, or with newer tables. */
  predicate Renewing(s: State, th: Thread, when: int, v: nat) {
    !th.query && (th.pc in {LockWrite, Recheck, ClearFlag} || (HoldsWrite(th.pc) && Newer(s, when, v)))
  }

  lemma {:induction false} OthersRenew(s: State, step: Step, t: Tid, when: int, v: nat)
    requires Inv(s) && Enabled(s, step) && t in s.threads && Renewing(s, s.threads[t], when, v)
    requires !(step.Act? && step.t == t)
    ensures t in Do(s, step).threads && Renewing(Do(s, step), Do(s, step).threads[t], when, v)
  {
    hide Exclusive, Promised, Newer, HoldsWrite;
    NotIdleRenewing(s, s.threads[t], when, v);
    CallStep(s, step, t);
    if Newer(s, when, v) {
      NewerKept(s, step, when, v);
    }
  }

  lemma NotIdleRenewing(s: State, th: Thread, when: int, v: nat)
    requires Renewing(s, th, when, v)
    ensures th.pc != Idle
  {
  }

  lemma {:induction false} RenewsItself(s: State, t: Tid, pc: Pc, when: int, v: nat)
    requires Inv(s) && Enabled(s, Act(t, pc)) && Renewing(s, s.threads[t], when, v) && pc != UnlockWrite
    requires when <= s.invalidated && v <= s.invalidatedDb
    ensures Renewing(Do(s, Act(t, pc)), Advance(s, s.threads[t]), when, v)
  {
    hide Exclusive, Promised;
    if Newer(s, when, v) {
      NewerKept(s, Act(t, pc), when, v);
    }
  }

  lemma MovesTo(s: State, t: Tid, pc: Pc)
    requires Enabled(s, Act(t, pc))
    ensures t in Do(s, Act(t, pc)).threads && Do(s, Act(t, pc)).threads[t] == Advance(s, s.threads[t])
  {
    hide Advance, Effect;
  }

  lemma InitStarts(s: State, t: Tid, when: int, v: nat)
    requires Enabled(s, Call(t, false))
    ensures t in Do(s, Call(t, false)).threads && Renewing(Do(s, Call(t, false)), Do(s, Call(t, false)).threads[t], when, v)
  {
    hide Newer;
  }

  /** Thread `t` gives the write lock back, with tables that were read after step `i`. */
  ghost predicate RenewedAt(states: seq<State>, steps: seq<Step>, i: nat, u: nat, t: Tid)
    requires |states| == |steps| + 1 && i < |states|
  {
    && u < |steps| && steps[u] == Act(t, UnlockWrite) && states[u].phase == Ready && i < states[u].begun
    && states[i].db <= states[u].usersVersion && states[i].db <= states[u].groupsVersion
  }

  lemma {:induction false} RenewedNow(states: seq<State>, steps: seq<Step>, i: nat, u: nat, t: Tid)
    requires |states| == |steps| + 1 && i < |states| && u < |steps| && steps[u] == Act(t, UnlockWrite)
    requires Inv(states[u]) && Enabled(states[u], steps[u]) && Renewing(states[u], states[u].threads[t], i, states[i].db)
    ensures RenewedAt(states, steps, i, u, t)
  {
    assert HoldsWrite(states[u].threads[t].pc);
  }

  lemma {:induction false} InitProgress(states: seq<State>, steps: seq<Step>, i: nat, j: nat, k: nat, t: Tid)
    requires IsRun(states, steps) && i < j < k < |states| && steps[i] == Invalidate && steps[j] == Call(t, false)
    ensures || (exists u :: j < u < k && RenewedAt(states, steps, i, u, t))
            || (t in states[k].threads && Renewing(states[k], states[k].threads[t], i, states[i].db))
    decreases k
  {
    hide IsRun, Inv, Do, Enabled, Renewing, RenewedAt;
    RunLength(states, steps);
    RunStep(states, steps, k - 1);
    if k - 1 == j {
      InitStarts(states[j], t, i, states[i].db);
    } else {
      InitProgress(states, steps, i, j, k - 1, t);
      if !(exists u :: j < u < k - 1 && RenewedAt(states, steps, i, u, t)) {
        RunInv(states, steps, k - 1);
        InvalidationRecorded(states, steps, i, k - 1);
        if steps[k - 1] == Act(t, UnlockWrite) {
          RenewedNow(states, steps, i, k - 1, t);
        } else if steps[k - 1].Act? && steps[k - 1].t == t {
          RenewsItself(states[k - 1], t, steps[k - 1].pc, i, states[i].db);
          MovesTo(states[k - 1], t, steps[k - 1].pc);
        } else {
          OthersRenew(states[k - 1], steps[k - 1], t, i, states[i].db);
        }
      }
    }
  }

  /**
   A bare init_user_cache that is called after an invalidation leaves, when it gives
   the lock back, whole tables from a rebuild that began after that invalidation.
   */
  lemma {:induction false} InitRenews(states: seq<State>, steps: seq<Step>, i: nat, j: nat, k: nat, t: Tid) returns (u: nat)
    requires IsRun(states, steps) && i < j < k < |states| && steps[i] == Invalidate && steps[j] == Call(t, false)
    requires t in states[k].threads && states[k].threads[t].pc == Idle
    ensures j < u < k && steps[u] == Act(t, UnlockWrite) && states[u].phase == Ready && i < states[u].begun
    ensures states[i].db <= states[u].usersVersion && states[i].db <= states[u].groupsVersion
  {
    hide IsRun, Renewing;
    RunLength(states, steps);
    InitProgress(states, steps, i, j, k, t);
    if !(exists u :: j < u < k && RenewedAt(states, steps, i, u, t)) {
      NotIdleRenewing(states[k], states[k].threads[t], i, states[i].db);
      assert false;
    }
    u :| j < u < k && RenewedAt(states, steps, i, u, t);
  }

  // ----- No rebuild without a reason

  /** A query waits for the write lock only if it has just found the flag set. */
  lemma {:induction false} WriteLockAsked(states: seq<State>, steps: seq<Step>, k: nat, t: Tid) returns (j: nat)
    requires IsRun(states, steps) && k < |states|
    requires t in states[k].threads && states[k].threads[t].pc == LockWrite && states[k].threads[t].query
    ensures j < k && j < |steps| && steps[j] == Act(t, TestFlag) && states[j].flag
    ensures forall m :: j < m < k ==> !(steps[m].Act? && steps[m].t == t)
    decreases k
  {
    hide IsRun, Do, Enabled;
    RunLength(states, steps);
    assert k == 0 ==> states[k].threads[t].pc == Idle by {
      NobodyCalled(states, steps);
    }
    RunStep(states, steps, k - 1);
    AskingStep(states[k - 1], steps[k - 1], t);
    if steps[k - 1] == Act(t, TestFlag) {
      j := k - 1;
    } else {
      j := WriteLockAsked(states, steps, k - 1, t);
    }
  }

  lemma NobodyCalled(states: seq<State>, steps: seq<Step>)
    requires IsRun(states, steps)
    ensures forall t :: t in states[0].threads ==> states[0].threads[t].pc == Idle
  {
  }

  /** How a query comes to wait for the write lock. */
  lemma {:induction false} AskingStep(s: State, step: Step, t: Tid)
    requires Enabled(s, step)
    requires t in Do(s, step).threads && Do(s, step).threads[t].pc == LockWrite && Do(s, step).threads[t].query
    ensures || (step == Act(t, TestFlag) && s.flag)
            || (t in s.threads && s.threads[t] == Do(s, step).threads[t] && !(step.Act? && step.t == t))
  {
  }

  /** Whoever is about to withdraw the request has found it, and nobody else withdraws it. */
  ghost predicate FlagAtClear(s: State) {
    forall t :: t in s.threads && s.threads[t].pc == ClearFlag ==> s.flag
  }

  lemma {:induction false} FlagAtClearKept(s: State, step: Step)
    requires WriterAgrees(s) && FlagAtClear(s) && Enabled(s, step)
    ensures FlagAtClear(Do(s, step))
  {
    var s' := Do(s, step);
    forall u | u in s'.threads && s'.threads[u].pc == ClearFlag
      ensures s'.flag
    {
      if step.Act? && step.t == u {
        assert s.threads[u].pc == Recheck;
      } else {
        assert u in s.threads && s'.threads[u] == s.threads[u] && s.flag;
        assert HoldsWrite(s.threads[u].pc);
      }
    }
  }

  lemma {:induction false} RunFlagAtClear(states: seq<State>, steps: seq<Step>, i: nat)
    requires IsRun(states, steps) && i < |states|
    ensures FlagAtClear(states[i])
    decreases i
  {
    hide Inv, Do, Enabled;
    if i > 0 {
      RunFlagAtClear(states, steps, i - 1);
      RunInv(states, steps, i - 1);
      InvWriter(states[i - 1]);
      RunStep(states, steps, i - 1);
      FlagAtClearKept(states[i - 1], steps[i - 1]);
    }
  }

  lemma InvWriter(s: State)
    requires Inv(s)
    ensures WriterAgrees(s)
  {
  }

  lemma FlagStep(s: State, step: Step)
    requires Enabled(s, step)
    ensures Do(s, step).flag == (step == Invalidate || (s.flag && !(step.Act? && step.pc == ClearFlag)))
  {
  }

  lemma {:induction false} FlagNeedsInvalidation(states: seq<State>, steps: seq<Step>, i: nat, j: nat) returns (k: nat)
    requires IsRun(states, steps) && i <= j < |states| && !states[i].flag && states[j].flag
    ensures i <= k < j && steps[k] == Invalidate
    decreases j
  {
    hide IsRun, Do, Enabled;
    RunLength(states, steps);
    RunStep(states, steps, j - 1);
    FlagStep(states[j - 1], steps[j - 1]);
    if steps[j - 1] == Invalidate {
      k := j - 1;
    } else {
      k := FlagNeedsInvalidation(states, steps, i, j - 1);
    }
  }

  /** Two rebuilds always have an invalidation between them, however many threads wait to rebuild. */
  lemma {:induction false} RebuildsAreAsked(states: seq<State>, steps: seq<Step>, i: nat, j: nat, t: Tid, u: Tid) returns (k: nat)
    requires IsRun(states, steps) && i < j < |steps| && steps[i] == Act(t, ClearFlag) && steps[j] == Act(u, ClearFlag)
    ensures i < k < j && steps[k] == Invalidate
  {
    hide IsRun, Do, Enabled;
    RunLength(states, steps);
    RunStep(states, steps, i);
    FlagStep(states[i], steps[i]);
    RunFlagAtClear(states, steps, j);
    RunStep(states, steps, j);
    ActorAt(states[j], u, ClearFlag);
    k := FlagNeedsInvalidation(states, steps, i + 1, j);
  }

  lemma ActorAt(s: State, t: Tid, pc: Pc)
    requires Enabled(s, Act(t, pc))
    ensures t in s.threads && s.threads[t].pc == pc
  {
  }
}
