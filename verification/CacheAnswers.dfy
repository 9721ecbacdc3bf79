/**
 src/userinfo.c: the tables under the protocol.  CacheProtocol says which versions of
 the databases a lookup can meet; here the tables themselves are rewritten along a
 run, by the stages of the rebuild, and the answers of lookups are judged by the
 databases of those versions.
 */
module CacheAnswers {
  import opened CacheProtocol
  import opened UserCaches
  import opened UserMaps
  import opened Text

  /** What reading the two databases gives; nothing, after an error. */
  datatype Databases = Databases(pw: seq<PwEntry>, gr: seq<GrEntry>)

  /** The databases at every version. */
  type History = nat -> Databases

  /** The stage of a rebuild that a step performs. */
  function StageOf(pc: Pc): Option<Stage> {
    match pc
    case ResetBlock => Some(Emptying)
    case ReadUsers => Some(Users)
    case SortNames => Some(ByName)
    case ReadGroups => Some(Groups)
    case SortUids => Some(ByUid)
    case SortGids => Some(ByGid)
    case _ => None
  }

  /** What a step does to the tables: what its stage does, reading the databases of the moment. */
  ghost predicate Rewrites(h: History, s: State, step: Step, t: Tables, t': Tables) {
    if step.Act? && StageOf(step.pc).Some? then
      Rewrite(StageOf(step.pc).value, h(if step.pc.ReadUsers? then s.db else s.usersVersion).pw, h(s.db).gr, t, t')
    else t' == t
  }

  const REBUILD: seq<Pc> := [ResetBlock, ReadUsers, SortNames, ReadGroups, SortUids, SortGids]

  /**
   Every rebuild that UserCache performs is such a sequence of steps: its tables from
   one stage to the next, if what it reads are the databases of the moment.
   */
  lemma {:induction false} RebuildRewrites(
      h: History, s: State, t: Tid, trace: seq<Tables>, pw: seq<PwEntry>, gr: seq<GrEntry>, k: nat)
    requires RebuildTrace(trace, pw, gr) && k < |REBUILD|
    requires REBUILD[k] == ReadUsers ==> h(s.db).pw == pw
    requires REBUILD[k] == ReadGroups ==> h(s.usersVersion).pw == pw && h(s.db).gr == gr
    ensures Rewrites(h, s, Act(t, REBUILD[k]), trace[k], trace[k + 1])
  {
    hide UidTable, GidTable, SortedByUid, SortedByGid, SortedByName;
    assert Rewrite(STAGES[k], pw, gr, trace[k], trace[k + 1]);
    assert StageOf(REBUILD[k]) == Some(STAGES[k]);
  }

  /** Who has been read is in the tables, from the version on record. */
  ghost predicate UsersAgree(h: History, s: State, t: Tables) {
    s.phase in {UsersRead, NameSorted, GroupsRead, UidSorted} || (s.phase == Ready && 0 <= s.begun) ==>
      s.usersVersion <= s.db && UidTable(t.uids, h(s.usersVersion).pw, t.bytes)
  }

  ghost predicate GroupsAgree(h: History, s: State, t: Tables) {
    s.phase in {GroupsRead, UidSorted} || (s.phase == Ready && 0 <= s.begun) ==>
      s.groupsVersion <= s.db && GidTable(t.gids, h(s.groupsVersion).gr, h(s.usersVersion).pw, t.bytes)
  }

  ghost predicate OrderAgrees(s: State, t: Tables) {
    && (s.phase == UidSorted || (s.phase == Ready && 0 <= s.begun) ==> SortedByUid(t.uids))
    && (s.phase == Ready && 0 <= s.begun ==> SortedByGid(t.gids))
  }

  ghost predicate TablesAgree(h: History, s: State, t: Tables) {
    UsersAgree(h, s, t) && GroupsAgree(h, s, t) && OrderAgrees(s, t)
  }

  /** The writer finds the tables as far as it has come. */
  lemma PhaseOfWriter(s: State, t: Tid, pc: Pc)
    requires Inv(s) && Enabled(s, Act(t, pc)) && HoldsWrite(pc)
    ensures s.phase == PhaseAt(pc)
  {
  }

  /** What the steps of a rebuild do to the state; other steps leave what matters here alone. */
  lemma {:induction false} StageFields(s: State, t: Tid, pc: Pc)
    requires Inv(s) && Enabled(s, Act(t, pc)) && StageOf(pc).Some?
    ensures var s' := Do(s, Act(t, pc));
            && s.phase == PhaseAt(pc) && s'.db == s.db && s'.begun == s.begun
            && s'.usersVersion == (if pc.ReadUsers? then s.db else s.usersVersion)
            && s'.groupsVersion == (if pc.ReadGroups? then s.db else s.groupsVersion)
            && s'.phase == match pc
                           case ResetBlock => Emptied
                           case ReadUsers => UsersRead
                           case SortNames => NameSorted
                           case ReadGroups => GroupsRead
                           case SortUids => UidSorted
                           case _ => Ready
  {
    PhaseOfWriter(s, t, pc);
  }

  lemma {:induction false} OtherFields(s: State, step: Step)
    requires Enabled(s, step) && !(step.Act? && StageOf(step.pc).Some?)
    ensures var s' := Do(s, step);
            && s'.usersVersion == s.usersVersion && s'.groupsVersion == s.groupsVersion && s.db <= s'.db
            && ((s'.phase == s.phase && s'.begun == s.begun) || s'.phase == Stale)
  {
  }

  lemma {:induction false} OtherKept(h: History, s: State, step: Step, t: Tables)
    requires Enabled(s, step) && !(step.Act? && StageOf(step.pc).Some?) && TablesAgree(h, s, t)
    ensures TablesAgree(h, Do(s, step), t)
  {
    OtherFields(s, step);
    hide Do, UidTable, GidTable, SortedByUid, SortedByGid;
  }

  lemma {:induction false} UsersKept(h: History, s: State, step: Step, t: Tables, t': Tables)
    requires Inv(s) && Enabled(s, step) && step.Act? && StageOf(step.pc).Some? && UsersAgree(h, s, t) && Rewrites(h, s, step, t, t')
    ensures UsersAgree(h, Do(s, step), t')
  {
    hide Inv, Do, Enabled, UidTable, GidTable, SortedByUid, SortedByGid, SortedByName;
    StageFields(s, step.t, step.pc);
    match step.pc {
      case SortNames =>
        UidTablePermuted(t.uids, t'.uids, h(s.usersVersion).pw, t.bytes);
      case ReadGroups =>
        UidTableGrows(t.uids, h(s.usersVersion).pw, t.bytes, t'.bytes);
      case SortUids =>
        UidTablePermuted(t.uids, t'.uids, h(s.usersVersion).pw, t.bytes);
      case _ =>
    }
  }

  lemma {:induction false} GroupsKept(h: History, s: State, step: Step, t: Tables, t': Tables)
    requires Inv(s) && Enabled(s, step) && step.Act? && StageOf(step.pc).Some? && GroupsAgree(h, s, t) && Rewrites(h, s, step, t, t')
    ensures GroupsAgree(h, Do(s, step), t')
  {
    hide Inv, Do, Enabled, UidTable, GidTable, SortedByUid, SortedByGid, SortedByName;
    StageFields(s, step.t, step.pc);
    if step.pc.SortGids? {
      GidTablePermuted(t.gids, t'.gids, h(s.groupsVersion).gr, h(s.usersVersion).pw, t.bytes);
    }
  }

  lemma {:induction false} OrderKept(h: History, s: State, step: Step, t: Tables, t': Tables)
    requires Inv(s) && Enabled(s, step) && step.Act? && StageOf(step.pc).Some? && OrderAgrees(s, t) && Rewrites(h, s, step, t, t')
    ensures OrderAgrees(Do(s, step), t')
  {
    hide Inv, Do, Enabled, UidTable, GidTable, SortedByUid, SortedByGid, SortedByName;
    StageFields(s, step.t, step.pc);
  }

  lemma {:induction false} TablesKept(h: History, s: State, step: Step, t: Tables, t': Tables)
    requires Inv(s) && Enabled(s, step) && TablesAgree(h, s, t) && Rewrites(h, s, step, t, t')
    ensures TablesAgree(h, Do(s, step), t')
  {
    hide Inv, Do, Enabled, StageOf, UsersAgree, GroupsAgree, OrderAgrees;
    if step.Act? && StageOf(step.pc).Some? {
      UsersKept(h, s, step, t, t');
      GroupsKept(h, s, step, t, t');
      OrderKept(h, s, step, t, t');
    } else {
      OtherKept(h, s, step, t);
    }
  }

  /** A run, and the tables along it. */
  ghost predicate IsTableRun(h: History, states: seq<State>, steps: seq<Step>, tables: seq<Tables>) {
    && IsRun(states, steps) && |tables| == |states|
    && forall i :: 0 <= i < |steps| ==> Rewrites(h, states[i], steps[i], tables[i], tables[i + 1])
  }

  lemma {:induction false} RunTables(h: History, states: seq<State>, steps: seq<Step>, tables: seq<Tables>, i: nat)
    requires IsTableRun(h, states, steps, tables) && i < |states|
    ensures TablesAgree(h, states[i], tables[i])
    decreases i
  {
    hide Inv, TablesAgree, Rewrites;
    if i == 0 {
      InitialAgrees(h, states[0], tables[0]);
    } else {
      RunInv(states, steps, i - 1);
      RunTables(h, states, steps, tables, i - 1);
      TablesKept(h, states[i - 1], steps[i - 1], tables[i - 1], tables[i]);
    }
  }

  lemma InitialAgrees(h: History, s: State, t: Tables)
    requires Initial(s)
    ensures TablesAgree(h, s, t)
  {
  }

  /**
   The answer of a lookup whose flag test follows an invalidation: a yes is true of
   databases no older than that invalidation, and so is every answer, if they serve
   the query.
   */
  lemma {:induction false} AnswersAreFresh(
      h: History, states: seq<State>, steps: seq<Step>, tables: seq<Tables>, i: nat, j: nat, k: nat, t: Tid,
      uid: Id, gid: Id, answer: bool) returns (v: nat, w: nat)
    requires IsTableRun(h, states, steps, tables) && i < j < k < |steps|
    requires steps[i] == Invalidate && steps[j] == Act(t, TestFlag) && steps[k] == Act(t, Lookup)
    requires forall m :: j < m < k ==> steps[m] != Act(t, TestFlag)
    requires CanAnswer(tables[k], uid, gid, answer)
    ensures states[i].db <= v <= states[k].db && states[i].db <= w <= states[k].db
    ensures answer ==> Member(h(v).pw, h(w).gr, uid, gid)
    ensures Served(h(v).pw, h(w).gr, uid, gid) ==>
            (answer <==> Member(h(v).pw, h(w).gr, uid, gid))
  {
    hide Inv, CanAnswer, Member, Served, UidTable, GidTable, SortedByUid, SortedByGid;
    v, w := states[k].usersVersion, states[k].groupsVersion;
    NoLostInvalidation(states, steps, i, j, k, t);
    LookupsSeeWholeTables(states, steps, k, t);
    RunTables(h, states, steps, tables, k);
    assert Built(tables[k], h(v).pw, h(w).gr);
    AnswersRight(tables[k], h(v).pw, h(w).gr, uid, gid, answer);
  }

  /** In particular, if the databases have not changed since, the answer is right now. */
  lemma {:induction false} AnswersAreCurrent(
      h: History, states: seq<State>, steps: seq<Step>, tables: seq<Tables>, i: nat, j: nat, k: nat, t: Tid,
      uid: Id, gid: Id, answer: bool)
    requires IsTableRun(h, states, steps, tables) && i < j < k < |steps| && states[k].db == states[i].db
    requires steps[i] == Invalidate && steps[j] == Act(t, TestFlag) && steps[k] == Act(t, Lookup)
    requires forall m :: j < m < k ==> steps[m] != Act(t, TestFlag)
    requires CanAnswer(tables[k], uid, gid, answer)
    ensures var now := h(states[k].db);
            && (answer ==> Member(now.pw, now.gr, uid, gid))
            && (Served(now.pw, now.gr, uid, gid) ==> (answer <==> Member(now.pw, now.gr, uid, gid)))
  {
    hide IsTableRun, CanAnswer, Member, Served;
    var v, w := AnswersAreFresh(h, states, steps, tables, i, j, k, t, uid, gid, answer);
  }
}
