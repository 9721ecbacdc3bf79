/**
 What chown, chmod, create and getattr come to, in terms of the settings, the id maps
 and single bits.  Ownership follows the code; this module says what a user of the
 mount can rely on.
 */
module CallMeaning {
  import opened Text
  import opened PermRules
  import opened UserMaps
  import opened Ownership

  // ----- Ids

  /** Through these pairs, `u` becomes `v`: by its first pair, or by having none. */
  ghost predicate MapsTo(pairs: Pairs, u: Id, v: int) {
    (exists i :: FirstAt(pairs, u, i) && pairs[i].1 == v) || (!HasKey(pairs, u) && v == u)
  }

  lemma {:induction false} LookupMapsTo(pairs: Pairs, u: Id, v: int)
    ensures Lookup(pairs, u, u) == v <==> MapsTo(pairs, u, v)
  {
    LookupIs(pairs, u, u);
    if HasKey(pairs, u) {
      var i := FirstOccurrence(pairs, u, u);
      assert FirstAt(pairs, u, i);
    }
  }

  /** The id a file gets is the one `u` is mapped to, less the offset, if that is in range. */
  lemma {:induction false} StoredIff(s: IdSettings, u: Id, f: Id)
    ensures Stored(s, u) == Some(f) <==> f <= 0x7FFF_FFFF && MapsTo(s.maps.reverse, u, f + s.offset)
  {
    LookupMapsTo(s.maps.reverse, u, f + s.offset);
  }

  /** The id shown for a file is the one its own is mapped to, plus the offset, if that is in range. */
  lemma {:induction false} ShownIff(s: IdSettings, f: Id, u: Id)
    ensures Shown(s, f) == Some(u) <==> u <= 0x7FFF_FFFF && MapsTo(s.maps.forward, f, u - s.offset)
  {
    LookupMapsTo(s.maps.forward, f, u - s.offset);
  }

  // ----- chown

  predicate Denied(s: IdSettings, id: Id) {
    id != 0xFFFF_FFFF && s.policy.Deny?
  }

  predicate Unstorable(s: IdSettings, id: Id) {
    id != 0xFFFF_FFFF && s.policy.Normal? && Stored(s, id).None?
  }

  predicate Changes(s: IdSettings, id: Id) {
    id != 0xFFFF_FFFF && s.policy.Normal? && Stored(s, id).Some?
  }

  lemma RequestedCases(s: IdSettings, id: Id)
    ensures Requested(s, id).0 == (if Denied(s, id) then NotPermitted else if Unstorable(s, id) then OutOfRange else Done)
    ensures Changes(s, id) ==> Requested(s, id).1 != NO_ID && Requested(s, id).1 == Stored(s, id).value
    ensures !Changes(s, id) ==> Requested(s, id).1 == NO_ID
    ensures !(Denied(s, id) && Unstorable(s, id)) && !(Changes(s, id) && (Denied(s, id) || Unstorable(s, id)))
  {
    hide Lookup;
  }

  /**
   The status of a chown: a denied or unstorable user comes before the group; an
   ignored request succeeds; and the system call decides only if something changes.
   */
  lemma {:induction false} ChownStatus(s: Settings, files: Files, path: Path, uid: Id, gid: Id, permitted: bool)
    ensures var status := AfterChown(s, files, path, uid, gid, permitted).0;
            && (status == NotPermitted <==> Denied(s.users, uid) || (!Unstorable(s.users, uid) && Denied(s.groups, gid)))
            && (status == OutOfRange <==> Unstorable(s.users, uid) || (!Denied(s.users, uid) && Unstorable(s.groups, gid)))
            && (status == SyscallFailed <==>
                && !Denied(s.users, uid) && !Unstorable(s.users, uid) && !Denied(s.groups, gid) && !Unstorable(s.groups, gid)
                && (Changes(s.users, uid) || Changes(s.groups, gid)) && (path !in files || !permitted))
  {
    RequestedCases(s.users, uid);
    RequestedCases(s.groups, gid);
    hide Requested, Denied, Unstorable, Changes;
  }

  /** What a chown does: nothing unless it succeeds, and then only to the ids asked for and not ignored. */
  lemma {:induction false} ChownMeaning(s: Settings, files: Files, path: Path, uid: Id, gid: Id, permitted: bool)
    ensures var r := AfterChown(s, files, path, uid, gid, permitted);
            && (r.0 != Done ==> r.1 == files)
            && r.1.Keys == files.Keys && (forall p :: p in files && p != path ==> r.1[p] == files[p])
            && (r.0 == Done && path in files ==>
                r.1[path] == files[path].(uid := if Changes(s.users, uid) then Stored(s.users, uid).value else files[path].uid,
                                          gid := if Changes(s.groups, gid) then Stored(s.groups, gid).value else files[path].gid))
  {
    RequestedCases(s.users, uid);
    RequestedCases(s.groups, gid);
    hide Requested, Denied, Unstorable, Changes;
  }

  // ----- create

  /** The creator decides about the owner: by a mapping, or by being made the owner; and not in favour of (uid_t)-1. */
  ghost predicate ByCreator(s: IdSettings, id: Id, asCreator: bool) {
    (HasKey(s.maps.reverse, id) || asCreator) && !MapsTo(s.maps.reverse, id, 0xFFFF_FFFF)
  }

  lemma {:induction false} NewOwnerCases(s: IdSettings, id: Id, asCreator: bool)
    ensures var owner := NewOwner(s, id, if asCreator then id else NO_ID);
            && (owner.None? <==> ByCreator(s, id, asCreator) && Stored(s, id).None?)
            && (owner.Some? ==>
                  owner.value ==
                  if s.createFor != 0xFFFF_FFFF then s.createFor
                  else if ByCreator(s, id, asCreator) then Stored(s, id).value else NO_ID)
  {
    LookupHit(s.maps.reverse, id, id);
    LookupHit(s.maps.reverse, id, NO_ID);
    LookupMapsTo(s.maps.reverse, id, NO_ID);
    hide MapsTo, HasKey, Lookup;
  }

  /**
   Who owns a new file: whoever new files are for, or else whoever the creator is
   mapped to, less the offset.  An id out of range is an error, and then nothing
   changes; a chown that the system refuses is not.
   */
  lemma {:induction false} CreateMeaning(
      s: Settings, files: Files, path: Path, uid: Id, gid: Id, parentSetgid: bool, permitted: bool)
    ensures var r := AfterCreate(s, files, path, uid, gid, parentSetgid, permitted);
            var byUser, byGroup := ByCreator(s.users, uid, s.createAsUser), ByCreator(s.groups, gid, s.createAsUser && !parentSetgid);
            && (r.0 == OutOfRange <==> (byUser && Stored(s.users, uid).None?) || (byGroup && Stored(s.groups, gid).None?))
            && (r.0 == OutOfRange || r.0 == Done)
            && r.1.Keys == files.Keys && (forall p :: p in files && p != path ==> r.1[p] == files[p])
            && (r.0 == OutOfRange || !permitted ==> r.1 == files)
            && (r.0 == Done && permitted && path in files ==>
                r.1[path] == files[path].(
                  uid := if s.users.createFor != 0xFFFF_FFFF then s.users.createFor
                         else if byUser then Stored(s.users, uid).value else files[path].uid,
                  gid := if s.groups.createFor != 0xFFFF_FFFF then s.groups.createFor
                         else if byGroup then Stored(s.groups, gid).value else files[path].gid))
  {
    NewOwnerCases(s.users, uid, s.createAsUser);
    NewOwnerCases(s.groups, gid, s.createAsUser && !parentSetgid);
    StoredInRange(s.users, uid);
    StoredInRange(s.groups, gid);
    hide NewOwner, ByCreator, Stored;
  }

  lemma StoredInRange(s: IdSettings, u: Id)
    ensures Stored(s, u).Some? ==> Stored(s, u).value != NO_ID
  {
    hide Lookup;
  }

  // ----- chmod

  /** Type and upper bits of one word, permissions of another. */
  function Spliced(upper: Mode, lower: Mode): Mode {
    (upper & !0xFFF) | (lower & 0xFFF)
  }

  lemma {:induction false} SplicedTriad(upper: Mode, lower: Mode, who: Class)
    ensures Triad(Spliced(upper, lower), who) == Triad(lower, who)
  {
    match who {
      case User => assert (((upper & !0xFFF) | (lower & 0xFFF)) >> 6) & 7 == (lower >> 6) & 7;
      case Group => assert (((upper & !0xFFF) | (lower & 0xFFF)) >> 3) & 7 == (lower >> 3) & 7;
      case Other => assert ((upper & !0xFFF) | (lower & 0xFFF)) & 7 == lower & 7;
    }
  }

  lemma SplicedSetId(upper: Mode, lower: Mode)
    ensures Spliced(upper, lower) & 0xE00 == lower & 0xE00
  {
  }

  lemma SplicedKind(upper: Mode, lower: Mode)
    ensures Spliced(upper, lower) & !0xFFF == upper & !0xFFF
  {
  }

  lemma SetIdBits(m: Mode, n: Mode)
    requires m & !0x1FF == n & !0x1FF
    ensures m & 0xE00 == n & 0xE00
  {
    assert m & 0xE00 == (m & !0x1FF) & 0xE00;
    assert n & 0xE00 == (n & !0x1FF) & 0xE00;
  }

  /**
   An ordinary chmod gives each class what the chmod rules make of the permissions
   asked for, with the set-id and sticky bits asked for and the file type the file has.
   */
  lemma {:induction false} NormalChmod(s: Settings, files: Files, path: Path, mode: Mode, permitted: bool)
    requires s.chmodPolicy.Normal? && AllWellFormed(s.chmodRules)
    ensures var r := AfterChmod(s, files, path, mode, permitted);
            if path !in files || !permitted then r == (SyscallFailed, files)
            else
              && r.0 == Done && r.1.Keys == files.Keys && (forall p :: p in files && p != path ==> r.1[p] == files[p])
              && r.1[path] == files[path].(mode := r.1[path].mode)
              && (forall who :: Triad(r.1[path].mode, who) == Meaning(s.chmodRules, mode, who))
              && r.1[path].mode & 0xE00 == mode & 0xE00 && r.1[path].mode & !0xFFF == files[path].mode & !0xFFF
  {
    hide *;
    if path in files && permitted {
      var n, m := files[path], Apply(s.chmodRules, mode);
      ChmodStores(s, files, path, mode);
      ApplyKeepsTheRest(s.chmodRules, mode);
      SetIdBits(m, mode);
      SplicedSetId(n.mode, m);
      SplicedKind(n.mode, m);
      forall who
        ensures Triad(Spliced(n.mode, m), who) == Meaning(s.chmodRules, mode, who)
      {
        ChainMeaning(s.chmodRules, mode, who);
        SplicedTriad(n.mode, m, who);
      }
    } else {
      ChmodFails(s, files, path, mode, permitted);
    }
  }

  lemma ChmodStores(s: Settings, files: Files, path: Path, mode: Mode)
    requires s.chmodPolicy.Normal? && path in files
    ensures AfterChmod(s, files, path, mode, true) ==
            (Done, files[path := files[path].(mode := Spliced(files[path].mode, Apply(s.chmodRules, mode)))])
  {
    hide *;
    var m := Apply(s.chmodRules, mode);
    ChmodByRequest(s, files, path, mode, true);
    OrdinaryRequest(s, files[path], mode);
    SysChmodSplices(files[path], m);
  }

  lemma OrdinaryRequest(s: Settings, n: Inode, mode: Mode)
    requires s.chmodPolicy.Normal?
    ensures ChmodRequest(s, n, mode) == (Done, Some(Apply(s.chmodRules, mode)))
  {
    hide Apply, IsRegular, FlipExecute, ExecuteOnly, Flipped;
  }

  lemma SysChmodSplices(n: Inode, m: Mode)
    ensures SysChmod(n, m) == n.(mode := Spliced(n.mode, m))
  {
  }

  lemma ChmodFails(s: Settings, files: Files, path: Path, mode: Mode, permitted: bool)
    requires s.chmodPolicy.Normal? && (path !in files || !permitted)
    ensures AfterChmod(s, files, path, mode, permitted) == (SyscallFailed, files)
  {
    hide Apply, IsRegular, FlipExecute, ExecuteOnly, Flipped, SysChmod;
  }

  /** The exception for regular files is enabled, and this is one. */
  predicate MayExecute(s: Settings, mode: Mode) {
    s.chmodAllowX && mode & 0xF000 == 0x8000
  }

  /** Of the twelve bits that chmod changes, the two differ at most in the execute bits. */
  predicate OnlyExecuteDiffers(a: Mode, b: Mode) {
    (a ^ b) & 0xFB6 == 0
  }

  /**
   A chmod that is ignored or denied: at most the execute bits of a regular file
   change, if that is enabled, and to what was asked for; ignoring lets any request
   do that, denying only one that asks for nothing else.
   */
  lemma {:induction false} RestrictedChmodMeaning(s: Settings, files: Files, path: Path, mode: Mode, permitted: bool)
    requires !s.chmodPolicy.Normal? && path in files
    ensures var r, n := AfterChmod(s, files, path, mode, permitted), files[path];
            if MayExecute(s, n.mode) && (s.chmodPolicy.Ignore? || OnlyExecuteDiffers(n.mode, mode)) then
              r == if permitted then (Done, files[path := n.(mode := WithExecute(n.mode, mode))]) else (SyscallFailed, files)
            else r == (if s.chmodPolicy.Ignore? then Done else NotPermitted, files)
  {
    hide *;
    var n := files[path];
    FlippedBits(n.mode, mode);
    RegularBits(s, n.mode);
    RequestCases(s, n, mode);
    ChmodByRequest(s, files, path, mode, permitted);
    if ChmodRequest(s, n, mode).1.Some? {
      RestrictedChmod(s, n, mode);
      SysChmodKeeps(n, ChmodRequest(s, n, mode).1.value);
    }
  }

  lemma ChmodByRequest(s: Settings, files: Files, path: Path, mode: Mode, permitted: bool)
    requires path in files
    ensures var r := ChmodRequest(s, files[path], mode);
            AfterChmod(s, files, path, mode, permitted) ==
            match r.1
            case None => (r.0, files)
            case Some(m) => if permitted then (Done, files[path := SysChmod(files[path], m)]) else (SyscallFailed, files)
  {
    hide ChmodRequest, SysChmod;
  }

  lemma SysChmodKeeps(n: Inode, m: Mode)
    ensures SysChmod(n, m) == n.(mode := SysChmod(n, m).mode)
  {
  }

  lemma RegularBits(s: Settings, mode: Mode)
    ensures MayExecute(s, mode) <==> s.chmodAllowX && IsRegular(mode)
  {
  }

  lemma FlippedBits(a: Mode, b: Mode)
    ensures ExecuteOnly(Flipped(a, b)) <==> OnlyExecuteDiffers(a, b)
  {
  }

  lemma RequestCases(s: Settings, n: Inode, mode: Mode)
    requires !s.chmodPolicy.Normal?
    ensures ChmodRequest(s, n, mode).1.Some? <==>
            s.chmodAllowX && IsRegular(n.mode) && (s.chmodPolicy.Ignore? || ExecuteOnly(Flipped(n.mode, mode)))
    ensures ChmodRequest(s, n, mode).0 == if ChmodRequest(s, n, mode).1.Some? || s.chmodPolicy.Ignore? then Done else NotPermitted
  {
    hide IsRegular, ExecuteOnly, Flipped, FlipExecute, Apply;
  }

  /** A missing file: whether that is noticed depends on whether the call looks at the file at all. */
  lemma ChmodMissing(s: Settings, files: Files, path: Path, mode: Mode, permitted: bool)
    requires path !in files
    ensures AfterChmod(s, files, path, mode, permitted) ==
            (if s.chmodAllowX || s.chmodPolicy.Normal? then SyscallFailed
             else if s.chmodPolicy.Ignore? then Done else NotPermitted, files)
  {
  }

  // ----- getattr

  /** The permissions that the access checks refuse, if they are asked. */
  function Refused(s: Settings, env: Environment): Mode {
    if !s.realisticPermissions then 0
    else AnyOf(Unless(env.readable, 4), Unless(env.writable, 2), Unless(env.executable, 1))
  }

  lemma {:induction false} WithoutRead(m: Mode, who: Class)
    ensures Triad(Without(m, 0x124), who) == Without(Triad(m, who), 4)
  {
    match who { case User => case Group => case Other => }
  }

  lemma {:induction false} WithoutWrite(m: Mode, who: Class)
    ensures Triad(Without(m, 0x92), who) == Without(Triad(m, who), 2)
  {
    match who { case User => case Group => case Other => }
  }

  lemma {:induction false} WithoutExecute(m: Mode, who: Class)
    ensures Triad(Without(m, 0x49), who) == Without(Triad(m, who), 1)
  {
    match who { case User => case Group => case Other => }
  }

  function Unless(granted: bool, perm: Mode): Mode {
    if granted then 0 else perm
  }

  lemma NothingTaken(t: Mode)
    ensures Without(t, 0) == t
  {
  }

  lemma TakenTriad(granted: bool, m: Mode, who: Class)
    ensures Triad(TakeUnless(granted, m, 0x124), who) == Without(Triad(m, who), Unless(granted, 4))
    ensures Triad(TakeUnless(granted, m, 0x92), who) == Without(Triad(m, who), Unless(granted, 2))
    ensures Triad(TakeUnless(granted, m, 0x49), who) == Without(Triad(m, who), Unless(granted, 1))
  {
    hide Triad, Without;
    WithoutRead(m, who);
    WithoutWrite(m, who);
    WithoutExecute(m, who);
    NothingTaken(Triad(m, who));
  }

  function AnyOf(a: Mode, b: Mode, c: Mode): Mode {
    a | b | c
  }

  lemma TakenTogether(t: Mode, a: Mode, b: Mode, c: Mode)
    ensures Without(Without(Without(t, a), b), c) == Without(t, AnyOf(a, b, c))
  {
  }

  lemma {:induction false} RealisticTriad(m: Mode, env: Environment, who: Class)
    ensures Triad(Realistic(m, env), who) ==
            Without(Triad(m, who), AnyOf(Unless(env.readable, 4), Unless(env.writable, 2), Unless(env.executable, 1)))
  {
    hide *;
    RealisticSteps(m, env);
    var r := TakeUnless(env.readable, m, 0x124);
    var w := TakeUnless(env.writable, r, 0x92);
    TakenTriad(env.readable, m, who);
    TakenTriad(env.writable, r, who);
    TakenTriad(env.executable, w, who);
    TakenTogether(Triad(m, who), Unless(env.readable, 4), Unless(env.writable, 2), Unless(env.executable, 1));
  }

  lemma {:induction false} RealisticKeepsRest(m: Mode, env: Environment)
    ensures SameAbove(Realistic(m, env), m)
  {
    hide *;
    RealisticSteps(m, env);
    var r := TakeUnless(env.readable, m, 0x124);
    var w := TakeUnless(env.writable, r, 0x92);
    TakeKeeps(env.readable, m, 0x124, !0x1FF);
    TakeKeeps(env.writable, r, 0x92, !0x1FF);
    TakeKeeps(env.executable, w, 0x49, !0x1FF);
    SameSame(w, r, m, !0x1FF);
    SameSame(TakeUnless(env.executable, w, 0x49), w, m, !0x1FF);
    SameIsSame(Realistic(m, env), m);
  }

  /** The two differ in permissions only. */
  predicate SameAbove(a: Mode, b: Mode) {
    a & !0x1FF == b & !0x1FF
  }

  lemma SameIsSame(a: Mode, b: Mode)
    ensures Same(a, b, !0x1FF) <==> SameAbove(a, b)
  {
  }

  /** Shown as a regular file, being a block device. */
  predicate AsFile(s: Settings, mode: Mode) {
    s.blockDevicesAsFiles && mode & 0xF000 == 0x6000
  }

  /** The mode before the permission rules: a block device may get the type of a regular file. */
  function BaseMode(s: Settings, mode: Mode): Mode {
    if AsFile(s, mode) then mode ^ 0xE000 else mode
  }

  lemma BlockFlipped(mode: Mode)
    requires mode & 0xF000 == 0x6000
    ensures (mode ^ 0xE000) & 0xF000 == 0x8000 && (mode ^ 0xE000) & 0xFFF == mode & 0xFFF
  {
  }

  lemma BlockIsNoLink(mode: Mode)
    requires mode & 0xF000 == 0x6000
    ensures !IsSymlink(mode) && !IsSymlink(mode ^ 0xE000)
  {
  }

  lemma BaseKind(s: Settings, mode: Mode)
    ensures BaseKindOf(AsFile(s, mode), mode, BaseMode(s, mode))
  {
    if AsFile(s, mode) {
      BlockFlipped(mode);
    }
  }

  predicate BaseKindOf(asFile: bool, mode: Mode, base: Mode) {
    base & 0xF000 == (if asFile then 0x8000 else mode & 0xF000) && base & 0xFFF == mode & 0xFFF
  }

  lemma BaseLink(s: Settings, mode: Mode)
    ensures IsSymlink(BaseMode(s, mode)) <==> IsSymlink(mode)
    ensures IsSymlink(mode) ==> BaseMode(s, mode) == mode
  {
    hide IsSymlink;
    if AsFile(s, mode) {
      BlockIsNoLink(mode);
    }
  }

  lemma {:induction false} ShownCases(s: Settings, n: Inode, env: Environment)
    ensures ShownInode(s, n, env).None? <==> AsFile(s, n.mode) && (env.deviceSize.None? || env.deviceSize.value < 0)
    ensures ShownInode(s, n, env).Some? ==>
              ShownInode(s, n, env).value ==
              n.(links := if s.hideHardLinks then 1 else n.links, size := if AsFile(s, n.mode) then env.deviceSize.value else n.size,
                 mode := if IsSymlink(BaseMode(s, n.mode)) then BaseMode(s, n.mode) else ShownMode(s, BaseMode(s, n.mode), env))
  {
    hide Apply, Realistic, IsSymlink;
  }

  /** The mode a file that is not a symlink is shown with. */
  function ShownMode(s: Settings, base: Mode, env: Environment): Mode {
    if s.realisticPermissions then Realistic(Apply(s.shownRules, base), env) else Apply(s.shownRules, base)
  }

  lemma {:induction false} ShownPermissions(s: Settings, base: Mode, env: Environment, who: Class)
    requires AllWellFormed(s.shownRules)
    ensures Triad(ShownMode(s, base, env), who) == Without(Meaning(s.shownRules, base, who), Refused(s, env))
  {
    hide *;
    ModeBySettings(s, base, env);
    ChainMeaning(s.shownRules, base, who);
    RealisticTriad(Apply(s.shownRules, base), env, who);
    NothingTaken(Triad(Apply(s.shownRules, base), who));
  }

  lemma {:induction false} ShownUpperBits(s: Settings, base: Mode, env: Environment)
    requires AllWellFormed(s.shownRules)
    ensures SameAbove(ShownMode(s, base, env), base)
  {
    hide *;
    ModeBySettings(s, base, env);
    RulesKeepAbove(s.shownRules, base);
    RealisticKeepsRest(Apply(s.shownRules, base), env);
    AboveTwice(ShownMode(s, base, env), Apply(s.shownRules, base), base);
  }

  lemma RulesKeepAbove(rules: seq<Rule>, base: Mode)
    requires AllWellFormed(rules)
    ensures SameAbove(Apply(rules, base), base)
  {
    hide Apply, AllWellFormed;
    ApplyKeepsTheRest(rules, base);
  }

  lemma AboveTwice(a: Mode, b: Mode, c: Mode)
    requires (a == b || SameAbove(a, b)) && SameAbove(b, c)
    ensures SameAbove(a, c)
  {
  }

  lemma ModeBySettings(s: Settings, base: Mode, env: Environment)
    ensures ShownMode(s, base, env) == if s.realisticPermissions then Realistic(Apply(s.shownRules, base), env) else Apply(s.shownRules, base)
    ensures Refused(s, env) ==
            if s.realisticPermissions then AnyOf(Unless(env.readable, 4), Unless(env.writable, 2), Unless(env.executable, 1)) else 0
  {
    hide Realistic, Apply, Unless, AnyOf;
  }

  /** A caller that may see nothing: mirroring is for others only, and it is not root. */
  predicate ShutOut(s: Settings, caller: Id, mirrored: bool) {
    !mirrored && s.mirroredOnly && caller != 0
  }

  /** The owner a caller sees. */
  function OwnerFor(s: Settings, n: Inode, caller: Id, mirrored: bool): Id
    requires Shown(s.users, n.uid).Some?
  {
    if mirrored then caller else if s.users.forced != 0xFFFF_FFFF then s.users.forced else Shown(s.users, n.uid).value
  }

  /** When getattr fails, and otherwise everything it shows but the permissions. */
  lemma {:induction false} GetattrShows(s: Settings, n: Inode, caller: Id, mirrored: bool, env: Environment)
    ensures var r := Attributes(s, n, caller, mirrored, env);
            && (r.None? <==>
                || Shown(s.users, n.uid).None? || Shown(s.groups, n.gid).None?
                || (!ShutOut(s, caller, mirrored) && AsFile(s, n.mode) && (env.deviceSize.None? || env.deviceSize.value < 0)))
            && (r.Some? ==>
                && r.value.uid == OwnerFor(s, n, caller, mirrored)
                && r.value.gid == (if s.groups.forced != 0xFFFF_FFFF then s.groups.forced else Shown(s.groups, n.gid).value)
                && r.value.links == (if s.hideHardLinks && !ShutOut(s, caller, mirrored) then 1 else n.links)
                && r.value.size == if AsFile(s, n.mode) && !ShutOut(s, caller, mirrored) then env.deviceSize.value else n.size)
  {
    hide ShownInode, WithoutAccess, Shown, AsFile, BaseMode, Apply, Realistic, IsSymlink;
    if Shown(s.users, n.uid).Some? && Shown(s.groups, n.gid).Some? {
      var owned := if mirrored then OwnedBy(s, n).(uid := caller) else OwnedBy(s, n);
      ShownCases(s, owned, env);
    }
  }

  /** Type, set-id and sticky bits are kept, but that a block device may become a regular file. */
  predicate KeepsKind(s: Settings, mode: Mode, m: Mode) {
    m & 0xF000 == (if AsFile(s, mode) then 0x8000 else mode & 0xF000) && m & 0xE00 == mode & 0xE00
  }

  /**
   The mode shown to callers that are not shut out: each class has what the permission
   rules make of the file's own permissions, less exactly what the access checks
   refuse.  Symlinks keep their mode.
   */
  ghost predicate OpenMode(s: Settings, mode: Mode, env: Environment, m: Mode) {
    if mode & 0xA000 == 0xA000 then m == mode
    else
      && (forall who :: Triad(m, who) == Without(Meaning(s.shownRules, BaseMode(s, mode), who), Refused(s, env)))
      && KeepsKind(s, mode, m)
  }

  lemma {:induction false} ShownKeepsKind(s: Settings, mode: Mode, env: Environment)
    requires AllWellFormed(s.shownRules)
    ensures KeepsKind(s, mode, ShownMode(s, BaseMode(s, mode), env))
  {
    hide *;
    BaseKind(s, mode);
    ShownUpperBits(s, BaseMode(s, mode), env);
    UpperBits(s, ShownMode(s, BaseMode(s, mode), env), BaseMode(s, mode), mode);
  }

  lemma {:induction false} ShownModeIsOpen(s: Settings, mode: Mode, env: Environment)
    requires AllWellFormed(s.shownRules) && !IsSymlink(mode)
    ensures OpenMode(s, mode, env, ShownMode(s, BaseMode(s, mode), env))
  {
    hide AllWellFormed, Triad, Without, Meaning, Refused, ShownMode, BaseMode, KeepsKind;
    ShownKeepsKind(s, mode, env);
    forall who
      ensures Triad(ShownMode(s, BaseMode(s, mode), env), who) == Without(Meaning(s.shownRules, BaseMode(s, mode), who), Refused(s, env))
    {
      ShownPermissions(s, BaseMode(s, mode), env, who);
    }
  }

  lemma LinkIsOpen(s: Settings, mode: Mode, env: Environment)
    requires IsSymlink(mode)
    ensures OpenMode(s, mode, env, mode)
  {
  }

  /** The mode getattr shows; callers that are shut out see no permissions at all. */
  lemma {:induction false} GetattrMode(s: Settings, n: Inode, caller: Id, mirrored: bool, env: Environment)
    requires AllWellFormed(s.shownRules) && Attributes(s, n, caller, mirrored, env).Some?
    ensures var m := Attributes(s, n, caller, mirrored, env).value.mode;
            if ShutOut(s, caller, mirrored) then NoPermissions(n.mode, m)
            else OpenMode(s, n.mode, env, m)
  {
    hide *;
    AttributesMode(s, n, caller, mirrored, env);
    ShutOutBits(n.mode);
    BaseLink(s, n.mode);
    if IsSymlink(n.mode) {
      LinkIsOpen(s, n.mode, env);
    } else {
      ShownModeIsOpen(s, n.mode, env);
    }
  }

  lemma {:induction false} AttributesMode(s: Settings, n: Inode, caller: Id, mirrored: bool, env: Environment)
    requires Attributes(s, n, caller, mirrored, env).Some?
    ensures Attributes(s, n, caller, mirrored, env).value.mode ==
            if ShutOut(s, caller, mirrored) then WithoutAccess(n.mode)
            else if IsSymlink(BaseMode(s, n.mode)) then BaseMode(s, n.mode) else ShownMode(s, BaseMode(s, n.mode), env)
  {
    hide ShownInode, Shown, BaseMode, ShownMode, IsSymlink, AsFile, WithoutAccess;
    var owned := if mirrored then OwnedBy(s, n).(uid := caller) else OwnedBy(s, n);
    ShownCases(s, owned, env);
  }

  /** The mode without its permissions. */
  predicate NoPermissions(mode: Mode, m: Mode) {
    m & 0x1FF == 0 && m & !0x1FF == mode & !0x1FF
  }

  lemma ShutOutBits(mode: Mode)
    ensures NoPermissions(mode, WithoutAccess(mode))
  {
  }

  lemma UpperBits(s: Settings, m: Mode, base: Mode, mode: Mode)
    requires SameAbove(m, base) && BaseKindOf(AsFile(s, mode), mode, base)
    ensures KeepsKind(s, mode, m)
  {
    hide AsFile;
    SameParts(m, base);
    SameSetId(base, mode);
  }

  lemma SameParts(a: Mode, b: Mode)
    requires SameAbove(a, b)
    ensures a & 0xF000 == b & 0xF000 && a & 0xE00 == b & 0xE00
  {
    assert a & 0xF000 == (a & !0x1FF) & 0xF000 && b & 0xF000 == (b & !0x1FF) & 0xF000;
    assert a & 0xE00 == (a & !0x1FF) & 0xE00 && b & 0xE00 == (b & !0x1FF) & 0xE00;
  }

  lemma SameSetId(a: Mode, b: Mode)
    requires a & 0xFFF == b & 0xFFF
    ensures a & 0xE00 == b & 0xE00
  {
    assert a & 0xE00 == (a & 0xFFF) & 0xE00 && b & 0xE00 == (b & 0xFFF) & 0xE00;
  }
}
