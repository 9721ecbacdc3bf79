/**
 src/bindfs.c: what chown, chmod, create and getattr do to owners, groups and
 modes, over an abstract table of the underlying files.

 Users and groups go through the same code with different settings, so one
 `IdSettings` serves both.  The kernel's verdict on a syscall is a parameter.
 */
module Ownership {
  import opened Text
  import opened PermRules
  import opened UserMaps
  import opened Mirroring
  import MirrorSpec
  import UserCaches

  /** UID_T_MAX and GID_T_MAX: ids are bounded as if they were signed. */
  const ID_MAX: int := 0x7FFF_FFFF

  datatype Policy = Normal | Ignore | Deny

  datatype Status = Done | OutOfRange | NotPermitted | SyscallFailed

  /** Settings for users, or for groups. */
  datatype IdSettings = IdSettings(maps: Maps, offset: int, forced: Id, createFor: Id, policy: Policy)

  datatype Settings = Settings(
    users: IdSettings, groups: IdSettings, createAsUser: bool,
    chmodPolicy: Policy, chmodAllowX: bool, chmodRules: seq<Rule>,
    shownRules: seq<Rule>, mirrors: MirrorList, mirroredOnly: bool,
    hideHardLinks: bool, blockDevicesAsFiles: bool, realisticPermissions: bool)

  datatype Inode = Inode(uid: Id, gid: Id, mode: Mode, links: nat, size: int)

  /** What getattr asks the system about a file: the size of a block device, if it can be had, and access checks. */
  datatype Environment = Environment(deviceSize: Option<int>, readable: bool, writable: bool, executable: bool)

  type Path = string
  type Files = map<Path, Inode>

  // ----- Ids in both directions

  function BoundedAdd(a: int, b: int, max: int): Option<int> {
    if 0 <= a + b <= max then Some(a + b) else None
  }

  /** The id a file gets when someone asks for `u` through the mount. */
  function Stored(s: IdSettings, u: Id): Option<Id> {
    BoundedAdd(Lookup(s.maps.reverse, u, u), -s.offset, ID_MAX)
  }

  /** The id the mount shows for a file that has `f`, before any forced owner. */
  function Shown(s: IdSettings, f: Id): Option<Id> {
    BoundedAdd(Lookup(s.maps.forward, f, f), s.offset, ID_MAX)
  }

  /** The id to hand to lchown, where `NO_ID` leaves the old one. */
  function Requested(s: IdSettings, id: Id): (Status, Id) {
    if id == NO_ID then (Done, NO_ID)
    else match s.policy
      case Ignore => (Done, NO_ID)
      case Deny => (NotPermitted, NO_ID)
      case Normal => match Stored(s, id) case None => (OutOfRange, NO_ID) case Some(f) => (Done, f)
  }

  // ----- The calls, on values

  /** lchown in the underlying file system. */
  function Lchown(n: Inode, uid: Id, gid: Id): Inode {
    n.(uid := if uid == NO_ID then n.uid else uid, gid := if gid == NO_ID then n.gid else gid)
  }

  /** chmod in the underlying file system: only the low twelve bits change. */
  function SysChmod(n: Inode, mode: Mode): Inode {
    n.(mode := (n.mode & !0xFFF) | (mode & 0xFFF))
  }

  predicate IsRegular(m: Mode) {
    m & 0xF000 == 0x8000
  }

  function AfterChown(s: Settings, files: Files, path: Path, uid: Id, gid: Id, permitted: bool): (Status, Files) {
    var u := Requested(s.users, uid);
    if u.0 != Done then (u.0, files)
    else
      var g := Requested(s.groups, gid);
      if g.0 != Done then (g.0, files)
      else if u.1 == NO_ID && g.1 == NO_ID then (Done, files)
      else if path !in files || !permitted then (SyscallFailed, files)
      else (Done, files[path := Lchown(files[path], u.1, g.1)])
  }

  /** The bits a chmod would flip. */
  function Flipped(a: Mode, b: Mode): Mode {
    (a & 0xFFF) ^ (b & 0xFFF)
  }

  /** The old mode with only the execute bits of `flipped` flipped. */
  function FlipExecute(a: Mode, flipped: Mode): Mode {
    a ^ (flipped & 0x49)
  }

  /** None but execute bits are flipped. */
  predicate ExecuteOnly(flipped: Mode) {
    flipped & 0xFB6 == 0
  }

  /** The mode handed to chmod, if chmod is called at all. */
  function ChmodRequest(s: Settings, n: Inode, mode: Mode): (Status, Option<Mode>) {
    var onlyX := s.chmodAllowX && IsRegular(n.mode);
    var diff := Flipped(n.mode, mode);
    match s.chmodPolicy
    case Normal => (Done, Some(Apply(s.chmodRules, mode)))
    case Ignore => (Done, if onlyX then Some(FlipExecute(n.mode, diff)) else None)
    case Deny => if onlyX && ExecuteOnly(diff) then (Done, Some(mode)) else (NotPermitted, None)
  }

  function AfterChmod(s: Settings, files: Files, path: Path, mode: Mode, permitted: bool): (Status, Files) {
    if path !in files then
      // lstat or chmod fails, unless the call is ignored or denied without looking at the file
      (if !s.chmodAllowX && s.chmodPolicy.Ignore? then Done
       else if !s.chmodAllowX && s.chmodPolicy.Deny? then NotPermitted
       else SyscallFailed, files)
    else
      var r := ChmodRequest(s, files[path], mode);
      match r.1
      case None => (r.0, files)
      case Some(m) => if permitted then (Done, files[path := SysChmod(files[path], m)]) else (SyscallFailed, files)
  }

  /** Who a new file is given to; `NO_ID` leaves the creator's own id. */
  function NewOwner(s: IdSettings, caller: Id, default: Id): Option<Id> {
    var owner := Lookup(s.maps.reverse, caller, default);
    var shifted := if owner == NO_ID then Some(owner) else BoundedAdd(owner, -s.offset, ID_MAX);
    if shifted.None? then None
    else if s.createFor != NO_ID then Some(s.createFor) else Some(shifted.value)
  }

  /** chown_new_file: a failing chown is only logged. */
  function AfterCreate(s: Settings, files: Files, path: Path, uid: Id, gid: Id, parentSetgid: bool, permitted: bool): (Status, Files) {
    var owner := NewOwner(s.users, uid, if s.createAsUser then uid else NO_ID);
    var group := NewOwner(s.groups, gid, if s.createAsUser && !parentSetgid then gid else NO_ID);
    if owner.None? || group.None? then (OutOfRange, files)
    else if (owner.value == NO_ID && group.value == NO_ID) || path !in files || !permitted then (Done, files)
    else (Done, files[path := Lchown(files[path], owner.value, group.value)])
  }

  /** The file-type test that exempts symlinks from the permission rules. */
  predicate IsSymlink(m: Mode) {
    m & 0xA000 == 0xA000
  }

  function WithoutAccess(m: Mode): Mode {
    m & !0x1FF
  }

  predicate IsBlockDevice(m: Mode) {
    m & 0xF000 == 0x6000
  }

  /** Exchanges the type block device for the type regular file. */
  function AsRegular(m: Mode): Mode {
    m ^ 0xE000
  }

  function Without(m: Mode, bits: Mode): Mode {
    m & !bits
  }

  /** Takes away the permissions that bindfs itself does not have. */
  function Realistic(m: Mode, env: Environment): Mode {
    var r := if env.readable then m else Without(m, 0x124);
    var w := if env.writable then r else Without(r, 0x92);
    if env.executable then w else Without(w, 0x49)
  }

  /** A block device that is to be shown as a file, and cannot be opened or sized. */
  predicate Unreadable(s: Settings, n: Inode, env: Environment) {
    s.blockDevicesAsFiles && IsBlockDevice(n.mode) && (env.deviceSize.None? || env.deviceSize.value < 0)
  }

  /** The part of getattr after ownership, for callers that may see the permissions. */
  function ShownInode(s: Settings, n: Inode, env: Environment): Option<Inode> {
    var links := if s.hideHardLinks then 1 else n.links;
    if Unreadable(s, n, env) then None
    else
      var device := s.blockDevicesAsFiles && IsBlockDevice(n.mode);
      var size := if device then env.deviceSize.value else n.size;
      var mode := if device then AsRegular(n.mode) else n.mode;
      var allowed := if IsSymlink(mode) then mode else Apply(s.shownRules, mode);
      var shown := if !IsSymlink(mode) && s.realisticPermissions then Realistic(allowed, env) else allowed;
      Some(Inode(n.uid, n.gid, shown, links, size))
  }

  /** The file with the owner and group that callers see who are not mirrored. */
  function OwnedBy(s: Settings, n: Inode): Inode
    requires Shown(s.users, n.uid).Some? && Shown(s.groups, n.gid).Some?
  {
    n.(uid := if s.users.forced != NO_ID then s.users.forced else Shown(s.users, n.uid).value,
       gid := if s.groups.forced != NO_ID then s.groups.forced else Shown(s.groups, n.gid).value)
  }

  /** getattr_common without its time stamps, for a caller that is mirrored or not. */
  function Attributes(s: Settings, n: Inode, caller: Id, mirrored: bool, env: Environment): Option<Inode> {
    if Shown(s.users, n.uid).None? || Shown(s.groups, n.gid).None? then None
    else
      var owned := OwnedBy(s, n);
      if mirrored then ShownInode(s, owned.(uid := caller), env)
      else if s.mirroredOnly && caller != 0 then Some(owned.(mode := WithoutAccess(owned.mode)))
      else ShownInode(s, owned, env)
  }

  lemma NotShown(s: Settings, n: Inode, caller: Id, env: Environment)
    requires Shown(s.users, n.uid).None? || Shown(s.groups, n.gid).None?
    ensures Attributes(s, n, caller, true, env) == Attributes(s, n, caller, false, env) == None
  {
  }

  // ----- What was asked for is what is shown

  /** What every successful run of insertions leaves: mirror-image tables without identities. */
  ghost predicate Oriented(s: IdSettings) {
    Mirrored(s.maps) && NoIdentities(s.maps.forward)
  }

  /** With proper ids the tables are inverse, too. */
  ghost predicate Consistent(s: IdSettings) {
    Oriented(s) && MutuallyInverse(s.maps)
  }

  /** A shifted id may be out of range, and is then no mapping source. */
  predicate IsSource(pairs: Pairs, a: int) {
    0 <= a <= NO_ID && HasKey(pairs, a)
  }

  predicate Sends(pairs: Pairs, a: int, b: int) {
    IsSource(pairs, a) && Lookup(pairs, a, NO_ID) == b
  }

  /**
   Which ids survive the way in and out.  Both directions map first and shift then,
   so a mapping target only comes back if the mapping also holds one offset lower,
   and any other id only if one offset lower there is no mapping.
   */
  predicate ComesBack(s: IdSettings, u: Id) {
    if HasKey(s.maps.reverse, u) then
      Sends(s.maps.forward, Lookup(s.maps.reverse, u, NO_ID) - s.offset, u - s.offset)
    else
      !IsSource(s.maps.forward, u - s.offset)
  }

  lemma {:induction false} LookupHit(pairs: Pairs, u: Id, default: Id)
    ensures Lookup(pairs, u, default) == if HasKey(pairs, u) then Lookup(pairs, u, NO_ID) else default
  {
    if HasKey(pairs, u) {
      var i := FirstOccurrence(pairs, u, NO_ID);
      LookupFirst(pairs, u, default, i);
    } else {
      LookupFirst(pairs, u, default, |pairs|);
    }
  }

  lemma {:induction false} NeverItself(pairs: Pairs, u: Id)
    requires NoIdentities(pairs) && HasKey(pairs, u)
    ensures Lookup(pairs, u, NO_ID) != u
  {
    var i := FirstOccurrence(pairs, u, NO_ID);
  }

  lemma MirroredNoIdentities(m: Maps)
    requires Mirrored(m) && NoIdentities(m.forward)
    ensures NoIdentities(m.reverse)
  {
    forall i | 0 <= i < |m.reverse|
      ensures m.reverse[i].0 != m.reverse[i].1
    {
      assert m.reverse[i] == (m.forward[i].1, m.forward[i].0);
    }
  }

  /** For any map and any offset, an id that can be stored is shown again exactly under that condition. */
  lemma {:induction false} RoundTrip(s: IdSettings, u: Id)
    requires Oriented(s) && u <= ID_MAX && Stored(s, u).Some?
    ensures Shown(s, Stored(s, u).value) == Some(u) <==> ComesBack(s, u)
  {
    var f := Stored(s, u).value;
    LookupHit(s.maps.reverse, u, u);
    LookupHit(s.maps.forward, f, f);
    if HasKey(s.maps.reverse, u) {
      MirroredNoIdentities(s.maps);
      NeverItself(s.maps.reverse, u);
    }
    if HasKey(s.maps.forward, f) {
      NeverItself(s.maps.forward, f);
    }
  }

  /** Without an offset, `u` comes back exactly if it is a mapping target or not a mapping source. */
  lemma {:induction false} MapRoundTrip(s: IdSettings, u: Id)
    requires Consistent(s) && s.offset == 0 && u <= ID_MAX && Stored(s, u).Some?
    ensures Shown(s, Stored(s, u).value) == Some(u) <==>
            HasKey(s.maps.reverse, u) || !HasKey(s.maps.forward, u)
  {
    RoundTrip(s, u);
    if HasKey(s.maps.reverse, u) {
      var a := Lookup(s.maps.reverse, u, NO_ID);
      assert HasKey(s.maps.forward, a) && Lookup(s.maps.forward, a, NO_ID) == u;
    }
  }

  /** Without a map, every id in range comes back. */
  lemma {:induction false} OffsetRoundTrip(s: IdSettings, u: Id)
    requires s.maps == Maps([], []) && u <= ID_MAX && Stored(s, u).Some?
    ensures Shown(s, Stored(s, u).value) == Some(u)
  {
    RoundTrip(s, u);
  }

  /** A map whose sources are all targets (a permutation of ids) brings every id back. */
  lemma {:induction false} PermutationRoundTrip(s: IdSettings, u: Id)
    requires Consistent(s) && s.offset == 0 && u <= ID_MAX && Stored(s, u).Some?
    requires forall a :: HasKey(s.maps.forward, a) ==> HasKey(s.maps.reverse, a)
    ensures Shown(s, Stored(s, u).value) == Some(u)
  {
    MapRoundTrip(s, u);
  }

  /**
   With 1 mapped to 2 and an offset of 10, asking for 11 gives a file that shows 12,
   but 50 comes back.  With 5 mapped to 7 and 15 to 17, even the target 17 does.
   */
  lemma {:induction false} MapWithOffset()
    ensures var s := IdSettings(Maps([(1, 2)], [(2, 1)]), 10, NO_ID, NO_ID, Normal);
            Stored(s, 11) == Some(1) && Shown(s, 1) == Some(12) && !ComesBack(s, 11) && ComesBack(s, 50)
    ensures var s := IdSettings(Maps([(5, 7), (15, 17)], [(7, 5), (17, 15)]), 10, NO_ID, NO_ID, Normal);
            Stored(s, 17) == Some(5) && Shown(s, 5) == Some(17) && ComesBack(s, 17)
  {
    LookupFirst([(2, 1)], 11, 11, 1);
    LookupFirst([(1, 2)], 1, 1, 0);
    assert [(1, 2)][0].0 == 1;
    var forward, reverse := [(5, 7), (15, 17)], [(7, 5), (17, 15)];
    LookupFirst(reverse, 17, 17, 1);
    LookupFirst(reverse, 17, NO_ID, 1);
    LookupFirst(forward, 5, 5, 0);
    LookupFirst(forward, 5, NO_ID, 0);
    assert forward[0].0 == 5 && reverse[1].0 == 17;
  }

  /**
   After a successful chown to `u`, every getattr by a caller that is not mirrored
   shows `u` exactly if `u` comes back; apart from that it fails only if the group
   of the file is out of range.
   */
  lemma {:induction false} ChownThenGetattr(s: Settings, files: Files, path: Path, u: Id, gid: Id, caller: Id, env: Environment)
    requires s.users.policy.Normal? && Oriented(s.users) && s.users.forced == NO_ID && u <= ID_MAX && path in files
    requires AfterChown(s, files, path, u, gid, true).0 == Done
    ensures var n := AfterChown(s, files, path, u, gid, true).1[path];
            match Attributes(s, n, caller, false, env)
            case None => Shown(s.groups, n.gid).None? || !ComesBack(s.users, u) || Unreadable(s, n, env)
            case Some(shown) => shown.uid == u <==> ComesBack(s.users, u)
  {
    RoundTrip(s.users, u);
  }

  /** The same for groups. */
  lemma {:induction false} ChgrpThenGetattr(s: Settings, files: Files, path: Path, uid: Id, g: Id, caller: Id, env: Environment)
    requires s.groups.policy.Normal? && Oriented(s.groups) && s.groups.forced == NO_ID && g <= ID_MAX && path in files
    requires AfterChown(s, files, path, uid, g, true).0 == Done
    ensures var n := AfterChown(s, files, path, uid, g, true).1[path];
            match Attributes(s, n, caller, false, env)
            case None => Shown(s.users, n.uid).None? || !ComesBack(s.groups, g) || Unreadable(s, n, env)
            case Some(shown) => shown.gid == g <==> ComesBack(s.groups, g)
  {
    RoundTrip(s.groups, g);
  }

  /**
   A new file is given to someone because of who creates it: as that user, or by
   way of the map.  The id (uid_t)-1 stands for nobody.
   */
  predicate GivenToCreator(s: IdSettings, id: Id, asCreator: bool) {
    s.createFor == NO_ID && Lookup(s.maps.reverse, id, if asCreator then id else NO_ID) != NO_ID
  }

  lemma {:induction false} CreatorIsStored(s: IdSettings, id: Id, asCreator: bool)
    requires GivenToCreator(s, id, asCreator)
    ensures NewOwner(s, id, if asCreator then id else NO_ID) == Stored(s, id)
  {
    LookupHit(s.maps.reverse, id, id);
    LookupHit(s.maps.reverse, id, NO_ID);
  }

  /** A file created by `u`, and successfully given to it, shows `u` exactly if `u` comes back. */
  lemma {:induction false} CreateThenGetattr(
      s: Settings, files: Files, path: Path, u: Id, gid: Id, parentSetgid: bool, caller: Id, env: Environment)
    requires GivenToCreator(s.users, u, s.createAsUser)
    requires Oriented(s.users) && s.users.forced == NO_ID && u <= ID_MAX && path in files
    requires AfterCreate(s, files, path, u, gid, parentSetgid, true).0 == Done
    ensures var n := AfterCreate(s, files, path, u, gid, parentSetgid, true).1[path];
            match Attributes(s, n, caller, false, env)
            case None => Shown(s.groups, n.gid).None? || !ComesBack(s.users, u) || Unreadable(s, n, env)
            case Some(shown) => shown.uid == u <==> ComesBack(s.users, u)
  {
    CreatorIsStored(s.users, u, s.createAsUser);
    RoundTrip(s.users, u);
  }

  /** The same for groups, which a set-group-id directory passes on itself. */
  lemma {:induction false} CreateThenGetattrGroup(
      s: Settings, files: Files, path: Path, uid: Id, g: Id, parentSetgid: bool, caller: Id, env: Environment)
    requires GivenToCreator(s.groups, g, s.createAsUser && !parentSetgid)
    requires Oriented(s.groups) && s.groups.forced == NO_ID && g <= ID_MAX && path in files
    requires AfterCreate(s, files, path, uid, g, parentSetgid, true).0 == Done
    ensures var n := AfterCreate(s, files, path, uid, g, parentSetgid, true).1[path];
            match Attributes(s, n, caller, false, env)
            case None => Shown(s.users, n.uid).None? || !ComesBack(s.groups, g) || Unreadable(s, n, env)
            case Some(shown) => shown.gid == g <==> ComesBack(s.groups, g)
  {
    CreatorIsStored(s.groups, g, s.createAsUser && !parentSetgid);
    RoundTrip(s.groups, g);
  }

  // ----- The calls themselves

  class Mount {
    const settings: Settings
    var files: Files

    constructor (settings: Settings, files: Files)
      ensures this.settings == settings && this.files == files
    {
      this.settings, this.files := settings, files;
    }

    /** The switch over the policy for one of the two ids of a chown. */
    static method Resolve(s: IdSettings, id: Id) returns (status: Status, r: Id)
      ensures (status, r) == Requested(s, id)
    {
      r := id;
      if r != NO_ID {
        match s.policy {
          case Normal =>
            r := Lookup(s.maps.reverse, r, r);
            var value := BoundedAdd(r, -s.offset, ID_MAX);
            if value.None? {
              return OutOfRange, NO_ID;
            }
            r := value.value;
          case Ignore =>
            r := NO_ID;
          case Deny =>
            return NotPermitted, NO_ID;
        }
      }
      status := Done;
    }

    /** bindfs_chown */
    method Chown(path: Path, uid: Id, gid: Id, permitted: bool) returns (status: Status)
      modifies this
      ensures (status, files) == AfterChown(settings, old(files), path, uid, gid, permitted)
    {
      var u, g;
      status, u := Resolve(settings.users, uid);
      if status != Done {
        return;
      }
      status, g := Resolve(settings.groups, gid);
      if status != Done {
        return;
      }
      if u != NO_ID || g != NO_ID {
        if path !in files || !permitted {
          return SyscallFailed;
        }
        files := files[path := Lchown(files[path], u, g)];
      }
    }

    /** The chmod syscall on an existing file. */
    method TryChmod(path: Path, mode: Mode, permitted: bool) returns (status: Status)
      modifies this
      ensures path in old(files) && permitted ==> status == Done && files == old(files)[path := SysChmod(old(files)[path], mode)]
      ensures path !in old(files) || !permitted ==> status == SyscallFailed && files == old(files)
    {
      if path !in files || !permitted {
        return SyscallFailed;
      }
      files := files[path := SysChmod(files[path], mode)];
      status := Done;
    }

    /** bindfs_chmod */
    method Chmod(path: Path, mode: Mode, permitted: bool) returns (status: Status)
      modifies this
      ensures (status, files) == AfterChmod(settings, old(files), path, mode, permitted)
    {
      hide Apply, IsRegular, SysChmod, Flipped, FlipExecute, ExecuteOnly;
      var onlyExecute, diff, st: Mode := false, 0, 0;
      if settings.chmodAllowX {
        if path !in files {
          return SyscallFailed;
        }
        st := files[path].mode;
        if IsRegular(st) {
          diff := Flipped(st, mode);
          onlyExecute := true;
        }
      }
      match settings.chmodPolicy {
        case Normal =>
          status := TryChmod(path, Apply(settings.chmodRules, mode), permitted);
        case Ignore =>
          status := Done;
          if onlyExecute {
            status := TryChmod(path, FlipExecute(st, diff), permitted);
          }
        case Deny =>
          status := NotPermitted;
          if onlyExecute && ExecuteOnly(diff) {
            status := TryChmod(path, mode, permitted);
          }
      }
    }

    /**
     The stat buffer after lstat, rewritten field by field.  A caller is shown as the
     owner for being mirrored only if it is, and always if the databases serve the
     queries about it.
     */
    method Getattr(path: Path, caller: Id, cache: UserCaches.UserCache, db: Sources, env: Environment) returns (r: Option<Inode>)
      requires cache.Valid() && Fits(db)
      modifies cache, cache.block
      ensures cache.Valid() && UpToDate(cache, db)
      ensures path !in files ==> r == None
      ensures path in files ==>
        var n, mirrored := files[path], IsMirrored(settings.mirrors, cache.pw, cache.gr, caller);
        && (r == Attributes(settings, n, caller, false, env) || (mirrored && r == Attributes(settings, n, caller, true, env)))
        && (AllServed(settings.mirrors.groups, cache.pw, cache.gr, caller) ==> r == Attributes(settings, n, caller, mirrored, env))
    {
      hide Attributes, IsMirrored, AllServed;
      if path !in files {
        return None;
      }
      var st, ok := Disown(files[path]);
      if !ok {
        NotShown(settings, files[path], caller, env);
        return None;
      }
      var mirrored := false;
      NobodyMirrored(settings.mirrors, cache.pw, cache.gr, caller);
      if |settings.mirrors.users| + |settings.mirrors.groups| > 0 {
        mirrored := IsMirroredUser(settings.mirrors, cache, db, caller);
      }
      r := ShowTo(files[path], st, caller, mirrored, env);
    }

    /** The first half of getattr_common: the owner and the group, or none if one is out of range. */
    method Disown(inode: Inode) returns (st: Inode, ok: bool)
      ensures ok <==> Shown(settings.users, inode.uid).Some? && Shown(settings.groups, inode.gid).Some?
      ensures ok ==> st == OwnedBy(settings, inode)
    {
      hide Lookup;
      st := inode;
      st := st.(uid := Lookup(settings.users.maps.forward, st.uid, st.uid));
      st := st.(gid := Lookup(settings.groups.maps.forward, st.gid, st.gid));
      var value := BoundedAdd(st.uid, settings.users.offset, ID_MAX);
      if value.None? {
        return st, false;
      }
      st := st.(uid := value.value);
      value := BoundedAdd(st.gid, settings.groups.offset, ID_MAX);
      if value.None? {
        return st, false;
      }
      st := st.(gid := value.value);
      if settings.users.forced != NO_ID {
        st := st.(uid := settings.users.forced);
      }
      if settings.groups.forced != NO_ID {
        st := st.(gid := settings.groups.forced);
      }
      ok := true;
    }

    /** The middle of getattr_common: what mirroring changes. */
    method ShowTo(ghost inode: Inode, owned: Inode, caller: Id, mirrored: bool, env: Environment) returns (r: Option<Inode>)
      requires Shown(settings.users, inode.uid).Some? && Shown(settings.groups, inode.gid).Some?
      requires owned == OwnedBy(settings, inode)
      ensures r == Attributes(settings, inode, caller, mirrored, env)
    {
      hide ShownInode, WithoutAccess, Shown;
      var st := owned;
      if mirrored {
        st := st.(uid := caller);
      } else if settings.mirroredOnly && caller != 0 {
        return Some(st.(mode := WithoutAccess(st.mode)));
      }
      r := ShowMode(st, env);
    }

    /** The second half of getattr_common: links, block devices and permissions. */
    method ShowMode(inode: Inode, env: Environment) returns (r: Option<Inode>)
      ensures r == ShownInode(settings, inode, env)
    {
      hide Apply, IsSymlink, IsBlockDevice, AsRegular, Without;
      var st := inode;
      if settings.hideHardLinks {
        st := st.(links := 1);
      }
      if settings.blockDevicesAsFiles && IsBlockDevice(st.mode) {
        st := st.(mode := AsRegular(st.mode));
        if env.deviceSize.None? {
          return None;
        }
        st := st.(size := env.deviceSize.value);
        if st.size < 0 {
          return None;
        }
      }
      if !IsSymlink(st.mode) {
        st := st.(mode := Apply(settings.shownRules, st.mode));
        if settings.realisticPermissions {
          if !env.readable {
            st := st.(mode := Without(st.mode, 0x124));
          }
          if !env.writable {
            st := st.(mode := Without(st.mode, 0x92));
          }
          if !env.executable {
            st := st.(mode := Without(st.mode, 0x49));
          }
        }
      }
      r := Some(st);
    }

    /** chown_new_file */
    method ChownNewFile(path: Path, uid: Id, gid: Id, parentSetgid: bool, permitted: bool) returns (status: Status)
      modifies this
      ensures (status, files) == AfterCreate(settings, old(files), path, uid, gid, parentSetgid, permitted)
    {
      hide NewOwner;
      var owner, group := NO_ID, NO_ID;
      if settings.createAsUser {
        owner, group := uid, gid;
        if parentSetgid {
          group := NO_ID;
        }
      }
      var u := Assign(settings.users, uid, owner);
      var g := Assign(settings.groups, gid, group);
      if u.None? || g.None? {
        return OutOfRange;
      }
      if (u.value != NO_ID || g.value != NO_ID) && path in files && permitted {
        files := files[path := Lchown(files[path], u.value, g.value)];
      }
      status := Done;
    }

    /** What chown_new_file does for one of the two ids. */
    static method Assign(s: IdSettings, caller: Id, default: Id) returns (r: Option<Id>)
      ensures r == NewOwner(s, caller, default)
    {
      hide Lookup;
      var owner := Lookup(s.maps.reverse, caller, default);
      if owner != NO_ID {
        var value := BoundedAdd(owner, -s.offset, ID_MAX);
        if value.None? {
          return None;
        }
        owner := value.value;
      }
      if s.createFor != NO_ID {
        owner := s.createFor;
      }
      r := Some(owner);
    }
  }

  /** Maps filled by successful insertions are always oriented, and consistent if the ids are proper. */
  lemma {:induction false} ConfiguredMapsConsistent(run: seq<Insertion>, s: IdSettings)
    requires Succeeds(run, s.maps)
    ensures Oriented(s) && (ProperIds(run) ==> Consistent(s))
  {
    RunInvariant(run, s.maps);
    if ProperIds(run) {
      InverseOfProperIds(run, s.maps);
    }
  }

  // ----- Who getattr shows as the owner

  /** The owner shown to callers that are not mirrored. */
  function PlainOwner(s: Settings, n: Inode): Option<Id> {
    if s.users.forced != NO_ID then Some(s.users.forced) else Shown(s.users, n.uid)
  }

  /**
   A caller sees itself as the owner of a file exactly if the list of mirrored users
   and groups names it, or a group it belongs to, or if it is the owner anyway.
   */
  lemma {:induction false} MirroredSeeThemselves(
      spec: string, userUid: string -> Option<Id>, groupGid: string -> Option<Id>,
      s: Settings, pw: seq<UserCaches.PwEntry>, gr: seq<UserCaches.GrEntry>, n: Inode, caller: Id, env: Environment)
    requires MirrorSpec.Outcome(spec, userUid, groupGid, MirrorSpec.Parsed, s.mirrors.users, s.mirrors.groups)
    requires Attributes(s, n, caller, IsMirrored(s.mirrors, pw, gr, caller), env).Some?
    ensures Attributes(s, n, caller, IsMirrored(s.mirrors, pw, gr, caller), env).value.uid == caller <==>
            NamedInList(spec, userUid, groupGid, pw, gr, caller) || PlainOwner(s, n) == Some(caller)
  {
    hide NamedInList, IsMirrored, Apply;
    MirroredIffNamed(spec, userUid, groupGid, s.mirrors, pw, gr, caller);
  }

  // ----- What getattr never shows

  lemma BlockBecomesRegular(m: Mode)
    requires IsBlockDevice(m)
    ensures AsRegular(m) & 0xF000 == 0x8000 && AsRegular(m) & 0xFFF == m & 0xFFF
  {
  }

  lemma KindKept(m: Mode, n: Mode)
    requires m & !0x1FF == n & !0x1FF
    ensures m & 0xF000 == n & 0xF000
  {
    assert m & 0xF000 == (m & !0x1FF) & 0xF000;
    assert n & 0xF000 == (n & !0x1FF) & 0xF000;
  }

  lemma WithoutKeeps(m: Mode, bits: Mode, others: Mode)
    requires bits & others == 0
    ensures Without(m, bits) & others == m & others
  {
  }

  lemma WithoutTakes(m: Mode, bits: Mode)
    ensures Without(m, bits) & bits == 0
  {
  }

  lemma WithoutShrinks(m: Mode, bits: Mode, others: Mode)
    requires m & others == 0
    ensures Without(m, bits) & others == 0
  {
    assert (m & !bits) & others == (m & others) & !bits;
  }

  /** The three steps one after another. */
  lemma RealisticSteps(m: Mode, env: Environment)
    ensures Realistic(m, env) == TakeUnless(env.executable, TakeUnless(env.writable, TakeUnless(env.readable, m, 0x124), 0x92), 0x49)
  {
    hide Without;
  }

  function TakeUnless(granted: bool, m: Mode, bits: Mode): Mode {
    if granted then m else Without(m, bits)
  }

  /** The two agree on these bits. */
  predicate Same(a: Mode, b: Mode, bits: Mode) {
    a & bits == b & bits
  }

  lemma TakeKeeps(granted: bool, m: Mode, bits: Mode, others: Mode)
    requires bits & others == 0
    ensures Same(TakeUnless(granted, m, bits), m, others)
  {
    hide Without;
    WithoutKeeps(m, bits, others);
  }

  lemma SameSame(a: Mode, b: Mode, c: Mode, bits: Mode)
    requires Same(a, b, bits) && Same(b, c, bits)
    ensures Same(a, c, bits)
  {
  }

  lemma TakeTakes(granted: bool, m: Mode, bits: Mode)
    ensures !granted ==> TakeUnless(granted, m, bits) & bits == 0
  {
    hide Without;
    WithoutTakes(m, bits);
  }

  lemma TakeShrinks(granted: bool, m: Mode, bits: Mode, others: Mode)
    requires m & others == 0
    ensures TakeUnless(granted, m, bits) & others == 0
  {
    hide Without;
    WithoutShrinks(m, bits, others);
  }

  lemma {:induction false} RefusesRead(m: Mode, env: Environment)
    requires !env.readable
    ensures Realistic(m, env) & 0x124 == 0
  {
    hide *;
    RealisticSteps(m, env);
    var r := TakeUnless(env.readable, m, 0x124);
    TakeTakes(env.readable, m, 0x124);
    TakeShrinks(env.writable, r, 0x92, 0x124);
    TakeShrinks(env.executable, TakeUnless(env.writable, r, 0x92), 0x49, 0x124);
  }

  lemma {:induction false} RefusesWrite(m: Mode, env: Environment)
    requires !env.writable
    ensures Realistic(m, env) & 0x92 == 0
  {
    hide *;
    RealisticSteps(m, env);
    var r := TakeUnless(env.readable, m, 0x124);
    TakeTakes(env.writable, r, 0x92);
    TakeShrinks(env.executable, TakeUnless(env.writable, r, 0x92), 0x49, 0x92);
  }

  lemma {:induction false} RefusesExecute(m: Mode, env: Environment)
    requires !env.executable
    ensures Realistic(m, env) & 0x49 == 0
  {
    hide *;
    RealisticSteps(m, env);
    TakeTakes(env.executable, TakeUnless(env.writable, TakeUnless(env.readable, m, 0x124), 0x92), 0x49);
  }

  /** Refused permissions disappear... */
  lemma {:induction false} RealisticRefuses(m: Mode, env: Environment)
    ensures !env.readable ==> Realistic(m, env) & 0x124 == 0
    ensures !env.writable ==> Realistic(m, env) & 0x92 == 0
    ensures !env.executable ==> Realistic(m, env) & 0x49 == 0
  {
    hide *;
    if !env.readable {
      RefusesRead(m, env);
    }
    if !env.writable {
      RefusesWrite(m, env);
    }
    if !env.executable {
      RefusesExecute(m, env);
    }
  }

  /** ...and nothing else changes: the type of the file, say. */
  lemma {:induction false} RealisticKeepsKind(m: Mode, env: Environment)
    ensures Same(Realistic(m, env), m, 0xF000)
  {
    hide *;
    RealisticSteps(m, env);
    var r := TakeUnless(env.readable, m, 0x124);
    var w := TakeUnless(env.writable, r, 0x92);
    TakeKeeps(env.readable, m, 0x124, 0xF000);
    TakeKeeps(env.writable, r, 0x92, 0xF000);
    TakeKeeps(env.executable, w, 0x49, 0xF000);
    SameSame(w, r, m, 0xF000);
    SameSame(TakeUnless(env.executable, w, 0x49), w, m, 0xF000);
  }

  lemma SymlinkByKind(m: Mode)
    ensures IsSymlink(m) ==> !IsBlockDevice(m)
    ensures IsBlockDevice(m) ==> !IsSymlink(AsRegular(m))
  {
  }

  /** The file type shown: that of the file, but for block devices that are to look like regular files. */
  lemma {:induction false} ShownKind(s: Settings, n: Inode, env: Environment)
    requires AllWellFormed(s.shownRules) && ShownInode(s, n, env).Some?
    ensures ShownInode(s, n, env).value.mode & 0xF000 ==
            if s.blockDevicesAsFiles && n.mode & 0xF000 == 0x6000 then 0x8000 else n.mode & 0xF000
  {
    hide IsRegular, IsSymlink, AsRegular, Apply, Realistic, AllWellFormed;
    var device := s.blockDevicesAsFiles && IsBlockDevice(n.mode);
    var mode := if device then AsRegular(n.mode) else n.mode;
    if device {
      BlockBecomesRegular(n.mode);
    }
    if !IsSymlink(mode) {
      ApplyKeepsTheRest(s.shownRules, mode);
      RealisticKeepsKind(Apply(s.shownRules, mode), env);
      KindKept(Apply(s.shownRules, mode), mode);
    }
  }

  /** With realistic permissions, nothing is shown as allowed that the access checks refuse, symlinks apart. */
  lemma {:induction false} ShownIsRealistic(s: Settings, n: Inode, env: Environment)
    requires s.realisticPermissions && !IsSymlink(n.mode) && ShownInode(s, n, env).Some?
    ensures var m := ShownInode(s, n, env).value.mode;
            && (!env.readable ==> m & 0x124 == 0) && (!env.writable ==> m & 0x92 == 0)
            && (!env.executable ==> m & 0x49 == 0)
  {
    hide IsBlockDevice, IsSymlink, AsRegular, Apply, Realistic;
    var mode := if s.blockDevicesAsFiles && IsBlockDevice(n.mode) then AsRegular(n.mode) else n.mode;
    SymlinkByKind(n.mode);
    RealisticRefuses(Apply(s.shownRules, mode), env);
  }

  // ----- Whole runs under restrictive policies

  datatype Call = ChmodCall(path: Path, mode: Mode, permitted: bool)
                | ChownCall(path: Path, uid: Id, gid: Id, permitted: bool)

  function Perform(s: Settings, files: Files, call: Call): Files {
    match call
    case ChmodCall(path, mode, permitted) => AfterChmod(s, files, path, mode, permitted).1
    case ChownCall(path, uid, gid, permitted) => AfterChown(s, files, path, uid, gid, permitted).1
  }

  function Run(s: Settings, files: Files, calls: seq<Call>): Files
    decreases |calls|
  {
    if calls == [] then files else Perform(s, Run(s, files, calls[..|calls| - 1]), calls[|calls| - 1])
  }

  /** What the policies of `s` let happen to one file. */
  ghost predicate Respected(s: Settings, before: Inode, after: Inode) {
    && (!s.users.policy.Normal? ==> after.uid == before.uid)
    && (!s.groups.policy.Normal? ==> after.gid == before.gid)
    && (!s.chmodPolicy.Normal? ==> OnlyExecuteBits(before.mode, after.mode))
    && (!s.chmodPolicy.Normal? && !(s.chmodAllowX && IsRegular(before.mode)) ==> after.mode == before.mode)
  }

  predicate OnlyExecuteBits(a: Mode, b: Mode) {
    a & !0x49 == b & !0x49
  }

  lemma SameKind(a: Mode, b: Mode)
    requires OnlyExecuteBits(a, b)
    ensures IsRegular(a) == IsRegular(b)
  {
    assert a & 0xF000 == (a & !0x49) & 0xF000;
    assert b & 0xF000 == (b & !0x49) & 0xF000;
  }

  /** The old mode with the execute bits asked for. */
  function WithExecute(before: Mode, asked: Mode): Mode {
    (before & !0x49) | (asked & 0x49)
  }

  /** Ignoring a chmod still lets the execute bits through, and nothing else. */
  lemma IgnoredChmod(before: Mode, mode: Mode)
    ensures var diff := ((before & 0xFFF) ^ (mode & 0xFFF)) & 0x49;
            var m := (before & !0xFFF) | ((before ^ diff) & 0xFFF);
            m == WithExecute(before, mode)
  {
  }

  /** A denied chmod goes through only if nothing but execute bits would change. */
  lemma DeniedChmod(before: Mode, mode: Mode)
    requires ((before & 0xFFF) ^ (mode & 0xFFF)) & 0xFB6 == 0
    ensures (before & !0xFFF) | (mode & 0xFFF) == WithExecute(before, mode)
  {
  }

  lemma ExecuteBitsOnly(before: Mode, mode: Mode)
    ensures OnlyExecuteBits(before, WithExecute(before, mode))
  {
  }

  lemma {:induction false} RestrictedIgnore(s: Settings, n: Inode, mode: Mode)
    requires s.chmodPolicy.Ignore? && s.chmodAllowX && IsRegular(n.mode)
    ensures ChmodRequest(s, n, mode).1.Some?
    ensures SysChmod(n, ChmodRequest(s, n, mode).1.value).mode == WithExecute(n.mode, mode)
  {
    hide IsRegular;
    IgnoredChmod(n.mode, mode);
  }

  lemma {:induction false} RestrictedDeny(s: Settings, n: Inode, mode: Mode)
    requires s.chmodPolicy.Deny? && ChmodRequest(s, n, mode).1.Some?
    ensures s.chmodAllowX && IsRegular(n.mode)
    ensures SysChmod(n, ChmodRequest(s, n, mode).1.value).mode == WithExecute(n.mode, mode)
  {
    hide IsRegular;
    DeniedChmod(n.mode, mode);
  }

  /** The exact effect of a chmod that is not normal: at most the execute bits of a regular file. */
  lemma {:induction false} RestrictedChmod(s: Settings, n: Inode, mode: Mode)
    requires !s.chmodPolicy.Normal? && ChmodRequest(s, n, mode).1.Some?
    ensures s.chmodAllowX && IsRegular(n.mode)
    ensures SysChmod(n, ChmodRequest(s, n, mode).1.value).mode == WithExecute(n.mode, mode)
  {
    hide IsRegular, SysChmod;
    if s.chmodPolicy.Ignore? {
      RestrictedIgnore(s, n, mode);
    } else {
      RestrictedDeny(s, n, mode);
    }
  }

  lemma RespectedReflexive(s: Settings, n: Inode)
    ensures Respected(s, n, n)
  {
  }

  lemma {:induction false} RespectedTransitive(s: Settings, a: Inode, b: Inode, c: Inode)
    requires Respected(s, a, b) && Respected(s, b, c)
    ensures Respected(s, a, c)
  {
    hide IsRegular;
    if !s.chmodPolicy.Normal? {
      SameKind(a.mode, b.mode);
    }
  }

  lemma {:induction false} ChmodRespects(s: Settings, n: Inode, mode: Mode)
    requires ChmodRequest(s, n, mode).1.Some?
    ensures Respected(s, n, SysChmod(n, ChmodRequest(s, n, mode).1.value))
  {
    hide ChmodRequest, IsRegular, OnlyExecuteBits;
    if !s.chmodPolicy.Normal? {
      RestrictedChmod(s, n, mode);
      ExecuteBitsOnly(n.mode, mode);
    }
  }

  lemma {:induction false} LchownRespects(s: Settings, n: Inode, uid: Id, gid: Id)
    requires Requested(s.users, uid).0 == Requested(s.groups, gid).0 == Done
    ensures Respected(s, n, Lchown(n, Requested(s.users, uid).1, Requested(s.groups, gid).1))
  {
    hide Stored;
    RespectedReflexive(s, n);
  }

  lemma {:induction false} CallRespects(s: Settings, files: Files, call: Call)
    ensures Perform(s, files, call).Keys == files.Keys
    ensures forall p :: p in files ==> Respected(s, files[p], Perform(s, files, call)[p])
  {
    hide Apply, Respected, ChmodRequest, SysChmod, Requested, Lchown;
    forall p | p in files
      ensures Respected(s, files[p], Perform(s, files, call)[p])
    {
      RespectedReflexive(s, files[p]);
      match call {
        case ChmodCall(path, mode, permitted) =>
          if ChmodRequest(s, files[p], mode).1.Some? {
            ChmodRespects(s, files[p], mode);
          }
        case ChownCall(path, uid, gid, permitted) =>
          if Requested(s.users, uid).0 == Requested(s.groups, gid).0 == Done {
            LchownRespects(s, files[p], uid, gid);
          }
      }
    }
  }

  /**
   Over every run of chmod and chown calls: a policy other than normal keeps the
   owner or the group of every file for good, and lets modes change at most in the
   execute bits of regular files, and only if that is enabled.
   */
  lemma {:induction false} RunRespects(s: Settings, files: Files, calls: seq<Call>)
    ensures Run(s, files, calls).Keys == files.Keys
    ensures forall p :: p in files ==> Respected(s, files[p], Run(s, files, calls)[p])
    decreases |calls|
  {
    hide Respected, Perform;
    if calls == [] {
      forall p | p in files
        ensures Respected(s, files[p], files[p])
      {
        RespectedReflexive(s, files[p]);
      }
    } else {
      var n := |calls| - 1;
      var before := Run(s, files, calls[..n]);
      RunRespects(s, files, calls[..n]);
      CallRespects(s, before, calls[n]);
      forall p | p in files
        ensures Respected(s, files[p], Run(s, files, calls)[p])
      {
        RespectedTransitive(s, files[p], before[p], Run(s, files, calls)[p]);
      }
    }
  }
}
