/**
 src/bindfs.c: which callers see themselves as the owner of every file.  The list of
 mirrored users and groups comes from MirrorSpec, and who belongs to a group from
 UserCaches.
 */
module Mirroring {
  import opened Text
  import opened UserMaps
  import opened UserCaches
  import opened MirrorSpec

  /** The arrays the list of mirrored users and groups is parsed into. */
  datatype MirrorList = MirrorList(users: seq<Id>, groups: seq<Id>)

  /** The caller is on the list, or in a group on it, by the databases. */
  ghost predicate IsMirrored(list: MirrorList, pw: seq<PwEntry>, gr: seq<GrEntry>, caller: Id) {
    caller in list.users || InSomeGroup(list.groups, pw, gr, caller)
  }

  ghost predicate InSomeGroup(groups: seq<Id>, pw: seq<PwEntry>, gr: seq<GrEntry>, caller: Id) {
    exists gid :: gid in groups && Member(pw, gr, caller, gid)
  }

  /** The databases serve every query about this caller. */
  ghost predicate AllServed(groups: seq<Id>, pw: seq<PwEntry>, gr: seq<GrEntry>, caller: Id) {
    forall gid :: gid in groups ==> Served(pw, gr, caller, gid)
  }

  /** What reading the databases would give now. */
  datatype Sources = Sources(pw: seq<PwEntry>, pwFailed: bool, gr: seq<GrEntry>, grFailed: bool)

  ghost predicate Fits(db: Sources) {
    NameBytes(db.pw) + MemberBytes(db.gr) <= 0x7FFF_FFFF
  }

  /** The cache holds what it held, or what has been read, if it was to be rebuilt. */
  twostate predicate UpToDate(cache: UserCache, db: Sources)
    reads cache
  {
    || (cache.pw == old(cache.pw) && cache.gr == old(cache.gr))
    || (old(cache.rebuildRequested) && cache.pw == (if db.pwFailed then [] else db.pw) && cache.gr == (if db.grFailed then [] else db.gr))
  }

  method OnList(ids: seq<Id>, id: Id) returns (found: bool)
    ensures found <==> id in ids
  {
    var i := 0;
    while i < |ids|
      invariant 0 <= i <= |ids| && id !in ids[..i]
    {
      if ids[i] == id {
        return true;
      }
      i := i + 1;
    }
    found := false;
  }

  /** Every query has been answered with no: the groups the databases serve do not have the caller. */
  ghost predicate DeniedAll(groups: seq<Id>, pw: seq<PwEntry>, gr: seq<GrEntry>, caller: Id) {
    forall gid :: gid in groups && Served(pw, gr, caller, gid) ==> !Member(pw, gr, caller, gid)
  }

  lemma DeniedOneMore(groups: seq<Id>, i: nat, pw: seq<PwEntry>, gr: seq<GrEntry>, caller: Id)
    requires i < |groups| && DeniedAll(groups[..i], pw, gr, caller)
    requires Served(pw, gr, caller, groups[i]) ==> !Member(pw, gr, caller, groups[i])
    ensures DeniedAll(groups[..i + 1], pw, gr, caller)
  {
    hide Served, Member;
    assert groups[..i + 1] == groups[..i] + [groups[i]];
  }

  /** The loop over the groups of is_mirrored_user. */
  method InGroups(groups: seq<Id>, cache: UserCache, db: Sources, caller: Id) returns (found: bool)
    requires cache.Valid() && Fits(db)
    modifies cache, cache.block
    ensures cache.Valid() && UpToDate(cache, db)
    ensures if found then InSomeGroup(groups, cache.pw, cache.gr, caller) else DeniedAll(groups, cache.pw, cache.gr, caller)
  {
    hide Member, Served, Built, DeniedAll;
    DeniedNone(cache.pw, cache.gr, caller);
    assert groups[..0] == [];
    var i := 0;
    while i < |groups|
      invariant 0 <= i <= |groups| && cache.Valid() && UpToDate(cache, db)
      invariant i > 0 ==> !cache.rebuildRequested
      invariant i == 0 ==> cache.pw == old(cache.pw) && cache.gr == old(cache.gr) && cache.rebuildRequested == old(cache.rebuildRequested)
      invariant DeniedAll(groups[..i], cache.pw, cache.gr, caller)
    {
      found := cache.UserBelongsToGroup(caller, groups[i], db.pw, db.pwFailed, db.gr, db.grFailed);
      if found {
        return;
      }
      if i == 0 {
        DeniedNone(cache.pw, cache.gr, caller);
        assert groups[..0] == [];
      }
      DeniedOneMore(groups, i, cache.pw, cache.gr, caller);
      i := i + 1;
    }
    assert groups[..i] == groups;
    found := false;
  }

  lemma DeniedNone(pw: seq<PwEntry>, gr: seq<GrEntry>, caller: Id)
    ensures DeniedAll([], pw, gr, caller)
  {
  }

  /** is_mirrored_user: a yes is right for every database, and so is a no if they serve the queries. */
  method IsMirroredUser(list: MirrorList, cache: UserCache, db: Sources, caller: Id) returns (mirrored: bool)
    requires cache.Valid() && Fits(db)
    modifies cache, cache.block
    ensures cache.Valid() && UpToDate(cache, db)
    ensures mirrored ==> IsMirrored(list, cache.pw, cache.gr, caller)
    ensures AllServed(list.groups, cache.pw, cache.gr, caller) ==> (mirrored <==> IsMirrored(list, cache.pw, cache.gr, caller))
  {
    hide Member, Served, Built;
    mirrored := OnList(list.users, caller);
    if !mirrored {
      mirrored := InGroups(list.groups, cache, db, caller);
    }
  }

  /** Without a list, mirroring is not enabled and nobody is mirrored. */
  lemma NobodyMirrored(list: MirrorList, pw: seq<PwEntry>, gr: seq<GrEntry>, caller: Id)
    ensures |list.users| + |list.groups| == 0 ==> !IsMirrored(list, pw, gr, caller)
  {
  }

  /** What a list of names says about a caller: one of its users, or in one of its groups. */
  ghost predicate NamedInList(
      spec: string, userUid: string -> Option<Id>, groupGid: string -> Option<Id>,
      pw: seq<PwEntry>, gr: seq<GrEntry>, caller: Id)
  {
    var tokens := Split(spec, SEPARATORS);
    || (exists name :: name in UserNames(tokens) && userUid(name) == Some(caller))
    || (exists name :: name in GroupNames(tokens) && NamesGroupOf(name, groupGid, pw, gr, caller))
  }

  ghost predicate NamesGroupOf(name: string, groupGid: string -> Option<Id>, pw: seq<PwEntry>, gr: seq<GrEntry>, caller: Id) {
    groupGid(name).Some? && Member(pw, gr, caller, groupGid(name).value)
  }

  lemma {:induction false} ResolvedHas(names: seq<string>, resolve: string -> Option<Id>, ids: seq<Id>, id: Id)
    requires Resolved(names, resolve, ids)
    ensures id in ids <==> exists name :: name in names && resolve(name) == Some(id)
  {
    if id in ids {
      var i :| 0 <= i < |ids| && ids[i] == id;
      assert names[i] in names;
    }
    if name :| name in names && resolve(name) == Some(id) {
      var i :| 0 <= i < |names| && names[i] == name;
      assert ids[i] == id;
    }
  }

  /** The arrays that parsing leaves mirror exactly the users, and members of the groups, that the list names. */
  lemma {:induction false} MirroredIffNamed(
      spec: string, userUid: string -> Option<Id>, groupGid: string -> Option<Id>, list: MirrorList,
      pw: seq<PwEntry>, gr: seq<GrEntry>, caller: Id)
    requires Outcome(spec, userUid, groupGid, Parsed, list.users, list.groups)
    ensures IsMirrored(list, pw, gr, caller) <==> NamedInList(spec, userUid, groupGid, pw, gr, caller)
  {
    var tokens := Split(spec, SEPARATORS);
    hide Resolved, Split, UserNames, GroupNames, Member;
    ResolvedHas(UserNames(tokens), userUid, list.users, caller);
    if gid :| gid in list.groups && Member(pw, gr, caller, gid) {
      ResolvedHas(GroupNames(tokens), groupGid, list.groups, gid);
      var name :| name in GroupNames(tokens) && groupGid(name) == Some(gid);
      assert NamesGroupOf(name, groupGid, pw, gr, caller);
    }
    if name :| name in GroupNames(tokens) && NamesGroupOf(name, groupGid, pw, gr, caller) {
      ResolvedHas(GroupNames(tokens), groupGid, list.groups, groupGid(name).value);
    }
  }
}
