/**
 src/userinfo.c: the index behind "is this user a member of that group?".

 The passwd and group databases are read into two tables whose entries point into
 one memory block: user names as C strings, member lists as packed uids.  The user
 table is sorted by name while group members are looked up, then by uid; the group
 table by gid; and queries search both.
 */
module UserCaches {
  import opened MemoryBlocks
  import opened UserMaps
  import opened Sorting

  // ----- The databases

  datatype PwEntry = PwEntry(name: Name, uid: Id, gid: Id)
  datatype GrEntry = GrEntry(gid: Id, members: seq<Name>)

  /** Membership as the databases define it: by primary group, or by name in a group's list. */
  ghost predicate Member(pw: seq<PwEntry>, gr: seq<GrEntry>, uid: Id, gid: Id) {
    exists p :: p in pw && p.uid == uid && (p.gid == gid || Listed(p.name, gr, gid))
  }

  ghost predicate Listed(name: Name, gr: seq<GrEntry>, gid: Id) {
    exists g :: g in gr && g.gid == gid && name in g.members
  }

  /** Entries that describe the same user or the same group do not contradict each other. */
  ghost predicate Unambiguous(pw: seq<PwEntry>, gr: seq<GrEntry>) {
    && (forall p, q :: p in pw && q in pw && p.name == q.name ==> p.uid == q.uid)
    && (forall p, q :: p in pw && q in pw && p.uid == q.uid ==> p.gid == q.gid)
    && (forall g, h :: g in gr && h in gr && g.gid == h.gid ==> SameMembers(g, h))
  }

  ghost predicate SameMembers(g: GrEntry, h: GrEntry) {
    forall n :: n in g.members <==> n in h.members
  }

  ghost predicate Exists(name: Name, pw: seq<PwEntry>) {
    exists p :: p in pw && p.name == name
  }

  ghost predicate HasUid(name: Name, uid: Id, pw: seq<PwEntry>) {
    exists p :: p in pw && p.name == name && p.uid == uid
  }

  ghost predicate AlwaysPrimary(pw: seq<PwEntry>, uid: Id, gid: Id) {
    forall p :: p in pw && p.uid == uid ==> p.gid == gid
  }

  /** Some name in the list exists and belongs to this uid only. */
  ghost predicate SurelyListed(g: GrEntry, pw: seq<PwEntry>, uid: Id) {
    exists n :: n in g.members && Exists(n, pw) && forall p :: p in pw && p.name == n ==> p.uid == uid
  }

  ghost predicate GroupExists(gr: seq<GrEntry>, gid: Id) {
    exists g :: g in gr && g.gid == gid
  }

  ghost function Uids(pw: seq<PwEntry>): set<Id> {
    set p | p in pw :: p.uid
  }

  ghost function Gids(gr: seq<GrEntry>): set<Id> {
    set g | g in gr :: g.gid
  }

  /** Whichever entry is found for the uid has this primary group; and one is found, the uids being in order. */
  ghost predicate ServedByPrimary(pw: seq<PwEntry>, uid: Id, gid: Id) {
    Ranked(Uids(pw)) && AlwaysPrimary(pw, uid, gid)
  }

  /** Whichever entry is found for the group lists a name that can only mean this uid; and one is found. */
  ghost predicate ServedByList(pw: seq<PwEntry>, gr: seq<GrEntry>, uid: Id, gid: Id) {
    Ranked(Gids(gr)) && GroupExists(gr, gid) && forall g :: g in gr && g.gid == gid ==> SurelyListed(g, pw, uid)
  }

  /** When a query can rely on the databases: if the membership holds, one of the two ways must lead to it. */
  ghost predicate Served(pw: seq<PwEntry>, gr: seq<GrEntry>, uid: Id, gid: Id) {
    Member(pw, gr, uid, gid) ==> ServedByPrimary(pw, uid, gid) || ServedByList(pw, gr, uid, gid)
  }

  /** In particular when the databases do not contradict themselves and their ids have an order. */
  lemma {:induction false} UnambiguousServed(pw: seq<PwEntry>, gr: seq<GrEntry>, uid: Id, gid: Id)
    requires Unambiguous(pw, gr) && Ranked(Uids(pw)) && Ranked(Gids(gr))
    ensures Served(pw, gr, uid, gid)
  {
    hide Ranked;
    if Member(pw, gr, uid, gid) && !AlwaysPrimary(pw, uid, gid) {
      var p :| p in pw && p.uid == uid && (p.gid == gid || Listed(p.name, gr, gid));
      var g :| g in gr && g.gid == gid && p.name in g.members;
      forall h | h in gr && h.gid == gid
        ensures SurelyListed(h, pw, uid)
      {
        assert SameMembers(g, h);
        assert p.name in h.members && Exists(p.name, pw);
      }
    }
  }

  /** They have one, for instance, if no id exceeds the largest 32-bit int. */
  lemma SmallIdsRanked(pw: seq<PwEntry>, gr: seq<GrEntry>)
    requires (forall p :: p in pw ==> p.uid < 0x8000_0000) && (forall g :: g in gr ==> g.gid < 0x8000_0000)
    ensures Ranked(Uids(pw)) && Ranked(Gids(gr))
  {
    hide Ranked;
    ComparableRanked(Uids(pw));
    ComparableRanked(Gids(gr));
  }

  // ----- Packed data

  /** A uid_t in memory, least significant byte first. */
  function Encode(u: Id): (b: seq<byte>)
    ensures |b| == 4
  {
    var v := u / 256;
    var w := v / 256;
    [u % 256, v % 256, w % 256, w / 256]
  }

  function Decode(b: seq<byte>): Id
    requires |b| == 4
  {
    b[0] as int + 256 * (b[1] as int + 256 * (b[2] as int + 256 * b[3] as int))
  }

  lemma DecodeEncode(u: Id)
    ensures Decode(Encode(u)) == u
  {
  }

  /** The C string that starts at an offset. */
  function NameAt(bytes: seq<byte>, offset: nat): (n: Name)
    decreases |bytes| - offset
  {
    if offset >= |bytes| || bytes[offset] == 0 then [] else [bytes[offset]] + NameAt(bytes, offset + 1)
  }

  /** The array of `count` uids that starts at an offset. */
  function UidsAt(bytes: seq<byte>, offset: nat, count: nat): (uids: seq<Id>)
    requires offset + 4 * count <= |bytes|
    ensures |uids| == count
  {
    if count == 0 then [] else UidsAt(bytes, offset, count - 1) + [Decode(bytes[offset + 4 * count - 4..offset + 4 * count])]
  }

  lemma {:induction false} NameStored(bytes: seq<byte>, name: Name, rest: seq<byte>)
    ensures NameAt(bytes + name + [0] + rest, |bytes|) == name
    decreases |name|
  {
    var all := bytes + name + [0] + rest;
    if name != [] {
      NameStored(bytes + [name[0]], name[1..], rest);
      assert all == bytes + [name[0]] + name[1..] + [0] + rest;
      assert all[|bytes|] == name[0] && name[0] in name;
    }
  }

  lemma {:induction false} UidsStable(bytes: seq<byte>, bytes': seq<byte>, offset: nat, count: nat)
    requires offset + 4 * count <= |bytes| && bytes <= bytes'
    ensures UidsAt(bytes', offset, count) == UidsAt(bytes, offset, count)
    decreases count
  {
    if count > 0 {
      UidsStable(bytes, bytes', offset, count - 1);
      assert bytes'[offset + 4 * count - 4..offset + 4 * count] == bytes[offset + 4 * count - 4..offset + 4 * count];
    }
  }

  // ----- Table entries

  datatype UidEntry = UidEntry(uid: Id, mainGid: Id, nameOffset: nat)
  datatype GidEntry = GidEntry(gid: Id, uidCount: nat, uidsOffset: nat)

  /** The name at the entry's offset ends inside the block. */
  ghost predicate Stored(e: UidEntry, bytes: seq<byte>) {
    e.nameOffset + |NameAt(bytes, e.nameOffset)| < |bytes|
  }

  /** The passwd entry a table entry stands for. */
  function View(e: UidEntry, bytes: seq<byte>): PwEntry {
    PwEntry(NameAt(bytes, e.nameOffset), e.uid, e.mainGid)
  }

  lemma {:induction false} NameStable(bytes: seq<byte>, bytes': seq<byte>, offset: nat)
    requires offset + |NameAt(bytes, offset)| < |bytes| && bytes <= bytes'
    ensures NameAt(bytes', offset) == NameAt(bytes, offset)
    decreases |bytes| - offset
  {
    if bytes[offset] != 0 {
      NameStable(bytes, bytes', offset + 1);
    }
  }

  /** The user table holds exactly the passwd entries. */
  ghost predicate UidTable(cache: seq<UidEntry>, pw: seq<PwEntry>, bytes: seq<byte>) {
    && (forall e :: e in cache ==> Stored(e, bytes) && View(e, bytes) in pw)
    && (forall p :: p in pw ==> exists e :: e in cache && View(e, bytes) == p)
  }

  /** The uids packed for a member list: in order, one for every name that exists. */
  ghost predicate Lists(uids: seq<Id>, members: seq<Name>, pw: seq<PwEntry>)
    decreases |members|
  {
    if members == [] then uids == []
    else
      var n := |members| - 1;
      if !Exists(members[n], pw) then Lists(uids, members[..n], pw)
      else uids != [] && HasUid(members[n], uids[|uids| - 1], pw) && Lists(uids[..|uids| - 1], members[..n], pw)
  }

  /** Some user with this uid is in the list. */
  ghost predicate Named(u: Id, members: seq<Name>, pw: seq<PwEntry>) {
    exists n :: n in members && HasUid(n, u, pw)
  }

  lemma {:induction false} ListsNamed(uids: seq<Id>, members: seq<Name>, pw: seq<PwEntry>, u: Id)
    requires Lists(uids, members, pw) && u in uids
    ensures Named(u, members, pw)
    decreases |members|
  {
    var n := |members| - 1;
    if Exists(members[n], pw) && u == uids[|uids| - 1] {
      assert members[n] in members;
    } else {
      ListsNamed(if Exists(members[n], pw) then uids[..|uids| - 1] else uids, members[..n], pw, u);
    }
  }

  lemma {:induction false} ListsPacked(uids: seq<Id>, members: seq<Name>, pw: seq<PwEntry>, name: Name) returns (u: Id)
    requires Lists(uids, members, pw) && name in members && Exists(name, pw)
    ensures u in uids && HasUid(name, u, pw)
    decreases |members|
  {
    var n := |members| - 1;
    if name == members[n] {
      u := uids[|uids| - 1];
    } else {
      u := ListsPacked(if Exists(members[n], pw) then uids[..|uids| - 1] else uids, members[..n], pw, name);
    }
  }

  ghost predicate GidRow(e: GidEntry, g: GrEntry, pw: seq<PwEntry>, bytes: seq<byte>) {
    && e.gid == g.gid && e.uidsOffset + 4 * e.uidCount <= |bytes|
    && Lists(UidsAt(bytes, e.uidsOffset, e.uidCount), g.members, pw)
  }

  /** The group table holds exactly the group entries. */
  ghost predicate GidTable(cache: seq<GidEntry>, gr: seq<GrEntry>, pw: seq<PwEntry>, bytes: seq<byte>) {
    && (forall e :: e in cache ==> HasGroup(e, gr, pw, bytes))
    && (forall g :: g in gr ==> HasEntry(g, cache, pw, bytes))
  }

  ghost predicate HasGroup(e: GidEntry, gr: seq<GrEntry>, pw: seq<PwEntry>, bytes: seq<byte>) {
    exists g :: g in gr && GidRow(e, g, pw, bytes)
  }

  ghost predicate HasEntry(g: GrEntry, cache: seq<GidEntry>, pw: seq<PwEntry>, bytes: seq<byte>) {
    exists e :: e in cache && GidRow(e, g, pw, bytes)
  }

  lemma {:induction false} UidTableGrows(cache: seq<UidEntry>, pw: seq<PwEntry>, bytes: seq<byte>, bytes': seq<byte>)
    requires UidTable(cache, pw, bytes) && bytes <= bytes'
    ensures UidTable(cache, pw, bytes')
    ensures forall e :: e in cache ==> View(e, bytes') == View(e, bytes)
  {
    forall e | e in cache
      ensures View(e, bytes') == View(e, bytes) && Stored(e, bytes')
    {
      NameStable(bytes, bytes', e.nameOffset);
    }
  }

  lemma {:induction false} UidTableAppend(cache: seq<UidEntry>, pw: seq<PwEntry>, bytes: seq<byte>, p: PwEntry)
    requires UidTable(cache, pw, bytes)
    ensures UidTable(cache + [UidEntry(p.uid, p.gid, |bytes|)], pw + [p], bytes + p.name + [0])
  {
    var bytes', e := bytes + p.name + [0], UidEntry(p.uid, p.gid, |bytes|);
    assert bytes' == bytes + (p.name + [0]);
    UidTableGrows(cache, pw, bytes, bytes');
    NameStored(bytes, p.name, []);
    assert bytes' + [] == bytes';
    assert View(e, bytes') == p;
    var cache', pw' := cache + [e], pw + [p];
    forall q | q in pw'
      ensures exists d :: d in cache' && View(d, bytes') == q
    {
      if q in pw {
        var d :| d in cache && View(d, bytes') == q;
        assert d in cache';
      } else {
        assert e in cache';
      }
    }
  }

  lemma {:induction false} UidTablePermuted(cache: seq<UidEntry>, cache': seq<UidEntry>, pw: seq<PwEntry>, bytes: seq<byte>)
    requires UidTable(cache, pw, bytes) && multiset(cache') == multiset(cache)
    ensures UidTable(cache', pw, bytes)
  {
    Permuted(cache', cache);
  }

  lemma {:induction false} GidRowGrows(e: GidEntry, g: GrEntry, pw: seq<PwEntry>, bytes: seq<byte>, bytes': seq<byte>)
    requires GidRow(e, g, pw, bytes) && bytes <= bytes'
    ensures GidRow(e, g, pw, bytes')
  {
    UidsStable(bytes, bytes', e.uidsOffset, e.uidCount);
  }

  lemma {:induction false} HasGroupGrows(e: GidEntry, gr: seq<GrEntry>, g: GrEntry, pw: seq<PwEntry>, bytes: seq<byte>, bytes': seq<byte>)
    requires HasGroup(e, gr, pw, bytes) && bytes <= bytes'
    ensures HasGroup(e, gr + [g], pw, bytes')
  {
    hide GidRow;
    var h :| h in gr && GidRow(e, h, pw, bytes);
    GidRowGrows(e, h, pw, bytes, bytes');
    assert h in gr + [g];
  }

  lemma {:induction false} HasEntryGrows(g: GrEntry, cache: seq<GidEntry>, e: GidEntry, pw: seq<PwEntry>, bytes: seq<byte>, bytes': seq<byte>)
    requires HasEntry(g, cache, pw, bytes) && bytes <= bytes'
    ensures HasEntry(g, cache + [e], pw, bytes')
  {
    hide GidRow;
    var d :| d in cache && GidRow(d, g, pw, bytes);
    GidRowGrows(d, g, pw, bytes, bytes');
    assert d in cache + [e];
  }

  lemma {:induction false} NewRow(cache: seq<GidEntry>, e: GidEntry, gr: seq<GrEntry>, g: GrEntry, pw: seq<PwEntry>, bytes: seq<byte>)
    requires GidRow(e, g, pw, bytes)
    ensures HasGroup(e, gr + [g], pw, bytes) && HasEntry(g, cache + [e], pw, bytes)
  {
    hide GidRow;
    assert g in gr + [g] && e in cache + [e];
  }

  lemma {:induction false} GidTableAppend(cache: seq<GidEntry>, gr: seq<GrEntry>, pw: seq<PwEntry>, bytes: seq<byte>, bytes': seq<byte>, e: GidEntry, g: GrEntry)
    requires GidTable(cache, gr, pw, bytes) && bytes <= bytes' && GidRow(e, g, pw, bytes')
    ensures GidTable(cache + [e], gr + [g], pw, bytes')
  {
    hide GidRow, HasGroup, HasEntry;
    NewRow(cache, e, gr, g, pw, bytes');
    forall d | d in cache + [e]
      ensures HasGroup(d, gr + [g], pw, bytes')
    {
      if d in cache {
        HasGroupGrows(d, gr, g, pw, bytes, bytes');
      }
    }
    forall h | h in gr + [g]
      ensures HasEntry(h, cache + [e], pw, bytes')
    {
      if h in gr {
        HasEntryGrows(h, cache, e, pw, bytes, bytes');
      }
    }
  }

  lemma {:induction false} GidTablePermuted(cache: seq<GidEntry>, cache': seq<GidEntry>, gr: seq<GrEntry>, pw: seq<PwEntry>, bytes: seq<byte>)
    requires GidTable(cache, gr, pw, bytes) && multiset(cache') == multiset(cache)
    ensures GidTable(cache', gr, pw, bytes)
  {
    hide GidRow, HasGroup;
    Permuted(cache', cache);
    forall g | g in gr
      ensures HasEntry(g, cache', pw, bytes)
    {
      var e :| e in cache && GidRow(e, g, pw, bytes);
      assert e in cache';
    }
  }

  // ----- Order

  ghost predicate SortedByName(cache: seq<UidEntry>, bytes: seq<byte>) {
    forall i, j :: 0 <= i < j < |cache| ==> StrCmp(View(cache[i], bytes).name, View(cache[j], bytes).name) <= 0
  }

  function UidColumn(cache: seq<UidEntry>): seq<Id> {
    Column(cache, (e: UidEntry) => e.uid)
  }

  function GidColumn(cache: seq<GidEntry>): seq<Id> {
    Column(cache, (e: GidEntry) => e.gid)
  }

  ghost predicate SortedByUid(cache: seq<UidEntry>) {
    InIdOrder(UidColumn(cache))
  }

  ghost predicate SortedByGid(cache: seq<GidEntry>) {
    InIdOrder(GidColumn(cache))
  }

  lemma {:induction false} UidsInTable(cache: seq<UidEntry>, pw: seq<PwEntry>, bytes: seq<byte>)
    requires UidTable(cache, pw, bytes)
    ensures IdSet(UidColumn(cache)) == Uids(pw)
  {
    forall x
      ensures x in UidColumn(cache) <==> x in Uids(pw)
    {
      InColumn(cache, (e: UidEntry) => e.uid, x);
      if p :| p in pw && p.uid == x {
        var e :| e in cache && View(e, bytes) == p;
      }
      if e :| e in cache && e.uid == x {
        assert View(e, bytes) in pw;
      }
    }
  }

  lemma {:induction false} GidsInTable(cache: seq<GidEntry>, gr: seq<GrEntry>, pw: seq<PwEntry>, bytes: seq<byte>)
    requires GidTable(cache, gr, pw, bytes)
    ensures IdSet(GidColumn(cache)) == Gids(gr)
  {
    hide Lists, HasEntry;
    forall x
      ensures x in GidColumn(cache) <==> x in Gids(gr)
    {
      InColumn(cache, (e: GidEntry) => e.gid, x);
      if g :| g in gr && g.gid == x {
        var e := EntryOf(cache, gr, pw, bytes, g);
      }
      if e :| e in cache && e.gid == x {
        InGidTable(cache, gr, pw, bytes, e);
      }
    }
  }

  lemma {:induction false} EntryOf(cache: seq<GidEntry>, gr: seq<GrEntry>, pw: seq<PwEntry>, bytes: seq<byte>, g: GrEntry) returns (e: GidEntry)
    requires GidTable(cache, gr, pw, bytes) && g in gr
    ensures e in cache && e.gid == g.gid
  {
    hide HasGroup;
    assert HasEntry(g, cache, pw, bytes);
    e :| e in cache && GidRow(e, g, pw, bytes);
  }

  method SortByName(cache: seq<UidEntry>, bytes: seq<byte>) returns (r: seq<UidEntry>)
    ensures multiset(r) == multiset(cache) && SortedByName(r, bytes)
  {
    var cmp := (a: UidEntry, b: UidEntry) => StrCmp(NameAt(bytes, a.nameOffset), NameAt(bytes, b.nameOffset));
    forall x, y, z | x in cache && y in cache && z in cache
      ensures (cmp(x, y) <= 0 || cmp(y, x) <= 0) && (cmp(x, y) <= 0 && cmp(y, z) <= 0 ==> cmp(x, z) <= 0)
    {
      StrCmpOrder(NameAt(bytes, x.nameOffset), NameAt(bytes, y.nameOffset), NameAt(bytes, z.nameOffset));
    }
    r := QSort(cache, cmp);
    assert Sorted(r, cmp);
  }

  method SortByUid(cache: seq<UidEntry>) returns (r: seq<UidEntry>)
    ensures multiset(r) == multiset(cache) && SortedByUid(r)
  {
    var cmp := (a: UidEntry, b: UidEntry) => CompareIds(a.uid, b.uid);
    r := QSort(cache, cmp);
    SortedColumn(cache, r, (e: UidEntry) => e.uid, cmp);
  }

  method SortByGid(cache: seq<GidEntry>) returns (r: seq<GidEntry>)
    ensures multiset(r) == multiset(cache) && SortedByGid(r)
  {
    var cmp := (a: GidEntry, b: GidEntry) => CompareIds(a.gid, b.gid);
    r := QSort(cache, cmp);
    SortedColumn(cache, r, (e: GidEntry) => e.gid, cmp);
  }

  // ----- Queries on the tables

  datatype Tables = Tables(uids: seq<UidEntry>, gids: seq<GidEntry>, bytes: seq<byte>)

  /** Both tables complete and in id order. */
  ghost predicate Built(t: Tables, pw: seq<PwEntry>, gr: seq<GrEntry>) {
    UidTable(t.uids, pw, t.bytes) && GidTable(t.gids, gr, pw, t.bytes) && SortedByUid(t.uids) && SortedByGid(t.gids)
  }

  /**
   The results bsearch may give for a uid: any entry that has it; or none, if no entry
   has it or the column is not one that may be searched.
   */
  ghost predicate UidResult(cache: seq<UidEntry>, uid: Id, found: bool, k: nat) {
    if found then k < |cache| && cache[k].uid == uid
    else Partitioned(UidColumn(cache), uid) ==> uid !in UidColumn(cache)
  }

  ghost predicate GidResult(cache: seq<GidEntry>, gid: Id, found: bool, k: nat) {
    if found then k < |cache| && cache[k].gid == gid
    else Partitioned(GidColumn(cache), gid) ==> gid !in GidColumn(cache)
  }

  ghost predicate InList(e: GidEntry, uid: Id, bytes: seq<byte>) {
    e.uidsOffset + 4 * e.uidCount <= |bytes| && uid in UidsAt(bytes, e.uidsOffset, e.uidCount)
  }

  /** What the two searches of a query have found. */
  datatype Hits = Hits(uidFound: bool, u: nat, gidFound: bool, g: nat)

  ghost predicate CanFind(t: Tables, uid: Id, gid: Id, h: Hits) {
    UidResult(t.uids, uid, h.uidFound, h.u) && GidResult(t.gids, gid, h.gidFound, h.g)
  }

  ghost predicate Answer(t: Tables, uid: Id, gid: Id, h: Hits)
    requires CanFind(t, uid, gid, h)
  {
    (h.uidFound && t.uids[h.u].mainGid == gid) || (h.gidFound && InList(t.gids[h.g], uid, t.bytes))
  }

  /** `answer` is what a query may come to, depending on what the searches find. */
  ghost predicate CanAnswer(t: Tables, uid: Id, gid: Id, answer: bool) {
    exists h :: CanFind(t, uid, gid, h) && answer == Answer(t, uid, gid, h)
  }

  // ----- The stages of a rebuild

  datatype Stage = Emptying | Users | ByName | Groups | ByUid | ByGid

  const STAGES: seq<Stage> := [Emptying, Users, ByName, Groups, ByUid, ByGid]

  /** What each stage does to the tables, when it reads these databases. */
  ghost predicate Rewrite(stage: Stage, pw: seq<PwEntry>, gr: seq<GrEntry>, t: Tables, t': Tables) {
    match stage
    case Emptying => t' == t.(bytes := [])
    case Users => t'.gids == t.gids && UidTable(t'.uids, pw, t'.bytes)
    case ByName => t'.bytes == t.bytes && multiset(t'.uids) == multiset(t.uids) && SortedByName(t'.uids, t.bytes)
    case Groups => t'.uids == t.uids && t.bytes <= t'.bytes && GidTable(t'.gids, gr, pw, t'.bytes)
    case ByUid => t' == t.(uids := t'.uids) && multiset(t'.uids) == multiset(t.uids) && SortedByUid(t'.uids)
    case ByGid => t' == t.(gids := t'.gids) && multiset(t'.gids) == multiset(t.gids) && SortedByGid(t'.gids)
  }

  /** The tables before and after every stage. */
  ghost predicate RebuildTrace(trace: seq<Tables>, pw: seq<PwEntry>, gr: seq<GrEntry>) {
    |trace| == |STAGES| + 1 &&
    forall k :: 0 <= k < |STAGES| ==> Rewrite(STAGES[k], pw, gr, trace[k], trace[k + 1])
  }

  lemma {:induction false} TraceOf(
      pw: seq<PwEntry>, gr: seq<GrEntry>, t0: Tables, t1: Tables, t2: Tables, t3: Tables, t4: Tables, t5: Tables, t6: Tables)
    returns (trace: seq<Tables>)
    requires t1 == t0.(bytes := []) && t2.gids == t1.gids && UidTable(t2.uids, pw, t2.bytes)
    requires t3.bytes == t2.bytes && multiset(t3.uids) == multiset(t2.uids) && SortedByName(t3.uids, t2.bytes)
    requires t4.uids == t3.uids && t3.bytes <= t4.bytes && GidTable(t4.gids, gr, pw, t4.bytes)
    requires t5 == t4.(uids := t5.uids) && multiset(t5.uids) == multiset(t4.uids) && SortedByUid(t5.uids)
    requires t6 == t5.(gids := t6.gids) && multiset(t6.gids) == multiset(t5.gids) && SortedByGid(t6.gids)
    ensures RebuildTrace(trace, pw, gr) && trace[0] == t0 && trace[|STAGES|] == t6
  {
    hide UidTable, GidTable, SortedByUid, SortedByGid, SortedByName;
    trace := [t0, t1, t2, t3, t4, t5, t6];
  }

  // ----- Room

  /** INT_MAX: offsets into the block are ints. */
  const OFFSET_MAX: nat := 0x7FFF_FFFF

  /** Bytes the names of the users take up. */
  function NameBytes(pw: seq<PwEntry>): nat {
    if pw == [] then 0 else NameBytes(pw[..|pw| - 1]) + |pw[|pw| - 1].name| + 1
  }

  /** An upper bound for the bytes the member lists take up. */
  function MemberBytes(gr: seq<GrEntry>): nat {
    if gr == [] then 0 else MemberBytes(gr[..|gr| - 1]) + 4 * |gr[|gr| - 1].members|
  }

  lemma {:induction false} NameBytesMonotone(pw: seq<PwEntry>, k: nat)
    requires k <= |pw|
    ensures NameBytes(pw[..k]) <= NameBytes(pw)
    decreases |pw|
  {
    if k < |pw| {
      NameBytesMonotone(pw[..|pw| - 1], k);
      assert pw[..|pw| - 1][..k] == pw[..k];
    } else {
      assert pw[..k] == pw;
    }
  }

  lemma NoNameBytes()
    ensures forall pw: seq<PwEntry> :: NameBytes(pw[..0]) == 0
  {
  }

  lemma {:induction false} NextNameBytes(pw: seq<PwEntry>, k: nat)
    requires k < |pw|
    ensures NameBytes(pw[..k + 1]) == NameBytes(pw[..k]) + |pw[k].name| + 1 <= NameBytes(pw)
  {
    NameBytesMonotone(pw, k + 1);
    assert pw[..k + 1][..k] == pw[..k];
  }

  lemma NoMemberBytes()
    ensures forall gr: seq<GrEntry> :: MemberBytes(gr[..0]) == 0
  {
  }

  lemma {:induction false} NextMemberBytes(gr: seq<GrEntry>, k: nat)
    requires k < |gr|
    ensures MemberBytes(gr[..k + 1]) == MemberBytes(gr[..k]) + 4 * |gr[k].members| <= MemberBytes(gr)
  {
    MemberBytesMonotone(gr, k + 1);
    assert gr[..k + 1][..k] == gr[..k];
  }

  lemma {:induction false} MemberBytesMonotone(gr: seq<GrEntry>, k: nat)
    requires k <= |gr|
    ensures MemberBytes(gr[..k]) <= MemberBytes(gr)
    decreases |gr|
  {
    if k < |gr| {
      MemberBytesMonotone(gr[..|gr| - 1], k);
      assert gr[..|gr| - 1][..k] == gr[..k];
    } else {
      assert gr[..k] == gr;
    }
  }

  // ----- The cache

  class UserCache {
    var uidCache: seq<UidEntry>
    var gidCache: seq<GidEntry>
    const block: MemoryBlock
    var rebuildRequested: bool

    /** What the tables were built from. */
    ghost var pw: seq<PwEntry>
    ghost var gr: seq<GrEntry>

    /** The state between two rebuilds: both tables complete and in id order. */
    ghost predicate Valid()
      reads this, block, block.ptr
    {
      block.Valid() && Built(Snapshot(), pw, gr)
    }

    ghost function Snapshot(): Tables
      requires block.Valid()
      reads this, block, block.ptr
    {
      Tables(uidCache, gidCache, block.Contents())
    }

    constructor ()
      ensures Valid() && pw == [] && gr == [] && fresh(block) && fresh(block.ptr) && rebuildRequested
    {
      rebuildRequested := true;
      uidCache, gidCache, pw, gr := [], [], [], [];
      block := new MemoryBlock(0);
    }

    /** One round of rebuild_uid_cache. */
    method AddUser(p: PwEntry, ghost entries: seq<PwEntry>)
      requires block.Valid() && block.size + |p.name| + 1 <= OFFSET_MAX && UidTable(uidCache, entries, block.Contents())
      modifies this`uidCache, block, block.ptr
      ensures block.Valid() && (block.ptr == old(block.ptr) || fresh(block.ptr))
      ensures block.size == old(block.size) + |p.name| + 1
      ensures UidTable(uidCache, entries + [p], block.Contents())
    {
      hide UidTable;
      ghost var bytes := block.Contents();
      var appended, offset := block.Append(p.name + [0]);
      assert block.Contents() == bytes + p.name + [0];
      UidTableAppend(uidCache, entries, bytes, p);
      uidCache := uidCache + [UidEntry(p.uid, p.gid, offset)];
    }

    /** rebuild_uid_cache; `failed` says that reading the database ended in an error. */
    method RebuildUid(entries: seq<PwEntry>, failed: bool) returns (ok: bool)
      requires block.Valid() && block.Contents() == [] && NameBytes(entries) <= OFFSET_MAX
      modifies this`uidCache, this`pw, block, block.ptr
      ensures block.Valid() && (block.ptr == old(block.ptr) || fresh(block.ptr))
      ensures block.size <= NameBytes(entries)
      ensures ok == !failed && pw == (if failed then [] else entries)
      ensures UidTable(uidCache, pw, block.Contents())
    {
      hide UidTable, NameBytes;
      uidCache := [];
      var k := 0;
      UidTableEmpty(block.Contents());
      NoNameBytes();
      while k < |entries|
        invariant 0 <= k <= |entries| && block.Valid() && (block.ptr == old(block.ptr) || fresh(block.ptr))
        invariant block.size == NameBytes(entries[..k])
        invariant UidTable(uidCache, entries[..k], block.Contents())
        modifies this`uidCache, block, block.ptr
      {
        NextNameBytes(entries, k);
        AddUser(entries[k], entries[..k]);
        assert entries[..k] + [entries[k]] == entries[..k + 1];
        k := k + 1;
      }
      assert entries[..k] == entries;
      if failed {
        uidCache := [];
        UidTableEmpty(block.Contents());
      }
      pw := if failed then [] else entries;
      ok := !failed;
    }

    /** bsearch for a user name, while the table is sorted by name. */
    method FindName(name: Name) returns (found: bool, uid: Id)
      requires block.Valid() && UidTable(uidCache, pw, block.Contents()) && SortedByName(uidCache, block.Contents())
      ensures if found then HasUid(name, uid, pw) else !Exists(name, pw)
    {
      var bytes := block.ptr[..block.size];
      var probe := (e: UidEntry) => StrCmp(name, NameAt(bytes, e.nameOffset));
      NamesFall(uidCache, bytes, name, probe);
      var hit, k := BSearch(uidCache, probe);
      found, uid := hit, 0;
      if hit {
        uid := uidCache[k].uid;
        StrCmpEqual(name, NameAt(bytes, uidCache[k].nameOffset));
        assert View(uidCache[k], bytes) in pw;
      } else {
        forall p | p in pw
          ensures p.name != name
        {
          var e :| e in uidCache && View(e, bytes) == p;
          StrCmpEqual(name, p.name);
        }
      }
    }

    /** Packs one more uid at the end of the block. */
    method PackUid(uid: Id, offset: nat, count: nat)
      requires block.Valid() && block.size == offset + 4 * count && block.size + 4 <= OFFSET_MAX
      modifies block, block.ptr
      ensures block.Valid() && (block.ptr == old(block.ptr) || fresh(block.ptr))
      ensures block.Contents() == old(block.Contents()) + Encode(uid)
      ensures UidsAt(block.Contents(), offset, count + 1) == UidsAt(old(block.Contents()), offset, count) + [uid]
    {
      ghost var bytes := block.Contents();
      var grown := block.Grow(4);
      block.Write(offset + 4 * count, Encode(uid));
      assert block.Contents() == bytes + Encode(uid);
      UidsAppend(bytes, offset, count, uid);
    }

    /** One round of rebuild_gid_cache: an entry for the group and the uids of its members. */
    method AddGroup(g: GrEntry, ghost gs: seq<GrEntry>)
      requires block.Valid() && UidTable(uidCache, pw, block.Contents()) && SortedByName(uidCache, block.Contents())
      requires GidTable(gidCache, gs, pw, block.Contents()) && block.size + 4 * |g.members| <= OFFSET_MAX
      modifies this`gidCache, block, block.ptr
      ensures block.Valid() && (block.ptr == old(block.ptr) || fresh(block.ptr))
      ensures UidTable(uidCache, pw, block.Contents()) && SortedByName(uidCache, block.Contents())
      ensures GidTable(gidCache, gs + [g], pw, block.Contents()) && block.size <= old(block.size) + 4 * |g.members|
      ensures old(block.Contents()) <= block.Contents()
    {
      hide UidTable, GidTable, SortedByName, Lists, UidsAt;
      var offset, count := block.size, 0;
      ghost var before := block.Contents();
      ghost var uids: seq<Id> := [];
      NothingListed(pw, before, offset);
      var i := 0;
      while i < |g.members|
        invariant 0 <= count <= i <= |g.members| && block.Valid() && (block.ptr == old(block.ptr) || fresh(block.ptr))
        invariant block.size == offset + 4 * count && before <= block.Contents()
        invariant UidTable(uidCache, pw, block.Contents()) && SortedByName(uidCache, block.Contents())
        invariant UidsAt(block.Contents(), offset, count) == uids && Lists(uids, g.members[..i], pw)
        modifies block, block.ptr
      {
        var name := g.members[i];
        var found, uid := FindName(name);
        assert g.members[..i + 1] == g.members[..i] + [name];
        if found {
          ghost var bytes := block.Contents();
          PackUid(uid, offset, count);
          TableGrows(uidCache, pw, bytes, block.Contents());
          ListsFound(uids, g.members[..i], name, uid, pw);
          uids := uids + [uid];
          count := count + 1;
        } else {
          ListsMissing(uids, g.members[..i], name, pw);
        }
        i := i + 1;
      }
      assert g.members[..i] == g.members;
      ghost var e := GidEntry(g.gid, count, offset);
      assert GidRow(e, g, pw, block.Contents());
      GidTableAppend(gidCache, gs, pw, before, block.Contents(), e, g);
      gidCache := gidCache + [GidEntry(g.gid, count, offset)];
    }

    /** The loop of rebuild_gid_cache. */
    method AddGroups(entries: seq<GrEntry>)
      requires block.Valid() && UidTable(uidCache, pw, block.Contents()) && SortedByName(uidCache, block.Contents())
      requires gidCache == [] && block.size + MemberBytes(entries) <= OFFSET_MAX
      modifies this`gidCache, block, block.ptr
      ensures block.Valid() && (block.ptr == old(block.ptr) || fresh(block.ptr)) && old(block.Contents()) <= block.Contents()
      ensures UidTable(uidCache, pw, block.Contents()) && GidTable(gidCache, entries, pw, block.Contents())
    {
      hide UidTable, GidTable, SortedByName, MemberBytes;
      ghost var before := block.Contents();
      GidTableEmpty(pw, before);
      NoMemberBytes();
      var k := 0;
      while k < |entries|
        invariant 0 <= k <= |entries| && block.Valid() && (block.ptr == old(block.ptr) || fresh(block.ptr))
        invariant block.size <= |before| + MemberBytes(entries[..k]) && before <= block.Contents()
        invariant UidTable(uidCache, pw, block.Contents()) && SortedByName(uidCache, block.Contents())
        invariant GidTable(gidCache, entries[..k], pw, block.Contents())
      {
        NextMemberBytes(entries, k);
        AddGroup(entries[k], entries[..k]);
        assert entries[..k] + [entries[k]] == entries[..k + 1];
        k := k + 1;
      }
      assert entries[..k] == entries;
    }

    /** rebuild_gid_cache */
    method RebuildGid(entries: seq<GrEntry>, failed: bool) returns (ok: bool)
      requires block.Valid() && UidTable(uidCache, pw, block.Contents())
      requires block.size + MemberBytes(entries) <= OFFSET_MAX
      modifies this`uidCache, this`gidCache, this`gr, block, block.ptr
      ensures block.Valid() && (block.ptr == old(block.ptr) || fresh(block.ptr))
      ensures ok == !failed && gr == (if failed then [] else entries)
      ensures UidTable(uidCache, pw, block.Contents()) && GidTable(gidCache, gr, pw, block.Contents())
      ensures multiset(uidCache) == multiset(old(uidCache)) && SortedByName(uidCache, old(block.Contents()))
      ensures old(block.Contents()) <= block.Contents()
    {
      hide UidTable, GidTable, SortedByName, MemberBytes;
      gidCache := [];
      ghost var unsorted := uidCache;
      uidCache := SortByName(uidCache, block.ptr[..block.size]);
      UidTablePermuted(unsorted, uidCache, pw, block.Contents());
      AddGroups(entries);
      if failed {
        gidCache := [];
        GidTableEmpty(pw, block.Contents());
      }
      gr := if failed then [] else entries;
      ok := !failed;
    }

    /** invalidate_user_cache */
    method Invalidate()
      modifies this`rebuildRequested
      ensures rebuildRequested
    {
      rebuildRequested := true;
    }

    /** init_user_cache, with the lock held: rebuilds if asked to, and then only once. */
    method InitUserCache(pwEntries: seq<PwEntry>, pwFailed: bool, grEntries: seq<GrEntry>, grFailed: bool)
      requires Valid() && NameBytes(pwEntries) + MemberBytes(grEntries) <= 0x7FFF_FFFF
      modifies this, block
      ensures Valid() && !rebuildRequested
      ensures old(rebuildRequested) ==> pw == (if pwFailed then [] else pwEntries) && gr == (if grFailed then [] else grEntries)
      ensures !old(rebuildRequested) ==> pw == old(pw) && gr == old(gr)
    {
      hide Built;
      if rebuildRequested {
        rebuildRequested := false;
        ghost var trace := Rebuild(pwEntries, pwFailed, grEntries, grFailed);
      }
    }

    /** init_user_cache, once it has decided to rebuild; with the tables as they were between its stages. */
    method Rebuild(pwEntries: seq<PwEntry>, pwFailed: bool, grEntries: seq<GrEntry>, grFailed: bool)
      returns (ghost trace: seq<Tables>)
      requires block.Valid() && NameBytes(pwEntries) + MemberBytes(grEntries) <= 0x7FFF_FFFF
      modifies this, block
      ensures Valid() && fresh(block.ptr) && rebuildRequested == old(rebuildRequested)
      ensures pw == (if pwFailed then [] else pwEntries) && gr == (if grFailed then [] else grEntries)
      ensures RebuildTrace(trace, pw, gr) && trace[0] == old(Snapshot()) && trace[|STAGES|] == Snapshot()
    {
      hide Rewrite, RebuildTrace, UidTable, GidTable, SortedByUid, SortedByGid, SortedByName, NameBytes, MemberBytes;
      ghost var t0 := Snapshot();
      block.Reset(1024);
      ghost var t1 := Snapshot();
      var uidsOk := RebuildUid(pwEntries, pwFailed);
      ghost var t2 := Snapshot();
      var gidsOk := RebuildGid(grEntries, grFailed);
      ghost var t3, t4 := Tables(uidCache, t2.gids, t2.bytes), Snapshot();
      ghost var t5 := SortById();
      trace := TraceOf(pw, gr, t0, t1, t2, t3, t4, t5, Snapshot());
    }

    /** The last two sorts of init_user_cache. */
    method SortById() returns (ghost between: Tables)
      requires block.Valid() && UidTable(uidCache, pw, block.Contents()) && GidTable(gidCache, gr, pw, block.Contents())
      modifies this`uidCache, this`gidCache
      ensures Built(Snapshot(), pw, gr)
      ensures between == old(Snapshot()).(uids := uidCache) && Snapshot() == between.(gids := gidCache)
      ensures multiset(uidCache) == multiset(old(uidCache)) && multiset(gidCache) == multiset(old(gidCache))
    {
      hide UidTable, GidTable, SortedByUid, SortedByGid;
      ghost var t := Snapshot();
      uidCache := SortByUid(uidCache);
      between := Snapshot();
      gidCache := SortByGid(gidCache);
      UidTablePermuted(t.uids, uidCache, pw, t.bytes);
      GidTablePermuted(t.gids, gidCache, gr, pw, t.bytes);
    }

    /** user_belongs_to_group without the locking: rebuild first if asked to, then look up. */
    method UserBelongsToGroup(
        uid: Id, gid: Id, pwEntries: seq<PwEntry>, pwFailed: bool, grEntries: seq<GrEntry>, grFailed: bool) returns (ret: bool)
      requires Valid() && NameBytes(pwEntries) + MemberBytes(grEntries) <= 0x7FFF_FFFF
      modifies this, block
      ensures Valid() && !rebuildRequested
      ensures old(rebuildRequested) ==> pw == (if pwFailed then [] else pwEntries) && gr == (if grFailed then [] else grEntries)
      ensures !old(rebuildRequested) ==> pw == old(pw) && gr == old(gr)
      ensures ret ==> Member(pw, gr, uid, gid)
      ensures Served(pw, gr, uid, gid) ==> (ret <==> Member(pw, gr, uid, gid))
    {
      hide Valid, Member, Served;
      if rebuildRequested {
        InitUserCache(pwEntries, pwFailed, grEntries, grFailed);
      }
      ret := BelongsTo(uid, gid);
    }

    /** uid_cache_lookup */
    method FindUid(uid: Id) returns (found: bool, k: nat)
      ensures UidResult(uidCache, uid, found, k)
    {
      var probe := (e: UidEntry) => CompareIds(uid, e.uid);
      found, k := BSearch(uidCache, probe);
      SearchedColumn(uidCache, (e: UidEntry) => e.uid, uid, probe, found, k);
    }

    /** gid_cache_lookup */
    method FindGid(gid: Id) returns (found: bool, k: nat)
      ensures GidResult(gidCache, gid, found, k)
    {
      var probe := (e: GidEntry) => CompareIds(gid, e.gid);
      found, k := BSearch(gidCache, probe);
      SearchedColumn(gidCache, (e: GidEntry) => e.gid, gid, probe, found, k);
    }

    /** The scan of a packed member list. */
    method ListContains(e: GidEntry, uid: Id) returns (found: bool)
      requires block.Valid() && e.uidsOffset + 4 * e.uidCount <= block.size
      ensures found <==> uid in UidsAt(block.Contents(), e.uidsOffset, e.uidCount)
    {
      hide UidsAt, Decode;
      ghost var bytes := block.Contents();
      NothingListed([], bytes, e.uidsOffset);
      var i := 0;
      while i < e.uidCount
        invariant 0 <= i <= e.uidCount && uid !in UidsAt(bytes, e.uidsOffset, i)
      {
        var at := e.uidsOffset + 4 * i;
        UidsNext(bytes, e.uidsOffset, i);
        assert bytes[at..at + 4] == block.ptr[at..at + 4];
        if Decode(block.ptr[at..at + 4]) == uid {
          UidListed(bytes, e.uidsOffset, e.uidCount, i);
          return true;
        }
        i := i + 1;
      }
      found := false;
    }

    /**
     user_belongs_to_group, once the read lock is held.  A positive answer is always
     right; every answer is right if the databases serve the query.
     */
    method BelongsTo(uid: Id, gid: Id) returns (ret: bool)
      requires Valid()
      ensures CanAnswer(Snapshot(), uid, gid, ret)
      ensures ret ==> Member(pw, gr, uid, gid)
      ensures Served(pw, gr, uid, gid) ==> (ret <==> Member(pw, gr, uid, gid))
    {
      hide Built, UidResult, GidResult, CanAnswer, Member, Served;
      ghost var t := Snapshot();
      var uidFound, u := FindUid(uid);
      if uidFound {
        UidHit(uidCache, uid, u);
        if uidCache[u].mainGid == gid {
          PrimaryAnswer(t, pw, gr, uid, gid, u);
          return true;
        }
      }
      var gidFound, g := FindGid(gid);
      ret := false;
      if gidFound {
        GidHit(t, pw, gr, gid, g);
        ret := ListContains(gidCache[g], uid);
      }
      AnswerGiven(t, pw, gr, uid, gid, Hits(uidFound, u, gidFound, g));
    }
  }

  /** What a binary search says about a column of ids. */
  lemma {:induction false} SearchedColumn<T>(s: seq<T>, key: T -> Id, id: Id, probe: T -> int, found: bool, k: nat)
    requires forall e :: probe(e) == CompareIds(id, key(e))
    requires found ==> k < |s| && probe(s[k]) == 0
    requires !found && Falling(s, probe) ==> forall i :: 0 <= i < |s| ==> probe(s[i]) != 0
    ensures found ==> k < |s| && key(s[k]) == id
    ensures !found && Partitioned(Column(s, key), id) ==> id !in Column(s, key)
  {
    var ids := Column(s, key);
    if found {
      EqualIds(id, key(s[k]));
    } else if Partitioned(ids, id) {
      hide CompareIds;
      forall i, j | 0 <= i < j < |s|
        ensures (probe(s[i]) <= 0 ==> probe(s[j]) <= 0) && (probe(s[i]) < 0 ==> probe(s[j]) < 0)
      {
        assert ids[i] == key(s[i]) && ids[j] == key(s[j]);
      }
      EqualIds(id, id);
      forall i | 0 <= i < |ids|
        ensures ids[i] != id
      {
        assert probe(s[i]) != 0;
      }
    }
  }

  lemma UidsNext(bytes: seq<byte>, offset: nat, i: nat)
    requires offset + 4 * (i + 1) <= |bytes|
    ensures UidsAt(bytes, offset, i + 1) == UidsAt(bytes, offset, i) + [Decode(bytes[offset + 4 * i..offset + 4 * i + 4])]
  {
    hide Decode;
  }

  lemma {:induction false} UidListed(bytes: seq<byte>, offset: nat, count: nat, i: nat)
    requires offset + 4 * count <= |bytes| && i < count
    ensures Decode(bytes[offset + 4 * i..offset + 4 * i + 4]) in UidsAt(bytes, offset, count)
    decreases count
  {
    if i < count - 1 {
      UidListed(bytes, offset, count - 1, i);
    }
  }

  lemma {:induction false} InGidTable(cache: seq<GidEntry>, gr: seq<GrEntry>, pw: seq<PwEntry>, bytes: seq<byte>, e: GidEntry)
    requires GidTable(cache, gr, pw, bytes) && e in cache
    ensures e.uidsOffset + 4 * e.uidCount <= |bytes|
    ensures exists g :: g in gr && GidRow(e, g, pw, bytes) && g.gid == e.gid
  {
    hide HasEntry, Lists;
    assert HasGroup(e, gr, pw, bytes);
    var g :| g in gr && GidRow(e, g, pw, bytes);
  }

  lemma UidHit(cache: seq<UidEntry>, uid: Id, u: nat)
    requires UidResult(cache, uid, true, u)
    ensures u < |cache|
  {
  }

  lemma {:induction false} GidHit(t: Tables, pw: seq<PwEntry>, gr: seq<GrEntry>, gid: Id, g: nat)
    requires Built(t, pw, gr) && GidResult(t.gids, gid, true, g)
    ensures g < |t.gids| && t.gids[g].uidsOffset + 4 * t.gids[g].uidCount <= |t.bytes|
  {
    hide GidTable;
    InGidTable(t.gids, gr, pw, t.bytes, t.gids[g]);
  }

  /** The query ends early, whatever the search for the group would have found. */
  lemma {:induction false} PrimaryAnswer(t: Tables, pw: seq<PwEntry>, gr: seq<GrEntry>, uid: Id, gid: Id, u: nat)
    requires Built(t, pw, gr) && UidResult(t.uids, uid, true, u) && t.uids[u].mainGid == gid
    ensures CanAnswer(t, uid, gid, true) && Member(pw, gr, uid, gid)
  {
    hide Built, Member, UidResult, Served;
    var h := Hits(true, u, false, 0);
    if g: nat :| g < |t.gids| && t.gids[g].gid == gid {
      h := Hits(true, u, true, g);
    }
    AnswerGiven(t, pw, gr, uid, gid, h);
  }

  lemma {:induction false} AnswerGiven(t: Tables, pw: seq<PwEntry>, gr: seq<GrEntry>, uid: Id, gid: Id, h: Hits)
    requires Built(t, pw, gr) && CanFind(t, uid, gid, h)
    ensures var answer := Answer(t, uid, gid, h);
            && CanAnswer(t, uid, gid, answer) && (answer ==> Member(pw, gr, uid, gid))
            && (Served(pw, gr, uid, gid) ==> (answer <==> Member(pw, gr, uid, gid)))
  {
    hide Built, Member, Served, CanFind;
    SoundAnswer(t, pw, gr, uid, gid, h);
    if Served(pw, gr, uid, gid) {
      CompleteAnswer(t, pw, gr, uid, gid, h);
    }
  }

  /** Soundness: a uid in a group's list belongs to a user it names. */
  lemma {:induction false} ListedMember(t: Tables, pw: seq<PwEntry>, gr: seq<GrEntry>, e: GidEntry, uid: Id)
    requires Built(t, pw, gr) && e in t.gids && InList(e, uid, t.bytes)
    ensures Member(pw, gr, uid, e.gid)
  {
    hide HasEntry;
    assert HasGroup(e, gr, pw, t.bytes);
    var g :| g in gr && GidRow(e, g, pw, t.bytes);
    ListsNamed(UidsAt(t.bytes, e.uidsOffset, e.uidCount), g.members, pw, uid);
    var n :| n in g.members && HasUid(n, uid, pw);
    var p :| p in pw && p.name == n && p.uid == uid;
    assert Listed(p.name, gr, e.gid);
  }

  /** Whatever the searches find, a positive answer is right. */
  lemma {:induction false} SoundAnswer(t: Tables, pw: seq<PwEntry>, gr: seq<GrEntry>, uid: Id, gid: Id, h: Hits)
    requires Built(t, pw, gr) && CanFind(t, uid, gid, h)
    ensures Answer(t, uid, gid, h) ==> Member(pw, gr, uid, gid)
  {
    hide GidTable, SortedByUid, SortedByGid, InList;
    if h.uidFound && t.uids[h.u].mainGid == gid {
      assert View(t.uids[h.u], t.bytes) in pw;
    } else if h.gidFound && InList(t.gids[h.g], uid, t.bytes) {
      ListedMember(t, pw, gr, t.gids[h.g], uid);
    }
  }

  /** A group entry that surely lists the uid has it packed. */
  lemma {:induction false} SurelyPacked(t: Tables, pw: seq<PwEntry>, gr: seq<GrEntry>, e: GidEntry, uid: Id)
    requires Built(t, pw, gr) && e in t.gids
    requires forall g :: g in gr && g.gid == e.gid ==> SurelyListed(g, pw, uid)
    ensures InList(e, uid, t.bytes)
  {
    hide HasEntry, UidTable, SortedByUid, SortedByGid;
    assert HasGroup(e, gr, pw, t.bytes);
    var g :| g in gr && GidRow(e, g, pw, t.bytes);
    var n :| n in g.members && Exists(n, pw) && forall p :: p in pw && p.name == n ==> p.uid == uid;
    var u := ListsPacked(UidsAt(t.bytes, e.uidsOffset, e.uidCount), g.members, pw, n);
  }

  /** The search for a uid that is there finds it, if the uids are in order. */
  lemma {:induction false} UidFound(t: Tables, pw: seq<PwEntry>, gr: seq<GrEntry>, uid: Id, found: bool, u: nat)
    requires Built(t, pw, gr) && UidResult(t.uids, uid, found, u) && Ranked(Uids(pw)) && uid in Uids(pw)
    ensures found
  {
    hide Ranked, GidTable, SortedByGid;
    UidsInTable(t.uids, pw, t.bytes);
    assert uid in IdSet(UidColumn(t.uids));
    OrderedMayBeSearched(UidColumn(t.uids), uid);
  }

  lemma {:induction false} GidFound(t: Tables, pw: seq<PwEntry>, gr: seq<GrEntry>, gid: Id, found: bool, g: nat)
    requires Built(t, pw, gr) && GidResult(t.gids, gid, found, g) && Ranked(Gids(gr)) && gid in Gids(gr)
    ensures found
  {
    hide Ranked, UidTable, SortedByUid;
    GidsInTable(t.gids, gr, pw, t.bytes);
    assert gid in IdSet(GidColumn(t.gids));
    OrderedMayBeSearched(GidColumn(t.gids), gid);
  }

  /** Whatever the searches find, every answer is right if the databases serve the query. */
  lemma {:induction false} CompleteAnswer(t: Tables, pw: seq<PwEntry>, gr: seq<GrEntry>, uid: Id, gid: Id, h: Hits)
    requires Built(t, pw, gr) && CanFind(t, uid, gid, h) && Served(pw, gr, uid, gid)
    ensures Answer(t, uid, gid, h) <==> Member(pw, gr, uid, gid)
  {
    hide SortedByUid, SortedByGid, SurelyListed, Ranked, InList, GidTable;
    SoundAnswer(t, pw, gr, uid, gid, h);
    if Member(pw, gr, uid, gid) {
      if ServedByPrimary(pw, uid, gid) {
        var p :| p in pw && p.uid == uid;
        assert uid in Uids(pw);
        UidFound(t, pw, gr, uid, h.uidFound, h.u);
        assert View(t.uids[h.u], t.bytes) in pw;
      } else {
        assert gid in Gids(gr);
        GidFound(t, pw, gr, gid, h.gidFound, h.g);
        SurelyPacked(t, pw, gr, t.gids[h.g], uid);
      }
    }
  }

  // ----- Where a query is not served

  lemma {:induction false} SomeUidTable(pw: seq<PwEntry>) returns (cache: seq<UidEntry>, bytes: seq<byte>)
    ensures UidTable(cache, pw, bytes)
    decreases |pw|
  {
    cache, bytes := [], [];
    if pw != [] {
      var n := |pw| - 1;
      cache, bytes := SomeUidTable(pw[..n]);
      UidTableAppend(cache, pw[..n], bytes, pw[n]);
      assert pw[..n] + [pw[n]] == pw;
      cache, bytes := cache + [UidEntry(pw[n].uid, pw[n].gid, |bytes|)], bytes + pw[n].name + [0];
    }
  }

  /** A list that does without the uid wherever another user has the same name. */
  lemma {:induction false} SomeList(members: seq<Name>, pw: seq<PwEntry>, uid: Id) returns (uids: seq<Id>)
    ensures Lists(uids, members, pw)
    ensures uid in uids ==> exists n :: n in members && Exists(n, pw) && forall p :: p in pw && p.name == n ==> p.uid == uid
    decreases |members|
  {
    uids := [];
    if members != [] {
      var n := |members| - 1;
      uids := SomeList(members[..n], pw, uid);
      if Exists(members[n], pw) {
        var p :| p in pw && p.name == members[n];
        if q :| q in pw && q.name == members[n] && q.uid != uid {
          p := q;
        }
        assert (uids + [p.uid])[..|uids|] == uids;
        uids := uids + [p.uid];
      }
    }
  }

  lemma {:induction false} PackAll(bytes: seq<byte>, uids: seq<Id>) returns (bytes': seq<byte>)
    ensures bytes <= bytes' && |bytes'| == |bytes| + 4 * |uids| && UidsAt(bytes', |bytes|, |uids|) == uids
    decreases |uids|
  {
    bytes' := bytes;
    if uids != [] {
      var n := |uids| - 1;
      bytes' := PackAll(bytes, uids[..n]);
      UidsAppend(bytes', |bytes|, n, uids[n]);
      bytes' := bytes' + Encode(uids[n]);
    }
  }

  /** A group table that leaves the uid out of every list where it can. */
  lemma {:induction false} SomeGidTable(gr: seq<GrEntry>, pw: seq<PwEntry>, bytes: seq<byte>, uid: Id)
    returns (cache: seq<GidEntry>, bytes': seq<byte>)
    ensures bytes <= bytes' && GidTable(cache, gr, pw, bytes') && |cache| == |gr|
    ensures forall k :: 0 <= k < |gr| ==> cache[k].gid == gr[k].gid && (InList(cache[k], uid, bytes') ==> SurelyListed(gr[k], pw, uid))
    decreases |gr|
  {
    cache, bytes' := [], bytes;
    if gr == [] {
      GidTableEmpty(pw, bytes);
    } else {
      hide GidTable, Lists, Exists, SurelyListed;
      var n := |gr| - 1;
      var before, older := SomeGidTable(gr[..n], pw, bytes, uid);
      var uids := SomeList(gr[n].members, pw, uid);
      bytes' := PackAll(older, uids);
      var e := GidEntry(gr[n].gid, |uids|, |older|);
      GidTableAppend(before, gr[..n], pw, older, bytes', e, gr[n]);
      assert gr[..n] + [gr[n]] == gr;
      cache := before + [e];
      forall k | 0 <= k < n
        ensures InList(cache[k], uid, bytes') ==> SurelyListed(gr[k], pw, uid)
      {
        InGidTable(before, gr[..n], pw, older, before[k]);
        UidsStable(older, bytes', before[k].uidsOffset, before[k].uidCount);
      }
      SurelyBy(gr[n], pw, uid);
    }
  }

  lemma SurelyBy(g: GrEntry, pw: seq<PwEntry>, uid: Id)
    ensures (exists n :: n in g.members && Exists(n, pw) && forall p :: p in pw && p.name == n ==> p.uid == uid) <==> SurelyListed(g, pw, uid)
  {
  }

  /** A user table in which the search for the uid may miss it, or finds an entry with another primary group. */
  lemma {:induction false} BadUidTable(cache: seq<UidEntry>, pw: seq<PwEntry>, bytes: seq<byte>, uid: Id, gid: Id)
    returns (r: seq<UidEntry>, found: bool, u: nat)
    requires UidTable(cache, pw, bytes) && uid in Uids(pw) && !ServedByPrimary(pw, uid, gid)
    ensures UidTable(r, pw, bytes) && SortedByUid(r) && UidResult(r, uid, found, u) && (found ==> r[u].mainGid != gid)
  {
    hide Ranked, InIdOrder, Partitioned;
    var key := (e: UidEntry) => e.uid;
    UidsInTable(cache, pw, bytes);
    u := 0;
    if Ranked(Uids(pw)) {
      r := IdOrderExists(cache, key);
      UidTablePermuted(cache, r, pw, bytes);
      var p :| p in pw && p.uid == uid && p.gid != gid;
      var e :| e in r && View(e, bytes) == p;
      found := true;
      u :| 0 <= u < |r| && r[u] == e;
    } else {
      assert Column(cache, key) == UidColumn(cache) && uid in UidColumn(cache);
      found := false;
      r := MissExists(cache, key, uid);
      UidTablePermuted(cache, r, pw, bytes);
    }
  }

  /** The same for the group table, where the entry found does not list the uid. */
  lemma {:induction false} BadGidTable(
      cache: seq<GidEntry>, gr: seq<GrEntry>, pw: seq<PwEntry>, bytes: seq<byte>, uid: Id, gid: Id)
    returns (r: seq<GidEntry>, found: bool, g: nat)
    requires GidTable(cache, gr, pw, bytes) && !ServedByList(pw, gr, uid, gid)
    requires forall h :: h in gr ==> exists e :: e in cache && e.gid == h.gid && (InList(e, uid, bytes) ==> SurelyListed(h, pw, uid))
    ensures GidTable(r, gr, pw, bytes) && SortedByGid(r) && GidResult(r, gid, found, g) && (found ==> !InList(r[g], uid, bytes))
  {
    hide Ranked, InIdOrder, Partitioned, GidTable, InList, SurelyListed;
    var key := (e: GidEntry) => e.gid;
    GidsInTable(cache, gr, pw, bytes);
    g := 0;
    if !GroupExists(gr, gid) {
      found := false;
      r := IdOrderExists(cache, key);
      GidTablePermuted(cache, r, gr, pw, bytes);
      SameColumn(r, cache, key);
      assert gid !in Gids(gr);
    } else if Ranked(Gids(gr)) {
      r := IdOrderExists(cache, key);
      GidTablePermuted(cache, r, gr, pw, bytes);
      Permuted(r, cache);
      var h :| h in gr && h.gid == gid && !SurelyListed(h, pw, uid);
      var e :| e in cache && e.gid == gid && !InList(e, uid, bytes);
      found := true;
      g :| 0 <= g < |r| && r[g] == e;
    } else {
      assert Column(cache, key) == GidColumn(cache) && gid in GidColumn(cache);
      found := false;
      r := MissExists(cache, key, gid);
      GidTablePermuted(cache, r, gr, pw, bytes);
    }
  }

  /** Every group has an entry that does without the uid if any can. */
  lemma {:induction false} LeastEntries(cache: seq<GidEntry>, gr: seq<GrEntry>, pw: seq<PwEntry>, bytes: seq<byte>, uid: Id)
    requires |cache| == |gr|
    requires forall k :: 0 <= k < |gr| ==> cache[k].gid == gr[k].gid && (InList(cache[k], uid, bytes) ==> SurelyListed(gr[k], pw, uid))
    ensures forall h :: h in gr ==> exists e :: e in cache && e.gid == h.gid && (InList(e, uid, bytes) ==> SurelyListed(h, pw, uid))
  {
    hide InList, SurelyListed;
    forall h | h in gr
      ensures exists e :: e in cache && e.gid == h.gid && (InList(e, uid, bytes) ==> SurelyListed(h, pw, uid))
    {
      var k :| 0 <= k < |gr| && gr[k] == h;
      assert cache[k] in cache;
    }
  }

  /** Some search results for which the answer is no. */
  lemma {:induction false} CanDeny(t: Tables, uid: Id, gid: Id, h: Hits)
    requires CanFind(t, uid, gid, h)
    requires (h.uidFound ==> t.uids[h.u].mainGid != gid) && (h.gidFound ==> !InList(t.gids[h.g], uid, t.bytes))
    ensures CanAnswer(t, uid, gid, false)
  {
    hide InList, UidResult, GidResult;
    assert !Answer(t, uid, gid, h);
  }

  lemma NotServed(pw: seq<PwEntry>, gr: seq<GrEntry>, uid: Id, gid: Id)
    requires !Served(pw, gr, uid, gid)
    ensures Member(pw, gr, uid, gid) && uid in Uids(pw) && !ServedByPrimary(pw, uid, gid) && !ServedByList(pw, gr, uid, gid)
  {
    hide ServedByPrimary, ServedByList;
    var p :| p in pw && p.uid == uid;
  }

  /** If the databases do not serve a query, there are tables for them, and search results, that deny a true membership. */
  lemma {:induction false} Unserved(pw: seq<PwEntry>, gr: seq<GrEntry>, uid: Id, gid: Id) returns (t: Tables)
    requires !Served(pw, gr, uid, gid)
    ensures Member(pw, gr, uid, gid) && Built(t, pw, gr) && CanAnswer(t, uid, gid, false)
  {
    NotServed(pw, gr, uid, gid);
    hide UidTable, GidTable, InList, SurelyListed, ServedByPrimary, ServedByList, SortedByUid, SortedByGid, UidResult, GidResult,
      Member, Served, CanAnswer, Uids;
    var uids, names := SomeUidTable(pw);
    var gids, bytes := SomeGidTable(gr, pw, names, uid);
    UidTableGrows(uids, pw, names, bytes);
    LeastEntries(gids, gr, pw, bytes, uid);
    var badUids, uidFound, u := BadUidTable(uids, pw, bytes, uid, gid);
    var badGids, gidFound, g := BadGidTable(gids, gr, pw, bytes, uid, gid);
    t := Tables(badUids, badGids, bytes);
    CanDeny(t, uid, gid, Hits(uidFound, u, gidFound, g));
  }

  lemma {:induction false} AnswersRight(t: Tables, pw: seq<PwEntry>, gr: seq<GrEntry>, uid: Id, gid: Id, answer: bool)
    requires Built(t, pw, gr) && CanAnswer(t, uid, gid, answer)
    ensures answer ==> Member(pw, gr, uid, gid)
    ensures Served(pw, gr, uid, gid) ==> (answer <==> Member(pw, gr, uid, gid))
  {
    hide Built, Member, Served, CanFind;
    var h :| CanFind(t, uid, gid, h) && answer == Answer(t, uid, gid, h);
    AnswerGiven(t, pw, gr, uid, gid, h);
  }

  /**
   Which queries are answered right, whatever qsort makes of equal entries and of ids
   without an order, and whatever bsearch finds there: exactly those the databases serve.
   */
  lemma {:induction false} ServedIff(pw: seq<PwEntry>, gr: seq<GrEntry>, uid: Id, gid: Id)
    ensures Served(pw, gr, uid, gid) <==>
            forall t, answer :: Built(t, pw, gr) && CanAnswer(t, uid, gid, answer) ==> (answer <==> Member(pw, gr, uid, gid))
  {
    hide Built, CanAnswer, Served, Member;
    if Served(pw, gr, uid, gid) {
      forall t, answer | Built(t, pw, gr) && CanAnswer(t, uid, gid, answer)
        ensures answer <==> Member(pw, gr, uid, gid)
      {
        AnswersRight(t, pw, gr, uid, gid, answer);
      }
    } else {
      var t := Unserved(pw, gr, uid, gid);
    }
  }

  /**
   Two users that share a uid but not a primary group, and that no group lists: for
   whatever the search for the uid finds, one of the two memberships is denied.
   */
  lemma {:induction false} SharedUidMissesOne(t: Tables, pw: seq<PwEntry>, gr: seq<GrEntry>, p: PwEntry, q: PwEntry, uidFound: bool, u: nat)
    requires Built(t, pw, gr) && UidResult(t.uids, p.uid, uidFound, u)
    requires p in pw && q in pw && p.uid == q.uid && p.gid != q.gid
    requires forall g, r :: g in gr && r in pw && r.uid == p.uid ==> r.name !in g.members
    ensures exists gid :: Member(pw, gr, p.uid, gid) && Denied(t, p.uid, gid, uidFound, u)
  {
    assert Member(pw, gr, p.uid, p.gid) && Member(pw, gr, p.uid, q.gid);
    hide Built, Member, InList, GidResult;
    var gid := if uidFound && t.uids[u].mainGid == p.gid then q.gid else p.gid;
    forall gidFound, g: nat | GidResult(t.gids, gid, gidFound, g)
      ensures !Answer(t, p.uid, gid, Hits(uidFound, u, gidFound, g))
    {
      if gidFound {
        GidHit(t, pw, gr, gid, g);
        NobodyListed(t, pw, gr, t.gids[g], p.uid);
      }
    }
    assert Denied(t, p.uid, gid, uidFound, u);
  }

  /** The answer is no, whatever the search for the group finds. */
  ghost predicate Denied(t: Tables, uid: Id, gid: Id, uidFound: bool, u: nat)
    requires UidResult(t.uids, uid, uidFound, u)
  {
    forall gidFound, g: nat | GidResult(t.gids, gid, gidFound, g) :: !Answer(t, uid, gid, Hits(uidFound, u, gidFound, g))
  }

  lemma {:induction false} NobodyListed(t: Tables, pw: seq<PwEntry>, gr: seq<GrEntry>, e: GidEntry, uid: Id)
    requires Built(t, pw, gr) && e in t.gids
    requires forall g, r :: g in gr && r in pw && r.uid == uid ==> r.name !in g.members
    ensures !InList(e, uid, t.bytes)
  {
    hide HasEntry;
    if InList(e, uid, t.bytes) {
      assert HasGroup(e, gr, pw, t.bytes);
      var g :| g in gr && GidRow(e, g, pw, t.bytes);
      ListsNamed(UidsAt(t.bytes, e.uidsOffset, e.uidCount), g.members, pw, uid);
    }
  }

  /** A membership by primary group that is not served without groups, if someone else shares the uid. */
  lemma {:induction false} SharedWithoutGroups(pw: seq<PwEntry>, p: PwEntry, q: PwEntry)
    requires p in pw && q in pw && p.uid == q.uid && p.gid != q.gid
    ensures !Served(pw, [], p.uid, p.gid)
  {
    hide Ranked;
    assert Member(pw, [], p.uid, p.gid);
  }

  lemma {:induction false} ServedInGroups(pw: seq<PwEntry>, gr: seq<GrEntry>, p: PwEntry, gid: Id)
    requires p in pw && GroupExists(gr, gid) && Ranked(Gids(gr))
    requires (forall g :: g in gr ==> p.name in g.members) && (forall q :: q in pw ==> q.uid == p.uid)
    ensures Served(pw, gr, p.uid, gid)
  {
    hide Ranked, Member;
    assert Exists(p.name, pw);
    forall g | g in gr
      ensures SurelyListed(g, pw, p.uid)
    {
      assert p.name in g.members;
    }
  }

  /**
   Users 110 and 109 share uid 5 and have primary groups 1 and 2.  Without any groups
   neither membership is served; if both groups list user 110, both are.
   */
  lemma {:induction false} SharedUidExample()
    ensures var pw := [PwEntry([110], 5, 1), PwEntry([109], 5, 2)];
            var gr := [GrEntry(1, [[110]]), GrEntry(2, [[110]])];
            && !Served(pw, [], 5, 1) && !Served(pw, [], 5, 2)
            && Served(pw, gr, 5, 1) && Served(pw, gr, 5, 2)
  {
    hide Served, Ranked;
    var p, q := PwEntry([110], 5, 1), PwEntry([109], 5, 2);
    var pw := [p, q];
    var gr := [GrEntry(1, [[110]]), GrEntry(2, [[110]])];
    assert p in pw && q in pw && gr[0] in gr && gr[1] in gr;
    SharedWithoutGroups(pw, p, q);
    SharedWithoutGroups(pw, q, p);
    SmallIdsRanked(pw, gr);
    assert forall g :: g in gr ==> g.members == [p.name];
    ServedInGroups(pw, gr, p, 1);
    ServedInGroups(pw, gr, p, 2);
  }

  lemma GidTableEmpty(pw: seq<PwEntry>, bytes: seq<byte>)
    ensures GidTable([], [], pw, bytes)
  {
  }

  lemma NothingListed(pw: seq<PwEntry>, bytes: seq<byte>, offset: nat)
    requires offset <= |bytes|
    ensures UidsAt(bytes, offset, 0) == [] && Lists([], [], pw)
  {
  }

  lemma {:induction false} ListsFound(uids: seq<Id>, members: seq<Name>, name: Name, uid: Id, pw: seq<PwEntry>)
    requires Lists(uids, members, pw) && HasUid(name, uid, pw)
    ensures Lists(uids + [uid], members + [name], pw)
  {
    assert (members + [name])[..|members|] == members && (uids + [uid])[..|uids|] == uids;
  }

  lemma {:induction false} ListsMissing(uids: seq<Id>, members: seq<Name>, name: Name, pw: seq<PwEntry>)
    requires Lists(uids, members, pw) && !Exists(name, pw)
    ensures Lists(uids, members + [name], pw)
  {
    assert (members + [name])[..|members|] == members;
  }

  lemma {:induction false} UidsAppend(bytes: seq<byte>, offset: nat, count: nat, uid: Id)
    requires |bytes| == offset + 4 * count
    ensures UidsAt(bytes + Encode(uid), offset, count + 1) == UidsAt(bytes, offset, count) + [uid]
  {
    hide Encode, Decode;
    var bytes' := bytes + Encode(uid);
    UidsStable(bytes, bytes', offset, count);
    DecodeEncode(uid);
    assert bytes'[offset + 4 * (count + 1) - 4..offset + 4 * (count + 1)] == Encode(uid);
  }

  lemma {:induction false} TableGrows(cache: seq<UidEntry>, pw: seq<PwEntry>, bytes: seq<byte>, bytes': seq<byte>)
    requires UidTable(cache, pw, bytes) && SortedByName(cache, bytes) && bytes <= bytes'
    ensures UidTable(cache, pw, bytes') && SortedByName(cache, bytes')
  {
    UidTableGrows(cache, pw, bytes, bytes');
    forall i, j | 0 <= i < j < |cache|
      ensures StrCmp(View(cache[i], bytes').name, View(cache[j], bytes').name) <= 0
    {
      assert cache[i] in cache && cache[j] in cache;
    }
  }

  lemma {:induction false} NamesFall(cache: seq<UidEntry>, bytes: seq<byte>, name: Name, probe: UidEntry -> int)
    requires SortedByName(cache, bytes)
    requires forall e :: probe(e) == StrCmp(name, NameAt(bytes, e.nameOffset))
    ensures Falling(cache, probe)
  {
    forall i, j | 0 <= i < j < |cache|
      ensures (probe(cache[i]) <= 0 ==> probe(cache[j]) <= 0) && (probe(cache[i]) < 0 ==> probe(cache[j]) < 0)
    {
      StrCmpOrder(name, NameAt(bytes, cache[i].nameOffset), NameAt(bytes, cache[j].nameOffset));
      assert StrCmp(View(cache[i], bytes).name, View(cache[j], bytes).name) <= 0;
    }
  }

  lemma UidTableEmpty(bytes: seq<byte>)
    ensures UidTable([], [], bytes)
  {
  }
}
