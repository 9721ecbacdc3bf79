/**
 src/usermap.c and the places of src/bindfs.c that fill the two id maps: a table
 of pairs searched from the front, and paired insertions that keep the forward
 and the reverse table in lock step.
 */
module UserMaps {

  /** uid_t and gid_t: 32 bits, unsigned. */
  type Id = x: int | 0 <= x < 0x1_0000_0000

  /** (uid_t)-1, which the duplicate check also takes to mean "absent". */
  const NO_ID: Id := 0xFFFF_FFFF

  type Pairs = seq<(Id, Id)>

  predicate HasKey(pairs: Pairs, u: Id) {
    exists i :: 0 <= i < |pairs| && pairs[i].0 == u
  }

  /** The target of the first pair with source `u`. */
  function Lookup(pairs: Pairs, u: Id, default: Id): Id {
    if pairs == [] then default
    else if pairs[0].0 == u then pairs[0].1
    else Lookup(pairs[1..], u, default)
  }

  /** Where the scan for `u` stops, the answer is there. */
  lemma {:induction false} LookupFirst(pairs: Pairs, u: Id, default: Id, i: nat)
    requires i <= |pairs| && (forall k :: 0 <= k < i ==> pairs[k].0 != u) && (i < |pairs| ==> pairs[i].0 == u)
    ensures Lookup(pairs, u, default) == if i < |pairs| then pairs[i].1 else default
    decreases |pairs|
  {
    if i > 0 {
      LookupFirst(pairs[1..], u, default, i - 1);
    }
  }

  /** Pair `i` is the first one with source `u`. */
  ghost predicate FirstAt(pairs: Pairs, u: Id, i: int) {
    0 <= i < |pairs| && pairs[i].0 == u && forall k :: 0 <= k < i ==> pairs[k].0 != u
  }

  lemma {:induction false} LookupIs(pairs: Pairs, u: Id, default: Id)
    ensures forall i :: FirstAt(pairs, u, i) ==> Lookup(pairs, u, default) == pairs[i].1
    ensures !HasKey(pairs, u) ==> Lookup(pairs, u, default) == default
  {
    forall i | FirstAt(pairs, u, i)
      ensures Lookup(pairs, u, default) == pairs[i].1
    {
      LookupFirst(pairs, u, default, i);
    }
    if !HasKey(pairs, u) {
      LookupFirst(pairs, u, default, |pairs|);
    }
  }

  /** A source may come again only while its first pair maps it to (uid_t)-1. */
  ghost predicate MayFollow(pairs: Pairs, source: Id) {
    forall i :: FirstAt(pairs, source, i) ==> pairs[i].1 == 0xFFFF_FFFF
  }

  /** A failed insertion leaves the table alone, and so does an identity pair. */
  ghost predicate CanAdd(pairs: Pairs, source: Id, target: Id) {
    source == target || MayFollow(pairs, source)
  }

  lemma {:induction false} MayFollowByLookup(pairs: Pairs, source: Id)
    ensures MayFollow(pairs, source) <==> Lookup(pairs, source, NO_ID) == NO_ID
  {
    LookupIs(pairs, source, NO_ID);
    if HasKey(pairs, source) {
      var i := FirstOccurrence(pairs, source, NO_ID);
      assert FirstAt(pairs, source, i);
    }
  }

  function Added(pairs: Pairs, source: Id, target: Id): Pairs {
    if source == target then pairs else pairs + [(source, target)]
  }

  /** One half of struct UserMap: two parallel arrays and how many entries are in use. */
  class IdTable {
    var sources: array<Id>
    var targets: array<Id>
    var size: nat

    ghost predicate Valid()
      reads this
    {
      sources != targets && sources.Length == targets.Length && size <= sources.Length
    }

    /** The objects the table is made of. */
    ghost function Footprint(): set<object>
      reads this
    {
      {this, sources, targets}
    }

    ghost function Contents(): (pairs: Pairs)
      requires Valid()
      reads this, sources, targets
      ensures |pairs| == size
      ensures forall i :: 0 <= i < size ==> pairs[i] == (sources[i], targets[i])
    {
      seq(size, i requires 0 <= i < size && Valid() reads this, sources, targets => (sources[i], targets[i]))
    }

    constructor ()
      ensures Valid() && Contents() == [] && fresh(sources) && fresh(targets)
    {
      sources, targets := new Id[0], new Id[0];
      size := 0;
    }

    /** The linear search of usermap_get_uid_or_default. */
    method Get(u: Id, default: Id) returns (r: Id)
      requires Valid()
      ensures r == Lookup(Contents(), u, default)
      ensures forall i :: FirstAt(Contents(), u, i) ==> r == Contents()[i].1
      ensures !HasKey(Contents(), u) ==> r == default
    {
      hide FirstAt, HasKey, Lookup;
      ghost var pairs := Contents();
      LookupIs(pairs, u, default);
      var i := 0;
      while i < size
        invariant i <= size && forall k :: 0 <= k < i ==> pairs[k].0 != u
      {
        if sources[i] == u {
          LookupFirst(pairs, u, default, i);
          return targets[i];
        }
        i := i + 1;
      }
      LookupFirst(pairs, u, default, i);
      r := default;
    }

    /** Doubles the capacity; the entries stay. */
    method Grow()
      requires Valid()
      modifies this`sources, this`targets
      ensures Valid() && size < sources.Length && fresh(sources) && fresh(targets)
      ensures sources.Length == if old(sources.Length) == 0 then 8 else 2 * old(sources.Length)
      ensures Contents() == old(Contents())
    {
      var capacity := if sources.Length == 0 then 8 else 2 * sources.Length;
      var newSources, newTargets := new Id[capacity], new Id[capacity];
      forall i | 0 <= i < size {
        newSources[i] := sources[i];
      }
      forall i | 0 <= i < size {
        newTargets[i] := targets[i];
      }
      sources, targets := newSources, newTargets;
    }

    /** usermap_add_uid */
    method Add(source: Id, target: Id) returns (ok: bool)
      requires Valid()
      modifies this, sources, targets
      ensures Valid() && fresh({sources, targets} - {old(sources), old(targets)})
      ensures ok <==> source == target || forall i :: FirstAt(old(Contents()), source, i) ==> old(Contents())[i].1 == 0xFFFF_FFFF
      ensures Contents() == old(Contents()) + if ok && source != target then [(source, target)] else []
    {
      MayFollowByLookup(Contents(), source);
      if source == target {
        return true;
      }
      if size == sources.Length {
        Grow();
      }
      var present := Get(source, NO_ID);
      if present != NO_ID {
        return false;
      }
      sources[size] := source;
      targets[size] := target;
      size := size + 1;
      ok := true;
    }
  }

  // ----- Paired insertions

  /** The forward table and the reverse one. */
  datatype Maps = Maps(forward: Pairs, reverse: Pairs)

  /** One paired insertion; the -rev options insert with the two tables swapped. */
  datatype Insertion = Insertion(source: Id, target: Id, swapped: bool)

  function Swap(m: Maps): Maps {
    Maps(m.reverse, m.forward)
  }

  /** Both insertions succeed: add to one table, then the mirror image to the other. */
  ghost predicate CanInsert(m: Maps, x: Insertion) {
    var m' := if x.swapped then Swap(m) else m;
    CanAdd(m'.forward, x.source, x.target) && CanAdd(m'.reverse, x.target, x.source)
  }

  function Insert(m: Maps, x: Insertion): Maps {
    if x.swapped then Maps(Added(m.forward, x.target, x.source), Added(m.reverse, x.source, x.target))
    else Maps(Added(m.forward, x.source, x.target), Added(m.reverse, x.target, x.source))
  }

  /** The code of parse_user_map and parse_map_file around one entry. */
  method InsertPair(table: IdTable, reverse: IdTable, source: Id, target: Id) returns (ok: bool)
    requires table.Valid() && reverse.Valid() && table.Footprint() !! reverse.Footprint()
    modifies table.Footprint(), reverse.Footprint()
    ensures table.Valid() && reverse.Valid() && table.Footprint() !! reverse.Footprint()
    ensures fresh(table.Footprint() - old(table.Footprint())) && fresh(reverse.Footprint() - old(reverse.Footprint()))
    ensures var m := old(Maps(table.Contents(), reverse.Contents()));
            var x := Insertion(source, target, false);
            && (ok <==> CanInsert(m, x))
            && (ok ==> Maps(table.Contents(), reverse.Contents()) == Insert(m, x))
  {
    ok := table.Add(source, target);
    if ok {
      ok := reverse.Add(target, source);
    }
  }

  /** `m` is what some run of successful insertions makes of two empty tables. */
  ghost predicate Succeeds(run: seq<Insertion>, m: Maps)
    decreases |run|
  {
    if run == [] then m == Maps([], [])
    else
      var n := |run| - 1;
      exists before :: Succeeds(run[..n], before) && CanInsert(before, run[n]) && m == Insert(before, run[n])
  }

  /** One option entry: the -rev options swap the tables. */
  method InsertNext(forward: IdTable, reverse: IdTable, x: Insertion) returns (ok: bool)
    requires forward.Valid() && reverse.Valid() && forward.Footprint() !! reverse.Footprint()
    modifies forward.Footprint(), reverse.Footprint()
    ensures forward.Valid() && reverse.Valid() && forward.Footprint() !! reverse.Footprint()
    ensures fresh(forward.Footprint() - old(forward.Footprint())) && fresh(reverse.Footprint() - old(reverse.Footprint()))
    ensures var m := old(Maps(forward.Contents(), reverse.Contents()));
            && (ok <==> CanInsert(m, x))
            && (ok ==> Maps(forward.Contents(), reverse.Contents()) == Insert(m, x))
  {
    if x.swapped {
      ok := InsertPair(reverse, forward, x.source, x.target);
    } else {
      ok := InsertPair(forward, reverse, x.source, x.target);
    }
  }

  lemma SucceedsNothing()
    ensures Succeeds([], Maps([], []))
  {
  }

  lemma {:induction false} SucceedsNext(run: seq<Insertion>, i: nat, before: Maps)
    requires i < |run| && Succeeds(run[..i], before) && CanInsert(before, run[i])
    ensures Succeeds(run[..i + 1], Insert(before, run[i]))
  {
    hide CanInsert, Insert;
    assert run[..i + 1][..i] == run[..i];
  }

  /**
   Filling both tables from the options, entry by entry, stopping at the first failure:
   it succeeds exactly if the pairs repeat neither a source nor a target, other than
   after (uid_t)-1, and then the tables are those pairs and their mirror images.
   */
  method FillMaps(run: seq<Insertion>) returns (ok: bool, forward: IdTable, reverse: IdTable)
    ensures forward.Valid() && reverse.Valid()
    ensures ok <==> RepeatsAfterNoId(Entries(run)) && RepeatsAfterNoId(Turned(Entries(run)))
    ensures ok ==> Succeeds(run, Maps(forward.Contents(), reverse.Contents()))
    ensures ok ==> forward.Contents() == Entries(run) && reverse.Contents() == Turned(Entries(run))
  {
    hide Succeeds, CanInsert, Insert, RepeatsAfterNoId, Entries;
    forward := new IdTable();
    reverse := new IdTable();
    SucceedsNothing();
    var i := 0;
    while i < |run|
      invariant 0 <= i <= |run|
      invariant forward.Valid() && reverse.Valid() && forward.Footprint() !! reverse.Footprint()
      invariant fresh(forward.Footprint()) && fresh(reverse.Footprint())
      invariant Succeeds(run[..i], Maps(forward.Contents(), reverse.Contents()))
    {
      ghost var before := Maps(forward.Contents(), reverse.Contents());
      ok := InsertNext(forward, reverse, run[i]);
      if !ok {
        RefusedAt(run, i, before);
        return;
      }
      SucceedsNext(run, i, before);
      i := i + 1;
    }
    assert run[..i] == run;
    ok := true;
    TablesAreEntries(run, Maps(forward.Contents(), reverse.Contents()));
    AcceptedIff(run);
  }

  /** The reverse table is the forward one with every pair turned around. */
  ghost predicate Mirrored(m: Maps) {
    |m.forward| == |m.reverse| &&
    forall i :: 0 <= i < |m.forward| ==> m.reverse[i] == (m.forward[i].1, m.forward[i].0)
  }

  ghost predicate NoIdentities(pairs: Pairs) {
    forall i :: 0 <= i < |pairs| ==> pairs[i].0 != pairs[i].1
  }

  /** A source can only come again if its first pair maps it to (uid_t)-1. */
  ghost predicate RepeatsAfterNoId(pairs: Pairs) {
    forall i, j :: 0 <= i < j < |pairs| && FirstAt(pairs, pairs[j].0, i) ==> pairs[i].1 == 0xFFFF_FFFF
  }

  lemma FirstAtPrefix(pairs: Pairs, more: Pairs, u: Id, i: int)
    ensures i < |pairs| ==> (FirstAt(pairs + more, u, i) <==> FirstAt(pairs, u, i))
  {
    assert forall k :: 0 <= k < |pairs| ==> (pairs + more)[k] == pairs[k];
  }

  /** One pair more may be added exactly if its source may come again. */
  lemma {:induction false} RepeatsSnoc(pairs: Pairs, source: Id, target: Id)
    ensures RepeatsAfterNoId(pairs + [(source, target)]) <==> RepeatsAfterNoId(pairs) && MayFollow(pairs, source)
  {
    hide FirstAt;
    var all := pairs + [(source, target)];
    forall u, i: int
      ensures i < |pairs| ==> (FirstAt(all, u, i) <==> FirstAt(pairs, u, i))
    {
      FirstAtPrefix(pairs, [(source, target)], u, i);
    }
    assert forall k :: 0 <= k < |pairs| ==> all[k] == pairs[k];
    assert all[|pairs|] == (source, target);
    forall i | FirstAt(pairs, source, i)
      ensures 0 <= i < |pairs|
    {
      FirstAtInside(pairs, source, i);
    }
    if RepeatsAfterNoId(all) {
      assert forall i, j :: 0 <= i < j < |pairs| && FirstAt(pairs, pairs[j].0, i) ==> FirstAt(all, all[j].0, i);
      assert forall i :: FirstAt(pairs, source, i) ==> FirstAt(all, all[|pairs|].0, i);
    }
    if RepeatsAfterNoId(pairs) && MayFollow(pairs, source) {
      forall i, j | 0 <= i < j < |all| && FirstAt(all, all[j].0, i)
        ensures all[i].1 == 0xFFFF_FFFF
      {
        assert FirstAt(pairs, all[j].0, i);
        assert j < |pairs| ==> FirstAt(pairs, pairs[j].0, i);
      }
    }
  }

  lemma FirstAtInside(pairs: Pairs, u: Id, i: int)
    requires FirstAt(pairs, u, i)
    ensures 0 <= i < |pairs|
  {
  }

  ghost predicate DistinctKeys(pairs: Pairs) {
    forall i, j :: 0 <= i < j < |pairs| ==> pairs[i].0 != pairs[j].0
  }

  /** Pair `j` is never found: its source came before. */
  ghost predicate Shadowed(pairs: Pairs, j: nat)
    requires j < |pairs|
  {
    exists i :: 0 <= i < j && pairs[i].0 == pairs[j].0
  }

  /** What every successful run keeps, whatever the ids. */
  lemma {:induction false} RunInvariant(run: seq<Insertion>, m: Maps)
    requires Succeeds(run, m)
    ensures Mirrored(m) && NoIdentities(m.forward)
    ensures RepeatsAfterNoId(m.forward) && RepeatsAfterNoId(m.reverse)
    decreases |run|
  {
    if run != [] {
      var n := |run| - 1;
      var before :| Succeeds(run[..n], before) && CanInsert(before, run[n]) && m == Insert(before, run[n]);
      RunInvariant(run[..n], before);
      var x := run[n];
      var a, b := if x.swapped then x.target else x.source, if x.swapped then x.source else x.target;
      AddKeepsRepeats(before.forward, a, b);
      AddKeepsRepeats(before.reverse, b, a);
    }
  }

  lemma {:induction false} AddKeepsRepeats(pairs: Pairs, source: Id, target: Id)
    requires RepeatsAfterNoId(pairs) && CanAdd(pairs, source, target)
    ensures RepeatsAfterNoId(Added(pairs, source, target))
  {
    RepeatsSnoc(pairs, source, target);
  }

  /** Lookups in the two tables undo each other, and find nothing the other does not know. */
  ghost predicate MutuallyInverse(m: Maps) {
    forall a, b ::
      (HasKey(m.forward, a) && Lookup(m.forward, a, NO_ID) == b) <==>
      (HasKey(m.reverse, b) && Lookup(m.reverse, b, NO_ID) == a)
  }

  lemma {:induction false} LookupAt(pairs: Pairs, i: nat, default: Id)
    requires i < |pairs| && !Shadowed(pairs, i)
    ensures HasKey(pairs, pairs[i].0) && Lookup(pairs, pairs[i].0, default) == pairs[i].1
  {
    LookupFirst(pairs, pairs[i].0, default, i);
  }

  /** A key is answered by the pair where it first occurs. */
  lemma FirstOccurrence(pairs: Pairs, u: Id, default: Id) returns (i: nat)
    requires HasKey(pairs, u)
    ensures i < |pairs| && pairs[i] == (u, Lookup(pairs, u, default))
    ensures forall k :: 0 <= k < i ==> pairs[k].0 != u
  {
    i := 0;
    while pairs[i].0 != u
      invariant i < |pairs| && forall k :: 0 <= k < i ==> pairs[k].0 != u
      decreases |pairs| - i
    {
      i := i + 1;
    }
    LookupFirst(pairs, u, default, i);
  }

  lemma {:induction false} InverseOneWay(m: Maps, a: Id, b: Id)
    requires Mirrored(m)
    requires forall j :: 0 <= j < |m.forward| ==> !Shadowed(m.forward, j) ==> !Shadowed(m.reverse, j)
    requires HasKey(m.forward, a) && Lookup(m.forward, a, NO_ID) == b
    ensures HasKey(m.reverse, b) && Lookup(m.reverse, b, NO_ID) == a
  {
    var i := FirstOccurrence(m.forward, a, NO_ID);
    LookupAt(m.reverse, i, NO_ID);
  }

  /** If the tables are inverse, a pair found in one is found in the other. */
  lemma {:induction false} FoundInBoth(m: Maps, j: nat)
    requires Mirrored(m) && MutuallyInverse(m) && j < |m.forward| && !Shadowed(m.forward, j)
    ensures !Shadowed(m.reverse, j)
  {
    var (a, b) := m.forward[j];
    LookupAt(m.forward, j, NO_ID);
    assert HasKey(m.reverse, b) && Lookup(m.reverse, b, NO_ID) == a;
    var i := FirstOccurrence(m.reverse, b, NO_ID);
    assert m.forward[i] == (a, b);
  }

  /** The tables are inverse exactly when the same pairs are shadowed in both. */
  lemma {:induction false} InverseIffShadowed(m: Maps)
    requires Mirrored(m)
    ensures MutuallyInverse(m) <==>
            forall j :: 0 <= j < |m.forward| ==> (Shadowed(m.forward, j) <==> Shadowed(m.reverse, j))
  {
    if MutuallyInverse(m) {
      forall j | 0 <= j < |m.forward|
        ensures Shadowed(m.forward, j) <==> Shadowed(m.reverse, j)
      {
        if !Shadowed(m.forward, j) {
          FoundInBoth(m, j);
        }
        if !Shadowed(m.reverse, j) {
          SwapInverse(m);
          FoundInBoth(Swap(m), j);
        }
      }
    }
    if forall j :: 0 <= j < |m.forward| ==> (Shadowed(m.forward, j) <==> Shadowed(m.reverse, j)) {
      forall a, b
        ensures (HasKey(m.forward, a) && Lookup(m.forward, a, NO_ID) == b) <==>
                (HasKey(m.reverse, b) && Lookup(m.reverse, b, NO_ID) == a)
      {
        if HasKey(m.forward, a) && Lookup(m.forward, a, NO_ID) == b {
          InverseOneWay(m, a, b);
        }
        if HasKey(m.reverse, b) && Lookup(m.reverse, b, NO_ID) == a {
          InverseOneWay(Swap(m), b, a);
        }
      }
    }
  }

  lemma {:induction false} SwapInverse(m: Maps)
    requires MutuallyInverse(m)
    ensures MutuallyInverse(Swap(m))
  {
  }

  /** In a table filled by successful insertions, only a pair to `NO_ID` lets its source come again. */
  lemma {:induction false} ShadowedByNoId(pairs: Pairs, j: nat)
    requires j < |pairs| && RepeatsAfterNoId(pairs) && NoIdentities(pairs)
    ensures Shadowed(pairs, j) <==> (pairs[j].0, NO_ID) in pairs[..j]
  {
    if Shadowed(pairs, j) {
      var i :| 0 <= i < j && pairs[i].0 == pairs[j].0;
      assert pairs[..j][i].0 == pairs[j].0;
      var k := FirstOccurrence(pairs[..j], pairs[j].0, NO_ID);
      assert FirstAt(pairs, pairs[j].0, k);
      assert pairs[..j][k] == (pairs[j].0, NO_ID);
    }
  }

  /** The pairs of a list of insertions as seen from the forward table: turned around if swapped, identities left out. */
  function Entries(run: seq<Insertion>): Pairs
    decreases |run|
  {
    if run == [] then []
    else
      var n, x := |run| - 1, run[|run| - 1];
      Entries(run[..n]) +
      if x.source == x.target then [] else if x.swapped then [(x.target, x.source)] else [(x.source, x.target)]
  }

  function Turned(pairs: Pairs): (r: Pairs)
    ensures |r| == |pairs| && forall i :: 0 <= i < |r| ==> r[i] == (pairs[i].1, pairs[i].0)
  {
    seq(|pairs|, i requires 0 <= i < |pairs| => (pairs[i].1, pairs[i].0))
  }

  /** A run that succeeds leaves exactly its pairs, in order, and their mirror images. */
  lemma {:induction false} TablesAreEntries(run: seq<Insertion>, m: Maps)
    requires Succeeds(run, m)
    ensures m == Maps(Entries(run), Turned(Entries(run)))
    decreases |run|
  {
    RunInvariant(run, m);
    if run != [] {
      var n := |run| - 1;
      var before :| Succeeds(run[..n], before) && CanInsert(before, run[n]) && m == Insert(before, run[n]);
      TablesAreEntries(run[..n], before);
    }
    assert m.reverse == Turned(m.forward);
  }

  /** The pair a single insertion contributes, if any. */
  lemma {:induction false} EntriesSnoc(run: seq<Insertion>, n: nat)
    requires n < |run|
    ensures Entries(run[..n + 1]) == Added(Entries(run[..n]), if run[n].swapped then run[n].target else run[n].source,
                                           if run[n].swapped then run[n].source else run[n].target)
    ensures Turned(Entries(run[..n + 1])) == Added(Turned(Entries(run[..n])), if run[n].swapped then run[n].source else run[n].target,
                                           if run[n].swapped then run[n].target else run[n].source)
  {
    assert run[..n + 1][..n] == run[..n];
  }

  /** Whether the next insertion is possible, by the pairs so far. */
  lemma {:induction false} CanInsertIff(run: seq<Insertion>, n: nat, m: Maps)
    requires n < |run| && Succeeds(run[..n], m)
    ensures RepeatsAfterNoId(Entries(run[..n])) && RepeatsAfterNoId(Turned(Entries(run[..n])))
    ensures CanInsert(m, run[n]) <==>
            RepeatsAfterNoId(Entries(run[..n + 1])) && RepeatsAfterNoId(Turned(Entries(run[..n + 1])))
  {
    hide Succeeds, RepeatsAfterNoId, MayFollow, Entries, Turned;
    TablesAreEntries(run[..n], m);
    RunInvariant(run[..n], m);
    EntriesSnoc(run, n);
    var x := run[n];
    var a, b := if x.swapped then x.target else x.source, if x.swapped then x.source else x.target;
    RepeatsSnoc(m.forward, a, b);
    RepeatsSnoc(m.reverse, b, a);
  }

  lemma {:induction false} RepeatsPrefix(pairs: Pairs, more: Pairs)
    requires RepeatsAfterNoId(pairs + more)
    ensures RepeatsAfterNoId(pairs)
    decreases |more|
  {
    hide RepeatsAfterNoId;
    if more == [] {
      assert pairs + more == pairs;
    } else {
      var n := |more| - 1;
      assert pairs + more == pairs + more[..n] + [(more[n].0, more[n].1)];
      RepeatsSnoc(pairs + more[..n], more[n].0, more[n].1);
      RepeatsPrefix(pairs, more[..n]);
    }
  }

  lemma {:induction false} EntriesPrefix(run: seq<Insertion>, n: nat)
    requires n <= |run|
    ensures Entries(run[..n]) <= Entries(run)
    decreases |run|
  {
    if n < |run| {
      EntriesPrefix(run[..|run| - 1], n);
      assert run[..|run| - 1][..n] == run[..n];
    } else {
      assert run[..n] == run;
    }
  }

  /** An insertion that is not possible makes its pairs repeat, whatever comes after it. */
  lemma {:induction false} RefusedAt(run: seq<Insertion>, n: nat, m: Maps)
    requires n < |run| && Succeeds(run[..n], m) && !CanInsert(m, run[n])
    ensures !(RepeatsAfterNoId(Entries(run)) && RepeatsAfterNoId(Turned(Entries(run))))
  {
    hide Succeeds, CanInsert, RepeatsAfterNoId, Entries;
    CanInsertIff(run, n, m);
    EntriesPrefix(run, n + 1);
    var e := Entries(run[..n + 1]);
    var more := Entries(run)[|e|..];
    assert Entries(run) == e + more;
    assert Turned(e + more) == Turned(e) + Turned(more);
    if RepeatsAfterNoId(Entries(run)) {
      RepeatsPrefix(e, more);
    }
    if RepeatsAfterNoId(Turned(Entries(run))) {
      RepeatsPrefix(Turned(e), Turned(more));
    }
  }

  lemma {:induction false} Accepted(run: seq<Insertion>) returns (m: Maps)
    requires RepeatsAfterNoId(Entries(run)) && RepeatsAfterNoId(Turned(Entries(run)))
    ensures Succeeds(run, m)
    decreases |run|
  {
    hide Succeeds, CanInsert, RepeatsAfterNoId, Insert, Entries;
    SucceedsNothing();
    m := Maps([], []);
    if run != [] {
      var n := |run| - 1;
      assert run[..n + 1] == run;
      EntriesPrefix(run, n);
      var e := Entries(run[..n]);
      var more := Entries(run)[|e|..];
      assert Entries(run) == e + more;
      assert Turned(e + more) == Turned(e) + Turned(more);
      RepeatsPrefix(e, more);
      RepeatsPrefix(Turned(e), Turned(more));
      var before := Accepted(run[..n]);
      CanInsertIff(run, n, before);
      SucceedsNext(run, n, before);
      m := Insert(before, run[n]);
    }
  }

  /** Which lists of insertions are accepted: those whose pairs repeat neither a source nor a target, but after (uid_t)-1. */
  lemma {:induction false} AcceptedIff(run: seq<Insertion>)
    ensures (exists m :: Succeeds(run, m)) <==> RepeatsAfterNoId(Entries(run)) && RepeatsAfterNoId(Turned(Entries(run)))
  {
    hide Succeeds, RepeatsAfterNoId, Entries;
    if m :| Succeeds(run, m) {
      TablesAreEntries(run, m);
      RunInvariant(run, m);
    }
    if RepeatsAfterNoId(Entries(run)) && RepeatsAfterNoId(Turned(Entries(run))) {
      var m := Accepted(run);
    }
  }

  /**
   When the lookups of the two tables undo each other, for a list of insertions that
   is accepted: exactly when every pair that repeats the source of an earlier
   (a, NO_ID) also repeats the target of an earlier (NO_ID, b), and the other way round.
   */
  lemma {:induction false} InverseIff(run: seq<Insertion>, m: Maps)
    requires Succeeds(run, m)
    ensures var e := Entries(run);
            MutuallyInverse(m) <==>
            forall j :: 0 <= j < |e| ==> ((e[j].0, NO_ID) in e[..j] <==> (NO_ID, e[j].1) in e[..j])
  {
    hide MutuallyInverse, RepeatsAfterNoId;
    TablesAreEntries(run, m);
    RunInvariant(run, m);
    InverseIffShadowed(m);
    forall j | 0 <= j < |m.forward|
      ensures Shadowed(m.forward, j) <==> (m.forward[j].0, NO_ID) in m.forward[..j]
      ensures Shadowed(m.reverse, j) <==> (NO_ID, m.forward[j].1) in m.forward[..j]
    {
      ShadowedByNoId(m.forward, j);
      ShadowedByNoId(m.reverse, j);
      MirrorMember(m, j, NO_ID, m.forward[j].1);
    }
  }

  lemma MirrorMember(m: Maps, j: nat, a: Id, b: Id)
    requires Mirrored(m) && j <= |m.forward|
    ensures (a, b) in m.forward[..j] <==> (b, a) in m.reverse[..j]
  {
    if (a, b) in m.forward[..j] {
      var i :| 0 <= i < j && m.forward[..j][i] == (a, b);
      assert m.reverse[..j][i] == (b, a);
    }
    if (b, a) in m.reverse[..j] {
      var i :| 0 <= i < j && m.reverse[..j][i] == (b, a);
      assert m.forward[..j][i] == (a, b);
    }
  }

  /** Runs that never name `NO_ID`. */
  ghost predicate ProperIds(run: seq<Insertion>) {
    forall i :: 0 <= i < |run| ==> run[i].source != NO_ID && run[i].target != NO_ID
  }

  lemma {:induction false} ProperEntries(run: seq<Insertion>, m: Maps)
    requires Succeeds(run, m) && ProperIds(run)
    ensures forall i :: 0 <= i < |m.forward| ==> m.forward[i].0 != NO_ID && m.forward[i].1 != NO_ID
    decreases |run|
  {
    if run != [] {
      var n := |run| - 1;
      var before :| Succeeds(run[..n], before) && CanInsert(before, run[n]) && m == Insert(before, run[n]);
      ProperEntries(run[..n], before);
    }
  }

  /**
   With proper ids the two tables are always mirror images with distinct sources,
   distinct targets and no identities, so each undoes the other.
   */
  lemma {:induction false} InverseOfProperIds(run: seq<Insertion>, m: Maps)
    requires Succeeds(run, m) && ProperIds(run)
    ensures Mirrored(m) && NoIdentities(m.forward)
    ensures DistinctKeys(m.forward) && DistinctKeys(m.reverse) && MutuallyInverse(m)
  {
    hide MutuallyInverse, RepeatsAfterNoId;
    RunInvariant(run, m);
    ProperEntries(run, m);
    ProperMeansDistinct(m.forward);
    ProperMeansDistinct(m.reverse);
    InverseIffShadowed(m);
  }

  lemma {:induction false} ProperMeansDistinct(pairs: Pairs)
    requires RepeatsAfterNoId(pairs) && NoIdentities(pairs)
    requires forall i :: 0 <= i < |pairs| ==> pairs[i].1 != NO_ID
    ensures DistinctKeys(pairs)
  {
    forall i, j | 0 <= i < j < |pairs|
      ensures pairs[i].0 != pairs[j].0
    {
      ShadowedByNoId(pairs, j);
    }
  }

  /** "5/4294967295,5/7" is accepted, and then 7 leads back to 5 but 5 does not lead to 7. */
  lemma {:induction false} NoIdBreaksInverse()
    ensures var m := Maps([(5, NO_ID), (5, 7)], [(NO_ID, 5), (7, 5)]);
            Succeeds([Insertion(5, NO_ID, false), Insertion(5, 7, false)], m) && !MutuallyInverse(m)
  {
    var x, y := Insertion(5, NO_ID, false), Insertion(5, 7, false);
    var m0, m1, m2 := Maps([], []), Maps([(5, NO_ID)], [(NO_ID, 5)]), Maps([(5, NO_ID), (5, 7)], [(NO_ID, 5), (7, 5)]);
    assert [x][..0] == [] && [x, y][..1] == [x];
    assert Succeeds([], m0) && CanInsert(m0, x) && m1 == Insert(m0, x);
    assert Succeeds([x], m1);
    LookupFirst(m1.forward, 5, NO_ID, 0);
    LookupFirst(m1.reverse, 7, NO_ID, 1);
    assert CanInsert(m1, y) && m2 == Insert(m1, y);
    assert Succeeds([x, y], m2);
    LookupFirst(m2.reverse, 7, NO_ID, 1);
    LookupFirst(m2.forward, 5, NO_ID, 0);
    assert m2.reverse[1].0 == 7;
  }
}
