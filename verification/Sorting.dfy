/**
 qsort and bsearch as section 7.22.5 of ISO/IEC 9899:2011 describes them, and the
 comparators src/userinfo.c hands to them.
 */
module Sorting {
  import opened MemoryBlocks
  import opened UserMaps

  /** The comparator orders the elements consistently. */
  ghost predicate Ordered<T>(s: seq<T>, cmp: (T, T) -> int) {
    && (forall x, y :: x in s && y in s ==> cmp(x, y) <= 0 || cmp(y, x) <= 0)
    && (forall x, y, z :: x in s && y in s && z in s && cmp(x, y) <= 0 && cmp(y, z) <= 0 ==> cmp(x, z) <= 0)
  }

  ghost predicate Sorted<T>(s: seq<T>, cmp: (T, T) -> int) {
    forall i, j :: 0 <= i < j < |s| ==> cmp(s[i], s[j]) <= 0
  }

  /** Where `x` goes in a sorted prefix: after everything not above it. */
  method Position<T>(s: seq<T>, x: T, cmp: (T, T) -> int) returns (k: nat)
    ensures k <= |s|
    ensures k < |s| ==> cmp(x, s[k]) < 0 || !(cmp(s[k], x) <= 0)
    ensures forall i :: 0 <= i < k ==> cmp(s[i], x) <= 0
  {
    k := 0;
    while k < |s| && cmp(s[k], x) <= 0
      invariant k <= |s| && forall i :: 0 <= i < k ==> cmp(s[i], x) <= 0
    {
      k := k + 1;
    }
  }

  /**
   qsort: some permutation of the elements, in order if the comparator orders them.
   Callers may rely on the contract only.
   */
  method QSort<T(!new)>(s: seq<T>, cmp: (T, T) -> int) returns (r: seq<T>)
    ensures multiset(r) == multiset(s)
    ensures Ordered(s, cmp) ==> Sorted(r, cmp)
  {
    hide Ordered, Sorted;
    r := [];
    SortedNothing(cmp);
    var i := 0;
    while i < |s|
      invariant 0 <= i <= |s| && multiset(r) == multiset(s[..i])
      invariant Ordered(s, cmp) ==> Sorted(r, cmp)
    {
      var k := Position(r, s[i], cmp);
      InsertedSorted(s, r, i, k, cmp);
      InsertedMultiset(r, k, s[i]);
      assert s[..i + 1] == s[..i] + [s[i]];
      r := r[..k] + [s[i]] + r[k..];
      i := i + 1;
    }
    assert s[..i] == s;
  }

  lemma SortedNothing<T>(cmp: (T, T) -> int)
    ensures Sorted([], cmp)
  {
  }

  lemma InsertedMultiset<T>(r: seq<T>, k: nat, x: T)
    requires k <= |r|
    ensures multiset(r[..k] + [x] + r[k..]) == multiset(r) + multiset{x}
  {
    assert r == r[..k] + r[k..];
  }

  /** An element goes between those that may come before it and those that may come after it. */
  lemma {:induction false} BetweenSorted<T>(a: seq<T>, x: T, b: seq<T>, cmp: (T, T) -> int)
    requires Sorted(a + b, cmp)
    requires (forall y :: y in a ==> cmp(y, x) <= 0) && (forall y :: y in b ==> cmp(x, y) <= 0)
    ensures Sorted(a + [x] + b, cmp)
  {
    var r, s := a + [x] + b, a + b;
    forall i, j | 0 <= i < j < |r|
      ensures cmp(r[i], r[j]) <= 0
    {
      if i == |a| {
        assert r[j] == b[j - |a| - 1];
      } else if j == |a| {
        assert r[i] == a[i];
      } else {
        var i', j' := if i < |a| then i else i - 1, if j < |a| then j else j - 1;
        assert r[i] == s[i'] && r[j] == s[j'];
      }
    }
  }

  /** The elements after the position of `x` may come after it. */
  lemma {:induction false} AboveInserted<T>(s: seq<T>, r: seq<T>, x: T, k: nat, cmp: (T, T) -> int)
    requires k < |r| && Ordered(s, cmp) && Sorted(r, cmp) && x in s && forall y :: y in r ==> y in s
    requires cmp(x, r[k]) < 0 || !(cmp(r[k], x) <= 0)
    ensures forall y :: y in r[k..] ==> cmp(x, y) <= 0
  {
    assert r[k] in r && cmp(x, r[k]) <= 0;
    forall j | k <= j < |r|
      ensures cmp(x, r[j]) <= 0
    {
      assert r[j] in r && (k < j ==> cmp(r[k], r[j]) <= 0);
    }
  }

  lemma {:induction false} InsertedSorted<T>(s: seq<T>, r: seq<T>, i: nat, k: nat, cmp: (T, T) -> int)
    requires i < |s| && k <= |r| && multiset(r) == multiset(s[..i])
    requires Ordered(s, cmp) ==> Sorted(r, cmp)
    requires k < |r| ==> cmp(s[i], r[k]) < 0 || !(cmp(r[k], s[i]) <= 0)
    requires forall j :: 0 <= j < k ==> cmp(r[j], s[i]) <= 0
    ensures Ordered(s, cmp) ==> Sorted(r[..k] + [s[i]] + r[k..], cmp)
  {
    hide Ordered, Sorted;
    if Ordered(s, cmp) {
      Permuted(r, s[..i]);
      if k < |r| {
        AboveInserted(s, r, s[i], k, cmp);
      }
      assert r[..k] + r[k..] == r;
      BetweenSorted(r[..k], s[i], r[k..], cmp);
    }
  }

  /** What qsort does, it does to some result: any prefix has one. */
  lemma {:induction false} SortExists<T>(s: seq<T>, n: nat, cmp: (T, T) -> int) returns (r: seq<T>)
    requires n <= |s|
    ensures multiset(r) == multiset(s[..n]) && (Ordered(s, cmp) ==> Sorted(r, cmp))
    decreases n
  {
    hide Ordered, Sorted;
    r := [];
    if n == 0 {
      SortedNothing(cmp);
    } else {
      var x := s[n - 1];
      var rest := SortExists(s, n - 1, cmp);
      var k := 0;
      while k < |rest| && cmp(rest[k], x) <= 0
        invariant k <= |rest| && forall i :: 0 <= i < k ==> cmp(rest[i], x) <= 0
      {
        k := k + 1;
      }
      InsertedSorted(s, rest, n - 1, k, cmp);
      InsertedMultiset(rest, k, x);
      assert s[..n] == s[..n - 1] + [x];
      r := rest[..k] + [x] + rest[k..];
    }
  }

  function Column<T>(s: seq<T>, key: T -> Id): (ids: seq<Id>)
    ensures |ids| == |s| && forall i :: 0 <= i < |s| ==> ids[i] == key(s[i])
  {
    seq(|s|, i requires 0 <= i < |s| => key(s[i]))
  }

  /** The key is at, before or after an element; along a sorted array the sign never goes up. */
  ghost predicate Falling<T>(s: seq<T>, probe: T -> int) {
    forall i, j :: 0 <= i < j < |s| ==>
      (probe(s[i]) <= 0 ==> probe(s[j]) <= 0) && (probe(s[i]) < 0 ==> probe(s[j]) < 0)
  }

  /** bsearch: a hit always compares equal; a miss means there is none, if the array is in order. */
  method BSearch<T>(s: seq<T>, probe: T -> int) returns (found: bool, k: nat)
    ensures found ==> k < |s| && probe(s[k]) == 0
    ensures !found && Falling(s, probe) ==> forall i :: 0 <= i < |s| ==> probe(s[i]) != 0
  {
    var low, high := 0, |s|;
    while low < high
      invariant 0 <= low <= high <= |s|
      invariant Falling(s, probe) ==> forall i :: 0 <= i < low ==> probe(s[i]) > 0
      invariant Falling(s, probe) ==> forall i :: high <= i < |s| ==> probe(s[i]) < 0
    {
      var mid := low + (high - low) / 2;
      var c := probe(s[mid]);
      if c == 0 {
        return true, mid;
      } else if c < 0 {
        high := mid;
      } else {
        low := mid + 1;
      }
    }
    return false, 0;
  }

  lemma Permuted<T>(a: seq<T>, b: seq<T>)
    requires multiset(a) == multiset(b)
    ensures |a| == |b| && forall x :: x in a <==> x in b
  {
    assert |multiset(a)| == |a| && |multiset(b)| == |b|;
    assert forall x :: x in a <==> x in multiset(a);
    assert forall x :: x in b <==> x in multiset(b);
  }

  // ----- Comparing ids

  /** Conversion of a long to a 32-bit int. */
  function Narrow(x: int): int {
    (x + 0x8000_0000) % 0x1_0000_0000 - 0x8000_0000
  }

  /** The uid and gid comparators: a difference of longs, returned as an int. */
  function CompareIds(a: Id, b: Id): int {
    Narrow(a - b)
  }

  /** The difference fits an int. */
  predicate Comparable(a: Id, b: Id) {
    -0x8000_0000 <= a - b < 0x8000_0000
  }

  /** Equality is always recognised... */
  lemma EqualIds(a: Id, b: Id)
    ensures CompareIds(a, b) == 0 <==> a == b
  {
  }

  /** ...but the order comes out right exactly when the difference fits. */
  lemma OrderOfIds(a: Id, b: Id)
    ensures ((CompareIds(a, b) < 0 <==> a < b) && (CompareIds(a, b) > 0 <==> a > b)) <==> Comparable(a, b)
  {
  }

  /** Three valid ids that the comparator puts in a circle. */
  lemma IdsInACircle()
    ensures CompareIds(0, 0x6000_0000) < 0 && CompareIds(0x6000_0000, 0xC000_0000) < 0 && CompareIds(0xC000_0000, 0) < 0
  {
  }

  /**
   The comparator defines a total ordering on these ids, as the standard demands of
   comparators, be it the order of the numbers or not.
   */
  ghost predicate Ranked(ids: set<Id>) {
    && (forall x, y :: x in ids && y in ids ==> (CompareIds(x, y) < 0 <==> CompareIds(y, x) > 0))
    && (forall x, y, z :: x in ids && y in ids && z in ids && CompareIds(x, y) <= 0 && CompareIds(y, z) <= 0 ==> CompareIds(x, z) <= 0)
  }

  /** How far `x` is ahead of `m`, on the circle of all 2^32 ids. */
  function Ahead(m: Id, x: Id): nat {
    if m <= x then x - m else x - m + 0x1_0000_0000
  }

  /** Seen from one of them, all the ids lie within half of the circle. */
  ghost predicate HalfCircle(ids: set<Id>, m: Id) {
    m in ids && forall x :: x in ids ==> Ahead(m, x) < 0x8000_0000
  }

  lemma CompareAhead(m: Id, x: Id, y: Id)
    requires Ahead(m, x) < 0x8000_0000 && Ahead(m, y) < 0x8000_0000
    ensures CompareIds(x, y) == Ahead(m, x) - Ahead(m, y)
  {
  }

  lemma AheadIfBelow(m: Id, x: Id)
    requires CompareIds(m, x) <= 0 && (CompareIds(m, x) < 0 <==> CompareIds(x, m) > 0)
    ensures Ahead(m, x) < 0x8000_0000
  {
  }

  lemma RankedPart(ids: set<Id>, part: set<Id>)
    requires Ranked(ids) && part <= ids
    ensures Ranked(part)
  {
    hide CompareIds;
  }

  /** Nothing in the set comes before `m`. */
  ghost predicate First(ids: set<Id>, m: Id) {
    m in ids && forall x :: x in ids ==> CompareIds(m, x) <= 0
  }

  /** The first of a set, given the first of the others. */
  lemma {:induction false} FirstOfTwo(ids: set<Id>, m: Id, other: Id)
    requires Ranked(ids) && m in ids && First(ids - {m}, other)
    ensures First(ids, if CompareIds(m, other) > 0 then other else m)
  {
    EqualIds(m, m);
    hide CompareIds;
    forall x | x in ids
      ensures CompareIds(if CompareIds(m, other) > 0 then other else m, x) <= 0
    {
      assert x == m || x in ids - {m};
    }
  }

  lemma {:induction false} Least(ids: set<Id>) returns (m: Id)
    requires Ranked(ids) && ids != {}
    ensures First(ids, m)
    decreases ids
  {
    var x :| x in ids;
    var rest := ids - {x};
    if rest == {} {
      EqualIds(x, x);
      assert ids == {x};
      m := x;
    } else {
      hide Ranked, First;
      RankedPart(ids, rest);
      var other := Least(rest);
      FirstOfTwo(ids, x, other);
      m := if CompareIds(x, other) > 0 then other else x;
    }
  }

  lemma {:induction false} HalfCircleRanked(ids: set<Id>, m: Id)
    requires HalfCircle(ids, m)
    ensures Ranked(ids)
  {
    hide Ahead, CompareIds;
    forall x, y | x in ids && y in ids
      ensures CompareIds(x, y) == Ahead(m, x) - Ahead(m, y)
    {
      CompareAhead(m, x, y);
    }
  }

  /** Which ids the comparator orders: exactly those that fit in half of the circle. */
  lemma {:induction false} RankedIff(ids: set<Id>)
    ensures Ranked(ids) <==> ids == {} || exists m :: HalfCircle(ids, m)
  {
    if Ranked(ids) && ids != {} {
      var m := Least(ids);
      forall x | x in ids
        ensures Ahead(m, x) < 0x8000_0000
      {
        assert CompareIds(m, x) <= 0;
        AheadIfBelow(m, x);
      }
      assert HalfCircle(ids, m);
    }
    if m :| HalfCircle(ids, m) {
      HalfCircleRanked(ids, m);
    }
  }

  /** In particular ids that can all be compared, such as those below 2^31. */
  lemma {:induction false} ComparableRanked(ids: set<Id>)
    requires forall x, y :: x in ids && y in ids ==> Comparable(x, y)
    ensures Ranked(ids)
  {
    forall x, y | x in ids && y in ids
      ensures CompareIds(x, y) == x - y
    {
    }
  }

  /** But also these, in this order: -2 as an id, 0 and 1000. */
  lemma {:induction false} NobodyIsRanked()
    ensures Ranked({0xFFFF_FFFE, 0, 1000}) && !Comparable(0xFFFF_FFFE, 0)
    ensures CompareIds(0xFFFF_FFFE, 0) < 0 && CompareIds(0, 1000) < 0
  {
    HalfCircleRanked({0xFFFF_FFFE, 0, 1000}, 0xFFFF_FFFE);
  }

  // ----- Columns of ids

  function IdSet(ids: seq<Id>): set<Id> {
    set x | x in ids
  }

  /** What sorting a column of ids promises. */
  ghost predicate InIdOrder(ids: seq<Id>) {
    Ranked(IdSet(ids)) ==> forall i, j :: 0 <= i < j < |ids| ==> CompareIds(ids[i], ids[j]) <= 0
  }

  /** The column is one that may be searched for `id`: what is before it, then it, then what is after. */
  ghost predicate Partitioned(ids: seq<Id>, id: Id) {
    forall i, j :: 0 <= i < j < |ids| ==>
      (CompareIds(id, ids[i]) <= 0 ==> CompareIds(id, ids[j]) <= 0) && (CompareIds(id, ids[i]) < 0 ==> CompareIds(id, ids[j]) < 0)
  }

  /** A column in order may be searched for what it contains. */
  lemma {:induction false} OrderedMayBeSearched(ids: seq<Id>, id: Id)
    requires InIdOrder(ids) && Ranked(IdSet(ids)) && id in ids
    ensures Partitioned(ids, id)
  {
    forall i, j | 0 <= i < j < |ids|
      ensures (CompareIds(id, ids[i]) <= 0 ==> CompareIds(id, ids[j]) <= 0) && (CompareIds(id, ids[i]) < 0 ==> CompareIds(id, ids[j]) < 0)
    {
      assert ids[i] in ids && ids[j] in ids && CompareIds(ids[i], ids[j]) <= 0;
      EqualIds(id, ids[j]);
    }
  }

  /** What sorting by ids comes to, for the column of ids. */
  lemma {:induction false} SortedColumn<T>(s: seq<T>, r: seq<T>, key: T -> Id, cmp: (T, T) -> int)
    requires multiset(r) == multiset(s) && (Ordered(s, cmp) ==> Sorted(r, cmp))
    requires forall x, y :: cmp(x, y) == CompareIds(key(x), key(y))
    ensures InIdOrder(Column(r, key))
  {
    hide CompareIds;
    SameColumn(r, s, key);
    if Ranked(IdSet(Column(r, key))) {
      forall x | x in s
        ensures key(x) in Column(r, key)
      {
        InColumn(s, key, key(x));
      }
      assert Ordered(s, cmp);
    }
  }

  /** Any elements can be put in the order of their ids, as far as there is one. */
  lemma {:induction false} IdOrderExists<T>(s: seq<T>, key: T -> Id) returns (r: seq<T>)
    ensures multiset(r) == multiset(s) && InIdOrder(Column(r, key))
  {
    hide Ordered, Sorted, InIdOrder;
    var cmp := (x: T, y: T) => CompareIds(key(x), key(y));
    r := SortExists(s, |s|, cmp);
    assert s[..|s|] == s;
    SortedColumn(s, r, key, cmp);
  }

  lemma {:induction false} SameColumn<T>(a: seq<T>, b: seq<T>, key: T -> Id)
    requires multiset(a) == multiset(b)
    ensures forall x :: x in Column(a, key) <==> x in Column(b, key)
  {
    Permuted(a, b);
    forall x
      ensures x in Column(a, key) <==> x in Column(b, key)
    {
      InColumn(a, key, x);
      InColumn(b, key, x);
    }
  }

  lemma {:induction false} InColumn<T>(s: seq<T>, key: T -> Id, x: Id)
    ensures x in Column(s, key) <==> exists e :: e in s && key(e) == x
  {
    if x in Column(s, key) {
      var i :| 0 <= i < |s| && Column(s, key)[i] == x;
      assert s[i] in s;
    }
    if e :| e in s && key(e) == x {
      var i :| 0 <= i < |s| && s[i] == e;
      assert Column(s, key)[i] == x;
    }
  }

  lemma OneIdIsRanked(id: Id)
    ensures Ranked({id})
  {
  }

  lemma {:induction false} Without<T>(s: seq<T>, i: nat) returns (r: seq<T>)
    requires i < |s|
    ensures multiset(s) == multiset(r) + multiset{s[i]}
    ensures forall j :: 0 <= j < |s| && j != i ==> s[j] in r
  {
    r := s[..i] + s[i + 1..];
    assert s == s[..i] + [s[i]] + s[i + 1..];
    forall j | 0 <= j < |s| && j != i
      ensures s[j] in r
    {
      assert s[j] == if j < i then r[j] else r[j - 1];
    }
  }

  /** Two elements to the front. */
  lemma {:induction false} ToFront<T>(s: seq<T>, i: nat, j: nat) returns (r: seq<T>)
    requires i < |s| && j < |s| && i != j
    ensures multiset(r) == multiset(s) && |r| >= 2 && r[0] == s[i] && r[1] == s[j]
  {
    var others := Without(s, i);
    assert s[j] in others;
    var k :| 0 <= k < |others| && others[k] == s[j];
    var rest := Without(others, k);
    r := [s[i], s[j]] + rest;
  }

  /** Ids without an order may end up in one in which a search misses. */
  lemma {:induction false} MissExists<T>(s: seq<T>, key: T -> Id, id: Id) returns (r: seq<T>)
    requires id in Column(s, key) && !Ranked(IdSet(Column(s, key)))
    ensures multiset(r) == multiset(s) && InIdOrder(Column(r, key)) && !Partitioned(Column(r, key), id)
  {
    var ids := Column(s, key);
    var i :| 0 <= i < |ids| && ids[i] == id;
    OneIdIsRanked(id);
    assert (forall j :: 0 <= j < |ids| ==> ids[j] == id) ==> IdSet(ids) == {id};
    var j :| 0 <= j < |ids| && ids[j] != id;
    hide Ranked;
    EqualIds(id, ids[j]);
    if CompareIds(id, ids[j]) > 0 {
      r := ToFront(s, i, j);
    } else {
      r := ToFront(s, j, i);
    }
    SameColumn(r, s, key);
    assert IdSet(Column(r, key)) == IdSet(ids);
    EqualIds(id, id);
    var front := Column(r, key);
    assert front[0] == key(r[0]) && front[1] == key(r[1]);
  }

  // ----- Comparing names

  /** The content of a C string: no terminator inside. */
  type Name = s: seq<byte> | 0 !in s

  /** strcmp */
  function StrCmp(a: seq<byte>, b: seq<byte>): int {
    if a == [] || b == [] then |a| - |b|
    else if a[0] != b[0] then a[0] - b[0]
    else StrCmp(a[1..], b[1..])
  }

  lemma {:induction false} StrCmpEqual(a: seq<byte>, b: seq<byte>)
    ensures StrCmp(a, b) == 0 <==> a == b
  {
    if a != [] && b != [] {
      StrCmpEqual(a[1..], b[1..]);
      assert a == [a[0]] + a[1..] && b == [b[0]] + b[1..];
    }
  }

  lemma {:induction false} StrCmpOrder(a: seq<byte>, b: seq<byte>, c: seq<byte>)
    ensures StrCmp(a, b) <= 0 || StrCmp(b, a) <= 0
    ensures StrCmp(a, b) < 0 <==> StrCmp(b, a) > 0
    ensures StrCmp(a, b) <= 0 && StrCmp(b, c) <= 0 ==> StrCmp(a, c) <= 0
    ensures StrCmp(a, b) < 0 && StrCmp(b, c) <= 0 ==> StrCmp(a, c) < 0
    ensures StrCmp(a, b) <= 0 && StrCmp(b, c) < 0 ==> StrCmp(a, c) < 0
    decreases |a| + |b| + |c|
  {
    if a != [] && b != [] {
      StrCmpOrder(a[1..], b[1..], if c == [] then [] else c[1..]);
    }
  }

  /** At `k` they differ for the first time: `a` is smaller there, or ends. */
  ghost predicate Differ(a: seq<byte>, b: seq<byte>, k: nat) {
    k <= |a| && k < |b| && (forall i :: 0 <= i < k ==> a[i] == b[i]) && (k == |a| || a[k] < b[k])
  }

  /** strcmp compares names like words in a dictionary. */
  lemma {:induction false} StrCmpIsLexicographic(a: seq<byte>, b: seq<byte>)
    ensures StrCmp(a, b) < 0 <==> exists k: nat :: Differ(a, b, k)
    decreases |a|
  {
    if a == [] || b == [] {
      assert b != [] ==> Differ(a, b, 0);
    } else if a[0] != b[0] {
      assert a[0] < b[0] ==> Differ(a, b, 0);
    } else {
      StrCmpIsLexicographic(a[1..], b[1..]);
      if k: nat :| Differ(a[1..], b[1..], k) {
        assert Differ(a, b, k + 1);
      }
      if k: nat :| Differ(a, b, k) {
        assert Differ(a[1..], b[1..], k - 1);
      }
    }
  }
}
