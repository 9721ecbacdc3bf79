/**
 Strings as the C code sees them: a `string` is the content of a NUL-terminated
 buffer, without its terminator.  The option, path and rule parsers all cut such
 strings at separator characters; `Split` is that operation, defined once.
 */
module Text {

  datatype Option<+T> = None | Some(value: T)

  /** What stands between the rules of a permission specification, and between names in a list. */
  const SEPARATORS: set<char> := {',', ':'}

  /** Length of the longest prefix of `s` free of `stops` (strcspn). */
  function Span(s: string, stops: set<char>): (k: nat)
    ensures k <= |s|
  {
    if s == [] || s[0] in stops then 0 else 1 + Span(s[1..], stops)
  }

  /** The pieces of `s` between separators, empty pieces included. */
  function Split(s: string, seps: set<char>): (pieces: seq<string>)
    ensures |pieces| > 0
    decreases |s|
  {
    var k := Span(s, seps);
    if k == |s| then [s] else [s[..k]] + Split(s[k + 1..], seps)
  }

  lemma SpanStops(s: string, stops: set<char>)
    ensures var k := Span(s, stops);
            (forall i :: 0 <= i < k ==> s[i] !in stops) && (k < |s| ==> s[k] in stops)
  {
  }

  /** `Span` is the only position with its defining property. */
  lemma SpanUnique(s: string, stops: set<char>, k: nat)
    requires k <= |s|
    requires forall i :: 0 <= i < k ==> s[i] !in stops
    requires k < |s| ==> s[k] in stops
    ensures Span(s, stops) == k
  {
    if s != [] && s[0] !in stops {
      SpanUnique(s[1..], stops, k - 1);
    }
  }

  /** The pieces glued back together with `sep`. */
  function Join(pieces: seq<string>, sep: char): string
    requires pieces != []
  {
    if |pieces| == 1 then pieces[0] else pieces[0] + [sep] + Join(pieces[1..], sep)
  }

  /** The first piece of a string whose first separator is known. */
  lemma {:induction false} SplitFirst(head: string, sep: char, rest: string, seps: set<char>)
    requires forall i :: 0 <= i < |head| ==> head[i] !in seps
    requires sep in seps
    ensures Split(head + [sep] + rest, seps) == [head] + Split(rest, seps)
  {
    var s := head + [sep] + rest;
    SpanUnique(s, seps, |head|);
    assert s[..|head|] == head && s[|head| + 1..] == rest;
  }

  lemma CutAt(p: string, k: nat, more: string)
    requires k < |p|
    ensures p + more == p[..k] + [p[k]] + (p[k + 1..] + more)
  {
  }

  lemma PrependPiece(piece: string, a: seq<string>, b: seq<string>)
    ensures [piece] + (a + b) == [piece] + a + b
  {
  }

  /** The first piece of a string that has a separator. */
  lemma {:induction false} SplitAt(p: string, seps: set<char>)
    requires Span(p, seps) < |p|
    ensures var k := Span(p, seps); p[k] in seps && (forall i :: 0 <= i < k ==> p[..k][i] !in seps)
    ensures var k := Span(p, seps); Split(p, seps) == [p[..k]] + Split(p[k + 1..], seps)
  {
    SpanStops(p, seps);
  }

  lemma SplitWhole(p: string, seps: set<char>)
    requires Span(p, seps) == |p|
    ensures (forall i :: 0 <= i < |p| ==> p[i] !in seps) && Split(p, seps) == [p]
  {
    SpanStops(p, seps);
  }

  /** Cutting at one known separator cuts the list of pieces there. */
  lemma {:induction false} SplitConcat(p: string, sep: char, rest: string, seps: set<char>)
    requires sep in seps
    ensures Split(p + [sep] + rest, seps) == Split(p, seps) + Split(rest, seps)
    decreases |p|
  {
    hide Split, Span;
    var k := Span(p, seps);
    if k == |p| {
      SplitWhole(p, seps);
      SplitFirst(p, sep, rest, seps);
    } else {
      var more := p[k + 1..] + [sep] + rest;
      SplitAt(p, seps);
      SplitConcat(p[k + 1..], sep, rest, seps);
      SplitFirst(p[..k], p[k], more, seps);
      CutAt(p, k, [sep] + rest);
      assert p + [sep] + rest == p + ([sep] + rest) && more == p[k + 1..] + ([sep] + rest);
      PrependPiece(p[..k], Split(p[k + 1..], seps), Split(rest, seps));
    }
  }

  lemma {:induction false} JoinSplit(s: string, sep: char)
    ensures Join(Split(s, {sep}), sep) == s
    decreases |s|
  {
    hide Split, Span;
    var k := Span(s, {sep});
    if k == |s| {
      SplitWhole(s, {sep});
    } else {
      SplitAt(s, {sep});
      JoinSplit(s[k + 1..], sep);
      JoinCons(s[..k], Split(s[k + 1..], {sep}), sep);
    }
  }

  lemma JoinCons(piece: string, rest: seq<string>, sep: char)
    requires rest != []
    ensures Join([piece] + rest, sep) == piece + [sep] + Join(rest, sep)
  {
    assert ([piece] + rest)[1..] == rest;
  }

  lemma {:induction false} JoinConcat(a: seq<string>, b: seq<string>, sep: char)
    requires a != [] && b != []
    ensures Join(a + b, sep) == Join(a, sep) + [sep] + Join(b, sep)
  {
    if |a| == 1 {
      assert (a + b)[1..] == b;
    } else {
      assert (a + b)[1..] == a[1..] + b;
      JoinConcat(a[1..], b, sep);
    }
  }

  lemma {:induction false} PrefixSplits(p: string, s: string, sep: char)
    requires p <= s && (|p| == |s| || s[|p|] == sep)
    ensures Split(p, {sep}) <= Split(s, {sep})
  {
    hide Split;
    if |p| == |s| {
      assert p == s;
    } else {
      SplitConcat(p, sep, s[|p| + 1..], {sep});
      assert s == p + [sep] + s[|p| + 1..];
    }
  }

  lemma {:induction false} SplitsPrefix(p: string, s: string, sep: char)
    requires Split(p, {sep}) <= Split(s, {sep})
    ensures p <= s && (|p| == |s| || s[|p|] == sep)
  {
    hide Split, Join;
    var ps, ss := Split(p, {sep}), Split(s, {sep});
    JoinSplit(p, sep);
    JoinSplit(s, sep);
    if ps != ss {
      var rest := ss[|ps|..];
      assert ss == ps + rest;
      JoinConcat(ps, rest, sep);
      assert s == p + [sep] + Join(rest, sep);
    }
  }

  /**
   For a single separator, the piece-wise prefix order is the character-wise one
   cut at a piece: the pieces of `p` start the pieces of `s` exactly when `p`
   starts `s` and the match ends where a piece of `s` ends.
   */
  lemma {:induction false} SplitPrefix(p: string, s: string, sep: char)
    ensures Split(p, {sep}) <= Split(s, {sep}) <==>
            p <= s && (|p| == |s| || s[|p|] == sep)
  {
    hide Split;
    if Split(p, {sep}) <= Split(s, {sep}) {
      SplitsPrefix(p, s, sep);
    }
    if p <= s && (|p| == |s| || s[|p|] == sep) {
      PrefixSplits(p, s, sep);
    }
  }
}
