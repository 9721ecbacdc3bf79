/**
 src/misc.c: does a path start with the path components of another path?
 The mount point test that keeps bindfs from recursing into itself rests on it.
 */
module PathPrefix {
  import opened Text

  /** `s` without its trailing slashes. */
  function Trimmed(s: string): (t: string)
    ensures t <= s
    ensures t != "" ==> t[|t| - 1] != '/'
    ensures forall i :: |t| <= i < |s| ==> s[i] == '/'
  {
    if s != "" && s[|s| - 1] == '/' then Trimmed(s[..|s| - 1]) else s
  }

  /** The components of a path, once its trailing slashes are gone. */
  function Components(path: string): seq<string> {
    Split(Trimmed(path), {'/'})
  }

  /** A trimmed prefix of `s` is determined by its defining property. */
  lemma TrimmedUnique(s: string, n: nat)
    requires n <= |s|
    requires n > 0 ==> s[n - 1] != '/'
    requires forall i :: n <= i < |s| ==> s[i] == '/'
    ensures Trimmed(s) == s[..n]
  {
    if n < |s| {
      TrimmedUnique(s[..|s| - 1], n);
      assert s[..|s| - 1][..n] == s[..n];
    } else {
      assert s[..n] == s;
    }
  }

  /** Position of the last `ch` in `s[start..end]`, or `end` when there is none. */
  method FindLastCharBetween(s: string, start: nat, end: nat, ch: char) returns (found: bool, p: nat)
    requires start <= end <= |s|
    ensures found ==> start <= p < end && s[p] == ch && ch !in s[p + 1..end]
    ensures !found ==> ch !in s[start..end]
  {
    var q: int := end - 1;
    while q >= start
      invariant start - 1 <= q < end
      invariant ch !in s[q + 1..end]
    {
      if s[q] == ch {
        return true, q;
      }
      q := q - 1;
    }
    return false, 0;
  }

  /** The loop that drops the trailing slashes of either string. */
  method TrimmedLength(s: string) returns (n: nat)
    ensures n <= |s| && Trimmed(s) == s[..n]
  {
    n := |s|;
    while n > 0 && s[n - 1] == '/'
      invariant n <= |s|
      invariant forall i :: n <= i < |s| ==> s[i] == '/'
    {
      n := n - 1;
    }
    TrimmedUnique(s, n);
  }

  /**
   The components of `prefix` are the initial components of `path`.  The C code
   compares the raw strings up to the trimmed prefix, then the lengths of one
   component; the contract is about components alone.
   */
  method PathStartsWith(path: string, prefix: string) returns (r: bool)
    ensures r <==> Components(prefix) <= Components(path)
  {
    hide Components, Span;
    var prefixLen := TrimmedLength(prefix);
    var pathLen := TrimmedLength(path);
    StartsIff(path, prefix, pathLen, prefixLen);

    if prefix[..prefixLen] <= path {
      var found, slash := FindLastCharBetween(prefix, 0, prefixLen, '/');
      var part := if found then slash + 1 else 0;
      var prefixPartLen := prefixLen - part;
      var toSlash := Span(path[part..], {'/'});
      var pathPartLen := if toSlash < |path[part..]| then toSlash else pathLen - part;
      r := prefixPartLen == pathPartLen;
      assert path[part..prefixLen] == prefix[part..prefixLen];
      ComponentEnds(path, pathLen, prefixLen, part);
    } else {
      r := false;
    }
  }

  /** The component order in terms of the characters the code looks at. */
  lemma StartsIff(path: string, prefix: string, len: nat, n: nat)
    requires len <= |path| && Trimmed(path) == path[..len]
    requires n <= |prefix| && Trimmed(prefix) == prefix[..n]
    ensures Components(prefix) <= Components(path) <==>
            prefix[..n] <= path && (n == len || path[n] == '/')
    ensures prefix[..n] <= path ==> n <= len
  {
    SplitPrefix(prefix[..n], path[..len], '/');
    MatchIsTrimmed(prefix[..n], path, len);
  }

  /** A trimmed string that starts the raw path starts the trimmed path. */
  lemma MatchIsTrimmed(p: string, path: string, len: nat)
    requires len <= |path|
    requires forall i :: len <= i < |path| ==> path[i] == '/'
    requires p != "" ==> p[|p| - 1] != '/'
    ensures p <= path <==> p <= path[..len]
  {
    if p <= path {
      assert p != "" ==> path[|p| - 1] == p[|p| - 1];
    }
  }

  /**
   With no slash in `path[part..n]`, the component starting at `part` ends at `n`
   exactly when `n` is the end of the trimmed path or a slash.
   */
  lemma ComponentEnds(path: string, len: nat, n: nat, part: nat)
    requires part <= n <= len <= |path|
    requires len > 0 ==> path[len - 1] != '/'
    requires forall i :: len <= i < |path| ==> path[i] == '/'
    requires '/' !in path[part..n]
    ensures var k := Span(path[part..], {'/'});
            n - part == (if k < |path| - part then k else len - part) <==>
            n == len || path[n] == '/'
  {
    var rest := path[part..];
    SpanStops(rest, {'/'});
    assert forall i :: 0 <= i < n - part ==> rest[i] == path[part..n][i];
    if n < |path| && path[n] == '/' {
      SpanUnique(rest, {'/'}, n - part);
    }
  }
}
