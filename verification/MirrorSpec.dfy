/**
 src/bindfs.c and src/misc.c: parsing the list of mirrored users and groups.
 Two counting passes size the arrays, a third pass over the tokens fills them, and
 the loop condition trusts the counts.
 */
module MirrorSpec {
  import opened Text
  import opened UserMaps

  // ----- The counting passes

  function CharCount(s: string, ch: char): nat {
    if s == "" then 0 else (if s[0] == ch then 1 else 0) + CharCount(s[1..], ch)
  }

  lemma {:induction false} CharCountIsMultiplicity(s: string, ch: char)
    ensures CharCount(s, ch) == multiset(s)[ch]
  {
    if s != "" {
      CharCountIsMultiplicity(s[1..], ch);
      assert s == [s[0]] + s[1..];
    }
  }

  method CountChars(s: string, ch: char) returns (count: nat)
    ensures count == CharCount(s, ch) == multiset(s)[ch]
  {
    count := 0;
    var i := 0;
    while i < |s|
      invariant 0 <= i <= |s| && count + CharCount(s[i..], ch) == CharCount(s, ch)
    {
      if s[i] == ch {
        count := count + 1;
      }
      assert s[i..][1..] == s[i + 1..];
      i := i + 1;
    }
    CharCountIsMultiplicity(s, ch);
  }

  predicate OccursAt(s: string, sub: string, p: nat) {
    p <= |s| && sub <= s[p..]
  }

  /** Where `sub` occurs in `s`, from position `from` on. */
  ghost function Occurrences(s: string, sub: string, from: nat): set<nat> {
    set p: nat | from <= p <= |s| && OccursAt(s, sub, p)
  }

  /** What the counting loop counts: it stops one position short. */
  function SubstrCount(s: string, sub: string): nat {
    if |s| <= |sub| then 0 else (if sub <= s then 1 else 0) + SubstrCount(s[1..], sub)
  }

  predicate EndsWith(s: string, sub: string) {
    |sub| <= |s| && s[|s| - |sub|..] == sub
  }

  lemma {:induction false} OccurrencesStep(s: string, sub: string, from: nat)
    requires from < |s|
    ensures |Occurrences(s, sub, from)| == |Occurrences(s, sub, from + 1)| + if OccursAt(s, sub, from) then 1 else 0
  {
    hide OccursAt;
    var later := Occurrences(s, sub, from + 1);
    if OccursAt(s, sub, from) {
      assert Occurrences(s, sub, from) == {from} + later;
    } else {
      assert Occurrences(s, sub, from) == later;
    }
  }

  /** Where the loop no longer looks: at most at the very end. */
  lemma {:induction false} LastOccurrence(s: string, sub: string, from: nat)
    requires from <= |s| <= from + |sub|
    ensures |Occurrences(s, sub, from)| == if EndsWith(s, sub) && from + |sub| == |s| then 1 else 0
  {
    forall p: nat | from <= p <= |s|
      ensures OccursAt(s, sub, p) <==> EndsWith(s, sub) && from + |sub| == |s| && p == from
    {
      assert sub <= s[p..] ==> |sub| <= |s| - p;
    }
    hide OccursAt, EndsWith;
    assert Occurrences(s, sub, from) == if EndsWith(s, sub) && from + |sub| == |s| then {from} else {};
  }

  lemma {:induction false} OccurrencesFrom(s: string, sub: string, from: nat)
    requires from <= |s|
    ensures |Occurrences(s, sub, from)| ==
            SubstrCount(s[from..], sub) + if EndsWith(s, sub) && from + |sub| <= |s| then 1 else 0
    decreases |s| - from
  {
    hide Occurrences, EndsWith;
    if from + |sub| < |s| {
      OccurrencesFrom(s, sub, from + 1);
      OccurrencesStep(s, sub, from);
      assert s[from..][1..] == s[from + 1..];
    } else {
      LastOccurrence(s, sub, from);
    }
  }

  /** The loop finds every occurrence but the one that ends the string. */
  lemma {:induction false} SubstrCountIsOccurrences(s: string, sub: string)
    ensures |Occurrences(s, sub, 0)| == SubstrCount(s, sub) + if EndsWith(s, sub) then 1 else 0
  {
    assert s[0..] == s;
    OccurrencesFrom(s, sub, 0);
  }

  method CountSubstrs(s: string, sub: string) returns (count: nat)
    ensures count == SubstrCount(s, sub)
    ensures count + (if EndsWith(s, sub) then 1 else 0) == |Occurrences(s, sub, 0)|
  {
    count := 0;
    var i, left: int := 0, |s|;
    while left > |sub|
      invariant 0 <= i <= |s| && i + left == |s| && count + SubstrCount(s[i..], sub) == SubstrCount(s, sub)
    {
      if sub <= s[i..] {
        count := count + 1;
      }
      assert s[i..][1..] == s[i + 1..];
      left := left - 1;
      i := i + 1;
    }
    SubstrCountIsOccurrences(s, sub);
  }

  // ----- The tokens

  predicate IsGroupToken(t: string) {
    t != "" && t[0] == '@'
  }

  function GroupTokens(tokens: seq<string>): nat {
    if tokens == [] then 0 else (if IsGroupToken(tokens[0]) then 1 else 0) + GroupTokens(tokens[1..])
  }

  /** num_mirrored_members as counted. */
  function CountedMembers(s: string): nat {
    (if s != "" && s[0] == '@' then 1 else 0) + SubstrCount(s, ",@") + SubstrCount(s, ":@")
  }

  /** The specification ends in a separator and a bare "@". */
  predicate EndsInBareAt(s: string) {
    |s| >= 2 && (s[|s| - 2] == ',' || s[|s| - 2] == ':') && s[|s| - 1] == '@'
  }

  lemma {:induction false} SeparatorsCountTokens(s: string)
    ensures CharCount(s, ',') + CharCount(s, ':') + 1 == |Split(s, SEPARATORS)|
    decreases |s|
  {
    if s != "" {
      SeparatorsCountTokens(s[1..]);
      SplitHead(s);
    }
  }

  /** What the first character does to the tokens. */
  lemma {:induction false} SplitHead(s: string)
    requires s != ""
    ensures var rest := Split(s[1..], SEPARATORS);
            Split(s, SEPARATORS) == if s[0] in SEPARATORS then [""] + rest else [[s[0]] + rest[0]] + rest[1..]
  {
    var k := Span(s[1..], SEPARATORS);
    assert s[1..][..k] == s[1..k + 1];
    if s[0] in SEPARATORS {
      SplitFirst("", s[0], s[1..], SEPARATORS);
      assert "" + [s[0]] + s[1..] == s;
    } else {
      assert Span(s, SEPARATORS) == k + 1;
      assert s[..k + 1] == [s[0]] + s[1..][..k];
      if k < |s[1..]| {
        assert s[1..][k + 1..] == s[k + 2..];
      } else {
        assert s == [s[0]] + s[1..];
      }
    }
  }

  /** Group tokens after the first one, as the two substring counts see them. */
  function LaterMembers(s: string): nat {
    SubstrCount(s, ",@") + SubstrCount(s, ":@")
  }

  /** Counted from a character on: one more for a separator followed by "@", unless that is the end. */
  lemma {:induction false} LaterMembersStep(s: string)
    requires s != ""
    ensures LaterMembers(s) == LaterMembers(s[1..]) + if |s| > 2 && s[0] in SEPARATORS && s[1] == '@' then 1 else 0
  {
    if |s| > 2 {
      assert ",@" <= s <==> s[0] == ',' && s[1] == '@';
      assert ":@" <= s <==> s[0] == ':' && s[1] == '@';
    }
  }

  lemma {:induction false} GroupTokensCons(t: string, rest: seq<string>)
    ensures GroupTokens([t] + rest) == (if IsGroupToken(t) then 1 else 0) + GroupTokens(rest)
  {
    assert ([t] + rest)[1..] == rest;
  }

  /** The counts find all group tokens but a bare "@" at the very end of a list. */
  lemma {:induction false} MembersCounted(s: string)
    ensures GroupTokens(Split(s, SEPARATORS)) == CountedMembers(s) + if EndsInBareAt(s) then 1 else 0
    decreases |s|
  {
    var rest := if s == "" then [] else Split(s[1..], SEPARATORS);
    if s == "" {
      assert Split(s, SEPARATORS) == [""] && [""][1..] == [];
      assert GroupTokens([]) == 0;
    } else {
      MembersCounted(s[1..]);
      SplitHead(s);
      LaterMembersStep(s);
      GroupTokensCons(rest[0], rest[1..]);
      assert rest == [rest[0]] + rest[1..];
      FirstToken(s[1..]);
      if s[0] in SEPARATORS {
        GroupTokensCons("", rest);
      } else {
        GroupTokensCons([s[0]] + rest[0], rest[1..]);
      }
    }
  }

  lemma {:induction false} FirstToken(s: string)
    ensures IsGroupToken(Split(s, SEPARATORS)[0]) <==> s != "" && s[0] == '@'
  {
    SpanStops(s, SEPARATORS);
  }

  // ----- The filling pass

  /** The tokens that name users. */
  function UserNames(tokens: seq<string>): seq<string> {
    if tokens == [] then []
    else
      var n := |tokens| - 1;
      UserNames(tokens[..n]) + if IsGroupToken(tokens[n]) then [] else [tokens[n]]
  }

  /** The names in the tokens that name groups, without their "@". */
  function GroupNames(tokens: seq<string>): seq<string> {
    if tokens == [] then []
    else
      var n := |tokens| - 1;
      GroupNames(tokens[..n]) + if IsGroupToken(tokens[n]) then [tokens[n][1..]] else []
  }

  /** What the two lists of names are: a token that starts with '@' names a group, any other one a user. */
  lemma {:induction false} NamesSnoc(tokens: seq<string>, t: string)
    ensures UserNames(tokens + [t]) == UserNames(tokens) + if t != "" && t[0] == '@' then [] else [t]
    ensures GroupNames(tokens + [t]) == GroupNames(tokens) + if t != "" && t[0] == '@' then [t[1..]] else []
    ensures UserNames([]) == GroupNames([]) == []
  {
    assert (tokens + [t])[..|tokens|] == tokens;
  }

  lemma {:induction false} NamesSplit(a: seq<string>, b: seq<string>)
    ensures |UserNames(a + b)| == |UserNames(a)| + |UserNames(b)|
    ensures |GroupNames(a + b)| == |GroupNames(a)| + |GroupNames(b)|
    decreases |b|
  {
    if b == [] {
      assert a + b == a;
    } else {
      var n := |b| - 1;
      NamesSplit(a, b[..n]);
      assert a + b == a + b[..n] + [b[n]] && b == b[..n] + [b[n]];
      NamesSnoc(a + b[..n], b[n]);
      NamesSnoc(b[..n], b[n]);
    }
  }

  lemma {:induction false} NamesCount(tokens: seq<string>)
    ensures |UserNames(tokens)| + |GroupNames(tokens)| == |tokens|
    ensures |GroupNames(tokens)| == GroupTokens(tokens)
    decreases |tokens|
  {
    if tokens != [] {
      NamesCount(tokens[1..]);
      assert tokens == [tokens[0]] + tokens[1..];
      NamesSplit([tokens[0]], tokens[1..]);
      NamesSnoc([], tokens[0]);
      assert [] + [tokens[0]] == [tokens[0]];
    }
  }

  /** Every name resolves, and the ids are theirs, in order. */
  ghost predicate Resolved(names: seq<string>, resolve: string -> Option<Id>, ids: seq<Id>) {
    |names| == |ids| && forall i :: 0 <= i < |names| ==> resolve(names[i]) == Some(ids[i])
  }

  ghost predicate AllResolve(names: seq<string>, resolve: string -> Option<Id>) {
    forall i :: 0 <= i < |names| ==> resolve(names[i]).Some?
  }

  /** The tokens from position `p` on; none once the last one has been taken. */
  function Remaining(s: string, p: nat, finished: bool): seq<string>
    requires p <= |s|
  {
    if finished then [] else Split(s[p..], SEPARATORS)
  }

  /** The token at `p` ends at `q`. */
  lemma {:induction false} TokenAt(s: string, p: nat, q: nat)
    requires p <= q <= |s| && (forall i :: p <= i < q ==> s[i] !in SEPARATORS) && (q < |s| ==> s[q] in SEPARATORS)
    ensures Split(s[p..], SEPARATORS) == [s[p..q]] + if q == |s| then [] else Split(s[q + 1..], SEPARATORS)
  {
    hide Split;
    if q == |s| {
      SpanUnique(s[p..], SEPARATORS, q - p);
      SplitWhole(s[p..], SEPARATORS);
      assert s[p..q] == s[p..] && [s[p..]] + [] == [s[p..]];
    } else {
      SplitFirst(s[p..q], s[q], s[q + 1..], SEPARATORS);
      assert s[p..] == s[p..q] + [s[q]] + s[q + 1..];
    }
  }

  /** Takes the token at `p`: where it ends, and where the next one starts. */
  method TakeToken(s: string, p: nat) returns (token: string, next: nat, last: bool)
    requires p <= |s|
    ensures p <= next <= |s| && (!last ==> p < next)
    ensures Remaining(s, p, false) == [token] + Remaining(s, next, last) && (last ==> Remaining(s, next, last) == [])
  {
    hide Split;
    var q := p;
    while q < |s| && s[q] != ',' && s[q] != ':'
      invariant p <= q <= |s| && forall i :: p <= i < q ==> s[i] !in SEPARATORS
    {
      q := q + 1;
    }
    TokenAt(s, p, q);
    token := s[p..q];
    last := q == |s|;
    next := if last then q else q + 1;
  }

  /** Writes one more resolved id into its array. */
  method Store(ids: array<Id>, i: nat, id: Id, ghost names: seq<string>, ghost name: string, ghost resolve: string -> Option<Id>)
    requires i < ids.Length && Resolved(names, resolve, ids[..i]) && resolve(name) == Some(id)
    modifies ids
    ensures Resolved(names + [name], resolve, ids[..i + 1])
  {
    ids[i] := id;
  }

  /** `Overrun` is where the C code writes past the end of the array of groups. */
  datatype ParseStatus = Parsed | Invalid | Overrun

  ghost predicate AllNamesResolve(mirror: string, userUid: string -> Option<Id>, groupGid: string -> Option<Id>) {
    var tokens := Split(mirror, SEPARATORS);
    AllResolve(UserNames(tokens), userUid) && AllResolve(GroupNames(tokens), groupGid)
  }

  /**
   What parsing comes to.  It fails exactly if some name does not resolve.  Otherwise,
   unless the list ends in a separator and a bare "@", both arrays hold exactly the
   ids named, in order; and if the list does end so, the array of groups is full of
   all but the last when that "@" is reached.
   */
  ghost predicate Outcome(
      mirror: string, userUid: string -> Option<Id>, groupGid: string -> Option<Id>,
      status: ParseStatus, users: seq<Id>, members: seq<Id>)
  {
    var userNames, groupNames := UserNames(Split(mirror, SEPARATORS)), GroupNames(Split(mirror, SEPARATORS));
    && (status == Invalid <==> !AllNamesResolve(mirror, userUid, groupGid))
    && (status == Overrun <==> AllNamesResolve(mirror, userUid, groupGid) && EndsInBareAt(mirror))
    && (status == Parsed ==> Resolved(userNames, userUid, users) && Resolved(groupNames, groupGid, members))
    && (status == Overrun ==> |groupNames| == |members| + 1 && Resolved(groupNames[..|members|], groupGid, members))
  }

  /** The ids of the tokens taken so far. */
  ghost predicate Filled(
      done: seq<string>, userUid: string -> Option<Id>, groupGid: string -> Option<Id>, users: seq<Id>, members: seq<Id>)
  {
    Resolved(UserNames(done), userUid, users) && Resolved(GroupNames(done), groupGid, members)
  }

  /** The arrays are as long as the counting passes make them, and not over-full. */
  ghost predicate Room(mirror: string, users: array<Id>, members: array<Id>, i: nat, j: nat) {
    var tokens, missed := Split(mirror, SEPARATORS), if EndsInBareAt(mirror) then 1 else 0;
    && users != members
    && users.Length == |UserNames(tokens)| + missed && members.Length + missed == |GroupNames(tokens)|
    && i <= |UserNames(tokens)| && j <= members.Length
  }

  /** One round of the loop: the id of the token goes into its array, or parsing ends. */
  method StoreToken(
      mirror: string, userUid: string -> Option<Id>, groupGid: string -> Option<Id>, token: string,
      users: array<Id>, members: array<Id>, i: nat, j: nat, ghost done: seq<string>, ghost rest: seq<string>)
    returns (outcome: Option<ParseStatus>, i': nat, j': nat)
    requires Room(mirror, users, members, i, j) && Split(mirror, SEPARATORS) == done + ([token] + rest)
    requires Filled(done, userUid, groupGid, users[..i], members[..j])
    modifies users, members
    ensures Room(mirror, users, members, i', j')
    ensures match outcome
            case Some(status) => Outcome(mirror, userUid, groupGid, status, users[..], members[..])
            case None => Filled(done + [token], userUid, groupGid, users[..i'], members[..j'])
  {
    hide Outcome, EndsInBareAt, UserNames, GroupNames, Split, Resolved;
    outcome, i', j' := None, i, j;
    Advance(done, token, rest, Split(mirror, SEPARATORS));
    if IsGroupToken(token) {
      var gid := groupGid(token[1..]);
      if gid.None? {
        UnknownGroup(mirror, userUid, groupGid, token[1..], users[..], members[..]);
        outcome := Some(Invalid);
      } else if j == members.Length {
        assert members[..] == members[..j];
        OverrunHere(mirror, userUid, groupGid, done, token, rest, users[..i], users[..], members[..]);
        outcome := Some(Overrun);
      } else {
        Store(members, j, gid.value, GroupNames(done), token[1..], groupGid);
        j' := j + 1;
        ResolvedLength(GroupNames(done + [token]), groupGid, members[..j']);
      }
    } else {
      var uid := userUid(token);
      if uid.None? {
        UnknownUser(mirror, userUid, groupGid, token, users[..], members[..]);
        outcome := Some(Invalid);
      } else {
        ResolvedLength(UserNames(done), userUid, users[..i]);
        Store(users, i, uid.value, UserNames(done), token, userUid);
        i' := i + 1;
      }
    }
  }

  lemma ResolvedLength(names: seq<string>, resolve: string -> Option<Id>, ids: seq<Id>)
    requires Resolved(names, resolve, ids)
    ensures |names| == |ids|
  {
  }

  /** Both arrays have been filled exactly when there is no token left; this is what the loop and its assertions rely on. */
  lemma {:induction false} FullMeansDone(
      mirror: string, userUid: string -> Option<Id>, groupGid: string -> Option<Id>,
      users: array<Id>, members: array<Id>, i: nat, j: nat, done: seq<string>, rest: seq<string>)
    requires Room(mirror, users, members, i, j) && Split(mirror, SEPARATORS) == done + rest
    requires Filled(done, userUid, groupGid, users[..i], members[..j])
    ensures i == users.Length && j == members.Length <==> rest == []
    ensures rest == [] ==> Outcome(mirror, userUid, groupGid, Parsed, users[..], members[..])
  {
    hide Outcome, EndsInBareAt, UserNames, GroupNames, Split, Resolved;
    ResolvedLength(UserNames(done), userUid, users[..i]);
    ResolvedLength(GroupNames(done), groupGid, members[..j]);
    NamesSplit(done, rest);
    NamesCount(rest);
    if rest == [] {
      assert done + rest == done && users[..] == users[..i] && members[..] == members[..j];
      ParsedHere(mirror, userUid, groupGid, users[..], members[..]);
    }
  }

  /**
   parse_mirrored_users: no write is out of bounds unless the outcome is an overrun,
   and the loop ends exactly after the last token.
   */
  method ParseMirroredUsers(mirror: string, userUid: string -> Option<Id>, groupGid: string -> Option<Id>)
    returns (status: ParseStatus, users: array<Id>, members: array<Id>)
    ensures fresh(users) && fresh(members)
    ensures Outcome(mirror, userUid, groupGid, status, users[..], members[..])
  {
    hide Outcome, EndsInBareAt, UserNames, GroupNames, Split, Remaining, Filled;
    var numUsers, numMembers := CountTokens(mirror);
    users, members := new Id[numUsers], new Id[numMembers];
    var i: nat, j: nat, p: nat, finished := 0, 0, 0, false;
    ghost var done: seq<string>, rest := [], Split(mirror, SEPARATORS);
    Start(mirror, userUid, groupGid);
    FullMeansDone(mirror, userUid, groupGid, users, members, i, j, done, rest);
    while i < numUsers || j < numMembers
      invariant 0 <= p <= |mirror| && Split(mirror, SEPARATORS) == done + rest && rest == Remaining(mirror, p, finished)
      invariant Room(mirror, users, members, i, j) && (i == numUsers && j == numMembers <==> rest == [])
      invariant Filled(done, userUid, groupGid, users[..i], members[..j])
      decreases |rest|
    {
      AtToken(mirror, p, finished);
      var token;
      token, p, finished := TakeToken(mirror, p);
      rest := rest[1..];
      var outcome;
      outcome, i, j := StoreToken(mirror, userUid, groupGid, token, users, members, i, j, done, rest);
      if outcome.Some? {
        return outcome.value, users, members;
      }
      done := done + [token];
      FullMeansDone(mirror, userUid, groupGid, users, members, i, j, done, rest);
      assert finished ==> i == numUsers && j == numMembers;
    }
    FullMeansDone(mirror, userUid, groupGid, users, members, i, j, done, rest);
    status := Parsed;
  }

  lemma AtToken(s: string, p: nat, finished: bool)
    requires p <= |s| && Remaining(s, p, finished) != []
    ensures !finished
  {
  }

  lemma {:induction false} Start(mirror: string, userUid: string -> Option<Id>, groupGid: string -> Option<Id>)
    ensures Split(mirror, SEPARATORS) == Remaining(mirror, 0, false) && [] + Split(mirror, SEPARATORS) == Split(mirror, SEPARATORS)
    ensures Filled([], userUid, groupGid, [], [])
  {
    assert mirror[0..] == mirror;
  }

  /** Taking one token: what the counts and the lists of names then are. */
  lemma {:induction false} Advance(done: seq<string>, token: string, rest: seq<string>, tokens: seq<string>)
    requires tokens == done + ([token] + rest)
    ensures tokens == done + [token] + rest && (rest == [] ==> tokens == done + [token])
    ensures UserNames(done + [token]) == if IsGroupToken(token) then UserNames(done) else UserNames(done) + [token]
    ensures GroupNames(done + [token]) == if IsGroupToken(token) then GroupNames(done) + [token[1..]] else GroupNames(done)
    ensures |UserNames(done + [token])| <= |UserNames(tokens)| && |GroupNames(done + [token])| <= |GroupNames(tokens)|
    ensures if IsGroupToken(token) then token[1..] in GroupNames(tokens) else token in UserNames(tokens)
  {
    assert tokens == done + [token] + rest;
    NamesSnoc(done, token);
    NamesSplit(done + [token], rest);
    Unresolved(done, token, rest);
  }

  lemma UnknownGroup(
      mirror: string, userUid: string -> Option<Id>, groupGid: string -> Option<Id>, name: string, users: seq<Id>, members: seq<Id>)
    requires name in GroupNames(Split(mirror, SEPARATORS)) && groupGid(name).None?
    ensures Outcome(mirror, userUid, groupGid, Invalid, users, members)
  {
    hide GroupNames, UserNames, Split;
  }

  lemma UnknownUser(
      mirror: string, userUid: string -> Option<Id>, groupGid: string -> Option<Id>, name: string, users: seq<Id>, members: seq<Id>)
    requires name in UserNames(Split(mirror, SEPARATORS)) && userUid(name).None?
    ensures Outcome(mirror, userUid, groupGid, Invalid, users, members)
  {
    hide GroupNames, UserNames, Split;
  }

  lemma {:induction false} ParsedHere(
      mirror: string, userUid: string -> Option<Id>, groupGid: string -> Option<Id>, users: seq<Id>, members: seq<Id>)
    requires Resolved(UserNames(Split(mirror, SEPARATORS)), userUid, users)
    requires Resolved(GroupNames(Split(mirror, SEPARATORS)), groupGid, members)
    requires !EndsInBareAt(mirror)
    ensures Outcome(mirror, userUid, groupGid, Parsed, users, members)
  {
    hide GroupNames, UserNames, Split, Resolved, AllResolve, EndsInBareAt;
    ResolvedMeansAll(UserNames(Split(mirror, SEPARATORS)), userUid, users);
    ResolvedMeansAll(GroupNames(Split(mirror, SEPARATORS)), groupGid, members);
  }

  /** A group token that resolves, and finds the array of groups full. */
  lemma {:induction false} OverrunHere(
      mirror: string, userUid: string -> Option<Id>, groupGid: string -> Option<Id>,
      done: seq<string>, token: string, rest: seq<string>, filled: seq<Id>, users: seq<Id>, members: seq<Id>)
    requires Split(mirror, SEPARATORS) == done + [token] + rest && IsGroupToken(token) && groupGid(token[1..]).Some?
    requires Resolved(UserNames(done), userUid, filled) && Resolved(GroupNames(done), groupGid, members)
    requires |members| + (if EndsInBareAt(mirror) then 1 else 0) == |GroupNames(Split(mirror, SEPARATORS))|
    ensures Outcome(mirror, userUid, groupGid, Overrun, users, members)
  {
    hide GroupNames, UserNames, Split, Resolved, AllResolve, EndsInBareAt;
    NamesSnoc(done, token);
    NamesSplit(done + [token], rest);
    OneMore(GroupNames(done), groupGid, members, token[1..]);
    assert EndsInBareAt(mirror);
    LastIsBareAt(mirror);
    AllTaken(done, token, rest, Split(mirror, SEPARATORS));
    ResolvedMeansAll(UserNames(done), userUid, filled);
    var tokens := Split(mirror, SEPARATORS);
    assert GroupNames(tokens) == GroupNames(done) + [token[1..]];
    assert GroupNames(tokens)[..|members|] == GroupNames(done);
    assert UserNames(tokens) == UserNames(done) && AllNamesResolve(mirror, userUid, groupGid);
  }

  lemma ResolvedMeansAll(names: seq<string>, resolve: string -> Option<Id>, ids: seq<Id>)
    requires Resolved(names, resolve, ids)
    ensures AllResolve(names, resolve)
  {
  }

  lemma OneMore(names: seq<string>, resolve: string -> Option<Id>, ids: seq<Id>, name: string)
    requires Resolved(names, resolve, ids) && resolve(name).Some?
    ensures AllResolve(names + [name], resolve) && (names + [name])[..|names|] == names && |names| == |ids|
  {
  }

  /** The last token of a list that ends in a separator and a bare "@". */
  lemma {:induction false} LastIsBareAt(s: string)
    ensures EndsInBareAt(s) ==> var tokens := Split(s, SEPARATORS); IsGroupToken(tokens[|tokens| - 1])
  {
    if EndsInBareAt(s) {
      var p := s[..|s| - 2];
      assert s == p + [s[|s| - 2]] + "@";
      SplitConcat(p, s[|s| - 2], "@", SEPARATORS);
      SpanUnique("@", SEPARATORS, 1);
    }
  }

  /** If the last token names a group and all group tokens have been taken, so have all others. */
  lemma {:induction false} AllTaken(done: seq<string>, token: string, rest: seq<string>, tokens: seq<string>)
    requires tokens == done + [token] + rest && IsGroupToken(tokens[|tokens| - 1])
    requires |GroupNames(tokens)| <= |GroupNames(done + [token])|
    ensures rest == [] && tokens == done + [token]
  {
    if rest != [] {
      var n := |rest| - 1;
      assert tokens == done + [token] + rest[..n] + [rest[n]];
      NamesSnoc(done + [token] + rest[..n], rest[n]);
      NamesSplit(done + [token], rest[..n]);
    }
  }

  /** The two counting passes together. */
  method CountTokens(mirror: string) returns (numUsers: nat, numMembers: nat)
    ensures var tokens, missed := Split(mirror, SEPARATORS), if EndsInBareAt(mirror) then 1 else 0;
            numUsers == |UserNames(tokens)| + missed && numMembers + missed == |GroupNames(tokens)|
  {
    var commas := CountChars(mirror, ',');
    var colons := CountChars(mirror, ':');
    var a := CountSubstrs(mirror, ",@");
    var b := CountSubstrs(mirror, ":@");
    numMembers := (if mirror != "" && mirror[0] == '@' then 1 else 0) + a + b;
    SeparatorsCountTokens(mirror);
    MembersCounted(mirror);
    NamesCount(Split(mirror, SEPARATORS));
    numUsers := commas + colons + 1 - numMembers;
  }

  lemma BareAtToken()
    ensures Split("@", SEPARATORS) == ["@"] && IsGroupToken("@") && !IsGroupToken("root")
  {
    SpanUnique("@", SEPARATORS, 1);
  }

  lemma {:induction false} BareAtTokens()
    ensures Split("root,@", SEPARATORS) == ["root", "@"]
  {
    hide Split;
    BareAtToken();
    SplitFirst("root", ',', "@", SEPARATORS);
    assert "root,@" == "root" + [','] + "@";
  }

  lemma {:induction false} TwoTokens(t: string, u: string)
    ensures GroupTokens([t, u]) == (if IsGroupToken(t) then 1 else 0) + (if IsGroupToken(u) then 1 else 0)
  {
    assert [t, u] == [t] + [u] && [u] == [u] + [];
    GroupTokensCons(t, [u]);
    GroupTokensCons(u, []);
    assert GroupTokens([]) == 0;
  }

  /** "root,@" has one group token, which the count misses. */
  lemma {:induction false} BareAtIsMissed()
    ensures EndsInBareAt("root,@") && CountedMembers("root,@") == 0 && Split("root,@", SEPARATORS) == ["root", "@"]
  {
    hide Split, GroupTokens, CountedMembers, IsGroupToken;
    BareAtToken();
    BareAtTokens();
    TwoTokens("root", "@");
    MembersCounted("root,@");
  }

  /** A name that does not resolve is still among the names of the whole list. */
  lemma {:induction false} Unresolved(done: seq<string>, token: string, rest: seq<string>)
    ensures if IsGroupToken(token) then token[1..] in GroupNames(done + [token] + rest)
            else token in UserNames(done + [token] + rest)
    decreases |rest|
  {
    if rest == [] {
      assert done + [token] + rest == done + [token];
      NamesSnoc(done, token);
    } else {
      var n := |rest| - 1;
      Unresolved(done, token, rest[..n]);
      assert done + [token] + rest == done + [token] + rest[..n] + [rest[n]];
      NamesSnoc(done + [token] + rest[..n], rest[n]);
    }
  }
}
