/**
 src/misc.c: rewriting the argument vector in place.  "-o" arguments are merged
 with their values, then stripped of the options the caller does not want.
 */
module ArgFilter {
  import opened Text

  predicate IsO(arg: string) {
    "-o" <= arg
  }

  lemma IsOByCharacters(arg: string)
    ensures IsO(arg) <==> |arg| >= 2 && arg[0] == '-' && arg[1] == 'o'
  {
  }

  // ----- Merging

  /** ("-o", "x") becomes ("-ox"); a last "-o" without a value disappears. */
  function Merged(args: seq<string>): seq<string> {
    if args == [] then []
    else if args[0] != "-o" then [args[0]] + Merged(args[1..])
    else if |args| == 1 then []
    else ["-o" + args[1]] + Merged(args[2..])
  }

  /** All the characters of all the arguments. */
  function Flat(args: seq<string>): string {
    if args == [] then "" else args[0] + Flat(args[1..])
  }

  /** The last "-o" has no value after it. */
  predicate EndsInLoneO(args: seq<string>) {
    args != [] && if args[0] != "-o" then EndsInLoneO(args[1..]) else |args| == 1 || EndsInLoneO(args[2..])
  }

  /** Merging loses nothing but a last "-o" without a value. */
  lemma {:induction false} MergedConserves(args: seq<string>)
    ensures Flat(args) == Flat(Merged(args)) + if EndsInLoneO(args) then "-o" else ""
    decreases |args|
  {
    if args != [] {
      if args[0] != "-o" {
        MergedConserves(args[1..]);
        assert ([args[0]] + Merged(args[1..]))[1..] == Merged(args[1..]);
      } else if |args| > 1 {
        MergedConserves(args[2..]);
        assert args[1..][1..] == args[2..];
        assert (["-o" + args[1]] + Merged(args[2..]))[1..] == Merged(args[2..]);
      } else {
        assert args[1..] == [];
      }
    }
  }

  /** A bare "-o" can only be left by an empty value. */
  lemma {:induction false} MergedHasNoBareO(args: seq<string>)
    requires "" !in args
    ensures "-o" !in Merged(args)
    decreases |args|
  {
    if args != [] {
      if args[0] != "-o" {
        MergedHasNoBareO(args[1..]);
      } else if |args| > 1 {
        MergedHasNoBareO(args[2..]);
        assert args[1] in args && |"-o" + args[1]| > 2;
      }
    }
  }

  /** Shifts `argv[from + 1..argc]` one place to the left. */
  method ShiftLeft(argv: array<string>, from: nat, argc: nat)
    requires from < argc <= argv.Length
    modifies argv
    ensures argv[..argc - 1] == old(argv[..from] + argv[from + 1..argc])
  {
    var j := from;
    while j < argc - 1
      invariant from <= j <= argc - 1
      invariant argv[..j] == old(argv[..from] + argv[from + 1..j + 1])
      invariant argv[j..argc] == old(argv[j..argc])
    {
      assert argv[j + 1] == old(argv[j..argc])[1] == old(argv[j + 1]);
      argv[j] := argv[j + 1];
      j := j + 1;
    }
  }

  /** Everything before `i` is merged, everything from `i` on is as it was. */
  ghost predicate MergedUpTo(args: seq<string>, i: nat, result: seq<string>) {
    i <= |args| && args[..i] + Merged(args[i..]) == result
  }

  lemma {:induction false} MergeKeeps(args: seq<string>, i: nat, result: seq<string>)
    requires MergedUpTo(args, i, result) && i < |args| && args[i] != "-o"
    ensures MergedUpTo(args, i + 1, result)
  {
    assert args[i..][1..] == args[i + 1..] && args[..i + 1] == args[..i] + [args[i]];
  }

  /** Arguments `i` and `i + 1` put together. */
  function Joined(args: seq<string>, i: nat): seq<string>
    requires i + 1 < |args|
  {
    args[..i] + ["-o" + args[i + 1]] + args[i + 2..]
  }

  lemma {:induction false} MergeJoins(args: seq<string>, i: nat, result: seq<string>)
    requires MergedUpTo(args, i, result) && i + 1 < |args| && args[i] == "-o"
    ensures MergedUpTo(Joined(args, i), i + 1, result)
  {
    var args' := Joined(args, i);
    assert args[i..][2..] == args[i + 2..] && args[i..][1] == args[i + 1];
    assert args'[..i + 1] == args[..i] + ["-o" + args[i + 1]] && args'[i + 1..] == args[i + 2..];
  }

  lemma {:induction false} MergeDrops(args: seq<string>, result: seq<string>)
    requires args != [] && MergedUpTo(args, |args| - 1, result) && args[|args| - 1] == "-o"
    ensures args[..|args| - 1] == result
  {
    assert args[|args| - 1..] == ["-o"];
  }

  /** The vector between two rounds; after a last "-o" has been dropped the index is one too far. */
  ghost predicate MergeState(args: seq<string>, i: nat, result: seq<string>) {
    if i <= |args| then MergedUpTo(args, i, result) else args == result
  }

  method JoinNext(argv: array<string>, i: nat, argc: nat)
    requires i + 1 < argc <= argv.Length
    modifies argv
    ensures argv[..argc - 1] == Joined(old(argv[..argc]), i)
  {
    ghost var args := argv[..argc];
    argv[i] := "-o" + argv[i + 1];
    assert argv[..i + 1] == args[..i] + ["-o" + args[i + 1]];
    assert argv[i + 2..argc] == args[i + 2..];
    ShiftLeft(argv, i + 1, argc);
  }

  /** One round of the loop, which makes the vector one shorter if it joins or drops an argument. */
  method MergeOne(argv: array<string>, i: nat, argc: nat, ghost result: seq<string>) returns (argc': nat)
    requires i < argc <= argv.Length && MergeState(argv[..argc], i, result)
    modifies argv
    ensures argc' <= argc && MergeState(argv[..argc'], i + 1, result)
  {
    hide Merged, Joined, MergedUpTo;
    ghost var args := argv[..argc];
    argc' := argc;
    if argv[i] != "-o" {
      MergeKeeps(args, i, result);
    } else {
      argc' := argc - 1;
      if i + 1 < argc {
        JoinNext(argv, i, argc);
        MergeJoins(args, i, result);
      } else {
        MergeDrops(args, result);
        assert argv[..argc'] == args[..argc'];
      }
    }
  }

  method MergeOArgs(argv: array<string>, argc: nat) returns (argc': nat)
    requires argc <= argv.Length
    modifies argv
    ensures argc' <= argc && argv[..argc'] == Merged(old(argv[..argc]))
  {
    hide Merged, MergeState;
    ghost var result := Merged(argv[..argc]);
    argc' := argc;
    var i := 0;
    MergeStarts(argv[..argc]);
    while i < argc'
      invariant 0 <= i && argc' <= argc && MergeState(argv[..argc'], i, result)
      decreases argc - i
    {
      argc' := MergeOne(argv, i, argc', result);
      i := i + 1;
    }
    MergeEnds(argv[..argc'], i, result);
  }

  lemma MergeStarts(args: seq<string>)
    ensures MergeState(args, 0, Merged(args))
  {
    assert args[0..] == args;
  }

  lemma MergeEnds(args: seq<string>, i: nat, result: seq<string>)
    requires MergeState(args, i, result) && |args| <= i
    ensures args == result
  {
    assert args[|args|..] == [] && args[..|args|] == args;
  }

  // ----- Tokens

  /** The non-empty pieces, which is what strtok delivers. */
  function NonEmpty(pieces: seq<string>): seq<string> {
    if pieces == [] then []
    else (if pieces[0] == "" then [] else [pieces[0]]) + NonEmpty(pieces[1..])
  }

  function Tokens(s: string): seq<string> {
    NonEmpty(Split(s, {','}))
  }

  lemma {:induction false} NonEmptyCons(p: string, rest: seq<string>)
    ensures NonEmpty([p] + rest) == (if p == "" then [] else [p]) + NonEmpty(rest)
  {
    assert ([p] + rest)[1..] == rest;
  }

  lemma {:induction false} NoPieces()
    ensures Tokens("") == [] && NonEmpty([]) == []
  {
    assert Split("", {','}) == [""] && [""][1..] == [];
  }

  lemma {:induction false} TokensComma(rest: string)
    ensures Tokens("," + rest) == Tokens(rest)
  {
    hide Split, NonEmpty;
    SplitFirst("", ',', rest, {','});
    assert "" + [','] + rest == "," + rest;
    NonEmptyCons("", Split(rest, {','}));
  }

  lemma {:induction false} LastToken(word: string)
    requires word != "" && (forall i :: 0 <= i < |word| ==> word[i] != ',')
    ensures Tokens(word) == [word]
  {
    SpanUnique(word, {','}, |word|);
    assert Split(word, {','}) == [word];
    NonEmptyCons(word, []);
    NoPieces();
    assert [word] + [] == [word] && [word] + NonEmpty([]) == [word];
  }

  lemma {:induction false} TokensWord(word: string, rest: string)
    requires word != "" && (forall i :: 0 <= i < |word| ==> word[i] != ',') && (rest == "" || rest[0] == ',')
    ensures Tokens(word + rest) == [word] + Tokens(rest)
  {
    hide Split, NonEmpty;
    if rest == "" {
      assert word + rest == word;
      LastToken(word);
      NoPieces();
    } else {
      SplitFirst(word, ',', rest[1..], {','});
      assert word + [','] + rest[1..] == word + rest && rest == "," + rest[1..];
      TokensComma(rest[1..]);
      NonEmptyCons(word, Split(rest[1..], {','}));
    }
  }

  /** The options in an argument: those after its first two characters, if they are '-' and 'o'. */
  function TokensOf(arg: string): seq<string> {
    if |arg| >= 2 && arg[0] == '-' && arg[1] == 'o' then Tokens(arg[2..]) else []
  }

  function Kept(tokens: seq<string>, keep: string -> bool): seq<string> {
    if tokens == [] then []
    else (if keep(tokens[0]) then [tokens[0]] else []) + Kept(tokens[1..], keep)
  }

  /** What `Tokens` is: it cuts at commas and leaves out what is empty. */
  lemma {:induction false} TokensCut(a: string, b: string)
    ensures Tokens(a + "," + b) == Tokens(a) + Tokens(b)
    ensures ',' !in a ==> Tokens(a) == if a == "" then [] else [a]
  {
    hide Split, NonEmpty;
    assert a + [','] + b == a + "," + b;
    SplitConcat(a, ',', b, {','});
    NonEmptyConcat(Split(a, {','}), Split(b, {','}));
    if ',' !in a {
      if a == "" {
        NoPieces();
      } else {
        LastToken(a);
      }
    }
  }

  lemma {:induction false} NonEmptyConcat(a: seq<string>, b: seq<string>)
    ensures NonEmpty(a + b) == NonEmpty(a) + NonEmpty(b)
  {
    if a == [] {
      assert a + b == b;
    } else {
      assert (a + b)[1..] == a[1..] + b;
      NonEmptyConcat(a[1..], b);
    }
  }

  /** What `Kept` is: it goes through the options one by one. */
  lemma {:induction false} KeptEach(a: seq<string>, b: seq<string>, t: string, keep: string -> bool)
    ensures Kept(a + b, keep) == Kept(a, keep) + Kept(b, keep)
    ensures Kept([t], keep) == if keep(t) then [t] else []
    decreases |a|
  {
    hide Kept;
    KeptNothing(keep);
    KeptCons(t, [], keep);
    assert [t] + [] == [t];
    if a == [] {
      assert a + b == b && [] + Kept(b, keep) == Kept(b, keep);
    } else {
      KeptEach(a[1..], b, t, keep);
      KeptCons(a[0], a[1..] + b, keep);
      KeptCons(a[0], a[1..], keep);
      assert a + b == [a[0]] + (a[1..] + b) && a == [a[0]] + a[1..];
    }
  }

  function Rebuilt(tokens: seq<string>): string {
    if tokens == [] then "" else "-o" + Join(tokens, ',')
  }

  /** What is left of an "-o" argument; nothing at all if every option is rejected. */
  function Rewritten(arg: string, keep: string -> bool): string {
    Rebuilt(Kept(TokensOf(arg), keep))
  }

  /** Finds the next token of `s` at or after `p`, as strtok does. */
  method NextToken(s: string, p: nat) returns (found: bool, start: nat, end: nat)
    requires p <= |s|
    ensures p <= start <= end <= |s| && (found <==> start < |s|)
    ensures forall i :: p <= i < start ==> s[i] == ','
    ensures found ==> start < end && (forall i :: start <= i < end ==> s[i] != ',') && (end < |s| ==> s[end] == ',')
  {
    start := p;
    while start < |s| && s[start] == ','
      invariant p <= start <= |s| && forall i :: p <= i < start ==> s[i] == ','
    {
      start := start + 1;
    }
    end := start;
    while end < |s| && s[end] != ','
      invariant start <= end <= |s| && forall i :: start <= i < end ==> s[i] != ','
      invariant end == start && start < |s| ==> s[end] != ','
    {
      end := end + 1;
    }
    found := start < |s|;
  }

  lemma {:induction false} SkipCommas(s: string, p: nat, start: nat)
    requires p <= start <= |s| && forall i :: p <= i < start ==> s[i] == ','
    ensures Tokens(s[p..]) == Tokens(s[start..])
    decreases start - p
  {
    if p < start {
      assert s[p..] == "," + s[p + 1..];
      TokensComma(s[p + 1..]);
      SkipCommas(s, p + 1, start);
    }
  }

  /** The tokens from `p` on: the one at `start..end`, then those from `end` on. */
  lemma {:induction false} TokensStep(s: string, p: nat, start: nat, end: nat)
    requires p <= start < end <= |s| && (forall i :: p <= i < start ==> s[i] == ',')
    requires (forall i :: start <= i < end ==> s[i] != ',') && (end < |s| ==> s[end] == ',')
    ensures Tokens(s[p..]) == [s[start..end]] + Tokens(s[end..])
  {
    SkipCommas(s, p, start);
    TokensWord(s[start..end], s[end..]);
    assert s[start..] == s[start..end] + s[end..];
  }

  lemma {:induction false} NoTokens(s: string, p: nat)
    requires p <= |s| && forall i :: p <= i < |s| ==> s[i] == ','
    ensures Tokens(s[p..]) == []
  {
    SkipCommas(s, p, |s|);
    assert s[|s|..] == "";
    NoPieces();
  }

  lemma RebuiltSnoc(tokens: seq<string>, t: string)
    ensures Rebuilt(tokens + [t]) == if tokens == [] then "-o" + t else Rebuilt(tokens) + "," + t
  {
    if tokens == [] {
      assert tokens + [t] == [t];
    } else {
      JoinConcat(tokens, [t], ',');
      assert "-o" + (Join(tokens, ',') + [','] + t) == "-o" + Join(tokens, ',') + "," + t;
    }
  }

  lemma {:induction false} KeptCons(t: string, rest: seq<string>, keep: string -> bool)
    ensures Kept([t] + rest, keep) == (if keep(t) then [t] else []) + Kept(rest, keep)
  {
    assert ([t] + rest)[1..] == rest;
  }

  /** memcpy of a token and its terminator into the buffer. */
  method CopyToken(buffer: array<char>, at: nat, t: string)
    requires at + |t| < buffer.Length
    modifies buffer
    ensures buffer[..at + |t|] == old(buffer[..at]) + t && buffer[at + |t|] == '\0'
  {
    var j := 0;
    while j < |t|
      invariant 0 <= j <= |t| && buffer[..at + j] == old(buffer[..at]) + t[..j]
    {
      buffer[at + j] := t[j];
      assert buffer[..at + j + 1] == old(buffer[..at]) + t[..j] + [t[j]];
      j := j + 1;
    }
    buffer[at + j] := '\0';
    assert t[..j] == t;
  }

  /** Appends a kept token to the argument being rebuilt. */
  method AppendToken(buffer: array<char>, len: nat, t: string, ghost tokens: seq<string>) returns (len': nat)
    requires len <= buffer.Length && buffer[..len] == Rebuilt(tokens) && (len == 0 <==> tokens == [])
    requires len + (if tokens == [] then 2 else 1) + |t| < buffer.Length
    modifies buffer
    ensures len' == len + (if tokens == [] then 2 else 1) + |t|
    ensures buffer[..len'] == Rebuilt(tokens + [t]) && buffer[len'] == '\0'
  {
    hide Rebuilt;
    RebuiltSnoc(tokens, t);
    len' := len;
    ghost var was := buffer[..len];
    if len == 0 {
      buffer[0] := '-';
      buffer[1] := 'o';
      len' := 2;
      assert buffer[..len'] == "-o";
    } else {
      buffer[len] := ',';
      len' := len + 1;
      assert buffer[..len'] == was + ",";
    }
    CopyToken(buffer, len', t);
    len' := len' + |t|;
  }

  /** The tokens kept so far, and those to be kept from `p` on, are all there are to keep. */
  ghost predicate KeptSoFar(tokens: seq<string>, s: string, p: nat, keep: string -> bool)
    requires p <= |s|
  {
    Kept(Tokens(s), keep) == tokens + Kept(Tokens(s[p..]), keep)
  }

  lemma KeptStarts(s: string, keep: string -> bool)
    ensures KeptSoFar([], s, 0, keep)
  {
    assert s[0..] == s;
    assert [] + Kept(Tokens(s), keep) == Kept(Tokens(s), keep);
  }

  lemma {:induction false} KeptGrows(tokens: seq<string>, s: string, p: nat, start: nat, end: nat, keep: string -> bool)
    requires p <= start < end <= |s| && (forall i :: p <= i < start ==> s[i] == ',')
    requires (forall i :: start <= i < end ==> s[i] != ',') && (end < |s| ==> s[end] == ',')
    requires KeptSoFar(tokens, s, p, keep)
    ensures KeptSoFar(if keep(s[start..end]) then tokens + [s[start..end]] else tokens, s, end, keep)
  {
    hide Tokens, Kept;
    TokensStep(s, p, start, end);
    KeptCons(s[start..end], Tokens(s[end..]), keep);
    Regroup(tokens, s[start..end], Kept(Tokens(s[end..]), keep));
  }

  lemma Regroup(a: seq<string>, t: string, b: seq<string>)
    ensures a + ([t] + b) == a + [t] + b && a + ([] + b) == a + b
  {
  }

  lemma {:induction false} KeptEnds(tokens: seq<string>, s: string, p: nat, keep: string -> bool)
    requires p <= |s| && (forall i :: p <= i < |s| ==> s[i] == ',') && KeptSoFar(tokens, s, p, keep)
    ensures tokens == Kept(Tokens(s), keep)
  {
    hide Tokens, Kept;
    NoTokens(s, p);
    KeptNothing(keep);
    assert tokens + [] == tokens;
  }

  /** The buffer holds the argument rebuilt from these tokens; nothing, as long as there are none. */
  ghost predicate Holds(buffer: seq<char>, len: nat, tokens: seq<string>) {
    && len < |buffer| && buffer[..len] == Rebuilt(tokens)
    && (len == 0 <==> tokens == []) && (len > 0 ==> buffer[len] == '\0')
  }

  /** One kept token more. */
  method KeepToken(buffer: array<char>, len: nat, t: string, ghost tokens: seq<string>) returns (len': nat)
    requires Holds(buffer[..], len, tokens) && len + (if len == 0 then 2 else 1) + |t| < buffer.Length
    modifies buffer
    ensures len' == len + (if len == 0 then 2 else 1) + |t| && Holds(buffer[..], len', tokens + [t])
  {
    hide Rebuilt;
    assert buffer[..][..len] == buffer[..len];
    len' := AppendToken(buffer, len, t, tokens);
    assert buffer[..][..len'] == buffer[..len'];
  }

  /**
   The inner loop of filter_o_opts: rebuilds one "-o" argument from the options to
   keep.  The buffer it writes to is no longer than the argument itself.
   */
  method FilterArg(arg: string, keep: string -> bool) returns (buffer: array<char>, len: nat)
    requires |arg| >= 2 && arg[0] == '-' && arg[1] == 'o'
    ensures fresh(buffer) && buffer.Length == |arg| + 1 && len < buffer.Length
    ensures var kept := Kept(Tokens(arg[2..]), keep);
            if kept == [] then len == 0 else buffer[..len] == "-o" + Join(kept, ',') && buffer[len] == '\0'
    ensures buffer[..len] == Rewritten(arg, keep) && (len == 0 <==> Rewritten(arg, keep) == "")
  {
    hide Tokens, Kept, Rebuilt, KeptSoFar, Holds;
    buffer, len := new char[|arg| + 1], 0;
    var s := arg[2..];
    ghost var tokens: seq<string> := [];
    var p := 0;
    var more := true;
    KeptStarts(s, keep);
    NothingHeld(buffer[..]);
    while more
      invariant 0 <= p <= |s| && (len > 0 ==> len <= 2 + p && (p < |s| ==> s[p] == ','))
      invariant Holds(buffer[..], len, tokens)
      invariant if more then KeptSoFar(tokens, s, p, keep) else tokens == Kept(Tokens(s), keep)
      decreases more, |s| - p
    {
      var start, end;
      more, start, end := NextToken(s, p);
      if more {
        KeptGrows(tokens, s, p, start, end, keep);
        if keep(s[start..end]) {
          len := KeepToken(buffer, len, s[start..end], tokens);
          tokens := tokens + [s[start..end]];
        }
        p := end;
      } else {
        KeptEnds(tokens, s, p, keep);
      }
    }
    AllHeld(buffer[..], len, tokens);
    assert buffer[..][..len] == buffer[..len];
    RebuiltText(tokens);
  }

  lemma RebuiltText(tokens: seq<string>)
    ensures if tokens == [] then Rebuilt(tokens) == "" else Rebuilt(tokens) == "-o" + Join(tokens, ',') && Rebuilt(tokens) != ""
  {
  }

  lemma NothingHeld(buffer: seq<char>)
    requires buffer != []
    ensures Holds(buffer, 0, [])
  {
    RebuiltNothing();
  }

  lemma AllHeld(buffer: seq<char>, len: nat, tokens: seq<string>)
    requires Holds(buffer, len, tokens)
    ensures len < |buffer| && buffer[..len] == Rebuilt(tokens) && (len > 0 ==> buffer[len] == '\0')
    ensures len == 0 <==> Rebuilt(tokens) == ""
  {
    hide Rebuilt;
    RebuiltNothing();
  }

  lemma RebuiltNothing()
    ensures Rebuilt([]) == ""
  {
  }

  lemma KeptNothing(keep: string -> bool)
    ensures Kept([], keep) == []
  {
  }

  // ----- Filtering a whole vector

  /** An "-o" argument none of whose options is kept. */
  predicate Dropped(arg: string, keep: string -> bool) {
    IsO(arg) && Rewritten(arg, keep) == ""
  }

  /** The same by the characters: an "-o" argument with no option to keep. */
  ghost predicate WhollyRejected(arg: string, keep: string -> bool) {
    |arg| >= 2 && arg[0] == '-' && arg[1] == 'o' && forall t :: t in Tokens(arg[2..]) ==> !keep(t)
  }

  lemma {:induction false} NoneKept(tokens: seq<string>, keep: string -> bool)
    ensures Kept(tokens, keep) == [] <==> forall t :: t in tokens ==> !keep(t)
  {
    if tokens != [] {
      NoneKept(tokens[1..], keep);
      assert tokens == [tokens[0]] + tokens[1..];
    }
  }

  lemma {:induction false} DroppedIff(arg: string, keep: string -> bool)
    ensures Dropped(arg, keep) <==> WhollyRejected(arg, keep)
  {
    hide Tokens, Kept, Rebuilt;
    IsOByCharacters(arg);
    NoneKept(TokensOf(arg), keep);
    RebuiltText(Kept(TokensOf(arg), keep));
  }

  /** How many wholly rejected arguments stand directly in front of argument `i`. */
  ghost function RejectedBefore(args: seq<string>, keep: string -> bool, i: nat): nat
    requires i <= |args|
  {
    if i == 0 || !WhollyRejected(args[i - 1], keep) then 0 else 1 + RejectedBefore(args, keep, i - 1)
  }

  /** An argument is passed over if that number is odd. */
  lemma {:induction false} SkippedIfOdd(args: seq<string>, keep: string -> bool, i: nat)
    requires i <= |args|
    ensures Skipped(args, keep, i) <==> RejectedBefore(args, keep, i) % 2 == 1
  {
    hide Dropped, WhollyRejected;
    if i > 0 {
      SkippedIfOdd(args, keep, i - 1);
      DroppedIff(args[i - 1], keep);
    }
  }

  /**
   The loop index still advances after a dropped argument has been shifted away,
   so the argument right after it is passed over.
   */
  predicate Skipped(args: seq<string>, keep: string -> bool, i: nat)
    requires i <= |args|
  {
    i > 0 && !Skipped(args, keep, i - 1) && Dropped(args[i - 1], keep)
  }

  /** What becomes of argument `i`. */
  function Output(args: seq<string>, keep: string -> bool, i: nat): seq<string>
    requires i < |args|
  {
    if Skipped(args, keep, i) || !IsO(args[i]) then [args[i]]
    else if Dropped(args[i], keep) then []
    else [Rewritten(args[i], keep)]
  }

  /** What becomes of the first `n` arguments. */
  function Filtered(args: seq<string>, keep: string -> bool, n: nat): seq<string>
    requires n <= |args|
  {
    if n == 0 then [] else Filtered(args, keep, n - 1) + Output(args, keep, n - 1)
  }

  /** The vector between two rounds: `k` arguments are done and stand in front of the others. */
  ghost predicate FilteredUpTo(now: seq<string>, args: seq<string>, keep: string -> bool, k: nat, i: nat) {
    && k <= |args| && !Skipped(args, keep, k)
    && i == |Filtered(args, keep, k)| && now == Filtered(args, keep, k) + args[k..]
  }

  lemma {:induction false} SkippedNext(args: seq<string>, keep: string -> bool, i: nat)
    requires i < |args|
    ensures Skipped(args, keep, i + 1) <==> !Skipped(args, keep, i) && Dropped(args[i], keep)
  {
  }

  lemma {:induction false} OutputCases(args: seq<string>, keep: string -> bool, i: nat)
    requires i < |args|
    ensures Output(args, keep, i) ==
            if Skipped(args, keep, i) then [args[i]]
            else if Dropped(args[i], keep) then [] else [Stays(args[i], keep)]
  {
  }

  /** One round over an argument that stays, rewritten or not. */
  lemma {:induction false} FilterKeeps(now: seq<string>, args: seq<string>, keep: string -> bool, k: nat, i: nat)
    requires FilteredUpTo(now, args, keep, k, i) && i < |now| && !Dropped(now[i], keep)
    ensures FilteredUpTo(now[i := Stays(now[i], keep)], args, keep, k + 1, i + 1)
  {
    hide Output, Skipped, Dropped, Stays;
    var done, arg := Filtered(args, keep, k), Stays(now[i], keep);
    assert now[i] == args[k];
    SkippedNext(args, keep, k);
    OutputCases(args, keep, k);
    assert now[i := arg] == done + [arg] + args[k + 1..];
  }

  /** One round over an argument that goes: the next one is passed over. */
  lemma {:induction false} FilterDrops(now: seq<string>, args: seq<string>, keep: string -> bool, k: nat, i: nat)
    requires FilteredUpTo(now, args, keep, k, i) && i < |now| && Dropped(now[i], keep)
    ensures var now' := now[..i] + now[i + 1..];
            if k + 1 == |args| then now' == Filtered(args, keep, |args|) && |now'| == i
            else |now'| > i && FilteredUpTo(now', args, keep, k + 2, i + 1)
  {
    hide Output, Skipped, Dropped, Stays;
    var done := Filtered(args, keep, k);
    var now' := now[..i] + now[i + 1..];
    assert now[i] == args[k];
    SkippedNext(args, keep, k);
    OutputCases(args, keep, k);
    assert Filtered(args, keep, k + 1) == done + [] == done;
    assert now' == done + args[k + 1..];
    if k + 1 < |args| {
      SkippedNext(args, keep, k + 1);
      OutputCases(args, keep, k + 1);
      assert now' == done + [args[k + 1]] + args[k + 2..];
    } else {
      assert args[k + 1..] == [];
    }
  }

  /** Argument `arg` after its round, if it stays. */
  function Stays(arg: string, keep: string -> bool): string {
    if IsO(arg) then Rewritten(arg, keep) else arg
  }

  lemma StaysUnlessO(arg: string, keep: string -> bool)
    ensures !(|arg| >= 2 && arg[0] == '-' && arg[1] == 'o') ==> Stays(arg, keep) == arg && !Dropped(arg, keep)
  {
  }

  /** One round: argument `i` is rewritten, or shifted away. */
  method FilterOne(argv: array<string>, i: nat, argc: nat, keep: string -> bool) returns (removed: bool)
    requires i < argc <= argv.Length
    modifies argv
    ensures removed <==> WhollyRejected(old(argv[i]), keep)
    ensures removed <==> Dropped(old(argv[i]), keep)
    ensures removed ==> argv[..argc - 1] == old(argv[..argc])[..i] + old(argv[..argc])[i + 1..]
    ensures !removed ==> argv[..argc] == old(argv[..argc])[i := Stays(old(argv[i]), keep)]
    ensures !(|old(argv[i])| >= 2 && old(argv[i])[0] == '-' && old(argv[i])[1] == 'o') ==> argv[..argc] == old(argv[..argc])
  {
    hide Rewritten, IsO, WhollyRejected;
    var arg := argv[i];
    removed := false;
    IsOByCharacters(arg);
    DroppedIff(arg, keep);
    StaysUnlessO(arg, keep);
    if IsO(arg) {
      var buffer, len := FilterArg(arg, keep);
      if len > 0 {
        argv[i] := buffer[..len];
      } else {
        ShiftLeft(argv, i, argc);
        removed := true;
      }
    }
  }

  /** The loop of filter_o_opts over a merged vector. */
  method FilterInPlace(argv: array<string>, argc: nat, keep: string -> bool) returns (argc': nat)
    requires argc <= argv.Length
    modifies argv
    ensures argc' <= argc && argv[..argc'] == Filtered(old(argv[..argc]), keep, argc)
  {
    hide Filtered, FilterState, Dropped, Stays;
    ghost var args := argv[..argc];
    argc' := argc;
    var i := 0;
    FilterStarts(args, keep);
    while i < argc'
      invariant 0 <= i && argc' <= argc && FilterState(argv[..argc'], args, keep, i)
      decreases argc - i
    {
      ghost var now := argv[..argc'];
      var removed := FilterOne(argv, i, argc', keep);
      FilterRound(now, args, keep, i);
      if removed {
        argc' := argc' - 1;
      }
      i := i + 1;
    }
    FilterEnds(argv[..argc'], args, keep, i);
  }

  /** The vector between two rounds; after the last argument has gone the index is one too far. */
  ghost predicate FilterState(now: seq<string>, args: seq<string>, keep: string -> bool, i: nat) {
    if i <= |now| then exists k: nat :: FilteredUpTo(now, args, keep, k, i) else now == Filtered(args, keep, |args|)
  }

  lemma {:induction false} FilterRound(now: seq<string>, args: seq<string>, keep: string -> bool, i: nat)
    requires FilterState(now, args, keep, i) && i < |now|
    ensures if Dropped(now[i], keep) then FilterState(now[..i] + now[i + 1..], args, keep, i + 1)
            else FilterState(now[i := Stays(now[i], keep)], args, keep, i + 1)
  {
    hide FilteredUpTo, Filtered, Dropped, Stays;
    var k: nat :| FilteredUpTo(now, args, keep, k, i);
    FilterCurrent(now, args, keep, k, i);
    if Dropped(now[i], keep) {
      FilterDrops(now, args, keep, k, i);
    } else {
      FilterKeeps(now, args, keep, k, i);
    }
  }

  lemma {:induction false} FilterStarts(args: seq<string>, keep: string -> bool)
    ensures FilterState(args, args, keep, 0)
  {
    assert args[0..] == args && Filtered(args, keep, 0) == [];
    assert [] + args == args;
    assert FilteredUpTo(args, args, keep, 0, 0);
  }

  lemma {:induction false} FilterCurrent(now: seq<string>, args: seq<string>, keep: string -> bool, k: nat, i: nat)
    requires FilteredUpTo(now, args, keep, k, i) && i < |now|
    ensures k < |args| && now[i] == args[k]
  {
  }

  lemma {:induction false} FilterEnds(now: seq<string>, args: seq<string>, keep: string -> bool, i: nat)
    requires FilterState(now, args, keep, i) && |now| <= i
    ensures now == Filtered(args, keep, |args|)
  {
    if i == |now| {
      var k: nat :| FilteredUpTo(now, args, keep, k, i);
      assert k == |args| && args[k..] == [];
    }
  }

  // ----- What filtering keeps and what it loses

  /** The arguments that do not start with the characters '-' and 'o'. */
  function Plain(args: seq<string>): seq<string>
    decreases |args|
  {
    if args == [] then []
    else
      var arg := args[|args| - 1];
      Plain(args[..|args| - 1]) + if |arg| >= 2 && arg[0] == '-' && arg[1] == 'o' then [] else [arg]
  }

  /** All the options to keep, over the whole vector. */
  function AllKept(args: seq<string>, keep: string -> bool): seq<string>
    decreases |args|
  {
    if args == [] then []
    else AllKept(args[..|args| - 1], keep) + Kept(TokensOf(args[|args| - 1]), keep)
  }

  predicate OnlyKept(arg: string, keep: string -> bool) {
    forall i :: 0 <= i < |TokensOf(arg)| ==> keep(TokensOf(arg)[i])
  }

  lemma {:induction false} PlainConcat(a: seq<string>, b: seq<string>)
    ensures Plain(a + b) == Plain(a) + Plain(b)
    decreases |b|
  {
    if b == [] {
      assert a + b == a;
    } else {
      assert (a + b)[..|a + b| - 1] == a + b[..|b| - 1];
      PlainConcat(a, b[..|b| - 1]);
    }
  }

  lemma {:induction false} AllKeptConcat(a: seq<string>, b: seq<string>, keep: string -> bool)
    ensures AllKept(a + b, keep) == AllKept(a, keep) + AllKept(b, keep)
    decreases |b|
  {
    hide Kept, TokensOf;
    if b == [] {
      assert a + b == a;
    } else {
      assert (a + b)[..|a + b| - 1] == a + b[..|b| - 1];
      AllKeptConcat(a, b[..|b| - 1], keep);
    }
  }

  lemma {:induction false} SingleArg(arg: string, keep: string -> bool)
    ensures Plain([arg]) == if |arg| >= 2 && arg[0] == '-' && arg[1] == 'o' then [] else [arg]
    ensures AllKept([arg], keep) == Kept(TokensOf(arg), keep)
    ensures Plain([]) == [] && AllKept([], keep) == []
  {
    assert [arg][..0] == [];
  }

  // Tokens are non-empty and free of commas, and survive being joined.

  ghost predicate Words(tokens: seq<string>) {
    forall i :: 0 <= i < |tokens| ==> tokens[i] != "" && ',' !in tokens[i]
  }

  lemma {:induction false} SplitHasNoComma(s: string)
    ensures forall i :: 0 <= i < |Split(s, {','})| ==> ',' !in Split(s, {','})[i]
    decreases |s|
  {
    var k := Span(s, {','});
    SpanStops(s, {','});
    if k < |s| {
      SplitHasNoComma(s[k + 1..]);
    }
  }

  lemma {:induction false} NonEmptyWords(pieces: seq<string>)
    requires forall i :: 0 <= i < |pieces| ==> ',' !in pieces[i]
    ensures Words(NonEmpty(pieces))
  {
    if pieces != [] {
      NonEmptyWords(pieces[1..]);
    }
  }

  lemma {:induction false} KeptWords(tokens: seq<string>, keep: string -> bool)
    requires Words(tokens)
    ensures Words(Kept(tokens, keep))
    ensures forall i :: 0 <= i < |Kept(tokens, keep)| ==> keep(Kept(tokens, keep)[i])
  {
    if tokens != [] {
      KeptWords(tokens[1..], keep);
    }
  }

  lemma {:induction false} KeptOfKept(tokens: seq<string>, keep: string -> bool)
    requires forall i :: 0 <= i < |tokens| ==> keep(tokens[i])
    ensures Kept(tokens, keep) == tokens
  {
    if tokens != [] {
      KeptOfKept(tokens[1..], keep);
    }
  }

  lemma {:induction false} TokensCons(word: string, rest: string)
    requires word != "" && ',' !in word
    ensures Tokens(word + [','] + rest) == [word] + Tokens(rest)
  {
    hide Tokens;
    TokensWord(word, "," + rest);
    TokensComma(rest);
    assert word + [','] + rest == word + ("," + rest);
  }

  lemma {:induction false} JoinedTokens(tokens: seq<string>)
    requires Words(tokens) && tokens != []
    ensures Tokens(Join(tokens, ',')) == tokens
  {
    hide Tokens;
    assert tokens[0] != "" && ',' !in tokens[0];
    if |tokens| == 1 {
      LastToken(tokens[0]);
    } else {
      JoinedTokens(tokens[1..]);
      TokensCons(tokens[0], Join(tokens[1..], ','));
      assert [tokens[0]] + tokens[1..] == tokens;
    }
  }

  /** The rebuilt argument is an "-o" argument with exactly the kept options, in order. */
  lemma {:induction false} RewrittenTokens(arg: string, keep: string -> bool)
    requires Rewritten(arg, keep) != ""
    ensures IsO(Rewritten(arg, keep)) && TokensOf(Rewritten(arg, keep)) == Kept(TokensOf(arg), keep)
    ensures Plain([Rewritten(arg, keep)]) == []
    ensures OnlyKept(Rewritten(arg, keep), keep)
  {
    var kept := Kept(TokensOf(arg), keep);
    if IsO(arg) {
      SplitHasNoComma(arg[2..]);
      NonEmptyWords(Split(arg[2..], {','}));
    }
    KeptWords(TokensOf(arg), keep);
    JoinedTokens(kept);
    assert Rewritten(arg, keep) == "-o" + Join(kept, ',');
    assert Rewritten(arg, keep)[2..] == Join(kept, ',');
  }

  lemma {:induction false} OutputKeeps(args: seq<string>, keep: string -> bool, i: nat)
    requires i < |args|
    ensures Plain(Output(args, keep, i)) == Plain([args[i]])
    ensures AllKept(Output(args, keep, i), keep) == Kept(TokensOf(args[i]), keep)
  {
    hide TokensOf, Kept;
    var arg := args[i];
    SingleArg(arg, keep);
    if !Skipped(args, keep, i) && IsO(arg) {
      if Dropped(arg, keep) {
        DroppedHasNone(arg, keep);
      } else {
        RewrittenTokens(arg, keep);
        SingleArg(Rewritten(arg, keep), keep);
        RewrittenKept(arg, keep);
      }
    }
  }

  lemma {:induction false} DroppedHasNone(arg: string, keep: string -> bool)
    requires Dropped(arg, keep)
    ensures Kept(TokensOf(arg), keep) == []
  {
    assert Rebuilt(Kept(TokensOf(arg), keep)) == "";
  }

  lemma {:induction false} RewrittenKept(arg: string, keep: string -> bool)
    requires Rewritten(arg, keep) != ""
    ensures Kept(TokensOf(Rewritten(arg, keep)), keep) == Kept(TokensOf(arg), keep)
  {
    RewrittenTokens(arg, keep);
    KeptOfKept(TokensOf(Rewritten(arg, keep)), keep);
  }

  lemma {:induction false} PlainStep(done: seq<string>, out: seq<string>, before: seq<string>, arg: string)
    requires Plain(done) == Plain(before) && Plain(out) == Plain([arg])
    ensures Plain(done + out) == Plain(before + [arg])
  {
    hide Plain;
    PlainConcat(done, out);
    PlainConcat(before, [arg]);
  }

  lemma {:induction false} AllKeptStep(done: seq<string>, out: seq<string>, before: seq<string>, arg: string, keep: string -> bool)
    requires AllKept(done, keep) == AllKept(before, keep) && AllKept(out, keep) == AllKept([arg], keep)
    ensures AllKept(done + out, keep) == AllKept(before + [arg], keep)
  {
    hide AllKept;
    AllKeptConcat(done, out, keep);
    AllKeptConcat(before, [arg], keep);
  }

  /** Nothing else is lost: the other arguments and the options to keep stay, in order. */
  lemma {:induction false} FilterPreserves(args: seq<string>, keep: string -> bool, n: nat)
    requires n <= |args|
    ensures Plain(Filtered(args, keep, n)) == Plain(args[..n])
    ensures AllKept(Filtered(args, keep, n), keep) == AllKept(args[..n], keep)
    decreases n
  {
    hide *;
    if n == 0 {
      NothingFiltered(args, keep);
    } else {
      var before, arg, done, out := args[..n - 1], args[n - 1], Filtered(args, keep, n - 1), Output(args, keep, n - 1);
      FilterPreserves(args, keep, n - 1);
      OutputPreserves(args, keep, n - 1);
      PlainStep(done, out, before, arg);
      AllKeptStep(done, out, before, arg, keep);
      NextFiltered(args, keep, n);
    }
  }

  lemma NothingFiltered(args: seq<string>, keep: string -> bool)
    ensures Filtered(args, keep, 0) == [] == args[..0]
  {
  }

  lemma NextFiltered(args: seq<string>, keep: string -> bool, n: nat)
    requires 0 < n <= |args|
    ensures Filtered(args, keep, n) == Filtered(args, keep, n - 1) + Output(args, keep, n - 1)
    ensures args[..n] == args[..n - 1] + [args[n - 1]]
  {
    hide Output;
  }

  lemma {:induction false} OutputPreserves(args: seq<string>, keep: string -> bool, i: nat)
    requires i < |args|
    ensures Plain(Output(args, keep, i)) == Plain([args[i]])
    ensures AllKept(Output(args, keep, i), keep) == AllKept([args[i]], keep)
  {
    hide *;
    OutputKeeps(args, keep, i);
    SingleArg(args[i], keep);
  }

  ghost predicate AllOnlyKept(args: seq<string>, keep: string -> bool) {
    forall i :: 0 <= i < |args| ==> OnlyKept(args[i], keep)
  }

  lemma {:induction false} OutputClean(args: seq<string>, keep: string -> bool, i: nat)
    requires i < |args|
    ensures AllOnlyKept(Output(args, keep, i), keep) <==> Skipped(args, keep, i) ==> OnlyKept(args[i], keep)
  {
    hide OnlyKept, Rewritten;
    var arg, out := args[i], Output(args, keep, i);
    PlainOnlyKept(arg, keep);
    if Skipped(args, keep, i) {
      assert out[0] == arg;
    } else if IsO(arg) && !Dropped(arg, keep) {
      RewrittenTokens(arg, keep);
    }
  }

  lemma PlainOnlyKept(arg: string, keep: string -> bool)
    ensures !IsO(arg) ==> OnlyKept(arg, keep)
  {
  }

  /** A rejected option survives exactly in arguments with an odd number of wholly rejected ones directly in front. */
  lemma {:induction false} RejectedSurvivesIff(args: seq<string>, keep: string -> bool, n: nat)
    requires n <= |args|
    ensures AllOnlyKept(Filtered(args, keep, n), keep) <==>
            forall i :: 0 <= i < n && RejectedBefore(args, keep, i) % 2 == 1 ==> OnlyKept(args[i], keep)
    decreases n
  {
    hide OnlyKept, AllOnlyKept, Output, Skipped, RejectedBefore;
    EmptyIsClean(keep);
    if n > 0 {
      SkippedIfOdd(args, keep, n - 1);
      var before, last := Filtered(args, keep, n - 1), Output(args, keep, n - 1);
      RejectedSurvivesIff(args, keep, n - 1);
      OutputClean(args, keep, n - 1);
      AllOnlyKeptConcat(before, last, keep);
    }
  }

  lemma EmptyIsClean(keep: string -> bool)
    ensures AllOnlyKept([], keep)
  {
  }

  lemma {:induction false} AllOnlyKeptConcat(a: seq<string>, b: seq<string>, keep: string -> bool)
    ensures AllOnlyKept(a + b, keep) <==> AllOnlyKept(a, keep) && AllOnlyKept(b, keep)
  {
    hide OnlyKept;
    assert forall i :: 0 <= i < |b| ==> b[i] == (a + b)[|a| + i];
    assert forall i :: 0 <= i < |a| ==> a[i] == (a + b)[i];
  }

  /** So none survives if no wholly rejected argument is followed by one with options. */
  lemma {:induction false} NoRejectedSurvives(args: seq<string>, keep: string -> bool)
    requires forall i :: 0 <= i < |args| - 1 ==> !(WhollyRejected(args[i], keep) && TokensOf(args[i + 1]) != [])
    ensures AllOnlyKept(Filtered(args, keep, |args|), keep)
  {
    hide Filtered, WhollyRejected, TokensOf;
    forall i | 0 <= i < |args| && RejectedBefore(args, keep, i) % 2 == 1
      ensures OnlyKept(args[i], keep)
    {
      assert !(WhollyRejected(args[i - 1], keep) && TokensOf(args[i - 1 + 1]) != []);
    }
    RejectedSurvivesIff(args, keep, |args|);
  }

  /** ("-obad", "-obad") keeps one of the two. */
  lemma {:induction false} RejectedSurvives()
    ensures var keep := (t: string) => false;
            Filtered(["-obad", "-obad"], keep, 2) == ["-obad"]
  {
    var keep := (t: string) => false;
    var args := ["-obad", "-obad"];
    assert args[0][2..] == "bad";
    LastToken("bad");
    KeptCons("bad", [], keep);
    KeptNothing(keep);
    assert ["bad"] + [] == ["bad"];
    assert Dropped(args[0], keep);
    SkippedNext(args, keep, 0);
    OutputCases(args, keep, 0);
    OutputCases(args, keep, 1);
    assert Filtered(args, keep, 0) == [];
    assert Filtered(args, keep, 1) == [];
  }

  // ----- The whole of filter_o_opts

  /** The arguments of a command line that neither start with '-' and 'o' nor follow a bare "-o". */
  function Others(args: seq<string>): seq<string> {
    if args == [] then []
    else if args[0] == "-o" then if |args| == 1 then [] else Others(args[2..])
    else (if |args[0]| >= 2 && args[0][0] == '-' && args[0][1] == 'o' then [] else [args[0]]) + Others(args[1..])
  }

  /** The lists of options on a command line, attached to "-o" or following it. */
  function OptionLists(args: seq<string>): seq<string> {
    if args == [] then []
    else if args[0] == "-o" then if |args| == 1 then [] else [args[1]] + OptionLists(args[2..])
    else (if |args[0]| >= 2 && args[0][0] == '-' && args[0][1] == 'o' then [args[0][2..]] else []) + OptionLists(args[1..])
  }

  /** The options to keep on all these lists. */
  function Wanted(lists: seq<string>, keep: string -> bool): seq<string> {
    if lists == [] then [] else Kept(Tokens(lists[0]), keep) + Wanted(lists[1..], keep)
  }

  lemma {:induction false} PlainCons(arg: string, rest: seq<string>)
    ensures Plain([arg] + rest) == (if |arg| >= 2 && arg[0] == '-' && arg[1] == 'o' then [] else [arg]) + Plain(rest)
  {
    PlainConcat([arg], rest);
    SingleArg(arg, (t: string) => true);
  }

  lemma {:induction false} AllKeptCons(arg: string, rest: seq<string>, keep: string -> bool)
    ensures AllKept([arg] + rest, keep) == Kept(TokensOf(arg), keep) + AllKept(rest, keep)
  {
    AllKeptConcat([arg], rest, keep);
    SingleArg(arg, keep);
  }

  /** Merging keeps the other arguments... */
  lemma {:induction false} MergedOthers(args: seq<string>)
    ensures Plain(Merged(args)) == Others(args)
    decreases |args|
  {
    hide Plain;
    SingleArg("", (t: string) => true);
    if args != [] {
      if args[0] != "-o" {
        MergedOthers(args[1..]);
        PlainCons(args[0], Merged(args[1..]));
      } else if |args| > 1 {
        MergedOthers(args[2..]);
        PlainCons("-o" + args[1], Merged(args[2..]));
        assert [] + Plain(Merged(args[2..])) == Plain(Merged(args[2..]));
      }
    }
  }

  lemma WantedCons(list: string, lists: seq<string>, keep: string -> bool)
    ensures Wanted([list] + lists, keep) == Kept(Tokens(list), keep) + Wanted(lists, keep)
    ensures [] + lists == lists && Wanted([], keep) == []
  {
    assert ([list] + lists)[1..] == lists;
  }

  /** ...and the options to keep. */
  lemma {:induction false} MergedWanted(args: seq<string>, keep: string -> bool)
    ensures AllKept(Merged(args), keep) == Wanted(OptionLists(args), keep)
    decreases |args|
  {
    hide AllKept, Wanted, Kept, Tokens;
    SingleArg("", keep);
    WantedCons("", [], keep);
    KeptNothing(keep);
    if args != [] {
      if args[0] != "-o" {
        var rest := AllKept(Merged(args[1..]), keep);
        MergedWanted(args[1..], keep);
        AllKeptCons(args[0], Merged(args[1..]), keep);
        if |args[0]| >= 2 {
          WantedCons(args[0][2..], OptionLists(args[1..]), keep);
        }
        WantedCons("", OptionLists(args[1..]), keep);
        assert [] + rest == rest;
      } else if |args| > 1 {
        MergedWanted(args[2..], keep);
        AllKeptCons("-o" + args[1], Merged(args[2..]), keep);
        assert ("-o" + args[1])[2..] == args[1];
        WantedCons(args[1], OptionLists(args[2..]), keep);
      }
    }
  }

  /**
   filter_o_opts: a copy of the vector, merged and then filtered in place.  Of the
   command line it keeps, each in order, what has nothing to do with "-o", and the
   options to keep.
   */
  method FilterOOpts(keep: string -> bool, orig: seq<string>) returns (argv: array<string>, argc: nat)
    ensures fresh(argv) && argc <= |orig| <= argv.Length
    ensures argv[..argc] == Filtered(Merged(orig), keep, |Merged(orig)|)
    ensures Plain(argv[..argc]) == Others(orig)
    ensures AllKept(argv[..argc], keep) == Wanted(OptionLists(orig), keep)
  {
    hide Filtered, Merged, Plain, AllKept, Others, OptionLists, Wanted;
    argv := new string[|orig|](i requires 0 <= i < |orig| => orig[i]);
    assert argv[..|orig|] == orig;
    argc := MergeOArgs(argv, |orig|);
    assert |argv[..argc]| == argc;
    argc := FilterInPlace(argv, argc, keep);
    ghost var merged := Merged(orig);
    FilterPreserves(merged, keep, |merged|);
    assert merged[..|merged|] == merged;
    MergedOthers(orig);
    MergedWanted(orig, keep);
  }
}
