/**
 src/permchain.c on the heap: the linked list of rules, the character-scanning
 loops that append to it, and the loop that runs it over a mode.

 A chain is described by the ghost sequence of its nodes, first to last.  Every
 method states the rules the chain holds afterwards, read off those nodes.
 */
module Permchain {
  import opened Text
  import opened PermRules
  import opened PermSpec

  /** Size of the operand buffer embedded in a node, terminator included. */
  const SLOTS: nat := 16

  /** The C string at the start of a buffer. */
  function CString(buffer: seq<char>): string {
    buffer[..Span(buffer, {'\0'})]
  }

  function Zeros(n: nat): seq<char> {
    seq(n, _ => '\0')
  }

  class Node {
    var op: char
    var onFiles: bool
    var onDirs: bool
    var mask: Mode
    var operands: seq<char>
    var octal: nat
    var next: Node?

    /** permchain_create */
    constructor ()
      ensures Value() == Rule('\0', true, true, 0, "", 0) && Valid() && operands == Zeros(16) && next == null
    {
      op, mask, octal, next := '\0', 0, 0, null;
      onFiles, onDirs := true, true;
      operands := Zeros(SLOTS);
      new;
      SpanUnique(operands, {'\0'}, 0);
    }

    /** The rule the node stands for. */
    ghost function Value(): Rule
      reads this`op, this`onFiles, this`onDirs, this`mask, this`operands, this`octal
    {
      Rule(op, onFiles, onDirs, mask, CString(operands), octal)
    }

    /** The operand buffer has its full size and is terminated. */
    ghost predicate Valid()
      reads this`operands
    {
      |operands| == SLOTS && operands[SLOTS - 1] == '\0'
    }
  }

  /** `nodes` is a whole null-terminated list, without repetition. */
  ghost predicate Linked(nodes: seq<Node>)
    reads nodes`next
  {
    && nodes != []
    && (forall i {:trigger nodes[i].next} :: 0 <= i < |nodes| ==> nodes[i].next == if i == |nodes| - 1 then null else nodes[i + 1])
    && (forall i, j :: 0 <= i < j < |nodes| ==> nodes[i] != nodes[j])
  }

  ghost predicate AllValid(nodes: seq<Node>)
    reads nodes`operands
  {
    forall i {:trigger nodes[i].Valid()} :: 0 <= i < |nodes| ==> nodes[i].Valid()
  }

  ghost function Rules(nodes: seq<Node>): (rules: seq<Rule>)
    reads nodes`op, nodes`onFiles, nodes`onDirs, nodes`mask, nodes`operands, nodes`octal
    ensures |rules| == |nodes| && forall i :: 0 <= i < |nodes| ==> rules[i] == nodes[i].Value()
  {
    if nodes == [] then [] else Rules(nodes[..|nodes| - 1]) + [Last(nodes).Value()]
  }

  ghost function Last(nodes: seq<Node>): Node
    requires nodes != []
  {
    nodes[|nodes| - 1]
  }

  lemma {:induction false} SingleNode(n: Node)
    requires n.next == null && n.Valid()
    ensures Linked([n]) && AllValid([n]) && Rules([n]) == [n.Value()]
  {
  }

  lemma {:induction false} RulesSnoc(nodes: seq<Node>, n: Node)
    ensures Rules(nodes + [n]) == Rules(nodes) + [n.Value()]
  {
    assert (nodes + [n])[..|nodes|] == nodes;
  }

  lemma {:induction false} AllValidSnoc(nodes: seq<Node>, n: Node)
    requires AllValid(nodes) && n.Valid()
    ensures AllValid(nodes + [n])
  {
    AllValidConcat(nodes, [n]);
  }

  lemma {:induction false} RulesConcat(a: seq<Node>, b: seq<Node>)
    ensures Rules(a + b) == Rules(a) + Rules(b)
  {
  }

  lemma {:induction false} AllValidConcat(a: seq<Node>, b: seq<Node>)
    requires AllValid(a) && AllValid(b)
    ensures AllValid(a + b)
  {
    forall i | 0 <= i < |a + b|
      ensures (a + b)[i].Valid()
    {
      if i < |a| {
        assert a[i].Valid();
      } else {
        assert b[i - |a|].Valid();
      }
    }
  }

  /** Links `right` to the end of `left`; only the last node of `left` changes. */
  method Cat(left: Node, right: Node, ghost ls: seq<Node>, ghost rs: seq<Node>)
    requires Linked(ls) && ls[0] == left && Linked(rs) && rs[0] == right
    requires forall i, j :: 0 <= i < |ls| && 0 <= j < |rs| ==> ls[i] != rs[j]
    modifies Last(ls)`next
    ensures Linked(ls + rs)
  {
    var p := left;
    ghost var i := 0;
    while p.next != null
      invariant 0 <= i < |ls| && p == ls[i] && Linked(ls)
      modifies {}
      decreases |ls| - i
    {
      p := p.next;
      i := i + 1;
    }
    assert p == Last(ls);
    p.next := right;
    LinkedConcat(ls, rs);
  }

  lemma LinkedConcat(ls: seq<Node>, rs: seq<Node>)
    requires ls != [] && Linked(rs)
    requires forall i {:trigger ls[i].next} :: 0 <= i < |ls| ==> ls[i].next == if i == |ls| - 1 then rs[0] else ls[i + 1]
    requires forall i, j :: 0 <= i < j < |ls| ==> ls[i] != ls[j]
    requires forall i, j :: 0 <= i < |ls| && 0 <= j < |rs| ==> ls[i] != rs[j]
    ensures Linked(ls + rs)
  {
    var all := ls + rs;
    forall i | 0 <= i < |all|
      ensures all[i].next == if i == |all| - 1 then null else all[i + 1]
    {
      if i >= |ls| {
        assert all[i] == rs[i - |ls|];
      }
    }
  }

  // ----- Parsing one rule

  lemma DistinctFit(d: string)
    requires NoDuplicates(d) && AllIn(d, OPERANDS)
    ensures |d| <= 10
  {
    var chars := set c | c in d;
    DistinctCount(d);
    CountWithin(chars, OPERANDS);
    assert |OPERANDS| == 10;
  }

  lemma {:induction false} DistinctCount(d: string)
    requires NoDuplicates(d)
    ensures |set c | c in d| == |d|
  {
    if d != "" {
      var init, last := d[..|d| - 1], d[|d| - 1];
      DistinctCount(init);
      assert d == init + [last];
      assert (set c | c in d) == (set c | c in init) + {last};
    }
  }

  lemma CountWithin<T>(a: set<T>, b: set<T>)
    requires a <= b
    ensures |a| <= |b|
  {
    assert b == a + (b - a);
  }

  /** The buffer holding the string `d` and nothing else. */
  lemma BufferString(buffer: seq<char>, d: string)
    requires |d| < |buffer| && '\0' !in d && buffer == d + Zeros(|buffer| - |d|)
    ensures CString(buffer) == d
  {
    SpanUnique(buffer, {'\0'}, |d|);
  }

  lemma BufferPut(d: string, n: nat, c: char)
    requires n > 0
    ensures (d + Zeros(n))[|d| := c] == (d + [c]) + Zeros(n - 1)
  {
  }

  lemma DedupFits(s: string)
    requires AllIn(s, OPERANDS)
    ensures |Dedup(s)| <= 10 && '\0' !in Dedup(s)
  {
    var d := Dedup(s);
    forall i | 0 <= i < |d|
      ensures d[i] in OPERANDS
    {
      assert d[i] in s;
    }
    DistinctFit(d);
  }

  lemma DedupStep(s: string, c: char)
    ensures Dedup(s + [c]) == if c in Dedup(s) then Dedup(s) else Dedup(s) + [c]
  {
    assert (s + [c])[..|s|] == s;
  }

  lemma BadLeft(s: string, p: nat)
    requires p < |s| && AllIn(s[..p], CLASSES) && s[p] !in CLASSES && s[p] !in OPERATORS
    ensures ParseSymbolic(s).None?
  {
    var k := Span(s, OPERATORS);
    SpanStops(s, OPERATORS);
    assert forall i :: 0 <= i < p ==> s[i] == s[..p][i];
    assert s[..k][p] == s[p];
  }

  lemma {:induction false} BadRight(s: string, k: nat, p: nat)
    requires k < p < |s| && AllIn(s[..k], CLASSES) && s[k] in OPERATORS && s[p] !in OPERANDS
    ensures ParseSymbolic(s).None?
  {
    hide ParseSymbolic;
    assert s == s[..k] + [s[k]] + s[k + 1..] && s[k + 1..][p - k - 1] == s[p];
    ParseWithOperator(s[..k], s[k], s[k + 1..]);
  }

  lemma MaskUnion(u: bool, g: bool, o: bool)
    ensures MaskOf(true, g, o) == MaskOf(u, g, o) | 0x1C0
    ensures MaskOf(u, true, o) == MaskOf(u, g, o) | 0x38
    ensures MaskOf(u, g, true) == MaskOf(u, g, o) | 7
    ensures MaskOf(true, true, true) == 0x1FF
  {
  }

  lemma LeftMaskStep(left: string, c: char)
    ensures 'u' == c ==> LeftMask(left + [c]) == LeftMask(left) | 0x1C0
    ensures 'g' == c ==> LeftMask(left + [c]) == LeftMask(left) | 0x38
    ensures 'o' == c ==> LeftMask(left + [c]) == LeftMask(left) | 7
    ensures 'a' == c ==> LeftMask(left + [c]) == 0x1FF
    ensures c !in {'u', 'g', 'o', 'a'} ==> LeftMask(left + [c]) == LeftMask(left)
  {
    var a := 'a' in left;
    MaskUnion(a || 'u' in left, a || 'g' in left, a || 'o' in left);
    assert forall x :: x in left + [c] <==> x in left || x == c;
  }

  /** What a scan of the left-hand side `left` has put into the node so far. */
  ghost predicate HoldsLeft(rule: Node, left: string)
    reads rule`mask, rule`onFiles, rule`onDirs
  {
    && rule.mask == LeftMask(left)
    && rule.onFiles == ('f' in left)
    && rule.onDirs == ('d' in left)
  }

  /** What a scan of the right-hand side `right` has put into the node so far. */
  ghost predicate HoldsRight(rule: Node, slot: nat, right: string)
    reads rule`operands
  {
    slot == |Dedup(right)| <= 10 && rule.operands == Dedup(right) + Zeros(SLOTS - slot)
  }

  /** One character in the left state, other than an operator. */
  method ScanLeft(rule: Node, c: char, ghost left: string) returns (ok: bool)
    requires HoldsLeft(rule, left)
    modifies rule`mask, rule`onFiles, rule`onDirs
    ensures ok <==> c in CLASSES
    ensures ok ==> HoldsLeft(rule, left + [c])
  {
    LeftMaskStep(left, c);
    assert forall x :: x in left + [c] <==> x in left || x == c;
    ok := true;
    match c {
      case 'u' => rule.mask := rule.mask | 0x1C0;
      case 'g' => rule.mask := rule.mask | 0x38;
      case 'o' => rule.mask := rule.mask | 7;
      case 'a' => rule.mask := 0x1FF;
      case 'f' => rule.onFiles := true;
      case 'd' => rule.onDirs := true;
      case _ => ok := false;
    }
  }

  /** One character in the right state: an operand goes into the next free slot, once. */
  method ScanRight(rule: Node, slot: nat, c: char, ghost right: string) returns (ok: bool, slot': nat)
    requires HoldsRight(rule, slot, right) && AllIn(right, OPERANDS)
    modifies rule`operands
    ensures ok <==> c in OPERANDS
    ensures ok ==> HoldsRight(rule, slot', right + [c])
  {
    ok, slot' := c in OPERANDS, slot;
    if ok {
      BufferString(rule.operands, Dedup(right));
      BufferPut(Dedup(right), SLOTS - slot, c);
      if c !in CString(rule.operands) {
        rule.operands := rule.operands[slot := c];
        slot' := slot + 1;
      }
      DedupStep(right, c);
      DedupFits(right + [c]);
    }
  }

  /** A scan that reaches the end of the rule has filled in the node. */
  lemma {:induction false} ScanComplete(s: string, rule: Node, k: nat, slot: nat)
    requires k <= |s| && AllIn(s[..k], CLASSES) && rule.octal == 0
    requires var right := if k < |s| then s[k + 1..] else "";
             HoldsRight(rule, slot, right) && AllIn(right, OPERANDS)
    requires k < |s| ==> s[k] in OPERATORS
    requires rule.op == if k < |s| then s[k] else '\0'
    requires rule.onFiles == ('f' in s[..k] || 'd' !in s[..k]) && rule.onDirs == ('d' in s[..k] || 'f' !in s[..k])
    requires rule.mask == if k == 0 && s != "" then 0x1FF else LeftMask(s[..k])
    ensures ParseSymbolic(s) == Some(rule.Value()) && rule.Valid()
  {
    hide ParseSymbolic, LeftMask, Dedup;
    if k == |s| {
      assert s[..k] == s;
      ParseWithoutOperator(s);
      DedupFits("");
      BufferString(rule.operands, Dedup(""));
    } else {
      assert s == s[..k] + [s[k]] + s[k + 1..];
      ParseWithOperator(s[..k], s[k], s[k + 1..]);
      DedupFits(s[k + 1..]);
      BufferString(rule.operands, Dedup(s[k + 1..]));
    }
  }

  /** The state of the scan after `p` characters; the operator, once seen, is at `k`. */
  ghost predicate Scanning(s: string, p: nat, k: nat, left: bool, slot: nat, rule: Node)
    requires p <= |s|
    reads rule
  {
    && k <= p && AllIn(s[..k], CLASSES) && rule.octal == 0
    && (left ==> k == p && rule.op == '\0' && HoldsLeft(rule, s[..k]) && HoldsRight(rule, slot, ""))
    && (!left ==>
          && k < p && s[k] in OPERATORS && rule.op == s[k]
          && rule.mask == (if k == 0 then 0x1FF else LeftMask(s[..k]))
          && rule.onFiles == ('f' in s[..k]) && rule.onDirs == ('d' in s[..k])
          && AllIn(s[k + 1..p], OPERANDS) && HoldsRight(rule, slot, s[k + 1..p]))
  }

  /** One round of the scan. */
  method ScanChar(s: string, p: nat, left: bool, slot: nat, rule: Node, ghost k: nat)
    returns (ok: bool, left': bool, slot': nat, ghost k': nat)
    requires p < |s| && Scanning(s, p, k, left, slot, rule)
    modifies rule`op, rule`mask, rule`onFiles, rule`onDirs, rule`operands
    ensures ok ==> Scanning(s, p + 1, k', left', slot', rule)
    ensures !ok ==> ParseSymbolic(s).None?
  {
    hide ParseSymbolic, LeftMask, Dedup;
    var c := s[p];
    ok, left', slot', k' := true, left, slot, k;
    if left && c in OPERATORS {
      if p == 0 {
        rule.mask := 0x1FF;
      }
      rule.op := c;
      left' := false;
      assert s[k + 1..p + 1] == "";
    } else if left {
      assert s[..p + 1] == s[..p] + [c];
      ok := ScanLeft(rule, c, s[..p]);
      k' := k + 1;
      if !ok {
        BadLeft(s, p);
      }
    } else {
      assert s[k + 1..p + 1] == s[k + 1..p] + [c];
      ok, slot' := ScanRight(rule, slot, c, s[k + 1..p]);
      if !ok {
        BadRight(s, k, p);
      }
    }
  }

  /** The two-state scan of one symbolic rule into a fresh node. */
  method ScanSymbolic(s: string, rule: Node) returns (ok: bool)
    requires rule.Value() == NOTHING && rule.operands == Zeros(SLOTS)
    modifies rule`op, rule`mask, rule`onFiles, rule`onDirs, rule`operands
    ensures ok <==> ParseSymbolic(s).Some?
    ensures ok ==> rule.Valid() && rule.Value() == ParseSymbolic(s).value
  {
    hide ParseSymbolic, CString;
    var slot, left, p := 0, true, 0;
    ghost var k := 0;
    rule.onFiles, rule.onDirs := false, false;
    while p < |s|
      invariant 0 <= p <= |s| && Scanning(s, p, k, left, slot, rule)
    {
      ok, left, slot, k := ScanChar(s, p, left, slot, rule, k);
      if !ok {
        return;
      }
      p := p + 1;
    }
    if !rule.onFiles && !rule.onDirs {
      rule.onFiles, rule.onDirs := true, true;
    }
    ok := true;
    assert !left ==> s[k + 1..] == s[k + 1..p];
    ScanComplete(s, rule, k, slot);
  }

  /** add_chmod_rule_to_permchain: a bad rule leaves the chain as it was. */
  method AddSymbolicRule(s: string, pc: Node, ghost nodes: seq<Node>) returns (ok: bool, ghost added: seq<Node>)
    requires Linked(nodes) && nodes[0] == pc
    modifies Last(nodes)`next
    ensures ok <==> ParseSymbolic(s).Some?
    ensures !ok ==> added == [] && unchanged(nodes)
    ensures ok ==> |added| == 1 && fresh(added[0]) && Linked(nodes + added)
    ensures ok ==> added[0].Valid() && added[0].Value() == ParseSymbolic(s).value
  {
    var rule := new Node();
    ok := ScanSymbolic(s, rule);
    added := [];
    if ok {
      added := [rule];
      Cat(pc, rule, nodes, added);
    }
  }

  /** add_octal_rule_to_permchain */
  method AddOctalRule(s: string, pc: Node, ghost nodes: seq<Node>) returns (ok: bool, ghost added: seq<Node>)
    requires Linked(nodes) && nodes[0] == pc
    modifies Last(nodes)`next
    ensures ok <==> ParseOctal(s).Some?
    ensures !ok ==> added == [] && unchanged(nodes)
    ensures ok ==> |added| == 1 && fresh(added[0]) && Linked(nodes + added)
    ensures ok ==> added[0].Valid() && added[0].Value() == ParseOctal(s).value
  {
    var rule := new Node();
    var mode := OctalValue(s);
    if mode > 511 {
      return false, [];
    }
    rule.mask := 0x1FF;
    rule.op := 'o';
    rule.octal := mode;
    ok, added := true, [rule];
    Cat(pc, rule, nodes, added);
  }

  // ----- Parsing a list of rules

  /** One rule of a list: a digit in front makes it octal. */
  method AddRule(s: string, pc: Node, ghost nodes: seq<Node>) returns (ok: bool, ghost added: seq<Node>)
    requires Linked(nodes) && nodes[0] == pc && s != ""
    modifies Last(nodes)`next
    ensures ok <==> ParseRule(s).Some?
    ensures ok ==> |added| == 1 && fresh(added[0]) && Linked(nodes + added)
    ensures ok ==> added[0].Valid() && added[0].Value() == ParseRule(s).value
  {
    if IsDigit(s[0]) {
      ok, added := AddOctalRule(s, pc, nodes);
    } else {
      ok, added := AddSymbolicRule(s, pc, nodes);
    }
  }

  /** A specification whose first rules are known. */
  function Prepend(parsed: seq<Rule>, rest: Option<seq<Rule>>): Option<seq<Rule>> {
    if rest.None? then None else Some(parsed + rest.value)
  }

  /** What the piece of `s` up to its first separator says about the rest. */
  lemma {:induction false} ParsePiece(s: string, n: nat)
    requires n <= |s| && (forall i :: 0 <= i < n ==> s[i] !in SEPARATORS) && (n < |s| ==> s[n] in SEPARATORS) && s != ""
    ensures !AcceptableRule(s[..n]) ==> ParseRules(s).None?
    ensures AcceptableRule(s[..n]) ==>
              ParseRules(s) == Prepend([ParseRule(s[..n]).value], ParseRules(if n < |s| then s[n + 1..] else ""))
  {
    assert ',' !in s[..n] && ':' !in s[..n];
    if n < |s| {
      assert s == s[..n] + [s[n]] + s[n + 1..];
      ParseFirst(s[..n], s[n], s[n + 1..]);
    } else {
      assert s[..n] == s;
      ParseLast(s);
      ParseLast("");
      if AcceptableRule(s) {
        assert [ParseRule(s).value] + [] == [ParseRule(s).value];
      }
    }
  }

  lemma PrependTwice(a: seq<Rule>, b: seq<Rule>, rest: Option<seq<Rule>>)
    ensures Prepend(a, Prepend(b, rest)) == Prepend(a + b, rest)
  {
    if rest.Some? {
      assert a + (b + rest.value) == a + b + rest.value;
    }
  }

  /** The end of the rule that starts at `start`. */
  method RuleEnd(spec: string, start: nat) returns (end: nat)
    requires start < |spec|
    ensures start <= end <= |spec| && end - start == Span(spec[start..], SEPARATORS)
  {
    end := start;
    while end < |spec| && spec[end] != ',' && spec[end] != ':'
      invariant start <= end <= |spec|
      invariant forall i :: start <= i < end ==> spec[i] !in SEPARATORS
    {
      end := end + 1;
    }
    SpanUnique(spec[start..], SEPARATORS, end - start);
  }

  /** The rule at `spec[start..end]` and the rules from `rest` on. */
  lemma {:induction false} NextRule(spec: string, start: nat, end: nat, rest: nat)
    requires start < |spec| && start <= end <= |spec| && end - start == Span(spec[start..], SEPARATORS)
    requires rest == if end < |spec| then end + 1 else end
    ensures !AcceptableRule(spec[start..end]) ==> ParseRules(spec[start..]).None?
    ensures AcceptableRule(spec[start..end]) ==>
              ParseRules(spec[start..]) == Prepend([ParseRule(spec[start..end]).value], ParseRules(spec[rest..]))
  {
    var s := spec[start..];
    SpanStops(s, SEPARATORS);
    ParsePiece(s, end - start);
    assert s[..end - start] == spec[start..end];
    if end < |spec| {
      assert s[end - start + 1..] == spec[rest..];
    } else {
      assert spec[rest..] == "";
    }
  }

  /** Adds the rule at `start`; `rest` is where the next one starts. */
  method AddNext(spec: string, start: nat, pc: Node, ghost nodes: seq<Node>)
    returns (ok: bool, rest: nat, ghost added: seq<Node>)
    requires start < |spec| && Linked(nodes) && nodes[0] == pc
    modifies Last(nodes)`next
    ensures !ok ==> ParseRules(spec[start..]).None?
    ensures ok ==> start < rest <= |spec|
    ensures ok ==> |added| == 1 && fresh(added[0]) && added[0].Valid() && Linked(nodes + added)
    ensures ok ==> ParseRules(spec[start..]) == Prepend([added[0].Value()], ParseRules(spec[rest..]))
  {
    hide ParseRules, ParseRule;
    var end := RuleEnd(spec, start);
    rest, added := if end < |spec| then end + 1 else end, [];
    NextRule(spec, start, end, rest);
    if start == end {
      ok := false;
    } else {
      ok, added := AddRule(spec[start..end], pc, nodes);
    }
  }

  /** The loop over the rules of a specification, into a chain of its own. */
  method BuildChain(spec: string) returns (ok: bool, newpc: Node, ghost news: seq<Node>)
    ensures ok <==> ParseRules(spec).Some?
    ensures ok ==> fresh(news) && Linked(news) && news[0] == newpc && AllValid(news)
    ensures ok ==> Rules(news) == [NOTHING] + ParseRules(spec).value
  {
    hide ParseRules, Rules, AllValid, Linked, Node.Valid, Node.Value;
    newpc := new Node();
    news := [newpc];
    var start := 0;
    SingleNode(newpc);
    assert spec[0..] == spec;
    while start < |spec|
      invariant 0 <= start <= |spec|
      invariant fresh(news) && Linked(news) && news != [] && news[0] == newpc && AllValid(news)
      invariant Prepend([NOTHING], ParseRules(spec)) == Prepend(Rules(news), ParseRules(spec[start..]))
    {
      ghost var added, before := [], Rules(news);
      var rest;
      ok, rest, added := AddNext(spec, start, newpc, news);
      if !ok {
        return;
      }
      assert Rules(news) == before;
      RulesSnoc(news, added[0]);
      AllValidSnoc(news, added[0]);
      PrependTwice(before, [added[0].Value()], ParseRules(spec[rest..]));
      assert added == [added[0]];
      start, news := rest, news + added;
    }
    assert spec[start..] == "";
    ParseLast("");
    assert Rules(news) + [] == Rules(news);
    ok := true;
  }

  /**
   add_chmod_rules_to_permchain: all or nothing.  On failure the caller's chain is
   unchanged; on success its old nodes keep their rules and are followed by one
   that does nothing and exactly the rules of the specification, in order.
   */
  method AddRules(spec: string, pc: Node, ghost nodes: seq<Node>) returns (ok: bool, ghost added: seq<Node>)
    requires Linked(nodes) && nodes[0] == pc
    modifies Last(nodes)`next
    ensures ok <==> ParseRules(spec).Some?
    ensures !ok ==> added == [] && unchanged(nodes)
    ensures fresh(added) && Linked(nodes + added) && AllValid(added)
    ensures ok ==> Rules(added) == [NOTHING] + ParseRules(spec).value
  {
    var newpc;
    ok, newpc, added := BuildChain(spec);
    if ok {
      Cat(pc, newpc, nodes, added);
    } else {
      added := [];
      assert nodes + added == nodes;
    }
  }

  // ----- Running a chain

  /** The operand loop of permchain_apply. */
  method OperandWord(rule: Node, original: Mode) returns (mode: Mode)
    requires rule.Valid()
    ensures mode == OperandsBits(rule.Value().operands, original)
  {
    hide OperandBits, OperandsBits;
    mode := 0;
    var p := 0;
    ghost var text := CString(rule.operands);
    SpanStops(rule.operands, {'\0'});
    NoOperands(original);
    while rule.operands[p] != '\0'
      invariant 0 <= p <= |text| < SLOTS && mode == OperandsBits(text[..p], original)
      decreases |text| - p
    {
      var c := rule.operands[p];
      assert c == text[p] && text[p] in text;
      mode := mode | OperandBits(c, original);
      NextOperand(text, p, original);
      p := p + 1;
    }
    assert text[..p] == text;
  }

  lemma NoOperands(original: Mode)
    ensures OperandsBits("", original) == 0
  {
  }

  lemma {:induction false} NextOperand(text: string, p: nat, original: Mode)
    requires p < |text|
    ensures OperandsBits(text[..p + 1], original) == OperandsBits(text[..p], original) | OperandBits(text[p], original)
  {
    hide OperandBits;
    assert text[..p + 1][..p] == text[..p];
  }

  /** One round of the loop of permchain_apply. */
  method ApplyNode(rule: Node, original: Mode, target: Mode) returns (mode: Mode)
    requires rule.Valid() && WellFormed(rule.Value())
    ensures mode == ApplyRule(rule.Value(), original, target)
  {
    if rule.op == '\0' {
      return target;
    }
    if (IsDir(target) && !rule.onDirs) || (!IsDir(target) && !rule.onFiles) {
      return target;
    }
    var bits := 0;
    if rule.op == '=' || rule.op == '+' || rule.op == '-' {
      bits := OperandWord(rule, original);
    }
    assert rule.op in {'=', '+', '-', 'o'}; // the default case of the switch is dead
    mode := Combine(rule.op, rule.mask, bits, OctalMode(rule.octal), target);
  }

  /** permchain_apply: the loop over the nodes computes what the rules mean. */
  method Apply(pc: Node?, target: Mode, ghost nodes: seq<Node>) returns (mode: Mode)
    requires if pc == null then nodes == [] else Linked(nodes) && nodes[0] == pc
    requires AllValid(nodes) && AllWellFormed(Rules(nodes))
    ensures mode == PermRules.Apply(Rules(nodes), target)
  {
    hide Rules, ApplyRule, WellFormed, Node.Value, Node.Valid;
    mode := target;
    var p := pc;
    ghost var i, rules := 0, Rules(nodes);
    while p != null
      invariant 0 <= i <= |nodes| && p == (if i == |nodes| then null else nodes[i])
      invariant mode == ApplyFrom(rules[..i], target, target)
      decreases |nodes| - i
    {
      mode := ApplyNode(p, target, mode);
      assert rules[..i + 1][..i] == rules[..i];
      i := i + 1;
      p := p.next;
    }
    assert rules[..i] == rules;
  }

  lemma {:induction false} NothingFirst(rules: seq<Rule>, original: Mode, target: Mode)
    ensures ApplyFrom([NOTHING] + rules, original, target) == ApplyFrom(rules, original, target)
    decreases |rules|
  {
    var all := [NOTHING] + rules;
    if rules == [] {
      assert all[..0] == [] && all == [NOTHING];
      assert ApplyRule(NOTHING, original, target) == target;
    } else {
      NothingFirst(rules[..|rules| - 1], original, target);
      assert all[..|all| - 1] == [NOTHING] + rules[..|rules| - 1];
    }
  }

  /** The chain built from scratch: two rules that do nothing, then the given ones. */
  lemma {:induction false} ChainFor(rules: seq<Rule>, target: Mode)
    requires AllWellFormed(rules)
    ensures AllWellFormed([NOTHING] + ([NOTHING] + rules))
    ensures PermRules.Apply([NOTHING] + ([NOTHING] + rules), target) == PermRules.Apply(rules, target)
  {
    NothingFirst(rules, target, target);
    NothingFirst([NOTHING] + rules, target, target);
  }

  lemma {:induction false} ParsedWellFormed(spec: string)
    requires ParseRules(spec).Some?
    ensures AllWellFormed(ParseRules(spec).value)
  {
    RulesWellFormed(Split(spec, SEPARATORS));
  }

  /** A fresh chain that holds the rules of a specification. */
  method ChainOf(spec: string) returns (ok: bool, pc: Node, ghost nodes: seq<Node>)
    ensures ok <==> ParseRules(spec).Some?
    ensures ok ==> Linked(nodes) && nodes[0] == pc && AllValid(nodes)
    ensures ok ==> Rules(nodes) == [NOTHING] + ([NOTHING] + ParseRules(spec).value)
  {
    hide ParseRules, Rules, AllValid, Linked, Node.Valid, Node.Value;
    pc := new Node();
    ghost var added;
    SingleNode(pc);
    ok, added := AddRules(spec, pc, [pc]);
    nodes := [pc] + added;
    RulesConcat([pc], added);
    AllValidConcat([pc], added);
  }

  /**
   The whole way from a specification to a mode: a chain built from scratch and
   run over a mode.  No dead switch case is reached, no operand buffer overruns,
   and no bit outside 0777 changes.
   */
  method ParseAndApply(spec: string, target: Mode) returns (ok: bool, mode: Mode)
    ensures ok <==> ParseRules(spec).Some?
    ensures ok ==> mode == PermRules.Apply(ParseRules(spec).value, target)
    ensures ok ==> forall who :: Triad(mode, who) == Meaning(ParseRules(spec).value, target, who)
    ensures ok ==> mode & !0x1FF == target & !0x1FF
  {
    hide Rules, AllValid, AllWellFormed, ParseRules, PermRules.Apply, Meaning, Triad;
    mode := target;
    var pc;
    ghost var nodes;
    ok, pc, nodes := ChainOf(spec);
    if ok {
      ParsedWellFormed(spec);
      mode := RunChain(pc, target, nodes, ParseRules(spec).value);
    }
  }

  /** Running a chain built from scratch over a mode. */
  method RunChain(pc: Node, target: Mode, ghost nodes: seq<Node>, ghost rules: seq<Rule>) returns (mode: Mode)
    requires Linked(nodes) && nodes[0] == pc && AllValid(nodes)
    requires Rules(nodes) == [NOTHING] + ([NOTHING] + rules) && AllWellFormed(rules)
    ensures mode == PermRules.Apply(rules, target) && mode & !0x1FF == target & !0x1FF
    ensures forall who :: Triad(mode, who) == Meaning(rules, target, who)
  {
    hide AllValid, Rules, AllWellFormed, PermRules.Apply, Meaning, Triad;
    forall who
      ensures Triad(PermRules.Apply(rules, target), who) == Meaning(rules, target, who)
    {
      ChainMeaning(rules, target, who);
    }
    ChainFor(rules, target);
    ApplyKeepsTheRest(rules, target);
    mode := Apply(pc, target, nodes);
  }
}
