/**
 src/permchain.c: the language of permission specifications, "a=rX,og-w:0644".
 What a specification means is stated on values here; the character-scanning
 loops that build the linked list are in Permchain.
 */
module PermSpec {
  import opened Text
  import opened PermRules

  const OPERATORS: set<char> := {'=', '+', '-'}
  const CLASSES: set<char> := {'u', 'g', 'o', 'a', 'f', 'd'}

  predicate AllIn(s: string, allowed: set<char>) {
    forall i :: 0 <= i < |s| ==> s[i] in allowed
  }

  function MaskOf(u: bool, g: bool, o: bool): Mode {
    (if u then 0x1C0 else 0) | (if g then 0x38 else 0) | (if o then 7 else 0)
  }

  /** The classes named on a left-hand side; "a" names all three. */
  function LeftMask(left: string): Mode {
    var a := 'a' in left;
    MaskOf(a || 'u' in left, a || 'g' in left, a || 'o' in left)
  }

  /** The characters of `s` in order of first occurrence. */
  function Dedup(s: string): (d: string)
    ensures NoDuplicates(d)
    ensures forall c :: c in d <==> c in s
  {
    if s == "" then ""
    else
      var d, last := Dedup(s[..|s| - 1]), s[|s| - 1];
      assert s == s[..|s| - 1] + [last];
      if last in d then d else d + [last]
  }

  /**
   A symbolic rule: classes, then optionally an operator and its operands.  With
   no operator the rule does nothing; an operator in front means all classes; and
   a left-hand side of only "f" or "d" names no class at all.
   */
  function ParseSymbolic(s: string): Option<Rule> {
    var k := Span(s, OPERATORS);
    var left, right := s[..k], if k < |s| then s[k + 1..] else "";
    if !AllIn(left, CLASSES) || !AllIn(right, OPERANDS) then None
    else
      var f, d := 'f' in left, 'd' in left;
      var op, mask := if k < |s| then s[k] else '\0', if k == 0 && s != "" then 0x1FF else LeftMask(left);
      Some(Rule(op, f || !d, d || !f, mask, Dedup(right), 0))
  }

  predicate IsDigit(c: char) {
    '0' <= c <= '9'
  }

  /** strtol in base 8 on a string that starts with a digit: the longest octal prefix counts. */
  function OctalValue(s: string, acc: nat := 0): nat {
    if s == "" || !('0' <= s[0] <= '7') then acc
    else OctalValue(s[1..], 8 * acc + (s[0] - '0') as nat)
  }

  function ParseOctal(s: string): Option<Rule> {
    var v := OctalValue(s);
    if v > 511 then None else Some(Rule('o', true, true, 0x1FF, "", v))
  }

  function ParseRule(s: string): Option<Rule>
    requires s != ""
  {
    if IsDigit(s[0]) then ParseOctal(s) else ParseSymbolic(s)
  }

  /** A piece that may stand between separators. */
  predicate AcceptableRule(s: string) {
    s != "" && ParseRule(s).Some?
  }

  /** Only the last piece may be empty, and every other one is a rule. */
  predicate AcceptableList(pieces: seq<string>) {
    forall i :: 0 <= i < |pieces| ==> (pieces[i] == "" && i == |pieces| - 1) || AcceptableRule(pieces[i])
  }

  /** The rules of the non-empty pieces, in order. */
  function RulesOf(pieces: seq<string>): seq<Rule>
    requires AcceptableList(pieces)
  {
    if pieces == [] || pieces[0] == "" then []
    else [ParseRule(pieces[0]).value] + RulesOf(pieces[1..])
  }

  /**
   A whole specification.  The accepted ones are exactly non-empty acceptable
   rules with single separators between them and an optional one at the end, or
   nothing at all; their rules are those of the pieces, in order.
   */
  function ParseRules(s: string): Option<seq<Rule>> {
    var pieces := Split(s, SEPARATORS);
    if AcceptableList(pieces) then Some(RulesOf(pieces)) else None
  }

  lemma {:induction false} AcceptableCons(first: string, rest: seq<string>)
    requires rest != []
    ensures AcceptableList([first] + rest) <==> AcceptableRule(first) && AcceptableList(rest)
    ensures AcceptableList([first] + rest) ==> RulesOf([first] + rest) == [ParseRule(first).value] + RulesOf(rest)
  {
    var pieces := [first] + rest;
    assert pieces[0] == first && pieces[1..] == rest;
    assert forall i :: 0 <= i < |rest| ==> rest[i] == pieces[i + 1];
    if AcceptableList(pieces) {
      assert AcceptableRule(pieces[0]);
    }
  }

  lemma {:induction false} AcceptableSingle(piece: string)
    ensures AcceptableList([piece]) <==> piece == "" || AcceptableRule(piece)
    ensures AcceptableList([piece]) ==> RulesOf([piece]) == if piece == "" then [] else [ParseRule(piece).value]
  {
    assert [piece][0] == piece && [piece][1..] == [];
    assert RulesOf([]) == [];
  }

  // ----- Symbolic rules as a language

  /** The rule a left-hand side, an operator and a right-hand side make. */
  function SymbolicRule(left: string, op: char, mask: Mode, right: string): Rule {
    var f, d := 'f' in left, 'd' in left;
    Rule(op, f || !d, d || !f, mask, Dedup(right), 0)
  }

  lemma {:induction false} ParseWithOperator(left: string, op: char, right: string)
    requires AllIn(left, CLASSES) && op in OPERATORS
    ensures ParseSymbolic(left + [op] + right) ==
            if AllIn(right, OPERANDS)
            then Some(SymbolicRule(left, op, if left == "" then 0x1FF else LeftMask(left), right)) else None
  {
    var s := left + [op] + right;
    SpanUnique(s, OPERATORS, |left|);
    assert s[..|left|] == left && s[|left| + 1..] == right;
  }

  lemma {:induction false} ParseWithoutOperator(left: string)
    requires AllIn(left, CLASSES)
    ensures ParseSymbolic(left) == Some(SymbolicRule(left, '\0', LeftMask(left), ""))
  {
    SpanUnique(left, OPERATORS, |left|);
    assert left[..|left|] == left;
  }

  ghost predicate Letters(s: string, letters: string) {
    forall c :: c in s ==> c in letters
  }

  /** A symbolic rule is a word over the classes, or such a word, an operator and operands. */
  ghost predicate IsSymbolic(s: string) {
    || Letters(s, "ugoafd")
    || exists k :: 0 <= k < |s| && OperatorAt(s, k)
  }

  ghost predicate OperatorAt(s: string, k: nat)
    requires k < |s|
  {
    Letters(s[..k], "ugoafd") && s[k] in "=+-" && Letters(s[k + 1..], "rwxXDstugo")
  }

  lemma ClassLetters(c: char)
    ensures c in "ugoafd" <==> c in CLASSES
  {
    var letters := "ugoafd";
    assert letters == ['u', 'g', 'o', 'a', 'f', 'd'];
  }

  lemma OperatorLetters(c: char)
    ensures c in "=+-" <==> c in OPERATORS
  {
    var letters := "=+-";
    assert letters == ['=', '+', '-'];
  }

  lemma OperandLetters(c: char)
    ensures c in "rwxXDstugo" <==> c in OPERANDS
  {
    var letters := "rwxXDstugo";
    assert letters == ['r', 'w', 'x', 'X', 'D', 's', 't', 'u', 'g', 'o'];
  }

  lemma {:induction false} LettersAreSets(s: string)
    ensures Letters(s, "ugoafd") <==> AllIn(s, CLASSES)
    ensures Letters(s, "rwxXDstugo") <==> AllIn(s, OPERANDS)
  {
    forall c
      ensures (c in "ugoafd" <==> c in CLASSES) && (c in "rwxXDstugo" <==> c in OPERANDS)
    {
      ClassLetters(c);
      OperandLetters(c);
    }
    hide *;
    AllInByMember(s, CLASSES);
    AllInByMember(s, OPERANDS);
    LettersByMember(s, "ugoafd");
    LettersByMember(s, "rwxXDstugo");
  }

  lemma LettersByMember(s: string, letters: string)
    ensures Letters(s, letters) <==> forall c :: c in s ==> c in letters
  {
  }

  lemma AllInByMember(s: string, allowed: set<char>)
    ensures AllIn(s, allowed) <==> forall c :: c in s ==> c in allowed
  {
    assert forall i :: 0 <= i < |s| ==> s[i] in s;
  }

  lemma {:induction false} IsSymbolicParses(s: string)
    requires IsSymbolic(s)
    ensures ParseSymbolic(s).Some?
  {
    hide ParseSymbolic, Letters;
    LettersAreSets(s);
    if Letters(s, "ugoafd") {
      ParseWithoutOperator(s);
    } else {
      var k :| 0 <= k < |s| && OperatorAt(s, k);
      LettersAreSets(s[..k]);
      LettersAreSets(s[k + 1..]);
      OperatorLetters(s[k]);
      assert s == s[..k] + [s[k]] + s[k + 1..];
      ParseWithOperator(s[..k], s[k], s[k + 1..]);
    }
  }

  lemma {:induction false} ParsesIsSymbolic(s: string)
    requires ParseSymbolic(s).Some?
    ensures IsSymbolic(s)
  {
    var k := Span(s, OPERATORS);
    SpanStops(s, OPERATORS);
    LettersAreSets(s[..k]);
    hide Span, LeftMask, Dedup, Letters;
    if k == |s| {
      assert s[..k] == s;
    } else {
      LettersAreSets(s[k + 1..]);
      OperatorLetters(s[k]);
      assert OperatorAt(s, k);
    }
  }

  lemma {:induction false} SymbolicIff(s: string)
    ensures ParseSymbolic(s).Some? <==> IsSymbolic(s)
    ensures s != "" && !('0' <= s[0] <= '9') ==> (ParseRule(s).Some? <==> IsSymbolic(s))
  {
    hide ParseSymbolic, IsSymbolic;
    if IsSymbolic(s) {
      IsSymbolicParses(s);
    }
    if ParseSymbolic(s).Some? {
      ParsesIsSymbolic(s);
    }
  }

  // ----- What a specification says about a mode

  /** The class is named on the left-hand side, or the rule starts with its operator. */
  predicate Addresses(left: string, who: Class) {
    left == "" || 'a' in left || match who case User => 'u' in left case Group => 'g' in left case Other => 'o' in left
  }

  /** The rule is only for the other kind of file. */
  predicate OtherKind(left: string, mode: Mode) {
    if mode & 0xF000 == 0x4000 then 'f' in left && 'd' !in left else 'd' in left && 'f' !in left
  }

  lemma MaskCovers(u: bool, g: bool, o: bool, who: Class)
    ensures Covers(MaskOf(u, g, o), who) <==> match who case User => u case Group => g case Other => o
    ensures Covers(0x1FF, who)
  {
  }

  lemma NamedAgain(a: Mode, b: Mode)
    ensures (a | b) | b == a | b && (a | b) | a == a | b
  {
  }

  lemma UnionSwaps(a: Mode, b: Mode, c: Mode)
    requires a | c == a
    ensures (a | b) | c == a | b
  {
    assert (a | b) | c == (a | c) | b;
  }

  lemma {:induction false} NamedOnce(operands: string, c: char, original: Mode)
    requires c in operands
    ensures NamedByAny(operands, original) | Named(c, original) == NamedByAny(operands, original)
    decreases |operands|
  {
    hide Named;
    var init, last := operands[..|operands| - 1], operands[|operands| - 1];
    assert operands == init + [last];
    if c == last {
      NamedAgain(NamedByAny(init, original), Named(c, original));
    } else {
      NamedOnce(init, c, original);
      UnionSwaps(NamedByAny(init, original), Named(last, original), Named(c, original));
    }
  }

  lemma NamedSnoc(operands: string, c: char, original: Mode)
    ensures NamedByAny(operands + [c], original) == NamedByAny(operands, original) | Named(c, original)
  {
    hide Named;
    assert (operands + [c])[..|operands|] == operands;
  }

  /** Repeated operands name nothing more. */
  lemma {:induction false} DedupNames(s: string, original: Mode)
    ensures NamedByAny(Dedup(s), original) == NamedByAny(s, original)
    decreases |s|
  {
    hide NamedByAny, Named;
    if s == "" {
      assert Dedup(s) == s;
    } else {
      var init, last := s[..|s| - 1], s[|s| - 1];
      assert s == init + [last];
      DedupNames(init, original);
      NamedSnoc(init, last, original);
      if last in Dedup(init) {
        NamedOnce(Dedup(init), last, original);
      } else {
        NamedSnoc(Dedup(init), last, original);
      }
    }
  }

  lemma {:induction false} OneRule(r: Rule, mode: Mode)
    ensures Apply([r], mode) == ApplyRule(r, mode, mode)
  {
    ApplyTwo(r, r, mode, mode);
  }

  /**
   What "left op right" comes to for a mode: each class the rule addresses is left with
   what the operator makes of the permissions the operands name, and nobody is left with
   anything else if the rule is for the other kind of file.
   */
  lemma {:induction false} SymbolicMeaning(left: string, op: char, right: string, mode: Mode, who: Class)
    requires Letters(left, "ugoafd") && op in "=+-" && Letters(right, "rwxXDstugo")
    ensures var s := left + [op] + right;
            && ParseRule(s).Some?
            && Triad(Apply([ParseRule(s).value], mode), who) ==
               if OtherKind(left, mode) then Triad(mode, who)
               else Outcome(op, Addresses(left, who), NamedByAny(right, mode), 0, Triad(mode, who))
  {
    LettersAreSets(left);
    LettersAreSets(right);
    OperatorLetters(op);
    SymbolicText(left, op, right);
    SymbolicRuleMeaning(left, op, right, mode, who);
  }

  /** Classes without an operator are accepted and do nothing. */
  lemma {:induction false} NoOperatorMeaning(left: string, mode: Mode)
    requires Letters(left, "ugoafd") && left != ""
    ensures ParseRule(left).Some? && Apply([ParseRule(left).value], mode) == mode
  {
    hide LeftMask, Dedup;
    LettersAreSets(left);
    ParseWithoutOperator(left);
    assert left[0] in CLASSES;
    OneRule(ParseRule(left).value, mode);
  }

  lemma {:induction false} SymbolicText(left: string, op: char, right: string)
    requires AllIn(left, CLASSES) && op in OPERATORS && AllIn(right, OPERANDS)
    ensures ParseRule(left + [op] + right) ==
            Some(SymbolicRule(left, op, if left == "" then 0x1FF else LeftMask(left), right))
  {
    hide ParseSymbolic, LeftMask, Dedup, SymbolicRule;
    ParseWithOperator(left, op, right);
    assert (left + [op] + right)[0] == if left == "" then op else left[0];
  }

  lemma {:induction false} SymbolicRuleMeaning(left: string, op: char, right: string, mode: Mode, who: Class)
    requires AllIn(left, CLASSES) && op in OPERATORS && AllIn(right, OPERANDS)
    ensures var r := SymbolicRule(left, op, if left == "" then 0x1FF else LeftMask(left), right);
            Triad(Apply([r], mode), who) ==
              if OtherKind(left, mode) then Triad(mode, who)
              else Outcome(op, Addresses(left, who), NamedByAny(right, mode), 0, Triad(mode, who))
  {
    var mask := if left == "" then 0x1FF else LeftMask(left);
    var r := SymbolicRule(left, op, mask, right);
    RuleFromParts(left, op, right);
    MaskAddresses(left, who);
    DedupNames(right, mode);
    hide *;
    OneRule(r, mode);
    RuleMeaning(r, mode, mode, who);
    KindOfRule(left, op, mask, right, mode);
    OctalUnused(op, Covers(mask, who), NamedByAny(right, mode), OctalDigit(0, who), Triad(mode, who));
  }

  lemma {:induction false} RuleFromParts(left: string, op: char, right: string)
    requires AllIn(left, CLASSES) && op in OPERATORS && AllIn(right, OPERANDS)
    ensures WellFormed(SymbolicRule(left, op, if left == "" then 0x1FF else LeftMask(left), right))
  {
    LeftMaskIsClassMask(left);
    AllMaskIsClassMask();
    hide LeftMask, ClassMask, Dedup;
  }

  lemma MaskAddresses(left: string, who: Class)
    ensures Covers(if left == "" then 0x1FF else LeftMask(left), who) <==> Addresses(left, who)
  {
    hide MaskOf, Covers;
    var a := 'a' in left;
    MaskCovers(a || 'u' in left, a || 'g' in left, a || 'o' in left, who);
  }

  lemma KindOfRule(left: string, op: char, mask: Mode, right: string, mode: Mode)
    requires op in OPERATORS
    ensures var r := SymbolicRule(left, op, mask, right);
            && r.op == op && r.mask == mask && r.operands == Dedup(right) && r.octal == 0
            && (OtherKind(left, mode) <==>
                r.op == '\0' || (if mode & 0xF000 == 0x4000 then !r.onDirs else !r.onFiles))
  {
    hide Dedup;
  }

  lemma OctalUnused(op: char, covered: bool, named: Mode, digit: Mode, before: Mode)
    requires op in OPERATORS
    ensures Outcome(op, covered, named, digit, before) == Outcome(op, covered, named, 0, before)
  {
  }

  // ----- Numbers

  predicate IsOctalDigit(c: char) {
    '0' <= c <= '7'
  }

  /** The value of octal digits by their position, the last one counting once. */
  function Positional(digits: string): nat
    requires forall i :: 0 <= i < |digits| ==> IsOctalDigit(digits[i])
  {
    if digits == "" then 0
    else
      var last := digits[|digits| - 1];
      assert IsOctalDigit(last);
      8 * Positional(digits[..|digits| - 1]) + (last - '0') as nat
  }

  lemma {:induction false} OctalValueSplits(digits: string, rest: string, acc: nat)
    requires forall i :: 0 <= i < |digits| ==> IsOctalDigit(digits[i])
    ensures OctalValue(digits + rest, acc) == OctalValue(rest, OctalValue(digits, acc))
    decreases |digits|
  {
    if digits == "" {
      assert digits + rest == rest;
    } else {
      OctalValueSplits(digits[1..], rest, 8 * acc + (digits[0] - '0') as nat);
      assert (digits + rest)[1..] == digits[1..] + rest;
    }
  }

  lemma {:induction false} OctalValueIsPositional(digits: string)
    requires forall i :: 0 <= i < |digits| ==> IsOctalDigit(digits[i])
    ensures OctalValue(digits) == Positional(digits)
    decreases |digits|
  {
    if digits != "" {
      var init, last := digits[..|digits| - 1], digits[|digits| - 1..];
      assert digits == init + last;
      OctalValueIsPositional(init);
      OctalValueSplits(init, last, 0);
      assert last[1..] == "";
    }
  }

  /**
   A rule that starts with a decimal digit is a number: octal digits count up to the
   first other character, whatever comes after that, and the number must not exceed 0777.
   */
  lemma {:induction false} NumberMeaning(digits: string, rest: string)
    requires forall i :: 0 <= i < |digits| ==> IsOctalDigit(digits[i])
    requires rest != "" ==> !IsOctalDigit(rest[0])
    requires digits != "" || (rest != "" && (rest[0] == '8' || rest[0] == '9'))
    ensures ParseRule(digits + rest) ==
            if Positional(digits) > 511 then None else Some(Rule('o', true, true, 0x1FF, "", Positional(digits)))
  {
    OctalValueSplits(digits, rest, 0);
    OctalValueIsPositional(digits);
    hide Positional;
    assert digits + rest != "" && (digits + rest)[0] == if digits == "" then rest[0] else digits[0];
  }

  /** The whole way from three digits to a mode: each class has its own, whatever the mode was. */
  lemma {:induction false} NumberApplied(v: nat, mode: Mode, who: Class)
    requires v <= 511
    ensures Triad(Apply([Rule('o', true, true, 0x1FF, "", v)], mode), who) as int ==
            match who case User => v / 64 case Group => v / 8 % 8 case Other => v % 8
  {
    var r := Rule('o', true, true, 0x1FF, "", v);
    AllMaskIsClassMask();
    OneRule(r, mode);
    RuleMeaning(r, mode, mode, who);
    OctalMeaning(v, who);
    OctalTriads(v, who);
  }

  // ----- Everything the parser produces is well formed

  lemma LeftMaskIsClassMask(left: string)
    ensures ClassMask(LeftMask(left))
  {
  }

  lemma {:induction false} SymbolicWellFormed(s: string)
    requires ParseSymbolic(s).Some?
    ensures WellFormed(ParseSymbolic(s).value)
  {
    var k := Span(s, OPERATORS);
    SpanStops(s, OPERATORS);
    LeftMaskIsClassMask(s[..k]);
    AllMaskIsClassMask();
    hide LeftMask, ClassMask, Dedup;
  }

  lemma AllMaskIsClassMask()
    ensures ClassMask(0x1FF)
  {
  }

  lemma {:induction false} RuleWellFormed(s: string)
    requires AcceptableRule(s)
    ensures WellFormed(ParseRule(s).value)
  {
    if !IsDigit(s[0]) {
      SymbolicWellFormed(s);
    }
  }

  lemma {:induction false} RulesWellFormed(pieces: seq<string>)
    requires AcceptableList(pieces)
    ensures AllWellFormed(RulesOf(pieces))
  {
    if pieces != [] && pieces[0] != "" {
      RuleWellFormed(pieces[0]);
      RulesWellFormed(pieces[1..]);
    }
  }

  // ----- Printing

  /** The letters whose flag is set. */
  function Pick(flags: seq<bool>, letters: string): string
    requires |flags| == |letters|
  {
    if flags == [] then ""
    else (if flags[0] then [letters[0]] else "") + Pick(flags[1..], letters[1..])
  }

  function LeftFlags(r: Rule): seq<bool> {
    [r.mask & 0x1C0 != 0, r.mask & 0x38 != 0, r.mask & 7 != 0, r.onFiles, r.onDirs]
  }

  function PrintLeft(r: Rule): string {
    Pick(LeftFlags(r), "ugofd")
  }

  function OctalChar(d: nat): char
    requires d < 8
  {
    '0' + d as char
  }

  function PrintOctal(v: nat): string
    requires v <= 511
  {
    [OctalChar(v / 64), OctalChar(v / 8 % 8), OctalChar(v % 8)]
  }

  function PrintRule(r: Rule): string
    requires WellFormed(r)
  {
    match r.op
    case 'o' => PrintOctal(r.octal)
    case '\0' => PrintLeft(r)
    case _ => PrintLeft(r) + [r.op] + r.operands
  }

  function Prints(rules: seq<Rule>): seq<string>
    requires AllWellFormed(rules)
  {
    seq(|rules|, i requires 0 <= i < |rules| => PrintRule(rules[i]))
  }

  /** Pieces with the given separators after them; the last one may go without. */
  function Interleave(pieces: seq<string>, seps: string): string
    requires |pieces| - 1 <= |seps| <= |pieces|
  {
    if pieces == [] then ""
    else if seps == "" then pieces[0]
    else pieces[0] + [seps[0]] + Interleave(pieces[1..], seps[1..])
  }

  function PrintRules(rules: seq<Rule>, seps: string): string
    requires AllWellFormed(rules)
    requires |rules| - 1 <= |seps| <= |rules|
  {
    Interleave(Prints(rules), seps)
  }

  lemma {:induction false} DedupOfDistinct(s: string)
    requires NoDuplicates(s)
    ensures Dedup(s) == s
    decreases |s|
  {
    if s != "" {
      var init := s[..|s| - 1];
      DedupOfDistinct(init);
      assert s == init + [s[|s| - 1]];
      assert forall i :: 0 <= i < |init| ==> init[i] == s[i] && s[i] != s[|s| - 1];
    }
  }

  lemma {:induction false} Picked(flags: seq<bool>, letters: string, c: char)
    requires |flags| == |letters|
    ensures c in Pick(flags, letters) <==> exists i :: 0 <= i < |flags| && flags[i] && letters[i] == c
  {
    if flags != [] {
      Picked(flags[1..], letters[1..], c);
      if i :| 0 <= i < |flags| && flags[i] && letters[i] == c {
        assert i > 0 ==> flags[1..][i - 1] && letters[1..][i - 1] == c;
      }
    }
  }

  lemma {:induction false} PrintedLetters(r: Rule, c: char)
    ensures c in PrintLeft(r) <==>
            || (c == 'u' && r.mask & 0x1C0 != 0) || (c == 'g' && r.mask & 0x38 != 0) || (c == 'o' && r.mask & 7 != 0)
            || (c == 'f' && r.onFiles) || (c == 'd' && r.onDirs)
  {
    var flags, letters := LeftFlags(r), "ugofd";
    Picked(flags, letters, c);
    assert letters[0] == 'u' && letters[1] == 'g' && letters[2] == 'o' && letters[3] == 'f' && letters[4] == 'd';
    assert flags[0] == (r.mask & 0x1C0 != 0) && flags[1] == (r.mask & 0x38 != 0) && flags[2] == (r.mask & 7 != 0);
    assert flags[3] == r.onFiles && flags[4] == r.onDirs;
  }

  lemma {:induction false} PrintedLeft(r: Rule)
    requires (r.onFiles || r.onDirs) && ClassMask(r.mask)
    ensures PrintLeft(r) != "" && AllIn(PrintLeft(r), CLASSES)
    ensures ('f' in PrintLeft(r) <==> r.onFiles) && ('d' in PrintLeft(r) <==> r.onDirs)
    ensures LeftMask(PrintLeft(r)) == r.mask
  {
    var left := PrintLeft(r);
    forall c
      ensures c in left ==> c in CLASSES
    {
      PrintedLetters(r, c);
    }
    PrintedLetters(r, 'u');
    PrintedLetters(r, 'g');
    PrintedLetters(r, 'o');
    PrintedLetters(r, 'a');
    PrintedLetters(r, 'f');
    PrintedLetters(r, 'd');
    MaskFromClasses(r.mask);
  }

  lemma MaskFromClasses(m: Mode)
    requires ClassMask(m)
    ensures m == MaskOf(m & 0x1C0 != 0, m & 0x38 != 0, m & 7 != 0)
  {
  }

  lemma {:induction false} OctalStep(d: nat, rest: string, acc: nat)
    requires d < 8
    ensures OctalValue([OctalChar(d)] + rest, acc) == OctalValue(rest, 8 * acc + d)
  {
    assert ([OctalChar(d)] + rest)[1..] == rest;
  }

  lemma {:induction false} OctalDigits(a: nat, b: nat, c: nat)
    requires a < 8 && b < 8 && c < 8
    ensures OctalValue([OctalChar(a), OctalChar(b), OctalChar(c)]) == 64 * a + 8 * b + c
  {
    hide OctalValue;
    OctalStep(a, [OctalChar(b), OctalChar(c)], 0);
    OctalStep(b, [OctalChar(c)], a);
    OctalStep(c, "", 8 * a + b);
    assert [OctalChar(a), OctalChar(b), OctalChar(c)] == [OctalChar(a)] + [OctalChar(b), OctalChar(c)];
    assert [OctalChar(b), OctalChar(c)] == [OctalChar(b)] + [OctalChar(c)] && [OctalChar(c)] == [OctalChar(c)] + "";
    NoOctal(8 * (8 * a + b) + c);
  }

  lemma NoOctal(acc: nat)
    ensures OctalValue("", acc) == acc
  {
  }

  lemma {:induction false} OctalRoundTrip(v: nat)
    requires v <= 511
    ensures OctalValue(PrintOctal(v)) == v
  {
    hide OctalValue, OctalChar;
    OctalDigits(v / 64, v / 8 % 8, v % 8);
  }

  lemma {:induction false} SymbolicRoundTrip(r: Rule)
    requires WellFormed(r) && r.op != 'o'
    ensures ParseSymbolic(PrintRule(r)) == Some(r)
  {
    var left := PrintLeft(r);
    PrintedLeft(r);
    if r.op == '\0' {
      ParseWithoutOperator(left);
    } else {
      ParseWithOperator(left, r.op, r.operands);
      DedupOfDistinct(r.operands);
    }
  }

  lemma {:induction false} PrintedHead(r: Rule)
    requires WellFormed(r)
    ensures PrintRule(r) != "" && (IsDigit(PrintRule(r)[0]) <==> r.op == 'o')
  {
    if r.op != 'o' {
      PrintedLeft(r);
      hide PrintLeft;
      assert PrintRule(r)[0] == PrintLeft(r)[0] && PrintLeft(r)[0] in CLASSES;
    }
  }

  lemma {:induction false} RuleRoundTrip(r: Rule)
    requires WellFormed(r)
    ensures PrintRule(r) != "" && ParseRule(PrintRule(r)) == Some(r)
  {
    PrintedHead(r);
    if r.op == 'o' {
      OctalRoundTrip(r.octal);
      hide PrintOctal, OctalValue;
    } else {
      SymbolicRoundTrip(r);
      hide PrintRule, ParseSymbolic;
    }
  }

  lemma {:induction false} NoneAmong(s: string, allowed: set<char>)
    requires AllIn(s, allowed) && allowed !! SEPARATORS
    ensures forall i :: 0 <= i < |s| ==> s[i] !in SEPARATORS
  {
  }

  lemma {:induction false} PrintedHasNoSeparator(r: Rule)
    requires WellFormed(r)
    ensures forall i :: 0 <= i < |PrintRule(r)| ==> PrintRule(r)[i] !in SEPARATORS
  {
    if r.op != 'o' {
      var left := PrintLeft(r);
      PrintedLeft(r);
      hide PrintLeft;
      NoneAmong(left, CLASSES);
      NoneAmong(r.operands, OPERANDS);
      assert r.op == '\0' || r.op in OPERATORS;
    }
  }

  /**
   With the first rule of a specification cut off at its separator, the rest is a
   specification by itself...
   */
  lemma {:induction false} ParseFirst(first: string, sep: char, rest: string)
    requires sep == ',' || sep == ':'
    requires ',' !in first && ':' !in first
    ensures ParseRules(first + [sep] + rest) ==
            if first != "" && ParseRule(first).Some? && ParseRules(rest).Some?
            then Some([ParseRule(first).value] + ParseRules(rest).value) else None
  {
    hide ParseRule;
    SplitFirst(first, sep, rest, SEPARATORS);
    AcceptableCons(first, Split(rest, SEPARATORS));
  }

  /** ...and one without separators is a single rule, or none if it is empty. */
  lemma {:induction false} ParseLast(last: string)
    requires ',' !in last && ':' !in last
    ensures ParseRules(last) ==
            if last == "" then Some([])
            else if ParseRule(last).Some? then Some([ParseRule(last).value]) else None
  {
    hide ParseRule;
    SpanUnique(last, SEPARATORS, |last|);
    AcceptableSingle(last);
  }

  /** Splitting gives the pieces back, and an empty one after a trailing separator. */
  lemma {:induction false} SplitInterleaved(pieces: seq<string>, seps: string)
    requires |pieces| - 1 <= |seps| <= |pieces| && AllIn(seps, SEPARATORS)
    requires forall i, j :: 0 <= i < |pieces| && 0 <= j < |pieces[i]| ==> pieces[i][j] !in SEPARATORS
    ensures Split(Interleave(pieces, seps), SEPARATORS) == pieces + if |seps| == |pieces| then [""] else []
    decreases |pieces|
  {
    if pieces != [] {
      if seps == "" {
        SpanUnique(pieces[0], SEPARATORS, |pieces[0]|);
      } else {
        SplitInterleaved(pieces[1..], seps[1..]);
        SplitFirst(pieces[0], seps[0], Interleave(pieces[1..], seps[1..]), SEPARATORS);
      }
    }
  }

  /** Each piece parses to the rule at its place. */
  ghost predicate Parses(pieces: seq<string>, rules: seq<Rule>) {
    |pieces| == |rules| && forall i :: 0 <= i < |pieces| ==> pieces[i] != "" && ParseRule(pieces[i]) == Some(rules[i])
  }

  lemma {:induction false} PrintsParse(rules: seq<Rule>)
    requires AllWellFormed(rules)
    ensures Parses(Prints(rules), rules)
  {
    forall i | 0 <= i < |rules|
      ensures Prints(rules)[i] != "" && ParseRule(Prints(rules)[i]) == Some(rules[i])
    {
      RuleRoundTrip(rules[i]);
    }
  }

  lemma {:induction false} RulesOfParsed(pieces: seq<string>, rules: seq<Rule>, tail: seq<string>)
    requires Parses(pieces, rules) && (tail == [""] || tail == [])
    ensures AcceptableList(pieces + tail) && RulesOf(pieces + tail) == rules
    decreases |pieces|
  {
    hide ParseRule;
    if pieces == [] {
      NoRules(tail);
      assert pieces + tail == tail && rules == [];
    } else {
      RulesOfParsed(pieces[1..], rules[1..], tail);
      assert pieces + tail == [pieces[0]] + (pieces[1..] + tail);
      FirstRule(pieces[0], pieces[1..] + tail);
      assert rules == [rules[0]] + rules[1..];
    }
  }

  lemma NoRules(tail: seq<string>)
    requires tail == [""] || tail == []
    ensures AcceptableList(tail) && RulesOf(tail) == []
  {
  }

  lemma {:induction false} FirstRule(first: string, rest: seq<string>)
    requires AcceptableRule(first) && AcceptableList(rest)
    ensures AcceptableList([first] + rest) && RulesOf([first] + rest) == [ParseRule(first).value] + RulesOf(rest)
  {
    hide ParseRule;
    var pieces := [first] + rest;
    assert pieces[1..] == rest;
    assert forall i :: 0 < i < |pieces| ==> pieces[i] == rest[i - 1];
  }

  /** Printing any list of well-formed rules, with any separators, and parsing it gives the list back. */
  lemma {:induction false} RoundTrip(rules: seq<Rule>, seps: string)
    requires AllWellFormed(rules) && AllIn(seps, SEPARATORS)
    requires |rules| - 1 <= |seps| <= |rules|
    ensures ParseRules(PrintRules(rules, seps)) == Some(rules)
  {
    forall i | 0 <= i < |rules|
      ensures forall j :: 0 <= j < |Prints(rules)[i]| ==> Prints(rules)[i][j] !in SEPARATORS
    {
      PrintedHasNoSeparator(rules[i]);
    }
    SplitInterleaved(Prints(rules), seps);
    PrintsParse(rules);
    RulesOfParsed(Prints(rules), rules, if |seps| == |rules| then [""] else []);
  }

  /** So every accepted specification has a canonical form with the same rules. */
  lemma {:induction false} Canonical(s: string, seps: string)
    requires ParseRules(s).Some? && AllIn(seps, SEPARATORS)
    requires var rules := ParseRules(s).value; |rules| - 1 <= |seps| <= |rules|
    ensures AllWellFormed(ParseRules(s).value)
    ensures ParseRules(PrintRules(ParseRules(s).value, seps)) == ParseRules(s)
  {
    RulesWellFormed(Split(s, SEPARATORS));
    RoundTrip(ParseRules(s).value, seps);
  }
}
