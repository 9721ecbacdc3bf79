/**
 src/permchain.c on values: what a rule is, what a chain of rules does to a mode,
 and what that means for each class of user and each permission.
 */
module PermRules {

  /**
   mode_t: permission bits, set-id and sticky bits, and the file type above them.
   The octal constants of the C code, in hexadecimal:
     0777 = 0x1FF, 0700 = 0x1C0, 0070 = 0x38, 0007 = 7,
     0444 = 0x124, 0222 = 0x92, 0111 = 0x49, S_IFMT = 0xF000, S_IFDIR = 0x4000.
   */
  type Mode = bv32

  const OPERANDS: set<char> := {'r', 'w', 'x', 'X', 'D', 's', 't', 'u', 'g', 'o'}

  /**
   One rule.  What `op` may be, and which of the last two fields goes with it, is
   part of `WellFormed`.
   */
  datatype Rule = Rule(op: char, onFiles: bool, onDirs: bool, mask: Mode, operands: string, octal: nat)

  /** The rule a freshly created chain starts with. */
  const NOTHING: Rule := Rule('\0', true, true, 0, "", 0)

  predicate NoDuplicates(s: string) {
    forall i, j :: 0 <= i < j < |s| ==> s[i] != s[j]
  }

  /** A mask made of whole classes: any union of 0700, 0070 and 0007. */
  predicate ClassMask(m: Mode) {
    && m & !0x1FF == 0
    && (m & 0x1C0 == 0 || m & 0x1C0 == 0x1C0)
    && (m & 0x38 == 0 || m & 0x38 == 0x38)
    && (m & 7 == 0 || m & 7 == 7)
  }

  /** What every rule that comes out of the parser looks like. */
  predicate WellFormed(r: Rule) {
    && (r.onFiles || r.onDirs)
    && ClassMask(r.mask)
    && match r.op {
         case '=' | '+' | '-' => r.octal == 0 && NoDuplicates(r.operands) && forall c :: c in r.operands ==> c in OPERANDS
         case 'o' => r.octal <= 511 && r.operands == "" && r.mask == 0x1FF && r.onFiles && r.onDirs
         case '\0' => r.octal == 0 && r.operands == ""
         case _ => false
       }
  }

  ghost predicate AllWellFormed(rules: seq<Rule>) {
    forall i :: 0 <= i < |rules| ==> WellFormed(rules[i])
  }

  // ----- Applying rules

  predicate IsDir(m: Mode) {
    m & 0xF000 == 0x4000
  }

  /** The permissions of one class, given to all three. */
  function ModebitsToAll(perms: Mode): (m: Mode) {
    perms | (perms << 3) | (perms << 6)
  }

  /** The bits one operand stands for; `original` is the mode before the whole chain. */
  function OperandBits(c: char, original: Mode): Mode {
    match c
    case 'r' => 0x124
    case 'w' => 0x92
    case 'x' => 0x49
    case 'X' => if IsDir(original) || original & 0x49 != 0 then 0x49 else 0
    case 'D' => if IsDir(original) then 0x49 else 0
    case 'u' => ModebitsToAll((original & 0x1C0) >> 6)
    case 'g' => ModebitsToAll((original & 0x38) >> 3)
    case 'o' => ModebitsToAll(original & 7)
    case _ => 0 // 's' and 't' are ignored
  }

  function OperandsBits(operands: string, original: Mode): Mode {
    if operands == "" then 0
    else OperandsBits(operands[..|operands| - 1], original) | OperandBits(operands[|operands| - 1], original)
  }

  function Digit(d: nat): Mode {
    match d
    case 1 => 1
    case 2 => 2
    case 3 => 3
    case 4 => 4
    case 5 => 5
    case 6 => 6
    case 7 => 7
    case _ => 0
  }

  /** An octal number of at most three digits as mode bits. */
  function OctalMode(v: nat): Mode {
    (Digit(v / 64) << 6) | (Digit(v / 8 % 8) << 3) | Digit(v % 8)
  }

  predicate Applies(r: Rule, target: Mode) {
    r.op != '\0' && if IsDir(target) then r.onDirs else r.onFiles
  }

  /** What an operator does to the target, given the word its operands stand for. */
  function Combine(op: char, mask: Mode, bits: Mode, octal: Mode, target: Mode): Mode {
    match op
    case '=' => (target & !mask) | (bits & mask)
    case '+' => target | (bits & mask)
    case '-' => target & (!0x1FF | !(bits & mask))
    case _ => (target & !0x1FF) | octal
  }

  /** One round of the permchain_apply loop. */
  function ApplyRule(r: Rule, original: Mode, target: Mode): Mode {
    if !Applies(r, target) then target
    else Combine(r.op, r.mask, OperandsBits(r.operands, original), OctalMode(r.octal), target)
  }

  function ApplyFrom(rules: seq<Rule>, original: Mode, target: Mode): Mode
    decreases |rules|
  {
    if rules == [] then target
    else
      var n := |rules| - 1;
      ApplyRule(rules[n], original, ApplyFrom(rules[..n], original, target))
  }

  /** permchain_apply. */
  function Apply(rules: seq<Rule>, mode: Mode): Mode {
    ApplyFrom(rules, mode, mode)
  }

  // ----- Meaning, class by class

  datatype Class = User | Group | Other

  /** The permissions of one class: 4 read, 2 write, 1 execute. */
  function Triad(m: Mode, who: Class): Mode {
    match who
    case User => (m >> 6) & 7
    case Group => (m >> 3) & 7
    case Other => m & 7
  }

  /** The permissions an operand names, as the manual page describes it. */
  function Named(c: char, original: Mode): Mode {
    match c
    case 'r' => 4
    case 'w' => 2
    case 'x' => 1
    case 'X' => if original & 0xF000 == 0x4000 || SomeoneExecutes(original) then 1 else 0
    case 'D' => if original & 0xF000 == 0x4000 then 1 else 0
    case 'u' => Triad(original, User)
    case 'g' => Triad(original, Group)
    case 'o' => Triad(original, Other)
    case _ => 0
  }

  predicate SomeoneExecutes(m: Mode) {
    Triad(m, User) & 1 != 0 || Triad(m, Group) & 1 != 0 || Triad(m, Other) & 1 != 0
  }

  function NamedByAny(operands: string, original: Mode): Mode {
    if operands == "" then 0
    else NamedByAny(operands[..|operands| - 1], original) | Named(operands[|operands| - 1], original)
  }

  /** Is the class on the left-hand side of the rule? */
  predicate Covers(mask: Mode, who: Class) {
    Triad(mask, who) != 0
  }

  /**
   The permissions a rule leaves to a class that had `before`, when its operands
   name the permissions `named` and its octal digit for the class is `digit`.
   */
  function Outcome(op: char, covered: bool, named: Mode, digit: Mode, before: Mode): Mode {
    match op
    case '=' => if covered then named else before
    case '+' => if covered then before | named else before
    case '-' => if covered then before & !named else before
    case _ => digit
  }

  function OctalDigit(v: nat, who: Class): Mode {
    match who case User => Digit(v / 64) case Group => Digit(v / 8 % 8) case Other => Digit(v % 8)
  }

  lemma {:induction false} TriadUnion(a: Mode, b: Mode, who: Class)
    ensures Triad(a | b, who) == Triad(a, who) | Triad(b, who)
  {
    match who { case User => case Group => case Other => }
  }

  lemma {:induction false} TriadAssign(mask: Mode, bits: Mode, target: Mode, who: Class)
    requires ClassMask(mask)
    ensures Triad((target & !mask) | (bits & mask), who) == if Covers(mask, who) then Triad(bits, who) else Triad(target, who)
  {
    match who { case User => case Group => case Other => }
  }

  lemma {:induction false} TriadAdd(mask: Mode, bits: Mode, target: Mode, who: Class)
    requires ClassMask(mask)
    ensures Triad(target | (bits & mask), who) ==
            if Covers(mask, who) then Triad(target, who) | Triad(bits, who) else Triad(target, who)
  {
    match who { case User => case Group => case Other => }
  }

  lemma {:induction false} TriadClear(mask: Mode, bits: Mode, target: Mode, who: Class)
    requires ClassMask(mask)
    ensures Triad(target & !(bits & mask), who) ==
            if Covers(mask, who) then Triad(target, who) & !Triad(bits, who) else Triad(target, who)
  {
    match who { case User => case Group => case Other => }
  }

  lemma {:induction false} TriadRemove(mask: Mode, bits: Mode, target: Mode, who: Class)
    requires ClassMask(mask)
    ensures Triad(target & (!0x1FF | !(bits & mask)), who) ==
            if Covers(mask, who) then Triad(target, who) & !Triad(bits, who) else Triad(target, who)
  {
    hide Triad, Covers;
    StepRemoves(target, bits, mask);
    TriadClear(mask, bits, target, who);
  }

  lemma {:induction false} TriadReplace(octal: Mode, target: Mode, who: Class)
    ensures Triad((target & !0x1FF) | octal, who) == Triad(octal, who)
  {
    match who { case User => case Group => case Other => }
  }

  lemma {:induction false} TriadSpread(perms: Mode, who: Class)
    requires perms & !7 == 0
    ensures Triad(ModebitsToAll(perms), who) == perms
  {
    match who { case User => case Group => case Other => }
  }

  lemma {:induction false} TriadOctal(u: Mode, g: Mode, o: Mode, who: Class)
    requires u & !7 == 0 && g & !7 == 0 && o & !7 == 0
    ensures Triad((u << 6) | (g << 3) | o, who) == match who case User => u case Group => g case Other => o
  {
    match who { case User => case Group => case Other => }
  }

  lemma {:induction false} CopyMeaning(original: Mode, from: Class, who: Class)
    ensures Triad(ModebitsToAll(Triad(original, from)), who) == Triad(original, from)
  {
    TriadIsSmall(original, from);
    TriadSpread(Triad(original, from), who);
  }

  lemma {:induction false} TriadIsSmall(m: Mode, who: Class)
    ensures Triad(m, who) & !7 == 0
  {
    match who { case User => case Group => case Other => }
  }

  lemma CopiedTriad(m: Mode)
    ensures (m & 0x1C0) >> 6 == (m >> 6) & 7 && (m & 0x38) >> 3 == (m >> 3) & 7
  {
  }

  lemma ExecuteBits(m: Mode)
    ensures m & 0x49 != 0 <==> SomeoneExecutes(m)
  {
  }

  lemma {:induction false} LetterMeaning(c: char, original: Mode, who: Class)
    requires c !in {'u', 'g', 'o'}
    ensures Triad(OperandBits(c, original), who) == Named(c, original)
  {
    ExecuteBits(original);
    hide SomeoneExecutes;
    match who { case User => case Group => case Other => }
  }

  lemma {:induction false} OperandMeaning(c: char, original: Mode, who: Class)
    ensures Triad(OperandBits(c, original), who) == Named(c, original)
  {
    CopiedTriad(original);
    if c == 'u' {
      CopyMeaning(original, User, who);
    } else if c == 'g' {
      CopyMeaning(original, Group, who);
    } else if c == 'o' {
      CopyMeaning(original, Other, who);
    } else {
      LetterMeaning(c, original, who);
    }
  }

  lemma {:induction false} OperandsMeaning(operands: string, original: Mode, who: Class)
    ensures Triad(OperandsBits(operands, original), who) == NamedByAny(operands, original)
    decreases |operands|
  {
    if operands != "" {
      var init, last := operands[..|operands| - 1], operands[|operands| - 1];
      OperandsMeaning(init, original, who);
      OperandMeaning(last, original, who);
      TriadUnion(OperandsBits(init, original), OperandBits(last, original), who);
    }
  }

  /** The bits of an octal digit are its value. */
  lemma DigitIsValue(d: nat)
    requires d < 8
    ensures Digit(d) as int == d
  {
    assert d == 0 || d == 1 || d == 2 || d == 3 || d == 4 || d == 5 || d == 6 || d == 7;
  }

  lemma DigitIsTriad(d: nat)
    ensures Digit(d) & !7 == 0
  {
  }

  lemma {:induction false} OctalMeaning(v: nat, who: Class)
    ensures Triad(OctalMode(v), who) == OctalDigit(v, who)
  {
    DigitIsTriad(v / 64);
    DigitIsTriad(v / 8 % 8);
    DigitIsTriad(v % 8);
    TriadOctal(Digit(v / 64), Digit(v / 8 % 8), Digit(v % 8), who);
  }

  /** An octal number gives each class its digit. */
  lemma {:induction false} OctalTriads(v: nat, who: Class)
    requires v <= 0x1FF
    ensures Triad(OctalMode(v), who) as int == match who case User => v / 64 case Group => v / 8 % 8 case Other => v % 8
  {
    OctalMeaning(v, who);
    hide OctalMode, Triad, Digit;
    DigitIsValue(v / 64);
    DigitIsValue(v / 8 % 8);
    DigitIsValue(v % 8);
  }

  lemma {:induction false} CombineAssign(mask: Mode, bits: Mode, octal: Mode, target: Mode, who: Class)
    requires ClassMask(mask)
    ensures Triad(Combine('=', mask, bits, octal, target), who) ==
            Outcome('=', Covers(mask, who), Triad(bits, who), Triad(octal, who), Triad(target, who))
  {
    TriadAssign(mask, bits, target, who);
  }

  lemma {:induction false} CombineAdd(mask: Mode, bits: Mode, octal: Mode, target: Mode, who: Class)
    requires ClassMask(mask)
    ensures Triad(Combine('+', mask, bits, octal, target), who) ==
            Outcome('+', Covers(mask, who), Triad(bits, who), Triad(octal, who), Triad(target, who))
  {
    TriadAdd(mask, bits, target, who);
  }

  lemma {:induction false} CombineRemove(mask: Mode, bits: Mode, octal: Mode, target: Mode, who: Class)
    requires ClassMask(mask)
    ensures Triad(Combine('-', mask, bits, octal, target), who) ==
            Outcome('-', Covers(mask, who), Triad(bits, who), Triad(octal, who), Triad(target, who))
  {
    TriadRemove(mask, bits, target, who);
  }

  lemma {:induction false} CombineReplace(mask: Mode, bits: Mode, octal: Mode, target: Mode, who: Class)
    requires ClassMask(mask)
    ensures Triad(Combine('o', mask, bits, octal, target), who) ==
            Outcome('o', Covers(mask, who), Triad(bits, who), Triad(octal, who), Triad(target, who))
  {
    TriadReplace(octal, target, who);
  }

  lemma {:induction false} CombineMeaning(op: char, mask: Mode, bits: Mode, octal: Mode, target: Mode, who: Class)
    requires ClassMask(mask) && op in {'=', '+', '-', 'o'}
    ensures Triad(Combine(op, mask, bits, octal, target), who) ==
            Outcome(op, Covers(mask, who), Triad(bits, who), Triad(octal, who), Triad(target, who))
  {
    if op == '=' {
      CombineAssign(mask, bits, octal, target, who);
    } else if op == '+' {
      CombineAdd(mask, bits, octal, target, who);
    } else if op == '-' {
      CombineRemove(mask, bits, octal, target, who);
    } else {
      CombineReplace(mask, bits, octal, target, who);
    }
  }

  /**
   The interpreter does what the rule says: every class is left with exactly the
   permissions the manual page describes, and a rule without an operator, or for the
   other kind of file, leaves them alone.
   */
  lemma {:induction false} RuleMeaning(r: Rule, original: Mode, target: Mode, who: Class)
    requires WellFormed(r)
    ensures Triad(ApplyRule(r, original, target), who) ==
            if r.op == '\0' || (if target & 0xF000 == 0x4000 then !r.onDirs else !r.onFiles) then Triad(target, who)
            else Outcome(r.op, Covers(r.mask, who), NamedByAny(r.operands, original), OctalDigit(r.octal, who), Triad(target, who))
  {
    hide *;
    WhenApplied(r, original, target);
    KnownRule(r);
    if Applies(r, target) {
      OperandsMeaning(r.operands, original, who);
      OctalMeaning(r.octal, who);
      CombineMeaning(r.op, r.mask, OperandsBits(r.operands, original), OctalMode(r.octal), target, who);
    }
  }

  lemma WhenApplied(r: Rule, original: Mode, target: Mode)
    ensures Applies(r, target) <==> !(r.op == '\0' || (if target & 0xF000 == 0x4000 then !r.onDirs else !r.onFiles))
    ensures ApplyRule(r, original, target) ==
            if !Applies(r, target) then target
            else Combine(r.op, r.mask, OperandsBits(r.operands, original), OctalMode(r.octal), target)
  {
    hide OperandsBits, OctalMode, Combine;
  }

  lemma KnownRule(r: Rule)
    requires WellFormed(r)
    ensures ClassMask(r.mask) && (r.op == '\0' || r.op in {'=', '+', '-', 'o'})
  {
    hide ClassMask;
  }

  // ----- A whole chain is one mask step

  /** "Clear these bits, then set those." */
  datatype Masks = Masks(clear: Mode, bits: Mode)

  function Step(k: Masks, target: Mode): Mode {
    (target & !k.clear) | k.bits
  }

  function Then(a: Masks, b: Masks): Masks {
    Masks(a.clear | b.clear, (a.bits & !b.clear) | b.bits)
  }

  predicate WithinPerms(k: Masks) {
    k.clear & !0x1FF == 0 && k.bits & !0x1FF == 0
  }

  function OpMasks(op: char, mask: Mode, bits: Mode, octal: Mode): Masks {
    match op
    case '=' => Masks(mask, bits & mask)
    case '+' => Masks(0, bits & mask)
    case '-' => Masks(bits & mask, 0)
    case _ => Masks(0x1FF, octal)
  }

  function RuleMasks(r: Rule, original: Mode): Masks {
    if !Applies(r, original) then Masks(0, 0)
    else OpMasks(r.op, r.mask, OperandsBits(r.operands, original), OctalMode(r.octal))
  }

  function ChainMasks(rules: seq<Rule>, original: Mode): Masks
    decreases |rules|
  {
    if rules == [] then Masks(0, 0)
    else
      var n := |rules| - 1;
      Then(ChainMasks(rules[..n], original), RuleMasks(rules[n], original))
  }

  lemma TwoSteps(t: Mode, c: Mode, s: Mode, c': Mode, s': Mode)
    ensures (t & !(c | c')) | ((s & !c') | s') == (((t & !c) | s) & !c') | s'
  {
  }

  lemma ThenStep(a: Masks, b: Masks, target: Mode)
    ensures Step(Then(a, b), target) == Step(b, Step(a, target))
  {
    TwoSteps(target, a.clear, a.bits, b.clear, b.bits);
  }

  lemma WithinBoth(x: Mode, y: Mode, z: Mode)
    requires x & !0x1FF == 0 && y & !0x1FF == 0
    ensures (x | y) & !0x1FF == 0 && (x & z) & !0x1FF == 0
  {
  }

  lemma ThenWithinPerms(a: Masks, b: Masks)
    requires WithinPerms(a) && WithinPerms(b)
    ensures WithinPerms(Then(a, b))
  {
    WithinBoth(a.clear, b.clear, 0);
    WithinBoth(a.bits, b.bits, !b.clear);
    WithinBoth(a.bits & !b.clear, b.bits, 0);
  }

  lemma ThenAssociative(a: Masks, b: Masks, c: Masks)
    ensures Then(Then(a, b), c) == Then(a, Then(b, c))
  {
  }

  lemma StepIdempotent(k: Masks, target: Mode)
    ensures Step(k, Step(k, target)) == Step(k, target)
  {
  }

  lemma StepKeepsTheRest(k: Masks, target: Mode)
    requires WithinPerms(k)
    ensures Step(k, target) & !0x1FF == target & !0x1FF
    ensures IsDir(Step(k, target)) == IsDir(target)
  {
  }

  lemma AssignIsStep(mask: Mode, bits: Mode, octal: Mode, target: Mode)
    ensures Combine('=', mask, bits, octal, target) == Step(OpMasks('=', mask, bits, octal), target)
  {
  }

  lemma AddIsStep(mask: Mode, bits: Mode, octal: Mode, target: Mode)
    ensures Combine('+', mask, bits, octal, target) == Step(OpMasks('+', mask, bits, octal), target)
  {
    StepAdds(target, bits & mask);
  }

  lemma RemoveIsStep(mask: Mode, bits: Mode, octal: Mode, target: Mode)
    requires target & (!0x1FF | !(bits & mask)) == target & !(bits & mask)
    ensures Combine('-', mask, bits, octal, target) == Step(OpMasks('-', mask, bits, octal), target)
  {
    StepClears(target, bits & mask);
    assert Combine('-', mask, bits, octal, target) == target & !(bits & mask);
    assert OpMasks('-', mask, bits, octal) == Masks(bits & mask, 0);
  }

  lemma ReplaceIsStep(mask: Mode, bits: Mode, octal: Mode, target: Mode)
    ensures Combine('o', mask, bits, octal, target) == Step(OpMasks('o', mask, bits, octal), target)
  {
  }

  lemma CombineIsStep(op: char, mask: Mode, bits: Mode, octal: Mode, target: Mode)
    requires mask & !0x1FF == 0 && op in {'=', '+', '-', 'o'}
    ensures Combine(op, mask, bits, octal, target) == Step(OpMasks(op, mask, bits, octal), target)
  {
    if op == '=' {
      AssignIsStep(mask, bits, octal, target);
    } else if op == '+' {
      AddIsStep(mask, bits, octal, target);
    } else if op == '-' {
      StepRemoves(target, bits, mask);
      RemoveIsStep(mask, bits, octal, target);
    } else {
      ReplaceIsStep(mask, bits, octal, target);
    }
  }

  lemma OpWithinPerms(op: char, mask: Mode, bits: Mode, octal: Mode)
    requires mask & !0x1FF == 0 && octal & !0x1FF == 0
    ensures WithinPerms(OpMasks(op, mask, bits, octal))
  {
    MeetWithin(bits, mask);
  }

  lemma MeetWithin(bits: Mode, mask: Mode)
    requires mask & !0x1FF == 0
    ensures (bits & mask) & !0x1FF == 0
  {
  }

  lemma StepAdds(target: Mode, w: Mode)
    ensures target | w == (target & !0) | w
  {
  }

  lemma StepClears(target: Mode, w: Mode)
    ensures Step(Masks(w, 0), target) == target & !w
  {
  }

  lemma StepRemoves(target: Mode, bits: Mode, mask: Mode)
    requires mask & !0x1FF == 0
    ensures target & (!0x1FF | !(bits & mask)) == target & !(bits & mask)
  {
  }

  lemma OctalWithinPerms(v: nat)
    ensures OctalMode(v) & !0x1FF == 0
  {
    DigitIsTriad(v / 64);
    DigitIsTriad(v / 8 % 8);
    DigitIsTriad(v % 8);
    ThreeDigits(Digit(v / 64), Digit(v / 8 % 8), Digit(v % 8));
  }

  lemma ThreeDigits(u: Mode, g: Mode, o: Mode)
    requires u & !7 == 0 && g & !7 == 0 && o & !7 == 0
    ensures ((u << 6) | (g << 3) | o) & !0x1FF == 0
  {
  }

  lemma {:induction false} RuleIsStep(r: Rule, original: Mode, target: Mode)
    requires WellFormed(r) && IsDir(original) == IsDir(target)
    ensures ApplyRule(r, original, target) == Step(RuleMasks(r, original), target)
    ensures WithinPerms(RuleMasks(r, original))
  {
    if Applies(r, original) {
      OctalWithinPerms(r.octal);
      CombineIsStep(r.op, r.mask, OperandsBits(r.operands, original), OctalMode(r.octal), target);
      OpWithinPerms(r.op, r.mask, OperandsBits(r.operands, original), OctalMode(r.octal));
    }
  }

  /**
   The loop over a chain equals a single mask step, whose masks depend only on the
   rules and the original mode and lie within 0777.
   */
  lemma {:induction false} ChainIsOneStep(rules: seq<Rule>, original: Mode, target: Mode)
    requires AllWellFormed(rules) && IsDir(original) == IsDir(target)
    ensures ApplyFrom(rules, original, target) == Step(ChainMasks(rules, original), target)
    ensures WithinPerms(ChainMasks(rules, original))
    decreases |rules|
  {
    if rules != [] {
      var n := |rules| - 1;
      var before := ApplyFrom(rules[..n], original, target);
      ChainIsOneStep(rules[..n], original, target);
      StepKeepsTheRest(ChainMasks(rules[..n], original), target);
      RuleIsStep(rules[n], original, before);
      ThenStep(ChainMasks(rules[..n], original), RuleMasks(rules[n], original), target);
      ThenWithinPerms(ChainMasks(rules[..n], original), RuleMasks(rules[n], original));
    }
  }

  /** No chain changes a bit outside 0777, so the directory test is stable along it. */
  lemma {:induction false} ApplyKeepsTheRest(rules: seq<Rule>, mode: Mode)
    requires AllWellFormed(rules)
    ensures Apply(rules, mode) & !0x1FF == mode & !0x1FF
    ensures IsDir(Apply(rules, mode)) == IsDir(mode)
  {
    var k := ChainMasks(rules, mode);
    ChainIsOneStep(rules, mode, mode);
    assert Apply(rules, mode) == Step(k, mode);
    StepKeepsTheRest(k, mode);
  }

  /** What a whole chain leaves to a class, rule by rule, in words of the manual page. */
  function Meaning(rules: seq<Rule>, original: Mode, who: Class): Mode
    decreases |rules|
  {
    if rules == [] then Triad(original, who)
    else
      var n := |rules| - 1;
      var r, before := rules[n], Meaning(rules[..n], original, who);
      if r.op == '\0' || (if original & 0xF000 == 0x4000 then !r.onDirs else !r.onFiles) then before
      else Outcome(r.op, Covers(r.mask, who), NamedByAny(r.operands, original), OctalDigit(r.octal, who), before)
  }

  /** Running a chain over the bits of a mode gives every class what the chain means for it. */
  lemma {:induction false} ChainMeaning(rules: seq<Rule>, original: Mode, who: Class)
    requires AllWellFormed(rules)
    ensures Triad(Apply(rules, original), who) == Meaning(rules, original, who)
    decreases |rules|
  {
    hide Triad, Outcome, NamedByAny, OctalDigit, Covers, ApplyRule, WellFormed;
    if rules != [] {
      var n := |rules| - 1;
      var before := Apply(rules[..n], original);
      ChainMeaning(rules[..n], original, who);
      ApplyKeepsTheRest(rules[..n], original);
      RuleMeaning(rules[n], original, before, who);
    }
  }

  /** Masks compose along permchain_cat. */
  lemma {:induction false} MasksCompose(a: seq<Rule>, b: seq<Rule>, original: Mode)
    ensures ChainMasks(a + b, original) == Then(ChainMasks(a, original), ChainMasks(b, original))
    decreases |b|
  {
    if b == [] {
      assert a + b == a;
      ThenNothing(ChainMasks(a, original));
    } else {
      var n := |b| - 1;
      MasksCompose(a, b[..n], original);
      assert (a + b)[..|a + b| - 1] == a + b[..n];
      ThenAssociative(ChainMasks(a, original), ChainMasks(b[..n], original), RuleMasks(b[n], original));
    }
  }

  lemma ThenNothing(k: Masks)
    ensures Then(k, Masks(0, 0)) == k
  {
  }

  // ----- Which bits of the original mode a chain looks at

  function OperandReads(c: char): Mode {
    match c
    case 'X' => 0x49
    case 'u' => 0x1C0
    case 'g' => 0x38
    case 'o' => 7
    case _ => 0
  }

  /** Two modes of the same file kind that agree on the given bits. */
  predicate Agree(m: Mode, n: Mode, bits: Mode) {
    IsDir(m) == IsDir(n) && (m ^ n) & bits == 0
  }

  lemma OperandAgrees(c: char, m: Mode, n: Mode)
    requires Agree(m, n, OperandReads(c))
    ensures OperandBits(c, m) == OperandBits(c, n)
  {
    if c == 'X' {
      assert m & 0x49 == n & 0x49;
    } else if c == 'u' {
      assert m & 0x1C0 == n & 0x1C0;
    } else if c == 'g' {
      assert m & 0x38 == n & 0x38;
    } else if c == 'o' {
      assert m & 7 == n & 7;
    }
  }

  /** The operands of a chain stand for the same bits, whichever of the two is the original mode. */
  ghost predicate ReadsAlike(rules: seq<Rule>, m: Mode, n: Mode) {
    forall i, c :: 0 <= i < |rules| && c in rules[i].operands ==> OperandBits(c, m) == OperandBits(c, n)
  }

  lemma {:induction false} OperandsAlike(operands: string, m: Mode, n: Mode)
    requires forall c :: c in operands ==> OperandBits(c, m) == OperandBits(c, n)
    ensures OperandsBits(operands, m) == OperandsBits(operands, n)
    decreases |operands|
  {
    if operands != "" {
      OperandsAlike(operands[..|operands| - 1], m, n);
    }
  }

  lemma {:induction false} MasksAlike(rules: seq<Rule>, m: Mode, n: Mode)
    requires IsDir(m) == IsDir(n) && ReadsAlike(rules, m, n)
    ensures ChainMasks(rules, m) == ChainMasks(rules, n)
    decreases |rules|
  {
    hide OperandBits, IsDir;
    if rules != [] {
      var last := rules[|rules| - 1];
      MasksAlike(rules[..|rules| - 1], m, n);
      OperandsAlike(last.operands, m, n);
    }
  }

  /** Running the chain on `m` comes to the same whether its operands are read from `m` or from `n`. */
  predicate SameEffect(rules: seq<Rule>, m: Mode, n: Mode) {
    Step(ChainMasks(rules, m), m) == Step(ChainMasks(rules, n), m)
  }

  /** A chain run on `m` with its operands read from `original`. */
  lemma {:induction false} EffectOf(rules: seq<Rule>, original: Mode, m: Mode)
    requires AllWellFormed(rules) && IsDir(original) == IsDir(m)
    ensures SameEffect(rules, m, original) <==> ApplyFrom(rules, m, m) == ApplyFrom(rules, original, m)
  {
    ChainIsOneStep(rules, original, m);
    ChainIsOneStep(rules, m, m);
  }

  /** The second half of a chain runs on what the first has made of the mode. */
  lemma {:induction false} ApplyConcat(a: seq<Rule>, b: seq<Rule>, mode: Mode)
    requires AllWellFormed(a) && AllWellFormed(b)
    ensures Apply(a + b, mode) == ApplyFrom(b, mode, Apply(a, mode))
  {
    hide WellFormed, IsDir, Step, Then;
    ApplyKeepsTheRest(a, mode);
    ChainIsOneStep(a, mode, mode);
    ChainIsOneStep(b, mode, Apply(a, mode));
    ChainIsOneStep(a + b, mode, mode);
    MasksCompose(a, b, mode);
    ThenStep(ChainMasks(a, mode), ChainMasks(b, mode), mode);
  }

  /**
   When applying a concatenated chain is applying its halves one after the other:
   exactly when the second half, on what the first has made of the mode, comes to the
   same with its operands read from there as with them read from the original mode.
   */
  lemma {:induction false} SequencingIff(a: seq<Rule>, b: seq<Rule>, mode: Mode)
    requires AllWellFormed(a) && AllWellFormed(b)
    ensures Apply(a + b, mode) == Apply(b, Apply(a, mode)) <==> SameEffect(b, Apply(a, mode), mode)
  {
    ApplyKeepsTheRest(a, mode);
    hide *;
    ApplyConcat(a, b, mode);
    EffectOf(b, mode, Apply(a, mode));
    ApplyIsFrom(b, Apply(a, mode));
  }

  lemma ApplyIsFrom(rules: seq<Rule>, mode: Mode)
    ensures Apply(rules, mode) == ApplyFrom(rules, mode, mode)
  {
  }

  lemma {:induction false} AlikeSameEffect(rules: seq<Rule>, m: Mode, n: Mode)
    requires IsDir(m) == IsDir(n) && ReadsAlike(rules, m, n)
    ensures SameEffect(rules, m, n)
  {
    hide *;
    MasksAlike(rules, m, n);
    EqualMasks(rules, m, n);
  }

  lemma EqualMasks(rules: seq<Rule>, m: Mode, n: Mode)
    requires ChainMasks(rules, m) == ChainMasks(rules, n)
    ensures SameEffect(rules, m, n)
  {
  }

  /** So it is, for instance, if the first half does not change what the operands of the second stand for. */
  lemma {:induction false} Sequencing(a: seq<Rule>, b: seq<Rule>, mode: Mode)
    requires AllWellFormed(a) && AllWellFormed(b)
    requires ReadsAlike(b, Apply(a, mode), mode)
    ensures Apply(a + b, mode) == Apply(b, Apply(a, mode))
  {
    hide *;
    ApplyKeepsTheRest(a, mode);
    AlikeSameEffect(b, Apply(a, mode), mode);
    SequencingIff(a, b, mode);
  }

  ghost predicate HasOperand(rules: seq<Rule>, c: char) {
    exists i :: 0 <= i < |rules| && c in rules[i].operands
  }

  /** In particular if it leaves alone the bits they read. */
  lemma {:induction false} SequencingBits(a: seq<Rule>, b: seq<Rule>, mode: Mode)
    requires AllWellFormed(a) && AllWellFormed(b)
    requires var changed := Apply(a, mode) ^ mode;
             && (HasOperand(b, 'X') ==> changed & 0x49 == 0) && (HasOperand(b, 'u') ==> changed & 0x1C0 == 0)
             && (HasOperand(b, 'g') ==> changed & 0x38 == 0) && (HasOperand(b, 'o') ==> changed & 7 == 0)
    ensures Apply(a + b, mode) == Apply(b, Apply(a, mode))
  {
    ApplyKeepsTheRest(a, mode);
    forall i, c | 0 <= i < |b| && c in b[i].operands
      ensures OperandBits(c, Apply(a, mode)) == OperandBits(c, mode)
    {
      assert HasOperand(b, c);
      hide IsDir, Apply;
      ReadsNothingElse(c, Apply(a, mode), mode);
    }
    Sequencing(a, b, mode);
  }

  lemma ReadsNothingElse(c: char, m: Mode, n: Mode)
    requires IsDir(m) == IsDir(n)
    requires c == 'X' ==> (m ^ n) & 0x49 == 0
    requires c == 'u' ==> (m ^ n) & 0x1C0 == 0
    requires c == 'g' ==> (m ^ n) & 0x38 == 0
    requires c == 'o' ==> (m ^ n) & 7 == 0
    ensures OperandBits(c, m) == OperandBits(c, n)
  {
    hide OperandBits, IsDir;
    NoBits(m ^ n);
    OperandAgrees(c, m, n);
  }

  lemma NoBits(m: Mode)
    ensures m & 0 == 0
  {
  }

  /** No operand that looks at permission bits of the original mode. */
  ghost predicate NoPermissionOperands(rules: seq<Rule>) {
    forall i :: 0 <= i < |rules| ==> ReadsNothing(rules[i].operands)
  }

  predicate ReadsNothing(operands: string) {
    'X' !in operands && 'u' !in operands && 'g' !in operands && 'o' !in operands
  }

  lemma {:induction false} NothingReadsAlike(rules: seq<Rule>, m: Mode, n: Mode)
    requires NoPermissionOperands(rules) && IsDir(m) == IsDir(n)
    ensures ReadsAlike(rules, m, n)
  {
    forall i, c | 0 <= i < |rules| && c in rules[i].operands
      ensures OperandBits(c, m) == OperandBits(c, n)
    {
      assert ReadsNothing(rules[i].operands);
    }
  }

  /** Chains built from r, w, x, D, s, t and octal rules need no such proviso. */
  lemma {:induction false} SequencingAlways(a: seq<Rule>, b: seq<Rule>, mode: Mode)
    requires AllWellFormed(a) && AllWellFormed(b) && NoPermissionOperands(b)
    ensures Apply(a + b, mode) == Apply(b, Apply(a, mode))
  {
    ApplyKeepsTheRest(a, mode);
    NothingReadsAlike(b, Apply(a, mode), mode);
    Sequencing(a, b, mode);
  }

  /**
   Where any chain is idempotent: exactly on the modes where running it a second time
   comes to the same with its operands read from its result as with them read from the
   original mode.
   */
  lemma {:induction false} IdempotentIff(rules: seq<Rule>, mode: Mode)
    requires AllWellFormed(rules)
    ensures Apply(rules, Apply(rules, mode)) == Apply(rules, mode) <==> SameEffect(rules, Apply(rules, mode), mode)
  {
    ApplyKeepsTheRest(rules, mode);
    hide *;
    ApplyIsFrom(rules, Apply(rules, mode));
    EffectOf(rules, mode, Apply(rules, mode));
    TwiceFromOriginal(rules, mode);
  }

  /** With the operands still read from the original mode, a second run changes nothing. */
  lemma {:induction false} TwiceFromOriginal(rules: seq<Rule>, mode: Mode)
    requires AllWellFormed(rules)
    ensures ApplyFrom(rules, mode, Apply(rules, mode)) == Apply(rules, mode)
  {
    hide WellFormed, IsDir, Step;
    ApplyKeepsTheRest(rules, mode);
    ChainIsOneStep(rules, mode, mode);
    ChainIsOneStep(rules, mode, Apply(rules, mode));
    StepIdempotent(ChainMasks(rules, mode), mode);
  }

  /** So it is where the chain does not change what its own operands stand for... */
  lemma {:induction false} IdempotentAt(rules: seq<Rule>, mode: Mode)
    requires AllWellFormed(rules) && ReadsAlike(rules, Apply(rules, mode), mode)
    ensures Apply(rules, Apply(rules, mode)) == Apply(rules, mode)
  {
    hide *;
    ApplyKeepsTheRest(rules, mode);
    AlikeSameEffect(rules, Apply(rules, mode), mode);
    IdempotentIff(rules, mode);
  }

  /** ...and without X, u, g and o it is on all of them. */
  lemma {:induction false} Idempotent(rules: seq<Rule>, mode: Mode)
    requires AllWellFormed(rules) && NoPermissionOperands(rules)
    ensures Apply(rules, Apply(rules, mode)) == Apply(rules, mode)
  {
    ApplyKeepsTheRest(rules, mode);
    NothingReadsAlike(rules, Apply(rules, mode), mode);
    IdempotentAt(rules, mode);
  }

  lemma AddingKeepsX(mode: Mode, bits: Mode, mask: Mode)
    requires Executable(mode) || bits == 0
    ensures Executable(mode | (bits & mask)) <==> Executable(mode)
  {
  }

  /** "a+X" is idempotent, too, on files and directories and for any classes. */
  lemma {:induction false} AddXIdempotent(r: Rule, mode: Mode)
    requires WellFormed(r) && r.op == '+' && r.operands == "X"
    ensures Apply([r], Apply([r], mode)) == Apply([r], mode)
  {
    assert AllWellFormed([r]);
    hide *;
    SameX(r, mode);
    OnlyX(r, Apply([r], mode), mode);
    IdempotentAt([r], mode);
  }

  lemma {:induction false} SameX(r: Rule, mode: Mode)
    requires AllWellFormed([r]) && r.op == '+' && r.operands == "X"
    ensures OperandBits('X', Apply([r], mode)) == OperandBits('X', mode)
  {
    hide *;
    ApplyKeepsTheRest([r], mode);
    AddXApplied(r, mode);
    XAlike(Apply([r], mode), mode);
  }

  predicate Executable(m: Mode) {
    m & 0x49 != 0
  }

  lemma XAlike(m: Mode, n: Mode)
    requires IsDir(m) == IsDir(n) && (IsDir(n) || (Executable(m) <==> Executable(n)))
    ensures OperandBits('X', m) == OperandBits('X', n)
  {
  }

  lemma OnlyX(r: Rule, m: Mode, n: Mode)
    requires r.operands == "X" && OperandBits('X', m) == OperandBits('X', n)
    ensures ReadsAlike([r], m, n)
  {
    hide OperandBits;
  }

  lemma {:induction false} AddXApplied(r: Rule, mode: Mode)
    requires r.op == '+' && r.operands == "X"
    ensures IsDir(mode) || (Executable(Apply([r], mode)) <==> Executable(mode))
  {
    ApplyTwo(r, r, mode, mode);
    OneOperand('X', mode);
    if !IsDir(mode) && Applies(r, mode) {
      var bits := OperandBits('X', mode);
      assert Executable(mode) || bits == 0;
      hide *;
      AddingKeepsX(mode, bits, r.mask);
    }
  }

  /** The bits a rule without a number changes are within its mask. */
  lemma CombineWithinMask(op: char, mask: Mode, bits: Mode, octal: Mode, target: Mode, others: Mode)
    requires op in {'=', '+', '-'} && mask & others == 0 && mask & !0x1FF == 0
    ensures (Combine(op, mask, bits, octal, target) ^ target) & others == 0
  {
    if op == '=' {
      AssignWithinMask(mask, bits, target, others);
    } else if op == '+' {
      AddWithinMask(mask, bits, target, others);
    } else {
      StepRemoves(target, bits, mask);
      RemoveWithinMask(mask, bits, target, others);
    }
  }

  lemma AssignWithinMask(mask: Mode, bits: Mode, target: Mode, others: Mode)
    requires mask & others == 0
    ensures (((target & !mask) | (bits & mask)) ^ target) & others == 0
  {
  }

  lemma AddWithinMask(mask: Mode, bits: Mode, target: Mode, others: Mode)
    requires mask & others == 0
    ensures ((target | (bits & mask)) ^ target) & others == 0
  {
  }

  lemma RemoveWithinMask(mask: Mode, bits: Mode, target: Mode, others: Mode)
    requires mask & others == 0
    ensures ((target & !(bits & mask)) ^ target) & others == 0
  {
  }

  /** So is any single rule that copies from classes it does not change, like "u=g". */
  lemma {:induction false} CopyIdempotent(r: Rule, mode: Mode)
    requires WellFormed(r) && r.op in {'=', '+', '-'}
    requires ('X' in r.operands ==> r.mask & 0x49 == 0) && ('u' in r.operands ==> r.mask & 0x1C0 == 0)
    requires ('g' in r.operands ==> r.mask & 0x38 == 0) && ('o' in r.operands ==> r.mask & 7 == 0)
    ensures Apply([r], Apply([r], mode)) == Apply([r], mode)
  {
    assert AllWellFormed([r]);
    ApplyKeepsTheRest([r], mode);
    forall c | c in r.operands
      ensures OperandBits(c, Apply([r], mode)) == OperandBits(c, mode)
    {
      hide Apply, OperandBits, IsDir;
      NoBits(r.mask);
      OutsideMask(r, mode, OperandReads(c));
      OperandAgrees(c, Apply([r], mode), mode);
    }
    hide OperandBits;
    IdempotentAt([r], mode);
  }

  /** A single rule without a number leaves the bits outside its mask alone. */
  lemma {:induction false} OutsideMask(r: Rule, mode: Mode, others: Mode)
    requires WellFormed(r) && r.op in {'=', '+', '-'} && r.mask & others == 0
    ensures (Apply([r], mode) ^ mode) & others == 0
  {
    ApplyTwo(r, r, mode, mode);
    CombineWithinMask(r.op, r.mask, OperandsBits(r.operands, mode), OctalMode(r.octal), mode, others);
    hide WellFormed, Combine, OperandsBits;
    NothingFlipped(mode, others);
  }

  lemma NothingFlipped(mode: Mode, bits: Mode)
    ensures (mode ^ mode) & bits == 0
  {
  }

  // ----- The provisos are needed

  lemma {:induction false} ApplyTwo(a: Rule, b: Rule, original: Mode, target: Mode)
    ensures ApplyFrom([a, b], original, target) == ApplyRule(b, original, ApplyRule(a, original, target))
    ensures ApplyFrom([a], original, target) == ApplyRule(a, original, target)
  {
    assert [a, b][..1] == [a] && [a][..0] == [];
    assert ApplyFrom([], original, target) == target;
  }

  lemma {:induction false} OneOperand(c: char, original: Mode)
    ensures OperandsBits([c], original) == OperandBits(c, original)
  {
    assert [c][..0] == "";
    assert OperandsBits("", original) == 0;
  }

  /** "a+x,a-X" keeps 0644 executable, while "a-X" after "a+x" takes the bits away again. */
  lemma {:induction false} SequencingNeedsProviso()
    ensures var a, b, mode := Rule('+', true, true, 0x1FF, "x", 0), Rule('-', true, true, 0x1FF, "X", 0), 0x1A4;
            Apply([a, b], mode) == 0x1ED && Apply([b], Apply([a], mode)) == 0x1A4
  {
    var a, b, mode: Mode := Rule('+', true, true, 0x1FF, "x", 0), Rule('-', true, true, 0x1FF, "X", 0), 0x1A4;
    ApplyTwo(a, b, mode, mode);
    ApplyTwo(a, b, mode, 0x1ED);
    ApplyTwo(b, b, 0x1ED, 0x1ED);
    OneOperand('x', mode);
    OneOperand('X', mode);
    OneOperand('X', 0x1ED);
  }

  /** "u=g,g=u" swaps two classes: 0640 becomes 0460, and 0640 again. */
  lemma {:induction false} SwapIsNotIdempotent()
    ensures var rules := [Rule('=', true, true, 0x1C0, "g", 0), Rule('=', true, true, 0x38, "u", 0)];
            Apply(rules, 0x1A0) == 0x130 && Apply(rules, 0x130) == 0x1A0
  {
    var a, b := Rule('=', true, true, 0x1C0, "g", 0), Rule('=', true, true, 0x38, "u", 0);
    ApplyTwo(a, b, 0x1A0, 0x1A0);
    ApplyTwo(a, b, 0x130, 0x130);
    OneOperand('g', 0x1A0);
    OneOperand('u', 0x1A0);
    OneOperand('g', 0x130);
    OneOperand('u', 0x130);
  }
}
