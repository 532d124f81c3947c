/** The machine on patched words: where the fixup pass raised no error, a machine that takes its branches from the words
    in the code buffer runs as the one that takes them from the label table. */
module ArmWords {
  import opened ArmMachine
  import opened CText
  import opened Numbers
  import opened Options
  import opened ArmIr
  import opened ArmCodegen
  import opened ArmLayout
  import opened ArmSim
  import ArmBalance
  import ArmCorrect
  import Fixups

  // Words that an instruction takes: a 64-bit immediate is four, everything else is one.
  function Words(ins: MInstr): nat {
    if ins.MovImm? then 4 else 1
  }

  // Where instruction i begins in the buffer; behind the code, one word for each step.
  function Offset(code: seq<MInstr>, i: nat): nat {
    if i == 0 then 0 else Offset(code, i - 1) + 4 * (if i <= |code| then Words(code[i - 1]) else 1)
  }

  lemma {:induction false} OffsetRises(code: seq<MInstr>, i: nat, j: nat)
    requires i < j
    ensures Offset(code, i) < Offset(code, j)
    decreases j
  {
    if i < j - 1 {
      OffsetRises(code, i, j - 1);
    }
  }

  ghost function InstrAt(code: seq<MInstr>, target: int): nat {
    if i: nat :| Offset(code, i) == target then i else 0
  }

  lemma InstrAtOffset(code: seq<MInstr>, i: nat)
    ensures InstrAt(code, Offset(code, i)) == i
  {
    var j := InstrAt(code, Offset(code, i));
    assert Offset(code, i) == Offset(code, i);
    if j < i {
      OffsetRises(code, j, i);
    } else if i < j {
      OffsetRises(code, i, j);
    }
  }

  function ByteLabels(img: Image): map<int, nat> {
    map l | l in img.labels :: Offset(img.code, img.labels[l])
  }

  function CondCode(c: Cond): nat {
    match c
    case EQ => 0
    case NE => 1
    case GE => 10
    case LT => 11
    case GT => 12
    case LE => 13
  }

  predicate IsBranch(ins: MInstr) {
    ins.B? || ins.Cbz? || ins.Cbnz? || ins.BCond?
  }

  // The fixup that the emitter notes for a branch.
  function FixOf(img: Image, i: nat): Fixups.Fix
    requires i < |img.code| && IsBranch(img.code[i])
  {
    var at := Offset(img.code, i);
    match img.code[i]
    case B(l) => Fixups.Fix(at, l, Fixups.B, 0, 0)
    case Cbz(n, l) => Fixups.Fix(at, l, Fixups.CBZ, 0, n)
    case Cbnz(n, l) => Fixups.Fix(at, l, Fixups.CBNZ, 0, n)
    case BCond(c, l) => Fixups.Fix(at, l, Fixups.BCOND, CondCode(c), 0)
  }

  // What the fixup pass leaves when it raises no error: every branch word reaches its label.
  ghost predicate Patched(img: Image, buf: seq<Byte>) {
    forall i :: 0 <= i < |img.code| && IsBranch(img.code[i]) ==> Fixups.Reaches(buf, FixOf(img, i), ByteLabels(img))
  }

  // The flags that a comparison of a with b leaves (SUBS, section C6.2 of DDI 0487).
  datatype Flags = Flags(n: bool, z: bool, c: bool, v: bool)

  function Compared(a: Word, b: Word): Flags {
    var d := Wrap(a - b);
    Flags(d < 0, d == 0, Unsigned(a) >= Unsigned(b), d != a - b)
  }

  // ConditionHolds of DDI 0487: the upper three bits of the condition choose a test, the lowest one turns it over.
  predicate CondHolds(cond: nat, f: Flags) {
    var test := match cond / 2
      case 0 => f.z
      case 1 => f.c
      case 2 => f.n
      case 3 => f.v
      case 4 => f.c && !f.z
      case 5 => f.n == f.v
      case 6 => f.n == f.v && !f.z
      case _ => true;
    if cond % 2 == 1 && cond != 15 then !test else test
  }

  /** The conditions the emitter uses mean what their codes mean to the processor. */
  lemma ConditionCodes(c: Cond, a: Word, b: Word)
    ensures CondHolds(CondCode(c), Compared(a, b)) <==> Holds(c, a, b)
  {
    assert Compared(a, b).z <==> a == b;
    assert Compared(a, b).n == Compared(a, b).v <==> a >= b;
  }

  predicate Taken(w: Fixups.Meaning, m: Machine) {
    match w
    case Jump(_) => true
    case IfZero(reg, _) => reg < 32 && Get(m, reg) == 0
    case IfNonzero(reg, _) => reg < 32 && Get(m, reg) != 0
    case IfCond(cond, _) => CondHolds(cond, Compared(m.flagA, m.flagB))
    case _ => false
  }

  // One step, with branches taken from the words in the buffer.
  ghost function StepWords(img: Image, buf: seq<Byte>, m: Machine): Machine
    requires !Stopped(img, m)
  {
    var at := Offset(img.code, m.pc);
    if !IsBranch(img.code[m.pc]) then Exec(img, img.code[m.pc], m)
    else if at + 4 > |buf| then m
    else
      var w := Fixups.Decode(Fixups.WordAt(buf, at), at);
      m.(pc := if Taken(w, m) then InstrAt(img.code, w.target) else m.pc + 1)
  }

  ghost function RunWords(img: Image, buf: seq<Byte>, m: Machine, k: nat): Machine
    decreases k
  {
    if k == 0 || Stopped(img, m) then m else RunWords(img, buf, StepWords(img, buf, m), k - 1)
  }

  lemma SameStep(img: Image, buf: seq<Byte>, m: Machine)
    requires Patched(img, buf) && !Stopped(img, m)
    ensures StepWords(img, buf, m) == Step(img, m)
  {
    if IsBranch(img.code[m.pc]) {
      var fx := FixOf(img, m.pc);
      assert Fixups.Reaches(buf, fx, ByteLabels(img));
      assert Fixups.Decode(Fixups.WordAt(buf, fx.at), fx.at) == Fixups.Wanted(fx, ByteLabels(img)[fx.lab]);
      InstrAtOffset(img.code, img.labels[fx.lab]);
      if img.code[m.pc].BCond? {
        ConditionCodes(img.code[m.pc].c, m.flagA, m.flagB);
      }
    }
  }

  /** Every run of the patched words is the run through the label table. */
  lemma {:induction false} SameRuns(img: Image, buf: seq<Byte>, m: Machine, k: nat)
    requires Patched(img, buf)
    ensures RunWords(img, buf, m, k) == Run(img, m, k)
    decreases k
  {
    if k > 0 && !Stopped(img, m) {
      SameStep(img, buf, m);
      SameRuns(img, buf, Step(img, m), k - 1);
    }
  }

  // The fixups of all branches, in the order of the code.
  function AllFixes(img: Image, n: nat): seq<Fixups.Fix>
    requires n <= |img.code|
  {
    if n == 0 then [] else AllFixes(img, n - 1) + if IsBranch(img.code[n - 1]) then [FixOf(img, n - 1)] else []
  }

  lemma {:induction false} FixListed(img: Image, n: nat, i: nat)
    requires i < n <= |img.code| && IsBranch(img.code[i])
    ensures FixOf(img, i) in AllFixes(img, n)
    decreases n
  {
    if i < n - 1 {
      FixListed(img, n - 1, i);
    }
  }

  lemma {:induction false} ListedFrom(img: Image, n: nat, k: nat) returns (i: nat)
    requires n <= |img.code| && k < |AllFixes(img, n)|
    ensures i < n && IsBranch(img.code[i]) && AllFixes(img, n)[k] == FixOf(img, i)
    decreases n
  {
    if k < |AllFixes(img, n - 1)| {
      i := ListedFrom(img, n - 1, k);
    } else {
      i := n - 1;
    }
  }

  // The branch words follow one another.
  lemma {:induction false} FixesPlaced(img: Image, n: nat)
    requires n <= |img.code|
    ensures Fixups.Placed(AllFixes(img, n), Offset(img.code, n))
    decreases n
  {
    if n > 0 {
      FixesPlaced(img, n - 1);
    }
  }

  // The label of branch i is there, less than 128 MB away for a jump and less than 1 MB for the other branches.
  predicate InRange(img: Image, i: nat)
    requires i < |img.code| && IsBranch(img.code[i])
  {
    var l := img.code[i].l;
    l in img.labels &&
    var delta := Offset(img.code, img.labels[l]) - Offset(img.code, i);
    if img.code[i].B? then -0x800_0000 <= delta < 0x800_0000 else -0x10_0000 <= delta < 0x10_0000
  }

  lemma {:induction false} WholeWords(code: seq<MInstr>, i: nat)
    ensures Offset(code, i) % 4 == 0
  {
    if i > 0 {
      WholeWords(code, i - 1);
    }
  }

  lemma GoodFixOf(img: Image, i: nat)
    requires i < |img.code| && IsBranch(img.code[i])
    ensures Fixups.GoodFix(FixOf(img, i)) && FixOf(img, i).kind != Fixups.ADR && FixOf(img, i).lab == img.code[i].l
  {
  }

  // What the pass accepts.
  lemma AcceptedInRange(img: Image, i: nat)
    requires i < |img.code| && IsBranch(img.code[i])
    ensures Fixups.Acceptable(FixOf(img, i), ByteLabels(img)) <==> InRange(img, i)
  {
    var fx := FixOf(img, i);
    GoodFixOf(img, i);
    if fx.lab in img.labels {
      WholeWords(img.code, i);
      WholeWords(img.code, img.labels[fx.lab]);
      Fixups.ReachExactly(fx, Offset(img.code, img.labels[fx.lab]) - fx.at);
    }
  }

  lemma AllInRange(img: Image, fixes: seq<Fixups.Fix>)
    requires fixes == AllFixes(img, |img.code|)
    ensures (forall k :: 0 <= k < |fixes| ==> Fixups.Acceptable(fixes[k], ByteLabels(img))) <==>
      (forall i :: 0 <= i < |img.code| && IsBranch(img.code[i]) ==> InRange(img, i))
  {
    forall i | 0 <= i < |img.code| && IsBranch(img.code[i])
      ensures FixOf(img, i) in fixes && (Fixups.Acceptable(FixOf(img, i), ByteLabels(img)) <==> InRange(img, i))
    {
      FixListed(img, |img.code|, i);
      AcceptedInRange(img, i);
    }
    forall k | 0 <= k < |fixes|
      ensures exists i :: 0 <= i < |img.code| && IsBranch(img.code[i]) && fixes[k] == FixOf(img, i)
    {
      var i := ListedFrom(img, |img.code|, k);
    }
  }

  /** The pass itself, over the branches of an image: it raises no error exactly when every label is there and near
      enough, and then the words run as the labels say. */
  method PatchBranches(img: Image, buf: array<Byte>) returns (error: Option<Fixups.Error>)
    requires buf.Length == Offset(img.code, |img.code|) < 0x2_0000_0000
    requires forall l :: l in img.labels ==> img.labels[l] <= |img.code|
    modifies buf
    ensures error.None? <==> forall i :: 0 <= i < |img.code| && IsBranch(img.code[i]) ==> InRange(img, i)
    ensures error.None? ==> Patched(img, buf[..]) && forall m, k: nat :: RunWords(img, buf[..], m, k) == Run(img, m, k)
  {
    FixesPlaced(img, |img.code|);
    AllInRange(img, AllFixes(img, |img.code|));
    forall l | l in img.labels ensures ByteLabels(img)[l] <= buf.Length {
      if img.labels[l] < |img.code| {
        OffsetRises(img.code, img.labels[l], |img.code|);
      }
    }
    error := Fixups.ResolveFixups(buf, AllFixes(img, |img.code|), ByteLabels(img));
    if error.None? {
      forall i | 0 <= i < |img.code| && IsBranch(img.code[i])
        ensures Fixups.Reaches(buf[..], FixOf(img, i), ByteLabels(img))
      {
        FixListed(img, |img.code|, i);
      }
      forall m, k: nat ensures RunWords(img, buf[..], m, k) == Run(img, m, k) {
        SameRuns(img, buf[..], m, k);
      }
    }
  }

  // ---- The labels of compiled code lie inside it ----

  ghost predicate LabelsIn(g: Gen) {
    forall l :: l in g.labels ==> g.labels[l] <= |g.code|
  }

  lemma GrownIn(g: Gen, h: Gen)
    requires LabelsIn(g) && h.labels == g.labels && |g.code| <= |h.code|
    ensures LabelsIn(h)
  {
  }

  lemma LoadIn(g: Gen, e: set<int>, o: Operand, d: Reg)
    requires LabelsIn(g) && GenOk(g, e)
    ensures LabelsIn(LoadOperand(g, o, d)) && GenOk(LoadOperand(g, o, d), e)
  {
    LoadGen(g, e, o, d);
    GrownIn(g, LoadOperand(g, o, d));
  }

  lemma StoreIn(g: Gen, e: set<int>, r: ArmIr.Ref)
    requires LabelsIn(g) && GenOk(g, e)
    ensures LabelsIn(StoreResult(g, e, r, X9)) && GenOk(StoreResult(g, e, r, X9), e)
  {
    StoreGen(g, e, r, X9);
    GrownIn(g, StoreResult(g, e, r, X9));
  }

  lemma BodyIn(g: Gen, e: set<int>, code: seq<MInstr>, offs: seq<nat>)
    requires LabelsIn(g) && GenOk(g, e) && |offs| <= 2 && forall i :: 0 <= i < |offs| ==> offs[i] <= |code|
    ensures LabelsIn(EmitBody(g, code, offs)) && GenOk(EmitBody(g, code, offs), e)
  {
    BodyGen(g, e, code, offs);
  }

  lemma LabelIn(g: Gen, l: int)
    requires LabelsIn(g)
    ensures LabelsIn(EmitLabel(g, l))
  {
  }

  lemma UnIn(g: Gen, e: set<int>, ins: Instr)
    requires ins.Un? && LabelsIn(g) && GenOk(g, e) && !g.failed
    ensures LabelsIn(CompileInstr(g, e, ins))
  {
    var g1 := LoadOperand(g, ins.a, X9);
    LoadIn(g, e, ins.a, X9);
    BodyIn(g1, e, UnCode(ins.uop, g.nextLabel), UnLabels(ins.uop));
    StoreIn(EmitBody(g1, UnCode(ins.uop, g.nextLabel), UnLabels(ins.uop)), e, ins.dst);
  }

  lemma BinIn(g: Gen, e: set<int>, ins: Instr)
    requires ins.Bin? && LabelsIn(g) && GenOk(g, e) && !g.failed
    ensures LabelsIn(CompileInstr(g, e, ins))
  {
    var g1 := LoadOperand(g, ins.a, X9);
    var g2 := EmitBody(g1, BinPre(ins.bop), []);
    var g3 := LoadOperand(g2, ins.b, X10);
    LoadIn(g, e, ins.a, X9);
    BodyIn(g1, e, BinPre(ins.bop), []);
    LoadIn(g2, e, ins.b, X10);
    BodyIn(g3, e, BinCode(ins.bop, g.nextLabel), BinLabels(ins.bop));
    StoreIn(EmitBody(g3, BinCode(ins.bop, g.nextLabel), BinLabels(ins.bop)), e, ins.dst);
  }

  lemma StoreIndexIn(g: Gen, e: set<int>, ins: Instr)
    requires ins.StoreIndex? && LabelsIn(g) && GenOk(g, e) && !g.failed
    ensures LabelsIn(CompileInstr(g, e, ins))
  {
    var g1 := LoadOperand(g, ins.arr, X9);
    var g2 := LoadOperand(g1, ins.idx, X10);
    var g3 := EmitBody(g2, WrapNegativeIndex(g.nextLabel) + ElementAddress(), [4]);
    LoadIn(g, e, ins.arr, X9);
    LoadIn(g1, e, ins.idx, X10);
    BodyIn(g2, e, WrapNegativeIndex(g.nextLabel) + ElementAddress(), [4]);
    LoadIn(g3, e, ins.val, X12);
  }

  lemma ForBeginIn(g: Gen, e: set<int>, x: int, arr: Operand)
    requires LabelsIn(g) && GenOk(g, e)
    ensures LabelsIn(CompileForBegin(g, e, x, arr))
  {
    var c := NewFor(g);
    var g1 := LoadOperand(ForStart(g), arr, X9);
    var g2 := Emit(StoreResult(g1, e, c.arrRef, X9), MovImm(X9, 0));
    var g3 := ForInit(g, e, c, arr);
    LoadIn(ForStart(g), e, arr, X9);
    StoreIn(g1, e, c.arrRef);
    StoreIn(g2, e, c.idxRef);
    LabelIn(StoreResult(g2, e, c.idxRef, X9), c.startLabel);
    HeadIn(g3, e, c);
    ElementIn(ForHead(g3, c), e, c);
    StoreIn(ForElement(ForHead(g3, c), c), e, RVar(x));
  }

  lemma HeadIn(g: Gen, e: set<int>, c: ForCtx)
    requires LabelsIn(g) && GenOk(g, e)
    ensures LabelsIn(ForHead(g, c)) && GenOk(ForHead(g, c), e)
  {
    var g1 := LoadOperand(g, OpRef(c.idxRef), X9);
    LoadIn(g, e, OpRef(c.idxRef), X9);
    LoadIn(g1, e, OpRef(c.arrRef), X10);
    BodyIn(LoadOperand(g1, OpRef(c.arrRef), X10), e, [Ldr(X10, X10), Cmp(X9, X10), BCond(GE, c.endLabel)], []);
  }

  lemma ElementIn(g: Gen, e: set<int>, c: ForCtx)
    requires LabelsIn(g) && GenOk(g, e)
    ensures LabelsIn(ForElement(g, c)) && GenOk(ForElement(g, c), e)
  {
    var g1 := LoadOperand(g, OpRef(c.arrRef), X9);
    LoadIn(g, e, OpRef(c.arrRef), X9);
    LoadIn(g1, e, OpRef(c.idxRef), X10);
    BodyIn(LoadOperand(g1, OpRef(c.idxRef), X10), e, ElementAddress() + [Ldr(X9, X9)], []);
  }

  lemma ForEndIn(g: Gen, e: set<int>)
    requires LabelsIn(g) && GenOk(g, e) && g.fors != []
    ensures LabelsIn(CompileForEnd(g, e))
  {
    var c := g.fors[|g.fors| - 1];
    var g0 := g.(fors := g.fors[..|g.fors| - 1]);
    var g1 := Emit(LoadOperand(g0, OpRef(c.idxRef), X9), AddImm(X9, X9, 1));
    LoadIn(g0, e, OpRef(c.idxRef), X9);
    StoreIn(g1, e, c.idxRef);
    LabelIn(Emit(StoreResult(g1, e, c.idxRef, X9), B(c.startLabel)), c.endLabel);
  }

  lemma InstrIn(g: Gen, e: set<int>, ins: Instr)
    requires LabelsIn(g) && GenOk(g, e) && !g.failed && !CompileInstr(g, e, ins).failed
    ensures LabelsIn(CompileInstr(g, e, ins))
  {
    match ins
    case Un(_, _, _) => UnIn(g, e, ins);
    case Bin(_, _, _, _) => BinIn(g, e, ins);
    case StoreIndex(_, _, _) => StoreIndexIn(g, e, ins);
    case Print(a) => LoadIn(g, e, a, X0);
    case JumpIfFalse(a, _) => LoadIn(g, e, a, X9);
    case JumpIfTrue(a, _) => LoadIn(g, e, a, X9);
    case IfBegin(a) => LoadIn(FreshLabels(g, 2), e, a, X9);
    case ForBegin(x, arr) => ForBeginIn(g, e, x, arr);
    case ForEnd => ForEndIn(g, e);
    case _ =>
  }

  lemma {:induction false} CompiledIn(p: seq<Instr>, e: set<int>, i: nat)
    requires i <= |p| && NonNegative(e) && !G(p, e, i).failed
    ensures LabelsIn(G(p, e, i)) && GenOk(G(p, e, i), e)
  {
    GenAlwaysOk(p, e, i);
    if i > 0 {
      NextGen(p, e, i - 1);
      NotFailed(p, e, i - 1, i);
      CompiledIn(p, e, i - 1);
      InstrIn(G(p, e, i - 1), e, p[i - 1]);
    }
  }

  lemma ProgramIn(p: seq<Instr>, e: set<int>, junk: Reg -> Word)
    requires ArmBalance.Balanced(p) && NonNegative(e)
    ensures var img := ArmCorrect.Program(p, e, junk); forall l :: l in img.labels ==> img.labels[l] <= |img.code|
  {
    assert p[..|p|] == p;
    ArmBalance.CompilesExactly(p, e);
    CompiledIn(p, e, |p|);
    EnsureGen(Compiled(p, e), e);
    GrownIn(Compiled(p, e), EnsureSpilled(Compiled(p, e)));
  }

  /** From the IR to the words: where the fixup pass raises no error on the code of a balanced program, the machine that
      runs the patched words follows the IR over every run, as the machine with the label table does. */
  lemma WordsFollowIr(p: seq<Instr>, e: set<int>, junk: Reg -> Word, buf: seq<Byte>, s: State, m: Machine)
    requires UserCode(p) && ArmBalance.Balanced(p) && (forall t :: t in e ==> Elidable(p, t))
    requires ArmCorrect.Initial(p, e, s, m) && Patched(ArmCorrect.Program(p, e, junk), buf)
    ensures forall k: nat ::
      RunWords(ArmCorrect.Program(p, e, junk), buf, m, k) == Run(ArmCorrect.Program(p, e, junk), m, k)
    ensures ArmCorrect.Refines(p, e, ArmCorrect.Program(p, e, junk), s, m)
  {
    var img := ArmCorrect.Program(p, e, junk);
    forall k: nat ensures RunWords(img, buf, m, k) == Run(img, m, k) {
      SameRuns(img, buf, m, k);
    }
    ArmCorrect.KeptNonNegative(p, e);
    ArmCorrect.ElidableIsEligible(p, e);
    ArmCorrect.EmittedCodeRefinesIr(p, e, junk, s, m);
  }

  /** The pass on the code of a balanced program: it raises no error exactly when every branch is near enough to its
      label, and then the words it leaves follow the IR from every related start. */
  method PatchProgram(p: seq<Instr>, e: set<int>, junk: Reg -> Word, buf: array<Byte>)
    returns (error: Option<Fixups.Error>)
    requires UserCode(p) && ArmBalance.Balanced(p) && forall t :: t in e ==> Elidable(p, t)
    requires var code := ArmCorrect.Program(p, e, junk).code; buf.Length == Offset(code, |code|) < 0x2_0000_0000
    modifies buf
    ensures var img := ArmCorrect.Program(p, e, junk);
      error.None? <==> forall i :: 0 <= i < |img.code| && IsBranch(img.code[i]) ==> InRange(img, i)
    ensures error.None? ==> forall s, m :: ArmCorrect.Initial(p, e, s, m) ==>
      ArmCorrect.Refines(p, e, ArmCorrect.Program(p, e, junk), s, m) &&
      forall k: nat ::
        RunWords(ArmCorrect.Program(p, e, junk), buf[..], m, k) == Run(ArmCorrect.Program(p, e, junk), m, k)
  {
    ArmCorrect.KeptNonNegative(p, e);
    ProgramIn(p, e, junk);
    error := PatchBranches(ArmCorrect.Program(p, e, junk), buf);
    if error.None? {
      forall s, m | ArmCorrect.Initial(p, e, s, m)
        ensures ArmCorrect.Refines(p, e, ArmCorrect.Program(p, e, junk), s, m)
      {
        WordsFollowIr(p, e, junk, buf[..], s, m);
      }
    }
  }
}
