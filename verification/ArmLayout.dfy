/** Where the emitter puts things: slots, labels and loop cells, for every prefix of a program. */
module ArmLayout {
  import opened ArmMachine
  import opened ArmIr
  import opened ArmCodegen
  import opened ArmSim
  import opened Options

  // ---- One instruction ----

  // Is l one of the labels that the markers and LABELs place (rather than an operator's own label)?
  predicate Places(g: Gen, ins: Instr, l: int) {
    match ins
    case Label(k) => k == l
    case IfElse => g.ifs != [] && l == g.ifs[|g.ifs| - 1].elseLabel
    case IfEnd => g.ifs != [] &&
      (l == g.ifs[|g.ifs| - 1].endLabel || (l == g.ifs[|g.ifs| - 1].elseLabel && !g.ifs[|g.ifs| - 1].sawElse))
    case ForEnd => g.fors != [] && l == g.fors[|g.fors| - 1].endLabel
    case _ => false
  }

  // Between g and h, labels made before g change only by `Places`.
  ghost predicate LabelStep(g: Gen, h: Gen, ins: Instr) {
    && h.nextLabel <= g.nextLabel
    && forall l :: l <= h.nextLabel || l > g.nextLabel ==>
       if Places(g, ins, l) then l in h.labels && h.labels[l] == |h.code|
       else (l in h.labels <==> l in g.labels) && (l in g.labels ==> h.labels[l] == g.labels[l])
  }

  // What one instruction does to the two stacks and to the loop cells.
  predicate ControlStep(g: Gen, h: Gen, ins: Instr) {
    match ins
    case IfBegin(_) => h.ifs == g.ifs + [IfCtx(g.nextLabel, g.nextLabel - 1, false)] && h.fors == g.fors &&
      h.nextHidden == g.nextHidden
    case IfElse =>
      && g.ifs != [] && h.ifs == g.ifs[..|g.ifs| - 1] + [g.ifs[|g.ifs| - 1].(sawElse := true)]
      && h.fors == g.fors && h.nextHidden == g.nextHidden
    case IfEnd => g.ifs != [] && h.ifs == g.ifs[..|g.ifs| - 1] && h.fors == g.fors && h.nextHidden == g.nextHidden
    case ForBegin(_, _) => h.ifs == g.ifs && h.fors == g.fors + [NewFor(g)] && h.nextHidden == g.nextHidden - 2
    case ForEnd => g.fors != [] && h.ifs == g.ifs && h.fors == g.fors[..|g.fors| - 1] && h.nextHidden == g.nextHidden
    case _ => h.ifs == g.ifs && h.fors == g.fors && h.nextHidden == g.nextHidden
  }

  ghost predicate StepOkay(g: Gen, e: set<int>, ins: Instr) {
    var h := CompileInstr(g, e, ins);
    GenOk(h, e) && Grows(g, h) && LabelStep(g, h, ins) && ControlStep(g, h, ins)
  }

  lemma BodyGen(g: Gen, e: set<int>, code: seq<MInstr>, offs: seq<nat>)
    requires GenOk(g, e) && |offs| <= 2
    ensures GenOk(EmitBody(g, code, offs), e) && Grows(g, EmitBody(g, code, offs))
  {
  }

  lemma UnStep(g: Gen, e: set<int>, ins: Instr)
    requires GenOk(g, e) && ins.Un? && !g.failed
    ensures StepOkay(g, e, ins)
  {
    var g1 := LoadOperand(g, ins.a, X9);
    var g2 := EmitBody(g1, UnCode(ins.uop, g.nextLabel), UnLabels(ins.uop));
    LoadGen(g, e, ins.a, X9);
    BodyGen(g1, e, UnCode(ins.uop, g.nextLabel), UnLabels(ins.uop));
    StoreGen(g2, e, ins.dst, X9);
    GrowsTrans(g, g1, g2);
    GrowsTrans(g, g2, CompileInstr(g, e, ins));
  }

  // The operands of a two-operand instruction.
  function BinLoads(g: Gen, ins: Instr): Gen
    requires ins.Bin?
  {
    LoadOperand(EmitBody(LoadOperand(g, ins.a, X9), BinPre(ins.bop), []), ins.b, X10)
  }

  lemma BinLoadsGen(g: Gen, e: set<int>, ins: Instr)
    requires GenOk(g, e) && ins.Bin?
    ensures GenOk(BinLoads(g, ins), e) && Grows(g, BinLoads(g, ins)) && SameControl(g, BinLoads(g, ins))
  {
    var g1 := LoadOperand(g, ins.a, X9);
    var g2 := EmitBody(g1, BinPre(ins.bop), []);
    LoadGen(g, e, ins.a, X9);
    BodyGen(g1, e, BinPre(ins.bop), []);
    LoadGen(g2, e, ins.b, X10);
    GrowsTrans(g, g1, g2);
    GrowsTrans(g, g2, BinLoads(g, ins));
  }

  lemma BinStep(g: Gen, e: set<int>, ins: Instr)
    requires GenOk(g, e) && ins.Bin? && !g.failed
    ensures StepOkay(g, e, ins)
  {
    var g1 := BinLoads(g, ins);
    var g2 := EmitBody(g1, BinCode(ins.bop, g.nextLabel), BinLabels(ins.bop));
    BinLoadsGen(g, e, ins);
    BodyGen(g1, e, BinCode(ins.bop, g.nextLabel), BinLabels(ins.bop));
    StoreGen(g2, e, ins.dst, X9);
    GrowsTrans(g, g1, g2);
    GrowsTrans(g, g2, CompileInstr(g, e, ins));
  }

  function IndexLoads(g: Gen, ins: Instr): Gen
    requires ins.StoreIndex?
  {
    LoadOperand(LoadOperand(g, ins.arr, X9), ins.idx, X10)
  }

  function IndexAddr(g: Gen, ins: Instr): Gen
    requires ins.StoreIndex?
  {
    EmitBody(IndexLoads(g, ins), WrapNegativeIndex(g.nextLabel) + ElementAddress(), [4])
  }

  lemma IndexLoadsGen(g: Gen, e: set<int>, ins: Instr)
    requires GenOk(g, e) && ins.StoreIndex?
    ensures var h := IndexLoads(g, ins); GenOk(h, e) && Grows(g, h) && SameControl(g, h)
  {
    LoadGen(g, e, ins.arr, X9);
    LoadGen(LoadOperand(g, ins.arr, X9), e, ins.idx, X10);
    GrowsTrans(g, LoadOperand(g, ins.arr, X9), IndexLoads(g, ins));
  }

  lemma StoreIndexStep(g: Gen, e: set<int>, ins: Instr)
    requires GenOk(g, e) && ins.StoreIndex? && !g.failed
    ensures StepOkay(g, e, ins)
  {
    var g1, g2 := IndexLoads(g, ins), IndexAddr(g, ins);
    var g3 := LoadOperand(g2, ins.val, X12);
    IndexLoadsGen(g, e, ins);
    BodyGen(g1, e, WrapNegativeIndex(g.nextLabel) + ElementAddress(), [4]);
    LoadGen(g2, e, ins.val, X12);
    EmitGen(g3, e, Str(X12, X9));
    GrowsTrans(g, g1, g2);
    GrowsTrans(g, g2, g3);
    GrowsTrans(g, g3, CompileInstr(g, e, ins));
  }

  // PRINT, conditional jumps and IF_BEGIN: one load and one instruction.
  lemma LoadEmitGen(g: Gen, e: set<int>, o: Operand, d: Reg, ins: MInstr)
    requires GenOk(g, e)
    ensures var h := Emit(LoadOperand(g, o, d), ins); GenOk(h, e) && Grows(g, h) && SameControl(g, h)
  {
    var g1 := LoadOperand(g, o, d);
    LoadGen(g, e, o, d);
    EmitGen(g1, e, ins);
    GrowsTrans(g, g1, Emit(g1, ins));
  }

  lemma SimpleStep(g: Gen, e: set<int>, ins: Instr)
    requires GenOk(g, e) && !g.failed
    requires ins.Print? || ins.Jump? || ins.JumpIfFalse? || ins.JumpIfTrue? || ins.Label? || ins.Marker?
    ensures StepOkay(g, e, ins)
  {
    match ins
    case Print(a) => LoadEmitGen(g, e, a, X0, BlPrint);
    case Jump(l) => EmitGen(g, e, B(l));
    case JumpIfFalse(a, l) => LoadEmitGen(g, e, a, X9, Cbz(X9, l));
    case JumpIfTrue(a, l) => LoadEmitGen(g, e, a, X9, Cbnz(X9, l));
    case Label(l) =>
    case Marker =>
  }

  lemma IfStep(g: Gen, e: set<int>, ins: Instr)
    requires GenOk(g, e) && !g.failed && !CompileInstr(g, e, ins).failed
    requires ins.IfElse? || ins.IfEnd?
    ensures StepOkay(g, e, ins)
  {
    match ins
    case IfElse => EmitGen(g, e, B(g.ifs[|g.ifs| - 1].endLabel));
    case IfEnd =>
  }

  lemma IfBeginStep(g: Gen, e: set<int>, ins: Instr)
    requires GenOk(g, e) && !g.failed && ins.IfBegin?
    ensures StepOkay(g, e, ins)
  {
    LoadEmitGen(FreshLabels(g, 2), e, ins.a, X9, Cbz(X9, g.nextLabel));
  }

  lemma LoadStoreGen(g: Gen, e: set<int>, o: Operand, r: Ref)
    requires GenOk(g, e)
    ensures var h := StoreResult(LoadOperand(g, o, X9), e, r, X9); GenOk(h, e) && Grows(g, h) && SameControl(g, h)
  {
    var g1 := LoadOperand(g, o, X9);
    LoadGen(g, e, o, X9);
    StoreGen(g1, e, r, X9);
    GrowsTrans(g, g1, StoreResult(g1, e, r, X9));
  }

  // A stored cell, kept in memory: nothing stays pending.
  lemma CellGen(g: Gen, e: set<int>, r: Ref)
    requires GenOk(g, e) && !Kept(e, r)
    ensures var h := StoreResult(Emit(g, MovImm(X9, 0)), e, r, X9);
      GenOk(h, e) && Grows(g, h) && SameControl(g, h) && h.pendId == -1
  {
    var g1 := Emit(g, MovImm(X9, 0));
    EmitGen(g, e, MovImm(X9, 0));
    StoreGen(g1, e, r, X9);
    EnsureGen(g1, e);
    GrowsTrans(g, g1, StoreResult(g1, e, r, X9));
  }

  // The code of FOR_BEGIN up to the label at the loop head.
  lemma ForInitGen(g: Gen, e: set<int>, arr: Operand)
    requires GenOk(g, e)
    ensures var c := NewFor(g); var h := ForInit(g, e, c, arr);
      && GenOk(h, e) && Grows(g, h) && h.labels == g.labels[c.startLabel := |h.code|] && h.pendId == -1
      && SameControl(ForStart(g).(labels := h.labels), h)
  {
    var c := NewFor(g);
    var g0 := ForStart(g);
    var g2 := StoreResult(LoadOperand(g0, arr, X9), e, c.arrRef, X9);
    LoadStoreGen(g0, e, arr, c.arrRef);
    CellGen(g2, e, c.idxRef);
    GrowsTrans(g, g2, StoreResult(Emit(g2, MovImm(X9, 0)), e, c.idxRef, X9));
  }

  lemma ForHeadGen(g: Gen, e: set<int>, c: ForCtx)
    requires GenOk(g, e)
    ensures var h := ForHead(g, c); GenOk(h, e) && Grows(g, h) && SameControl(g, h)
  {
    var g1 := LoadOperand(g, OpRef(c.idxRef), X9);
    var g2 := LoadOperand(g1, OpRef(c.arrRef), X10);
    LoadGen(g, e, OpRef(c.idxRef), X9);
    LoadGen(g1, e, OpRef(c.arrRef), X10);
    BodyGen(g2, e, [Ldr(X10, X10), Cmp(X9, X10), BCond(GE, c.endLabel)], []);
    GrowsTrans(g, g1, g2);
    GrowsTrans(g, g2, ForHead(g, c));
  }

  lemma ForElementGen(g: Gen, e: set<int>, c: ForCtx)
    requires GenOk(g, e)
    ensures var h := ForElement(g, c); GenOk(h, e) && Grows(g, h) && SameControl(g, h)
  {
    var g1 := LoadOperand(g, OpRef(c.arrRef), X9);
    var g2 := LoadOperand(g1, OpRef(c.idxRef), X10);
    LoadGen(g, e, OpRef(c.arrRef), X9);
    LoadGen(g1, e, OpRef(c.idxRef), X10);
    BodyGen(g2, e, ElementAddress() + [Ldr(X9, X9)], []);
    GrowsTrans(g, g1, g2);
    GrowsTrans(g, g2, ForElement(g, c));
  }

  // The loop head and the element load, from the label at the loop head on.
  function ForRest(g: Gen, e: set<int>, c: ForCtx, x: int): Gen {
    StoreResult(ForElement(ForHead(g, c), c), e, RVar(x), X9)
  }

  lemma ForRestGen(g: Gen, e: set<int>, c: ForCtx, x: int)
    requires GenOk(g, e)
    ensures var h := ForRest(g, e, c, x); GenOk(h, e) && Grows(g, h) && SameControl(g, h)
  {
    var g1 := ForHead(g, c);
    var g2 := ForElement(g1, c);
    ForHeadGen(g, e, c);
    ForElementGen(g1, e, c);
    StoreGen(g2, e, RVar(x), X9);
    GrowsTrans(g, g1, g2);
    GrowsTrans(g, g2, ForRest(g, e, c, x));
  }

  lemma ForBeginStep(g: Gen, e: set<int>, ins: Instr)
    requires GenOk(g, e) && !g.failed && ins.ForBegin?
    ensures StepOkay(g, e, ins)
  {
    var c := NewFor(g);
    var h := ForInit(g, e, c, ins.arr);
    ForInitGen(g, e, ins.arr);
    ForRestGen(h, e, c, ins.x);
    GrowsTrans(g, h, ForRest(h, e, c, ins.x));
  }

  function ForEndStore(g: Gen, e: set<int>): Gen
    requires g.fors != []
  {
    var c := g.fors[|g.fors| - 1];
    var g1 := Emit(LoadOperand(g.(fors := g.fors[..|g.fors| - 1]), OpRef(c.idxRef), X9), AddImm(X9, X9, 1));
    StoreResult(g1, e, c.idxRef, X9)
  }

  lemma ForEndStoreGen(g: Gen, e: set<int>)
    requires GenOk(g, e) && g.fors != []
    ensures var h := ForEndStore(g, e);
      GenOk(h, e) && Grows(g, h) && SameControl(g.(fors := h.fors), h) && h.fors == g.fors[..|g.fors| - 1]
  {
    var c := g.fors[|g.fors| - 1];
    var g0 := g.(fors := g.fors[..|g.fors| - 1]);
    var g1 := Emit(LoadOperand(g0, OpRef(c.idxRef), X9), AddImm(X9, X9, 1));
    LoadEmitGen(g0, e, OpRef(c.idxRef), X9, AddImm(X9, X9, 1));
    StoreGen(g1, e, c.idxRef, X9);
    GrowsTrans(g, g1, ForEndStore(g, e));
  }

  lemma ForEndStep(g: Gen, e: set<int>, ins: Instr)
    requires GenOk(g, e) && !g.failed && ins.ForEnd? && !CompileInstr(g, e, ins).failed
    ensures StepOkay(g, e, ins)
  {
    var c := g.fors[|g.fors| - 1];
    var h := ForEndStore(g, e);
    ForEndStoreGen(g, e);
    EmitGen(h, e, B(c.startLabel));
    GrowsTrans(g, h, Emit(h, B(c.startLabel)));
  }

  lemma AnyStep(g: Gen, e: set<int>, ins: Instr)
    requires GenOk(g, e) && !g.failed && !CompileInstr(g, e, ins).failed
    ensures StepOkay(g, e, ins)
  {
    match ins
    case Un(_, _, _) => UnStep(g, e, ins);
    case Bin(_, _, _, _) => BinStep(g, e, ins);
    case StoreIndex(_, _, _) => StoreIndexStep(g, e, ins);
    case IfBegin(_) => IfBeginStep(g, e, ins);
    case IfElse => IfStep(g, e, ins);
    case IfEnd => IfStep(g, e, ins);
    case ForBegin(_, _) => ForBeginStep(g, e, ins);
    case ForEnd => ForEndStep(g, e, ins);
    case _ => SimpleStep(g, e, ins);
  }

  // ---- Whole programs ----

  function G(p: seq<Instr>, e: set<int>, i: nat): Gen
    requires i <= |p|
  {
    Compiled(p[..i], e)
  }

  lemma NextGen(p: seq<Instr>, e: set<int>, i: nat)
    requires i < |p|
    ensures G(p, e, i + 1) == CompileInstr(G(p, e, i), e, p[i])
  {
    assert p[..i + 1][..i] == p[..i];
  }

  ghost predicate NonNegative(e: set<int>) {
    forall t :: t in e ==> t >= 0
  }

  lemma {:induction false} NotFailed(p: seq<Instr>, e: set<int>, i: nat, j: nat)
    requires i <= j <= |p| && !G(p, e, j).failed
    ensures !G(p, e, i).failed
    decreases j
  {
    if i < j {
      NextGen(p, e, j - 1);
      NotFailed(p, e, i, j - 1);
    }
  }

  lemma {:induction false} GenAlwaysOk(p: seq<Instr>, e: set<int>, i: nat)
    requires i <= |p| && !G(p, e, i).failed && NonNegative(e)
    ensures GenOk(G(p, e, i), e)
  {
    if i > 0 {
      NextGen(p, e, i - 1);
      NotFailed(p, e, i - 1, i);
      GenAlwaysOk(p, e, i - 1);
      AnyStep(G(p, e, i - 1), e, p[i - 1]);
    }
  }

  lemma {:induction false} GrowsTo(p: seq<Instr>, e: set<int>, i: nat, j: nat)
    requires i <= j <= |p| && !G(p, e, j).failed && NonNegative(e)
    ensures Grows(G(p, e, i), G(p, e, j)) && G(p, e, j).nextLabel <= G(p, e, i).nextLabel
    decreases j
  {
    if i < j {
      NextGen(p, e, j - 1);
      NotFailed(p, e, j - 1, j);
      GrowsTo(p, e, i, j - 1);
      GenAlwaysOk(p, e, j - 1);
      AnyStep(G(p, e, j - 1), e, p[j - 1]);
      GrowsTrans(G(p, e, i), G(p, e, j - 1), G(p, e, j));
    }
  }

  lemma StepAt(p: seq<Instr>, e: set<int>, i: nat)
    requires i < |p| && !G(p, e, i + 1).failed && NonNegative(e)
    ensures G(p, e, i + 1) == CompileInstr(G(p, e, i), e, p[i]) && !G(p, e, i).failed
    ensures GenOk(G(p, e, i), e) && StepOkay(G(p, e, i), e, p[i])
  {
    NextGen(p, e, i);
    NotFailed(p, e, i, i + 1);
    GenAlwaysOk(p, e, i);
    AnyStep(G(p, e, i), e, p[i]);
  }

  // ---- The emitter's stacks hold the labels of exactly the IFs and FORs that are open ----

  ghost predicate IfsMatch(gen: nat -> Gen, i: nat, cs: seq<IfCtx>, os: seq<Open>) {
    |cs| == |os| && forall k :: 0 <= k < |cs| ==>
      os[k].begin < i && cs[k] == IfCtx(gen(os[k].begin).nextLabel, gen(os[k].begin).nextLabel - 1, os[k].sawElse)
  }

  ghost predicate ForsMatch(gen: nat -> Gen, i: nat, cs: seq<ForCtx>, os: seq<nat>) {
    |cs| == |os| && forall k :: 0 <= k < |cs| ==> os[k] < i && cs[k] == NewFor(gen(os[k]))
  }

  // The emitter's state at each instruction, as a function.
  ghost function States(p: seq<Instr>, e: set<int>): nat -> Gen {
    (b: nat) => if b <= |p| then G(p, e, b) else INITIAL
  }

  function NextIfs(os: seq<Open>, i: nat, ins: Instr): Option<seq<Open>> {
    if ins.IfBegin? then Some(os + [Open(i, false)])
    else if ins.IfElse? then if os == [] then None else Some(os[..|os| - 1] + [Open(os[|os| - 1].begin, true)])
    else if ins.IfEnd? then if os == [] then None else Some(os[..|os| - 1])
    else Some(os)
  }

  function NextFors(os: seq<nat>, i: nat, ins: Instr): Option<seq<nat>> {
    if ins.ForBegin? then Some(os + [i])
    else if ins.ForEnd? then if os == [] then None else Some(os[..|os| - 1])
    else Some(os)
  }

  lemma OpenNext(p: seq<Instr>, i: nat)
    requires i < |p|
    ensures IfsOpen(p[..i]).Some? ==> IfsOpen(p[..i + 1]) == NextIfs(IfsOpen(p[..i]).value, i, p[i])
    ensures ForsOpen(p[..i]).Some? ==> ForsOpen(p[..i + 1]) == NextFors(ForsOpen(p[..i]).value, i, p[i])
  {
    assert p[..i + 1][..i] == p[..i];
  }

  lemma MatchStep(gen: nat -> Gen, i: nat, h: Gen, ins: Instr, ifs: seq<Open>, fors: seq<nat>)
    requires IfsMatch(gen, i, gen(i).ifs, ifs) && ForsMatch(gen, i, gen(i).fors, fors) && ControlStep(gen(i), h, ins)
    ensures NextIfs(ifs, i, ins).Some? && IfsMatch(gen, i + 1, h.ifs, NextIfs(ifs, i, ins).value)
    ensures NextFors(fors, i, ins).Some? && ForsMatch(gen, i + 1, h.fors, NextFors(fors, i, ins).value)
  {
  }

  lemma ControlAt(p: seq<Instr>, e: set<int>, i: nat, gen: nat -> Gen)
    requires i < |p| && !G(p, e, i + 1).failed && NonNegative(e) && gen == States(p, e)
    ensures ControlStep(gen(i), gen(i + 1), p[i]) && gen(i + 1) == G(p, e, i + 1) && !G(p, e, i).failed
  {
    StepAt(p, e, i);
  }

  lemma {:induction false} StacksMatch(p: seq<Instr>, e: set<int>, i: nat, gen: nat -> Gen)
    requires i <= |p| && !G(p, e, i).failed && NonNegative(e) && gen == States(p, e)
    ensures IfsOpen(p[..i]).Some? && IfsMatch(gen, i, gen(i).ifs, IfsOpen(p[..i]).value)
    ensures ForsOpen(p[..i]).Some? && ForsMatch(gen, i, gen(i).fors, ForsOpen(p[..i]).value)
    decreases i
  {
    if i > 0 {
      ControlAt(p, e, i - 1, gen);
      StacksMatch(p, e, i - 1, gen);
      MatchStep(gen, i - 1, gen(i), p[i - 1], IfsOpen(p[..i - 1]).value, ForsOpen(p[..i - 1]).value);
      OpenNext(p, i - 1);
    }
  }

  // The cells of the n-th FOR.
  lemma {:induction false} HiddenCount(p: seq<Instr>, e: set<int>, i: nat)
    requires i <= |p| && !G(p, e, i).failed && NonNegative(e)
    ensures G(p, e, i).nextHidden == -100000 - 2 * ForCount(p[..i])
  {
    if i > 0 {
      ControlAt(p, e, i - 1, States(p, e));
      HiddenCount(p, e, i - 1);
      assert p[..i][..i - 1] == p[..i - 1];
    }
  }

  // ---- Labels ----

  // The label that stands for a control point.
  function LabelOf(gen: nat -> Gen, q: Point): int {
    match q
    case PLabel(l) => l
    case PElse(b) => gen(b).nextLabel
    case PEndIf(b) => gen(b).nextLabel - 1
    case PEndFor(b) => gen(b).nextLabel - 1
  }

  // Is q a point of the instructions before i?
  predicate PointBefore(p: seq<Instr>, i: nat, q: Point)
    requires i <= |p|
  {
    match q
    case PLabel(l) => true
    case PElse(b) => b < i && p[b].IfBegin?
    case PEndIf(b) => b < i && p[b].IfBegin?
    case PEndFor(b) => b < i && p[b].ForBegin?
  }

  predicate Opens(ins: Instr) {
    ins.IfBegin? || ins.ForBegin?
  }

  // An IF_BEGIN or FOR_BEGIN makes two labels and places at most the loop's start label.
  lemma TwoLabels(g: Gen, e: set<int>, ins: Instr)
    requires GenOk(g, e) && !g.failed && Opens(ins)
    ensures CompileInstr(g, e, ins).nextLabel == g.nextLabel - 2
    ensures ins.IfBegin? ==> CompileInstr(g, e, ins).labels == g.labels
    ensures ins.ForBegin? ==>
      CompileInstr(g, e, ins).labels == g.labels[g.nextLabel := |ForInit(g, e, NewFor(g), ins.arr).code|]
  {
    if ins.IfBegin? {
      LoadGen(FreshLabels(g, 2), e, ins.a, X9);
    } else {
      ForInitGen(g, e, ins.arr);
      ForRestGen(ForInit(g, e, NewFor(g), ins.arr), e, NewFor(g), ins.x);
    }
  }

  // Labels made by different instructions differ.
  lemma LabelsApart(p: seq<Instr>, e: set<int>, gen: nat -> Gen, b: nat, i: nat)
    requires b < i <= |p| && !G(p, e, i).failed && NonNegative(e) && Opens(p[b]) && gen == States(p, e)
    ensures gen(i).nextLabel <= gen(b).nextLabel - 2
  {
    NotFailed(p, e, b + 1, i);
    GrowsTo(p, e, b + 1, i);
    StepAt(p, e, b);
    TwoLabels(G(p, e, b), e, p[b]);
  }

  lemma LabelsAt2(p: seq<Instr>, e: set<int>, gen: nat -> Gen, a: nat, b: nat, i: nat)
    requires a < i <= |p| && b < i && a != b && Opens(p[a]) && Opens(p[b])
    requires !G(p, e, i).failed && NonNegative(e) && gen == States(p, e)
    ensures gen(a).nextLabel - gen(b).nextLabel >= 2 || gen(b).nextLabel - gen(a).nextLabel >= 2
  {
    if a < b {
      NotFailed(p, e, b, i);
      LabelsApart(p, e, gen, a, b);
    } else {
      NotFailed(p, e, a, i);
      LabelsApart(p, e, gen, b, a);
    }
  }

  // Labels that instruction i places were made earlier (or are the program's own).
  lemma PlacesOld(p: seq<Instr>, e: set<int>, gen: nat -> Gen, i: nat, l: int)
    requires i < |p| && !G(p, e, i).failed && NonNegative(e) && gen == States(p, e) && Places(gen(i), p[i], l)
    ensures l > gen(i).nextLabel
  {
    StacksMatch(p, e, i, gen);
    match p[i]
    case Label(k) => GenAlwaysOk(p, e, i);
    case IfElse => LabelsApart(p, e, gen, IfsOpen(p[..i]).value[|gen(i).ifs| - 1].begin, i);
    case IfEnd => LabelsApart(p, e, gen, IfsOpen(p[..i]).value[|gen(i).ifs| - 1].begin, i);
    case ForEnd => LabelsApart(p, e, gen, ForsOpen(p[..i]).value[|gen(i).fors| - 1], i);
  }

  lemma LabelsStep(p: seq<Instr>, e: set<int>, gen: nat -> Gen, i: nat, l: int)
    requires i < |p| && !G(p, e, i + 1).failed && NonNegative(e) && gen == States(p, e)
    requires l <= gen(i + 1).nextLabel || l > gen(i).nextLabel
    ensures
      if Places(gen(i), p[i], l) then l in gen(i + 1).labels && gen(i + 1).labels[l] == |gen(i + 1).code|
      else
        && (l in gen(i + 1).labels <==> l in gen(i).labels)
        && (l in gen(i).labels ==> gen(i + 1).labels[l] == gen(i).labels[l])
    ensures gen(i + 1).nextLabel <= gen(i).nextLabel && !G(p, e, i).failed
  {
    StepAt(p, e, i);
  }

  // No label number is in use before it is made.
  lemma {:induction false} LabelsFresh(p: seq<Instr>, e: set<int>, gen: nat -> Gen, i: nat, l: int)
    requires i <= |p| && !G(p, e, i).failed && NonNegative(e) && gen == States(p, e) && l <= gen(i).nextLabel
    ensures l !in gen(i).labels
    decreases i
  {
    if i > 0 {
      LabelsStep(p, e, gen, i - 1, l);
      LabelsFresh(p, e, gen, i - 1, l);
      if Places(gen(i - 1), p[i - 1], l) {
        PlacesOld(p, e, gen, i - 1, l);
      }
    }
  }

  lemma IfPlacesMarks(p: seq<Instr>, e: set<int>, gen: nat -> Gen, i: nat, q: Point)
    requires i < |p| && !G(p, e, i).failed && NonNegative(e) && gen == States(p, e) && PointBefore(p, i, q)
    requires gen(i).ifs != [] && (p[i].IfElse? || p[i].IfEnd?)
    ensures Places(gen(i), p[i], LabelOf(gen, q)) <==> Marks(p, i, q)
  {
    StacksMatch(p, e, i, gen);
    var b := IfsOpen(p[..i]).value[|gen(i).ifs| - 1].begin;
    PlacesAt(p, e, gen, i, q, b);
    IfTop(p, gen(i), i, q, gen(b).nextLabel, LabelOf(gen, q));
  }

  lemma IfTop(p: seq<Instr>, g: Gen, i: nat, q: Point, l: int, lq: int)
    requires i < |p| && (p[i].IfElse? || p[i].IfEnd?) && PointBefore(p, i, q) && g.ifs != []
    requires IfsOpen(p[..i]).Some? && |g.ifs| == |IfsOpen(p[..i]).value|
    requires var c, o := g.ifs[|g.ifs| - 1], IfsOpen(p[..i]).value[|g.ifs| - 1];
      && c == IfCtx(l, l - 1, o.sawElse) && o.begin < i && p[o.begin].IfBegin?
      && (lq == l <==> q == PElse(o.begin)) && (lq == l - 1 <==> (q == PEndIf(o.begin) || q == PEndFor(o.begin)))
    ensures Places(g, p[i], lq) <==> Marks(p, i, q)
  {
  }

  lemma ForPlacesMarks(p: seq<Instr>, e: set<int>, gen: nat -> Gen, i: nat, q: Point)
    requires i < |p| && !G(p, e, i).failed && NonNegative(e) && gen == States(p, e) && PointBefore(p, i, q)
    requires gen(i).fors != [] && p[i].ForEnd?
    ensures Places(gen(i), p[i], LabelOf(gen, q)) <==> Marks(p, i, q)
  {
    StacksMatch(p, e, i, gen);
    var b := ForsOpen(p[..i]).value[|gen(i).fors| - 1];
    PlacesAt(p, e, gen, i, q, b);
    ForTop(p, gen(i), i, q, gen(b).nextLabel - 1, LabelOf(gen, q));
  }

  lemma ForTop(p: seq<Instr>, g: Gen, i: nat, q: Point, l: int, lq: int)
    requires i < |p| && p[i].ForEnd? && PointBefore(p, i, q) && g.fors != []
    requires ForsOpen(p[..i]).Some? && |g.fors| == |ForsOpen(p[..i]).value|
    requires var c, b := g.fors[|g.fors| - 1], ForsOpen(p[..i]).value[|g.fors| - 1];
      c.endLabel == l && b < i && p[b].ForBegin? && (lq == l <==> (q == PEndIf(b) || q == PEndFor(b)))
    ensures Places(g, p[i], lq) <==> Marks(p, i, q)
  {
  }

  lemma NegativeLabels(p: seq<Instr>, e: set<int>, gen: nat -> Gen, b: nat)
    requires b <= |p| && !G(p, e, b).failed && NonNegative(e) && gen == States(p, e)
    ensures gen(b).nextLabel < 0
  {
    GenAlwaysOk(p, e, b);
  }

  // The emitter places the label of q at instruction i exactly when q lies just after instruction i.
  lemma PlacesMarks(p: seq<Instr>, e: set<int>, gen: nat -> Gen, i: nat, q: Point)
    requires i < |p| && !G(p, e, i).failed && NonNegative(e) && gen == States(p, e) && PointBefore(p, i, q)
    ensures Places(gen(i), p[i], LabelOf(gen, q)) <==> Marks(p, i, q)
  {
    if p[i].IfElse? || p[i].IfEnd? {
      if gen(i).ifs != [] {
        IfPlacesMarks(p, e, gen, i, q);
      } else {
        StacksMatch(p, e, i, gen);
      }
    } else if p[i].ForEnd? {
      if gen(i).fors != [] {
        ForPlacesMarks(p, e, gen, i, q);
      } else {
        StacksMatch(p, e, i, gen);
      }
    } else if !q.PLabel? {
      NotFailed(p, e, q.b, i);
      NegativeLabels(p, e, gen, q.b);
    }
  }

  // Two points name the same label only if they are the same point.
  lemma PlacesAt(p: seq<Instr>, e: set<int>, gen: nat -> Gen, i: nat, q: Point, b: nat)
    requires i < |p| && !G(p, e, i).failed && NonNegative(e) && gen == States(p, e) && PointBefore(p, i, q)
    requires b < i && Opens(p[b])
    ensures LabelOf(gen, q) == gen(b).nextLabel <==> q == PElse(b)
    ensures LabelOf(gen, q) == gen(b).nextLabel - 1 <==> (q == PEndIf(b) || q == PEndFor(b))
  {
    if q.PLabel? {
      NotFailed(p, e, b, i);
      GenAlwaysOk(p, e, b);
    } else if q.b != b {
      LabelsAt2(p, e, gen, q.b, b, i);
    }
  }

  // A bracket that opens at b is not closed at or before b.
  lemma {:induction false} NotBefore(p: seq<Instr>, q: Point, n: nat)
    requires !q.PLabel? && n <= |p| && n <= q.b + 1
    ensures Target(p, q, n) == None
  {
    if n > 0 {
      NotBefore(p, q, n - 1);
      BeginsBelow(p, n - 1);
    }
  }

  lemma BeginsBelow(p: seq<Instr>, i: nat)
    requires i <= |p|
    ensures IfsOpen(p[..i]).Some? ==> forall k :: 0 <= k < |IfsOpen(p[..i]).value| ==>
      IfsOpen(p[..i]).value[k].begin < i
    ensures ForsOpen(p[..i]).Some? ==> forall k :: 0 <= k < |ForsOpen(p[..i]).value| ==> ForsOpen(p[..i]).value[k] < i
  {
  }

  // What instruction i does to label l.
  ghost predicate KeepsLabel(g: Gen, h: Gen, l: int) {
    (l in h.labels <==> l in g.labels) && (l in g.labels ==> h.labels[l] == g.labels[l])
  }

  ghost predicate TracksPoint(p: seq<Instr>, i: nat, q: Point, g: Gen, h: Gen, l: int)
    requires i < |p|
  {
    if PointBefore(p, i, q) then
      if Marks(p, i, q) then l in h.labels && h.labels[l] == |h.code| else KeepsLabel(g, h, l)
    else PointBefore(p, i + 1, q) ==> l !in h.labels
  }

  lemma TracksAt(p: seq<Instr>, e: set<int>, gen: nat -> Gen, i: nat, q: Point)
    requires i < |p| && !G(p, e, i + 1).failed && NonNegative(e) && gen == States(p, e)
    ensures TracksPoint(p, i, q, gen(i), gen(i + 1), LabelOf(gen, q))
  {
    NotFailed(p, e, i, i + 1);
    if PointBefore(p, i, q) {
      PlacesMarks(p, e, gen, i, q);
      LabelIsOld(p, e, gen, i, q);
      LabelsStep(p, e, gen, i, LabelOf(gen, q));
    } else if PointBefore(p, i + 1, q) {
      StepAt(p, e, i);
      TwoLabels(G(p, e, i), e, p[i]);
      LabelsFresh(p, e, gen, i, LabelOf(gen, q));
    }
  }

  lemma LabelIsOld(p: seq<Instr>, e: set<int>, gen: nat -> Gen, i: nat, q: Point)
    requires i <= |p| && !G(p, e, i).failed && NonNegative(e) && gen == States(p, e) && PointBefore(p, i, q)
    ensures LabelOf(gen, q) > gen(i).nextLabel
  {
    if q.PLabel? {
      GenAlwaysOk(p, e, i);
    } else {
      LabelsApart(p, e, gen, q.b, i);
    }
  }

  lemma {:induction false} TargetTracked(p: seq<Instr>, gen: nat -> Gen, i: nat, q: Point, l: int)
    requires i <= |p| && PointBefore(p, i, q) &&
      (forall k :: 0 <= k < i ==> TracksPoint(p, k, q, gen(k), gen(k + 1), l))
    requires gen(0).labels == map[]
    ensures l in gen(i).labels <==> Target(p, q, i).Some?
    ensures Target(p, q, i).Some? ==> gen(i).labels[l] == |gen(Target(p, q, i).value).code|
    decreases i
  {
    if i > 0 {
      assert TracksPoint(p, i - 1, q, gen(i - 1), gen(i), l);
      if PointBefore(p, i - 1, q) {
        TargetTracked(p, gen, i - 1, q, l);
      } else {
        NotBefore(p, q, i);
      }
    }
  }

  // The label of every control point is where the IR says the control point is.
  lemma TargetLabel(p: seq<Instr>, e: set<int>, gen: nat -> Gen, i: nat, q: Point)
    requires i <= |p| && !G(p, e, i).failed && NonNegative(e) && gen == States(p, e) && PointBefore(p, i, q)
    ensures LabelOf(gen, q) in gen(i).labels <==> Target(p, q, i).Some?
    ensures Target(p, q, i).Some? ==> gen(i).labels[LabelOf(gen, q)] == |gen(Target(p, q, i).value).code|
  {
    forall k | 0 <= k < i ensures TracksPoint(p, k, q, gen(k), gen(k + 1), LabelOf(gen, q)) {
      NotFailed(p, e, k + 1, i);
      TracksAt(p, e, gen, k, q);
    }
    TargetTracked(p, gen, i, q, LabelOf(gen, q));
  }

  // An operator's own label, or a loop's start label, stays where it was placed.
  predicate OwnLabel(p: seq<Instr>, gen: nat -> Gen, l: int) {
    && l < 0
    && (forall b :: 0 <= b < |p| && p[b].IfBegin? ==> l != gen(b).nextLabel && l != gen(b).nextLabel - 1)
    && (forall b :: 0 <= b < |p| && p[b].ForBegin? ==> l != gen(b).nextLabel - 1)
  }

  lemma OwnLabelKept(p: seq<Instr>, e: set<int>, gen: nat -> Gen, i: nat, l: int)
    requires i < |p| && !G(p, e, i + 1).failed && NonNegative(e) && gen == States(p, e)
    requires l > gen(i).nextLabel && OwnLabel(p, gen, l)
    ensures KeepsLabel(gen(i), gen(i + 1), l)
  {
    LabelsStep(p, e, gen, i, l);
    StacksMatch(p, e, i, gen);
    NotPlaced(p, gen, i, IfsOpen(p[..i]).value, ForsOpen(p[..i]).value, gen(i), l);
  }

  lemma NotPlaced(p: seq<Instr>, gen: nat -> Gen, i: nat, ifs: seq<Open>, fors: seq<nat>, g: Gen, l: int)
    requires i < |p| && OwnLabel(p, gen, l) && IfsMatch(gen, i, g.ifs, ifs) && ForsMatch(gen, i, g.fors, fors)
    requires forall k :: 0 <= k < |ifs| ==> ifs[k].begin < |p| && p[ifs[k].begin].IfBegin?
    requires forall k :: 0 <= k < |fors| ==> fors[k] < |p| && p[fors[k]].ForBegin?
    ensures !Places(g, p[i], l)
  {
  }

  lemma {:induction false} KeptThrough(gen: nat -> Gen, i: nat, j: nat, l: int)
    requires i <= j && (forall k :: i <= k < j ==> KeepsLabel(gen(k), gen(k + 1), l)) && l in gen(i).labels
    ensures l in gen(j).labels && gen(j).labels[l] == gen(i).labels[l]
    decreases j
  {
    if i < j {
      KeptThrough(gen, i, j - 1, l);
      assert KeepsLabel(gen(j - 1), gen(j), l);
    }
  }

  lemma OwnLabelKeptAt(p: seq<Instr>, e: set<int>, gen: nat -> Gen, i: nat, j: nat, k: nat, l: int)
    requires i <= k < j <= |p| && !G(p, e, j).failed && NonNegative(e) && gen == States(p, e)
    requires l > gen(i).nextLabel && OwnLabel(p, gen, l)
    ensures KeepsLabel(gen(k), gen(k + 1), l)
  {
    NotFailed(p, e, k + 1, j);
    NotFailed(p, e, k, j);
    GrowsTo(p, e, i, k);
    OwnLabelKept(p, e, gen, k, l);
  }

  lemma OwnLabelStays(p: seq<Instr>, e: set<int>, gen: nat -> Gen, i: nat, j: nat, l: int)
    requires i <= j <= |p| && !G(p, e, j).failed && NonNegative(e) && gen == States(p, e)
    requires l > gen(i).nextLabel && OwnLabel(p, gen, l) && l in gen(i).labels
    ensures l in gen(j).labels && gen(j).labels[l] == gen(i).labels[l]
  {
    forall k | i <= k < j ensures KeepsLabel(gen(k), gen(k + 1), l) {
      OwnLabelKeptAt(p, e, gen, i, j, k, l);
    }
    KeptThrough(gen, i, j, l);
  }

  lemma OwnLabelAt(p: seq<Instr>, e: set<int>, gen: nat -> Gen, i: nat, l: int)
    requires i < |p| && !G(p, e, |p|).failed && NonNegative(e) && gen == States(p, e)
    requires gen(i + 1).nextLabel < l <= gen(i).nextLabel && (Opens(p[i]) ==> p[i].ForBegin? && l == gen(i).nextLabel)
    ensures OwnLabel(p, gen, l)
  {
    NotFailed(p, e, i, |p|);
    NegativeLabels(p, e, gen, i);
    forall b | 0 <= b < |p| && Opens(p[b]) && b != i ensures l < gen(b).nextLabel - 1 || l > gen(b).nextLabel {
      if b < i {
        LabelsApart(p, e, gen, b, i);
      } else {
        NotFailed(p, e, b, |p|);
        GrowsTo(p, e, i + 1, b);
      }
    }
  }

  lemma UnLabelsOf(g: Gen, e: set<int>, ins: Instr)
    requires GenOk(g, e) && !g.failed && ins.Un?
    ensures var h := CompileInstr(g, e, ins);
      && h.labels == PlaceLabels(g.labels, g.nextLabel, |LoadOperand(g, ins.a, X9).code|, UnLabels(ins.uop))
      && h.nextLabel == g.nextLabel - |UnLabels(ins.uop)|
  {
    var g1 := LoadOperand(g, ins.a, X9);
    LoadGen(g, e, ins.a, X9);
    BodyGen(g1, e, UnCode(ins.uop, g.nextLabel), UnLabels(ins.uop));
    StoreGen(EmitBody(g1, UnCode(ins.uop, g.nextLabel), UnLabels(ins.uop)), e, ins.dst, X9);
  }

  lemma BinLabelsOf(g: Gen, e: set<int>, ins: Instr)
    requires GenOk(g, e) && !g.failed && ins.Bin?
    ensures var h := CompileInstr(g, e, ins);
      && h.labels == PlaceLabels(g.labels, g.nextLabel, |BinLoads(g, ins).code|, BinLabels(ins.bop))
      && h.nextLabel == g.nextLabel - |BinLabels(ins.bop)|
  {
    BinLoadsGen(g, e, ins);
    BodyGen(BinLoads(g, ins), e, BinCode(ins.bop, g.nextLabel), BinLabels(ins.bop));
    StoreGen(EmitBody(BinLoads(g, ins), BinCode(ins.bop, g.nextLabel), BinLabels(ins.bop)), e, ins.dst, X9);
  }

  lemma StoreIndexLabelsOf(g: Gen, e: set<int>, ins: Instr)
    requires GenOk(g, e) && !g.failed && ins.StoreIndex?
    ensures var h := CompileInstr(g, e, ins);
      h.labels == PlaceLabels(g.labels, g.nextLabel, |IndexLoads(g, ins).code|, [4]) && h.nextLabel == g.nextLabel - 1
  {
    IndexLoadsGen(g, e, ins);
    BodyGen(IndexLoads(g, ins), e, WrapNegativeIndex(g.nextLabel) + ElementAddress(), [4]);
    LoadGen(IndexAddr(g, ins), e, ins.val, X12);
  }
}
