/** The code generator: temps that stay in a register, lazily numbered slots, and IF/FOR turned into branches.
    `Gen` is the emitter's state as a value and the functions below say what each emitter routine does to it;
    class `ArmCompiler.Compiler` is the emitter itself, with the state in fields. */
module ArmCodegen {
  import opened ArmMachine
  import opened ArmIr

  datatype IfCtx = IfCtx(elseLabel: int, endLabel: int, sawElse: bool)

  datatype ForCtx = ForCtx(arrRef: Ref, idxRef: Ref, startLabel: int, endLabel: int)

  datatype Gen = Gen(
    code: seq<MInstr>, labels: map<int, nat>,
    slotOf: map<Ref, nat>, nextSlot: nat,
    pendId: int, pendReg: Reg,            // the temp held in a register, -1 when there is none
    ifs: seq<IfCtx>, fors: seq<ForCtx>,
    nextLabel: int, nextHidden: int,
    failed: bool)                         // a compile error was raised

  // Slots 0 and 1 belong to the allocator.
  const INITIAL := Gen([], map[], map[], 2, -1, X9, [], [], -2000, -100000, false)

  function Emit(g: Gen, ins: MInstr): Gen {
    g.(code := g.code + [ins])
  }

  function EmitLabel(g: Gen, l: int): Gen {
    g.(labels := g.labels[l := |g.code|])
  }

  function FreshLabels(g: Gen, n: nat): Gen {
    g.(nextLabel := g.nextLabel - n)
  }

  function SlotFor(g: Gen, r: Ref): Gen {
    if r in g.slotOf then g else g.(slotOf := g.slotOf[r := g.nextSlot], nextSlot := g.nextSlot + 1)
  }

  // Stores register n into the slot of r.
  function Spill(g: Gen, r: Ref, n: Reg): Gen {
    var h := SlotFor(g, r);
    Emit(h, StrSlot(n, h.slotOf[r]))
  }

  function EnsureSpilled(g: Gen): Gen {
    if g.pendId < 0 then g else Spill(g.(pendId := -1), RTemp(g.pendId), g.pendReg)
  }

  function ProtectPending(g: Gen, d: Reg): Gen {
    if g.pendId >= 0 && g.pendReg == d then Emit(g, MovReg(TCACHE, g.pendReg)).(pendReg := TCACHE) else g
  }

  // Loads from memory, or an immediate, into a register that is free.
  function Fetched(h: Gen, o: Operand, d: Reg): Gen {
    match o
    case OpConst(w) => Emit(h, MovImm(d, w))
    case OpRef(r) => (var k := SlotFor(h, r); Emit(k, LdrSlot(d, k.slotOf[r])))
    case OpNone => Emit(h, MovImm(d, 0))
  }

  function LoadOperand(g: Gen, o: Operand, d: Reg): Gen {
    if o.OpRef? && o.ref == RTemp(g.pendId) then
      (if d != g.pendReg then Emit(g, MovReg(d, g.pendReg)) else g).(pendId := -1)
    else
      Fetched(ProtectPending(g, d), o, d)
  }

  function StoreResult(g: Gen, elidable: set<int>, r: Ref, n: Reg): Gen {
    if r.RTemp? && r.id in elidable then EnsureSpilled(g).(pendId := r.id, pendReg := n)
    else Spill(EnsureSpilled(g), r, n)
  }

  // Places the labels l and l-1 at the given offsets from base.
  function PlaceLabels(labels: map<int, nat>, l: int, base: nat, offs: seq<nat>): map<int, nat>
    requires |offs| <= 2
  {
    if |offs| == 0 then labels
    else if |offs| == 1 then labels[l := base + offs[0]]
    else labels[l := base + offs[0]][l - 1 := base + offs[1]]
  }

  // Appends a straight piece of code whose own labels, made here, stand at the given offsets.
  function EmitBody(g: Gen, code: seq<MInstr>, offs: seq<nat>): Gen
    requires |offs| <= 2
  {
    g.(code := g.code + code,
       labels := PlaceLabels(g.labels, g.nextLabel, |g.code|, offs),
       nextLabel := g.nextLabel - |offs|)
  }

  // ---- Operator code: operands in X9 and X10, result in X9; l is the first label the code makes ----

  function AbsCode(l: int): seq<MInstr> {
    [Cmp(X9, XZR), BCond(GE, l), Neg(X9, X9)]
  }

  function FlagCode(n: Reg, c: Cond): seq<MInstr> {
    [Cmp(n, XZR), Cset(n, c)]
  }

  function UnCode(op: UnOp, l: int): seq<MInstr> {
    match op
    case UCopy => []
    case UNot => FlagCode(X9, EQ)
    case UBool => FlagCode(X9, NE)
    case UBnot => [Mvn(X9, X9)]
    case UAbs => AbsCode(l)
    case ULen => [Ldr(X9, X9)]
  }

  function UnLabels(op: UnOp): seq<nat> {
    if op.UAbs? then [3] else []
  }

  // compileTruthBin turns the first operand into 0/1 before it loads the second one.
  function BinPre(op: BinOp): seq<MInstr> {
    if op.BTruth? then FlagCode(X9, NE) else []
  }

  function DivZeroGuard(l: int): seq<MInstr> {
    [Cbnz(X10, l), BlTrap]
  }

  function ModTail(l: int): seq<MInstr> {
    [Cbz(X9, l), AluReg(Logic(BitXor), X11, X9, X10), Cmp(X11, XZR), BCond(GE, l), AluReg(Add, X9, X9, X10)]
  }

  function TruthCode(t: Truth): seq<MInstr> {
    match t
    case TAnd => [AluReg(Logic(BitAnd), X9, X9, X10)]
    case TOr => [AluReg(Logic(BitOr), X9, X9, X10)]
    case TXor => [AluReg(Logic(BitXor), X9, X9, X10)]
    case TXnor => [AluReg(Logic(BitXor), X9, X9, X10)] + FlagCode(X9, EQ)
  }

  // X9 := address of element X10 of the list at X9.
  function ElementAddress(): seq<MInstr> {
    [AddImm(X10, X10, 1), MovImm(X11, 8), AluReg(Mul, X10, X10, X11), AluReg(Add, X9, X9, X10)]
  }

  function WrapNegativeIndex(l: int): seq<MInstr> {
    [Cmp(X10, XZR), BCond(GE, l), Ldr(X11, X9), AluReg(Add, X10, X10, X11)]
  }

  function BinCode(op: BinOp, l: int): seq<MInstr> {
    match op
    case BAlu(alu) => [AluReg(alu, X9, X9, X10)]
    case BIdiv => DivZeroGuard(l) + [AluReg(Sdiv, X9, X9, X10)]
    case BMod => DivZeroGuard(l) + [AluReg(Sdiv, X11, X9, X10), Msub(X9, X11, X10, X9)] + ModTail(l - 1)
    case BXsub => [AluReg(Sub, X9, X9, X10)] + AbsCode(l) + [AddImm(X9, X9, 1)]
    case BTruth(t) => FlagCode(X10, NE) + TruthCode(t)
    case BCmp(c) => [Cmp(X9, X10), Cset(X9, c)]
    case BIndex => WrapNegativeIndex(l) + ElementAddress() + [Ldr(X9, X9)]
  }

  function BinLabels(op: BinOp): seq<nat> {
    match op
    case BIdiv => [2]
    case BMod => [2, 9]
    case BXsub => [4]
    case BIndex => [4]
    case _ => []
  }

  // ---- Structured control flow ----

  function CompileIfBegin(g: Gen, a: Operand): Gen {
    var c := IfCtx(g.nextLabel, g.nextLabel - 1, false);
    var g1 := Emit(LoadOperand(FreshLabels(g, 2), a, X9), Cbz(X9, c.elseLabel));
    g1.(ifs := g1.ifs + [c])
  }

  function CompileIfElse(g: Gen): Gen {
    if g.ifs == [] then g.(failed := true) else
    var c := g.ifs[|g.ifs| - 1];
    var g1 := EmitLabel(Emit(g, B(c.endLabel)), c.elseLabel);
    g1.(ifs := g1.ifs[..|g1.ifs| - 1] + [IfCtx(c.elseLabel, c.endLabel, true)])
  }

  function CompileIfEnd(g: Gen): Gen {
    if g.ifs == [] then g.(failed := true) else
    var c := g.ifs[|g.ifs| - 1];
    var g1 := g.(ifs := g.ifs[..|g.ifs| - 1]);
    EmitLabel(if c.sawElse then g1 else EmitLabel(g1, c.elseLabel), c.endLabel)
  }

  // The loop context that FOR_BEGIN makes: two hidden temps and two labels.
  function NewFor(g: Gen): ForCtx {
    ForCtx(RTemp(g.nextHidden), RTemp(g.nextHidden - 1), g.nextLabel, g.nextLabel - 1)
  }

  // The emitter as FOR_BEGIN takes its labels and cells.
  function ForStart(g: Gen): Gen {
    FreshLabels(g.(nextHidden := g.nextHidden - 2), 2)
  }

  function ForCells(g: Gen, e: set<int>, c: ForCtx, arr: Operand): Gen {
    var g1 := StoreResult(LoadOperand(g, arr, X9), e, c.arrRef, X9);
    EmitLabel(StoreResult(Emit(g1, MovImm(X9, 0)), e, c.idxRef, X9), c.startLabel)
  }

  function ForInit(g: Gen, e: set<int>, c: ForCtx, arr: Operand): Gen {
    ForCells(ForStart(g), e, c, arr)
  }

  function ForHead(g: Gen, c: ForCtx): Gen {
    var g1 := LoadOperand(LoadOperand(g, OpRef(c.idxRef), X9), OpRef(c.arrRef), X10);
    EmitBody(g1, [Ldr(X10, X10), Cmp(X9, X10), BCond(GE, c.endLabel)], [])
  }

  function ForElement(g: Gen, c: ForCtx): Gen {
    EmitBody(LoadOperand(LoadOperand(g, OpRef(c.arrRef), X9), OpRef(c.idxRef), X10), ElementAddress() + [Ldr(X9, X9)],
      [])
  }

  function CompileForBegin(g: Gen, e: set<int>, x: int, arr: Operand): Gen {
    var c := NewFor(g);
    var g1 := StoreResult(ForElement(ForHead(ForInit(g, e, c, arr), c), c), e, RVar(x), X9);
    g1.(fors := g1.fors + [c])
  }

  function CompileForEnd(g: Gen, e: set<int>): Gen {
    if g.fors == [] then g.(failed := true) else
    var c := g.fors[|g.fors| - 1];
    var g1 := Emit(LoadOperand(g.(fors := g.fors[..|g.fors| - 1]), OpRef(c.idxRef), X9), AddImm(X9, X9, 1));
    EmitLabel(Emit(StoreResult(g1, e, c.idxRef, X9), B(c.startLabel)), c.endLabel)
  }

  function CompileInstr(g: Gen, e: set<int>, ins: Instr): Gen {
    if g.failed then g else
    match ins
    case Un(op, d, a) => StoreResult(EmitBody(LoadOperand(g, a, X9), UnCode(op, g.nextLabel), UnLabels(op)), e, d, X9)
    case Bin(op, d, a, b) =>
      var g1 := LoadOperand(EmitBody(LoadOperand(g, a, X9), BinPre(op), []), b, X10);
      StoreResult(EmitBody(g1, BinCode(op, g.nextLabel), BinLabels(op)), e, d, X9)
    case StoreIndex(arr, idx, val) =>
      var g1 := LoadOperand(LoadOperand(g, arr, X9), idx, X10);
      var g2 := EmitBody(g1, WrapNegativeIndex(g.nextLabel) + ElementAddress(), [4]);
      Emit(LoadOperand(g2, val, X12), Str(X12, X9))
    case Print(a) => Emit(LoadOperand(g, a, X0), BlPrint)
    case Label(l) => EmitLabel(g, l)
    case Jump(l) => Emit(g, B(l))
    case JumpIfFalse(a, l) => Emit(LoadOperand(g, a, X9), Cbz(X9, l))
    case JumpIfTrue(a, l) => Emit(LoadOperand(g, a, X9), Cbnz(X9, l))
    case IfBegin(a) => CompileIfBegin(g, a)
    case IfElse => CompileIfElse(g)
    case IfEnd => CompileIfEnd(g)
    case ForBegin(x, arr) => CompileForBegin(g, e, x, arr)
    case ForEnd => CompileForEnd(g, e)
    case Marker => g
  }

  // The emitter's state after the instructions of p.
  function Compiled(p: seq<Instr>, e: set<int>): Gen {
    if p == [] then INITIAL else CompileInstr(Compiled(p[..|p| - 1], e), e, p[|p| - 1])
  }

  predicate BranchTo(ins: MInstr, l: int) {
    match ins
    case B(k) => k == l
    case Cbz(_, k) => k == l
    case Cbnz(_, k) => k == l
    case BCond(_, k) => k == l
    case _ => false
  }

  // No unresolved branch label: the fixup pass finds every label.
  ghost predicate Resolved(g: Gen) {
    forall i, l :: 0 <= i < |g.code| && BranchTo(g.code[i], l) ==> l in g.labels
  }

  // The finished program of a compile that raised no error.
  ghost predicate Compiles(p: seq<Instr>, e: set<int>) {
    !Compiled(p, e).failed && Resolved(EnsureSpilled(Compiled(p, e)))
  }
}
