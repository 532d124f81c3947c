/** Which variables have a slot: exactly those the program mentions, whichever temps are kept. */
module ArmVariables {

  import opened ArmMachine
  import opened ArmIr
  import opened ArmCodegen
  import opened ArmLayout

  // The instruction reads or writes variable v.
  predicate Touches(ins: Instr, v: int) {
    || OpRef(RVar(v)) in Uses(ins)
    || ((ins.Un? || ins.Bin?) && ins.dst == RVar(v))
    || (ins.ForBegin? && ins.x == v)
  }

  predicate Mentions(p: seq<Instr>, v: int) {
    exists i :: 0 <= i < |p| && Touches(p[i], v)
  }

  predicate HasSlot(g: Gen, v: int) {
    RVar(v) in g.slotOf
  }

  lemma LoadSlot(g: Gen, o: Operand, d: Reg, v: int)
    ensures HasSlot(LoadOperand(g, o, d), v) <==> HasSlot(g, v) || o == OpRef(RVar(v))
  {
  }

  lemma StoreSlot(g: Gen, e: set<int>, r: Ref, n: Reg, v: int)
    ensures HasSlot(StoreResult(g, e, r, n), v) <==> HasSlot(g, v) || r == RVar(v)
  {
  }

  lemma ForHeadSlot(g: Gen, c: ForCtx, v: int)
    requires c.arrRef.RTemp? && c.idxRef.RTemp?
    ensures HasSlot(ForHead(g, c), v) <==> HasSlot(g, v)
  {
    LoadSlot(g, OpRef(c.idxRef), X9, v);
    LoadSlot(LoadOperand(g, OpRef(c.idxRef), X9), OpRef(c.arrRef), X10, v);
  }

  lemma ForElementSlot(g: Gen, c: ForCtx, v: int)
    requires c.arrRef.RTemp? && c.idxRef.RTemp?
    ensures HasSlot(ForElement(g, c), v) <==> HasSlot(g, v)
  {
    LoadSlot(g, OpRef(c.arrRef), X9, v);
    LoadSlot(LoadOperand(g, OpRef(c.arrRef), X9), OpRef(c.idxRef), X10, v);
  }

  lemma ForCellsSlot(g: Gen, e: set<int>, c: ForCtx, arr: Operand, v: int)
    requires c.arrRef.RTemp? && c.idxRef.RTemp?
    ensures HasSlot(ForCells(g, e, c, arr), v) <==> HasSlot(g, v) || arr == OpRef(RVar(v))
  {
    var g1 := LoadOperand(g, arr, X9);
    var g2 := StoreResult(g1, e, c.arrRef, X9);
    LoadSlot(g, arr, X9, v);
    StoreSlot(g1, e, c.arrRef, X9, v);
    StoreSlot(Emit(g2, MovImm(X9, 0)), e, c.idxRef, X9, v);
  }

  lemma ForBeginSlot(g: Gen, e: set<int>, x: int, arr: Operand, v: int)
    ensures HasSlot(CompileForBegin(g, e, x, arr), v) <==> HasSlot(g, v) || arr == OpRef(RVar(v)) || x == v
  {
    var c := NewFor(g);
    var g1 := ForInit(g, e, c, arr);
    var g2 := ForHead(g1, c);
    ForCellsSlot(ForStart(g), e, c, arr, v);
    ForHeadSlot(g1, c, v);
    ForElementSlot(g2, c, v);
    StoreSlot(ForElement(g2, c), e, RVar(x), X9, v);
  }

  lemma ForEndSlot(g: Gen, e: set<int>, v: int)
    requires g.fors != [] && g.fors[|g.fors| - 1].idxRef.RTemp?
    ensures HasSlot(CompileForEnd(g, e), v) <==> HasSlot(g, v)
  {
    var c := g.fors[|g.fors| - 1];
    var g0 := g.(fors := g.fors[..|g.fors| - 1]);
    LoadSlot(g0, OpRef(c.idxRef), X9, v);
    StoreSlot(Emit(LoadOperand(g0, OpRef(c.idxRef), X9), AddImm(X9, X9, 1)), e, c.idxRef, X9, v);
  }

  lemma UnSlot(g: Gen, e: set<int>, ins: Instr, v: int)
    requires ins.Un? && !g.failed
    ensures HasSlot(CompileInstr(g, e, ins), v) <==> HasSlot(g, v) || Touches(ins, v)
  {
    var g1 := LoadOperand(g, ins.a, X9);
    LoadSlot(g, ins.a, X9, v);
    StoreSlot(EmitBody(g1, UnCode(ins.uop, g.nextLabel), UnLabels(ins.uop)), e, ins.dst, X9, v);
  }

  lemma BinSlot(g: Gen, e: set<int>, ins: Instr, v: int)
    requires ins.Bin? && !g.failed
    ensures HasSlot(CompileInstr(g, e, ins), v) <==> HasSlot(g, v) || Touches(ins, v)
  {
    var g1 := EmitBody(LoadOperand(g, ins.a, X9), BinPre(ins.bop), []);
    LoadSlot(g, ins.a, X9, v);
    LoadSlot(g1, ins.b, X10, v);
    StoreSlot(EmitBody(BinLoads(g, ins), BinCode(ins.bop, g.nextLabel), BinLabels(ins.bop)), e, ins.dst, X9, v);
  }

  lemma StoreIndexSlot(g: Gen, e: set<int>, ins: Instr, v: int)
    requires ins.StoreIndex? && !g.failed
    ensures HasSlot(CompileInstr(g, e, ins), v) <==> HasSlot(g, v) || Touches(ins, v)
  {
    LoadSlot(g, ins.arr, X9, v);
    LoadSlot(LoadOperand(g, ins.arr, X9), ins.idx, X10, v);
    LoadSlot(IndexAddr(g, ins), ins.val, X12, v);
  }

  // Every open loop's cells are hidden temps.
  predicate CellsHidden(g: Gen) {
    forall k :: 0 <= k < |g.fors| ==> g.fors[k].arrRef.RTemp? && g.fors[k].idxRef.RTemp?
  }

  lemma InstrSlot(g: Gen, e: set<int>, ins: Instr, v: int)
    requires !g.failed && !CompileInstr(g, e, ins).failed && CellsHidden(g)
    ensures HasSlot(CompileInstr(g, e, ins), v) <==> HasSlot(g, v) || Touches(ins, v)
  {
    match ins
    case Un(_, _, _) => UnSlot(g, e, ins, v);
    case Bin(_, _, _, _) => BinSlot(g, e, ins, v);
    case StoreIndex(_, _, _) => StoreIndexSlot(g, e, ins, v);
    case Print(a) => LoadSlot(g, a, X0, v);
    case JumpIfFalse(a, _) => LoadSlot(g, a, X9, v);
    case JumpIfTrue(a, _) => LoadSlot(g, a, X9, v);
    case IfBegin(a) => LoadSlot(FreshLabels(g, 2), a, X9, v);
    case ForBegin(x, arr) => ForBeginSlot(g, e, x, arr, v);
    case ForEnd => ForEndSlot(g, e, v);
    case _ =>
  }

  lemma HiddenStep(g: Gen, h: Gen, ins: Instr)
    requires ControlStep(g, h, ins) && CellsHidden(g)
    ensures CellsHidden(h)
  {
  }

  lemma {:induction false} AlwaysHidden(p: seq<Instr>, e: set<int>, i: nat)
    requires i <= |p| && !G(p, e, i).failed && NonNegative(e)
    ensures CellsHidden(G(p, e, i))
  {
    if i > 0 {
      StepAt(p, e, i - 1);
      AlwaysHidden(p, e, i - 1);
      HiddenStep(G(p, e, i - 1), G(p, e, i), p[i - 1]);
    }
  }

  lemma SlotAt(p: seq<Instr>, e: set<int>, i: nat, v: int)
    requires i < |p| && !G(p, e, i + 1).failed && NonNegative(e)
    ensures HasSlot(G(p, e, i + 1), v) <==> HasSlot(G(p, e, i), v) || Touches(p[i], v)
    ensures !G(p, e, i).failed
  {
    NextGen(p, e, i);
    NotFailed(p, e, i, i + 1);
    AlwaysHidden(p, e, i);
    InstrSlot(G(p, e, i), e, p[i], v);
  }

  predicate TouchedSoFar(p: seq<Instr>, i: nat, v: int)
    requires i <= |p|
  {
    exists j :: 0 <= j < i && Touches(p[j], v)
  }

  lemma TouchedNext(p: seq<Instr>, i: nat, v: int)
    requires i < |p|
    ensures TouchedSoFar(p, i + 1, v) <==> TouchedSoFar(p, i, v) || Touches(p[i], v)
  {
  }

  lemma {:induction false} SlotsSoFar(p: seq<Instr>, e: set<int>, i: nat, v: int)
    requires i <= |p| && !G(p, e, i).failed && NonNegative(e)
    ensures HasSlot(G(p, e, i), v) <==> TouchedSoFar(p, i, v)
  {
    if i > 0 {
      SlotAt(p, e, i - 1, v);
      TouchedNext(p, i - 1, v);
      SlotsSoFar(p, e, i - 1, v);
    }
  }

  /** After the whole program exactly the mentioned variables have a slot, whichever temps are kept. */
  lemma SlotsCover(p: seq<Instr>, e: set<int>, v: int)
    requires !Compiled(p, e).failed && NonNegative(e)
    ensures RVar(v) in EnsureSpilled(Compiled(p, e)).slotOf <==> Mentions(p, v)
  {
    assert p[..|p|] == p;
    SlotsSoFar(p, e, |p|, v);
  }

  // ---- A variable without a slot ----

  lemma StepKeepsOthers(p: seq<Instr>, s: State, v: int)
    requires !Done(p, s) && !Mentions(p, v)
    ensures Lookup(IStep(p, s).env, RVar(v)) == Lookup(s.env, RVar(v))
  {
    assert !Touches(p[s.pc], v);
    if p[s.pc].ForEnd? {
      var open := ForsOpen(p[..s.pc]);
      if open.Some? && open.value != [] {
        assert !Touches(p[open.value[|open.value| - 1]], v);
      }
    }
  }

  /** A variable that the program does not mention keeps its value through every run. */
  lemma {:induction false} OthersKept(p: seq<Instr>, s: State, n: nat, v: int)
    requires !Mentions(p, v)
    ensures Lookup(IRun(p, s, n).env, RVar(v)) == Lookup(s.env, RVar(v))
    decreases n
  {
    if n > 0 && !Done(p, s) {
      StepKeepsOthers(p, s, v);
      OthersKept(p, IStep(p, s), n - 1, v);
    }
  }
}
