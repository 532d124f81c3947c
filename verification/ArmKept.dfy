/** What keeping temps in a register saves: a temp that is defined once and kept never gets a slot, so that no
    instruction stores it to memory or loads it from there. */
module ArmKept {
  import opened ArmMachine
  import opened ArmIr
  import opened ArmCodegen
  import opened ArmLayout
  import opened ArmCorrect

  // t has no slot, and is the pending temp exactly when it is held.
  predicate NoSlot(g: Gen, t: int, held: bool) {
    RTemp(t) !in g.slotOf && (g.pendId == t <==> held)
  }

  lemma LoadKept(g: Gen, o: Operand, d: Reg, t: int, held: bool)
    requires t >= 0 && NoSlot(g, t, held) && (o == OpRef(RTemp(t)) ==> held)
    ensures NoSlot(LoadOperand(g, o, d), t, held && o != OpRef(RTemp(t)))
  {
  }

  lemma StoreKept(g: Gen, e: set<int>, r: Ref, n: Reg, t: int)
    requires t >= 0 && NoSlot(g, t, false) && (r == RTemp(t) ==> t in e)
    ensures NoSlot(StoreResult(g, e, r, n), t, r == RTemp(t))
  {
  }

  // The cells of the loops are temps that no program names.
  predicate CellsBelow(g: Gen) {
    && g.nextHidden < 0
    && forall k :: 0 <= k < |g.fors| ==> IsHidden(g.fors[k].arrRef) && IsHidden(g.fors[k].idxRef)
  }

  predicate IsHidden(r: Ref) {
    r.RTemp? && r.id < 0
  }

  lemma ForHeadKept(g: Gen, c: ForCtx, t: int)
    requires t >= 0 && IsHidden(c.arrRef) && IsHidden(c.idxRef) && NoSlot(g, t, false)
    ensures NoSlot(ForHead(g, c), t, false)
  {
    LoadKept(g, OpRef(c.idxRef), X9, t, false);
    LoadKept(LoadOperand(g, OpRef(c.idxRef), X9), OpRef(c.arrRef), X10, t, false);
  }

  lemma ForElementKept(g: Gen, c: ForCtx, t: int)
    requires t >= 0 && IsHidden(c.arrRef) && IsHidden(c.idxRef) && NoSlot(g, t, false)
    ensures NoSlot(ForElement(g, c), t, false)
  {
    LoadKept(g, OpRef(c.arrRef), X9, t, false);
    LoadKept(LoadOperand(g, OpRef(c.arrRef), X9), OpRef(c.idxRef), X10, t, false);
  }

  lemma ForCellsKept(g: Gen, e: set<int>, c: ForCtx, arr: Operand, t: int)
    requires t >= 0 && IsHidden(c.arrRef) && IsHidden(c.idxRef) && NoSlot(g, t, arr == OpRef(RTemp(t)))
    ensures NoSlot(ForCells(g, e, c, arr), t, false)
  {
    var g1 := LoadOperand(g, arr, X9);
    var g2 := StoreResult(g1, e, c.arrRef, X9);
    LoadKept(g, arr, X9, t, arr == OpRef(RTemp(t)));
    StoreKept(g1, e, c.arrRef, X9, t);
    StoreKept(Emit(g2, MovImm(X9, 0)), e, c.idxRef, X9, t);
  }

  lemma ForBeginKept(g: Gen, e: set<int>, x: int, arr: Operand, t: int)
    requires t >= 0 && g.nextHidden < 0 && NoSlot(g, t, arr == OpRef(RTemp(t)))
    ensures NoSlot(CompileForBegin(g, e, x, arr), t, false)
  {
    var c := NewFor(g);
    var g1 := ForInit(g, e, c, arr);
    var g2 := ForHead(g1, c);
    ForCellsKept(ForStart(g), e, c, arr, t);
    ForHeadKept(g1, c, t);
    ForElementKept(g2, c, t);
    StoreKept(ForElement(g2, c), e, RVar(x), X9, t);
  }

  lemma ForEndKept(g: Gen, e: set<int>, t: int)
    requires t >= 0 && g.fors != [] && IsHidden(g.fors[|g.fors| - 1].idxRef) && NoSlot(g, t, false)
    ensures NoSlot(CompileForEnd(g, e), t, false)
  {
    var c := g.fors[|g.fors| - 1];
    var g0 := g.(fors := g.fors[..|g.fors| - 1]);
    LoadKept(g0, OpRef(c.idxRef), X9, t, false);
    StoreKept(Emit(LoadOperand(g0, OpRef(c.idxRef), X9), AddImm(X9, X9, 1)), e, c.idxRef, X9, t);
  }

  // The instruction reads t once when t is held, and else not at all; what it defines of t is kept.
  predicate Fitting(g: Gen, e: set<int>, ins: Instr, t: int, held: bool) {
    && !g.failed && t >= 0 && NoSlot(g, t, held) && CountIn(Uses(ins), t) == (if held then 1 else 0)
    && (Defines(ins, t) ==> t in e)
  }

  lemma CountOne(a: Operand, t: int)
    ensures CountIn([a], t) == if a == OpRef(RTemp(t)) then 1 else 0
  {
    assert CountIn([], t) == 0;
  }

  lemma CountTwo(a: Operand, b: Operand, t: int)
    ensures CountIn([a, b], t) == CountIn([a], t) + CountIn([b], t)
  {
    assert [a, b][1..] == [b];
    CountOne(a, t);
  }

  lemma UnKept(g: Gen, e: set<int>, ins: Instr, t: int, held: bool)
    requires ins.Un? && Fitting(g, e, ins, t, held)
    ensures NoSlot(CompileInstr(g, e, ins), t, Defines(ins, t))
  {
    CountOne(ins.a, t);
    LoadKept(g, ins.a, X9, t, held);
    StoreKept(EmitBody(LoadOperand(g, ins.a, X9), UnCode(ins.uop, g.nextLabel), UnLabels(ins.uop)), e, ins.dst, X9, t);
  }

  lemma BinKept(g: Gen, e: set<int>, ins: Instr, t: int, held: bool)
    requires ins.Bin? && Fitting(g, e, ins, t, held)
    ensures NoSlot(CompileInstr(g, e, ins), t, Defines(ins, t))
  {
    CountOne(ins.a, t);
    CountOne(ins.b, t);
    CountTwo(ins.a, ins.b, t);
    LoadKept(g, ins.a, X9, t, held);
    LoadKept(EmitBody(LoadOperand(g, ins.a, X9), BinPre(ins.bop), []), ins.b, X10, t, ins.b == OpRef(RTemp(t)));
    StoreKept(EmitBody(BinLoads(g, ins), BinCode(ins.bop, g.nextLabel), BinLabels(ins.bop)), e, ins.dst, X9, t);
  }

  lemma StoreIndexKept(g: Gen, e: set<int>, ins: Instr, t: int, held: bool)
    requires ins.StoreIndex? && Fitting(g, e, ins, t, held)
    ensures NoSlot(CompileInstr(g, e, ins), t, false)
  {
    CountOne(ins.val, t);
    CountTwo(ins.idx, ins.val, t);
    CountOne(ins.idx, t);
    assert [ins.arr, ins.idx, ins.val][1..] == [ins.idx, ins.val];
    var held1 := held && ins.arr != OpRef(RTemp(t));
    var held2 := held1 && ins.idx != OpRef(RTemp(t));
    LoadKept(g, ins.arr, X9, t, held);
    LoadKept(LoadOperand(g, ins.arr, X9), ins.idx, X10, t, held1);
    LoadKept(IndexAddr(g, ins), ins.val, X12, t, held2);
  }

  lemma InstrKept(g: Gen, e: set<int>, ins: Instr, t: int, held: bool)
    requires Fitting(g, e, ins, t, held) && CellsBelow(g) && !CompileInstr(g, e, ins).failed
    ensures NoSlot(CompileInstr(g, e, ins), t, Defines(ins, t))
  {
    if |Uses(ins)| == 1 {
      CountOne(Uses(ins)[0], t);
    }
    match ins
    case Un(_, _, _) => UnKept(g, e, ins, t, held);
    case Bin(_, _, _, _) => BinKept(g, e, ins, t, held);
    case StoreIndex(_, _, _) => StoreIndexKept(g, e, ins, t, held);
    case Print(a) => LoadKept(g, a, X0, t, held);
    case JumpIfFalse(a, _) => LoadKept(g, a, X9, t, held);
    case JumpIfTrue(a, _) => LoadKept(g, a, X9, t, held);
    case IfBegin(a) => LoadKept(FreshLabels(g, 2), a, X9, t, held);
    case ForBegin(x, arr) => ForBeginKept(g, e, x, arr, t);
    case ForEnd => ForEndKept(g, e, t);
    case _ =>
  }

  lemma BelowStep(g: Gen, h: Gen, ins: Instr)
    requires ControlStep(g, h, ins) && CellsBelow(g)
    ensures CellsBelow(h)
  {
  }

  lemma {:induction false} AlwaysBelow(p: seq<Instr>, e: set<int>, i: nat)
    requires i <= |p| && !G(p, e, i).failed && NonNegative(e)
    ensures CellsBelow(G(p, e, i))
  {
    if i > 0 {
      StepAt(p, e, i - 1);
      AlwaysBelow(p, e, i - 1);
      BelowStep(G(p, e, i - 1), G(p, e, i), p[i - 1]);
    }
  }

  // t is defined at d alone, and used once, right behind.
  predicate OnlyThere(p: seq<Instr>, t: int, d: nat) {
    && d < |p| && forall i :: 0 <= i < |p| ==>
      (Defines(p[i], t) <==> i == d) && CountIn(Uses(p[i]), t) == (if i == d + 1 then 1 else 0)
  }

  lemma {:induction false} KeptSoFar(p: seq<Instr>, e: set<int>, t: int, d: nat, i: nat)
    requires i <= |p| && !G(p, e, i).failed && NonNegative(e) && t in e && OnlyThere(p, t, d)
    ensures NoSlot(G(p, e, i), t, i == d + 1)
  {
    if i > 0 {
      NextGen(p, e, i - 1);
      NotFailed(p, e, i - 1, i);
      AlwaysBelow(p, e, i - 1);
      KeptSoFar(p, e, t, d, i - 1);
      InstrKept(G(p, e, i - 1), e, p[i - 1], t, i - 1 == d + 1);
    }
  }

  ghost predicate DefinedAt(p: seq<Instr>, t: int, d: nat) {
    forall i :: 0 <= i < |p| ==> (Defines(p[i], t) <==> i == d)
  }

  lemma IsElidable(p: seq<Instr>, t: int, d: nat)
    requires UseCount(p, t) == 1 && d + 1 < |p| && CountIn(Uses(p[d + 1]), t) == 1 && DefinedAt(p, t, d)
    ensures Elidable(p, t)
  {
    assert LastDef(p, d, t);
  }

  lemma UsedThere(p: seq<Instr>, e: set<int>, t: int, d: nat)
    requires Eligible(p, e) && t in e && d + 1 < |p| && CountIn(Uses(p[d + 1]), t) == 1 && DefinedAt(p, t, d)
    ensures OnlyThere(p, t, d)
  {
    forall i | 0 <= i < |p| ensures CountIn(Uses(p[i]), t) == if i == d + 1 then 1 else 0 {
      if CountIn(Uses(p[i]), t) > 0 {
        assert Defines(p[i - 1], t);
      }
    }
  }

  /** A temp with one definition and one use, right behind each other, has no slot in the finished program. */
  lemma KeptHasNoSlot(p: seq<Instr>, e: set<int>, t: int, d: nat)
    requires UserCode(p) && (forall u :: u in e <==> Elidable(p, u)) && !Compiled(p, e).failed
    requires UseCount(p, t) == 1 && d + 1 < |p| && CountIn(Uses(p[d + 1]), t) == 1 && DefinedAt(p, t, d)
    ensures RTemp(t) !in EnsureSpilled(Compiled(p, e)).slotOf
  {
    IsElidable(p, t, d);
    KeptNonNegative(p, e);
    ElidableIsEligible(p, e);
    UsedThere(p, e, t, d);
    WholeGen(p, e);
    KeptSoFar(p, e, t, d, |p|);
  }

  lemma WholeGen(p: seq<Instr>, e: set<int>)
    ensures G(p, e, |p|) == Compiled(p, e)
  {
    assert p[..|p|] == p;
  }
}
