/** The emitter as the backend runs it: fields updated one emitter call at a time. Each routine is tied to its
    function on `Gen`, and a finished compile carries the whole-run theorem. */
module ArmCompiler {
  import opened ArmMachine
  import opened ArmIr
  import opened ArmCodegen
  import opened ArmBalance
  import opened ArmCorrect
  import opened ArmLayout
  import opened Options

  // ---- Which temps to keep ----

  lemma {:induction false} CountSnoc(ops: seq<Operand>, o: Operand, t: int)
    ensures CountIn(ops + [o], t) == CountIn(ops, t) + (if o == OpRef(RTemp(t)) then 1 else 0)
  {
    if ops == [] {
      assert ops + [o] == [o];
      assert CountIn([o][1..], t) == 0;
    } else {
      assert (ops + [o])[1..] == ops[1..] + [o];
      CountSnoc(ops[1..], o, t);
    }
  }

  function Times(m: map<int, nat>, t: int): nat {
    if t in m then m[t] else 0
  }

  // firstUse holds, for every temp used in p, the first instruction that uses it.
  ghost predicate FirstUses(p: seq<Instr>, firstUse: map<int, nat>) {
    forall t :: FirstUse(p, firstUse, t)
  }

  ghost predicate FirstUse(p: seq<Instr>, firstUse: map<int, nat>, t: int) {
    && (t in firstUse ==> firstUse[t] < |p| && CountIn(Uses(p[firstUse[t]]), t) > 0)
    && (forall j :: 0 <= j < |p| && CountIn(Uses(p[j]), t) > 0 ==> t in firstUse && firstUse[t] <= j)
  }

  // defIdx holds, for every temp defined in p, its last definition.
  ghost predicate LastDefs(p: seq<Instr>, defIdx: map<int, nat>) {
    && (forall t :: t in defIdx ==> LastDef(p, defIdx[t], t))
    && (forall t, j :: 0 <= j < |p| && Defines(p[j], t) ==> t in defIdx)
  }

  // One instruction's operands: counts each temp and notes its first use.
  method CountUses(p: seq<Instr>, i: nat, useCount0: map<int, nat>, firstUse0: map<int, nat>)
    returns (useCount: map<int, nat>, firstUse: map<int, nat>)
    requires i < |p|
    ensures forall t :: Times(useCount, t) == Times(useCount0, t) + CountIn(Uses(p[i]), t)
    ensures forall t :: t in firstUse <==> t in firstUse0 || CountIn(Uses(p[i]), t) > 0
    ensures forall t :: t in firstUse ==> firstUse[t] == if t in firstUse0 then firstUse0[t] else i
  {
    useCount, firstUse := useCount0, firstUse0;
    var ops := Uses(p[i]);
    for j := 0 to |ops|
      invariant forall t :: Times(useCount, t) == Times(useCount0, t) + CountIn(ops[..j], t)
      invariant forall t :: t in firstUse <==> t in firstUse0 || CountIn(ops[..j], t) > 0
      invariant forall t :: t in firstUse ==> firstUse[t] == if t in firstUse0 then firstUse0[t] else i
    {
      assert ops[..j + 1] == ops[..j] + [ops[j]];
      forall t ensures CountIn(ops[..j + 1], t) == CountIn(ops[..j], t) + (if ops[j] == OpRef(RTemp(t)) then 1 else 0) {
        CountSnoc(ops[..j], ops[j], t);
      }
      if ops[j].OpRef? && ops[j].ref.RTemp? {
        var t := ops[j].ref.id;
        useCount := useCount[t := Times(useCount, t) + 1];
        if t !in firstUse {
          firstUse := firstUse[t := i];
        }
      }
    }
    assert ops[..|ops|] == ops;
  }

  lemma FirstUseNext(p: seq<Instr>, i: nat, firstUse0: map<int, nat>, firstUse: map<int, nat>, t: int)
    requires i < |p| && FirstUse(p[..i], firstUse0, t)
    requires t in firstUse <==> t in firstUse0 || CountIn(Uses(p[i]), t) > 0
    requires t in firstUse ==> firstUse[t] == if t in firstUse0 then firstUse0[t] else i
    ensures FirstUse(p[..i + 1], firstUse, t)
  {
    var q := p[..i + 1];
    forall j | 0 <= j < |q| && CountIn(Uses(q[j]), t) > 0 ensures t in firstUse && firstUse[t] <= j {
      if j < i {
        assert p[..i][j] == q[j];
      }
    }
  }

  lemma FirstUsesNext(p: seq<Instr>, i: nat, firstUse0: map<int, nat>, firstUse: map<int, nat>)
    requires i < |p| && FirstUses(p[..i], firstUse0)
    requires forall t :: t in firstUse <==> t in firstUse0 || CountIn(Uses(p[i]), t) > 0
    requires forall t :: t in firstUse ==> firstUse[t] == if t in firstUse0 then firstUse0[t] else i
    ensures FirstUses(p[..i + 1], firstUse)
  {
    var q := p[..i + 1];
    forall t ensures FirstUse(q, firstUse, t) {
      FirstUseNext(p, i, firstUse0, firstUse, t);
    }
  }

  lemma LastDefsNext(p: seq<Instr>, i: nat, before: map<int, nat>, defIdx: map<int, nat>)
    requires i < |p| && LastDefs(p[..i], before)
    requires defIdx == if (p[i].Un? || p[i].Bin?) && p[i].dst.RTemp? then before[p[i].dst.id := i] else before
    ensures LastDefs(p[..i + 1], defIdx)
  {
    var q := p[..i + 1];
    forall t, j | 0 <= j < |q| && Defines(q[j], t) ensures t in defIdx {
      if j < i {
        assert p[..i][j] == q[j];
      }
    }
    forall t | t in defIdx ensures LastDef(q, defIdx[t], t) {
      forall j | defIdx[t] < j < |q| ensures !Defines(q[j], t) {
        if j < i {
          assert p[..i][j] == q[j];
        }
      }
    }
  }

  lemma {:induction false} OnlyUse(p: seq<Instr>, t: int, k: nat)
    requires k < |p| && CountIn(Uses(p[k]), t) > 0 && UseCount(p, t) == 1
    ensures CountIn(Uses(p[k]), t) == 1 && forall j :: 0 <= j < |p| && j != k ==> CountIn(Uses(p[j]), t) == 0
  {
    UseCountAt(p, t, k);
    forall j | 0 <= j < |p| && j != k ensures CountIn(Uses(p[j]), t) == 0 {
      UseCountTwo(p, t, if j < k then j else k, if j < k then k else j);
    }
  }

  lemma {:induction false} SomeUse(p: seq<Instr>, t: int) returns (k: nat)
    requires UseCount(p, t) > 0
    ensures k < |p| && CountIn(Uses(p[k]), t) > 0
  {
    if CountIn(Uses(p[|p| - 1]), t) > 0 {
      k := |p| - 1;
    } else {
      k := SomeUse(p[..|p| - 1], t);
    }
  }

  // The compiler's test on its three tables is elidability.
  lemma TestIsElidable(p: seq<Instr>, useCount: map<int, nat>, firstUse: map<int, nat>, defIdx: map<int, nat>, t: int)
    requires FirstUses(p, firstUse) && LastDefs(p, defIdx) && Times(useCount, t) == UseCount(p, t)
    ensures (t in defIdx && t in useCount && useCount[t] == 1 && t in firstUse && firstUse[t] == defIdx[t] + 1) <==>
      Elidable(p, t)
  {
    assert FirstUse(p, firstUse, t);
    if UseCount(p, t) == 1 {
      var k := SomeUse(p, t);
      OnlyUse(p, t, k);
      assert firstUse[t] == k;
      if Elidable(p, t) {
        var d :| 0 <= d < |p| - 1 && LastDef(p, d, t) && CountIn(Uses(p[d + 1]), t) == 1;
        assert d + 1 == k && d == defIdx[t];
      }
    }
  }

  method ComputeElidableTemps(p: seq<Instr>) returns (e: set<int>)
    ensures forall t :: t in e <==> Elidable(p, t)
  {
    var useCount: map<int, nat>, defIdx: map<int, nat>, firstUse: map<int, nat> := map[], map[], map[];
    for i := 0 to |p|
      invariant forall t :: Times(useCount, t) == UseCount(p[..i], t)
      invariant FirstUses(p[..i], firstUse)
      invariant LastDefs(p[..i], defIdx)
    {
      var ins := p[i];
      assert p[..i + 1][..i] == p[..i] && p[..i + 1][i] == ins;
      ghost var before, defs := firstUse, defIdx;
      if (ins.Un? || ins.Bin?) && ins.dst.RTemp? {
        defIdx := defIdx[ins.dst.id := i];
      }
      LastDefsNext(p, i, defs, defIdx);
      useCount, firstUse := CountUses(p, i, useCount, firstUse);
      FirstUsesNext(p, i, before, firstUse);
    }
    assert p[..|p|] == p;
    e := set t | t in defIdx && t in useCount && useCount[t] == 1 && t in firstUse && firstUse[t] == defIdx[t] + 1;
    forall t ensures t in e <==> Elidable(p, t) {
      TestIsElidable(p, useCount, firstUse, defIdx, t);
    }
  }

  // ---- The emitter ----

  class Compiler {
    var code: seq<MInstr>
    var labelOffsets: map<int, nat>
    var slotOf: map<Ref, nat>
    var nextSlot: nat
    var elidableTemps: set<int>
    var pendingTempId: int
    var pendingTempReg: Reg
    var ifStack: seq<IfCtx>
    var forStack: seq<ForCtx>
    var nextInternalLabel: int
    var nextHiddenTemp: int
    var failed: bool

    ghost function View(): Gen
      reads this
    {
      Gen(code, labelOffsets, slotOf, nextSlot, pendingTempId, pendingTempReg, ifStack, forStack,
          nextInternalLabel, nextHiddenTemp, failed)
    }

    constructor ()
      ensures View() == INITIAL && elidableTemps == {}
    {
      code, labelOffsets, slotOf, nextSlot := [], map[], map[], 2;
      elidableTemps, pendingTempId, pendingTempReg := {}, -1, X9;
      ifStack, forStack, nextInternalLabel, nextHiddenTemp, failed := [], [], -2000, -100000, false;
    }

    method EmitOne(ins: MInstr)
      modifies this`code
      ensures View() == Emit(old(View()), ins)
    {
      code := code + [ins];
    }

    // A straight piece of code, one emitter call each.
    method EmitAll(list: seq<MInstr>)
      modifies this`code
      ensures View() == old(View()).(code := old(code) + list)
    {
      for i := 0 to |list|
        invariant code == old(code) + list[..i]
      {
        EmitOne(list[i]);
        assert list[..i + 1] == list[..i] + [list[i]];
      }
      assert list[..|list|] == list;
    }

    method PlaceLabel(l: int)
      modifies this`labelOffsets
      ensures View() == EmitLabel(old(View()), l)
    {
      labelOffsets := labelOffsets[l := |code|];
    }

    method NewLabel() returns (l: int)
      modifies this`nextInternalLabel
      ensures l == old(nextInternalLabel) && View() == FreshLabels(old(View()), 1)
    {
      l := nextInternalLabel;
      nextInternalLabel := nextInternalLabel - 1;
    }

    method SlotOf(r: Ref) returns (s: nat)
      modifies this`slotOf, this`nextSlot
      ensures View() == SlotFor(old(View()), r) && r in slotOf && s == slotOf[r]
    {
      if r in slotOf {
        return slotOf[r];
      }
      s := nextSlot;
      nextSlot := nextSlot + 1;
      slotOf := slotOf[r := s];
    }

    method EnsureSpilled()
      modifies this`code, this`slotOf, this`nextSlot, this`pendingTempId
      ensures View() == ArmCodegen.EnsureSpilled(old(View()))
    {
      if pendingTempId < 0 {
        return;
      }
      var t := RTemp(pendingTempId);
      pendingTempId := -1;
      var s := SlotOf(t);
      EmitOne(StrSlot(pendingTempReg, s));
    }

    method ProtectPending(d: Reg)
      modifies this`code, this`pendingTempReg
      ensures View() == ArmCodegen.ProtectPending(old(View()), d)
    {
      if pendingTempId >= 0 && pendingTempReg == d {
        EmitOne(MovReg(TCACHE, pendingTempReg));
        pendingTempReg := TCACHE;
      }
    }

    method LoadOperand(o: Operand, d: Reg)
      modifies this`code, this`slotOf, this`nextSlot, this`pendingTempId, this`pendingTempReg
      ensures View() == ArmCodegen.LoadOperand(old(View()), o, d)
    {
      if o.OpRef? && o.ref == RTemp(pendingTempId) {
        if d != pendingTempReg {
          EmitOne(MovReg(d, pendingTempReg));
        }
        pendingTempId := -1;
        return;
      }
      ProtectPending(d);
      match o {
        case OpConst(w) => EmitOne(MovImm(d, w));
        case OpRef(r) =>
          var s := SlotOf(r);
          EmitOne(LdrSlot(d, s));
        case OpNone => EmitOne(MovImm(d, 0));
      }
    }

    method StoreResult(r: Ref, n: Reg)
      modifies this`code, this`slotOf, this`nextSlot, this`pendingTempId, this`pendingTempReg
      ensures View() == ArmCodegen.StoreResult(old(View()), elidableTemps, r, n)
    {
      EnsureSpilled();
      if r.RTemp? && r.id in elidableTemps {
        pendingTempId, pendingTempReg := r.id, n;
        return;
      }
      var s := SlotOf(r);
      EmitOne(StrSlot(n, s));
    }

    // An operator's code with its own labels, placed where the code says.
    method EmitOperator(list: seq<MInstr>, offs: seq<nat>)
      requires |offs| <= 2
      modifies this`code, this`labelOffsets, this`nextInternalLabel
      ensures View() == EmitBody(old(View()), list, offs)
    {
      var base := |code|;
      EmitAll(list);
      for i := 0 to |offs|
        invariant nextInternalLabel == old(nextInternalLabel) - i && code == old(code) + list
        invariant labelOffsets == PlaceLabels(old(labelOffsets), old(nextInternalLabel), base, offs[..i])
      {
        var l := NewLabel();
        labelOffsets := labelOffsets[l := base + offs[i]];
      }
      assert offs[..|offs|] == offs;
    }

    method KeepIn(o: Operand, r: Ref)
      modifies this`code, this`slotOf, this`nextSlot, this`pendingTempId, this`pendingTempReg
      ensures View() == ArmCodegen.StoreResult(ArmCodegen.LoadOperand(old(View()), o, X9), elidableTemps, r, X9)
    {
      LoadOperand(o, X9);
      StoreResult(r, X9);
    }

    method ZeroIn(r: Ref)
      modifies this`code, this`slotOf, this`nextSlot, this`pendingTempId, this`pendingTempReg
      ensures View() == ArmCodegen.StoreResult(Emit(old(View()), MovImm(X9, 0)), elidableTemps, r, X9)
    {
      EmitOne(MovImm(X9, 0));
      StoreResult(r, X9);
    }

    // Two labels and two hidden temps for a loop.
    method NewLoop() returns (c: ForCtx)
      modifies this`nextInternalLabel, this`nextHiddenTemp
      ensures c == NewFor(old(View())) && View() == ForStart(old(View()))
    {
      c := ForCtx(RTemp(nextHiddenTemp), RTemp(nextHiddenTemp - 1), nextInternalLabel, nextInternalLabel - 1);
      nextHiddenTemp := nextHiddenTemp - 2;
      nextInternalLabel := nextInternalLabel - 2;
    }

    // The loop's cells: the list, then the index 0; then the label of the loop head.
    method StartLoop(c: ForCtx, arr: Operand)
      modifies this`code, this`slotOf, this`nextSlot, this`pendingTempId, this`pendingTempReg, this`labelOffsets
      ensures View() == ForCells(old(View()), elidableTemps, c, arr)
    {
      KeepIn(arr, c.arrRef);
      ZeroIn(c.idxRef);
      PlaceLabel(c.startLabel);
    }

    method LoopHead(c: ForCtx)
      modifies this
      ensures View() == ForHead(old(View()), c) && elidableTemps == old(elidableTemps)
    {
      LoadOperand(OpRef(c.idxRef), X9);
      LoadOperand(OpRef(c.arrRef), X10);
      EmitOperator([Ldr(X10, X10), Cmp(X9, X10), BCond(GE, c.endLabel)], []);
    }

    method LoopElement(c: ForCtx)
      modifies this
      ensures View() == ForElement(old(View()), c) && elidableTemps == old(elidableTemps)
    {
      LoadOperand(OpRef(c.arrRef), X9);
      LoadOperand(OpRef(c.idxRef), X10);
      EmitOperator(ElementAddress() + [Ldr(X9, X9)], []);
    }

    method LoopVariable(c: ForCtx, x: int)
      modifies this
      ensures View() == ArmCodegen.StoreResult(ForElement(old(View()), c), elidableTemps, RVar(x), X9) &&
        elidableTemps == old(elidableTemps)
    {
      LoopElement(c);
      StoreResult(RVar(x), X9);
    }

    method CompileFor(x: int, arr: Operand)
      modifies this
      ensures View() == CompileForBegin(old(View()), elidableTemps, x, arr) && elidableTemps == old(elidableTemps)
    {
      var c := NewLoop();
      StartLoop(c, arr);
      LoopHead(c);
      LoopVariable(c, x);
      forStack := forStack + [c];
    }

    method NextIndex(c: ForCtx)
      modifies this
      ensures elidableTemps == old(elidableTemps)
      ensures View() == ArmCodegen.StoreResult(
        Emit(ArmCodegen.LoadOperand(old(View()), OpRef(c.idxRef), X9), AddImm(X9, X9, 1)), elidableTemps, c.idxRef, X9)
    {
      LoadOperand(OpRef(c.idxRef), X9);
      EmitOne(AddImm(X9, X9, 1));
      StoreResult(c.idxRef, X9);
    }

    method CompileForEnd()
      modifies this
      ensures View() == ArmCodegen.CompileForEnd(old(View()), elidableTemps) && elidableTemps == old(elidableTemps)
    {
      if forStack == [] {
        failed := true;
        return;
      }
      var c := forStack[|forStack| - 1];
      forStack := forStack[..|forStack| - 1];
      NextIndex(c);
      EmitOne(B(c.startLabel));
      PlaceLabel(c.endLabel);
    }

    method CompileIfBegin(a: Operand)
      modifies this
      ensures View() == ArmCodegen.CompileIfBegin(old(View()), a) && elidableTemps == old(elidableTemps)
    {
      var c := IfCtx(nextInternalLabel, nextInternalLabel - 1, false);
      nextInternalLabel := nextInternalLabel - 2;
      LoadThen(a, X9, Cbz(X9, c.elseLabel));
      ifStack := ifStack + [c];
    }

    method CompileIfElse()
      modifies this
      ensures View() == ArmCodegen.CompileIfElse(old(View())) && elidableTemps == old(elidableTemps)
    {
      if ifStack == [] {
        failed := true;
        return;
      }
      var c := ifStack[|ifStack| - 1];
      EmitOne(B(c.endLabel));
      PlaceLabel(c.elseLabel);
      ifStack := ifStack[..|ifStack| - 1] + [IfCtx(c.elseLabel, c.endLabel, true)];
    }

    method CompileIfEnd()
      modifies this
      ensures View() == ArmCodegen.CompileIfEnd(old(View())) && elidableTemps == old(elidableTemps)
    {
      if ifStack == [] {
        failed := true;
        return;
      }
      var c := ifStack[|ifStack| - 1];
      ifStack := ifStack[..|ifStack| - 1];
      if !c.sawElse {
        PlaceLabel(c.elseLabel);
      }
      PlaceLabel(c.endLabel);
    }

    // An operator's code, then its result into d.
    method OperateInto(list: seq<MInstr>, offs: seq<nat>, d: Ref)
      requires |offs| <= 2
      modifies this`code, this`slotOf, this`nextSlot, this`pendingTempId, this`pendingTempReg, this`labelOffsets,
        this`nextInternalLabel
      ensures View() == ArmCodegen.StoreResult(EmitBody(old(View()), list, offs), elidableTemps, d, X9)
    {
      EmitOperator(list, offs);
      StoreResult(d, X9);
    }

    method CompileUn(op: UnOp, d: Ref, a: Operand)
      requires !failed
      modifies this
      ensures View() == ArmCodegen.CompileInstr(old(View()), elidableTemps, Un(op, d, a)) &&
        elidableTemps == old(elidableTemps)
    {
      var l := nextInternalLabel;
      LoadOperand(a, X9);
      OperateInto(UnCode(op, l), UnLabels(op), d);
    }

    // Two operands, with code between them when there is any.
    method LoadBoth(between: seq<MInstr>, a: Operand, b: Operand)
      modifies this`code, this`slotOf, this`nextSlot, this`pendingTempId, this`pendingTempReg, this`labelOffsets,
        this`nextInternalLabel
      ensures View() == ArmCodegen.LoadOperand(EmitBody(ArmCodegen.LoadOperand(old(View()), a, X9), between, []), b,
        X10)
    {
      LoadOperand(a, X9);
      EmitOperator(between, []);
      LoadOperand(b, X10);
    }

    // A list and an index, then the code that makes the element's address.
    method ElementAt(arr: Operand, idx: Operand, list: seq<MInstr>)
      modifies this`code, this`slotOf, this`nextSlot, this`pendingTempId, this`pendingTempReg, this`labelOffsets,
        this`nextInternalLabel
      ensures View() == EmitBody(ArmCodegen.LoadOperand(ArmCodegen.LoadOperand(old(View()), arr, X9), idx, X10), list,
        [4])
    {
      LoadOperand(arr, X9);
      LoadOperand(idx, X10);
      EmitOperator(list, [4]);
    }

    method CompileBin(op: BinOp, d: Ref, a: Operand, b: Operand)
      requires !failed
      modifies this`code, this`slotOf, this`nextSlot, this`pendingTempId, this`pendingTempReg, this`labelOffsets,
        this`nextInternalLabel
      ensures View() == ArmCodegen.CompileInstr(old(View()), elidableTemps, Bin(op, d, a, b)) &&
        elidableTemps == old(elidableTemps)
    {
      var l := nextInternalLabel;
      LoadBoth(BinPre(op), a, b);
      var list, offs := BinCode(op, l), BinLabels(op);
      OperateInto(list, offs, d);
    }

    method CompileStoreIndex(arr: Operand, idx: Operand, val: Operand)
      requires !failed
      modifies this
      ensures View() == ArmCodegen.CompileInstr(old(View()), elidableTemps, StoreIndex(arr, idx, val)) &&
        elidableTemps == old(elidableTemps)
    {
      var l := nextInternalLabel;
      ElementAt(arr, idx, WrapNegativeIndex(l) + ElementAddress());
      LoadThen(val, X12, Str(X12, X9));
    }

    // An operand, then one instruction that uses it.
    method LoadThen(o: Operand, d: Reg, ins: MInstr)
      modifies this`code, this`slotOf, this`nextSlot, this`pendingTempId, this`pendingTempReg
      ensures View() == Emit(ArmCodegen.LoadOperand(old(View()), o, d), ins)
    {
      LoadOperand(o, d);
      EmitOne(ins);
    }

    method CompileInstr(ins: Instr)
      modifies this
      ensures View() == ArmCodegen.CompileInstr(old(View()), elidableTemps, ins) && elidableTemps == old(elidableTemps)
    {
      if failed {
        return;
      }
      match ins {
        case Un(op, d, a) => CompileUn(op, d, a);
        case Bin(op, d, a, b) => CompileBin(op, d, a, b);
        case StoreIndex(arr, idx, val) => CompileStoreIndex(arr, idx, val);
        case Print(a) => LoadThen(a, X0, BlPrint);
        case Label(k) => PlaceLabel(k);
        case Jump(k) => EmitOne(B(k));
        case JumpIfFalse(a, k) => LoadThen(a, X9, Cbz(X9, k));
        case JumpIfTrue(a, k) => LoadThen(a, X9, Cbnz(X9, k));
        case ForBegin(x, arr) => CompileFor(x, arr);
        case ForEnd => CompileForEnd();
        case IfBegin(a) => CompileIfBegin(a);
        case IfElse => CompileIfElse();
        case IfEnd => CompileIfEnd();
        case Marker =>
      }
    }

    // Is every branch label placed?
    method AllResolved() returns (ok: bool)
      ensures ok <==> Resolved(View())
    {
      for i := 0 to |code|
        invariant forall k, l :: 0 <= k < i && BranchTo(code[k], l) ==> l in labelOffsets
      {
        var l := match code[i] case B(k) => Some(k) case Cbz(_, k) => Some(k) case Cbnz(_, k) => Some(k)
                 case BCond(_, k) => Some(k) case _ => None;
        if l.Some? && l.value !in labelOffsets {
          assert BranchTo(code[i], l.value);
          return false;
        }
      }
      ok := true;
    }

    /** A compile succeeds exactly on balanced programs, and then leaves code that refines the IR on every run. */
    method Compile(p: seq<Instr>) returns (ok: bool)
      requires UserCode(p) && View() == INITIAL
      modifies this
      ensures forall t :: t in elidableTemps <==> Elidable(p, t)
      ensures ok <==> Balanced(p)
      ensures ok ==> View() == ArmCodegen.EnsureSpilled(Compiled(p, elidableTemps))
      ensures ok ==> forall junk, s, m :: Initial(p, elidableTemps, s, m) ==>
        Refines(p, elidableTemps, Image(code, labelOffsets, junk), s, m)
    {
      elidableTemps := ComputeElidableTemps(p);
      ghost var e := elidableTemps;
      for i := 0 to |p|
        invariant View() == Compiled(p[..i], e) && elidableTemps == e
      {
        CompileInstr(p[i]);
        NextGen(p, e, i);
      }
      assert p[..|p|] == p;
      EnsureSpilled();
      var resolved := AllResolved();
      ok := !failed && resolved;
      KeptNonNegative(p, e);
      CompilesExactly(p, e);
      if ok {
        CompiledRuns(p, e, View());
      }
    }
  }

  lemma CompiledRuns(p: seq<Instr>, e: set<int>, g: Gen)
    requires UserCode(p) && (forall t :: t in e ==> Elidable(p, t)) && Balanced(p) && g == EnsureSpilled(Compiled(p, e))
    ensures forall junk, s, m :: Initial(p, e, s, m) ==> Refines(p, e, Image(g.code, g.labels, junk), s, m)
  {
    KeptNonNegative(p, e);
    ElidableIsEligible(p, e);
    forall junk, s, m | Initial(p, e, s, m) ensures Refines(p, e, Image(g.code, g.labels, junk), s, m) {
      EmittedCodeRefinesIr(p, e, junk, s, m);
    }
  }
}
