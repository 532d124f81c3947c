/** When a compile raises no error: exactly for programs whose IFs and FORs match and whose jump labels are there. */
module ArmBalance {

  import opened ArmMachine
  import opened ArmIr
  import opened ArmCodegen
  import opened ArmSim
  import opened ArmLayout
  import opened Options

  // No ELSE, END or FOR_END without its opener, every IF and FOR closed, every jump label present.
  predicate Balanced(p: seq<Instr>) {
    && IfsOpen(p) == Some([]) && ForsOpen(p) == Some([])
    && forall i :: 0 <= i < |p| && (p[i].Jump? || p[i].JumpIfFalse? || p[i].JumpIfTrue?) ==> Label(p[i].l) in p
  }

  // ---- Brackets ----

  lemma {:induction false} OpenBefore(p: seq<Instr>, i: nat, n: nat)
    requires i <= n <= |p|
    ensures IfsOpen(p[..n]).Some? ==> IfsOpen(p[..i]).Some?
    ensures ForsOpen(p[..n]).Some? ==> ForsOpen(p[..i]).Some?
    decreases n
  {
    if i < n {
      assert p[..n][..n - 1] == p[..n - 1];
      OpenBefore(p, i, n - 1);
    }
  }

  lemma {:induction false} LabelTarget(p: seq<Instr>, l: nat, n: nat)
    requires n <= |p|
    ensures Target(p, PLabel(l), n).Some? <==> Label(l) in p[..n]
  {
    if n > 0 {
      LabelTarget(p, l, n - 1);
      assert p[..n] == p[..n - 1] + [p[n - 1]];
    }
  }

  // The IF opened at b is still open at i, with its false branch found if it is past it; or all of it is found.
  ghost predicate IfAhead(p: seq<Instr>, b: nat, os: seq<Open>, i: nat)
    requires i <= |p|
  {
    || (exists k :: 0 <= k < |os| && os[k].begin == b && (os[k].sawElse ==> Target(p, PElse(b), i).Some?))
    || (Target(p, PElse(b), i).Some? && Target(p, PEndIf(b), i).Some?)
  }

  lemma TargetStays(p: seq<Instr>, q: Point, i: nat)
    requires i < |p|
    ensures Target(p, q, i + 1).Some? <==> Target(p, q, i).Some? || Marks(p, i, q)
  {
  }

  // One open IF, one instruction further.
  lemma IfAheadOne(p: seq<Instr>, os: seq<Open>, i: nat, k: nat)
    requires i < |p| && IfsOpen(p[..i]) == Some(os) && NextIfs(os, i, p[i]).Some? && k < |os|
    requires os[k].sawElse ==> Target(p, PElse(os[k].begin), i).Some?
    ensures IfAhead(p, os[k].begin, NextIfs(os, i, p[i]).value, i + 1)
  {
    var b := os[k].begin;
    TargetStays(p, PElse(b), i);
    TargetStays(p, PEndIf(b), i);
    if p[i].IfEnd? && k == |os| - 1 {
      assert TopIf(p, i, b);
    } else if p[i].IfElse? && k == |os| - 1 {
      assert TopIf(p, i, b);
      assert NextIfs(os, i, p[i]).value[k] == Open(b, true);
    } else {
      assert NextIfs(os, i, p[i]).value[k] == os[k];
    }
  }

  lemma IfAheadOn(p: seq<Instr>, b: nat, os: seq<Open>, i: nat)
    requires i < |p| && IfsOpen(p[..i]) == Some(os) && NextIfs(os, i, p[i]).Some? && IfAhead(p, b, os, i)
    ensures IfAhead(p, b, NextIfs(os, i, p[i]).value, i + 1)
  {
    if k :| 0 <= k < |os| && os[k].begin == b && (os[k].sawElse ==> Target(p, PElse(b), i).Some?) {
      IfAheadOne(p, os, i, k);
    } else {
      TargetStays(p, PElse(b), i);
      TargetStays(p, PEndIf(b), i);
    }
  }

  lemma {:induction false} IfFound(p: seq<Instr>, b: nat, i: nat)
    requires b < i <= |p| && p[b].IfBegin? && IfsOpen(p[..i]).Some?
    ensures IfAhead(p, b, IfsOpen(p[..i]).value, i)
  {
    OpenBefore(p, i - 1, i);
    OpenNext(p, i - 1);
    var os := IfsOpen(p[..i - 1]).value;
    if i == b + 1 {
      assert IfsOpen(p[..i]).value[|os|].begin == b;
    } else {
      IfFound(p, b, i - 1);
      IfAheadOn(p, b, os, i - 1);
    }
  }

  lemma ForAheadOn(p: seq<Instr>, os: seq<nat>, i: nat, b: nat)
    requires i < |p| && ForsOpen(p[..i]) == Some(os) && NextFors(os, i, p[i]).Some? && b in os
    ensures b in NextFors(os, i, p[i]).value || Marks(p, i, PEndFor(b))
  {
    var os' := NextFors(os, i, p[i]).value;
    var k :| 0 <= k < |os| && os[k] == b;
    if k < |os'| {
      assert os'[k] == b;
    } else {
      assert TopFor(p, i, b);
    }
  }

  lemma {:induction false} ForFound(p: seq<Instr>, b: nat, i: nat)
    requires b < i <= |p| && p[b].ForBegin? && ForsOpen(p[..i]).Some?
    ensures b in ForsOpen(p[..i]).value || Target(p, PEndFor(b), i).Some?
  {
    OpenBefore(p, i - 1, i);
    OpenNext(p, i - 1);
    var os := ForsOpen(p[..i - 1]).value;
    if i == b + 1 {
      assert ForsOpen(p[..i]).value[|os|] == b;
    } else {
      ForFound(p, b, i - 1);
      TargetStays(p, PEndFor(b), i - 1);
      if b in os {
        ForAheadOn(p, os, i - 1, b);
      }
    }
  }

  // ---- What an open bracket lacks ----

  // An IF still open has no end yet; and no false branch, or an ELSE at j.
  ghost predicate IfLacks(p: seq<Instr>, o: Open, i: nat)
    requires i <= |p|
  {
    && Target(p, PEndIf(o.begin), i) == None
    && (if o.sawElse then exists j :: 0 <= j < i && p[j].IfElse? && TopIf(p, j, o.begin)
      else Target(p, PElse(o.begin), i) == None)
  }

  // The open IFs begin before i, the inner ones later.
  predicate Rising(os: seq<Open>, i: nat) {
    && (forall k :: 0 <= k < |os| ==> os[k].begin < i)
    && forall j, k :: 0 <= j < k < |os| ==> os[j].begin < os[k].begin
  }

  lemma RisingOn(os: seq<Open>, i: nat, ins: Instr)
    requires Rising(os, i) && NextIfs(os, i, ins).Some?
    ensures Rising(NextIfs(os, i, ins).value, i + 1)
  {
  }

  ghost predicate IfsLack(p: seq<Instr>, os: seq<Open>, i: nat)
    requires i <= |p|
  {
    Rising(os, i) && forall k :: 0 <= k < |os| ==> IfLacks(p, os[k], i)
  }

  lemma IfLacksOn(p: seq<Instr>, os: seq<Open>, i: nat, k: nat)
    requires i < |p| && IfsOpen(p[..i]) == Some(os) && IfsLack(p, os, i) && IfsOpen(p[..i + 1]).Some?
    requires k < |IfsOpen(p[..i + 1]).value|
    ensures IfLacks(p, IfsOpen(p[..i + 1]).value[k], i + 1)
  {
    OpenNext(p, i);
    var o := IfsOpen(p[..i + 1]).value[k];
    if k == |os| {
      NotBefore(p, PEndIf(i), i + 1);
      NotBefore(p, PElse(i), i + 1);
    } else if p[i].IfElse? && k == |os| - 1 {
      assert TopIf(p, i, o.begin);
    } else {
      assert IfLacks(p, os[k], i) && o == os[k];
      if o.sawElse {
        var j :| 0 <= j < i && p[j].IfElse? && TopIf(p, j, o.begin);
        assert j < i + 1;
      }
    }
  }

  lemma {:induction false} IfsLackAt(p: seq<Instr>, i: nat)
    requires i <= |p| && IfsOpen(p[..i]).Some?
    ensures IfsLack(p, IfsOpen(p[..i]).value, i)
  {
    if i > 0 {
      OpenBefore(p, i - 1, i);
      OpenNext(p, i - 1);
      IfsLackAt(p, i - 1);
      var os := IfsOpen(p[..i - 1]).value;
      RisingOn(os, i - 1, p[i - 1]);
      forall k | 0 <= k < |IfsOpen(p[..i]).value| ensures IfLacks(p, IfsOpen(p[..i]).value[k], i) {
        IfLacksOn(p, os, i - 1, k);
      }
    }
  }

  ghost predicate ForsLack(p: seq<Instr>, os: seq<nat>, i: nat)
    requires i <= |p|
  {
    && (forall k :: 0 <= k < |os| ==> os[k] < i && Target(p, PEndFor(os[k]), i) == None)
    && forall j, k :: 0 <= j < k < |os| ==> os[j] < os[k]
  }

  lemma {:induction false} ForsLackAt(p: seq<Instr>, i: nat)
    requires i <= |p| && ForsOpen(p[..i]).Some?
    ensures ForsLack(p, ForsOpen(p[..i]).value, i)
  {
    if i > 0 {
      OpenBefore(p, i - 1, i);
      OpenNext(p, i - 1);
      ForsLackAt(p, i - 1);
      NotBefore(p, PEndFor(i - 1), i);
    }
  }

  // ---- Every branch of the program goes somewhere ----

  // The control point that instruction i branches to, when it branches away.
  function Leaves(p: seq<Instr>, i: nat): Option<Point>
    requires i < |p|
  {
    match p[i]
    case Jump(l) => Some(PLabel(l))
    case JumpIfFalse(_, l) => Some(PLabel(l))
    case JumpIfTrue(_, l) => Some(PLabel(l))
    case IfBegin(_) => Some(PElse(i))
    case IfElse =>
      var open := IfsOpen(p[..i]);
      if open.Some? && open.value != [] then Some(PEndIf(open.value[|open.value| - 1].begin)) else None
    case ForBegin(_, _) => Some(PEndFor(i))
    case _ => None
  }

  ghost predicate Lands(p: seq<Instr>, i: nat)
    requires i < |p|
  {
    Leaves(p, i).Some? ==> Target(p, Leaves(p, i).value, |p|).Some?
  }

  lemma BalancedLands(p: seq<Instr>, i: nat)
    requires Balanced(p) && i < |p|
    ensures Lands(p, i)
  {
    assert p[..|p|] == p;
    if p[i].IfBegin? {
      IfFound(p, i, |p|);
    } else if p[i].ForBegin? {
      ForFound(p, i, |p|);
    } else if p[i].IfElse? {
      OpenBefore(p, i, |p|);
      if IfsOpen(p[..i]).value != [] {
        IfFound(p, IfsOpen(p[..i]).value[|IfsOpen(p[..i]).value| - 1].begin, |p|);
      }
    } else if Leaves(p, i).Some? {
      LabelTarget(p, p[i].l, |p|);
    }
  }

  // An open IF leaves a branch without its target.
  lemma OpenIfStuck(p: seq<Instr>, o: Open)
    requires o.begin < |p| && p[o.begin].IfBegin? && IfLacks(p, o, |p|)
    ensures exists i :: 0 <= i < |p| && !Lands(p, i)
  {
    if o.sawElse {
      var j :| 0 <= j < |p| && p[j].IfElse? && TopIf(p, j, o.begin);
      ElseLeaves(p, j, o.begin);
      assert !Lands(p, j);
    } else {
      assert !Lands(p, o.begin);
    }
  }

  lemma NoOpenIf(p: seq<Instr>)
    requires IfsOpen(p).Some? && forall i :: 0 <= i < |p| ==> Lands(p, i)
    ensures IfsOpen(p) == Some([])
  {
    assert p[..|p|] == p;
    IfsLackAt(p, |p|);
    var ifs := IfsOpen(p).value;
    if ifs != [] {
      OpenIfStuck(p, ifs[|ifs| - 1]);
    }
  }

  lemma ElseLeaves(p: seq<Instr>, j: nat, b: nat)
    requires j < |p| && p[j].IfElse? && TopIf(p, j, b)
    ensures Leaves(p, j) == Some(PEndIf(b))
  {
  }

  lemma OpenForStuck(p: seq<Instr>, b: nat)
    requires b < |p| && p[b].ForBegin? && Target(p, PEndFor(b), |p|) == None
    ensures exists i :: 0 <= i < |p| && !Lands(p, i)
  {
    assert !Lands(p, b);
  }

  lemma NoOpenFor(p: seq<Instr>)
    requires ForsOpen(p).Some? && forall i :: 0 <= i < |p| ==> Lands(p, i)
    ensures ForsOpen(p) == Some([])
  {
    assert p[..|p|] == p;
    ForsLackAt(p, |p|);
    var fors := ForsOpen(p).value;
    if fors != [] {
      OpenForStuck(p, fors[|fors| - 1]);
    }
  }

  lemma LandsBalanced(p: seq<Instr>)
    requires IfsOpen(p).Some? && ForsOpen(p).Some? && forall i :: 0 <= i < |p| ==> Lands(p, i)
    ensures Balanced(p)
  {
    NoOpenIf(p);
    NoOpenFor(p);
    forall i | 0 <= i < |p| && (p[i].Jump? || p[i].JumpIfFalse? || p[i].JumpIfTrue?) ensures Label(p[i].l) in p {
      assert Lands(p, i);
      LabelTarget(p, p[i].l, |p|);
      assert p[..|p|] == p;
    }
  }

  // ---- Branches in the emitted code ----

  // Of the code added between g and h, only branches to these labels.
  ghost predicate Only(g: Gen, h: Gen, ls: set<int>) {
    && g.code <= h.code
    && forall k, l :: |g.code| <= k < |h.code| && BranchTo(h.code[k], l) ==> l in ls
  }

  ghost predicate CodeOnly(code: seq<MInstr>, ls: set<int>) {
    forall k, l :: 0 <= k < |code| && BranchTo(code[k], l) ==> l in ls
  }

  lemma OnlyTrans(g: Gen, h: Gen, k: Gen, ls: set<int>)
    requires Only(g, h, ls) && Only(h, k, ls)
    ensures Only(g, k, ls)
  {
  }

  lemma OnlyMore(g: Gen, h: Gen, ls: set<int>, more: set<int>)
    requires Only(g, h, ls) && ls <= more
    ensures Only(g, h, more)
  {
  }

  lemma OnlyEmit(g: Gen, ins: MInstr, ls: set<int>)
    requires CodeOnly([ins], ls)
    ensures Only(g, Emit(g, ins), ls)
  {
    assert forall l :: BranchTo([ins][0], l) ==> l in ls;
  }

  lemma OnlyBody(g: Gen, code: seq<MInstr>, offs: seq<nat>, ls: set<int>)
    requires |offs| <= 2 && CodeOnly(code, ls)
    ensures Only(g, EmitBody(g, code, offs), ls)
  {
    var h := EmitBody(g, code, offs);
    forall k, l | |g.code| <= k < |h.code| && BranchTo(h.code[k], l) ensures l in ls {
      assert h.code[k] == code[k - |g.code|];
    }
  }

  lemma OnlyFetch(g: Gen, o: Operand, d: Reg)
    ensures Only(g, Fetched(g, o, d), {})
  {
  }

  lemma OnlyLoad(g: Gen, o: Operand, d: Reg)
    ensures Only(g, LoadOperand(g, o, d), {})
  {
    if !(o.OpRef? && o.ref == RTemp(g.pendId)) {
      OnlyFetch(ProtectPending(g, d), o, d);
    }
  }

  lemma OnlySpill(g: Gen, r: Ref, n: Reg)
    ensures Only(g, Spill(g, r, n), {})
  {
  }

  lemma OnlyEnsure(g: Gen)
    ensures Only(g, EnsureSpilled(g), {})
  {
    OnlySpill(g.(pendId := -1), RTemp(g.pendId), g.pendReg);
  }

  lemma OnlyStore(g: Gen, e: set<int>, r: Ref, n: Reg)
    ensures Only(g, StoreResult(g, e, r, n), {})
  {
    OnlyEnsure(g);
    OnlySpill(EnsureSpilled(g), r, n);
    OnlyTrans(g, EnsureSpilled(g), Spill(EnsureSpilled(g), r, n), {});
  }

  // The first n labels from l downwards.
  function Own(l: int, n: nat): set<int> {
    if n == 0 then {} else if n == 1 then {l} else {l, l - 1}
  }

  // Where the code of one instruction may branch.
  function Exits(g: Gen, ins: Instr): set<int> {
    match ins
    case Un(op, _, _) => Own(g.nextLabel, |UnLabels(op)|)
    case Bin(op, _, _, _) => Own(g.nextLabel, |BinLabels(op)|)
    case StoreIndex(_, _, _) => Own(g.nextLabel, 1)
    case Jump(l) => {l as int}
    case JumpIfFalse(_, l) => {l as int}
    case JumpIfTrue(_, l) => {l as int}
    case IfBegin(_) => {g.nextLabel}
    case IfElse => if g.ifs == [] then {} else {g.ifs[|g.ifs| - 1].endLabel}
    case ForBegin(_, _) => {g.nextLabel - 1}
    case ForEnd => if g.fors == [] then {} else {g.fors[|g.fors| - 1].startLabel}
    case _ => {}
  }

  lemma UnCodeOnly(op: UnOp, l: int)
    ensures CodeOnly(UnCode(op, l), Own(l, |UnLabels(op)|))
  {
  }

  lemma OnlyAppend(a: seq<MInstr>, b: seq<MInstr>, ls: set<int>)
    requires CodeOnly(a, ls) && CodeOnly(b, ls)
    ensures CodeOnly(a + b, ls)
  {
  }

  lemma BinCodeOnly(op: BinOp, l: int)
    ensures CodeOnly(BinCode(op, l), Own(l, |BinLabels(op)|))
  {
    match op
    case BMod =>
      OnlyAppend(DivZeroGuard(l), [AluReg(Sdiv, X11, X9, X10), Msub(X9, X11, X10, X9)], {l, l - 1});
      OnlyAppend(DivZeroGuard(l) + [AluReg(Sdiv, X11, X9, X10), Msub(X9, X11, X10, X9)], ModTail(l - 1), {l, l - 1});
    case BIndex => IndexCodeOnly(l);
    case _ =>
  }

  lemma IndexCodeOnly(l: int)
    ensures CodeOnly(WrapNegativeIndex(l) + ElementAddress(), {l})
    ensures CodeOnly(WrapNegativeIndex(l) + ElementAddress() + [Ldr(X9, X9)], {l})
  {
    OnlyAppend(WrapNegativeIndex(l), ElementAddress(), {l});
    OnlyAppend(WrapNegativeIndex(l) + ElementAddress(), [Ldr(X9, X9)], {l});
  }

  lemma UnOnly(g: Gen, e: set<int>, ins: Instr)
    requires ins.Un? && !g.failed
    ensures Only(g, CompileInstr(g, e, ins), Exits(g, ins))
  {
    var ls := Exits(g, ins);
    var g1 := LoadOperand(g, ins.a, X9);
    var g2 := EmitBody(g1, UnCode(ins.uop, g.nextLabel), UnLabels(ins.uop));
    OnlyLoad(g, ins.a, X9);
    UnCodeOnly(ins.uop, g.nextLabel);
    OnlyBody(g1, UnCode(ins.uop, g.nextLabel), UnLabels(ins.uop), ls);
    OnlyStore(g2, e, ins.dst, X9);
    OnlyMore(g, g1, {}, ls);
    OnlyTrans(g, g1, g2, ls);
    OnlyMore(g2, CompileInstr(g, e, ins), {}, ls);
    OnlyTrans(g, g2, CompileInstr(g, e, ins), ls);
  }

  lemma BinLoadsOnly(g: Gen, ins: Instr, ls: set<int>)
    requires ins.Bin?
    ensures Only(g, BinLoads(g, ins), ls)
  {
    var g1 := LoadOperand(g, ins.a, X9);
    var g2 := EmitBody(g1, BinPre(ins.bop), []);
    OnlyLoad(g, ins.a, X9);
    OnlyBody(g1, BinPre(ins.bop), [], {});
    OnlyLoad(g2, ins.b, X10);
    OnlyTrans(g, g1, g2, {});
    OnlyTrans(g, g2, BinLoads(g, ins), {});
    OnlyMore(g, BinLoads(g, ins), {}, ls);
  }

  lemma BinOnly(g: Gen, e: set<int>, ins: Instr)
    requires ins.Bin? && !g.failed
    ensures Only(g, CompileInstr(g, e, ins), Exits(g, ins))
  {
    var ls := Exits(g, ins);
    var g1 := BinLoads(g, ins);
    var g2 := EmitBody(g1, BinCode(ins.bop, g.nextLabel), BinLabels(ins.bop));
    BinLoadsOnly(g, ins, ls);
    BinCodeOnly(ins.bop, g.nextLabel);
    OnlyBody(g1, BinCode(ins.bop, g.nextLabel), BinLabels(ins.bop), ls);
    OnlyStore(g2, e, ins.dst, X9);
    OnlyTrans(g, g1, g2, ls);
    OnlyMore(g2, CompileInstr(g, e, ins), {}, ls);
    OnlyTrans(g, g2, CompileInstr(g, e, ins), ls);
  }

  lemma StoreIndexOnly(g: Gen, e: set<int>, ins: Instr)
    requires ins.StoreIndex? && !g.failed
    ensures Only(g, CompileInstr(g, e, ins), Exits(g, ins))
  {
    var ls := Exits(g, ins);
    var g0 := LoadOperand(g, ins.arr, X9);
    var g1, g2 := IndexLoads(g, ins), IndexAddr(g, ins);
    var g3 := LoadOperand(g2, ins.val, X12);
    OnlyLoad(g, ins.arr, X9);
    OnlyLoad(g0, ins.idx, X10);
    OnlyTrans(g, g0, g1, {});
    OnlyMore(g, g1, {}, ls);
    IndexCodeOnly(g.nextLabel);
    OnlyBody(g1, WrapNegativeIndex(g.nextLabel) + ElementAddress(), [4], ls);
    OnlyTrans(g, g1, g2, ls);
    OnlyLoad(g2, ins.val, X12);
    OnlyMore(g2, g3, {}, ls);
    OnlyTrans(g, g2, g3, ls);
    OnlyEmit(g3, Str(X12, X9), ls);
    OnlyTrans(g, g3, CompileInstr(g, e, ins), ls);
  }

  lemma LoadEmitOnly(g: Gen, o: Operand, d: Reg, ins: MInstr, ls: set<int>)
    requires CodeOnly([ins], ls)
    ensures Only(g, Emit(LoadOperand(g, o, d), ins), ls)
  {
    OnlyLoad(g, o, d);
    OnlyMore(g, LoadOperand(g, o, d), {}, ls);
    OnlyEmit(LoadOperand(g, o, d), ins, ls);
    OnlyTrans(g, LoadOperand(g, o, d), Emit(LoadOperand(g, o, d), ins), ls);
  }

  // A load and a store, as FOR makes them for its cells.
  lemma LoadStoreOnly(g: Gen, e: set<int>, o: Operand, r: Ref)
    ensures Only(g, StoreResult(LoadOperand(g, o, X9), e, r, X9), {})
  {
    OnlyLoad(g, o, X9);
    OnlyStore(LoadOperand(g, o, X9), e, r, X9);
    OnlyTrans(g, LoadOperand(g, o, X9), StoreResult(LoadOperand(g, o, X9), e, r, X9), {});
  }

  lemma ForCellsOnly(g: Gen, e: set<int>, c: ForCtx, arr: Operand)
    ensures Only(g, ForCells(g, e, c, arr), {})
  {
    var g1 := StoreResult(LoadOperand(g, arr, X9), e, c.arrRef, X9);
    var g2 := Emit(g1, MovImm(X9, 0));
    LoadStoreOnly(g, e, arr, c.arrRef);
    OnlyEmit(g1, MovImm(X9, 0), {});
    OnlyStore(g2, e, c.idxRef, X9);
    OnlyTrans(g, g1, g2, {});
    OnlyTrans(g, g2, StoreResult(g2, e, c.idxRef, X9), {});
  }

  lemma TwoLoadsOnly(g: Gen, a: Operand, b: Operand)
    ensures Only(g, LoadOperand(LoadOperand(g, a, X9), b, X10), {})
  {
    OnlyLoad(g, a, X9);
    OnlyLoad(LoadOperand(g, a, X9), b, X10);
    OnlyTrans(g, LoadOperand(g, a, X9), LoadOperand(LoadOperand(g, a, X9), b, X10), {});
  }

  lemma ForHeadOnly(g: Gen, c: ForCtx)
    ensures Only(g, ForHead(g, c), {c.endLabel})
  {
    var g2 := LoadOperand(LoadOperand(g, OpRef(c.idxRef), X9), OpRef(c.arrRef), X10);
    TwoLoadsOnly(g, OpRef(c.idxRef), OpRef(c.arrRef));
    OnlyMore(g, g2, {}, {c.endLabel});
    OnlyBody(g2, [Ldr(X10, X10), Cmp(X9, X10), BCond(GE, c.endLabel)], [], {c.endLabel});
    OnlyTrans(g, g2, ForHead(g, c), {c.endLabel});
  }

  lemma ForElementOnly(g: Gen, c: ForCtx)
    ensures Only(g, ForElement(g, c), {})
  {
    var g2 := LoadOperand(LoadOperand(g, OpRef(c.arrRef), X9), OpRef(c.idxRef), X10);
    TwoLoadsOnly(g, OpRef(c.arrRef), OpRef(c.idxRef));
    OnlyAppend(ElementAddress(), [Ldr(X9, X9)], {});
    OnlyBody(g2, ElementAddress() + [Ldr(X9, X9)], [], {});
    OnlyTrans(g, g2, ForElement(g, c), {});
  }

  lemma ForBeginOnly(g: Gen, e: set<int>, ins: Instr)
    requires ins.ForBegin? && !g.failed
    ensures Only(g, CompileInstr(g, e, ins), Exits(g, ins))
  {
    var c, ls := NewFor(g), Exits(g, ins);
    var g0 := ForStart(g);
    var g1 := ForCells(g0, e, c, ins.arr);
    var g2 := ForHead(g1, c);
    var g3 := ForElement(g2, c);
    ForCellsOnly(g0, e, c, ins.arr);
    OnlyMore(g, g1, {}, ls);
    ForHeadOnly(g1, c);
    OnlyTrans(g, g1, g2, ls);
    ForElementOnly(g2, c);
    OnlyStore(g3, e, RVar(ins.x), X9);
    OnlyTrans(g2, g3, StoreResult(g3, e, RVar(ins.x), X9), {});
    OnlyMore(g2, StoreResult(g3, e, RVar(ins.x), X9), {}, ls);
    OnlyTrans(g, g2, StoreResult(g3, e, RVar(ins.x), X9), ls);
  }

  lemma ForEndOnly(g: Gen, e: set<int>, ins: Instr)
    requires ins.ForEnd? && !g.failed && g.fors != []
    ensures Only(g, CompileInstr(g, e, ins), Exits(g, ins))
  {
    var c, ls := g.fors[|g.fors| - 1], Exits(g, ins);
    var g0 := g.(fors := g.fors[..|g.fors| - 1]);
    var g1 := Emit(LoadOperand(g0, OpRef(c.idxRef), X9), AddImm(X9, X9, 1));
    var g2 := StoreResult(g1, e, c.idxRef, X9);
    LoadEmitOnly(g0, OpRef(c.idxRef), X9, AddImm(X9, X9, 1), ls);
    OnlyStore(g1, e, c.idxRef, X9);
    OnlyMore(g1, g2, {}, ls);
    OnlyTrans(g0, g1, g2, ls);
    OnlyEmit(g2, B(c.startLabel), ls);
    OnlyTrans(g0, g2, Emit(g2, B(c.startLabel)), ls);
  }

  lemma InstrOnly(g: Gen, e: set<int>, ins: Instr)
    requires !g.failed && (ins.ForEnd? ==> g.fors != []) && (ins.IfElse? || ins.IfEnd? ==> g.ifs != [])
    ensures Only(g, CompileInstr(g, e, ins), Exits(g, ins))
  {
    match ins
    case Un(_, _, _) => UnOnly(g, e, ins);
    case Bin(_, _, _, _) => BinOnly(g, e, ins);
    case StoreIndex(_, _, _) => StoreIndexOnly(g, e, ins);
    case Print(a) => LoadEmitOnly(g, a, X0, BlPrint, {});
    case Jump(l) => OnlyEmit(g, B(l), {l as int});
    case JumpIfFalse(a, l) => LoadEmitOnly(g, a, X9, Cbz(X9, l), {l as int});
    case JumpIfTrue(a, l) => LoadEmitOnly(g, a, X9, Cbnz(X9, l), {l as int});
    case IfBegin(a) => LoadEmitOnly(FreshLabels(g, 2), a, X9, Cbz(X9, g.nextLabel), {g.nextLabel});
    case IfElse => OnlyEmit(g, B(g.ifs[|g.ifs| - 1].endLabel), Exits(g, ins));
    case ForBegin(_, _) => ForBeginOnly(g, e, ins);
    case ForEnd => ForEndOnly(g, e, ins);
    case _ =>
  }

  // Some branch added between g and h goes to l.
  ghost predicate Has(g: Gen, h: Gen, l: int) {
    exists k :: |g.code| <= k < |h.code| && BranchTo(h.code[k], l)
  }

  lemma HasLast(g: Gen, h: Gen, ins: MInstr, l: int)
    requires g.code <= h.code && BranchTo(ins, l)
    ensures Has(g, Emit(h, ins), l)
  {
    assert BranchTo(Emit(h, ins).code[|h.code|], l);
  }

  lemma HasEarlier(g: Gen, h: Gen, k: Gen, l: int)
    requires Has(g, h, l) && h.code <= k.code
    ensures Has(g, k, l)
  {
    var j :| |g.code| <= j < |h.code| && BranchTo(h.code[j], l);
    assert k.code[j] == h.code[j];
  }

  lemma ForHeadHas(g: Gen, c: ForCtx)
    ensures Has(g, ForHead(g, c), c.endLabel)
  {
    var g2 := LoadOperand(LoadOperand(g, OpRef(c.idxRef), X9), OpRef(c.arrRef), X10);
    TwoLoadsOnly(g, OpRef(c.idxRef), OpRef(c.arrRef));
    assert ForHead(g, c).code[|g2.code| + 2] == BCond(GE, c.endLabel);
  }

  lemma ForBeginHas(g: Gen, e: set<int>, ins: Instr)
    requires ins.ForBegin? && !g.failed
    ensures Has(g, CompileInstr(g, e, ins), g.nextLabel - 1)
  {
    var c := NewFor(g);
    var g1 := ForCells(ForStart(g), e, c, ins.arr);
    var g2 := ForHead(g1, c);
    var g3 := ForElement(g2, c);
    ForCellsOnly(ForStart(g), e, c, ins.arr);
    ForHeadHas(g1, c);
    ForElementOnly(g2, c);
    OnlyStore(g3, e, RVar(ins.x), X9);
    HasEarlier(g1, g2, CompileInstr(g, e, ins), c.endLabel);
  }

  lemma InstrHas(g: Gen, e: set<int>, ins: Instr, l: int)
    requires !g.failed && l in Exits(g, ins)
    requires ins.Jump? || ins.JumpIfFalse? || ins.JumpIfTrue? || ins.IfBegin? || ins.IfElse? || ins.ForBegin?
    ensures Has(g, CompileInstr(g, e, ins), l)
  {
    match ins
    case Jump(k) => HasLast(g, g, B(k), l);
    case JumpIfFalse(a, k) =>
      OnlyLoad(g, a, X9);
      HasLast(g, LoadOperand(g, a, X9), Cbz(X9, k), l);
    case JumpIfTrue(a, k) =>
      OnlyLoad(g, a, X9);
      HasLast(g, LoadOperand(g, a, X9), Cbnz(X9, k), l);
    case IfBegin(a) =>
      OnlyLoad(FreshLabels(g, 2), a, X9);
      HasLast(g, LoadOperand(FreshLabels(g, 2), a, X9), Cbz(X9, l), l);
    case IfElse => HasLast(g, g, B(l), l);
    case ForBegin(_, _) => ForBeginHas(g, e, ins);
  }

  // ---- No error ----

  lemma FailsExactly(g: Gen, e: set<int>, ins: Instr)
    requires GenOk(g, e) && !g.failed
    ensures CompileInstr(g, e, ins).failed <==>
      ((ins.IfElse? || ins.IfEnd?) && g.ifs == []) || (ins.ForEnd? && g.fors == [])
  {
    match ins
    case Un(_, _, _) => UnFails(g, e, ins);
    case Bin(_, _, _, _) => BinFails(g, e, ins);
    case StoreIndex(_, _, _) => StoreIndexFails(g, e, ins);
    case ForBegin(_, _) => ForBeginFails(g, e, ins);
    case ForEnd => if g.fors != [] { ForEndStoreGen(g, e); }
    case Print(a) => LoadEmitGen(g, e, a, X0, BlPrint);
    case JumpIfFalse(a, l) => LoadEmitGen(g, e, a, X9, Cbz(X9, l));
    case JumpIfTrue(a, l) => LoadEmitGen(g, e, a, X9, Cbnz(X9, l));
    case IfBegin(a) => LoadEmitGen(FreshLabels(g, 2), e, a, X9, Cbz(X9, g.nextLabel));
    case _ =>
  }

  lemma UnFails(g: Gen, e: set<int>, ins: Instr)
    requires GenOk(g, e) && !g.failed && ins.Un?
    ensures !CompileInstr(g, e, ins).failed
  {
    var g1 := LoadOperand(g, ins.a, X9);
    LoadGen(g, e, ins.a, X9);
    BodyGen(g1, e, UnCode(ins.uop, g.nextLabel), UnLabels(ins.uop));
    StoreGen(EmitBody(g1, UnCode(ins.uop, g.nextLabel), UnLabels(ins.uop)), e, ins.dst, X9);
  }

  lemma BinFails(g: Gen, e: set<int>, ins: Instr)
    requires GenOk(g, e) && !g.failed && ins.Bin?
    ensures !CompileInstr(g, e, ins).failed
  {
    BinLoadsGen(g, e, ins);
    BodyGen(BinLoads(g, ins), e, BinCode(ins.bop, g.nextLabel), BinLabels(ins.bop));
    StoreGen(EmitBody(BinLoads(g, ins), BinCode(ins.bop, g.nextLabel), BinLabels(ins.bop)), e, ins.dst, X9);
  }

  lemma StoreIndexFails(g: Gen, e: set<int>, ins: Instr)
    requires GenOk(g, e) && !g.failed && ins.StoreIndex?
    ensures !CompileInstr(g, e, ins).failed
  {
    IndexLoadsGen(g, e, ins);
    BodyGen(IndexLoads(g, ins), e, WrapNegativeIndex(g.nextLabel) + ElementAddress(), [4]);
    LoadGen(IndexAddr(g, ins), e, ins.val, X12);
  }

  lemma ForBeginFails(g: Gen, e: set<int>, ins: Instr)
    requires GenOk(g, e) && !g.failed && ins.ForBegin?
    ensures !CompileInstr(g, e, ins).failed
  {
    ForInitGen(g, e, ins.arr);
    ForRestGen(ForInit(g, e, NewFor(g), ins.arr), e, NewFor(g), ins.x);
  }

  lemma {:induction false} MatchedNotFailed(p: seq<Instr>, e: set<int>, i: nat)
    requires i <= |p| && IfsOpen(p[..i]).Some? && ForsOpen(p[..i]).Some? && NonNegative(e)
    ensures !G(p, e, i).failed
  {
    if i > 0 {
      OpenBefore(p, i - 1, i);
      MatchedNotFailed(p, e, i - 1);
      StacksMatch(p, e, i - 1, States(p, e));
      OpenNext(p, i - 1);
      NextGen(p, e, i - 1);
      GenAlwaysOk(p, e, i - 1);
      FailsExactly(G(p, e, i - 1), e, p[i - 1]);
    }
  }

  // ---- Every label is placed exactly when every branch lands ----

  // An operator's own label is placed by the instruction itself, and stays.
  lemma OwnPlaced(p: seq<Instr>, e: set<int>, gen: nat -> Gen, i: nat, l: int)
    requires i < |p| && !G(p, e, |p|).failed && NonNegative(e) && gen == States(p, e)
    requires (p[i].Un? || p[i].Bin? || p[i].StoreIndex?) && l in Exits(gen(i), p[i])
    ensures l in gen(|p|).labels
  {
    NotFailed(p, e, i + 1, |p|);
    StepAt(p, e, i);
    OwnPlacedAt(gen(i), e, p[i], l);
    OwnLabelAt(p, e, gen, i, l);
    OwnLabelStays(p, e, gen, i + 1, |p|, l);
  }

  lemma OwnPlacedAt(g: Gen, e: set<int>, ins: Instr, l: int)
    requires GenOk(g, e) && !g.failed && (ins.Un? || ins.Bin? || ins.StoreIndex?) && l in Exits(g, ins)
    ensures var h := CompileInstr(g, e, ins); h.nextLabel < l <= g.nextLabel && l in h.labels
  {
    if ins.Un? {
      UnLabelsOf(g, e, ins);
    } else if ins.Bin? {
      BinLabelsOf(g, e, ins);
    } else {
      StoreIndexLabelsOf(g, e, ins);
    }
  }

  // The start label of a loop is placed at its head, and stays.
  lemma StartPlaced(p: seq<Instr>, e: set<int>, gen: nat -> Gen, i: nat, l: int)
    requires i < |p| && !G(p, e, |p|).failed && NonNegative(e) && gen == States(p, e)
    requires p[i].ForEnd? && l in Exits(gen(i), p[i])
    ensures l in gen(|p|).labels
  {
    NotFailed(p, e, i, |p|);
    StacksMatch(p, e, i, gen);
    var b := ForsOpen(p[..i]).value[|gen(i).fors| - 1];
    NotFailed(p, e, b + 1, |p|);
    StepAt(p, e, b);
    TwoLabels(G(p, e, b), e, p[b]);
    OwnLabelAt(p, e, gen, b, l);
    OwnLabelStays(p, e, gen, b + 1, |p|, l);
  }

  lemma ElsePoint(p: seq<Instr>, gen: nat -> Gen, i: nat, g: Gen, os: seq<Open>) returns (b: nat)
    requires i < |p| && p[i].IfElse? && IfsOpen(p[..i]) == Some(os) && os != [] && IfsMatch(gen, i, g.ifs, os)
    ensures Leaves(p, i) == Some(PEndIf(b)) && Exits(g, p[i]) == {gen(b).nextLabel - 1} && b < i && p[b].IfBegin?
  {
    b := os[|os| - 1].begin;
  }

  lemma PlainPoint(p: seq<Instr>, gen: nat -> Gen, i: nat)
    requires i < |p| && Leaves(p, i).Some? && !p[i].IfElse?
    ensures Exits(gen(i), p[i]) == {LabelOf(gen, Leaves(p, i).value)} && PointBefore(p, |p|, Leaves(p, i).value)
  {
  }

  // The label of an instruction that branches away is that of its control point.
  lemma ExitIsPoint(p: seq<Instr>, e: set<int>, gen: nat -> Gen, i: nat)
    requires i < |p| && !G(p, e, i + 1).failed && NonNegative(e) && gen == States(p, e) && Leaves(p, i).Some?
    ensures Exits(gen(i), p[i]) == {LabelOf(gen, Leaves(p, i).value)} && PointBefore(p, |p|, Leaves(p, i).value)
  {
    if p[i].IfElse? {
      NotFailed(p, e, i, i + 1);
      StacksMatch(p, e, i, gen);
      var b := ElsePoint(p, gen, i, gen(i), IfsOpen(p[..i]).value);
    } else {
      PlainPoint(p, gen, i);
    }
  }

  lemma ExitPlaced(p: seq<Instr>, e: set<int>, gen: nat -> Gen, i: nat, l: int)
    requires i < |p| && !G(p, e, |p|).failed && NonNegative(e) && gen == States(p, e)
    requires Lands(p, i) && l in Exits(gen(i), p[i])
    ensures l in gen(|p|).labels
  {
    if Leaves(p, i).Some? {
      NotFailed(p, e, i + 1, |p|);
      ExitIsPoint(p, e, gen, i);
      TargetLabel(p, e, gen, |p|, Leaves(p, i).value);
    } else if p[i].ForEnd? {
      StartPlaced(p, e, gen, i, l);
    } else if p[i].IfElse? {
      NotFailed(p, e, i, |p|);
      StacksMatch(p, e, i, gen);
    } else {
      OwnPlaced(p, e, gen, i, l);
    }
  }

  // The branches of the first i instructions.
  lemma {:induction false} PlacedSoFar(p: seq<Instr>, e: set<int>, gen: nat -> Gen, i: nat, k: nat, l: int)
    requires i <= |p| && !G(p, e, |p|).failed && NonNegative(e) && gen == States(p, e)
    requires (forall j :: 0 <= j < |p| ==> Lands(p, j)) && k < |gen(i).code| && BranchTo(gen(i).code[k], l)
    ensures l in gen(|p|).labels
    decreases i
  {
    if i > 0 {
      NotFailed(p, e, i, |p|);
      StepAt(p, e, i - 1);
      FailsExactly(gen(i - 1), e, p[i - 1]);
      InstrOnly(gen(i - 1), e, p[i - 1]);
      if k < |gen(i - 1).code| {
        assert gen(i).code[k] == gen(i - 1).code[k];
        PlacedSoFar(p, e, gen, i - 1, k, l);
      } else {
        ExitPlaced(p, e, gen, i - 1, l);
      }
    }
  }

  lemma LandsResolved(p: seq<Instr>, e: set<int>)
    requires !Compiled(p, e).failed && NonNegative(e) && forall j :: 0 <= j < |p| ==> Lands(p, j)
    ensures Resolved(EnsureSpilled(Compiled(p, e)))
  {
    assert p[..|p|] == p;
    var g := Compiled(p, e);
    var f := EnsureSpilled(g);
    GenAlwaysOk(p, e, |p|);
    EnsureGen(g, e);
    forall k, l | 0 <= k < |f.code| && BranchTo(f.code[k], l) ensures l in f.labels {
      OnlyEnsure(g);
      PlacedSoFar(p, e, States(p, e), |p|, k, l);
    }
  }

  // In a finished program the branch of instruction i has its label.
  lemma ResolvedLands(p: seq<Instr>, e: set<int>, i: nat)
    requires Compiles(p, e) && NonNegative(e) && i < |p|
    ensures Lands(p, i)
  {
    assert p[..|p|] == p;
    if Leaves(p, i).Some? {
      var gen, f := States(p, e), EnsureSpilled(Compiled(p, e));
      var l := LabelOf(gen, Leaves(p, i).value);
      NotFailed(p, e, i + 1, |p|);
      StepAt(p, e, i);
      ExitIsPoint(p, e, gen, i);
      InstrHas(gen(i), e, p[i], l);
      GrowsTo(p, e, i + 1, |p|);
      GenAlwaysOk(p, e, |p|);
      EnsureGen(Compiled(p, e), e);
      HasEarlier(gen(i), gen(i + 1), f, l);
      TargetLabel(p, e, gen, |p|, Leaves(p, i).value);
    }
  }

  /** A compile raises no error exactly for a balanced program, whichever temps are kept. */
  lemma CompilesExactly(p: seq<Instr>, e: set<int>)
    requires NonNegative(e)
    ensures Compiles(p, e) <==> Balanced(p)
  {
    assert p[..|p|] == p;
    if Balanced(p) {
      MatchedNotFailed(p, e, |p|);
      forall i | 0 <= i < |p| ensures Lands(p, i) {
        BalancedLands(p, i);
      }
      LandsResolved(p, e);
    }
    if Compiles(p, e) {
      StacksMatch(p, e, |p|, States(p, e));
      forall i | 0 <= i < |p| ensures Lands(p, i) {
        ResolvedLands(p, e, i);
      }
      LandsBalanced(p);
    }
  }
}
