/** One IR instruction: the code emitted for it, run from a related machine state, does what the IR step does. */
module ArmExec {
  import opened ArmMachine
  import opened ArmIr
  import opened ArmCodegen
  import opened ArmSim
  import opened ArmOps
  import opened ArmLayout
  import opened Numbers
  import opened Options

  lemma BodyLocated(img: Image, g: Gen, code: seq<MInstr>, offs: seq<nat>)
    requires |offs| <= 2 && EmitBody(g, code, offs).code <= img.code
    ensures Located(img, |g.code|, code)
  {
    forall i | 0 <= i < |code| ensures img.code[|g.code| + i] == code[i] {
      assert EmitBody(g, code, offs).code[|g.code| + i] == code[i];
    }
  }

  // What the machine knows between two pieces of one instruction's code.
  ghost predicate Ready(sl: map<Ref, nat>, e: set<int>, g: Gen, s: State, m: Machine, live: int) {
    m.pc == |g.code| && Rel(sl, e, s, m) && !m.trapped && Live(g, live, s.env, m)
  }

  ghost predicate PendOk(g: Gen, e: set<int>) {
    g.pendId >= -1 && (g.pendId >= 0 ==> g.pendId in e)
  }

  lemma LoadReady(img: Image, sl: map<Ref, nat>, e: set<int>, g: Gen, o: Operand, d: Reg, s: State, m: Machine,
                  live: int)
    returns (k: nat, m': Machine, live': int)
    requires Embeds(LoadOperand(g, o, d), img, sl) && d < TCACHE && PendOk(g, e)
    requires Ready(sl, e, g, s, m, live) && Readable(o, e, live)
    ensures m' == Run(img, m, k) && Ready(sl, e, LoadOperand(g, o, d), s, m', live')
    ensures Get(m', d) == Val(s.env, o) && live' == (if o == OpRef(RTemp(live)) then -1 else live)
    ensures forall q :: 0 <= q < TCACHE && q != d ==> m'.regs[q] == m.regs[q]
    ensures m' == m.(pc := m'.pc, regs := m'.regs)
    ensures live' >= 0 ==> LoadOperand(g, o, d).pendReg == if g.pendReg == d then TCACHE else g.pendReg
  {
    k, m', live' := LoadOk(img, sl, e, g, o, d, s, m, live);
  }

  lemma StoreThen(img: Image, sl: map<Ref, nat>, e: set<int>, g: Gen, r: Ref, s: State, m: Machine)
    returns (k: nat, m': Machine, s': State)
    requires GenOk(g, e) && Embeds(StoreResult(g, e, r, X9), img, sl) && Injective(sl) && Ready(sl, e, g, s, m, -1)
    ensures m' == Run(img, m, k) && s' == s.(env := s.env[r := Get(m, X9)])
    ensures Ready(sl, e, StoreResult(g, e, r, X9), s', m', if Kept(e, r) then r.id else -1)
  {
    k, m', s' := StoreOk(img, sl, e, g, r, s, m);
  }

  lemma StoreReady(img: Image, sl: map<Ref, nat>, e: set<int>, g: Gen, r: Ref, s: State, m: Machine, j: nat,
                   m1: Machine)
    returns (k: nat, m': Machine, s': State)
    requires GenOk(g, e) && Embeds(StoreResult(g, e, r, X9), img, sl) && Injective(sl)
    requires Ready(sl, e, g, s, m1, -1) && m1 == Run(img, m, j)
    ensures m' == Run(img, m, k) && k >= j && s' == s.(env := s.env[r := Get(m1, X9)])
    ensures Ready(sl, e, StoreResult(g, e, r, X9), s', m', if Kept(e, r) then r.id else -1)
  {
    k, m', s' := StoreThen(img, sl, e, g, r, s, m1);
    RunCompose(img, m, j, k);
    k := j + k;
  }

  // After a body that only changes X9..X11, a related state is still related and nothing is live any more.
  lemma BodyReady(sl: map<Ref, nat>, e: set<int>, s: State, m: Machine, m': Machine, h: Gen)
    requires Rel(sl, e, s, m) && !m.trapped && BodyEffect(m, m') && m'.pc == |h.code|
    ensures Ready(sl, e, h, s, m', -1)
  {
  }

  lemma UnParts(img: Image, sl: map<Ref, nat>, e: set<int>, g: Gen, ins: Instr)
    requires ins.Un? && GenOk(g, e) && !g.failed && Embeds(CompileInstr(g, e, ins), img, sl)
    ensures var g1, code := LoadOperand(g, ins.a, X9), UnCode(ins.uop, g.nextLabel);
      Embeds(g1, img, sl) && Located(img, |g1.code|, code) && GenOk(EmitBody(g1, code, UnLabels(ins.uop)), e)
  {
    var g1 := LoadOperand(g, ins.a, X9);
    var code := UnCode(ins.uop, g.nextLabel);
    var g2 := EmitBody(g1, code, UnLabels(ins.uop));
    LoadGen(g, e, ins.a, X9);
    BodyGen(g1, e, code, UnLabels(ins.uop));
    StoreGen(g2, e, ins.dst, X9);
    EmbedsEarlier(g2, CompileInstr(g, e, ins), img, sl);
    EmbedsEarlier(g1, g2, img, sl);
    BodyLocated(img, g1, code, UnLabels(ins.uop));
  }

  lemma UnExec(img: Image, sl: map<Ref, nat>, e: set<int>, g: Gen, ins: Instr, s: State, m: Machine, live: int)
    returns (k: nat, m': Machine, s': State)
    requires ins.Un? && GenOk(g, e) && !g.failed && Embeds(CompileInstr(g, e, ins), img, sl) && Injective(sl)
    requires LabelsAt(img, |LoadOperand(g, ins.a, X9).code|, g.nextLabel, UnLabels(ins.uop))
    requires Ready(sl, e, g, s, m, live) && Readable(ins.a, e, live)
    ensures m' == Run(img, m, k) && s' == s.(env := s.env[ins.dst := UnVal(ins.uop, Val(s.env, ins.a), s.heap)])
    ensures Ready(sl, e, CompileInstr(g, e, ins), s', m', if Kept(e, ins.dst) then ins.dst.id else -1)
  {
    UnParts(img, sl, e, g, ins);
    var g2 := EmitBody(LoadOperand(g, ins.a, X9), UnCode(ins.uop, g.nextLabel), UnLabels(ins.uop));
    var m1, m2, live1, j;
    k, m1, live1 := LoadReady(img, sl, e, g, ins.a, X9, s, m, live);
    j, m2 := UnOk(img, ins.uop, g.nextLabel, m1);
    RunCompose(img, m, k, j);
    BodyReady(sl, e, s, m1, m2, g2);
    k, m', s' := StoreReady(img, sl, e, g2, ins.dst, s, m, k + j, m2);
  }

  // The first operand, made 0/1 when the operator is a truth operator.
  lemma FirstExec(img: Image, sl: map<Ref, nat>, e: set<int>, g: Gen, op: BinOp, o: Operand, s: State, m: Machine,
                  live: int)
    returns (k: nat, m': Machine, live': int)
    requires Embeds(LoadOperand(g, o, X9), img, sl) && PendOk(g, e) &&
      Located(img, |LoadOperand(g, o, X9).code|, BinPre(op))
    requires Ready(sl, e, g, s, m, live) && Readable(o, e, live) && (g.pendReg == X9 || g.pendReg == TCACHE)
    ensures m' == Run(img, m, k) && live' == (if o == OpRef(RTemp(live)) then -1 else live)
    ensures Ready(sl, e, EmitBody(LoadOperand(g, o, X9), BinPre(op), []), s, m', live')
    ensures Get(m', X9) == if op.BTruth? then Flag(Val(s.env, o) != 0) else Val(s.env, o)
  {
    k, m', live' := LoadReady(img, sl, e, g, o, X9, s, m, live);
    if op.BTruth? {
      var m1, j := m', 0;
      j, m' := FlagOk(img, X9, NE, m1);
      RunCompose(img, m, k, j);
      k := k + j;
    }
  }

  lemma BinLoadsExec(img: Image, sl: map<Ref, nat>, e: set<int>, g: Gen, ins: Instr, s: State, m: Machine, live: int)
    returns (k: nat, m': Machine)
    requires ins.Bin? && GenOk(g, e) && Embeds(BinLoads(g, ins), img, sl)
    requires Ready(sl, e, g, s, m, live) && Readable(ins.a, e, live)
    requires Readable(ins.b, e, if ins.a == OpRef(RTemp(live)) then -1 else live)
    ensures m' == Run(img, m, k) && Ready(sl, e, BinLoads(g, ins), s, m', -1)
    ensures Get(m', X9) == if ins.bop.BTruth? then Flag(Val(s.env, ins.a) != 0) else Val(s.env, ins.a)
    ensures Get(m', X10) == Val(s.env, ins.b)
  {
    var g1 := LoadOperand(g, ins.a, X9);
    var g2 := EmitBody(g1, BinPre(ins.bop), []);
    LoadGen(g, e, ins.a, X9);
    BodyGen(g1, e, BinPre(ins.bop), []);
    LoadGen(g2, e, ins.b, X10);
    EmbedsEarlier(g2, BinLoads(g, ins), img, sl);
    EmbedsEarlier(g1, g2, img, sl);
    BodyLocated(img, g1, BinPre(ins.bop), []);
    k, m' := BinLoadsRun(img, sl, e, g, ins, s, m, live, g2);
  }

  lemma BinLoadsRun(img: Image, sl: map<Ref, nat>, e: set<int>, g: Gen, ins: Instr, s: State, m: Machine, live: int,
                    g2: Gen)
    returns (k: nat, m': Machine)
    requires ins.Bin? && PendOk(g, e) && PendOk(g2, e) && (g.pendReg == X9 || g.pendReg == TCACHE)
    requires g2 == EmitBody(LoadOperand(g, ins.a, X9), BinPre(ins.bop), [])
    requires Embeds(LoadOperand(g, ins.a, X9), img, sl) &&
      Located(img, |LoadOperand(g, ins.a, X9).code|, BinPre(ins.bop))
    requires Embeds(LoadOperand(g2, ins.b, X10), img, sl)
    requires Ready(sl, e, g, s, m, live) && Readable(ins.a, e, live)
    requires Readable(ins.b, e, if ins.a == OpRef(RTemp(live)) then -1 else live)
    ensures m' == Run(img, m, k) && Ready(sl, e, LoadOperand(g2, ins.b, X10), s, m', -1)
    ensures Get(m', X9) == if ins.bop.BTruth? then Flag(Val(s.env, ins.a) != 0) else Val(s.env, ins.a)
    ensures Get(m', X10) == Val(s.env, ins.b)
  {
    var m2, live1, live2, j;
    k, m2, live1 := FirstExec(img, sl, e, g, ins.bop, ins.a, s, m, live);
    j, m', live2 := LoadReady(img, sl, e, g2, ins.b, X10, s, m2, live1);
    RunCompose(img, m, k, j);
    k := k + j;
  }

  // The next state of a two-operand instruction, without the program counter.
  function BinNext(ins: Instr, s: State): State
    requires ins.Bin?
  {
    match BinVal(ins.bop, Val(s.env, ins.a), Val(s.env, ins.b), s.heap)
    case None => s.(trapped := true)
    case Some(v) => s.(env := s.env[ins.dst := v])
  }

  function BinDone(g: Gen, ins: Instr): Gen
    requires ins.Bin?
  {
    EmitBody(BinLoads(g, ins), BinCode(ins.bop, g.nextLabel), BinLabels(ins.bop))
  }

  lemma BinParts(img: Image, sl: map<Ref, nat>, e: set<int>, g: Gen, ins: Instr)
    requires ins.Bin? && GenOk(g, e) && !g.failed && Embeds(CompileInstr(g, e, ins), img, sl)
    ensures CompileInstr(g, e, ins) == StoreResult(BinDone(g, ins), e, ins.dst, X9)
    ensures GenOk(BinDone(g, ins), e) && Embeds(BinLoads(g, ins), img, sl)
    ensures Located(img, |BinLoads(g, ins).code|, BinCode(ins.bop, g.nextLabel))
  {
    var g1, g2 := BinLoads(g, ins), BinDone(g, ins);
    BinLoadsGen(g, e, ins);
    BodyGen(g1, e, BinCode(ins.bop, g.nextLabel), BinLabels(ins.bop));
    StoreGen(g2, e, ins.dst, X9);
    EmbedsEarlier(g2, StoreResult(g2, e, ins.dst, X9), img, sl);
    EmbedsEarlier(g1, g2, img, sl);
    BodyLocated(img, g1, BinCode(ins.bop, g.nextLabel), BinLabels(ins.bop));
  }

  lemma BinExec(img: Image, sl: map<Ref, nat>, e: set<int>, g: Gen, ins: Instr, s: State, m: Machine, live: int, h: Gen)
    returns (k: nat, m': Machine)
    requires ins.Bin? && GenOk(g, e) && !g.failed && Embeds(h, img, sl) && Injective(sl) && h == CompileInstr(g, e, ins)
    requires LabelsAt(img, |BinLoads(g, ins).code|, g.nextLabel, BinLabels(ins.bop))
    requires Ready(sl, e, g, s, m, live) && Readable(ins.a, e, live)
    requires Readable(ins.b, e, if ins.a == OpRef(RTemp(live)) then -1 else live)
    ensures m' == Run(img, m, k) && Rel(sl, e, BinNext(ins, s), m')
    ensures !BinNext(ins, s).trapped ==>
      Ready(sl, e, h, BinNext(ins, s), m', if Kept(e, ins.dst) then ins.dst.id else -1)
  {
    BinParts(img, sl, e, g, ins);
    var m1;
    k, m1 := BinLoadsExec(img, sl, e, g, ins, s, m, live);
    k, m' := BinBodyRun(img, sl, e, BinLoads(g, ins), BinDone(g, ins), g.nextLabel, ins, s, m, k, m1);
  }

  lemma BinBodyRun(img: Image, sl: map<Ref, nat>, e: set<int>, g1: Gen, g2: Gen, l: int, ins: Instr, s: State,
                   m: Machine, i: nat, m1: Machine)
    returns (k: nat, m': Machine)
    requires ins.Bin? && GenOk(g2, e) && |g2.code| == |g1.code| + |BinCode(ins.bop, l)|
    requires Embeds(StoreResult(g2, e, ins.dst, X9), img, sl) && Injective(sl)
    requires Located(img, |g1.code|, BinCode(ins.bop, l)) && LabelsAt(img, |g1.code|, l, BinLabels(ins.bop))
    requires m1 == Run(img, m, i) && Ready(sl, e, g1, s, m1, -1) && Get(m1, X10) == Val(s.env, ins.b)
    requires Get(m1, X9) == if ins.bop.BTruth? then Flag(Val(s.env, ins.a) != 0) else Val(s.env, ins.a)
    ensures m' == Run(img, m, k) && Rel(sl, e, BinNext(ins, s), m')
    ensures !BinNext(ins, s).trapped ==>
      Ready(sl, e, StoreResult(g2, e, ins.dst, X9), BinNext(ins, s), m', if Kept(e, ins.dst) then ins.dst.id else -1)
  {
    var m2, j;
    j, m2 := BinOk(img, ins.bop, l, Val(s.env, ins.a), m1);
    RunCompose(img, m, i, j);
    if BinVal(ins.bop, Val(s.env, ins.a), Val(s.env, ins.b), s.heap).None? {
      k, m' := i + j, m2;
    } else {
      BodyReady(sl, e, s, m1, m2, g2);
      var s';
      k, m', s' := StoreReady(img, sl, e, g2, ins.dst, s, m, i + j, m2);
      assert s' == BinNext(ins, s);
    }
  }

  lemma StoreIndexExec(img: Image, sl: map<Ref, nat>, e: set<int>, g: Gen, ins: Instr, s: State, m: Machine, live: int)
    returns (k: nat, m': Machine, s': State)
    requires ins.StoreIndex? && GenOk(g, e) && !g.failed && Embeds(CompileInstr(g, e, ins), img, sl)
    requires LabelsAt(img, |IndexLoads(g, ins).code|, g.nextLabel, [4])
    requires Ready(sl, e, g, s, m, live) && Readable(ins.arr, e, live)
    requires Readable(ins.idx, e, if ins.arr == OpRef(RTemp(live)) then -1 else live)
    requires Readable(ins.val, e, if ins.arr == OpRef(RTemp(live)) || ins.idx == OpRef(RTemp(live)) then -1 else live)
    ensures m' == Run(img, m, k)
    ensures s' == s.(heap := s.heap[ElemAddr(s.heap, Val(s.env, ins.arr), Val(s.env, ins.idx)) := Val(s.env, ins.val)])
    ensures Ready(sl, e, CompileInstr(g, e, ins), s', m', -1)
  {
    var g0, g1, g2 := LoadOperand(g, ins.arr, X9), IndexLoads(g, ins), IndexAddr(g, ins);
    var g3 := LoadOperand(g2, ins.val, X12);
    var code := WrapNegativeIndex(g.nextLabel) + ElementAddress();
    LoadGen(g, e, ins.arr, X9);
    LoadGen(g0, e, ins.idx, X10);
    BodyGen(g1, e, code, [4]);
    LoadGen(g2, e, ins.val, X12);
    EmitGen(g3, e, Str(X12, X9));
    EmbedsEarlier(g3, CompileInstr(g, e, ins), img, sl);
    EmbedsEarlier(g2, g3, img, sl);
    EmbedsEarlier(g1, g2, img, sl);
    EmbedsEarlier(g0, g1, img, sl);
    BodyLocated(img, g1, code, [4]);
    assert Emit(g3, Str(X12, X9)).code[|g3.code|] == Str(X12, X9);
    k, m', s' := StoreIndexRun(img, sl, e, g, ins, s, m, live, g0, g1, g2, g3);
  }

  lemma IndexLoadsRun(img: Image, sl: map<Ref, nat>, e: set<int>, g: Gen, ins: Instr, s: State, m: Machine, live: int,
                      g0: Gen)
    returns (k: nat, m': Machine, live': int)
    requires ins.StoreIndex? && g0 == LoadOperand(g, ins.arr, X9) && PendOk(g, e) && PendOk(g0, e)
    requires Embeds(g0, img, sl) && Embeds(LoadOperand(g0, ins.idx, X10), img, sl) &&
      (g.pendReg == X9 || g.pendReg == TCACHE)
    requires Ready(sl, e, g, s, m, live) && Readable(ins.arr, e, live)
    requires Readable(ins.idx, e, if ins.arr == OpRef(RTemp(live)) then -1 else live)
    ensures m' == Run(img, m, k) && Ready(sl, e, LoadOperand(g0, ins.idx, X10), s, m', live')
    ensures live' == if ins.arr == OpRef(RTemp(live)) || ins.idx == OpRef(RTemp(live)) then -1 else live
    ensures Get(m', X9) == Val(s.env, ins.arr) && Get(m', X10) == Val(s.env, ins.idx)
    ensures live' >= 0 ==> LoadOperand(g0, ins.idx, X10).pendReg == TCACHE
  {
    var m0, l0, j;
    k, m0, l0 := LoadReady(img, sl, e, g, ins.arr, X9, s, m, live);
    j, m', live' := LoadReady(img, sl, e, g0, ins.idx, X10, s, m0, l0);
    RunCompose(img, m, k, j);
    k := k + j;
  }

  lemma StoreIndexRun(img: Image, sl: map<Ref, nat>, e: set<int>, g: Gen, ins: Instr, s: State, m: Machine, live: int,
                      g0: Gen, g1: Gen, g2: Gen, g3: Gen)
    returns (k: nat, m': Machine, s': State)
    requires ins.StoreIndex? && g0 == LoadOperand(g, ins.arr, X9) && g1 == LoadOperand(g0, ins.idx, X10)
    requires g3 == LoadOperand(g2, ins.val, X12) && |g2.code| == |g1.code| + 8 && g2.pendId == g1.pendId &&
      g2.pendReg == g1.pendReg
    requires Embeds(g0, img, sl) && Embeds(g1, img, sl) && Embeds(g3, img, sl) && At(img, |g3.code|, Str(X12, X9))
    requires PendOk(g, e) && PendOk(g0, e) && PendOk(g1, e) && (g.pendReg == X9 || g.pendReg == TCACHE)
    requires Located(img, |g1.code|, WrapNegativeIndex(g.nextLabel) + ElementAddress()) &&
      LabelsAt(img, |g1.code|, g.nextLabel, [4])
    requires Ready(sl, e, g, s, m, live) && Readable(ins.arr, e, live)
    requires Readable(ins.idx, e, if ins.arr == OpRef(RTemp(live)) then -1 else live)
    requires Readable(ins.val, e, if ins.arr == OpRef(RTemp(live)) || ins.idx == OpRef(RTemp(live)) then -1 else live)
    ensures m' == Run(img, m, k)
    ensures s' == s.(heap := s.heap[ElemAddr(s.heap, Val(s.env, ins.arr), Val(s.env, ins.idx)) := Val(s.env, ins.val)])
    ensures Ready(sl, e, Emit(g3, Str(X12, X9)), s', m', -1)
  {
    s' := s.(heap := s.heap[ElemAddr(s.heap, Val(s.env, ins.arr), Val(s.env, ins.idx)) := Val(s.env, ins.val)]);
    var m1, m2, l1;
    k, m1, l1 := IndexLoadsRun(img, sl, e, g, ins, s, m, live, g0);
    k, m2 := AddressRun(img, sl, e, g.nextLabel, s, m, k, l1, g1, g2, m1);
    k, m' := ValueStoreRun(img, sl, e, ins.val, s, m, k, l1, g2, m2);
  }

  lemma ValueStoreRun(img: Image, sl: map<Ref, nat>, e: set<int>, o: Operand, s: State, m: Machine, i: nat, live: int,
                      g2: Gen, m2: Machine)
    returns (k: nat, m': Machine)
    requires Embeds(LoadOperand(g2, o, X12), img, sl) && At(img, |LoadOperand(g2, o, X12).code|, Str(X12, X9)) &&
      PendOk(g2, e)
    requires m2 == Run(img, m, i) && Ready(sl, e, g2, s, m2, live) && Readable(o, e, live)
    ensures m' == Run(img, m, k)
    ensures Ready(sl, e, Emit(LoadOperand(g2, o, X12), Str(X12, X9)), s.(heap := s.heap[Get(m2, X9) := Val(s.env, o)]),
      m', -1)
  {
    var m3, l3, j;
    j, m3, l3 := LoadReady(img, sl, e, g2, o, X12, s, m2, live);
    RunCompose(img, m, i, j);
    k, m' := Then(img, m, i + j, m3, Str(X12, X9));
  }

  // A temp that is still live after the list and the index are loaded sits in TCACHE, out of the body's way.
  lemma AddressRun(img: Image, sl: map<Ref, nat>, e: set<int>, l: int, s: State, m: Machine, i: nat, live: int, g1: Gen,
                   g2: Gen, m1: Machine)
    returns (k: nat, m2: Machine)
    requires Located(img, |g1.code|, WrapNegativeIndex(l) + ElementAddress()) && LabelsAt(img, |g1.code|, l, [4])
    requires m1 == Run(img, m, i) && Ready(sl, e, g1, s, m1, live) && (live >= 0 ==> g1.pendReg == TCACHE)
    requires g2.pendId == g1.pendId && g2.pendReg == g1.pendReg && |g2.code| == |g1.code| + 8
    ensures m2 == Run(img, m, k) && Ready(sl, e, g2, s, m2, live)
    ensures Get(m2, X9) == ElemAddr(s.heap, Get(m1, X9), Get(m1, X10))
  {
    var j;
    j, m2 := ElementOk(img, l, m1);
    RunCompose(img, m, i, j);
    k := i + j;
  }

  // One load, then a conditional branch on X9.
  lemma LoadBranchExec(img: Image, sl: map<Ref, nat>, e: set<int>, g: Gen, o: Operand, ins: MInstr, s: State,
                       m: Machine, live: int)
    returns (k: nat, m': Machine)
    requires Embeds(Emit(LoadOperand(g, o, X9), ins), img, sl) && PendOk(g, e)
    requires (ins.Cbz? || ins.Cbnz?) && ins.n == X9 && ins.l in img.labels
    requires Ready(sl, e, g, s, m, live) && Readable(o, e, live)
    ensures m' == Run(img, m, k) && Rel(sl, e, s, m') && !m'.trapped && k >= 1
    ensures m'.pc == if (Val(s.env, o) == 0) == ins.Cbz? then img.labels[ins.l]
      else |Emit(LoadOperand(g, o, X9), ins).code|
  {
    var g1 := LoadOperand(g, o, X9);
    assert g1.code <= img.code && Emit(g1, ins).code[|g1.code|] == ins;
    var live1;
    k, m', live1 := LoadReady(img, sl, e, g, o, X9, s, m, live);
    k, m' := Then(img, m, k, m', ins);
  }

  lemma PrintExec(img: Image, sl: map<Ref, nat>, e: set<int>, g: Gen, o: Operand, s: State, m: Machine, live: int)
    returns (k: nat, m': Machine, s': State)
    requires Embeds(Emit(LoadOperand(g, o, X0), BlPrint), img, sl) && PendOk(g, e)
    requires Ready(sl, e, g, s, m, live) && Readable(o, e, live)
    ensures m' == Run(img, m, k) && s' == s.(out := s.out + [Val(s.env, o)])
    ensures Ready(sl, e, Emit(LoadOperand(g, o, X0), BlPrint), s', m', -1)
  {
    s' := s.(out := s.out + [Val(s.env, o)]);
    var g1 := LoadOperand(g, o, X0);
    assert g1.code <= img.code && Emit(g1, BlPrint).code[|g1.code|] == BlPrint;
    var live1;
    k, m', live1 := LoadReady(img, sl, e, g, o, X0, s, m, live);
    k, m' := Then(img, m, k, m', BlPrint);
  }

  // ---- FOR loops ----

  lemma CellRun(img: Image, sl: map<Ref, nat>, e: set<int>, g: Gen, r: Ref, s: State, m: Machine, i: nat, m1: Machine,
                h: Gen)
    returns (k: nat, m': Machine, s': State)
    requires GenOk(g, e) && Injective(sl) && !Kept(e, r) && h == StoreResult(Emit(g, MovImm(X9, 0)), e, r, X9) &&
      Embeds(h, img, sl)
    requires m1 == Run(img, m, i) && Ready(sl, e, g, s, m1, -1)
    ensures m' == Run(img, m, k) && s' == s.(env := s.env[r := 0]) && Ready(sl, e, h, s', m', -1)
  {
    var g1 := Emit(g, MovImm(X9, 0));
    EmitGen(g, e, MovImm(X9, 0));
    StoreGen(g1, e, r, X9);
    EmbedsEarlier(g1, h, img, sl);
    assert g1.code[|g.code|] == MovImm(X9, 0);
    var m2;
    k, m2 := Then(img, m, i, m1, MovImm(X9, 0));
    k, m', s' := StoreReady(img, sl, e, g1, r, s, m, k, m2);
  }

  // FOR_BEGIN up to the loop head: the list and the index 0 go to the loop's cells.
  lemma ForInitExec(img: Image, sl: map<Ref, nat>, e: set<int>, g: Gen, arr: Operand, s: State, m: Machine, live: int)
    returns (k: nat, m': Machine, s': State)
    requires GenOk(g, e) && Injective(sl) && Embeds(ForInit(g, e, NewFor(g), arr), img, sl)
    requires Ready(sl, e, g, s, m, live) && Readable(arr, e, live)
    ensures m' == Run(img, m, k) && Ready(sl, e, ForInit(g, e, NewFor(g), arr), s', m', -1)
    ensures s' == s.(env := s.env[NewFor(g).arrRef := Val(s.env, arr)][NewFor(g).idxRef := 0])
  {
    var c, g0 := NewFor(g), ForStart(g);
    var g1 := LoadOperand(g0, arr, X9);
    var g2 := StoreResult(g1, e, c.arrRef, X9);
    var h := StoreResult(Emit(g2, MovImm(X9, 0)), e, c.idxRef, X9);
    LoadGen(g0, e, arr, X9);
    StoreGen(g1, e, c.arrRef, X9);
    CellGen(g2, e, c.idxRef);
    EmbedsEarlier(g2, h, img, sl);
    EmbedsEarlier(g1, g2, img, sl);
    var m1, m2, live1, s1;
    k, m1, live1 := LoadReady(img, sl, e, g0, arr, X9, s, m, live);
    k, m2, s1 := StoreReady(img, sl, e, g1, c.arrRef, s, m, k, m1);
    k, m', s' := CellRun(img, sl, e, g2, c.idxRef, s1, m, k, m2, h);
  }

  // A loop cell into a register, when no temp is live.
  lemma CellLoad(img: Image, sl: map<Ref, nat>, e: set<int>, g: Gen, a: Ref, d: Reg, s: State, m: Machine, i: nat,
                 m1: Machine, h: Gen)
    returns (k: nat, m': Machine)
    requires h == LoadOperand(g, OpRef(a), d) && Embeds(h, img, sl) && PendOk(g, e) && d < TCACHE
    requires !Kept(e, a) && a != RTemp(-1) && m1 == Run(img, m, i) && Ready(sl, e, g, s, m1, -1)
    ensures m' == Run(img, m, k) && k >= i && Ready(sl, e, h, s, m', -1) && Get(m', d) == Lookup(s.env, a)
    ensures forall q :: 0 <= q < TCACHE && q != d ==> m'.regs[q] == m1.regs[q]
  {
    var l, j;
    j, m', l := LoadReady(img, sl, e, g, OpRef(a), d, s, m1, -1);
    RunCompose(img, m, i, j);
    k := i + j;
  }

  // Two loop cells into X9 and X10; nothing is live.
  lemma CellsRun(img: Image, sl: map<Ref, nat>, e: set<int>, g: Gen, a: Ref, b: Ref, s: State, m: Machine, i: nat,
                 m0: Machine, g1: Gen, g2: Gen)
    returns (k: nat, m': Machine)
    requires g1 == LoadOperand(g, OpRef(a), X9) && g2 == LoadOperand(g1, OpRef(b), X10) && Embeds(g2, img, sl) &&
      GenOk(g, e)
    requires !Kept(e, a) && !Kept(e, b) && a != RTemp(-1) && b != RTemp(-1) && m0 == Run(img, m, i) &&
      Ready(sl, e, g, s, m0, -1)
    ensures m' == Run(img, m, k) && k >= i && Ready(sl, e, g2, s, m', -1)
    ensures Get(m', X9) == Lookup(s.env, a) && Get(m', X10) == Lookup(s.env, b)
  {
    LoadGen(g, e, OpRef(a), X9);
    LoadGen(g1, e, OpRef(b), X10);
    EmbedsEarlier(g1, g2, img, sl);
    var m1;
    k, m1 := CellLoad(img, sl, e, g, a, X9, s, m, i, m0, g1);
    k, m' := CellLoad(img, sl, e, g1, b, X10, s, m, k, m1, g2);
  }

  // The test at the loop head.
  lemma ForHeadExec(img: Image, sl: map<Ref, nat>, e: set<int>, g: Gen, c: ForCtx, s: State, m: Machine)
    returns (k: nat, m': Machine)
    requires GenOk(g, e) && Embeds(ForHead(g, c), img, sl) && c.endLabel in img.labels
    requires c.arrRef.RTemp? && c.idxRef.RTemp? && c.arrRef.id < -1 && c.idxRef.id < -1 && Ready(sl, e, g, s, m, -1)
    ensures m' == Run(img, m, k) && k >= 1 && Rel(sl, e, s, m') && !m'.trapped
    ensures m'.pc == if Lookup(s.env, c.idxRef) >= HeapAt(s.heap, Lookup(s.env, c.arrRef)) then img.labels[c.endLabel]
      else |ForHead(g, c).code|
  {
    var g1 := LoadOperand(g, OpRef(c.idxRef), X9);
    var g2 := LoadOperand(g1, OpRef(c.arrRef), X10);
    var code := [Ldr(X10, X10), Cmp(X9, X10), BCond(GE, c.endLabel)];
    LoadGen(g, e, OpRef(c.idxRef), X9);
    LoadGen(g1, e, OpRef(c.arrRef), X10);
    BodyGen(g2, e, code, []);
    EmbedsEarlier(g2, EmitBody(g2, code, []), img, sl);
    BodyLocated(img, g2, code, []);
    k, m' := CellsRun(img, sl, e, g, c.idxRef, c.arrRef, s, m, 0, m, g1, g2);
    k, m' := HeadRun(img, c.endLabel, m, k, m');
  }

  lemma HeadRun(img: Image, l: int, m: Machine, i: nat, m1: Machine) returns (k: nat, m': Machine)
    requires m1 == Run(img, m, i) && !m1.trapped && Located(img, m1.pc, [Ldr(X10, X10), Cmp(X9, X10), BCond(GE, l)]) &&
      l in img.labels
    ensures m' == Run(img, m, k) && k >= 1 && BodyEffect(m1, m')
    ensures m'.pc == if Get(m1, X9) >= HeapAt(m1.heap, Get(m1, X10)) then img.labels[l] else m1.pc + 3
  {
    var code := [Ldr(X10, X10), Cmp(X9, X10), BCond(GE, l)];
    assert code[0] == Ldr(X10, X10) && code[1] == Cmp(X9, X10) && code[2] == BCond(GE, l);
    k, m' := Then(img, m, i, m1, Ldr(X10, X10));
    k, m' := Then(img, m, k, m', Cmp(X9, X10));
    k, m' := Then(img, m, k, m', BCond(GE, l));
  }

  function ElemVal(s: State, c: ForCtx): Word {
    HeapAt(s.heap, Wrap(Lookup(s.env, c.arrRef) + Wrap(Wrap(Lookup(s.env, c.idxRef) + 1) * 8)))
  }

  lemma ElementParts(img: Image, sl: map<Ref, nat>, e: set<int>, g: Gen, c: ForCtx, x: int)
    requires GenOk(g, e) && Embeds(StoreResult(ForElement(g, c), e, RVar(x), X9), img, sl)
    ensures GenOk(ForElement(g, c), e)
    ensures var g2 := LoadOperand(LoadOperand(g, OpRef(c.arrRef), X9), OpRef(c.idxRef), X10);
      Embeds(g2, img, sl) && Located(img, |g2.code|, ElementAddress() + [Ldr(X9, X9)]) &&
        |ForElement(g, c).code| == |g2.code| + 5
  {
    var g1 := LoadOperand(g, OpRef(c.arrRef), X9);
    var g2 := LoadOperand(g1, OpRef(c.idxRef), X10);
    var code := ElementAddress() + [Ldr(X9, X9)];
    LoadGen(g, e, OpRef(c.arrRef), X9);
    LoadGen(g1, e, OpRef(c.idxRef), X10);
    BodyGen(g2, e, code, []);
    StoreGen(ForElement(g, c), e, RVar(x), X9);
    EmbedsEarlier(ForElement(g, c), StoreResult(ForElement(g, c), e, RVar(x), X9), img, sl);
    EmbedsEarlier(g2, ForElement(g, c), img, sl);
    BodyLocated(img, g2, code, []);
  }

  // The element goes to the loop variable.
  lemma ForElementExec(img: Image, sl: map<Ref, nat>, e: set<int>, g: Gen, c: ForCtx, x: int, s: State, m: Machine,
                       i: nat, m0: Machine, h: Gen)
    returns (k: nat, m': Machine, s': State)
    requires GenOk(g, e) && Injective(sl) && h == StoreResult(ForElement(g, c), e, RVar(x), X9) && Embeds(h, img, sl)
    requires c.arrRef.RTemp? && c.idxRef.RTemp? && c.arrRef.id < -1 && c.idxRef.id < -1
    requires m0 == Run(img, m, i) && Ready(sl, e, g, s, m0, -1)
    ensures m' == Run(img, m, k) && k >= i && s' == s.(env := s.env[RVar(x) := ElemVal(s, c)]) &&
      Ready(sl, e, h, s', m', -1)
  {
    ElementParts(img, sl, e, g, c, x);
    var g1 := LoadOperand(g, OpRef(c.arrRef), X9);
    var g2 := LoadOperand(g1, OpRef(c.idxRef), X10);
    var m1;
    k, m1 := CellsRun(img, sl, e, g, c.arrRef, c.idxRef, s, m, i, m0, g1, g2);
    k, m', s' := ElementStore(img, sl, e, ForElement(g, c), c, x, s, m, k, m1);
  }

  lemma ElementStore(img: Image, sl: map<Ref, nat>, e: set<int>, h: Gen, c: ForCtx, x: int, s: State, m: Machine,
                     i: nat, m1: Machine)
    returns (k: nat, m': Machine, s': State)
    requires GenOk(h, e) && Injective(sl) && Embeds(StoreResult(h, e, RVar(x), X9), img, sl)
    requires m1 == Run(img, m, i) && Rel(sl, e, s, m1) && !m1.trapped && |h.code| == m1.pc + 5
    requires Located(img, m1.pc, ElementAddress() + [Ldr(X9, X9)])
    requires Get(m1, X9) == Lookup(s.env, c.arrRef) && Get(m1, X10) == Lookup(s.env, c.idxRef)
    ensures m' == Run(img, m, k) && k >= i && s' == s.(env := s.env[RVar(x) := ElemVal(s, c)])
    ensures Ready(sl, e, StoreResult(h, e, RVar(x), X9), s', m', -1)
  {
    var m2;
    k, m2 := ElementRun(img, m, i, m1);
    BodyReady(sl, e, s, m1, m2, h);
    k, m', s' := StoreReady(img, sl, e, h, RVar(x), s, m, k, m2);
  }

  lemma ElementRun(img: Image, m: Machine, i: nat, m1: Machine) returns (k: nat, m': Machine)
    requires m1 == Run(img, m, i) && !m1.trapped && Located(img, m1.pc, ElementAddress() + [Ldr(X9, X9)])
    ensures m' == Run(img, m, k) && k >= i && m'.pc == m1.pc + 5 && BodyEffect(m1, m')
    ensures Get(m', X9) == HeapAt(m1.heap, Wrap(Get(m1, X9) + Wrap(Wrap(Get(m1, X10) + 1) * 8)))
  {
    LocatedSplit(img, m1.pc, ElementAddress(), [Ldr(X9, X9)]);
    assert [Ldr(X9, X9)][0] == Ldr(X9, X9);
    var j;
    j, m' := ElementAddressOk(img, m1);
    RunCompose(img, m, i, j);
    k, m' := Then(img, m, i + j, m', Ldr(X9, X9));
  }

  lemma ForTestParts(img: Image, sl: map<Ref, nat>, e: set<int>, g: Gen, c: ForCtx, x: int)
    requires GenOk(g, e) && Embeds(ForRest(g, e, c, x), img, sl)
    ensures GenOk(ForHead(g, c), e) && Embeds(ForHead(g, c), img, sl)
  {
    var g1 := ForHead(g, c);
    ForHeadGen(g, e, c);
    ForElementGen(g1, e, c);
    StoreGen(ForElement(g1, c), e, RVar(x), X9);
    GrowsTrans(g1, ForElement(g1, c), ForRest(g, e, c, x));
    EmbedsEarlier(g1, ForRest(g, e, c, x), img, sl);
  }

  // From the loop head: leave the loop, or set the loop variable and enter the body.
  lemma ForTestExec(img: Image, sl: map<Ref, nat>, e: set<int>, g: Gen, c: ForCtx, x: int, s: State, m: Machine)
    returns (k: nat, m': Machine, s': State)
    requires GenOk(g, e) && Injective(sl) && Embeds(ForRest(g, e, c, x), img, sl) && c.endLabel in img.labels
    requires c.arrRef.RTemp? && c.idxRef.RTemp? && c.arrRef.id < -1 && c.idxRef.id < -1 && Ready(sl, e, g, s, m, -1)
    ensures m' == Run(img, m, k) && k >= 1 && Rel(sl, e, s', m') && !m'.trapped
    ensures if Lookup(s.env, c.idxRef) >= HeapAt(s.heap, Lookup(s.env, c.arrRef)) then
        s' == s && m'.pc == img.labels[c.endLabel]
      else s' == s.(env := s.env[RVar(x) := ElemVal(s, c)]) && m'.pc == |ForRest(g, e, c, x).code|
  {
    ForTestParts(img, sl, e, g, c, x);
    s' := s;
    k, m' := ForHeadExec(img, sl, e, g, c, s, m);
    if Lookup(s.env, c.idxRef) < HeapAt(s.heap, Lookup(s.env, c.arrRef)) {
      k, m', s' := ForElementExec(img, sl, e, ForHead(g, c), c, x, s, m, k, m', ForRest(g, e, c, x));
    }
  }

  lemma ForEndParts(img: Image, sl: map<Ref, nat>, e: set<int>, g: Gen, c: ForCtx, g1: Gen, g2: Gen, g3: Gen)
    requires GenOk(g, e) && g.fors != [] && c == g.fors[|g.fors| - 1] &&
      Embeds(Emit(ForEndStore(g, e), B(c.startLabel)), img, sl)
    requires g1 == LoadOperand(g.(fors := g.fors[..|g.fors| - 1]), OpRef(c.idxRef), X9)
    requires g2 == Emit(g1, AddImm(X9, X9, 1)) && g3 == ForEndStore(g, e)
    ensures GenOk(g2, e) && Embeds(g1, img, sl) && Embeds(g3, img, sl) && g3 == StoreResult(g2, e, c.idxRef, X9)
    ensures At(img, |g1.code|, AddImm(X9, X9, 1)) && At(img, |g3.code|, B(c.startLabel)) && |g2.code| == |g1.code| + 1
  {
    var g0 := g.(fors := g.fors[..|g.fors| - 1]);
    LoadGen(g0, e, OpRef(c.idxRef), X9);
    EmitGen(g1, e, AddImm(X9, X9, 1));
    StoreGen(g2, e, c.idxRef, X9);
    EmitGen(g3, e, B(c.startLabel));
    EmbedsEarlier(g3, Emit(g3, B(c.startLabel)), img, sl);
    EmbedsEarlier(g2, g3, img, sl);
    EmbedsEarlier(g1, g2, img, sl);
    assert g2.code[|g1.code|] == AddImm(X9, X9, 1) && Emit(g3, B(c.startLabel)).code[|g3.code|] == B(c.startLabel);
  }

  // FOR_END: adds one to the index and goes back to the loop head.
  lemma ForEndExec(img: Image, sl: map<Ref, nat>, e: set<int>, g: Gen, c: ForCtx, s: State, m: Machine)
    returns (k: nat, m': Machine, s': State)
    requires GenOk(g, e) && Injective(sl) && g.fors != [] && c == g.fors[|g.fors| - 1] && c.startLabel in img.labels
    requires Embeds(Emit(ForEndStore(g, e), B(c.startLabel)), img, sl)
    requires c.idxRef.RTemp? && c.idxRef.id < -1 && Ready(sl, e, g, s, m, -1)
    ensures m' == Run(img, m, k) && k >= 1 && Rel(sl, e, s', m') && !m'.trapped && m'.pc == img.labels[c.startLabel]
    ensures s' == s.(env := s.env[c.idxRef := Wrap(Lookup(s.env, c.idxRef) + 1)])
  {
    var g0 := g.(fors := g.fors[..|g.fors| - 1]);
    var g1 := LoadOperand(g0, OpRef(c.idxRef), X9);
    var g2, g3 := Emit(g1, AddImm(X9, X9, 1)), ForEndStore(g, e);
    ForEndParts(img, sl, e, g, c, g1, g2, g3);
    var m1;
    k, m1 := CellLoad(img, sl, e, g0, c.idxRef, X9, s, m, 0, m, g1);
    k, m', s' := NextTurn(img, sl, e, c, s, m, k, m1, g2, g3);
  }

  lemma NextTurn(img: Image, sl: map<Ref, nat>, e: set<int>, c: ForCtx, s: State, m: Machine, i: nat, m1: Machine,
                 g2: Gen, g3: Gen)
    returns (k: nat, m': Machine, s': State)
    requires GenOk(g2, e) && Injective(sl) && g3 == StoreResult(g2, e, c.idxRef, X9) && Embeds(g3, img, sl) &&
      !Kept(e, c.idxRef)
    requires At(img, m1.pc, AddImm(X9, X9, 1)) && At(img, |g3.code|, B(c.startLabel)) && |g2.code| == m1.pc + 1
    requires m1 == Run(img, m, i) && Rel(sl, e, s, m1) && !m1.trapped && Get(m1, X9) == Lookup(s.env, c.idxRef)
    requires c.startLabel in img.labels
    ensures m' == Run(img, m, k) && k >= 1 && Rel(sl, e, s', m') && !m'.trapped && m'.pc == img.labels[c.startLabel]
    ensures s' == s.(env := s.env[c.idxRef := Wrap(Lookup(s.env, c.idxRef) + 1)])
  {
    var m2, m3;
    k, m2 := Then(img, m, i, m1, AddImm(X9, X9, 1));
    k, m3, s' := StoreReady(img, sl, e, g2, c.idxRef, s, m, k, m2);
    k, m' := Then(img, m, k, m3, B(c.startLabel));
  }
}
