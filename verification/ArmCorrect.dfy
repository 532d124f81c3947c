/** The compiled program does what the IR does, over every whole run, for every choice of kept temps. */
module ArmCorrect {
  import opened ArmMachine
  import opened ArmIr
  import opened ArmCodegen
  import opened ArmSim
  import opened ArmOps
  import opened ArmLayout
  import opened ArmExec
  import opened ArmVariables
  import opened ArmBalance
  import opened Numbers
  import Simulation
  import opened Options

  // img is the finished program for p, and sl its final slot numbering.
  ghost predicate Linked(p: seq<Instr>, e: set<int>, img: Image, sl: map<Ref, nat>) {
    var f := EnsureSpilled(G(p, e, |p|));
    && NonNegative(e) && !G(p, e, |p|).failed && Resolved(f)
    && img.code == f.code && img.labels == f.labels && sl == f.slotOf
  }

  // Every use of a kept temp is the only one in its instruction and directly follows the definition.
  ghost predicate Eligible(p: seq<Instr>, e: set<int>) {
    forall t, i :: t in e && 0 <= i < |p| && CountIn(Uses(p[i]), t) > 0 ==>
      CountIn(Uses(p[i]), t) == 1 && i > 0 && Defines(p[i - 1], t)
  }

  // The kept temp that instruction i reads, which its predecessor has just defined; -1 if there is none.
  function LiveTemp(p: seq<Instr>, e: set<int>, i: nat): int {
    if 0 < i < |p| && (p[i - 1].Un? || p[i - 1].Bin?) && Kept(e, p[i - 1].dst) &&
      CountIn(Uses(p[i]), p[i - 1].dst.id) > 0
    then p[i - 1].dst.id else -1
  }

  ghost predicate Sim(p: seq<Instr>, e: set<int>, sl: map<Ref, nat>, gen: nat -> Gen, s: State, m: Machine) {
    && Rel(sl, e, s, m)
    && (!s.trapped ==> s.pc <= |p| && m.pc == |gen(s.pc).code| && Live(gen(s.pc), LiveTemp(p, e, s.pc), s.env, m))
  }

  // ---- Facts about the finished program at instruction i ----

  ghost predicate Site(p: seq<Instr>, e: set<int>, img: Image, sl: map<Ref, nat>, g: Gen, h: Gen, ins: Instr) {
    && GenOk(g, e) && !g.failed && !h.failed && Injective(sl) && h == CompileInstr(g, e, ins)
    && Embeds(h, img, sl) && StepOkay(g, e, ins)
  }

  lemma FinalGrows(p: seq<Instr>, e: set<int>, img: Image, sl: map<Ref, nat>, gen: nat -> Gen, i: nat)
    requires Linked(p, e, img, sl) && gen == States(p, e) && i <= |p|
    ensures Embeds(gen(i), img, sl) && !gen(i).failed && GenOk(gen(i), e) && gen(i) == G(p, e, i) && Injective(sl)
    ensures gen(|p|).labels == img.labels
  {
    var f := EnsureSpilled(G(p, e, |p|));
    NotFailed(p, e, i, |p|);
    GenAlwaysOk(p, e, i);
    GenAlwaysOk(p, e, |p|);
    EnsureGen(G(p, e, |p|), e);
    GrowsTo(p, e, i, |p|);
    GrowsTrans(G(p, e, i), G(p, e, |p|), f);
    EmbedsEarlier(G(p, e, i), f, img, sl);
  }

  lemma SiteAt(p: seq<Instr>, e: set<int>, img: Image, sl: map<Ref, nat>, gen: nat -> Gen, i: nat)
    requires Linked(p, e, img, sl) && gen == States(p, e) && i < |p|
    ensures Site(p, e, img, sl, gen(i), gen(i + 1), p[i])
  {
    FinalGrows(p, e, img, sl, gen, i + 1);
    StepAt(p, e, i);
    FinalGrows(p, e, img, sl, gen, i);
  }

  // A branch in the program has its label resolved.
  lemma BranchResolved(p: seq<Instr>, e: set<int>, img: Image, sl: map<Ref, nat>, pc: nat, l: int)
    requires Linked(p, e, img, sl) && pc < |img.code| && BranchTo(img.code[pc], l)
    ensures l in img.labels
  {
  }

  // A resolved control point: the machine label is the start of the IR target.
  lemma PointResolved(p: seq<Instr>, e: set<int>, img: Image, sl: map<Ref, nat>, gen: nat -> Gen, q: Point)
    requires Linked(p, e, img, sl) && gen == States(p, e) && PointBefore(p, |p|, q) && LabelOf(gen, q) in img.labels
    ensures Target(p, q, |p|).Some? && img.labels[LabelOf(gen, q)] == |gen(Target(p, q, |p|).value).code|
  {
    TargetLabel(p, e, gen, |p|, q);
    FinalGrows(p, e, img, sl, gen, |p|);
  }

  lemma {:induction false} TargetIsMarked(p: seq<Instr>, q: Point, n: nat)
    requires n <= |p| && Target(p, q, n).Some?
    ensures var t := Target(p, q, n).value; 0 < t <= n && Marks(p, t - 1, q)
  {
    if !Marks(p, n - 1, q) {
      TargetIsMarked(p, q, n - 1);
    }
  }

  // No kept temp is live where control can arrive by a branch.
  lemma TargetNotLive(p: seq<Instr>, e: set<int>, q: Point)
    requires Target(p, q, |p|).Some?
    ensures Target(p, q, |p|).value <= |p| && LiveTemp(p, e, Target(p, q, |p|).value) == -1
  {
    TargetIsMarked(p, q, |p|);
  }

  // Every resolved control point is where the IR says it is.
  ghost predicate Points(p: seq<Instr>, img: Image, gen: nat -> Gen) {
    forall q :: PointBefore(p, |p|, q) && LabelOf(gen, q) in img.labels ==>
      Target(p, q, |p|).Some? && img.labels[LabelOf(gen, q)] == |gen(Target(p, q, |p|).value).code|
  }

  lemma PointsHold(p: seq<Instr>, e: set<int>, img: Image, sl: map<Ref, nat>, gen: nat -> Gen)
    requires Linked(p, e, img, sl) && gen == States(p, e)
    ensures Points(p, img, gen)
  {
    forall q | PointBefore(p, |p|, q) && LabelOf(gen, q) in img.labels
      ensures Target(p, q, |p|).Some? && img.labels[LabelOf(gen, q)] == |gen(Target(p, q, |p|).value).code|
    {
      PointResolved(p, e, img, sl, gen, q);
    }
  }

  // Arriving at a control point keeps the simulation.
  lemma GotoSim(p: seq<Instr>, e: set<int>, img: Image, sl: map<Ref, nat>, gen: nat -> Gen, q: Point, s: State,
                m: Machine)
    requires Points(p, img, gen) && PointBefore(p, |p|, q) && LabelOf(gen, q) in img.labels
    requires Rel(sl, e, s, m) && m.pc == img.labels[LabelOf(gen, q)]
    ensures Sim(p, e, sl, gen, Goto(p, s, q), m)
  {
    TargetNotLive(p, e, q);
  }

  // Falling through to the next instruction keeps the simulation.
  lemma NextSim(p: seq<Instr>, e: set<int>, sl: map<Ref, nat>, gen: nat -> Gen, i: nat, s: State, m: Machine, live: int)
    requires i < |p| && Ready(sl, e, gen(i + 1), s, m, live) &&
      (LiveTemp(p, e, i + 1) == live || LiveTemp(p, e, i + 1) == -1)
    ensures Sim(p, e, sl, gen, s.(pc := i + 1), m)
  {
  }

  // The operands of an instruction are readable.
  lemma {:induction false} CountPositive(ops: seq<Operand>, t: int, j: nat)
    requires j < |ops| && ops[j] == OpRef(RTemp(t))
    ensures CountIn(ops, t) >= 1 && (forall k :: j < k < |ops| && ops[k] == ops[j] ==> CountIn(ops, t) >= 2)
  {
    if j > 0 {
      CountPositive(ops[1..], t, j - 1);
      forall k | j < k < |ops| && ops[k] == ops[j] ensures CountIn(ops, t) >= 2 {
        assert ops[1..][k - 1] == ops[k];
      }
    } else {
      forall k | j < k < |ops| && ops[k] == ops[j] ensures CountIn(ops, t) >= 2 {
        CountPositive(ops[1..], t, k - 1);
      }
    }
  }

  lemma OperandReadable(p: seq<Instr>, e: set<int>, i: nat, j: nat)
    requires i < |p| && UserCode(p) && Eligible(p, e) && NonNegative(e) && j < |Uses(p[i])|
    ensures Readable(Uses(p[i])[j], e, LiveTemp(p, e, i))
    ensures forall k :: 0 <= k < j && Uses(p[i])[k] == OpRef(RTemp(LiveTemp(p, e, i))) ==>
      Readable(Uses(p[i])[j], e, -1)
  {
    var o := Uses(p[i])[j];
    assert UserInstr(p[i]);
    assert o in Uses(p[i]);
    if o.OpRef? && Kept(e, o.ref) {
      CountPositive(Uses(p[i]), o.ref.id, j);
      forall k | 0 <= k < j && Uses(p[i])[k] == OpRef(RTemp(LiveTemp(p, e, i))) ensures false {
        CountPositive(Uses(p[i]), o.ref.id, k);
      }
    }
  }

  // ---- An instruction's own labels in the finished program ----

  lemma OwnLabelFinal(p: seq<Instr>, e: set<int>, img: Image, sl: map<Ref, nat>, gen: nat -> Gen, i: nat, l: int)
    requires Linked(p, e, img, sl) && gen == States(p, e) && i < |p| && l in gen(i + 1).labels
    requires gen(i + 1).nextLabel < l <= gen(i).nextLabel && (Opens(p[i]) ==> p[i].ForBegin? && l == gen(i).nextLabel)
    ensures l in img.labels && img.labels[l] == gen(i + 1).labels[l]
  {
    OwnLabelAt(p, e, gen, i, l);
    OwnLabelStays(p, e, gen, i + 1, |p|, l);
    FinalGrows(p, e, img, sl, gen, |p|);
  }

  lemma OffsetsFinal(img: Image, labels0: map<int, nat>, labels: map<int, nat>, l: int, base: nat, offs: seq<nat>)
    requires |offs| <= 2 && labels == PlaceLabels(labels0, l, base, offs)
    requires forall x :: l - |offs| < x <= l && x in labels ==> x in img.labels && img.labels[x] == labels[x]
    ensures LabelsAt(img, base, l, offs)
  {
  }

  lemma BodyLabels(p: seq<Instr>, e: set<int>, img: Image, sl: map<Ref, nat>, gen: nat -> Gen, i: nat, base: nat,
                   offs: seq<nat>)
    requires Linked(p, e, img, sl) && gen == States(p, e) && i < |p| && !Opens(p[i]) && |offs| <= 2
    requires gen(i + 1).labels == PlaceLabels(gen(i).labels, gen(i).nextLabel, base, offs)
    requires gen(i + 1).nextLabel == gen(i).nextLabel - |offs|
    ensures LabelsAt(img, base, gen(i).nextLabel, offs)
  {
    var g, h := gen(i), gen(i + 1);
    forall x | g.nextLabel - |offs| < x <= g.nextLabel && x in h.labels
      ensures x in img.labels && img.labels[x] == h.labels[x]
    {
      OwnLabelFinal(p, e, img, sl, gen, i, x);
    }
    OffsetsFinal(img, g.labels, h.labels, g.nextLabel, base, offs);
  }

  // ---- One IR step ----

  ghost predicate Stepped(p: seq<Instr>, e: set<int>, img: Image, sl: map<Ref, nat>, gen: nat -> Gen, s: State,
                          m: Machine, k: nat, m': Machine)
    requires !Done(p, s)
  {
    && m' == Run(img, m, k) && Sim(p, e, sl, gen, IStep(p, s), m')
    && (IStep(p, s).trapped || IStep(p, s).pc == s.pc + 1 || (k >= 1 && !Stopped(img, m)))
  }

  // The assumptions of every step lemma.
  ghost predicate Start(p: seq<Instr>, e: set<int>, img: Image, sl: map<Ref, nat>, gen: nat -> Gen, s: State,
                        m: Machine) {
    && Linked(p, e, img, sl) && gen == States(p, e) && UserCode(p) && Eligible(p, e)
    && !Done(p, s) && Sim(p, e, sl, gen, s, m)
  }

  lemma UnSim(p: seq<Instr>, e: set<int>, img: Image, sl: map<Ref, nat>, gen: nat -> Gen, s: State, m: Machine)
    returns (k: nat, m': Machine)
    requires Start(p, e, img, sl, gen, s, m) && p[s.pc].Un?
    ensures Stepped(p, e, img, sl, gen, s, m, k, m')
  {
    var i, ins, live := s.pc, p[s.pc], LiveTemp(p, e, s.pc);
    SiteAt(p, e, img, sl, gen, i);
    UnLabelsOf(gen(i), e, ins);
    BodyLabels(p, e, img, sl, gen, i, |LoadOperand(gen(i), ins.a, X9).code|, UnLabels(ins.uop));
    OperandReadable(p, e, i, 0);
    var s';
    k, m', s' := UnExec(img, sl, e, gen(i), ins, s, m, live);
    NextSim(p, e, sl, gen, i, s', m', if Kept(e, ins.dst) then ins.dst.id else -1);
  }

  lemma BinSite(p: seq<Instr>, e: set<int>, img: Image, sl: map<Ref, nat>, gen: nat -> Gen, i: nat)
    requires Linked(p, e, img, sl) && gen == States(p, e) && UserCode(p) && Eligible(p, e) && i < |p| && p[i].Bin?
    ensures LabelsAt(img, |BinLoads(gen(i), p[i]).code|, gen(i).nextLabel, BinLabels(p[i].bop))
    ensures Readable(p[i].a, e, LiveTemp(p, e, i))
    ensures Readable(p[i].b, e, if p[i].a == OpRef(RTemp(LiveTemp(p, e, i))) then -1 else LiveTemp(p, e, i))
  {
    SiteAt(p, e, img, sl, gen, i);
    BinLabelsOf(gen(i), e, p[i]);
    BodyLabels(p, e, img, sl, gen, i, |BinLoads(gen(i), p[i]).code|, BinLabels(p[i].bop));
    assert Uses(p[i])[0] == p[i].a && Uses(p[i])[1] == p[i].b;
    OperandReadable(p, e, i, 0);
    OperandReadable(p, e, i, 1);
  }

  lemma BinSim(p: seq<Instr>, e: set<int>, img: Image, sl: map<Ref, nat>, gen: nat -> Gen, s: State, m: Machine)
    returns (k: nat, m': Machine)
    requires Start(p, e, img, sl, gen, s, m) && p[s.pc].Bin?
    ensures Stepped(p, e, img, sl, gen, s, m, k, m')
  {
    var i, ins := s.pc, p[s.pc];
    SiteAt(p, e, img, sl, gen, i);
    BinSite(p, e, img, sl, gen, i);
    k, m' := BinExec(img, sl, e, gen(i), ins, s, m, LiveTemp(p, e, i), gen(i + 1));
    BinStepIs(p, s);
    if !BinNext(ins, s).trapped {
      NextSim(p, e, sl, gen, i, BinNext(ins, s), m', if Kept(e, ins.dst) then ins.dst.id else -1);
    }
  }

  lemma BinStepIs(p: seq<Instr>, s: State)
    requires !Done(p, s) && p[s.pc].Bin?
    ensures IStep(p, s) == if BinNext(p[s.pc], s).trapped then BinNext(p[s.pc], s)
      else BinNext(p[s.pc], s).(pc := s.pc + 1)
  {
  }

  lemma StoreIndexSim(p: seq<Instr>, e: set<int>, img: Image, sl: map<Ref, nat>, gen: nat -> Gen, s: State, m: Machine)
    returns (k: nat, m': Machine)
    requires Start(p, e, img, sl, gen, s, m) && p[s.pc].StoreIndex?
    ensures Stepped(p, e, img, sl, gen, s, m, k, m')
  {
    var i, ins, live := s.pc, p[s.pc], LiveTemp(p, e, s.pc);
    SiteAt(p, e, img, sl, gen, i);
    StoreIndexLabelsOf(gen(i), e, ins);
    BodyLabels(p, e, img, sl, gen, i, |IndexLoads(gen(i), ins).code|, [4]);
    OperandReadable(p, e, i, 0);
    OperandReadable(p, e, i, 1);
    OperandReadable(p, e, i, 2);
    assert Uses(ins)[0] == ins.arr && Uses(ins)[1] == ins.idx && Uses(ins)[2] == ins.val;
    var s';
    k, m', s' := StoreIndexExec(img, sl, e, gen(i), ins, s, m, live);
    NextSim(p, e, sl, gen, i, s', m', -1);
  }

  lemma PrintSim(p: seq<Instr>, e: set<int>, img: Image, sl: map<Ref, nat>, gen: nat -> Gen, s: State, m: Machine)
    returns (k: nat, m': Machine)
    requires Start(p, e, img, sl, gen, s, m) && p[s.pc].Print?
    ensures Stepped(p, e, img, sl, gen, s, m, k, m')
  {
    var i := s.pc;
    SiteAt(p, e, img, sl, gen, i);
    OperandReadable(p, e, i, 0);
    var s';
    k, m', s' := PrintExec(img, sl, e, gen(i), p[i].a, s, m, LiveTemp(p, e, i));
    NextSim(p, e, sl, gen, i, s', m', -1);
  }

  // LABEL, IF_END and the markers: no code.
  lemma NoCodeSim(p: seq<Instr>, e: set<int>, img: Image, sl: map<Ref, nat>, gen: nat -> Gen, s: State, m: Machine)
    returns (k: nat, m': Machine)
    requires Start(p, e, img, sl, gen, s, m) && (p[s.pc].Label? || p[s.pc].IfEnd? || p[s.pc].Marker?)
    ensures Stepped(p, e, img, sl, gen, s, m, k, m')
  {
    SiteAt(p, e, img, sl, gen, s.pc);
    k, m' := 0, m;
    NextSim(p, e, sl, gen, s.pc, s, m, -1);
  }

  lemma JumpSim(p: seq<Instr>, e: set<int>, img: Image, sl: map<Ref, nat>, gen: nat -> Gen, s: State, m: Machine)
    returns (k: nat, m': Machine)
    requires Start(p, e, img, sl, gen, s, m) && p[s.pc].Jump?
    ensures Stepped(p, e, img, sl, gen, s, m, k, m')
  {
    PointsHold(p, e, img, sl, gen);
    var i, l := s.pc, p[s.pc].l;
    SiteAt(p, e, img, sl, gen, i);
    assert gen(i + 1).code[|gen(i).code|] == B(l);
    BranchResolved(p, e, img, sl, m.pc, l);
    k, m' := Then(img, m, 0, m, B(l));
    GotoSim(p, e, img, sl, gen, PLabel(l), s, m');
  }

  // A conditional branch: JUMP_IF_FALSE, JUMP_IF_TRUE or IF_BEGIN.
  lemma CondSim(p: seq<Instr>, e: set<int>, img: Image, sl: map<Ref, nat>, gen: nat -> Gen, s: State, m: Machine,
                g: Gen, o: Operand, ins: MInstr, q: Point)
    returns (k: nat, m': Machine)
    requires Start(p, e, img, sl, gen, s, m) && Uses(p[s.pc]) == [o] && (ins.Cbz? || ins.Cbnz?) && ins.n == X9
    requires PointBefore(p, |p|, q) && ins.l == LabelOf(gen, q)
    requires g.code == gen(s.pc).code && g.pendId == gen(s.pc).pendId && g.pendReg == gen(s.pc).pendReg
    requires Emit(LoadOperand(g, o, X9), ins).code == gen(s.pc + 1).code && SubMap(LoadOperand(g, o, X9).slotOf, sl)
    requires IStep(p, s) == if (Val(s.env, o) == 0) == ins.Cbz? then Goto(p, s, q) else s.(pc := s.pc + 1)
    requires !(p[s.pc].Un? || p[s.pc].Bin?)
    ensures Stepped(p, e, img, sl, gen, s, m, k, m')
  {
    PointsHold(p, e, img, sl, gen);
    var i := s.pc;
    SiteAt(p, e, img, sl, gen, i);
    OperandReadable(p, e, i, 0);
    var g1 := LoadOperand(g, o, X9);
    assert Emit(g1, ins).code[|g1.code|] == ins && |g1.code| < |img.code| && img.code[|g1.code|] == ins;
    BranchResolved(p, e, img, sl, |g1.code|, ins.l);
    k, m' := LoadBranchExec(img, sl, e, g, o, ins, s, m, LiveTemp(p, e, i));
    LoadGrows(g, o, X9);
    if (Val(s.env, o) == 0) == ins.Cbz? {
      GotoSim(p, e, img, sl, gen, q, s, m');
    }
  }

  lemma LoadGrows(g: Gen, o: Operand, d: Reg)
    ensures |LoadOperand(g, o, d).code| >= |g.code|
  {
  }

  // The conditional branches themselves.
  lemma BranchSim(p: seq<Instr>, e: set<int>, img: Image, sl: map<Ref, nat>, gen: nat -> Gen, s: State, m: Machine)
    returns (k: nat, m': Machine)
    requires Start(p, e, img, sl, gen, s, m) && (p[s.pc].JumpIfFalse? || p[s.pc].JumpIfTrue? || p[s.pc].IfBegin?)
    ensures Stepped(p, e, img, sl, gen, s, m, k, m')
  {
    var i, g := s.pc, gen(s.pc);
    SiteAt(p, e, img, sl, gen, i);
    match p[i] {
      case JumpIfFalse(o, l) => k, m' := CondSim(p, e, img, sl, gen, s, m, g, o, Cbz(X9, l), PLabel(l));
      case JumpIfTrue(o, l) => k, m' := CondSim(p, e, img, sl, gen, s, m, g, o, Cbnz(X9, l), PLabel(l));
      case IfBegin(o) => k, m' := CondSim(p, e, img, sl, gen, s, m, FreshLabels(g, 2), o, Cbz(X9, g.nextLabel),
        PElse(i));
    }
  }

  // An ELSE met in a run goes behind the innermost open IF.
  lemma ElseGoes(p: seq<Instr>, s: State, open: seq<Open>)
    requires !Done(p, s) && p[s.pc].IfElse? && IfsOpen(p[..s.pc]) == Some(open) && open != []
    ensures IStep(p, s) == Goto(p, s, PEndIf(open[|open| - 1].begin))
  {
  }

  // The IF that an ELSE belongs to, for the emitter and for the IR.
  lemma ElseSite(p: seq<Instr>, e: set<int>, gen: nat -> Gen, s: State) returns (b: nat)
    requires !Done(p, s) && p[s.pc].IfElse? && !G(p, e, s.pc).failed && NonNegative(e) && gen == States(p, e) &&
      gen(s.pc).ifs != []
    ensures PointBefore(p, |p|, PEndIf(b)) && IStep(p, s) == Goto(p, s, PEndIf(b))
    ensures gen(s.pc).ifs[|gen(s.pc).ifs| - 1].endLabel == LabelOf(gen, PEndIf(b))
  {
    StacksMatch(p, e, s.pc, gen);
    var open := IfsOpen(p[..s.pc]).value;
    b := open[|open| - 1].begin;
    ElseGoes(p, s, open);
  }

  lemma ElseSim(p: seq<Instr>, e: set<int>, img: Image, sl: map<Ref, nat>, gen: nat -> Gen, s: State, m: Machine)
    returns (k: nat, m': Machine)
    requires Start(p, e, img, sl, gen, s, m) && p[s.pc].IfElse?
    ensures Stepped(p, e, img, sl, gen, s, m, k, m')
  {
    PointsHold(p, e, img, sl, gen);
    var g, h := gen(s.pc), gen(s.pc + 1);
    SiteAt(p, e, img, sl, gen, s.pc);
    var b := ElseSite(p, e, gen, s);
    ElseCode(img, g, h, e);
    BranchResolved(p, e, img, sl, m.pc, LabelOf(gen, PEndIf(b)));
    k, m' := Then(img, m, 0, m, B(LabelOf(gen, PEndIf(b))));
    GotoSim(p, e, img, sl, gen, PEndIf(b), s, m');
  }

  lemma ElseCode(img: Image, g: Gen, h: Gen, e: set<int>)
    requires !g.failed && h == CompileInstr(g, e, IfElse) && !h.failed && h.code <= img.code
    ensures g.ifs != [] && At(img, |g.code|, B(g.ifs[|g.ifs| - 1].endLabel))
  {
    assert h.code[|g.code|] == B(g.ifs[|g.ifs| - 1].endLabel);
  }

  // ---- Loops ----

  // What the code at a loop head does: leave to the end label, or set x and go on to the body.
  ghost predicate TestPost(img: Image, sl: map<Ref, nat>, e: set<int>, c: ForCtx, x: int, body: nat, s: State,
                           m': Machine) {
    if Lookup(s.env, c.idxRef) >= HeapAt(s.heap, Lookup(s.env, c.arrRef)) then
      Rel(sl, e, s, m') && c.endLabel in img.labels && m'.pc == img.labels[c.endLabel]
    else
      Rel(sl, e, s.(env := s.env[RVar(x) := ElemVal(s, c)]), m') && m'.pc == body
  }

  ghost predicate HeadWorks(img: Image, sl: map<Ref, nat>, e: set<int>, head: nat, c: ForCtx, x: int, body: nat) {
    forall s, m :: Rel(sl, e, s, m) && !m.trapped && m.pc == head ==>
      exists k :: k >= 1 && TestPost(img, sl, e, c, x, body, s, Run(img, m, k))
  }

  lemma HeadWorksAt(img: Image, sl: map<Ref, nat>, e: set<int>, h: Gen, c: ForCtx, x: int)
    requires GenOk(h, e) && Injective(sl) && Embeds(ForRest(h, e, c, x), img, sl) && c.endLabel in img.labels
    requires c.arrRef.RTemp? && c.idxRef.RTemp? && c.arrRef.id < -1 && c.idxRef.id < -1
    ensures HeadWorks(img, sl, e, |h.code|, c, x, |ForRest(h, e, c, x).code|)
  {
    forall s, m | Rel(sl, e, s, m) && !m.trapped && m.pc == |h.code|
      ensures exists k :: k >= 1 && TestPost(img, sl, e, c, x, |ForRest(h, e, c, x).code|, s, Run(img, m, k))
    {
      var k, m', s' := ForTestExec(img, sl, e, h, c, x, s, m);
    }
  }

  // The loop that opens at b: its context, its cells and its head in the finished program.
  ghost predicate LoopSite(p: seq<Instr>, e: set<int>, img: Image, sl: map<Ref, nat>, gen: nat -> Gen, b: nat,
                           c: ForCtx, head: nat) {
    && b < |p| && p[b].ForBegin?
    && c.arrRef == LoopArr(ForCount(p[..b])) && c.idxRef == LoopIdx(ForCount(p[..b]))
    && c.startLabel in img.labels && img.labels[c.startLabel] == head
    && c.endLabel in img.labels && c.endLabel == LabelOf(gen, PEndFor(b))
    && HeadWorks(img, sl, e, head, c, p[b].x, |gen(b + 1).code|)
  }

  lemma ForParts(img: Image, sl: map<Ref, nat>, g: Gen, e: set<int>, ins: Instr, c: ForCtx, h: Gen)
    requires GenOk(g, e) && !g.failed && ins.ForBegin? && Embeds(CompileInstr(g, e, ins), img, sl)
    requires c == NewFor(g) && h == ForInit(g, e, c, ins.arr)
    ensures GenOk(h, e) && Embeds(h, img, sl) && Embeds(ForRest(h, e, c, ins.x), img, sl)
    ensures ForRest(h, e, c, ins.x).code == CompileInstr(g, e, ins).code
  {
    ForInitGen(g, e, ins.arr);
    ForRestGen(h, e, c, ins.x);
    EmbedsEarlier(h, ForRest(h, e, c, ins.x), img, sl);
  }

  lemma LoopParts(p: seq<Instr>, e: set<int>, img: Image, sl: map<Ref, nat>, gen: nat -> Gen, b: nat, c: ForCtx, h: Gen)
    requires Linked(p, e, img, sl) && gen == States(p, e) && b < |p| && p[b].ForBegin?
    requires c == NewFor(gen(b)) && h == ForInit(gen(b), e, c, p[b].arr)
    ensures GenOk(h, e) && Injective(sl) && Embeds(h, img, sl) && Embeds(ForRest(h, e, c, p[b].x), img, sl)
    ensures ForRest(h, e, c, p[b].x).code == gen(b + 1).code
    ensures c.startLabel in gen(b + 1).labels && gen(b + 1).labels[c.startLabel] == |h.code|
    ensures gen(b + 1).nextLabel == gen(b).nextLabel - 2
  {
    SiteAt(p, e, img, sl, gen, b);
    ForParts(img, sl, gen(b), e, p[b], c, h);
    TwoLabels(gen(b), e, p[b]);
  }

  // The loop's exit branch is in the program, so its label is resolved.
  lemma ExitResolved(p: seq<Instr>, e: set<int>, img: Image, sl: map<Ref, nat>, h: Gen, c: ForCtx, x: int)
    requires Linked(p, e, img, sl) && GenOk(h, e) && Embeds(ForRest(h, e, c, x), img, sl)
    ensures c.endLabel in img.labels
  {
    var g1 := LoadOperand(h, OpRef(c.idxRef), X9);
    var g2 := LoadOperand(g1, OpRef(c.arrRef), X10);
    var code := [Ldr(X10, X10), Cmp(X9, X10), BCond(GE, c.endLabel)];
    ForHeadGen(h, e, c);
    ForElementGen(ForHead(h, c), e, c);
    StoreGen(ForElement(ForHead(h, c), c), e, RVar(x), X9);
    GrowsTrans(ForHead(h, c), ForElement(ForHead(h, c), c), ForRest(h, e, c, x));
    EmbedsEarlier(ForHead(h, c), ForRest(h, e, c, x), img, sl);
    BodyLocated(img, g2, code, []);
    assert code[2] == BCond(GE, c.endLabel);
    BranchResolved(p, e, img, sl, |g2.code| + 2, c.endLabel);
  }

  lemma LoopLabels(p: seq<Instr>, e: set<int>, img: Image, sl: map<Ref, nat>, gen: nat -> Gen, b: nat, c: ForCtx,
                   head: nat)
    requires Linked(p, e, img, sl) && gen == States(p, e) && b < |p| && p[b].ForBegin? && c == NewFor(gen(b))
    requires c.startLabel in gen(b + 1).labels && gen(b + 1).labels[c.startLabel] == head &&
      gen(b + 1).nextLabel == gen(b).nextLabel - 2
    ensures c.startLabel in img.labels && img.labels[c.startLabel] == head
    ensures c.arrRef == LoopArr(ForCount(p[..b])) && c.idxRef == LoopIdx(ForCount(p[..b]))
  {
    OwnLabelFinal(p, e, img, sl, gen, b, c.startLabel);
    FinalGrows(p, e, img, sl, gen, b);
    HiddenCount(p, e, b);
  }

  lemma LoopSiteAt(p: seq<Instr>, e: set<int>, img: Image, sl: map<Ref, nat>, gen: nat -> Gen, b: nat, c: ForCtx,
                   head: nat)
    requires Linked(p, e, img, sl) && gen == States(p, e) && b < |p| && p[b].ForBegin?
    requires c == NewFor(gen(b)) && head == |ForInit(gen(b), e, c, p[b].arr).code|
    ensures LoopSite(p, e, img, sl, gen, b, c, head)
  {
    var h := ForInit(gen(b), e, c, p[b].arr);
    LoopParts(p, e, img, sl, gen, b, c, h);
    LoopLabels(p, e, img, sl, gen, b, c, head);
    ExitResolved(p, e, img, sl, h, c, p[b].x);
    HeadWorksAt(img, sl, e, h, c, p[b].x);
  }

  // The outcome of the loop test, in terms of the loop's context.
  lemma ForTestIs(p: seq<Instr>, s: State, b: nat, c: ForCtx)
    requires b < |p| && p[b].ForBegin? && c.arrRef == LoopArr(ForCount(p[..b])) && c.idxRef == LoopIdx(ForCount(p[..b]))
    ensures ForTest(p, s, b) ==
      if Lookup(s.env, c.idxRef) >= HeapAt(s.heap, Lookup(s.env, c.arrRef)) then Goto(p, s, PEndFor(b))
      else s.(pc := b + 1, env := s.env[RVar(p[b].x) := ElemVal(s, c)])
  {
  }

  // Entering a loop body keeps the simulation.
  lemma EnterSim(p: seq<Instr>, e: set<int>, sl: map<Ref, nat>, gen: nat -> Gen, b: nat, s: State, m: Machine)
    requires b < |p| && p[b].ForBegin? && Rel(sl, e, s, m) && m.pc == |gen(b + 1).code|
    ensures Sim(p, e, sl, gen, s.(pc := b + 1), m)
  {
  }

  // From the loop head on, the machine follows the IR's loop test.
  lemma TestSim(p: seq<Instr>, e: set<int>, img: Image, sl: map<Ref, nat>, gen: nat -> Gen, b: nat, c: ForCtx,
                head: nat, s: State, m: Machine, i: nat, m1: Machine)
    returns (k: nat, m': Machine)
    requires Points(p, img, gen) && LoopSite(p, e, img, sl, gen, b, c, head)
    requires m1 == Run(img, m, i) && Rel(sl, e, s, m1) && !m1.trapped && m1.pc == head
    ensures m' == Run(img, m, k) && k >= 1 && Sim(p, e, sl, gen, ForTest(p, s, b), m')
  {
    var j :| j >= 1 && TestPost(img, sl, e, c, p[b].x, |gen(b + 1).code|, s, Run(img, m1, j));
    RunCompose(img, m, i, j);
    k := i + j;
    m' := Run(img, m1, j);
    AfterTest(p, e, img, sl, gen, b, c, s, m');
  }

  lemma AfterTest(p: seq<Instr>, e: set<int>, img: Image, sl: map<Ref, nat>, gen: nat -> Gen, b: nat, c: ForCtx,
                  s: State, m': Machine)
    requires Points(p, img, gen) && b < |p| && p[b].ForBegin?
    requires c.endLabel in img.labels && c.endLabel == LabelOf(gen, PEndFor(b))
    requires c.arrRef == LoopArr(ForCount(p[..b])) && c.idxRef == LoopIdx(ForCount(p[..b]))
    requires TestPost(img, sl, e, c, p[b].x, |gen(b + 1).code|, s, m')
    ensures Sim(p, e, sl, gen, ForTest(p, s, b), m')
  {
    ForTestIs(p, s, b, c);
    if Lookup(s.env, c.idxRef) >= HeapAt(s.heap, Lookup(s.env, c.arrRef)) {
      GotoSim(p, e, img, sl, gen, PEndFor(b), s, m');
    } else {
      EnterSim(p, e, sl, gen, b, s.(env := s.env[RVar(p[b].x) := ElemVal(s, c)]), m');
    }
  }

  lemma ForBeginStepIs(p: seq<Instr>, s: State, c: ForCtx)
    requires !Done(p, s) && p[s.pc].ForBegin?
    requires c.arrRef == LoopArr(ForCount(p[..s.pc])) && c.idxRef == LoopIdx(ForCount(p[..s.pc]))
    ensures IStep(p, s) == ForTest(p, s.(env := s.env[c.arrRef := Val(s.env, p[s.pc].arr)][c.idxRef := 0]), s.pc)
  {
  }

  lemma ForBeginSim(p: seq<Instr>, e: set<int>, img: Image, sl: map<Ref, nat>, gen: nat -> Gen, s: State, m: Machine)
    returns (k: nat, m': Machine)
    requires Start(p, e, img, sl, gen, s, m) && p[s.pc].ForBegin?
    ensures Stepped(p, e, img, sl, gen, s, m, k, m')
  {
    PointsHold(p, e, img, sl, gen);
    var i := s.pc;
    var c := NewFor(gen(i));
    var head := |ForInit(gen(i), e, c, p[i].arr).code|;
    LoopSiteAt(p, e, img, sl, gen, i, c, head);
    LoopParts(p, e, img, sl, gen, i, c, ForInit(gen(i), e, c, p[i].arr));
    SiteAt(p, e, img, sl, gen, i);
    ForBeginHasCode(gen(i), e, p[i]);
    ForBeginStepIs(p, s, c);
    EntryReadable(p, e, i);
    k, m' := ForBeginRun(p, e, img, sl, gen, gen(i), s, m, LiveTemp(p, e, i), c, head);
  }

  lemma ForBeginRun(p: seq<Instr>, e: set<int>, img: Image, sl: map<Ref, nat>, gen: nat -> Gen, g: Gen, s: State,
                    m: Machine, live: int, c: ForCtx, head: nat)
    returns (k: nat, m': Machine)
    requires Points(p, img, gen) && LoopSite(p, e, img, sl, gen, s.pc, c, head)
    requires GenOk(g, e) && c == NewFor(g) && head == |ForInit(g, e, c, p[s.pc].arr).code| && Injective(sl)
    requires Embeds(ForInit(g, e, c, p[s.pc].arr), img, sl) && Ready(sl, e, g, s, m, live) &&
      Readable(p[s.pc].arr, e, live)
    ensures m' == Run(img, m, k) && k >= 1
    ensures Sim(p, e, sl, gen, ForTest(p, s.(env := s.env[c.arrRef := Val(s.env, p[s.pc].arr)][c.idxRef := 0]), s.pc),
      m')
  {
    var m1, s1;
    k, m1, s1 := ForInitExec(img, sl, e, g, p[s.pc].arr, s, m, live);
    k, m' := TestSim(p, e, img, sl, gen, s.pc, c, head, s1, m, k, m1);
  }

  lemma EntryReadable(p: seq<Instr>, e: set<int>, i: nat)
    requires UserCode(p) && Eligible(p, e) && NonNegative(e) && i < |p| && p[i].ForBegin?
    ensures Readable(p[i].arr, e, LiveTemp(p, e, i))
  {
    OperandReadable(p, e, i, 0);
    assert Uses(p[i])[0] == p[i].arr;
  }

  lemma ForBeginHasCode(g: Gen, e: set<int>, ins: Instr)
    requires GenOk(g, e) && !g.failed && ins.ForBegin?
    ensures |CompileInstr(g, e, ins).code| > |g.code|
  {
    var c := NewFor(g);
    var h := ForInit(g, e, c, ins.arr);
    var g1 := ForHead(h, c);
    ForInitGen(g, e, ins.arr);
    HeadCode(h, c);
    ForHeadGen(h, e, c);
    ForElementGen(g1, e, c);
    StoreGen(ForElement(g1, c), e, RVar(ins.x), X9);
  }

  lemma HeadCode(h: Gen, c: ForCtx)
    ensures |ForHead(h, c).code| > |h.code|
  {
    LoadGrows(h, OpRef(c.idxRef), X9);
    LoadGrows(LoadOperand(h, OpRef(c.idxRef), X9), OpRef(c.arrRef), X10);
  }

  lemma ForEndSim(p: seq<Instr>, e: set<int>, img: Image, sl: map<Ref, nat>, gen: nat -> Gen, s: State, m: Machine)
    returns (k: nat, m': Machine)
    requires Start(p, e, img, sl, gen, s, m) && p[s.pc].ForEnd?
    ensures Stepped(p, e, img, sl, gen, s, m, k, m')
  {
    PointsHold(p, e, img, sl, gen);
    var b, c, head, m1, s1;
    b, c, head := ForEndLoop(p, e, img, sl, gen, s.pc);
    ForEndStepIs(p, s, b, c);
    k, m1, s1 := ForEndTurn(p, e, img, sl, gen, s, m, c, head);
    k, m' := TestSim(p, e, img, sl, gen, b, c, head, s1, m, k, m1);
  }

  lemma LoopSiteOf(p: seq<Instr>, e: set<int>, img: Image, sl: map<Ref, nat>, gen: nat -> Gen, b: nat)
    returns (c: ForCtx, head: nat)
    requires Linked(p, e, img, sl) && gen == States(p, e) && b < |p| && p[b].ForBegin?
    ensures LoopSite(p, e, img, sl, gen, b, c, head) && c == NewFor(gen(b))
  {
    c := NewFor(gen(b));
    head := |ForInit(gen(b), e, c, p[b].arr).code|;
    LoopSiteAt(p, e, img, sl, gen, b, c, head);
  }

  lemma ForEndLoop(p: seq<Instr>, e: set<int>, img: Image, sl: map<Ref, nat>, gen: nat -> Gen, i: nat)
    returns (b: nat, c: ForCtx, head: nat)
    requires Linked(p, e, img, sl) && gen == States(p, e) && i < |p| && p[i].ForEnd?
    ensures LoopSite(p, e, img, sl, gen, b, c, head) && TopFor(p, i, b)
    ensures gen(i).fors != [] && gen(i).fors[|gen(i).fors| - 1] == c
  {
    ForEndOpen(p, e, img, sl, gen, i);
    b := ForEndSite(p, e, gen, i);
    c, head := LoopSiteOf(p, e, img, sl, gen, b);
  }

  lemma ForEndOpen(p: seq<Instr>, e: set<int>, img: Image, sl: map<Ref, nat>, gen: nat -> Gen, i: nat)
    requires Linked(p, e, img, sl) && gen == States(p, e) && i < |p| && p[i].ForEnd?
    ensures gen(i).fors != [] && !G(p, e, i).failed
  {
    SiteAt(p, e, img, sl, gen, i);
  }

  // The FOR that a FOR_END belongs to, for the emitter and for the IR.
  lemma ForEndSite(p: seq<Instr>, e: set<int>, gen: nat -> Gen, i: nat) returns (b: nat)
    requires i < |p| && p[i].ForEnd? && !G(p, e, i).failed && NonNegative(e) && gen == States(p, e) && gen(i).fors != []
    ensures b < |p| && p[b].ForBegin? && gen(i).fors[|gen(i).fors| - 1] == NewFor(gen(b)) && TopFor(p, i, b)
  {
    StacksMatch(p, e, i, gen);
    b := ForsOpen(p[..i]).value[|gen(i).fors| - 1];
  }

  lemma ForEndStepIs(p: seq<Instr>, s: State, b: nat, c: ForCtx)
    requires !Done(p, s) && p[s.pc].ForEnd? && TopFor(p, s.pc, b) && b < |p| && p[b].ForBegin? &&
      c.idxRef == LoopIdx(ForCount(p[..b]))
    ensures IStep(p, s) == ForTest(p, s.(env := s.env[c.idxRef := Wrap(Lookup(s.env, c.idxRef) + 1)]), b)
  {
  }

  lemma ForEndTurn(p: seq<Instr>, e: set<int>, img: Image, sl: map<Ref, nat>, gen: nat -> Gen, s: State, m: Machine,
                   c: ForCtx, head: nat)
    returns (k: nat, m': Machine, s': State)
    requires Start(p, e, img, sl, gen, s, m) && p[s.pc].ForEnd?
    requires gen(s.pc).fors != [] && c == gen(s.pc).fors[|gen(s.pc).fors| - 1] && c.startLabel in img.labels &&
      img.labels[c.startLabel] == head
    requires c.idxRef.RTemp? && c.idxRef.id < -1
    ensures m' == Run(img, m, k) && Rel(sl, e, s', m') && !m'.trapped && m'.pc == head
    ensures s' == s.(env := s.env[c.idxRef := Wrap(Lookup(s.env, c.idxRef) + 1)]) && !Stopped(img, m)
  {
    SiteAt(p, e, img, sl, gen, s.pc);
    k, m', s' := NextTurnSim(img, sl, e, gen(s.pc), gen(s.pc + 1), c, s, m);
  }

  lemma NextTurnSim(img: Image, sl: map<Ref, nat>, e: set<int>, g: Gen, h: Gen, c: ForCtx, s: State, m: Machine)
    returns (k: nat, m': Machine, s': State)
    requires GenOk(g, e) && Injective(sl) && g.fors != [] && c == g.fors[|g.fors| - 1] && c.startLabel in img.labels
    requires !g.failed && h == CompileInstr(g, e, ForEnd) && Embeds(h, img, sl)
    requires c.idxRef.RTemp? && c.idxRef.id < -1 && Ready(sl, e, g, s, m, -1)
    ensures m' == Run(img, m, k) && Rel(sl, e, s', m') && !m'.trapped && m'.pc == img.labels[c.startLabel]
    ensures s' == s.(env := s.env[c.idxRef := Wrap(Lookup(s.env, c.idxRef) + 1)]) && !Stopped(img, m)
  {
    k, m', s' := ForEndExec(img, sl, e, g, c, s, m);
    ForEndStoreGen(g, e);
  }

  // Every instruction: one IR step is matched by a machine run.
  lemma StepSim(p: seq<Instr>, e: set<int>, img: Image, sl: map<Ref, nat>, gen: nat -> Gen, s: State, m: Machine)
    returns (k: nat, m': Machine)
    requires Start(p, e, img, sl, gen, s, m)
    ensures Stepped(p, e, img, sl, gen, s, m, k, m')
  {
    match p[s.pc] {
      case Un(_, _, _) => k, m' := UnSim(p, e, img, sl, gen, s, m);
      case Bin(_, _, _, _) => k, m' := BinSim(p, e, img, sl, gen, s, m);
      case StoreIndex(_, _, _) => k, m' := StoreIndexSim(p, e, img, sl, gen, s, m);
      case Print(_) => k, m' := PrintSim(p, e, img, sl, gen, s, m);
      case Jump(_) => k, m' := JumpSim(p, e, img, sl, gen, s, m);
      case JumpIfFalse(_, _) => k, m' := BranchSim(p, e, img, sl, gen, s, m);
      case JumpIfTrue(_, _) => k, m' := BranchSim(p, e, img, sl, gen, s, m);
      case IfBegin(_) => k, m' := BranchSim(p, e, img, sl, gen, s, m);
      case IfElse => k, m' := ElseSim(p, e, img, sl, gen, s, m);
      case ForBegin(_, _) => k, m' := ForBeginSim(p, e, img, sl, gen, s, m);
      case ForEnd => k, m' := ForEndSim(p, e, img, sl, gen, s, m);
      case _ => k, m' := NoCodeSim(p, e, img, sl, gen, s, m);
    }
  }

  // ---- Whole runs ----

  // At the end of the IR program the machine is at, or one spill before, the end of its code.
  lemma EndStops(p: seq<Instr>, e: set<int>, img: Image, sl: map<Ref, nat>, gen: nat -> Gen, s: State, m: Machine)
    returns (k: nat)
    requires Linked(p, e, img, sl) && gen == States(p, e) && Sim(p, e, sl, gen, s, m) && Done(p, s)
    ensures Stopped(img, Run(img, m, k)) && Rel(sl, e, s, Run(img, m, k))
  {
    if s.trapped {
      k := 0;
    } else {
      FinalGrows(p, e, img, sl, gen, |p|);
      EnsureGen(G(p, e, |p|), e);
      var m';
      k, m' := EnsureOk(img, sl, e, gen(|p|), s, m);
    }
  }

  // The two machines as step systems.
  function IrSystem(p: seq<Instr>): Simulation.System<State> {
    Simulation.System((s: State) => if Done(p, s) then s else IStep(p, s), (s: State) => Done(p, s))
  }

  function PcOf(): State -> nat {
    (x: State) => x.pc
  }

  function MachineSystem(img: Image): Simulation.System<Machine> {
    Simulation.System((m: Machine) => if Stopped(img, m) then m else Step(img, m), (m: Machine) => Stopped(img, m))
  }

  lemma {:induction false} IRunIs(p: seq<Instr>, s: State, n: nat)
    ensures IrSystem(p).Run(s, n) == IRun(p, s, n)
    decreases n
  {
    if n > 0 && !Done(p, s) {
      IRunIs(p, IStep(p, s), n - 1);
    }
  }

  lemma {:induction false} RunIs(img: Image, m: Machine, k: nat)
    ensures MachineSystem(img).Run(m, k) == Run(img, m, k)
    decreases k
  {
    if k > 0 && !Stopped(img, m) {
      var m1 := GetStep(img, m);
      RunStep(img, m, m1, k - 1);
      RunIs(img, m1, k - 1);
    }
  }

  ghost function SimRel(p: seq<Instr>, e: set<int>, sl: map<Ref, nat>, gen: nat -> Gen): (State, Machine) -> bool {
    (s, m) => Sim(p, e, sl, gen, s, m)
  }

  ghost function SameRel(sl: map<Ref, nat>, e: set<int>): (State, Machine) -> bool {
    (s, m) => Rel(sl, e, s, m)
  }

  lemma StepMatches(p: seq<Instr>, e: set<int>, img: Image, sl: map<Ref, nat>, gen: nat -> Gen, s: State, m: Machine)
    requires Linked(p, e, img, sl) && gen == States(p, e) && UserCode(p) && Eligible(p, e)
    requires Sim(p, e, sl, gen, s, m) && !Done(p, s)
    ensures exists k: nat ::
      Simulation.StepMatch(IrSystem(p), MachineSystem(img), PcOf(), SimRel(p, e, sl, gen), s, m, k)
  {
    var k, m' := StepSim(p, e, img, sl, gen, s, m);
    RunIs(img, m, k);
    StepMatchIs(p, e, img, sl, gen, s, m, k);
  }

  lemma StepMatchIs(p: seq<Instr>, e: set<int>, img: Image, sl: map<Ref, nat>, gen: nat -> Gen, s: State, m: Machine,
                    k: nat)
    requires !Done(p, s) && Stepped(p, e, img, sl, gen, s, m, k, MachineSystem(img).Run(m, k))
    ensures Simulation.StepMatch(IrSystem(p), MachineSystem(img), PcOf(), SimRel(p, e, sl, gen), s, m, k)
  {
  }

  lemma EndMatches(p: seq<Instr>, e: set<int>, img: Image, sl: map<Ref, nat>, gen: nat -> Gen, s: State, m: Machine)
    requires Linked(p, e, img, sl) && gen == States(p, e) && Sim(p, e, sl, gen, s, m) && Done(p, s)
    ensures exists k: nat :: Simulation.EndMatch(MachineSystem(img), SameRel(sl, e), s, m, k)
  {
    var k := EndStops(p, e, img, sl, gen, s, m);
    RunIs(img, m, k);
    assert Simulation.EndMatch(MachineSystem(img), SameRel(sl, e), s, m, k);
  }

  lemma CodeSimulates(p: seq<Instr>, e: set<int>, img: Image, sl: map<Ref, nat>, gen: nat -> Gen)
    requires Linked(p, e, img, sl) && gen == States(p, e) && UserCode(p) && Eligible(p, e)
    ensures Simulation.Simulates(IrSystem(p), MachineSystem(img), PcOf(), |p|, SimRel(p, e, sl, gen), SameRel(sl, e))
  {
    var a, b, pc, rel, same := IrSystem(p), MachineSystem(img), PcOf(), SimRel(p, e, sl, gen), SameRel(sl, e);
    forall s, m | rel(s, m) && !a.stop(s) ensures exists k: nat :: Simulation.StepMatch(a, b, pc, rel, s, m, k) {
      StepMatches(p, e, img, sl, gen, s, m);
    }
    forall s, m | rel(s, m) && a.stop(s) ensures exists k: nat :: Simulation.EndMatch(b, same, s, m, k) {
      EndMatches(p, e, img, sl, gen, s, m);
    }
  }

  ghost predicate Terminates(p: seq<Instr>, s: State) {
    exists n: nat :: Done(p, IRun(p, s, n))
  }

  ghost predicate Halts(img: Image, m: Machine) {
    exists k: nat :: Stopped(img, Run(img, m, k))
  }

  function Program(p: seq<Instr>, e: set<int>, junk: Reg -> Word): Image {
    var f := EnsureSpilled(Compiled(p, e));
    Image(f.code, f.labels, junk)
  }

  function Slots(p: seq<Instr>, e: set<int>): map<Ref, nat> {
    EnsureSpilled(Compiled(p, e)).slotOf
  }

  // The same printed text, heap and fault, and the same value in every variable that the program mentions.
  ghost predicate SameResult(p: seq<Instr>, e: set<int>, s: State, m: Machine) {
    && m.out == s.out && m.heap == s.heap && m.trapped == s.trapped
    && forall v :: Mentions(p, v) ==> RVar(v) in Slots(p, e) && Slot(m, Slots(p, e)[RVar(v)]) == Lookup(s.env, RVar(v))
  }

  // Where the code of instruction i starts.
  function Entry(p: seq<Instr>, e: set<int>, i: nat): nat
    requires i <= |p|
  {
    |Compiled(p[..i], e).code|
  }

  // The machine is about to run the instruction that the IR is about to run, and shows what the IR shows.
  ghost predicate Stands(p: seq<Instr>, e: set<int>, s: State, m: Machine) {
    SameResult(p, e, s, m) && (!s.trapped ==> s.pc <= |p| && m.pc == Entry(p, e, s.pc))
  }

  // At these times, in order, the machine is where the IR is after 0, 1, 2, ... steps.
  ghost predicate Follows(p: seq<Instr>, e: set<int>, img: Image, s: State, m: Machine, times: seq<nat>) {
    && times != [] && times[0] == 0
    && (forall j :: 0 <= j < |times| ==> Stands(p, e, IRun(p, s, j), Run(img, m, times[j])))
    && forall j :: 0 <= j < |times| - 1 ==> times[j] <= times[j + 1]
  }

  ghost predicate FollowsFor(p: seq<Instr>, e: set<int>, img: Image, s: State, m: Machine, n: nat) {
    exists times :: |times| == n + 1 && Follows(p, e, img, s, m, times)
  }

  // What the machine has printed after k steps, the IR prints too.
  ghost predicate PrintedBy(p: seq<Instr>, img: Image, s: State, m: Machine, k: nat) {
    exists n: nat :: Run(img, m, k).out <= IRun(p, s, n).out
  }

  // Every run, finished or not: the machine passes through every IR state in order and prints nothing else; it halts
  // exactly when the IR ends, and then with its result.
  ghost predicate Refines(p: seq<Instr>, e: set<int>, img: Image, s: State, m: Machine) {
    && (forall n: nat :: FollowsFor(p, e, img, s, m, n))
    && (forall k: nat :: PrintedBy(p, img, s, m, k))
    && (Halts(img, m) <==> Terminates(p, s))
    && forall n: nat, k: nat :: Done(p, IRun(p, s, n)) && Stopped(img, Run(img, m, k)) ==>
      SameResult(p, e, IRun(p, s, n), Run(img, m, k))
  }

  // Both sides at their first instruction, agreeing on everything that is stored.
  ghost predicate Initial(p: seq<Instr>, e: set<int>, s: State, m: Machine) {
    s.pc == 0 && m.pc == 0 && !s.trapped && Rel(Slots(p, e), e, s, m)
  }

  lemma ProgramLinked(p: seq<Instr>, e: set<int>, junk: Reg -> Word)
    requires Compiles(p, e) && NonNegative(e)
    ensures Linked(p, e, Program(p, e, junk), Slots(p, e))
  {
    assert p[..|p|] == p;
  }

  lemma InitialSim(p: seq<Instr>, e: set<int>, s: State, m: Machine)
    requires Initial(p, e, s, m)
    ensures Sim(p, e, Slots(p, e), States(p, e), s, m)
  {
  }

  lemma RelShows(p: seq<Instr>, e: set<int>, s: State, m: Machine)
    requires !Compiled(p, e).failed && NonNegative(e) && Rel(Slots(p, e), e, s, m)
    ensures SameResult(p, e, s, m)
  {
    forall v | Mentions(p, v)
      ensures RVar(v) in Slots(p, e) && Slot(m, Slots(p, e)[RVar(v)]) == Lookup(s.env, RVar(v))
    {
      SlotsCover(p, e, v);
    }
  }

  lemma SimAt(p: seq<Instr>, e: set<int>, s: State, m: Machine)
    requires !Compiled(p, e).failed && NonNegative(e) && Sim(p, e, Slots(p, e), States(p, e), s, m)
    ensures Stands(p, e, s, m)
  {
    RelShows(p, e, s, m);
  }

  // The facts of one program's runs, as step systems.
  ghost predicate Runs(p: seq<Instr>, e: set<int>, img: Image, s: State, m: Machine) {
    && UserCode(p) && NonNegative(e) && Eligible(p, e) && !Compiled(p, e).failed
    && Linked(p, e, img, Slots(p, e)) && Sim(p, e, Slots(p, e), States(p, e), s, m)
  }

  lemma RunsStart(p: seq<Instr>, e: set<int>, junk: Reg -> Word, s: State, m: Machine)
    requires UserCode(p) && NonNegative(e) && Eligible(p, e) && Compiles(p, e) && Initial(p, e, s, m)
    ensures Runs(p, e, Program(p, e, junk), s, m)
  {
    ProgramLinked(p, e, junk);
    InitialSim(p, e, s, m);
  }

  lemma AtEach(p: seq<Instr>, e: set<int>, img: Image, s: State, m: Machine, times: seq<nat>, j: nat)
    requires Runs(p, e, img, s, m) && j < |times|
    requires Simulation.Follows(IrSystem(p), MachineSystem(img), SimRel(p, e, Slots(p, e), States(p, e)), s, m, times)
    ensures Stands(p, e, IRun(p, s, j), Run(img, m, times[j]))
  {
    IRunIs(p, s, j);
    RunIs(img, m, times[j]);
    SimAt(p, e, IRun(p, s, j), Run(img, m, times[j]));
  }

  lemma FollowsEvery(p: seq<Instr>, e: set<int>, img: Image, s: State, m: Machine, n: nat)
    requires Runs(p, e, img, s, m)
    ensures FollowsFor(p, e, img, s, m, n)
  {
    var a, b, rel, same := IrSystem(p), MachineSystem(img), SimRel(p, e, Slots(p, e), States(p, e)),
      SameRel(Slots(p, e), e);
    CodeSimulates(p, e, img, Slots(p, e), States(p, e));
    var times := Simulation.RunFollows(a, b, PcOf(), |p|, rel, same, s, m, n);
    forall j | 0 <= j < |times| ensures Stands(p, e, IRun(p, s, j), Run(img, m, times[j])) {
      AtEach(p, e, img, s, m, times, j);
    }
    assert Follows(p, e, img, s, m, times);
  }

  lemma StepPrints(img: Image, m: Machine)
    requires !Stopped(img, m)
    ensures m.out <= Step(img, m).out
  {
  }

  lemma {:induction false} OutGrows(img: Image, m: Machine, k: nat)
    ensures m.out <= Run(img, m, k).out
    decreases k
  {
    if k > 0 && !Stopped(img, m) {
      var m1 := GetStep(img, m);
      StepPrints(img, m);
      RunStep(img, m, m1, k - 1);
      OutGrows(img, m1, k - 1);
    } else {
      RunHalt(img, m, k);
    }
  }

  // Some machine state no earlier than the k-th, or stopped, prints exactly what some IR state prints.
  lemma SamePrint(p: seq<Instr>, e: set<int>, img: Image, s: State, m: Machine, k: nat) returns (n: nat, j: nat)
    requires Runs(p, e, img, s, m)
    ensures IRun(p, s, n).out == Run(img, m, j).out && (k <= j || Stopped(img, Run(img, m, j)))
  {
    var a, b, rel, same := IrSystem(p), MachineSystem(img), SimRel(p, e, Slots(p, e), States(p, e)),
      SameRel(Slots(p, e), e);
    CodeSimulates(p, e, img, Slots(p, e), States(p, e));
    n, j := Simulation.RunBounds(a, b, PcOf(), |p|, rel, same, s, m, k);
    IRunIs(p, s, n);
    RunIs(img, m, j);
  }

  // What is printed by the k-th state is printed by any later one, or by a stopped one.
  lemma PrintedLater(img: Image, m: Machine, k: nat, j: nat)
    requires k <= j || Stopped(img, Run(img, m, j))
    ensures Run(img, m, k).out <= Run(img, m, j).out
  {
    if k <= j {
      RunCompose(img, m, k, j - k);
      OutGrows(img, Run(img, m, k), j - k);
    } else {
      RunCompose(img, m, j, k - j);
      RunHalt(img, Run(img, m, j), k - j);
    }
  }

  lemma PrintedIn(p: seq<Instr>, img: Image, s: State, m: Machine, k: nat, n: nat, out: seq<Word>)
    requires IRun(p, s, n).out == out && Run(img, m, k).out <= out
    ensures PrintedBy(p, img, s, m, k)
  {
  }

  lemma PrintsNothingElse(p: seq<Instr>, e: set<int>, img: Image, s: State, m: Machine, k: nat)
    requires Runs(p, e, img, s, m)
    ensures PrintedBy(p, img, s, m, k)
  {
    var n, j := SamePrint(p, e, img, s, m, k);
    PrintedLater(img, m, k, j);
    PrintedIn(p, img, s, m, k, n, Run(img, m, j).out);
  }

  lemma ResultsFollow(p: seq<Instr>, e: set<int>, img: Image, s: State, m: Machine)
    requires Runs(p, e, img, s, m)
    ensures Halts(img, m) <==> Terminates(p, s)
    ensures forall n: nat, k: nat :: Done(p, IRun(p, s, n)) && Stopped(img, Run(img, m, k)) ==>
      SameResult(p, e, IRun(p, s, n), Run(img, m, k))
  {
    var sl, gen := Slots(p, e), States(p, e);
    CodeSimulates(p, e, img, sl, gen);
    Simulation.RunsAgree(IrSystem(p), MachineSystem(img), PcOf(), |p|, SimRel(p, e, sl, gen), SameRel(sl, e), s, m);
    forall n: nat ensures IrSystem(p).Run(s, n) == IRun(p, s, n) {
      IRunIs(p, s, n);
    }
    forall k: nat ensures MachineSystem(img).Run(m, k) == Run(img, m, k) {
      RunIs(img, m, k);
    }
    forall n: nat, k: nat | Done(p, IRun(p, s, n)) && Stopped(img, Run(img, m, k))
      ensures SameResult(p, e, IRun(p, s, n), Run(img, m, k))
    {
      RelShows(p, e, IRun(p, s, n), Run(img, m, k));
    }
  }

  /** For every balanced program and every eligible choice of temps to keep in registers, over every run, finished or
      not: the emitted code passes through the IR's states in order, prints what the IR prints and nothing else, halts
      exactly when the IR does, and then with the IR's heap, fault and variables. */
  lemma EmittedCodeRefinesIr(p: seq<Instr>, e: set<int>, junk: Reg -> Word, s: State, m: Machine)
    requires UserCode(p) && Balanced(p) && NonNegative(e) && Eligible(p, e) && Initial(p, e, s, m)
    ensures Refines(p, e, Program(p, e, junk), s, m)
  {
    var img := Program(p, e, junk);
    CompilesExactly(p, e);
    RunsStart(p, e, junk, s, m);
    forall n: nat ensures FollowsFor(p, e, img, s, m, n) {
      FollowsEvery(p, e, img, s, m, n);
    }
    forall k: nat ensures PrintedBy(p, img, s, m, k) {
      PrintsNothingElse(p, e, img, s, m, k);
    }
    ResultsFollow(p, e, img, s, m);
  }

  // ---- The temps that the compiler picks ----

  lemma {:induction false} UseCountAt(p: seq<Instr>, t: int, i: nat)
    requires i < |p|
    ensures UseCount(p, t) >= CountIn(Uses(p[i]), t)
  {
    if i < |p| - 1 {
      UseCountAt(p[..|p| - 1], t, i);
    }
  }

  lemma {:induction false} UseCountTwo(p: seq<Instr>, t: int, i: nat, j: nat)
    requires i < j < |p|
    ensures UseCount(p, t) >= CountIn(Uses(p[i]), t) + CountIn(Uses(p[j]), t)
  {
    if j < |p| - 1 {
      UseCountTwo(p[..|p| - 1], t, i, j);
    } else {
      UseCountAt(p[..|p| - 1], t, i);
    }
  }

  /** Temps used once, by the instruction right after their last definition, are eligible, however often
      they are defined and wherever control can jump. */
  lemma ElidableIsEligible(p: seq<Instr>, e: set<int>)
    requires forall t :: t in e ==> Elidable(p, t)
    ensures Eligible(p, e)
  {
    forall t, i | t in e && 0 <= i < |p| && CountIn(Uses(p[i]), t) > 0
      ensures CountIn(Uses(p[i]), t) == 1 && i > 0 && Defines(p[i - 1], t)
    {
      assert Elidable(p, t);
      var d :| 0 <= d < |p| - 1 && LastDef(p, d, t) && CountIn(Uses(p[d + 1]), t) == 1;
      if i < d + 1 {
        UseCountTwo(p, t, i, d + 1);
      } else if i > d + 1 {
        UseCountTwo(p, t, d + 1, i);
      }
    }
  }

  lemma KeptNonNegative(p: seq<Instr>, e: set<int>)
    requires UserCode(p) && forall t :: t in e ==> Elidable(p, t)
    ensures NonNegative(e)
  {
    forall t | t in e ensures t >= 0 {
      assert Elidable(p, t);
      var d :| 0 <= d < |p| - 1 && LastDef(p, d, t) && CountIn(Uses(p[d + 1]), t) == 1;
      assert UserInstr(p[d]);
    }
  }

  // Two machines, one running the code with kept temps, show the same.
  ghost predicate ShowSame(p: seq<Instr>, e: set<int>, a: Machine, b: Machine) {
    && a.out == b.out && a.heap == b.heap && a.trapped == b.trapped
    && forall v :: Mentions(p, v) ==>
      RVar(v) in Slots(p, e) && RVar(v) in Slots(p, {}) &&
        Slot(a, Slots(p, e)[RVar(v)]) == Slot(b, Slots(p, {})[RVar(v)])
  }

  // They are about to run the same instruction.
  ghost predicate Meet(p: seq<Instr>, e: set<int>, a: Machine, b: Machine) {
    && ShowSame(p, e, a, b)
    && (!a.trapped ==> exists i :: 0 <= i <= |p| && a.pc == Entry(p, e, i) && b.pc == Entry(p, {}, i))
  }

  /** The variables with a slot are those the program mentions, with and without kept temps. */
  lemma SameVariables(p: seq<Instr>, e: set<int>, v: int)
    requires UserCode(p) && Balanced(p) && forall t :: t in e ==> Elidable(p, t)
    ensures RVar(v) in Slots(p, e) <==> Mentions(p, v)
    ensures RVar(v) in Slots(p, {}) <==> Mentions(p, v)
  {
    KeptNonNegative(p, e);
    CompilesExactly(p, e);
    CompilesExactly(p, {});
    SlotsCover(p, e, v);
    SlotsCover(p, {}, v);
  }

  // Both pass through the positions of the first n IR steps, in order, and show the same at each.
  ghost predicate SamePath(p: seq<Instr>, e: set<int>, x: Image, y: Image, s: State, m: Machine, m0: Machine, n: nat) {
    exists times, times0 :: |times| == |times0| == n + 1
      && Follows(p, e, x, s, m, times) && Follows(p, {}, y, s, m0, times0)
      && forall j :: 0 <= j <= n ==> Meet(p, e, Run(x, m, times[j]), Run(y, m0, times0[j]))
  }

  lemma AtMeet(p: seq<Instr>, e: set<int>, s: State, a: Machine, b: Machine)
    requires Stands(p, e, s, a) && Stands(p, {}, s, b)
    ensures Meet(p, e, a, b)
  {
  }

  lemma SamePathFor(p: seq<Instr>, e: set<int>, x: Image, y: Image, s: State, m: Machine, m0: Machine, n: nat)
    requires FollowsFor(p, e, x, s, m, n) && FollowsFor(p, {}, y, s, m0, n)
    ensures SamePath(p, e, x, y, s, m, m0, n)
  {
    var times :| |times| == n + 1 && Follows(p, e, x, s, m, times);
    var times0 :| |times0| == n + 1 && Follows(p, {}, y, s, m0, times0);
    forall j | 0 <= j <= n ensures Meet(p, e, Run(x, m, times[j]), Run(y, m0, times0[j])) {
      AtMeet(p, e, IRun(p, s, j), Run(x, m, times[j]), Run(y, m0, times0[j]));
    }
  }

  lemma SameEnds(p: seq<Instr>, e: set<int>, x: Image, y: Image, s: State, m: Machine, m0: Machine, j: nat, k: nat)
    requires Refines(p, e, x, s, m) && Refines(p, {}, y, s, m0) && Stopped(x, Run(x, m, j)) && Stopped(y, Run(y, m0, k))
    ensures ShowSame(p, e, Run(x, m, j), Run(y, m0, k))
  {
    assert Terminates(p, s);
    var n: nat :| Done(p, IRun(p, s, n));
    assert SameResult(p, e, IRun(p, s, n), Run(x, m, j)) && SameResult(p, {}, IRun(p, s, n), Run(y, m0, k));
  }

  /** Keeping the elidable temps in registers changes nothing, on any run: the code with kept temps and the code that
      stores every temp take the same path through the program and show the same at every instruction on it, halt on
      the same starts, and then show the same result. */
  lemma ElisionPreservesMeaning(p: seq<Instr>, e: set<int>, junk: Reg -> Word, s: State, m: Machine, m0: Machine)
    requires UserCode(p) && Balanced(p) && (forall t :: t in e ==> Elidable(p, t))
    requires Initial(p, e, s, m) && Initial(p, {}, s, m0)
    ensures forall n: nat :: SamePath(p, e, Program(p, e, junk), Program(p, {}, junk), s, m, m0, n)
    ensures Halts(Program(p, e, junk), m) <==> Halts(Program(p, {}, junk), m0)
    ensures forall j: nat, k: nat ::
      Stopped(Program(p, e, junk), Run(Program(p, e, junk), m, j)) &&
        Stopped(Program(p, {}, junk), Run(Program(p, {}, junk), m0, k)) ==>
        ShowSame(p, e, Run(Program(p, e, junk), m, j), Run(Program(p, {}, junk), m0, k))
  {
    var x, y := Program(p, e, junk), Program(p, {}, junk);
    KeptNonNegative(p, e);
    ElidableIsEligible(p, e);
    EmittedCodeRefinesIr(p, e, junk, s, m);
    EmittedCodeRefinesIr(p, {}, junk, s, m0);
    forall n: nat ensures SamePath(p, e, x, y, s, m, m0, n) {
      SamePathFor(p, e, x, y, s, m, m0, n);
    }
    forall j: nat, k: nat | Stopped(x, Run(x, m, j)) && Stopped(y, Run(y, m0, k))
      ensures ShowSame(p, e, Run(x, m, j), Run(y, m0, k))
    {
      SameEnds(p, e, x, y, s, m, m0, j, k);
    }
  }
}
