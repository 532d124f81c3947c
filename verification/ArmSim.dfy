/** Whole-run simulation: the emitted code does what the IR does, whichever temps are kept in registers. */
module ArmSim {
  import opened ArmMachine
  import opened ArmIr
  import opened ArmCodegen
  import opened Numbers

  // ---- What every emitter routine keeps ----

  ghost predicate SubMap(a: map<Ref, nat>, b: map<Ref, nat>) {
    forall r :: r in a ==> r in b && b[r] == a[r]
  }

  ghost predicate Grows(g: Gen, h: Gen) {
    g.code <= h.code && SubMap(g.slotOf, h.slotOf)
  }

  ghost predicate Injective(sl: map<Ref, nat>) {
    forall r, s :: r in sl && s in sl && sl[r] == sl[s] ==> r == s
  }

  ghost predicate GenOk(g: Gen, e: set<int>) {
    && Injective(g.slotOf)
    && 2 <= g.nextSlot && (forall r :: r in g.slotOf ==> 2 <= g.slotOf[r] < g.nextSlot)
    && g.pendId >= -1 && (g.pendId >= 0 ==> g.pendId in e)
    && (g.pendReg == X9 || g.pendReg == TCACHE)
    && g.nextLabel < 0
    && (forall t :: t in e ==> t >= 0)
    && g.nextHidden <= -100000
  }

  // Same emitter state except for code, slots and the pending temp.
  ghost predicate SameControl(g: Gen, h: Gen) {
    && h.labels == g.labels && h.ifs == g.ifs && h.fors == g.fors
    && h.nextLabel == g.nextLabel && h.nextHidden == g.nextHidden && h.failed == g.failed
  }

  lemma EmitGen(g: Gen, e: set<int>, ins: MInstr)
    requires GenOk(g, e)
    ensures GenOk(Emit(g, ins), e) && Grows(g, Emit(g, ins)) && SameControl(g, Emit(g, ins))
  {
  }

  lemma SlotForGen(g: Gen, e: set<int>, r: Ref)
    requires GenOk(g, e)
    ensures GenOk(SlotFor(g, r), e) && Grows(g, SlotFor(g, r)) && SameControl(g, SlotFor(g, r))
  {
  }

  lemma GrowsTrans(g: Gen, h: Gen, k: Gen)
    requires Grows(g, h) && Grows(h, k)
    ensures Grows(g, k)
  {
  }

  lemma SpillGen(g: Gen, e: set<int>, r: Ref, n: Reg)
    requires GenOk(g, e)
    ensures var h := Spill(g, r, n); GenOk(h, e) && Grows(g, h) && SameControl(g, h) && h.pendId == g.pendId
  {
    var h := SlotFor(g, r);
    SlotForGen(g, e, r);
    EmitGen(h, e, StrSlot(n, h.slotOf[r]));
    GrowsTrans(g, h, Spill(g, r, n));
  }

  lemma ProtectGen(g: Gen, e: set<int>, d: Reg)
    requires GenOk(g, e)
    ensures var h := ProtectPending(g, d); GenOk(h, e) && Grows(g, h) && SameControl(g, h)
  {
    EmitGen(g, e, MovReg(TCACHE, g.pendReg));
  }

  lemma LoadGen(g: Gen, e: set<int>, o: Operand, d: Reg)
    requires GenOk(g, e)
    ensures var h := LoadOperand(g, o, d); GenOk(h, e) && Grows(g, h) && SameControl(g, h)
  {
    if o.OpRef? && o.ref == RTemp(g.pendId) {
      EmitGen(g, e, MovReg(d, g.pendReg));
    } else {
      var h := ProtectPending(g, d);
      ProtectGen(g, e, d);
      match o
      case OpConst(w) => EmitGen(h, e, MovImm(d, w));
      case OpNone => EmitGen(h, e, MovImm(d, 0));
      case OpRef(r) =>
        var k := SlotFor(h, r);
        SlotForGen(h, e, r);
        EmitGen(k, e, LdrSlot(d, k.slotOf[r]));
        GrowsTrans(g, h, k);
        GrowsTrans(g, k, LoadOperand(g, o, d));
    }
  }

  lemma EnsureGen(g: Gen, e: set<int>)
    requires GenOk(g, e)
    ensures var h := EnsureSpilled(g); GenOk(h, e) && Grows(g, h) && SameControl(g, h) && h.pendId < 0
  {
    if g.pendId >= 0 {
      SpillGen(g.(pendId := -1), e, RTemp(g.pendId), g.pendReg);
    }
  }

  lemma StoreGen(g: Gen, e: set<int>, r: Ref, n: Reg)
    requires GenOk(g, e) && (n == X9 || n == TCACHE)
    ensures var h := StoreResult(g, e, r, n); GenOk(h, e) && Grows(g, h) && SameControl(g, h)
  {
    var h := EnsureSpilled(g);
    EnsureGen(g, e);
    if !Kept(e, r) {
      SpillGen(h, e, r, n);
      GrowsTrans(g, h, Spill(h, r, n));
    }
  }

  // ---- The relation between an IR state and a machine state ----

  predicate Kept(e: set<int>, r: Ref) {
    r.RTemp? && r.id in e
  }

  ghost predicate Rel(sl: map<Ref, nat>, e: set<int>, s: State, m: Machine) {
    && m.heap == s.heap && m.out == s.out && m.trapped == s.trapped
    && forall r :: r in sl && !Kept(e, r) ==> Slot(m, sl[r]) == Lookup(s.env, r)
  }

  // The temp that the next instruction is about to read sits in the pending register (-1: no such temp).
  ghost predicate Live(g: Gen, live: int, env: map<Ref, Word>, m: Machine) {
    live >= 0 ==> g.pendId == live && Get(m, g.pendReg) == Lookup(env, RTemp(live))
  }

  ghost predicate Embeds(g: Gen, img: Image, sl: map<Ref, nat>) {
    g.code <= img.code && SubMap(g.slotOf, sl)
  }

  lemma EmbedsEarlier(g: Gen, h: Gen, img: Image, sl: map<Ref, nat>)
    requires Grows(g, h) && Embeds(h, img, sl)
    ensures Embeds(g, img, sl)
  {
  }

  lemma RunOne(img: Image, m: Machine)
    requires !Stopped(img, m)
    ensures Run(img, m, 1) == Step(img, m)
  {
    assert Run(img, Step(img, m), 0) == Step(img, m);
  }

  ghost predicate Readable(o: Operand, e: set<int>, live: int) {
    o.OpRef? && o.ref.RTemp? ==> o.ref.id != -1 && (o.ref.id in e ==> live == o.ref.id && live >= 0)
  }

  // One instruction of the image, at the place where the emitter put it.
  lemma StepOk(img: Image, g: Gen, ins: MInstr, m: Machine) returns (m': Machine)
    requires Emit(g, ins).code <= img.code && m.pc == |g.code| && !m.trapped
    ensures m' == Exec(img, ins, m) == Run(img, m, 1)
  {
    assert Emit(g, ins).code[|g.code|] == ins;
    RunOne(img, m);
    m' := Step(img, m);
  }

  // Moving a pending temp out of the way keeps it readable.
  lemma ProtectOk(img: Image, sl: map<Ref, nat>, g: Gen, d: Reg, s: State, m: Machine, live: int)
    returns (k: nat, m': Machine)
    requires Embeds(ProtectPending(g, d), img, sl) && m.pc == |g.code| && !m.trapped && Live(g, live, s.env, m) &&
      d < TCACHE
    ensures m' == Run(img, m, k) == m.(pc := |ProtectPending(g, d).code|, regs := m'.regs)
    ensures Live(ProtectPending(g, d), live, s.env, m')
    ensures live >= 0 ==> ProtectPending(g, d).pendReg != d
    ensures forall q :: 0 <= q < TCACHE ==> m'.regs[q] == m.regs[q]
    ensures k == |ProtectPending(g, d).code| - |g.code|
  {
    k, m' := 0, m;
    if g.pendId >= 0 && g.pendReg == d {
      m' := StepOk(img, g, MovReg(TCACHE, g.pendReg), m);
      k := 1;
    }
  }

  // The register or immediate or memory load itself, once the target register is free.
  lemma FetchOk(img: Image, sl: map<Ref, nat>, h: Gen, o: Operand, d: Reg, env: map<Ref, Word>, m: Machine)
    returns (m': Machine)
    requires o.OpRef? ==> o.ref in sl && Slot(m, sl[o.ref]) == Lookup(env, o.ref)
    requires d < TCACHE && !m.trapped && m.pc == |h.code|
    requires Embeds(Fetched(h, o, d), img, sl)
    ensures m' == Run(img, m, 1) == m.(pc := |h.code| + 1, regs := m.regs[d := Val(env, o)])
  {
    match o {
      case OpConst(w) => m' := StepOk(img, h, MovImm(d, w), m);
      case OpNone => m' := StepOk(img, h, MovImm(d, 0), m);
      case OpRef(r) =>
        var h1 := SlotFor(h, r);
        m' := StepOk(img, h1, LdrSlot(d, h1.slotOf[r]), m);
        assert h1.slotOf[r] == sl[r];
    }
  }

  // The pending temp itself is the operand: at most a register move.
  lemma HitOk(img: Image, sl: map<Ref, nat>, g: Gen, d: Reg, s: State, m: Machine) returns (k: nat, m': Machine)
    requires Embeds(LoadOperand(g, OpRef(RTemp(g.pendId)), d), img, sl) && d < TCACHE && g.pendId >= 0
    requires m.pc == |g.code| && !m.trapped && Live(g, g.pendId, s.env, m)
    ensures var h := LoadOperand(g, OpRef(RTemp(g.pendId)), d);
      m' == Run(img, m, k) == m.(pc := |h.code|, regs := m'.regs) && k == |h.code| - |g.code|
    ensures Get(m', d) == Lookup(s.env, RTemp(g.pendId))
    ensures forall q :: 0 <= q < TCACHE && q != d ==> m'.regs[q] == m.regs[q]
  {
    k, m' := 0, m;
    if d != g.pendReg {
      m' := StepOk(img, g, MovReg(d, g.pendReg), m);
      k := 1;
    }
  }

  // Any other operand: the pending temp moves out of the way if need be, then the operand is fetched.
  lemma MissOk(img: Image, sl: map<Ref, nat>, g: Gen, o: Operand, d: Reg, s: State, m: Machine, live: int)
    returns (k: nat, m': Machine)
    requires Embeds(LoadOperand(g, o, d), img, sl) && d < TCACHE && o != OpRef(RTemp(g.pendId))
    requires m.pc == |g.code| && !m.trapped && Live(g, live, s.env, m)
    requires o.OpRef? ==> (o.ref in sl ==> Slot(m, sl[o.ref]) == Lookup(s.env, o.ref))
    ensures var h := LoadOperand(g, o, d);
      m' == Run(img, m, k) == m.(pc := |h.code|, regs := m'.regs) && k == |h.code| - |g.code| &&
        Live(h, live, s.env, m')
    ensures Get(m', d) == Val(s.env, o)
    ensures forall q :: 0 <= q < TCACHE && q != d ==> m'.regs[q] == m.regs[q]
  {
    var h := ProtectPending(g, d);
    var m0;
    assert Embeds(h, img, sl);
    k, m0 := ProtectOk(img, sl, g, d, s, m, live);
    if o.OpRef? {
      assert o.ref in LoadOperand(g, o, d).slotOf;
    }
    m' := FetchOk(img, sl, h, o, d, s.env, m0);
    RunCompose(img, m, k, 1);
    k := k + 1;
  }

  // Loading an operand puts its value in the register and keeps a live temp readable.
  lemma LoadOk(img: Image, sl: map<Ref, nat>, e: set<int>, g: Gen, o: Operand, d: Reg, s: State, m: Machine, live: int)
    returns (k: nat, m': Machine, live': int)
    requires Embeds(LoadOperand(g, o, d), img, sl) && d < TCACHE && g.pendId >= -1 && (g.pendId >= 0 ==> g.pendId in e)
    requires m.pc == |g.code| && Rel(sl, e, s, m) && !m.trapped && Live(g, live, s.env, m) && Readable(o, e, live)
    ensures m' == Run(img, m, k) == m.(pc := |LoadOperand(g, o, d).code|, regs := m'.regs)
    ensures Get(m', d) == Val(s.env, o)
    ensures live' == (if o == OpRef(RTemp(live)) then -1 else live) && Live(LoadOperand(g, o, d), live', s.env, m')
    ensures forall q :: 0 <= q < TCACHE && q != d ==> m'.regs[q] == m.regs[q]
    ensures k == |LoadOperand(g, o, d).code| - |g.code|
  {
    live' := if o == OpRef(RTemp(live)) then -1 else live;
    if o == OpRef(RTemp(g.pendId)) {
      k, m' := HitOk(img, sl, g, d, s, m);
    } else {
      k, m' := MissOk(img, sl, g, o, d, s, m, live);
    }
  }

  // Storing one register into the slot of r.
  lemma SpillOk(img: Image, sl: map<Ref, nat>, e: set<int>, g: Gen, r: Ref, n: Reg, s: State, m: Machine)
    returns (m': Machine)
    requires Embeds(Spill(g, r, n), img, sl) && Injective(sl)
    requires m.pc == |g.code| && Rel(sl, e, s, m) && !m.trapped
    ensures m' == Run(img, m, 1) == m.(pc := |Spill(g, r, n).code|, slots := m'.slots)
    ensures Kept(e, r) ==> Rel(sl, e, s, m')
    ensures Rel(sl, e, s.(env := s.env[r := Get(m, n)]), m')
  {
    var h := SlotFor(g, r);
    m' := StepOk(img, h, StrSlot(n, h.slotOf[r]), m);
    assert h.slotOf[r] == sl[r];
  }

  lemma EnsureOk(img: Image, sl: map<Ref, nat>, e: set<int>, g: Gen, s: State, m: Machine)
    returns (k: nat, m': Machine)
    requires Embeds(EnsureSpilled(g), img, sl) && Injective(sl) && (g.pendId >= 0 ==> g.pendId in e)
    requires m.pc == |g.code| && Rel(sl, e, s, m) && !m.trapped
    ensures m' == Run(img, m, k) == m.(pc := |EnsureSpilled(g).code|, slots := m'.slots) && Rel(sl, e, s, m')
    ensures k == |EnsureSpilled(g).code| - |g.code|
  {
    k, m' := 0, m;
    if g.pendId >= 0 {
      m' := SpillOk(img, sl, e, g.(pendId := -1), RTemp(g.pendId), g.pendReg, s, m);
      k := 1;
    }
  }

  // Storing a result in memory, behind an older pending value.
  lemma StoreSlotOk(img: Image, sl: map<Ref, nat>, e: set<int>, g: Gen, r: Ref, s: State, m: Machine)
    returns (k: nat, m': Machine)
    requires GenOk(g, e) && !Kept(e, r) && Embeds(Spill(EnsureSpilled(g), r, X9), img, sl) && Injective(sl)
    requires m.pc == |g.code| && Rel(sl, e, s, m) && !m.trapped
    ensures m' == Run(img, m, k) == m.(pc := |Spill(EnsureSpilled(g), r, X9).code|, slots := m'.slots)
    ensures Rel(sl, e, s.(env := s.env[r := Get(m, X9)]), m')
    ensures k == |Spill(EnsureSpilled(g), r, X9).code| - |g.code|
  {
    var g1 := EnsureSpilled(g);
    EnsureGen(g, e);
    SpillGen(g1, e, r, X9);
    EmbedsEarlier(g1, Spill(g1, r, X9), img, sl);
    var m1;
    k, m1 := EnsureOk(img, sl, e, g, s, m);
    m' := SpillOk(img, sl, e, g1, r, X9, s, m1);
    RunCompose(img, m, k, 1);
    k := k + 1;
  }

  // Storing a result: in memory, or left in its register as the new live temp.
  lemma StoreOk(img: Image, sl: map<Ref, nat>, e: set<int>, g: Gen, r: Ref, s: State, m: Machine)
    returns (k: nat, m': Machine, s': State)
    requires GenOk(g, e) && Embeds(StoreResult(g, e, r, X9), img, sl) && Injective(sl)
    requires m.pc == |g.code| && Rel(sl, e, s, m) && !m.trapped
    ensures m' == Run(img, m, k) == m.(pc := |StoreResult(g, e, r, X9).code|, slots := m'.slots)
    ensures s' == s.(env := s.env[r := Get(m, X9)])
    ensures Rel(sl, e, s', m') && Live(StoreResult(g, e, r, X9), if Kept(e, r) then r.id else -1, s'.env, m')
    ensures k == |StoreResult(g, e, r, X9).code| - |g.code|
  {
    s' := s.(env := s.env[r := Get(m, X9)]);
    EnsureGen(g, e);
    if Kept(e, r) {
      k, m' := EnsureOk(img, sl, e, g, s, m);
    } else {
      k, m' := StoreSlotOk(img, sl, e, g, r, s, m);
    }
  }
}
