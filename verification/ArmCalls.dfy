/** Constructor calls and list-returning library calls: they run the allocator before they load their arguments, so
    an argument that waits in a register is lost. These calls are outside the instructions of `ArmIr`; here is exactly
    when their arguments are still right, up to the branch to the callee. */
module ArmCalls {
  import opened ArmMachine
  import opened ArmIr
  import opened ArmCodegen
  import opened ArmSim
  import opened ArmLayout
  import opened Numbers

  // bytes: the size asked of the allocator. list: a list-returning library call, which clears the new word.
  datatype Call = Call(list: bool, bytes: Word, args: seq<Operand>)

  // A constructor passes the new object first; a list call passes the count cell last.
  function FirstArg(c: Call): nat {
    if c.list then 0 else 1
  }

  function StashArg(c: Call): nat {
    if c.list then |c.args| else 0
  }

  // The allocation.
  function AllocCode(c: Call): seq<MInstr> {
    [MovImm(X0, c.bytes), BlAlloc] + if c.list then [Str(XZR, X0)] else []
  }

  function Allocated(g: Gen, c: Call): Gen {
    EmitBody(g.(nextHidden := g.nextHidden - 1), AllocCode(c), [])
  }

  // The hidden temp that keeps the new block's address.
  function Stash(g: Gen): Ref {
    RTemp(g.nextHidden)
  }

  function LoadArgs(g: Gen, args: seq<Operand>, d: nat): Gen
    requires d + |args| <= 8
    decreases |args|
  {
    if args == [] then g else LoadArgs(LoadOperand(g, args[0], d), args[1..], d + 1)
  }

  function Stored(g: Gen, e: set<int>, c: Call): Gen {
    StoreResult(Allocated(g, c), e, Stash(g), X0)
  }

  // Everything up to the branch to the callee.
  function CallSetup(g: Gen, e: set<int>, c: Call): Gen
    requires |c.args| <= 7
  {
    LoadOperand(LoadArgs(Stored(g, e, c), c.args, FirstArg(c)), OpRef(Stash(g)), StashArg(c))
  }

  // ---- Before and after the call's code ----

  // At most seven arguments, all the program's own; a kept temp among them is the pending one.
  ghost predicate Callable(g: Gen, e: set<int>, c: Call) {
    && GenOk(g, e) && |c.args| <= 7
    && forall o :: o in c.args && o.OpRef? ==> UserRef(o.ref) && (Kept(e, o.ref) ==> o.ref.id == g.pendId)
  }

  ghost predicate Ready(g: Gen, e: set<int>, c: Call, s: State, m: Machine)
    requires |c.args| <= 7
  {
    m.pc == |g.code| && !m.trapped && Rel(CallSetup(g, e, c).slotOf, e, s, m) && Live(g, g.pendId, s.env, m)
  }

  // The registers from d on hold the operands' values.
  ghost predicate Held(m: Machine, d: nat, env: map<Ref, Word>, args: seq<Operand>)
    requires d + |args| <= 8
  {
    forall i :: 0 <= i < |args| ==> Get(m, d + i) == Val(env, args[i])
  }

  // The argument registers, with these values of variables and temps.
  ghost predicate Loaded(c: Call, env: map<Ref, Word>, m: Machine)
    requires |c.args| <= 7
  {
    Held(m, FirstArg(c), env, c.args)
  }

  // The argument registers and the new block's register, with these values of variables and temps.
  ghost predicate Passes(c: Call, img: Image, env: map<Ref, Word>, m: Machine)
    requires |c.args| <= 7
  {
    Loaded(c, env, m) && Get(m, StashArg(c)) == img.junk(X0)
  }

  // What the pending temp's register holds after the allocator: the size it was asked for.
  function Lost(g: Gen, c: Call, img: Image): Word {
    if g.pendReg == X9 then c.bytes else img.junk(TCACHE)
  }

  // The values that the arguments are loaded from.
  function Spoilt(g: Gen, c: Call, img: Image, env: map<Ref, Word>): map<Ref, Word> {
    if g.pendId >= 0 then env[RTemp(g.pendId) := Lost(g, c, img)] else env
  }

  // ---- The code's layout ----

  lemma {:induction false} LoadArgsGen(g: Gen, e: set<int>, args: seq<Operand>, d: nat)
    requires GenOk(g, e) && d + |args| <= 8
    ensures var h := LoadArgs(g, args, d); GenOk(h, e) && Grows(g, h)
    decreases |args|
  {
    if args != [] {
      LoadGen(g, e, args[0], d);
      LoadArgsGen(LoadOperand(g, args[0], d), e, args[1..], d + 1);
      GrowsTrans(g, LoadOperand(g, args[0], d), LoadArgs(g, args, d));
    }
  }

  lemma {:induction false} LoadArgsIdle(g: Gen, args: seq<Operand>, d: nat)
    requires g.pendId == -1 && d + |args| <= 8
    ensures LoadArgs(g, args, d).pendId == -1
    decreases |args|
  {
    if args != [] {
      LoadArgsIdle(LoadOperand(g, args[0], d), args[1..], d + 1);
    }
  }

  lemma AllocatedGen(g: Gen, e: set<int>, c: Call)
    requires GenOk(g, e)
    ensures var h := Allocated(g, c); GenOk(h, e) && Grows(g, h)
  {
  }

  // The parts of the setup, in order.
  lemma SetupParts(g: Gen, e: set<int>, c: Call) returns (g1: Gen, g2: Gen, g3: Gen, g4: Gen, h: Gen)
    requires GenOk(g, e) && |c.args| <= 7
    ensures g1 == Allocated(g, c) && g2 == EnsureSpilled(g1) && g3 == Spill(g2, Stash(g), X0) && g2.pendId < 0
    ensures g4 == LoadArgs(g3, c.args, FirstArg(c)) && h == LoadOperand(g4, OpRef(Stash(g)), StashArg(c))
    ensures g3 == Stored(g, e, c) && h == CallSetup(g, e, c)
    ensures GenOk(g1, e) && GenOk(g2, e) && GenOk(g3, e) && GenOk(h, e)
    ensures Grows(g1, h) && Grows(g2, h) && Grows(g3, h) && Grows(g4, h)
  {
    g1 := Allocated(g, c);
    g2 := EnsureSpilled(g1);
    g3 := Spill(g2, Stash(g), X0);
    g4 := LoadArgs(g3, c.args, FirstArg(c));
    h := LoadOperand(g4, OpRef(Stash(g)), StashArg(c));
    AllocatedGen(g, e, c);
    EnsureGen(g1, e);
    SpillGen(g2, e, Stash(g), X0);
    LoadArgsGen(g3, e, c.args, FirstArg(c));
    LoadGen(g4, e, OpRef(Stash(g)), StashArg(c));
    GrowsTrans(g3, g4, h);
    GrowsTrans(g2, g3, h);
    GrowsTrans(g1, g2, h);
  }

  lemma SetupGrows(g: Gen, e: set<int>, c: Call)
    requires GenOk(g, e) && |c.args| <= 7
    ensures |g.code| <= |CallSetup(g, e, c).code|
  {
    var g1, g2, g3, g4, h := SetupParts(g, e, c);
  }

  // The machine as it branches to the callee.
  ghost function After(g: Gen, e: set<int>, c: Call, img: Image, m: Machine): Machine
    requires GenOk(g, e) && |c.args| <= 7
  {
    SetupGrows(g, e, c);
    Run(img, m, |CallSetup(g, e, c).code| - |g.code|)
  }

  // ---- The run ----

  lemma AllocRun(img: Image, g: Gen, c: Call, m: Machine) returns (k: nat, m': Machine)
    requires Allocated(g, c).code <= img.code && m.pc == |g.code| && !m.trapped
    ensures m' == Run(img, m, k) && k == |AllocCode(c)| && m'.pc == |Allocated(g, c).code| && !m'.trapped &&
      m'.out == m.out
    ensures Get(m', X9) == c.bytes && Get(m', X0) == img.junk(X0) && Get(m', TCACHE) == img.junk(TCACHE)
    ensures m'.slots == m.slots[0 := img.junk(X10)][1 := img.junk(X11)]
  {
    var g1 := Emit(g, MovImm(X0, c.bytes));
    var g2 := Emit(g1, BlAlloc);
    var m1 := StepOk(img, g, MovImm(X0, c.bytes), m);
    m' := StepOk(img, g1, BlAlloc, m1);
    assert Get(m', X9) == c.bytes && Get(m', X0) == img.junk(X0) && Get(m', TCACHE) == img.junk(TCACHE);
    RunCompose(img, m, 1, 1);
    k := 2;
    if c.list {
      assert Emit(g2, Str(XZR, X0)).code == Allocated(g, c).code;
      var m2 := StepOk(img, g2, Str(XZR, X0), m');
      RunCompose(img, m, 2, 1);
      k, m' := 3, m2;
    }
  }

  // Without the pending temp, which its slot now speaks for.
  lemma ReadSlots(sl: map<Ref, nat>, e: set<int>, t: int, s: State, m: Machine, m': Machine)
    requires Rel(sl, e, s, m) && !m'.trapped && !m.trapped && m'.out == m.out
    requires forall r :: r in sl ==> sl[r] >= 2
    requires forall i: nat :: i >= 2 ==> Slot(m', i) == Slot(m, i)
    requires RTemp(t) in sl
    ensures Rel(sl, e - {t}, s.(env := s.env[RTemp(t) := Slot(m', sl[RTemp(t)])], heap := m'.heap), m')
  {
  }

  // The older pending temp goes to its slot: with a slot now, it is read like any other temp.
  lemma SpillPending(img: Image, sl: map<Ref, nat>, e: set<int>, g: Gen, s: State, m: Machine)
    returns (k: nat, m': Machine, s': State)
    requires Embeds(EnsureSpilled(g), img, sl) && Injective(sl) && NonNegative(e) && m.pc == |g.code| && !m.trapped
    requires
      if g.pendId < 0 then Rel(sl, e, s, m)
      else
        && RTemp(g.pendId) in sl
        && Rel(sl, e - {g.pendId}, s.(env := s.env[RTemp(g.pendId) := Slot(m, sl[RTemp(g.pendId)])]), m)
    ensures m' == Run(img, m, k) == m.(pc := |EnsureSpilled(g).code|, slots := m'.slots) &&
      k == |EnsureSpilled(g).code| - |g.code|
    ensures s' == if g.pendId < 0 then s else s.(env := s.env[RTemp(g.pendId) := Get(m, g.pendReg)])
    ensures Rel(sl, e - {g.pendId}, s', m')
  {
    k, m', s' := 0, m, s;
    if g.pendId < 0 {
      assert e - {g.pendId} == e;
    } else {
      var t := RTemp(g.pendId);
      var s0 := s.(env := s.env[t := Slot(m, sl[t])]);
      m' := SpillOk(img, sl, e - {g.pendId}, g.(pendId := -1), t, g.pendReg, s0, m);
      k := 1;
      s' := s.(env := s.env[t := Get(m, g.pendReg)]);
      assert s'.env == s0.env[t := Get(m, g.pendReg)];
    }
  }

  lemma FirstRun(img: Image, sl: map<Ref, nat>, e: set<int>, g: Gen, o: Operand, d: nat, s: State, m: Machine)
    returns (k: nat, m': Machine)
    requires d < 8 && GenOk(g, e) && g.pendId == -1 && Embeds(LoadOperand(g, o, d), img, sl)
    requires m.pc == |g.code| && Rel(sl, e, s, m) && !m.trapped && Readable(o, e, -1)
    ensures m' == Run(img, m, k) == m.(pc := |LoadOperand(g, o, d).code|, regs := m'.regs) && Rel(sl, e, s, m')
    ensures k == |LoadOperand(g, o, d).code| - |g.code| && LoadOperand(g, o, d).pendId == -1
    ensures Get(m', d) == Val(s.env, o) && forall q: nat :: q < 8 && q != d ==> Get(m', q) == Get(m, q)
  {
    var live;
    k, m', live := LoadOk(img, sl, e, g, o, d, s, m, -1);
  }

  // The registers before d are as they were.
  ghost predicate SameBelow(d: nat, m: Machine, m': Machine)
    requires d <= 8
  {
    forall q: nat :: q < d ==> Get(m', q) == Get(m, q)
  }

  lemma AllLoaded(args: seq<Operand>, d: nat, env: map<Ref, Word>, m: Machine, m1: Machine, m': Machine)
    requires args != [] && d + |args| <= 8 && Get(m1, d) == Val(env, args[0]) && SameBelow(d, m, m1)
    requires Held(m', d + 1, env, args[1..]) && SameBelow(d + 1, m1, m')
    ensures Held(m', d, env, args) && SameBelow(d, m, m')
  {
    forall i | 0 <= i < |args| ensures Get(m', d + i) == Val(env, args[i]) {
      if i > 0 {
        assert args[i] == args[1..][i - 1] && d + 1 + (i - 1) == d + i;
      }
    }
  }

  // No operand is a kept temp.
  ghost predicate InMemory(args: seq<Operand>, e: set<int>) {
    forall o :: o in args ==> Readable(o, e, -1)
  }

  lemma LoadFirst(img: Image, sl: map<Ref, nat>, e: set<int>, g: Gen, args: seq<Operand>, d: nat) returns (g1: Gen)
    requires args != [] && d + |args| <= 8 && GenOk(g, e) && g.pendId == -1 && Embeds(LoadArgs(g, args, d), img, sl)
    ensures g1 == LoadOperand(g, args[0], d) && LoadArgs(g, args, d) == LoadArgs(g1, args[1..], d + 1)
    ensures GenOk(g1, e) && g1.pendId == -1 && Embeds(g1, img, sl)
  {
    g1 := LoadOperand(g, args[0], d);
    LoadGen(g, e, args[0], d);
    LoadArgsGen(g1, e, args[1..], d + 1);
    EmbedsEarlier(g1, LoadArgs(g, args, d), img, sl);
  }

  lemma Joined(img: Image, m: Machine, j: nat, m1: Machine, k: nat, m2: Machine)
    requires m1 == Run(img, m, j) && m2 == Run(img, m1, k)
    ensures m2 == Run(img, m, j + k)
  {
    RunCompose(img, m, j, k);
  }

  // The runs of the image, as a relation that the proof by induction leaves uninterpreted.
  type Paths = (Machine, nat, Machine) -> bool

  ghost predicate PathsOf(path: Paths, img: Image) {
    forall a, k: nat, b {:trigger path(a, k, b), Run(img, a, k)} :: path(a, k, b) <==> b == Run(img, a, k)
  }

  lemma GetPaths(img: Image) returns (path: Paths)
    ensures PathsOf(path, img)
  {
    path := (a: Machine, k: nat, b: Machine) => b == Run(img, a, k);
  }

  lemma NoPath(path: Paths, img: Image, a: Machine)
    requires PathsOf(path, img)
    ensures path(a, 0, a)
  {
    assert Run(img, a, 0) == a;
  }

  lemma Joins(path: Paths, img: Image, a: Machine, j: nat, b: Machine, k: nat, c: Machine)
    requires PathsOf(path, img) && path(a, j, b) && path(b, k, c)
    ensures path(a, j + k, c)
  {
    assert b == Run(img, a, j) && c == Run(img, b, k);
    Joined(img, a, j, b, k, c);
    assert c == Run(img, a, j + k);
  }

  // Ready to load these arguments into the registers from d on.
  ghost predicate AtArgs(img: Image, sl: map<Ref, nat>, e: set<int>, g: Gen, args: seq<Operand>, d: nat, s: State,
                         m: Machine)
    requires d + |args| <= 8
  {
    && GenOk(g, e) && g.pendId == -1 && Embeds(LoadArgs(g, args, d), img, sl) && InMemory(args, e)
    && m.pc == |g.code| && !m.trapped && Rel(sl, e, s, m)
  }

  lemma LoadOne(img: Image, path: Paths, sl: map<Ref, nat>, e: set<int>, g: Gen, args: seq<Operand>, d: nat, s: State,
                m: Machine)
    returns (k: nat, m': Machine, g': Gen)
    requires args != [] && d + |args| <= 8 && AtArgs(img, sl, e, g, args, d, s, m) && PathsOf(path, img)
    ensures path(m, k, m') && k == |g'.code| - |g.code| && LoadArgs(g, args, d) == LoadArgs(g', args[1..], d + 1)
    ensures AtArgs(img, sl, e, g', args[1..], d + 1, s, m')
    ensures Get(m', d) == Val(s.env, args[0]) && SameBelow(d, m, m')
  {
    g' := LoadFirst(img, sl, e, g, args, d);
    k, m' := FirstRun(img, sl, e, g, args[0], d, s, m);
  }

  // All arguments, from memory: no temp is pending.
  lemma {:induction false} LoadArgsRun(img: Image, path: Paths, sl: map<Ref, nat>, e: set<int>, g: Gen,
                                       args: seq<Operand>, d: nat, s: State, m: Machine, h: Gen)
    returns (k: nat, m': Machine)
    requires d + |args| <= 8 && h == LoadArgs(g, args, d) && AtArgs(img, sl, e, g, args, d, s, m) && PathsOf(path, img)
    ensures path(m, k, m') && k == |h.code| - |g.code|
    ensures AtArgs(img, sl, e, h, [], d + |args|, s, m') && Held(m', d, s.env, args) && SameBelow(d, m, m')
    decreases |args|
  {
    if args == [] {
      k, m' := 0, m;
      NoPath(path, img, m);
    } else {
      var m1, g1, j;
      k, m1, g1 := LoadOne(img, path, sl, e, g, args, d, s, m);
      j, m' := LoadArgsRun(img, path, sl, e, g1, args[1..], d + 1, s, m1, h);
      AllLoaded(args, d, s.env, m, m1, m');
      Joins(path, img, m, k, m1, j, m');
      k := k + j;
    }
  }

  // After the allocator the pending temp's slot speaks for it.
  lemma AllocState(sl: map<Ref, nat>, e: set<int>, g1: Gen, g2: Gen, s: State, m: Machine, m1: Machine, j: Word,
                   j': Word)
    returns (s1: State)
    requires g2 == EnsureSpilled(g1) && SubMap(g2.slotOf, sl) && (forall r :: r in sl ==> sl[r] >= 2)
    requires !m.trapped && Rel(sl, e, s, m) && m1.out == m.out && !m1.trapped && m1.slots == m.slots[0 := j][1 := j']
    ensures s1.env == s.env
    ensures
      if g1.pendId < 0 then Rel(sl, e, s1, m1)
      else
        && RTemp(g1.pendId) in sl
        && Rel(sl, e - {g1.pendId}, s1.(env := s1.env[RTemp(g1.pendId) := Slot(m1, sl[RTemp(g1.pendId)])]), m1)
  {
    s1 := s.(heap := m1.heap);
    if g1.pendId >= 0 {
      var r := RTemp(g1.pendId);
      assert r in g2.slotOf;
      ReadSlots(sl, e, g1.pendId, s, m, m1);
      assert s1.(env := s1.env[r := Slot(m1, sl[r])]) == s.(env := s.env[r := Slot(m1, sl[r])], heap := m1.heap);
    }
  }

  // Allocation and the older pending temp.
  lemma FirstHalf(img: Image, sl: map<Ref, nat>, e: set<int>, g: Gen, c: Call, g1: Gen, g2: Gen, s: State, m: Machine)
    returns (k: nat, m': Machine, s': State)
    requires GenOk(g, e) && g1 == Allocated(g, c) && g2 == EnsureSpilled(g1) && Embeds(g1, img, sl) &&
      Embeds(g2, img, sl)
    requires Injective(sl) && (forall r :: r in sl ==> sl[r] >= 2)
    requires m.pc == |g.code| && !m.trapped && Rel(sl, e, s, m)
    ensures m' == Run(img, m, k) && k == |g2.code| - |g.code| && m'.pc == |g2.code| && !m'.trapped
    ensures Get(m', X0) == img.junk(X0) && s'.env == Spoilt(g, c, img, s.env) && Rel(sl, e - {g.pendId}, s', m')
  {
    var j, m1 := AllocRun(img, g, c, m);
    var s1 := AllocState(sl, e, g1, g2, s, m, m1, img.junk(X10), img.junk(X11));
    k, m', s' := SpillPending(img, sl, e, g1, s1, m1);
    RunCompose(img, m, j, k);
    k := j + k;
  }

  lemma LoadLast(img: Image, path: Paths, sl: map<Ref, nat>, e: set<int>, g: Gen, n: nat, stash: Ref, b: nat, s: State,
                 m: Machine, h: Gen)
    returns (k: nat, m': Machine)
    requires n <= 8 && AtArgs(img, sl, e, g, [], n, s, m) && PathsOf(path, img) && b < 8 && stash.id < -1 &&
      NonNegative(e)
    requires h == LoadOperand(g, OpRef(stash), b) && Embeds(h, img, sl)
    ensures path(m, k, m') && k == |h.code| - |g.code| && m'.pc == |h.code| && Get(m', b) == Lookup(s.env, stash)
    ensures forall q: nat :: q < 8 && q != b ==> Get(m', q) == Get(m, q)
  {
    k, m' := FirstRun(img, sl, e, g, OpRef(stash), b, s, m);
  }

  // All arguments, then the block's address into a register none of them uses.
  lemma LoadsRun(img: Image, path: Paths, sl: map<Ref, nat>, e: set<int>, args: seq<Operand>, d: nat, stash: Ref,
                 b: nat, g3: Gen, g4: Gen, h: Gen, s: State, m: Machine)
    returns (k: nat, m': Machine)
    requires d + |args| <= 8 && b < 8 && !(d <= b < d + |args|) && AtArgs(img, sl, e, g3, args, d, s, m) &&
      PathsOf(path, img)
    requires g4 == LoadArgs(g3, args, d) && h == LoadOperand(g4, OpRef(stash), b) && Embeds(h, img, sl)
    requires stash.id < -1 && NonNegative(e)
    ensures path(m, k, m') && k == |h.code| - |g3.code| && m'.pc == |h.code|
    ensures Held(m', d, s.env, args) && Get(m', b) == Lookup(s.env, stash)
  {
    var j, m4 := LoadArgsRun(img, path, sl, e, g3, args, d, s, m, g4);
    k, m' := LoadLast(img, path, sl, e, g4, d + |args|, stash, b, s, m4, h);
    Joins(path, img, m, j, m4, k, m');
    k := j + k;
    forall i | 0 <= i < |args| ensures Get(m', d + i) == Val(s.env, args[i]) {
      assert Get(m', d + i) == Get(m4, d + i);
    }
  }

  lemma StashRun(img: Image, sl: map<Ref, nat>, e: set<int>, stash: Ref, g2: Gen, g3: Gen, s: State, m: Machine)
    returns (m': Machine, s': State)
    requires g3 == Spill(g2, stash, X0) && Embeds(g3, img, sl) && Injective(sl)
    requires m.pc == |g2.code| && !m.trapped && Rel(sl, e, s, m)
    ensures m' == Run(img, m, 1) && m'.pc == |g3.code| == |g2.code| + 1 && !m'.trapped && Rel(sl, e, s', m')
    ensures s'.env == s.env[stash := Get(m, X0)]
  {
    m' := SpillOk(img, sl, e, g2, stash, X0, s, m);
    s' := s.(env := s.env[stash := Get(m, X0)]);
  }

  lemma FewerKept(g: Gen, e: set<int>, t: int)
    requires GenOk(g, e) && g.pendId < 0
    ensures GenOk(g, e - {t})
  {
  }

  // The stash is hidden, so no argument names it.
  lemma StashApart(c: Call, stash: Ref, env: map<Ref, Word>, w: Word)
    requires stash.id < 0 && forall o :: o in c.args && o.OpRef? ==> UserRef(o.ref)
    ensures forall m :: |c.args| <= 7 && Loaded(c, env[stash := w], m) ==> Loaded(c, env, m)
  {
    forall i | 0 <= i < |c.args| ensures Val(env[stash := w], c.args[i]) == Val(env, c.args[i]) {
      assert c.args[i] in c.args;
    }
  }

  lemma RestInMemory(g: Gen, e: set<int>, c: Call)
    requires Callable(g, e, c)
    ensures InMemory(c.args, e - {g.pendId})
  {
  }

  lemma FirstParts(g: Gen, e: set<int>, c: Call, img: Image, h: Gen) returns (g1: Gen, g2: Gen)
    requires GenOk(g, e) && |c.args| <= 7 && h == CallSetup(g, e, c) && h.code <= img.code
    ensures g1 == Allocated(g, c) && g2 == EnsureSpilled(g1)
    ensures Embeds(g1, img, h.slotOf) && Embeds(g2, img, h.slotOf) && Injective(h.slotOf)
    ensures forall r :: r in h.slotOf ==> h.slotOf[r] >= 2
  {
    var g3, g4, h0;
    g1, g2, g3, g4, h0 := SetupParts(g, e, c);
  }

  lemma StashParts(g: Gen, e: set<int>, c: Call, img: Image, h: Gen) returns (g2: Gen, g3: Gen)
    requires GenOk(g, e) && |c.args| <= 7 && h == CallSetup(g, e, c) && h.code <= img.code
    ensures g2 == EnsureSpilled(Allocated(g, c)) && g3 == Spill(g2, Stash(g), X0) && g3 == Stored(g, e, c)
    ensures Embeds(g3, img, h.slotOf) && Injective(h.slotOf)
  {
    var g1, g4, h0;
    g1, g2, g3, g4, h0 := SetupParts(g, e, c);
  }

  lemma SecondParts(g: Gen, e: set<int>, c: Call, img: Image, h: Gen) returns (g3: Gen, g4: Gen)
    requires GenOk(g, e) && |c.args| <= 7 && h == CallSetup(g, e, c) && h.code <= img.code
    ensures g3 == Stored(g, e, c) && g4 == LoadArgs(g3, c.args, FirstArg(c)) &&
      h == LoadOperand(g4, OpRef(Stash(g)), StashArg(c))
    ensures Embeds(g4, img, h.slotOf) && Embeds(h, img, h.slotOf) && g3.pendId == -1
    ensures GenOk(g3, e - {g.pendId}) && GenOk(g4, e - {g.pendId})
  {
    var g1, g2, h0;
    g1, g2, g3, g4, h0 := SetupParts(g, e, c);
    LoadArgsGen(g3, e, c.args, FirstArg(c));
    LoadArgsIdle(g3, c.args, FirstArg(c));
    FewerKept(g3, e, g.pendId);
    FewerKept(g4, e, g.pendId);
  }

  // Up to the store of the older pending temp.
  lemma FirstPart(g: Gen, e: set<int>, c: Call, img: Image, path: Paths, s: State, m: Machine, h: Gen)
    returns (k: nat, m': Machine, s': State)
    requires Callable(g, e, c) && h == CallSetup(g, e, c) && h.code <= img.code && PathsOf(path, img) &&
      Ready(g, e, c, s, m)
    ensures var g2 := EnsureSpilled(Allocated(g, c));
      path(m, k, m') && k == |g2.code| - |g.code| && m'.pc == |g2.code| && !m'.trapped
    ensures Get(m', X0) == img.junk(X0) && s'.env == Spoilt(g, c, img, s.env) && Rel(h.slotOf, e - {g.pendId}, s', m')
  {
    var g1, g2 := FirstParts(g, e, c, img, h);
    k, m', s' := FirstHalf(img, h.slotOf, e, g, c, g1, g2, s, m);
  }

  // The store of the block's address.
  lemma StashPart(g: Gen, e: set<int>, c: Call, img: Image, path: Paths, s: State, m: Machine, h: Gen, n: nat)
    returns (m': Machine, s': State)
    requires Callable(g, e, c) && h == CallSetup(g, e, c) && h.code <= img.code && PathsOf(path, img)
    requires n == |EnsureSpilled(Allocated(g, c)).code|
    requires m.pc == n && !m.trapped && Rel(h.slotOf, e - {g.pendId}, s, m)
    ensures path(m, 1, m') && m'.pc == |Stored(g, e, c).code| == n + 1 && !m'.trapped
    ensures s'.env == s.env[Stash(g) := Get(m, X0)] && Rel(h.slotOf, e - {g.pendId}, s', m')
  {
    var g2, g3 := StashParts(g, e, c, img, h);
    m', s' := StashRun(img, h.slotOf, e - {g.pendId}, Stash(g), g2, g3, s, m);
  }

  // The loads.
  lemma SecondPart(g: Gen, e: set<int>, c: Call, img: Image, path: Paths, s: State, m: Machine, h: Gen)
    returns (k: nat, m': Machine)
    requires Callable(g, e, c) && h == CallSetup(g, e, c) && h.code <= img.code && PathsOf(path, img)
    requires m.pc == |Stored(g, e, c).code| && !m.trapped && Rel(h.slotOf, e - {g.pendId}, s, m)
    ensures path(m, k, m') && k == |h.code| - |Stored(g, e, c).code| && m'.pc == |h.code|
    ensures Loaded(c, s.env, m') && Get(m', StashArg(c)) == Lookup(s.env, Stash(g))
  {
    var g3, g4 := SecondParts(g, e, c, img, h);
    RestInMemory(g, e, c);
    k, m' := LoadsRun(img, path, h.slotOf, e - {g.pendId}, c.args, FirstArg(c), Stash(g), StashArg(c), g3, g4, h, s, m);
  }

  // Up to the store of the block's address.
  lemma FrontRun(g: Gen, e: set<int>, c: Call, img: Image, path: Paths, s: State, m: Machine, h: Gen)
    returns (k: nat, m': Machine, s': State)
    requires Callable(g, e, c) && h == CallSetup(g, e, c) && h.code <= img.code && PathsOf(path, img) &&
      Ready(g, e, c, s, m)
    ensures path(m, k, m') && k == |Stored(g, e, c).code| - |g.code| && m'.pc == |Stored(g, e, c).code| && !m'.trapped
    ensures s'.env == Spoilt(g, c, img, s.env)[Stash(g) := img.junk(X0)] && Rel(h.slotOf, e - {g.pendId}, s', m')
  {
    var m2, s2;
    k, m2, s2 := FirstPart(g, e, c, img, path, s, m, h);
    m', s' := StashPart(g, e, c, img, path, s2, m2, h, |EnsureSpilled(Allocated(g, c)).code|);
    Joins(path, img, m, k, m2, 1, m');
    k := k + 1;
  }

  lemma WholeRun(g: Gen, e: set<int>, c: Call, img: Image, path: Paths, s: State, m: Machine, h: Gen)
    returns (k: nat, m': Machine, env: map<Ref, Word>)
    requires Callable(g, e, c) && h == CallSetup(g, e, c) && h.code <= img.code && PathsOf(path, img) &&
      Ready(g, e, c, s, m)
    ensures path(m, k, m') && k == |h.code| - |g.code| && m'.pc == |h.code|
    ensures env == Spoilt(g, c, img, s.env)[Stash(g) := img.junk(X0)]
    ensures Loaded(c, env, m') && Get(m', StashArg(c)) == Lookup(env, Stash(g))
  {
    var j, m2, s2 := FrontRun(g, e, c, img, path, s, m, h);
    k, m' := SecondPart(g, e, c, img, path, s2, m2, h);
    Joins(path, img, m, j, m2, k, m');
    k, env := j + k, s2.env;
  }

  /** Whatever the values are, the callee gets every argument as the program computed it, but for the pending temp: in
      its place it gets what the allocator left in the register, the size of the block. */
  lemma CallRun(g: Gen, e: set<int>, c: Call, img: Image, s: State, m: Machine)
    requires Callable(g, e, c) && CallSetup(g, e, c).code <= img.code && Ready(g, e, c, s, m)
    ensures Passes(c, img, Spoilt(g, c, img, s.env), After(g, e, c, img, m))
    ensures After(g, e, c, img, m).pc == |CallSetup(g, e, c).code|
  {
    var path := GetPaths(img);
    var k, m', env := WholeRun(g, e, c, img, path, s, m, CallSetup(g, e, c));
    assert m' == Run(img, m, k);
    StashApart(c, Stash(g), Spoilt(g, c, img, s.env), img.junk(X0));
  }

  // ---- When the arguments are right ----

  /** The rule by which the compiler keeps a temp in its register, for a call right after p: its last definition is the
      last instruction of p, and the call is its only use. */
  ghost predicate PickedFor(p: seq<Instr>, c: Call, t: int) {
    p != [] && LastDef(p, |p| - 1, t) && UseCount(p, t) == 0 && CountIn(c.args, t) == 1
  }

  // A call after the program p, with kept temps e: each one that the call reads was picked for it.
  ghost predicate CallAfter(p: seq<Instr>, e: set<int>, c: Call) {
    && NonNegative(e) && !Compiled(p, e).failed && |c.args| <= 7
    && (forall o :: o in c.args && o.OpRef? ==> UserRef(o.ref))
    && forall t :: t in e && OpRef(RTemp(t)) in c.args ==> PickedFor(p, c, t)
  }

  lemma PendingAfter(p: seq<Instr>, e: set<int>, t: int)
    requires p != [] && Defines(p[|p| - 1], t) && t in e && NonNegative(e) && !Compiled(p, e).failed
    ensures Compiled(p, e).pendId == t && Compiled(p, e).pendReg == X9
  {
  }

  lemma CallableAfter(p: seq<Instr>, e: set<int>, c: Call)
    requires CallAfter(p, e, c)
    ensures Callable(Compiled(p, e), e, c)
  {
    assert p[..|p|] == p;
    GenAlwaysOk(p, e, |p|);
    forall o | o in c.args && o.OpRef? && Kept(e, o.ref) ensures o.ref.id == Compiled(p, e).pendId {
      PendingAfter(p, e, o.ref.id);
    }
  }

  ghost predicate RightArguments(p: seq<Instr>, e: set<int>, c: Call, img: Image, s: State, m: Machine)
    requires CallAfter(p, e, c)
  {
    CallableAfter(p, e, c);
    Ready(Compiled(p, e), e, c, s, m) ==> Passes(c, img, s.env, After(Compiled(p, e), e, c, img, m))
  }

  lemma InMemoryRight(p: seq<Instr>, e: set<int>, c: Call, img: Image, s: State, m: Machine)
    requires CallAfter(p, e, c) && CallSetup(Compiled(p, e), e, c).code <= img.code
    requires forall t :: t in e ==> OpRef(RTemp(t)) !in c.args
    ensures RightArguments(p, e, c, img, s, m)
  {
    var g := Compiled(p, e);
    CallableAfter(p, e, c);
    if Ready(g, e, c, s, m) {
      CallRun(g, e, c, img, s, m);
      forall i | 0 <= i < |c.args| ensures Val(Spoilt(g, c, img, s.env), c.args[i]) == Val(s.env, c.args[i]) {
        assert c.args[i] in c.args;
      }
    }
  }

  /** A kept temp among the arguments never reaches the callee: the size of the new block does. */
  lemma BlockSizePassed(p: seq<Instr>, e: set<int>, c: Call, img: Image, s: State, m: Machine, i: nat)
    requires CallAfter(p, e, c) && CallSetup(Compiled(p, e), e, c).code <= img.code
    requires Callable(Compiled(p, e), e, c) && Ready(Compiled(p, e), e, c, s, m)
    requires i < |c.args| && c.args[i].OpRef? && Kept(e, c.args[i].ref)
    ensures Get(After(Compiled(p, e), e, c, img, m), FirstArg(c) + i) == c.bytes
  {
    var g, t := Compiled(p, e), c.args[i].ref.id;
    assert OpRef(RTemp(t)) in c.args;
    PendingAfter(p, e, t);
    CallRun(g, e, c, img, s, m);
    assert Get(After(g, e, c, img, m), FirstArg(c) + i) == Val(Spoilt(g, c, img, s.env), c.args[i]);
  }

  // A start in which every word is zero but the kept temp.
  lemma SomeStart(g: Gen, e: set<int>, c: Call, t: int, v: Word) returns (s: State, m: Machine)
    requires |c.args| <= 7 && t in e && g.pendId == t && g.pendReg == X9
    ensures Ready(g, e, c, s, m) && Lookup(s.env, RTemp(t)) == v
  {
    s := State(0, map[RTemp(t) := v], map[], [], false);
    m := Machine(|g.code|, seq(32, i requires 0 <= i < 32 => v), map[], map[], 0, 0, [], false);
  }

  lemma KeptWrong(p: seq<Instr>, e: set<int>, c: Call, img: Image, t: int) returns (s: State, m: Machine)
    requires CallAfter(p, e, c) && CallSetup(Compiled(p, e), e, c).code <= img.code && t in e &&
      OpRef(RTemp(t)) in c.args
    ensures !RightArguments(p, e, c, img, s, m)
  {
    var g := Compiled(p, e);
    CallableAfter(p, e, c);
    PendingAfter(p, e, t);
    s, m := SomeStart(g, e, c, t, if c.bytes == 0 then 1 else 0);
    var i: nat :| i < |c.args| && c.args[i] == OpRef(RTemp(t));
    BlockSizePassed(p, e, c, img, s, m, i);
  }

  /** Keeping temps in registers is right at such a call exactly when the call reads none of them. */
  lemma ArgumentsExact(p: seq<Instr>, e: set<int>, c: Call, img: Image)
    requires CallAfter(p, e, c) && CallSetup(Compiled(p, e), e, c).code <= img.code
    ensures (forall s, m :: RightArguments(p, e, c, img, s, m)) <==> (forall t :: t in e ==> OpRef(RTemp(t)) !in c.args)
  {
    if forall t :: t in e ==> OpRef(RTemp(t)) !in c.args {
      forall s, m ensures RightArguments(p, e, c, img, s, m) {
        InMemoryRight(p, e, c, img, s, m);
      }
    } else {
      var t :| t in e && OpRef(RTemp(t)) in c.args;
      var s, m := KeptWrong(p, e, c, img, t);
    }
  }

  /** `t = a + b`, then a one-field object made from t: the rule keeps t, and the constructor gets 8, whatever a and b
      are. */
  lemma SumLost(p: seq<Instr>, c: Call, img: Image, s: State, m: Machine)
    requires p == [Bin(BAlu(Add), RTemp(0), OpRef(RVar(0)), OpRef(RVar(1)))] && c == Call(false, 8, [OpRef(RTemp(0))])
    requires CallSetup(Compiled(p, {0}), {0}, c).code <= img.code && Ready(Compiled(p, {0}), {0}, c, s, m)
    ensures PickedFor(p, c, 0) && CallAfter(p, {0}, c) && Callable(Compiled(p, {0}), {0}, c)
    ensures Get(After(Compiled(p, {0}), {0}, c, img, m), 1) == 8
  {
    SumPicked(p, c);
    SumCompiles(p);
    CallableAfter(p, {0}, c);
    BlockSizePassed(p, {0}, c, img, s, m, 0);
  }

  lemma SumPicked(p: seq<Instr>, c: Call)
    requires p == [Bin(BAlu(Add), RTemp(0), OpRef(RVar(0)), OpRef(RVar(1)))] && c == Call(false, 8, [OpRef(RTemp(0))])
    ensures PickedFor(p, c, 0)
  {
    assert p[..0] == [] && UseCount([], 0) == 0;
    assert Uses(p[0])[1..] == [OpRef(RVar(1))] && CountIn(Uses(p[0]), 0) == 0;
    assert c.args[1..] == [] && CountIn(c.args, 0) == 1;
    assert LastDef(p, 0, 0);
  }

  lemma SumCompiles(p: seq<Instr>)
    requires p == [Bin(BAlu(Add), RTemp(0), OpRef(RVar(0)), OpRef(RVar(1)))]
    ensures !Compiled(p, {0}).failed
  {
    assert p[..0] == [] && Compiled([], {0}) == INITIAL;
  }
}
