/** Runs of flattened programs: the flat IR, and so the emitted code, computes what the tree computes. */
module StructuredRun {
  import opened ArmMachine
  import opened ArmIr
  import opened ArmBalance
  import opened ArmLayout
  import opened Numbers
  import opened Structured
  import ArmCorrect
  import ArmVariables
  import opened Options

  // ---- A state of the flat run against a state of the tree ----

  predicate Visible(v: Ref) {
    v.RVar? || v.id >= 0
  }

  // The same but for the hidden loop cells.
  ghost predicate Agrees(s: State, r: State) {
    && s.heap == r.heap && s.out == r.out && s.trapped == r.trapped
    && forall v :: Visible(v) ==> Lookup(s.env, v) == Lookup(r.env, v)
  }

  // The cells of the first n loops of the program text.
  ghost predicate CellsKept(n: nat, s: State, s': State) {
    forall m: nat :: m < n ==>
      Lookup(s'.env, LoopArr(m)) == Lookup(s.env, LoopArr(m)) && Lookup(s'.env, LoopIdx(m)) == Lookup(s.env, LoopIdx(m))
  }

  // After k steps from s the flat run is at position `to` with the tree's result; or it is still going, where the tree
  // is.
  ghost predicate Reaches(p: seq<Instr>, s: State, k: nat, to: nat, n: nat, fuel: int, o: Course) {
    var s' := IRun(p, s, k);
    && Agrees(s', o.state)
    && (o.Ended? ==> CellsKept(n, s, s') && (s'.trapped || s'.pc == to))
    && (o.Going? ==> k >= fuel && !Done(p, s'))
  }

  ghost predicate From(s: State, r: State, a: nat) {
    Agrees(s, r) && (s.trapped || s.pc == a)
  }

  lemma {:induction false} IRunCompose(p: seq<Instr>, s: State, j: nat, k: nat)
    ensures IRun(p, IRun(p, s, j), k) == IRun(p, s, j + k)
    decreases j
  {
    if j > 0 && !Done(p, s) {
      IRunCompose(p, IStep(p, s), j - 1, k);
    }
  }

  lemma OneStep(p: seq<Instr>, s: State)
    requires !Done(p, s)
    ensures IRun(p, s, 1) == IStep(p, s)
  {
    assert IRun(p, IStep(p, s), 0) == IStep(p, s);
  }

  // Earlier steps in front of a run that reaches its end.
  lemma Prepend(p: seq<Instr>, s: State, j: nat, k: nat, to: nat, n: nat, n1: nat, fuel: int, less: int, o: Course)
    requires n <= n1 && CellsKept(n, s, IRun(p, s, j)) && Reaches(p, IRun(p, s, j), k, to, n1, fuel, o) &&
      less <= fuel + j
    ensures Reaches(p, s, j + k, to, n, less, o)
  {
    IRunCompose(p, s, j, k);
  }

  lemma {:induction false} CountGrows(p: seq<Instr>, i: nat, j: nat)
    requires i <= j <= |p|
    ensures ForCount(p[..i]) <= ForCount(p[..j])
    decreases j
  {
    if i < j {
      assert p[..j][..j - 1] == p[..j - 1];
      CountGrows(p, i, j - 1);
    }
  }

  lemma ValAgrees(s: State, r: State, o: Operand)
    requires Agrees(s, r) && UserOperand(o)
    ensures Val(s.env, o) == Val(r.env, o)
  {
  }

  // ---- Straight instructions ----

  lemma DoStep(p: seq<Instr>, s: State, r: State, ins: Instr, n: nat)
    requires !Done(p, s) && p[s.pc] == ins && Straight(ins) && UserInstr(ins) && Agrees(s, r)
    ensures var s', r' := IStep(p, s), IStep([ins], r.(pc := 0));
      Agrees(s', r') && CellsKept(n, s, s') && (s'.trapped || s'.pc == s.pc + 1)
  {
    forall o | o in Uses(ins) ensures Val(s.env, o) == Val(r.env, o) {
      ValAgrees(s, r, o);
    }
    match ins
    case Un(_, _, a) => assert a in Uses(ins);
    case Bin(_, _, a, b) => assert a in Uses(ins) && b in Uses(ins);
    case StoreIndex(a, i, v) => assert a in Uses(ins) && i in Uses(ins) && v in Uses(ins);
    case Print(a) => assert a in Uses(ins);
    case Marker =>
  }

  ghost predicate Ready(l: Layout, a: nat, t: Stmt, s: State, r: State) {
    Faithful(l) && Here(l, a, t) && From(s, r, a) && a <= |l.p|
  }

  ghost predicate Does(l: Layout, a: nat, t: Stmt, s: State, r: State, fuel: nat, k: nat)
    requires a <= |l.p|
  {
    Reaches(l.p, s, k, a + l.size(t), ForCount(l.p[..a]), fuel, Eval(t, r, fuel))
  }

  lemma DoRun(l: Layout, a: nat, t: Stmt, s: State, r: State, fuel: nat)
    requires t.Do? && Ready(l, a, t, s, r) && !r.trapped
    ensures Does(l, a, t, s, r, fuel, 1)
  {
    assert Split(l, a, t);
    DoStep(l.p, s, r, t.ins, ForCount(l.p[..a]));
    OneStep(l.p, s);
  }

  // ---- The steps of IF ----

  lemma GotoIs(p: seq<Instr>, s: State, q: Point, to: nat)
    requires Target(p, q, |p|) == Some(to)
    ensures Goto(p, s, q) == s.(pc := to)
  {
  }

  lemma IfStep(p: seq<Instr>, s: State, r: State, a: nat, c: Operand, to: nat)
    requires From(s, r, a) && !r.trapped && a < |p| && p[a] == IfBegin(c) && UserOperand(c) &&
      Target(p, PElse(a), |p|) == Some(to)
    ensures IRun(p, s, 1) == s.(pc := if Val(r.env, c) == 0 then to else a + 1)
  {
    ValAgrees(s, r, c);
    OneStep(p, s);
  }

  lemma ElseStep(p: seq<Instr>, s: State, f: nat, a: nat, to: nat)
    requires !s.trapped && s.pc == f && f < |p| && p[f] == IfElse && TopIf(p, f, a) &&
      Target(p, PEndIf(a), |p|) == Some(to)
    ensures IRun(p, s, 1) == s.(pc := to)
  {
    OneStep(p, s);
    GotoIs(p, s, PEndIf(a), to);
  }

  lemma EndStep(p: seq<Instr>, s: State, e: nat)
    requires !s.trapped && s.pc == e && e < |p| && p[e] == IfEnd
    ensures IRun(p, s, 1) == s.(pc := e + 1)
  {
    OneStep(p, s);
  }

  // After a branch, the jump or fall-through from its end to the end of the IF.
  lemma Leave(p: seq<Instr>, s: State, k: nat, e: nat, to: nat, n: nat, fuel: nat, o: Course) returns (k': nat)
    requires Reaches(p, s, k, e, n, fuel, o)
    requires Hops(p, e, to)
    ensures Reaches(p, s, k', to, n, fuel, o)
  {
    k' := k;
    if o.Ended? && !IRun(p, s, k).trapped {
      IRunCompose(p, s, k, 1);
      k' := k + 1;
    }
  }

  // ---- The steps of FOR ----

  // The machine is about to test for turn k of the n-th loop over `list`.
  ghost predicate AtTest(s: State, r: State, n: nat, list: Word, k: Word) {
    Agrees(s, r) && !s.trapped && Lookup(s.env, LoopArr(n)) == list && Lookup(s.env, LoopIdx(n)) == k
  }

  function Enter(s: State, x: int, list: Word, k: Word, b: nat): State {
    s.(pc := b + 1, env := s.env[RVar(x) := Element(s.heap, list, k)])
  }

  // The state after the test: past the loop's end, or at the first instruction of the turn.
  function Tested(s: State, x: int, list: Word, k: Word, b: nat, to: nat): State {
    if k >= HeapAt(s.heap, list) then s.(pc := to) else Enter(s, x, list, k, b)
  }

  lemma TestStep(p: seq<Instr>, s: State, b: nat, n: nat, list: Word, k: Word, to: nat)
    requires b < |p| && p[b].ForBegin? && n == ForCount(p[..b]) && Goto(p, s, PEndFor(b)) == s.(pc := to)
    requires Lookup(s.env, LoopArr(n)) == list && Lookup(s.env, LoopIdx(n)) == k
    ensures ForTest(p, s, b) == Tested(s, p[b].x, list, k, b, to)
  {
  }

  lemma TestIs(p: seq<Instr>, s: State, r: State, b: nat, x: int, l: Operand, n: nat, list: Word, k: Word, to: nat)
    requires b < |p| && p[b] == ForBegin(x, l) && n == ForCount(p[..b]) && AtTest(s, r, n, list, k)
    requires Target(p, PEndFor(b), |p|) == Some(to)
    ensures ForTest(p, s, b) == Tested(s, x, list, k, b, to)
  {
    GotoIs(p, s, PEndFor(b), to);
    TestStep(p, s, b, n, list, k, to);
  }

  lemma EnterAgrees(s: State, r: State, x: int, list: Word, k: Word, b: nat, n: nat)
    requires AtTest(s, r, n, list, k)
    ensures var s1 := Enter(s, x, list, k, b);
      Agrees(s1, r.(env := r.env[RVar(x) := Element(r.heap, list, k)])) && CellsKept(n + 1, s, s1) && s1.pc == b + 1 &&
        !s1.trapped
  {
  }

  function Advance(s: State, n: nat): State {
    s.(env := s.env[LoopIdx(n) := Wrap(Lookup(s.env, LoopIdx(n)) + 1)])
  }

  lemma AdvanceTest(s: State, q: State, n: nat, list: Word, k: Word)
    requires AtTest(s, q, n, list, k)
    ensures AtTest(Advance(s, n), q, n, list, Wrap(k + 1)) && CellsKept(n, s, Advance(s, n))
  {
  }

  lemma ForEndStep(p: seq<Instr>, s: State, b: nat, n: nat)
    requires !Done(p, s) && p[s.pc] == ForEnd && TopFor(p, s.pc, b) && b < |p| && p[b].ForBegin? &&
      n == ForCount(p[..b])
    ensures IStep(p, s) == ForTest(p, Advance(s, n), b)
  {
  }

  lemma ForEndIs(p: seq<Instr>, s: State, e: nat, b: nat, n: nat)
    requires !s.trapped && s.pc == e && e < |p| && p[e] == ForEnd && TopFor(p, e, b) && b < |p| && p[b].ForBegin? &&
      n == ForCount(p[..b])
    ensures IRun(p, s, 1) == ForTest(p, Advance(s, n), b)
  {
    OneStep(p, s);
    ForEndStep(p, s, b, n);
  }

  function Begin(s: State, n: nat, list: Word): State {
    s.(env := s.env[LoopArr(n) := list][LoopIdx(n) := 0])
  }

  lemma ForBeginIs(p: seq<Instr>, s: State, r: State, b: nat, x: int, l: Operand, n: nat)
    requires From(s, r, b) && !s.trapped && b < |p| && p[b] == ForBegin(x, l) && UserOperand(l) && n == ForCount(p[..b])
    ensures IRun(p, s, 1) == ForTest(p, Begin(s, n, Val(r.env, l)), b)
    ensures AtTest(Begin(s, n, Val(r.env, l)), r, n, Val(r.env, l), 0) && CellsKept(n, s, Begin(s, n, Val(r.env, l)))
  {
    ValAgrees(s, r, l);
    OneStep(p, s);
  }

  lemma CountAfter(p: seq<Instr>, b: nat)
    requires b < |p| && p[b].ForBegin?
    ensures ForCount(p[..b + 1]) == ForCount(p[..b]) + 1
  {
    assert p[..b + 1][..b] == p[..b];
  }

  // Everything about one loop of the program text that its runs need.
  ghost predicate Loop(l: Layout, b: nat, e: nat, x: int, list: Operand, body: Stmt, n: nat) {
    && Ends(l.p, b, e, x, list, n) && e == b + 1 + l.size(body) && ForCount(l.p[..b + 1]) == n + 1
    && Faithful(l) && Here(l, b + 1, body)
  }

  // The n-th loop of the program text begins at b and ends at e.
  ghost predicate Ends(p: seq<Instr>, b: nat, e: nat, x: int, list: Operand, n: nat) {
    && b < e < |p| && p[b] == ForBegin(x, list) && p[e] == ForEnd && n == ForCount(p[..b])
    && TopFor(p, e, b) && Target(p, PEndFor(b), |p|) == Some(e + 1)
  }

  lemma EachLoop(l: Layout, a: nat, t: Stmt)
    requires t.Each? && Faithful(l) && Here(l, a, t) && a <= |l.p|
    ensures Split(l, a, t) && Loop(l, a, a + 1 + l.size(t.body), t.x, t.list, t.body, ForCount(l.p[..a]))
  {
    EachBrackets(l, a, t);
    EachMark(l, a, t);
    CountAfter(l.p, a);
  }

  // From the test of turn k to the end of the loop; the first step of the run is already taken.
  lemma {:induction false} TurnsRun(l: Layout, b: nat, e: nat, x: int, li: Operand, body: Stmt, n: nat, s: State,
                                    r: State, list: Word, i: Word, fuel: nat, o: Course)
    returns (k: nat)
    requires Loop(l, b, e, x, li, body, n) && AtTest(s, r, n, list, i) && o == Turns(x, list, i, body, r, fuel)
    ensures Reaches(l.p, Tested(s, x, list, i, b, e + 1), k, e + 1, n, fuel - 1, o)
    ensures CellsKept(n, s, Tested(s, x, list, i, b, e + 1))
    decreases fuel, body, 1
  {
    k := 0;
    if i < HeapAt(r.heap, list) {
      EnterAgrees(s, r, x, list, i, b, n);
      if fuel > 0 {
        var r1 := r.(env := r.env[RVar(x) := Element(r.heap, list, i)]);
        TurnsIs(x, list, i, body, r, fuel);
        k := TurnRun(l, b, e, x, li, body, n, Enter(s, x, list, i, b), r1, list, i, fuel - 1, Eval(body, r1, fuel - 1),
          o);
      }
    }
  }

  // One turn, from the body's first instruction with the loop variable set, and all later turns, with outcome all.
  lemma {:induction false} TurnRun(l: Layout, b: nat, e: nat, x: int, li: Operand, body: Stmt, n: nat, s: State,
                                   r: State, list: Word, i: Word, fuel: nat, o: Course, all: Course)
    returns (k: nat)
    requires Loop(l, b, e, x, li, body, n) && Agrees(s, r) && s.pc == b + 1
    requires Lookup(s.env, LoopArr(n)) == list && Lookup(s.env, LoopIdx(n)) == i && o == Eval(body, r, fuel)
    requires all == if o.Going? || o.state.trapped then o else Turns(x, list, Wrap(i + 1), body, o.state, fuel)
    ensures Reaches(l.p, s, k, e + 1, n, fuel, all)
    decreases fuel, body, 4
  {
    k := BodyRun(l, b, e, x, li, body, n, s, r, fuel, o);
    k := AfterBody(l, b, e, x, li, body, n, s, k, list, i, fuel, o, all);
  }

  // The body has run with outcome o; the loop's outcome is all.
  lemma {:induction false} AfterBody(l: Layout, b: nat, e: nat, x: int, li: Operand, body: Stmt, n: nat, s: State,
                                     j: nat, list: Word, i: Word, fuel: nat, o: Course, all: Course)
    returns (k: nat)
    requires Loop(l, b, e, x, li, body, n) && Lookup(s.env, LoopArr(n)) == list && Lookup(s.env, LoopIdx(n)) == i
    requires Reaches(l.p, s, j, e, n + 1, fuel, o)
    requires all == if o.Going? || o.state.trapped then o else Turns(x, list, Wrap(i + 1), body, o.state, fuel)
    ensures Reaches(l.p, s, k, e + 1, n, fuel, all)
    decreases fuel, body, 3
  {
    if o.Going? || o.state.trapped {
      TurnStops(l.p, s, j, e, n, fuel, o);
      k := j;
    } else {
      var s' := TurnEnds(l.p, b, e, x, li, n, s, j, fuel, list, i, o.state);
      k := NextTurn(l, b, e, x, li, body, n, s, j + 1, s', o.state, list, Wrap(i + 1), fuel, all);
    }
  }

  lemma {:induction false} BodyRun(l: Layout, b: nat, e: nat, x: int, li: Operand, body: Stmt, n: nat, s: State,
                                   r: State, fuel: nat, o: Course)
    returns (k: nat)
    requires Loop(l, b, e, x, li, body, n) && Agrees(s, r) && s.pc == b + 1 && o == Eval(body, r, fuel)
    ensures Reaches(l.p, s, k, e, n + 1, fuel, o)
    decreases fuel, body, 2
  {
    k := Exec(l, b + 1, body, s, r, fuel);
  }

  // A turn that is cut short or faults ends the loop.
  lemma TurnStops(p: seq<Instr>, s: State, k: nat, e: nat, n: nat, fuel: int, o: Course)
    requires Reaches(p, s, k, e, n + 1, fuel, o) && (o.Going? || o.state.trapped)
    ensures Reaches(p, s, k, e + 1, n, fuel, o)
  {
  }

  lemma TurnsIs(x: int, list: Word, i: Word, body: Stmt, r: State, fuel: nat)
    requires fuel > 0 && !r.trapped && i < HeapAt(r.heap, list)
    ensures var o := Eval(body, r.(env := r.env[RVar(x) := Element(r.heap, list, i)]), fuel - 1);
      Turns(x, list, i, body, r, fuel) == if o.Going? || o.state.trapped then o
        else Turns(x, list, Wrap(i + 1), body, o.state, fuel - 1)
  {
  }

  lemma AtTestAgain(p: seq<Instr>, s: State, k: nat, e: nat, n: nat, fuel: int, list: Word, i: Word, q: State)
    requires Reaches(p, s, k, e, n + 1, fuel, Ended(q)) && !q.trapped
    requires Lookup(s.env, LoopArr(n)) == list && Lookup(s.env, LoopIdx(n)) == i
    ensures AtTest(IRun(p, s, k), q, n, list, i) && CellsKept(n, s, IRun(p, s, k)) && IRun(p, s, k).pc == e
  {
  }

  lemma KeptTrans(n: nat, s: State, s1: State, s2: State)
    requires CellsKept(n, s, s1) && CellsKept(n, s1, s2)
    ensures CellsKept(n, s, s2)
  {
  }

  // The end of a turn: the index goes up by one and the test comes again.
  lemma NextTest(p: seq<Instr>, b: nat, e: nat, x: int, li: Operand, n: nat, s: State, j: nat, s2: State, q: State,
                 list: Word, i: Word) returns (s': State)
    requires Ends(p, b, e, x, li, n) && s2 == IRun(p, s, j) && AtTest(s2, q, n, list, i)
    requires CellsKept(n, s, s2) && s2.pc == e
    ensures AtTest(s', q, n, list, Wrap(i + 1)) && CellsKept(n, s, s')
    ensures IRun(p, s, j + 1) == Tested(s', x, list, Wrap(i + 1), b, e + 1)
  {
    s' := Advance(s2, n);
    ForEndIs(p, s2, e, b, n);
    AdvanceTest(s2, q, n, list, i);
    TestIs(p, s', q, b, x, li, n, list, Wrap(i + 1), e + 1);
    IRunCompose(p, s, j, 1);
    KeptTrans(n, s, s2, s');
  }

  lemma TurnEnds(p: seq<Instr>, b: nat, e: nat, x: int, li: Operand, n: nat, s: State, k: nat, fuel: int, list: Word,
                 i: Word, q: State)
    returns (s': State)
    requires Ends(p, b, e, x, li, n) && Reaches(p, s, k, e, n + 1, fuel, Ended(q)) && !q.trapped
    requires Lookup(s.env, LoopArr(n)) == list && Lookup(s.env, LoopIdx(n)) == i
    ensures AtTest(s', q, n, list, Wrap(i + 1)) && CellsKept(n, s, s')
    ensures IRun(p, s, k + 1) == Tested(s', x, list, Wrap(i + 1), b, e + 1)
  {
    AtTestAgain(p, s, k, e, n, fuel, list, i, q);
    s' := NextTest(p, b, e, x, li, n, s, k, IRun(p, s, k), q, list, i);
  }

  // All later turns, with outcome o, from where the machine tests for the next one.
  lemma {:induction false} NextTurn(l: Layout, b: nat, e: nat, x: int, li: Operand, body: Stmt, n: nat, s: State,
                                    j: nat, s': State, q: State, list: Word, i: Word, fuel: nat, o: Course)
    returns (k: nat)
    requires Loop(l, b, e, x, li, body, n) && AtTest(s', q, n, list, i) && CellsKept(n, s, s')
    requires j > 0 && IRun(l.p, s, j) == Tested(s', x, list, i, b, e + 1) && o == Turns(x, list, i, body, q, fuel)
    ensures Reaches(l.p, s, k, e + 1, n, fuel, o)
    decreases fuel, body, 2
  {
    k := TurnsRun(l, b, e, x, li, body, n, s', q, list, i, fuel, o);
    k := Later(l.p, s, j, s', Tested(s', x, list, i, b, e + 1), k, e + 1, n, fuel, o);
  }

  lemma Later(p: seq<Instr>, s: State, j: nat, s1: State, s2: State, k: nat, to: nat, n: nat, fuel: int, o: Course)
    returns (k': nat)
    requires IRun(p, s, j) == s2 && CellsKept(n, s, s1) && CellsKept(n, s1, s2) &&
      Reaches(p, s2, k, to, n, fuel - 1, o) && j > 0
    ensures Reaches(p, s, k', to, n, fuel, o)
  {
    KeptTrans(n, s, s1, s2);
    Prepend(p, s, j, k, to, n, n, fuel - 1, fuel, o);
    k' := j + k;
  }

  // ---- Every tree ----

  lemma {:induction false} ThenRun(l: Layout, a: nat, t: Stmt, s: State, r: State, fuel: nat) returns (k: nat)
    requires t.Then? && Ready(l, a, t, s, r) && !r.trapped
    ensures Does(l, a, t, s, r, fuel, k)
    decreases fuel, t, 0
  {
    assert Split(l, a, t);
    PassOver(l, a, t.first);
    k := Exec(l, a, t.first, s, r, fuel);
    ThenIs(t, r, fuel);
    var o := Eval(t.first, r, fuel);
    if o.Ended? {
      k := SecondRun(l, a, a + l.size(t.first), t.second, s, k, o.state, fuel);
    }
  }

  // The second part, from where the first one ended.
  lemma {:induction false} SecondRun(l: Layout, a: nat, b: nat, t: Stmt, s: State, j: nat, q: State, fuel: nat)
    returns (k: nat)
    requires a <= b <= |l.p| && Faithful(l) && Here(l, b, t) &&
      Reaches(l.p, s, j, b, ForCount(l.p[..a]), fuel, Ended(q))
    ensures Reaches(l.p, s, k, b + l.size(t), ForCount(l.p[..a]), fuel, Eval(t, q, fuel))
    decreases fuel, t, 2
  {
    k := Exec(l, b, t, IRun(l.p, s, j), q, fuel);
    CountGrows(l.p, a, b);
    Prepend(l.p, s, j, k, b + l.size(t), ForCount(l.p[..a]), ForCount(l.p[..b]), fuel, fuel, Eval(t, q, fuel));
    k := j + k;
  }

  lemma ThenIs(t: Stmt, r: State, fuel: nat)
    requires t.Then? && !r.trapped
    ensures var o := Eval(t.first, r, fuel);
      Eval(t, r, fuel) == if o.Going? then o else Eval(t.second, o.state, fuel)
  {
  }

  lemma ChooseIs(t: Stmt, r: State, fuel: nat)
    requires t.Choose? && !r.trapped
    ensures Eval(t, r, fuel) == if Val(r.env, t.c) == 0 then Eval(t.no, r, fuel) else Eval(t.yes, r, fuel)
  {
  }

  lemma WhenIs(t: Stmt, r: State, fuel: nat)
    requires t.When? && !r.trapped
    ensures Eval(t, r, fuel) == if Val(r.env, t.c) == 0 then Ended(r) else Eval(t.yes, r, fuel)
  {
  }

  // In one step every run at i goes to `to`.
  ghost predicate Hops(p: seq<Instr>, i: nat, to: nat) {
    forall x: State :: !x.trapped && x.pc == i ==> IRun(p, x, 1) == x.(pc := to)
  }

  lemma {:induction false} WhenRun(l: Layout, a: nat, t: Stmt, s: State, r: State, fuel: nat) returns (k: nat)
    requires t.When? && Ready(l, a, t, s, r) && !r.trapped
    ensures Does(l, a, t, s, r, fuel, k)
    decreases fuel, t, 0
  {
    var e := WhenFacts(l, a, t);
    IfStep(l.p, s, r, a, t.c, e + 1);
    WhenIs(t, r, fuel);
    k := 1;
    if Val(r.env, t.c) != 0 {
      k := BranchRun(l, a, a + 1, t.yes, s, r, fuel, e + 1);
    }
  }

  lemma WhenFacts(l: Layout, a: nat, t: Stmt) returns (e: nat)
    requires t.When? && Faithful(l) && Here(l, a, t)
    ensures Here(l, a + 1, t.yes) && a < |l.p| && l.p[a] == IfBegin(t.c) && UserOperand(t.c)
    ensures e == a + 1 + l.size(t.yes) && e + 1 == a + l.size(t) <= |l.p|
    ensures Target(l.p, PElse(a), |l.p|) == Some(e + 1) && Hops(l.p, e, e + 1)
  {
    e := a + 1 + l.size(t.yes);
    WhenBrackets(l, a, t);
    WhenMark(l, a, t);
    MarkTarget(l, PElse(a), e, e + 1);
    EndHops(l.p, e);
  }

  lemma EndHops(p: seq<Instr>, e: nat)
    requires e < |p| && p[e] == IfEnd
    ensures Hops(p, e, e + 1)
  {
    forall x: State | !x.trapped && x.pc == e ensures IRun(p, x, 1) == x.(pc := e + 1) {
      EndStep(p, x, e);
    }
  }

  lemma ElseHops(p: seq<Instr>, f: nat, a: nat, to: nat)
    requires f < |p| && p[f] == IfElse && TopIf(p, f, a) && Target(p, PEndIf(a), |p|) == Some(to)
    ensures Hops(p, f, to)
  {
    forall x: State | !x.trapped && x.pc == f ensures IRun(p, x, 1) == x.(pc := to) {
      ElseStep(p, x, f, a, to);
    }
  }

  // One branch of an IF: the branch's code, then the step out of the IF.
  lemma {:induction false} BranchRun(l: Layout, a: nat, b: nat, t: Stmt, s: State, r: State, fuel: nat, to: nat)
    returns (k: nat)
    requires a <= b <= |l.p| && Faithful(l) && Here(l, b, t) && From(s, r, a) && !s.trapped &&
      IRun(l.p, s, 1) == s.(pc := b)
    requires Hops(l.p, b + l.size(t), to)
    ensures Reaches(l.p, s, k, to, ForCount(l.p[..a]), fuel, Eval(t, r, fuel))
    decreases fuel, t, 2
  {
    var s1 := s.(pc := b);
    k := Exec(l, b, t, s1, r, fuel);
    k := Leave(l.p, s1, k, b + l.size(t), to, ForCount(l.p[..b]), fuel, Eval(t, r, fuel));
    CountGrows(l.p, a, b);
    Prepend(l.p, s, 1, k, to, ForCount(l.p[..a]), ForCount(l.p[..b]), fuel, fuel, Eval(t, r, fuel));
    k := 1 + k;
  }

  lemma {:induction false} ChooseRun(l: Layout, a: nat, t: Stmt, s: State, r: State, fuel: nat) returns (k: nat)
    requires t.Choose? && Ready(l, a, t, s, r) && !r.trapped
    ensures Does(l, a, t, s, r, fuel, k)
    decreases fuel, t, 0
  {
    var f, e := ChooseFacts(l, a, t);
    IfStep(l.p, s, r, a, t.c, f + 1);
    ChooseIs(t, r, fuel);
    if Val(r.env, t.c) != 0 {
      k := BranchRun(l, a, a + 1, t.yes, s, r, fuel, e + 1);
    } else {
      k := BranchRun(l, a, f + 1, t.no, s, r, fuel, e + 1);
    }
  }

  lemma ChooseFacts(l: Layout, a: nat, t: Stmt) returns (f: nat, e: nat)
    requires t.Choose? && Faithful(l) && Here(l, a, t)
    ensures Here(l, a + 1, t.yes) && Here(l, f + 1, t.no) && a < |l.p| && l.p[a] == IfBegin(t.c) && UserOperand(t.c)
    ensures f == a + 1 + l.size(t.yes) && e == f + 1 + l.size(t.no) && e + 1 == a + l.size(t) <= |l.p|
    ensures Target(l.p, PElse(a), |l.p|) == Some(f + 1) && Hops(l.p, f, e + 1) && Hops(l.p, e, e + 1)
  {
    f := a + 1 + l.size(t.yes);
    e := f + 1 + l.size(t.no);
    ChooseBrackets(l, a, t);
    ElseMark(l, a, t);
    EndMark(l, a, t);
    MarkTarget(l, PElse(a), f, f + 1);
    BranchHops(l, a, f, e);
  }

  lemma MarkTarget(l: Layout, q: Point, i: nat, to: nat)
    requires Faithful(l) && LastMark(l, q, i) && to == i + 1
    ensures Target(l.p, q, |l.p|) == Some(to)
  {
  }

  // Both branches leave the IF in one step.
  lemma BranchHops(l: Layout, a: nat, f: nat, e: nat)
    requires Faithful(l) && f < e < |l.p| && l.p[f] == IfElse && l.p[e] == IfEnd && TopIfOf(l.ifs(f), a) &&
      LastMark(l, PEndIf(a), e)
    ensures Hops(l.p, f, e + 1) && Hops(l.p, e, e + 1)
  {
    MarkTarget(l, PEndIf(a), e, e + 1);
    ElseHops(l.p, f, a, e + 1);
    EndHops(l.p, e);
  }

  lemma {:induction false} EachRun(l: Layout, a: nat, t: Stmt, s: State, r: State, fuel: nat) returns (k: nat)
    requires t.Each? && Ready(l, a, t, s, r) && !r.trapped
    ensures Does(l, a, t, s, r, fuel, k)
    decreases fuel, t, 0
  {
    EachLoop(l, a, t);
    var e, n, list := a + 1 + l.size(t.body), ForCount(l.p[..a]), Val(r.env, t.list);
    var s' := Begin(s, n, list);
    ForBeginIs(l.p, s, r, a, t.x, t.list, n);
    EachIs(t, r, fuel);
    TestIs(l.p, s', r, a, t.x, t.list, n, list, 0, e + 1);
    var j := TurnsRun(l, a, e, t.x, t.list, t.body, n, s', r, list, 0, fuel, Turns(t.x, list, 0, t.body, r, fuel));
    k := Later(l.p, s, 1, s', Tested(s', t.x, list, 0, a, e + 1), j, e + 1, n, fuel,
      Turns(t.x, list, 0, t.body, r, fuel));
  }

  lemma EachIs(t: Stmt, r: State, fuel: nat)
    requires t.Each? && !r.trapped
    ensures Eval(t, r, fuel) == Turns(t.x, Val(r.env, t.list), 0, t.body, r, fuel)
  {
  }

  // Running the flattened tree: it reaches the tree's result, or runs at least as long as the fuel.
  lemma {:induction false} Exec(l: Layout, a: nat, t: Stmt, s: State, r: State, fuel: nat) returns (k: nat)
    requires Ready(l, a, t, s, r)
    ensures Does(l, a, t, s, r, fuel, k)
    decreases fuel, t, 1
  {
    if r.trapped {
      k := 0;
    } else {
      match t {
        case Skip =>
          assert Split(l, a, t);
          k := 0;
        case Do(_) =>
          DoRun(l, a, t, s, r, fuel);
          k := 1;
        case Then(_, _) => k := ThenRun(l, a, t, s, r, fuel);
        case When(_, _) => k := WhenRun(l, a, t, s, r, fuel);
        case Choose(_, _, _) => k := ChooseRun(l, a, t, s, r, fuel);
        case Each(_, _, _) => k := EachRun(l, a, t, s, r, fuel);
      }
    }
  }

  // ---- Whole programs ----

  ghost predicate Finishes(t: Stmt, s: State) {
    exists fuel: nat :: Eval(t, s, fuel).Ended?
  }

  lemma WholeRun(t: Stmt, s: State, fuel: nat) returns (k: nat)
    requires Formed(t) && s.pc == 0
    ensures Reaches(Flatten(t), s, k, |Flatten(t)|, 0, fuel, Eval(t, s, fuel))
  {
    var p := Flatten(t);
    var l := LayoutOf(p);
    HereAll(p, l, t);
    assert p[..0] == [];
    k := Exec(l, 0, t, s, s, fuel);
  }

  lemma {:induction false} DoneStays(p: seq<Instr>, s: State, j: nat, k: nat)
    requires j <= k && Done(p, IRun(p, s, j))
    ensures IRun(p, s, k) == IRun(p, s, j)
  {
    IRunCompose(p, s, j, k - j);
  }

  lemma FinishedAgree(t: Stmt, s: State, fuel: nat, n: nat)
    requires Formed(t) && s.pc == 0 && Eval(t, s, fuel).Ended? && Done(Flatten(t), IRun(Flatten(t), s, n))
    ensures Agrees(IRun(Flatten(t), s, n), Eval(t, s, fuel).state)
  {
    var p := Flatten(t);
    var k := WholeRun(t, s, fuel);
    if k <= n {
      DoneStays(p, s, k, n);
    } else {
      DoneStays(p, s, n, k);
    }
  }

  lemma TreeStops(t: Stmt, s: State, n: nat)
    requires Formed(t) && s.pc == 0 && Done(Flatten(t), IRun(Flatten(t), s, n))
    ensures Eval(t, s, n).Ended?
  {
    var k := WholeRun(t, s, n);
    if Eval(t, s, n).Going? {
      DoneStays(Flatten(t), s, n, k);
    }
  }

  // Some flat state agrees with the point that the tree has reached with this fuel.
  ghost predicate Reached(t: Stmt, s: State, fuel: nat) {
    exists n: nat :: Agrees(IRun(Flatten(t), s, n), Eval(t, s, fuel).state)
  }

  // What the flat program has printed after n steps, the tree prints too.
  ghost predicate Printed(t: Stmt, s: State, n: nat) {
    exists fuel: nat :: IRun(Flatten(t), s, n).out <= Eval(t, s, fuel).state.out
  }

  lemma StepOut(p: seq<Instr>, s: State)
    requires !Done(p, s)
    ensures s.out <= IStep(p, s).out
  {
  }

  lemma {:induction false} FlatOutGrows(p: seq<Instr>, s: State, k: nat)
    ensures s.out <= IRun(p, s, k).out
    decreases k
  {
    if k == 0 || Done(p, s) {
    } else {
      StepOut(p, s);
      FlatOutGrows(p, IStep(p, s), k - 1);
    }
  }

  lemma FlatOutLater(p: seq<Instr>, s: State, j: nat, k: nat)
    requires j <= k || Done(p, IRun(p, s, k))
    ensures IRun(p, s, j).out <= IRun(p, s, k).out
  {
    if j <= k {
      IRunCompose(p, s, j, k - j);
      FlatOutGrows(p, IRun(p, s, j), k - j);
    } else {
      DoneStays(p, s, k, j);
    }
  }

  lemma TreePrints(t: Stmt, s: State, n: nat)
    requires Formed(t) && s.pc == 0
    ensures Printed(t, s, n)
  {
    var k := WholeRun(t, s, n);
    FlatOutLater(Flatten(t), s, n, k);
  }

  lemma FlatReaches(t: Stmt, s: State, fuel: nat)
    requires Formed(t) && s.pc == 0
    ensures Reached(t, s, fuel)
  {
    var k := WholeRun(t, s, fuel);
  }

  /** For every nesting of IFs and FORs and every start, over every run, finished or not: the flat program passes
      through every point that the tree reaches, with the same printed text, heap, fault, variables and temps; it prints
      nothing that the tree does not; it stops exactly when the tree does, and then where the tree does. */
  lemma FlatComputesTree(t: Stmt, s: State)
    requires Formed(t) && s.pc == 0
    ensures forall fuel: nat :: Reached(t, s, fuel)
    ensures forall n: nat :: Printed(t, s, n)
    ensures ArmCorrect.Terminates(Flatten(t), s) <==> Finishes(t, s)
    ensures forall fuel: nat, n: nat :: Eval(t, s, fuel).Ended? && Done(Flatten(t), IRun(Flatten(t), s, n)) ==>
      Agrees(IRun(Flatten(t), s, n), Eval(t, s, fuel).state)
  {
    var p := Flatten(t);
    forall fuel: nat ensures Reached(t, s, fuel) {
      FlatReaches(t, s, fuel);
    }
    forall n: nat ensures Printed(t, s, n) {
      TreePrints(t, s, n);
    }
    SameEnding(t, s);
    forall fuel: nat, n: nat | Eval(t, s, fuel).Ended? && Done(p, IRun(p, s, n))
      ensures Agrees(IRun(p, s, n), Eval(t, s, fuel).state)
    {
      FinishedAgree(t, s, fuel, n);
    }
  }

  lemma SameEnding(t: Stmt, s: State)
    requires Formed(t) && s.pc == 0
    ensures ArmCorrect.Terminates(Flatten(t), s) <==> Finishes(t, s)
  {
    var p := Flatten(t);
    if ArmCorrect.Terminates(p, s) {
      var n: nat :| Done(p, IRun(p, s, n));
      TreeStops(t, s, n);
    }
    if Finishes(t, s) {
      var fuel: nat :| Eval(t, s, fuel).Ended?;
      var k := WholeRun(t, s, fuel);
      assert Done(p, IRun(p, s, k));
    }
  }

  lemma UserJoin(a: seq<Instr>, b: seq<Instr>)
    requires UserCode(a) && UserCode(b)
    ensures UserCode(a + b)
  {
  }

  lemma {:induction false} FlatUserCode(t: Stmt)
    requires Formed(t)
    ensures UserCode(Flatten(t))
  {
    match t
    case Skip =>
    case Do(_) =>
    case Then(a, b) =>
      FlatUserCode(a);
      FlatUserCode(b);
      UserJoin(Flatten(a), Flatten(b));
    case When(c, yes) =>
      FlatUserCode(yes);
      UserJoin([IfBegin(c)], Flatten(yes));
      UserJoin([IfBegin(c)] + Flatten(yes), [IfEnd]);
    case Choose(c, yes, no) =>
      FlatUserCode(yes);
      FlatUserCode(no);
      UserJoin([IfBegin(c)], Flatten(yes));
      UserJoin([IfBegin(c)] + Flatten(yes), [IfElse]);
      UserJoin([IfBegin(c)] + Flatten(yes) + [IfElse], Flatten(no));
      UserJoin([IfBegin(c)] + Flatten(yes) + [IfElse] + Flatten(no), [IfEnd]);
    case Each(x, list, body) =>
      FlatUserCode(body);
      UserJoin([ForBegin(x, list)], Flatten(body));
      UserJoin([ForBegin(x, list)] + Flatten(body), [ForEnd]);
  }

  // ---- Trees compile ----

  lemma {:induction false} FlatPlain(t: Stmt)
    requires Formed(t)
    ensures forall ins :: ins in Flatten(t) ==> !ins.Jump? && !ins.JumpIfFalse? && !ins.JumpIfTrue?
  {
    match t
    case Skip =>
    case Do(_) =>
    case Then(a, b) =>
      FlatPlain(a);
      FlatPlain(b);
    case When(_, yes) => FlatPlain(yes);
    case Choose(_, yes, no) =>
      FlatPlain(yes);
      FlatPlain(no);
    case Each(_, _, body) => FlatPlain(body);
  }

  lemma NothingOpen(p: seq<Instr>, l: Layout, t: Stmt)
    requires l == LayoutOf(p) && Sound(l) && Here(l, 0, t) && l.size(t) == |p|
    ensures IfsOpen(p) == Some([]) && ForsOpen(p) == Some([])
  {
    assert p[..0] == [] && p[..|p|] == p;
    PassOver(l, 0, t);
  }

  lemma HereAll(p: seq<Instr>, l: Layout, t: Stmt)
    requires Formed(t) && p == Flatten(t) && l == LayoutOf(p)
    ensures Faithful(l) && Here(l, 0, t) && l.size(t) == |p|
  {
    assert p[..0] == [] && p[0..|p|] == p;
    LayoutFaithful(p, l);
  }

  /** Every tree flattens to a balanced program, so it compiles. */
  lemma EveryTreeBalanced(t: Stmt)
    requires Formed(t)
    ensures Balanced(Flatten(t))
  {
    var p := Flatten(t);
    var l := LayoutOf(p);
    HereAll(p, l, t);
    NothingOpen(p, l, t);
    FlatPlain(t);
  }

  // ---- The machine against the tree ----

  // Some machine state shows the point that the tree has reached with this fuel.
  ghost predicate MachineReaches(t: Stmt, e: set<int>, img: Image, s: State, m: Machine, fuel: nat) {
    exists k: nat :: ArmCorrect.SameResult(Flatten(t), e, Eval(t, s, fuel).state, Run(img, m, k))
  }

  // What the machine has printed after k steps, the tree prints too.
  ghost predicate TreePrintsToo(t: Stmt, img: Image, s: State, m: Machine, k: nat) {
    exists fuel: nat :: Run(img, m, k).out <= Eval(t, s, fuel).state.out
  }

  lemma ShowsTree(p: seq<Instr>, e: set<int>, s: State, q: State, m: Machine)
    requires Agrees(s, q) && ArmCorrect.SameResult(p, e, s, m)
    ensures ArmCorrect.SameResult(p, e, q, m)
  {
    forall v | ArmVariables.Mentions(p, v) ensures Lookup(s.env, RVar(v)) == Lookup(q.env, RVar(v)) {
      assert Visible(RVar(v));
    }
  }

  lemma MachineFollows(t: Stmt, e: set<int>, img: Image, s: State, m: Machine, fuel: nat)
    requires ArmCorrect.Refines(Flatten(t), e, img, s, m) && Reached(t, s, fuel)
    ensures MachineReaches(t, e, img, s, m, fuel)
  {
    var p := Flatten(t);
    var n: nat :| Agrees(IRun(p, s, n), Eval(t, s, fuel).state);
    assert ArmCorrect.FollowsFor(p, e, img, s, m, n);
    var times :| |times| == n + 1 && ArmCorrect.Follows(p, e, img, s, m, times);
    assert ArmCorrect.Stands(p, e, IRun(p, s, n), Run(img, m, times[n]));
    ShowsTree(p, e, IRun(p, s, n), Eval(t, s, fuel).state, Run(img, m, times[n]));
  }

  lemma MachinePrints(t: Stmt, e: set<int>, img: Image, s: State, m: Machine, k: nat)
    requires ArmCorrect.Refines(Flatten(t), e, img, s, m) && forall n: nat :: Printed(t, s, n)
    ensures TreePrintsToo(t, img, s, m, k)
  {
    assert ArmCorrect.PrintedBy(Flatten(t), img, s, m, k);
    var n: nat :| Run(img, m, k).out <= IRun(Flatten(t), s, n).out;
    assert Printed(t, s, n);
    var fuel: nat :| IRun(Flatten(t), s, n).out <= Eval(t, s, fuel).state.out;
  }

  lemma MachineEnds(t: Stmt, e: set<int>, img: Image, s: State, m: Machine, fuel: nat, k: nat)
    requires Formed(t) && s.pc == 0 && ArmCorrect.Refines(Flatten(t), e, img, s, m)
    requires Eval(t, s, fuel).Ended? && Stopped(img, Run(img, m, k))
    ensures ArmCorrect.SameResult(Flatten(t), e, Eval(t, s, fuel).state, Run(img, m, k))
  {
    var p := Flatten(t);
    SameEnding(t, s);
    assert ArmCorrect.Terminates(p, s);
    var n: nat :| Done(p, IRun(p, s, n));
    FinishedAgree(t, s, fuel, n);
    ShowsTree(p, e, IRun(p, s, n), Eval(t, s, fuel).state, Run(img, m, k));
  }

  /** The emitted code of every tree, with any elidable temps kept in registers, over every run, finished or not: the
      machine passes through every point that the tree reaches, prints nothing else, halts exactly when the tree ends,
      and then shows its result. Nothing is asked of the labels or of the brackets: a tree's are always right. */
  lemma MachineComputesTree(t: Stmt, e: set<int>, junk: Reg -> Word, s: State, m: Machine)
    requires Formed(t) && (forall x :: x in e ==> Elidable(Flatten(t), x)) && ArmCorrect.Initial(Flatten(t), e, s, m)
    ensures forall fuel: nat :: MachineReaches(t, e, ArmCorrect.Program(Flatten(t), e, junk), s, m, fuel)
    ensures forall k: nat :: TreePrintsToo(t, ArmCorrect.Program(Flatten(t), e, junk), s, m, k)
    ensures ArmCorrect.Halts(ArmCorrect.Program(Flatten(t), e, junk), m) <==> Finishes(t, s)
    ensures var img := ArmCorrect.Program(Flatten(t), e, junk);
      forall fuel: nat, k: nat :: Eval(t, s, fuel).Ended? && Stopped(img, Run(img, m, k)) ==>
        ArmCorrect.SameResult(Flatten(t), e, Eval(t, s, fuel).state, Run(img, m, k))
  {
    var p := Flatten(t);
    var img := ArmCorrect.Program(p, e, junk);
    FlatUserCode(t);
    EveryTreeBalanced(t);
    ArmCorrect.KeptNonNegative(p, e);
    ArmCorrect.ElidableIsEligible(p, e);
    ArmCorrect.EmittedCodeRefinesIr(p, e, junk, s, m);
    FlatComputesTree(t, s);
    forall fuel: nat ensures MachineReaches(t, e, img, s, m, fuel) {
      MachineFollows(t, e, img, s, m, fuel);
    }
    forall k: nat ensures TreePrintsToo(t, img, s, m, k) {
      MachinePrints(t, e, img, s, m, k);
    }
    forall fuel: nat, k: nat | Eval(t, s, fuel).Ended? && Stopped(img, Run(img, m, k))
      ensures ArmCorrect.SameResult(p, e, Eval(t, s, fuel).state, Run(img, m, k))
    {
      MachineEnds(t, e, img, s, m, fuel, k);
    }
  }
}
