/** Structured programs: nested IFs and list-mode FORs as trees, flattened into the markers of the flat IR.
    The flat program, with its branches found from the open brackets, computes what the tree computes. */
module Structured {
  import opened ArmMachine
  import opened ArmIr
  import opened ArmLayout
  import opened Numbers
  import opened Options

  datatype Stmt =
    | Skip
    | Do(ins: Instr)
    | Then(first: Stmt, second: Stmt)
    | When(c: Operand, yes: Stmt)
    | Choose(c: Operand, yes: Stmt, no: Stmt)
    | Each(x: int, list: Operand, body: Stmt)

  predicate Straight(ins: Instr) {
    ins.Un? || ins.Bin? || ins.StoreIndex? || ins.Print? || ins.Marker?
  }

  predicate UserOperand(o: Operand) {
    o.OpRef? ==> UserRef(o.ref)
  }

  predicate Formed(t: Stmt) {
    match t
    case Skip => true
    case Do(ins) => Straight(ins) && UserInstr(ins)
    case Then(a, b) => Formed(a) && Formed(b)
    case When(c, yes) => UserOperand(c) && Formed(yes)
    case Choose(c, yes, no) => UserOperand(c) && Formed(yes) && Formed(no)
    case Each(_, list, body) => UserOperand(list) && Formed(body)
  }

  function Flatten(t: Stmt): seq<Instr> {
    match t
    case Skip => []
    case Do(ins) => [ins]
    case Then(a, b) => Flatten(a) + Flatten(b)
    case When(c, yes) => [IfBegin(c)] + Flatten(yes) + [IfEnd]
    case Choose(c, yes, no) => [IfBegin(c)] + Flatten(yes) + [IfElse] + Flatten(no) + [IfEnd]
    case Each(x, list, body) => [ForBegin(x, list)] + Flatten(body) + [ForEnd]
  }

  // ---- Meaning of a tree: no markers, no jumps, no hidden cells ----

  // A run of at most so many nested and repeated turns: its end, or how far it got.
  datatype Course = Ended(state: State) | Going(state: State)

  function Element(heap: map<int, Word>, list: Word, k: Word): Word {
    HeapAt(heap, Wrap(list + Wrap(Wrap(k + 1) * 8)))
  }

  function Eval(t: Stmt, s: State, fuel: nat): Course
    decreases fuel, t
  {
    if s.trapped then Ended(s) else
    match t
    case Skip => Ended(s)
    case Do(ins) => Ended(IStep([ins], s.(pc := 0)))
    case Then(a, b) =>
      (match Eval(a, s, fuel)
       case Going(q) => Going(q)
       case Ended(r) => Eval(b, r, fuel))
    case When(c, yes) => if Val(s.env, c) == 0 then Ended(s) else Eval(yes, s, fuel)
    case Choose(c, yes, no) => if Val(s.env, c) == 0 then Eval(no, s, fuel) else Eval(yes, s, fuel)
    case Each(x, list, body) => Turns(x, Val(s.env, list), 0, body, s, fuel)
  }

  // The turns of a loop from index k on. The length is the one the list has when the turn starts.
  function Turns(x: int, list: Word, k: Word, body: Stmt, s: State, fuel: nat): Course
    decreases fuel, body, 1
  {
    if s.trapped || k >= HeapAt(s.heap, list) then Ended(s)
    else
      var s1 := s.(env := s.env[RVar(x) := Element(s.heap, list, k)]);
      if fuel == 0 then Going(s1)
      else
        match Eval(body, s1, fuel - 1)
        case Going(q) => Going(q)
        case Ended(r) => Turns(x, list, Wrap(k + 1), body, r, fuel - 1)
  }

  // ---- Slices of flattened code ----

  predicate Lies(p: seq<Instr>, a: nat, c: seq<Instr>) {
    a + |c| <= |p| && p[a..a + |c|] == c
  }

  lemma LiesThen(p: seq<Instr>, a: nat, x: seq<Instr>, y: seq<Instr>)
    requires Lies(p, a, x + y)
    ensures Lies(p, a, x) && Lies(p, a + |x|, y)
  {
    assert p[a..a + |x|] == (x + y)[..|x|];
    assert p[a + |x|..a + |x| + |y|] == (x + y)[|x|..];
  }

  lemma LiesAround(p: seq<Instr>, a: nat, i: Instr, y: seq<Instr>, j: Instr)
    requires Lies(p, a, [i] + y + [j])
    ensures p[a] == i && Lies(p, a + 1, y) && p[a + 1 + |y|] == j
  {
    LiesThen(p, a, [i] + y, [j]);
    LiesThen(p, a, [i], y);
    assert p[a..a + 1][0] == i && p[a + 1 + |y|..a + 2 + |y|][0] == j;
  }

  lemma LiesChoose(p: seq<Instr>, a: nat, i: Instr, y: seq<Instr>, k: Instr, n: seq<Instr>, j: Instr)
    requires Lies(p, a, [i] + y + [k] + n + [j])
    ensures p[a] == i && Lies(p, a + 1, y) && p[a + 1 + |y|] == k && Lies(p, a + 2 + |y|, n) &&
      p[a + 2 + |y| + |n|] == j
  {
    LiesThen(p, a, [i] + y + [k] + n, [j]);
    LiesThen(p, a, [i] + y + [k], n);
    LiesAround(p, a, i, y, k);
    assert p[a + 2 + |y| + |n|..a + 3 + |y| + |n|][0] == j;
  }

  // ---- Open brackets around flattened code ----

  // The IFs and the FORs open at each position, as functions of the position.
  type Ifs = nat -> Option<seq<Open>>

  type Fors = nat -> Option<seq<nat>>

  /** A program with the facts its runs need: the brackets open at each position, where trees lie, and their sizes.
      The functions stay uninterpreted in the proofs; `LayoutOf` gives the real ones. */
  datatype Layout = Layout(p: seq<Instr>, ifs: Ifs, fors: Fors, lies: (nat, Stmt) -> bool, size: Stmt -> nat)

  ghost predicate OpenStep(ins: Instr, i: nat, f: Option<seq<Open>>, f': Option<seq<Open>>, g: Option<seq<nat>>,
                           g': Option<seq<nat>>) {
    && (f.Some? ==> f' == NextIfs(f.value, i, ins)) && (f.None? ==> f'.None?)
    && (g.Some? ==> g' == NextFors(g.value, i, ins)) && (g.None? ==> g'.None?)
  }

  // One level of a tree that lies at a.
  ghost predicate Split(l: Layout, a: nat, t: Stmt) {
    && a + l.size(t) <= |l.p|
    && match t
       case Skip => l.size(t) == 0
       case Do(ins) => l.size(t) == 1 && l.p[a] == ins && Straight(ins) && UserInstr(ins)
       case Then(x, y) => l.size(t) == l.size(x) + l.size(y) && l.lies(a, x) && l.lies(a + l.size(x), y)
       case When(c, yes) =>
         && l.size(t) == l.size(yes) + 2 && UserOperand(c)
         && l.p[a] == IfBegin(c) && l.lies(a + 1, yes) && l.p[a + 1 + l.size(yes)] == IfEnd
       case Choose(c, yes, no) =>
         && l.size(t) == l.size(yes) + l.size(no) + 3 && UserOperand(c)
         && l.p[a] == IfBegin(c) && l.lies(a + 1, yes) && l.p[a + 1 + l.size(yes)] == IfElse
         && l.lies(a + 2 + l.size(yes), no) && l.p[a + 2 + l.size(yes) + l.size(no)] == IfEnd
       case Each(x, list, body) =>
         && l.size(t) == l.size(body) + 2 && UserOperand(list)
         && l.p[a] == ForBegin(x, list) && l.lies(a + 1, body) && l.p[a + 1 + l.size(body)] == ForEnd
  }

  ghost predicate OpenAt(l: Layout, i: nat)
    requires i < |l.p|
  {
    OpenStep(l.p[i], i, l.ifs(i), l.ifs(i + 1), l.fors(i), l.fors(i + 1))
  }

  ghost predicate Sound(l: Layout) {
    && (forall i: nat {:trigger OpenAt(l, i)} :: i < |l.p| ==> OpenAt(l, i))
    && (forall a: nat, t {:trigger Split(l, a, t)} :: l.lies(a, t) ==> Split(l, a, t))
  }

  ghost predicate Tracked(l: Layout, a: nat) {
    l.ifs(a).Some? && l.fors(a).Some?
  }

  // The code of t lies at a, and all brackets before it match.
  ghost predicate Here(l: Layout, a: nat, t: Stmt) {
    Sound(l) && l.lies(a, t) && Tracked(l, a)
  }

  lemma IfOpens(l: Layout, a: nat)
    requires Sound(l) && a < |l.p| && l.p[a].IfBegin? && Tracked(l, a)
    ensures l.ifs(a + 1) == Some(l.ifs(a).value + [Open(a, false)]) && l.fors(a + 1) == l.fors(a)
  {
    assert OpenAt(l, a);
  }

  lemma ElseSwitches(l: Layout, i: nat, s: seq<Open>, o: Open)
    requires Sound(l) && i < |l.p| && l.p[i].IfElse? && l.ifs(i) == Some(s + [o]) && l.fors(i).Some?
    ensures l.ifs(i + 1) == Some(s + [Open(o.begin, true)]) && l.fors(i + 1) == l.fors(i)
  {
    assert OpenAt(l, i);
    assert (s + [o])[..|s|] == s;
  }

  lemma IfCloses(l: Layout, e: nat, s: seq<Open>, o: Open)
    requires Sound(l) && e < |l.p| && l.p[e].IfEnd? && l.ifs(e) == Some(s + [o]) && l.fors(e).Some?
    ensures l.ifs(e + 1) == Some(s) && l.fors(e + 1) == l.fors(e)
  {
    assert OpenAt(l, e);
    assert (s + [o])[..|s|] == s;
  }

  lemma ForOpens(l: Layout, a: nat)
    requires Sound(l) && a < |l.p| && l.p[a].ForBegin? && Tracked(l, a)
    ensures l.fors(a + 1) == Some(l.fors(a).value + [a]) && l.ifs(a + 1) == l.ifs(a)
  {
    assert OpenAt(l, a);
  }

  lemma ForCloses(l: Layout, e: nat, s: seq<nat>, b: nat)
    requires Sound(l) && e < |l.p| && l.p[e].ForEnd? && l.fors(e) == Some(s + [b]) && l.ifs(e).Some?
    ensures l.fors(e + 1) == Some(s) && l.ifs(e + 1) == l.ifs(e)
  {
    assert OpenAt(l, e);
    assert (s + [b])[..|s|] == s;
  }

  lemma StraightKeeps(l: Layout, a: nat)
    requires Sound(l) && a < |l.p| && Straight(l.p[a]) && Tracked(l, a)
    ensures l.ifs(a + 1) == l.ifs(a) && l.fors(a + 1) == l.fors(a)
  {
    assert OpenAt(l, a);
  }

  ghost predicate SameOpen(l: Layout, a: nat, b: nat) {
    l.ifs(b) == l.ifs(a) && l.fors(b) == l.fors(a)
  }

  /** After the code of a tree the same brackets are open as before it. */
  lemma {:induction false} PassOver(l: Layout, a: nat, t: Stmt)
    requires Here(l, a, t)
    ensures SameOpen(l, a, a + l.size(t))
    decreases t, 1
  {
    assert Split(l, a, t);
    match t
    case Skip =>
    case Do(_) => StraightKeeps(l, a);
    case Then(x, y) =>
      PassOver(l, a, x);
      PassOver(l, a + l.size(x), y);
    case When(_, _) => WhenBrackets(l, a, t);
    case Choose(_, _, _) => ChooseBrackets(l, a, t);
    case Each(_, _, _) => EachBrackets(l, a, t);
  }

  lemma {:induction false} WhenBrackets(l: Layout, a: nat, t: Stmt)
    requires Here(l, a, t) && t.When?
    ensures Split(l, a, t) && Here(l, a + 1, t.yes) &&
      l.ifs(a + 1 + l.size(t.yes)) == Some(l.ifs(a).value + [Open(a, false)])
    ensures SameOpen(l, a, a + l.size(t))
    decreases t, 0
  {
    assert Split(l, a, t);
    IfOpens(l, a);
    PassOver(l, a + 1, t.yes);
    IfCloses(l, a + 1 + l.size(t.yes), l.ifs(a).value, Open(a, false));
  }

  lemma {:induction false} ChooseBrackets(l: Layout, a: nat, t: Stmt)
    requires Here(l, a, t) && t.Choose?
    ensures Split(l, a, t) && Here(l, a + 1, t.yes) && Here(l, a + 2 + l.size(t.yes), t.no)
    ensures l.ifs(a + 1 + l.size(t.yes)) == Some(l.ifs(a).value + [Open(a, false)])
    ensures l.ifs(a + 2 + l.size(t.yes) + l.size(t.no)) == Some(l.ifs(a).value + [Open(a, true)])
    ensures SameOpen(l, a, a + l.size(t))
    decreases t, 0
  {
    assert Split(l, a, t);
    var i, e, s := a + 1 + l.size(t.yes), a + 2 + l.size(t.yes) + l.size(t.no), l.ifs(a).value;
    IfOpens(l, a);
    PassOver(l, a + 1, t.yes);
    ElseSwitches(l, i, s, Open(a, false));
    PassOver(l, i + 1, t.no);
    IfCloses(l, e, s, Open(a, true));
  }

  lemma {:induction false} EachBrackets(l: Layout, a: nat, t: Stmt)
    requires Here(l, a, t) && t.Each?
    ensures Split(l, a, t) && Here(l, a + 1, t.body) && l.fors(a + 1 + l.size(t.body)) == Some(l.fors(a).value + [a])
    ensures SameOpen(l, a, a + l.size(t))
    decreases t, 0
  {
    assert Split(l, a, t);
    ForOpens(l, a);
    PassOver(l, a + 1, t.body);
    ForCloses(l, a + 1 + l.size(t.body), l.fors(a).value, a);
  }

  // The innermost open IF begins at a or later.
  ghost predicate TopFrom(s: Option<seq<Open>>, a: nat) {
    s.Some? && s.value != [] && s.value[|s.value| - 1].begin >= a
  }

  // An ELSE or END inside the code of a tree belongs to an IF of that tree.
  lemma {:induction false} Inside(l: Layout, a: nat, t: Stmt, j: nat)
    requires Here(l, a, t) && a <= j < a + l.size(t) <= |l.p| && (l.p[j].IfElse? || l.p[j].IfEnd?)
    ensures TopFrom(l.ifs(j), a)
    decreases t
  {
    assert Split(l, a, t);
    match t
    case Do(_) =>
    case Then(x, y) =>
      PassOver(l, a, x);
      if j < a + l.size(x) { Inside(l, a, x, j); } else { Inside(l, a + l.size(x), y, j); }
    case When(_, yes) =>
      WhenBrackets(l, a, t);
      if j < a + 1 + l.size(yes) { Inside(l, a + 1, yes, j); }
    case Choose(_, yes, no) =>
      ChooseBrackets(l, a, t);
      var i := a + 1 + l.size(yes);
      if j < i { Inside(l, a + 1, yes, j); } else if i < j < i + 1 + l.size(no) { Inside(l, i + 1, no, j); }
    case Each(_, _, body) =>
      EachBrackets(l, a, t);
      Inside(l, a + 1, body, j);
  }

  // ---- Where the branches of a flattened tree lead ----

  ghost predicate Below(l: Layout, i: nat) {
    && (l.ifs(i).Some? ==> forall k :: 0 <= k < |l.ifs(i).value| ==> l.ifs(i).value[k].begin < i)
    && (l.fors(i).Some? ==> forall k :: 0 <= k < |l.fors(i).value| ==> l.fors(i).value[k] < i)
  }

  // No IF or FOR that was opened at b is open any more.
  ghost predicate Shut(l: Layout, b: nat, i: nat) {
    && (l.ifs(i).Some? ==> forall k :: 0 <= k < |l.ifs(i).value| ==> l.ifs(i).value[k].begin != b)
    && (l.fors(i).Some? ==> forall k :: 0 <= k < |l.fors(i).value| ==> l.fors(i).value[k] != b)
  }

  lemma ShutNext(l: Layout, b: nat, i: nat)
    requires Sound(l) && b < i < |l.p| && Shut(l, b, i)
    ensures Shut(l, b, i + 1)
  {
    assert OpenAt(l, i);
  }

  lemma {:induction false} StaysShut(l: Layout, b: nat, i: nat, j: nat)
    requires Sound(l) && b < i <= j <= |l.p| && Shut(l, b, i)
    ensures Shut(l, b, j)
    decreases j
  {
    if i < j {
      StaysShut(l, b, i, j - 1);
      ShutNext(l, b, j - 1);
    }
  }

  ghost predicate TopIfOf(f: Option<seq<Open>>, b: nat) {
    f.Some? && f.value != [] && f.value[|f.value| - 1].begin == b
  }

  // Does an instruction with these brackets open mark the point q?
  ghost predicate Marked(ins: Instr, f: Option<seq<Open>>, g: Option<seq<nat>>, q: Point) {
    match q
    case PLabel(k) => ins == Label(k)
    case PElse(b) => TopIfOf(f, b) && (ins.IfElse? || (ins.IfEnd? && !f.value[|f.value| - 1].sawElse))
    case PEndIf(b) => TopIfOf(f, b) && ins.IfEnd?
    case PEndFor(b) => g.Some? && g.value != [] && g.value[|g.value| - 1] == b && ins.ForEnd?
  }

  predicate PointOf(q: Point, b: nat) {
    q == PElse(b) || q == PEndIf(b) || q == PEndFor(b)
  }

  ghost predicate MarkedAt(l: Layout, i: nat, q: Point)
    requires i < |l.p|
  {
    Marked(l.p[i], l.ifs(i), l.fors(i), q)
  }

  ghost predicate LastMark(l: Layout, q: Point, i: nat) {
    i < |l.p| && MarkedAt(l, i, q) && forall j :: i < j < |l.p| ==> !MarkedAt(l, j, q)
  }

  // The last mark inside a bracket is the last one of the program.
  lemma LastInside(l: Layout, q: Point, b: nat, i: nat, e: nat)
    requires Sound(l) && PointOf(q, b) && b < i <= e < |l.p| && MarkedAt(l, i, q) && Below(l, b) &&
      SameOpen(l, b, e + 1)
    requires forall j :: i < j <= e ==> !MarkedAt(l, j, q)
    ensures LastMark(l, q, i)
  {
    assert Shut(l, b, e + 1);
    forall j | i < j < |l.p| ensures !MarkedAt(l, j, q) {
      if j > e {
        StaysShut(l, b, e + 1, j);
      }
    }
  }

  lemma WhenMark(l: Layout, a: nat, t: Stmt)
    requires Here(l, a, t) && t.When? && Below(l, a)
    ensures LastMark(l, PElse(a), a + 1 + l.size(t.yes))
  {
    WhenBrackets(l, a, t);
    var e := a + 1 + l.size(t.yes);
    LastInside(l, PElse(a), a, e, e);
  }

  lemma NotOuter(l: Layout, b: nat, a: nat, t: Stmt, j: nat)
    requires Here(l, a, t) && b < a <= j < a + l.size(t) <= |l.p|
    ensures !MarkedAt(l, j, PElse(b))
  {
    if l.p[j].IfElse? || l.p[j].IfEnd? {
      Inside(l, a, t, j);
    }
  }

  lemma ElseMark(l: Layout, a: nat, t: Stmt)
    requires Here(l, a, t) && t.Choose? && Below(l, a)
    ensures LastMark(l, PElse(a), a + 1 + l.size(t.yes))
  {
    ChooseBrackets(l, a, t);
    var i, e := a + 1 + l.size(t.yes), a + 2 + l.size(t.yes) + l.size(t.no);
    forall j | i < j <= e ensures !MarkedAt(l, j, PElse(a)) {
      if j < e {
        NotOuter(l, a, i + 1, t.no, j);
      }
    }
    LastInside(l, PElse(a), a, i, e);
  }

  lemma EndMark(l: Layout, a: nat, t: Stmt)
    requires Here(l, a, t) && t.Choose? && Below(l, a)
    ensures LastMark(l, PEndIf(a), a + 2 + l.size(t.yes) + l.size(t.no))
  {
    ChooseBrackets(l, a, t);
    var e := a + 2 + l.size(t.yes) + l.size(t.no);
    LastInside(l, PEndIf(a), a, e, e);
  }

  lemma EachMark(l: Layout, a: nat, t: Stmt)
    requires Here(l, a, t) && t.Each? && Below(l, a)
    ensures LastMark(l, PEndFor(a), a + 1 + l.size(t.body))
  {
    EachBrackets(l, a, t);
    var e := a + 1 + l.size(t.body);
    LastInside(l, PEndFor(a), a, e, e);
  }

  // ---- The layout of a given program ----

  ghost function IfsOf(p: seq<Instr>): Ifs {
    (i: nat) => if i <= |p| then IfsOpen(p[..i]) else None
  }

  ghost function ForsOf(p: seq<Instr>): Fors {
    (i: nat) => if i <= |p| then ForsOpen(p[..i]) else None
  }

  ghost function LayoutOf(p: seq<Instr>): Layout {
    Layout(p, IfsOf(p), ForsOf(p), (a: nat, t: Stmt) => Lies(p, a, Flatten(t)) && Formed(t), (t: Stmt) => |Flatten(t)|)
  }

  lemma OpenStepAt(p: seq<Instr>, i: nat)
    requires i < |p|
    ensures OpenStep(p[i], i, IfsOpen(p[..i]), IfsOpen(p[..i + 1]), ForsOpen(p[..i]), ForsOpen(p[..i + 1]))
  {
    OpenNext(p, i);
    assert p[..i + 1][..i] == p[..i];
  }

  // Lying and size, as the layout of p has them.
  lemma Fields(p: seq<Instr>, l: Layout, a: nat, t: Stmt, c: seq<Instr>)
    requires l == LayoutOf(p) && c == Flatten(t) && Formed(t)
    ensures (Lies(p, a, c) ==> l.lies(a, t)) && l.size(t) == |c| && l.p == p
  {
  }

  lemma SplitDo(p: seq<Instr>, l: Layout, a: nat, t: Stmt, c: seq<Instr>)
    requires (t.Do? || t.Skip?) && Formed(t) && l == LayoutOf(p) && c == Flatten(t) && Lies(p, a, c)
    ensures Split(l, a, t)
  {
    Fields(p, l, a, t, c);
    if t.Do? {
      assert p[a..a + 1][0] == t.ins;
    }
  }

  lemma SplitThen(p: seq<Instr>, l: Layout, a: nat, t: Stmt, x: seq<Instr>, y: seq<Instr>)
    requires t.Then? && Formed(t) && l == LayoutOf(p) && x == Flatten(t.first) && y == Flatten(t.second) &&
      Lies(p, a, x + y)
    ensures Split(l, a, t)
  {
    LiesThen(p, a, x, y);
    Fields(p, l, a, t, x + y);
    Fields(p, l, a, t.first, x);
    Fields(p, l, a + |x|, t.second, y);
  }

  lemma SplitWhen(p: seq<Instr>, l: Layout, a: nat, t: Stmt, y: seq<Instr>)
    requires t.When? && Formed(t) && l == LayoutOf(p) && y == Flatten(t.yes) && Lies(p, a, [IfBegin(t.c)] + y + [IfEnd])
    ensures Split(l, a, t)
  {
    LiesAround(p, a, IfBegin(t.c), y, IfEnd);
    Fields(p, l, a, t, [IfBegin(t.c)] + y + [IfEnd]);
    Fields(p, l, a + 1, t.yes, y);
  }

  lemma SplitChoose(p: seq<Instr>, l: Layout, a: nat, t: Stmt, y: seq<Instr>, n: seq<Instr>)
    requires t.Choose? && Formed(t) && l == LayoutOf(p) && y == Flatten(t.yes) && n == Flatten(t.no)
    requires Lies(p, a, [IfBegin(t.c)] + y + [IfElse] + n + [IfEnd])
    ensures Split(l, a, t)
  {
    LiesChoose(p, a, IfBegin(t.c), y, IfElse, n, IfEnd);
    Fields(p, l, a, t, [IfBegin(t.c)] + y + [IfElse] + n + [IfEnd]);
    Fields(p, l, a + 1, t.yes, y);
    Fields(p, l, a + 2 + |y|, t.no, n);
  }

  lemma SplitEach(p: seq<Instr>, l: Layout, a: nat, t: Stmt, y: seq<Instr>)
    requires t.Each? && Formed(t) && l == LayoutOf(p) && y == Flatten(t.body) &&
      Lies(p, a, [ForBegin(t.x, t.list)] + y + [ForEnd])
    ensures Split(l, a, t)
  {
    LiesAround(p, a, ForBegin(t.x, t.list), y, ForEnd);
    Fields(p, l, a, t, [ForBegin(t.x, t.list)] + y + [ForEnd]);
    Fields(p, l, a + 1, t.body, y);
  }

  lemma SplitIs(p: seq<Instr>, l: Layout, a: nat, t: Stmt)
    requires Lies(p, a, Flatten(t)) && Formed(t) && l == LayoutOf(p)
    ensures Split(l, a, t)
  {
    match t
    case Skip => SplitDo(p, l, a, t, []);
    case Do(ins) => SplitDo(p, l, a, t, [ins]);
    case Then(x, y) => SplitThen(p, l, a, t, Flatten(x), Flatten(y));
    case When(c, yes) => SplitWhen(p, l, a, t, Flatten(yes));
    case Choose(c, yes, no) => SplitChoose(p, l, a, t, Flatten(yes), Flatten(no));
    case Each(x, list, body) => SplitEach(p, l, a, t, Flatten(body));
  }

  lemma LayoutSound(p: seq<Instr>, l: Layout)
    requires l == LayoutOf(p)
    ensures Sound(l)
  {
    forall i: nat | i < |l.p| ensures OpenAt(l, i) {
      OpenStepAt(p, i);
    }
    forall a: nat, t | l.lies(a, t) ensures Split(l, a, t) {
      SplitIs(p, l, a, t);
    }
  }

  // What the flat IR's own functions say, in terms of the layout.
  ghost predicate Faithful(l: Layout) {
    && Sound(l)
    && (forall i: nat :: i <= |l.p| ==> Below(l, i))
    && (forall q, i: nat :: LastMark(l, q, i) ==> Target(l.p, q, |l.p|) == Some(i + 1))
    && (forall i: nat, b: nat :: i <= |l.p| && TopIfOf(l.ifs(i), b) ==> TopIf(l.p, i, b))
    && (forall i: nat, s, b: nat :: i <= |l.p| && l.fors(i) == Some(s + [b]) ==> TopFor(l.p, i, b))
  }

  lemma BelowIs(p: seq<Instr>, l: Layout, i: nat)
    requires l == LayoutOf(p) && i <= |p|
    ensures Below(l, i)
  {
    BeginsBelow(p, i);
  }

  lemma MarkedIs(p: seq<Instr>, l: Layout, i: nat, q: Point)
    requires i < |p| && l == LayoutOf(p)
    ensures MarkedAt(l, i, q) <==> Marks(p, i, q)
  {
  }

  lemma {:induction false} TargetIs(p: seq<Instr>, q: Point, i: nat, n: nat)
    requires i < n <= |p| && Marks(p, i, q) && forall j :: i < j < n ==> !Marks(p, j, q)
    ensures Target(p, q, n) == Some(i + 1)
    decreases n
  {
    if i < n - 1 {
      TargetIs(p, q, i, n - 1);
    }
  }

  lemma LastIsTarget(p: seq<Instr>, l: Layout, q: Point, i: nat)
    requires l == LayoutOf(p) && LastMark(l, q, i)
    ensures Target(p, q, |p|) == Some(i + 1)
  {
    MarkedIs(p, l, i, q);
    forall j | i < j < |p| ensures !Marks(p, j, q) {
      MarkedIs(p, l, j, q);
    }
    TargetIs(p, q, i, |p|);
  }

  lemma TopIs(p: seq<Instr>, l: Layout, i: nat, b: nat)
    requires l == LayoutOf(p) && i <= |p|
    ensures TopIfOf(l.ifs(i), b) ==> TopIf(p, i, b)
    ensures forall s :: l.fors(i) == Some(s + [b]) ==> TopFor(p, i, b)
  {
  }

  lemma LayoutFaithful(p: seq<Instr>, l: Layout)
    requires l == LayoutOf(p)
    ensures Faithful(l)
  {
    LayoutSound(p, l);
    forall i: nat | i <= |l.p| ensures Below(l, i) {
      BelowIs(p, l, i);
    }
    forall q, i: nat | LastMark(l, q, i) ensures Target(l.p, q, |l.p|) == Some(i + 1) {
      LastIsTarget(p, l, q, i);
    }
    forall i: nat, b: nat | i <= |l.p| && TopIfOf(l.ifs(i), b) ensures TopIf(l.p, i, b) {
      TopIs(p, l, i, b);
    }
    forall i: nat, s, b: nat | i <= |l.p| && l.fors(i) == Some(s + [b]) ensures TopFor(l.p, i, b) {
      TopIs(p, l, i, b);
    }
  }
}
