/** The flat integer/list IR that the backend compiles, with its meaning: variables and temps, a list heap,
    printed output, labels and jumps, and the IF and FOR markers. Instructions that allocate before they load their
    operands (constructor calls, list-returning library calls, creating a generator) are not among them: there a temp
    kept in a register is lost. `ArmCalls` says exactly when such a call is still right. */
module ArmIr {
  import opened ArmMachine
  import opened Numbers
  import opened Options

  datatype Ref = RVar(id: int) | RTemp(id: int)

  datatype Operand = OpRef(ref: Ref) | OpConst(w: Word) | OpNone

  datatype Truth = TAnd | TOr | TXor | TXnor

  datatype UnOp = UCopy | UNot | UBool | UBnot | UAbs | ULen

  datatype BinOp = BAlu(alu: AluOp) | BIdiv | BMod | BXsub | BTruth(t: Truth) | BCmp(c: Cond) | BIndex

  datatype Instr =
    | Un(uop: UnOp, dst: Ref, a: Operand)
    | Bin(bop: BinOp, dst: Ref, a: Operand, b: Operand)
    | StoreIndex(arr: Operand, idx: Operand, val: Operand)
    | Print(a: Operand)
    | Label(l: nat)
    | Jump(l: nat)
    | JumpIfFalse(a: Operand, l: nat)
    | JumpIfTrue(a: Operand, l: nat)
    | IfBegin(a: Operand)
    | IfElse
    | IfEnd
    | ForBegin(x: int, arr: Operand)
    | ForEnd
    | Marker                              // tag, while and class markers: no code

  // The operands an instruction reads, in the order it lists them.
  function Uses(ins: Instr): seq<Operand> {
    match ins
    case Un(_, _, a) => [a]
    case Bin(_, _, a, b) => [a, b]
    case StoreIndex(arr, idx, val) => [arr, idx, val]
    case Print(a) => [a]
    case JumpIfFalse(a, _) => [a]
    case JumpIfTrue(a, _) => [a]
    case IfBegin(a) => [a]
    case ForBegin(_, arr) => [arr]
    case _ => []
  }

  predicate Defines(ins: Instr, t: int) {
    (ins.Un? || ins.Bin?) && ins.dst == RTemp(t)
  }

  predicate UserRef(r: Ref) {
    r.id >= 0
  }

  // Temps are numbered from 0, as the IR generator numbers them.
  predicate UserInstr(ins: Instr) {
    && (forall o :: o in Uses(ins) && o.OpRef? ==> UserRef(o.ref))
    && ((ins.Un? || ins.Bin?) ==> UserRef(ins.dst))
  }

  predicate UserCode(p: seq<Instr>) {
    forall i :: 0 <= i < |p| ==> UserInstr(p[i])
  }

  // ---- Which temps may stay in a register ----

  function CountIn(ops: seq<Operand>, t: int): nat {
    if ops == [] then 0 else (if ops[0] == OpRef(RTemp(t)) then 1 else 0) + CountIn(ops[1..], t)
  }

  function UseCount(p: seq<Instr>, t: int): nat {
    if p == [] then 0 else UseCount(p[..|p| - 1], t) + CountIn(Uses(p[|p| - 1]), t)
  }

  predicate LastDef(p: seq<Instr>, d: nat, t: int) {
    d < |p| && Defines(p[d], t) && forall j :: d < j < |p| ==> !Defines(p[j], t)
  }

  // Elidable: the last definition of t is followed at once by the only use of t.
  ghost predicate Elidable(p: seq<Instr>, t: int) {
    && UseCount(p, t) == 1
    && (exists d :: 0 <= d < |p| - 1 && LastDef(p, d, t) && CountIn(Uses(p[d + 1]), t) == 1)
  }

  // ---- Control structure: labels, IF and FOR brackets ----

  datatype Open = Open(begin: nat, sawElse: bool)

  // The IF_BEGINs still open after the instructions of p, outermost first. None: an ELSE or END without IF.
  function IfsOpen(p: seq<Instr>): (r: Option<seq<Open>>)
    ensures r.Some? ==> forall k :: 0 <= k < |r.value| ==> r.value[k].begin < |p| && p[r.value[k].begin].IfBegin?
  {
    if p == [] then Some([])
    else
      var n := |p| - 1;
      match IfsOpen(p[..n])
      case None => None
      case Some(s) =>
        if p[n].IfBegin? then Some(s + [Open(n, false)])
        else if p[n].IfElse? then if s == [] then None else Some(s[..|s| - 1] + [Open(s[|s| - 1].begin, true)])
        else if p[n].IfEnd? then if s == [] then None else Some(s[..|s| - 1])
        else Some(s)
  }

  // The FOR_BEGINs still open after the instructions of p, outermost first.
  function ForsOpen(p: seq<Instr>): (r: Option<seq<nat>>)
    ensures r.Some? ==> forall k :: 0 <= k < |r.value| ==> r.value[k] < |p| && p[r.value[k]].ForBegin?
  {
    if p == [] then Some([])
    else
      var n := |p| - 1;
      match ForsOpen(p[..n])
      case None => None
      case Some(s) =>
        if p[n].ForBegin? then Some(s + [n])
        else if p[n].ForEnd? then if s == [] then None else Some(s[..|s| - 1])
        else Some(s)
  }

  predicate TopIf(p: seq<Instr>, i: nat, b: nat)
    requires i <= |p|
  {
    var s := IfsOpen(p[..i]);
    s.Some? && s.value != [] && s.value[|s.value| - 1].begin == b
  }

  predicate TopFor(p: seq<Instr>, i: nat, b: nat)
    requires i <= |p|
  {
    var s := ForsOpen(p[..i]);
    s.Some? && s.value != [] && s.value[|s.value| - 1] == b
  }

  // Does instruction i start the false branch of the IF opened at b?
  predicate StartsElse(p: seq<Instr>, i: nat, b: nat)
    requires i < |p|
  {
    && TopIf(p, i, b)
    && (p[i].IfElse? || (p[i].IfEnd? && !IfsOpen(p[..i]).value[|IfsOpen(p[..i]).value| - 1].sawElse))
  }

  predicate EndsIf(p: seq<Instr>, i: nat, b: nat)
    requires i < |p|
  {
    TopIf(p, i, b) && p[i].IfEnd?
  }

  predicate EndsFor(p: seq<Instr>, i: nat, b: nat)
    requires i < |p|
  {
    TopFor(p, i, b) && p[i].ForEnd?
  }

  datatype Point = PLabel(l: nat) | PElse(b: nat) | PEndIf(b: nat) | PEndFor(b: nat)

  // Is the position just after instruction i the control point q?
  predicate Marks(p: seq<Instr>, i: nat, q: Point)
    requires i < |p|
  {
    match q
    case PLabel(l) => p[i] == Label(l)
    case PElse(b) => StartsElse(p, i, b)
    case PEndIf(b) => EndsIf(p, i, b)
    case PEndFor(b) => EndsFor(p, i, b)
  }

  // The instruction index where control point q lies, looking at the first n instructions.
  function Target(p: seq<Instr>, q: Point, n: nat): Option<nat>
    requires n <= |p|
  {
    if n == 0 then None
    else if Marks(p, n - 1, q) then Some(n)
    else Target(p, q, n - 1)
  }

  // ---- Meaning ----

  datatype State = State(pc: nat, env: map<Ref, Word>, heap: map<int, Word>, out: seq<Word>, trapped: bool)

  function Lookup(env: map<Ref, Word>, r: Ref): Word {
    if r in env then env[r] else 0
  }

  function Val(env: map<Ref, Word>, o: Operand): Word {
    match o
    case OpRef(r) => Lookup(env, r)
    case OpConst(w) => w
    case OpNone => 0
  }

  // Floor modulo: the result has the sign of the divisor.
  function FloorMod(a: int, b: int): (r: int)
    requires b != 0
    ensures b > 0 ==> 0 <= r < b
    ensures b < 0 ==> b < r <= 0
  {
    if b > 0 then a % b else -((-a) % (-b))
  }

  // It differs from the dividend by a multiple of the divisor.
  lemma FloorModQuotient(a: int, b: int) returns (q: int)
    requires b != 0
    ensures a == q * b + FloorMod(a, b)
  {
    if b > 0 {
      q := a / b;
    } else {
      var c := -b;
      q := (-a) / c;
      assert -a == c * q + (-a) % c;
      assert c * q == -(q * b);
    }
  }

  // Lists: the word at ptr is the length, element k is at ptr + 8*(k+1); a negative index counts from the end.
  function ElemAddr(heap: map<int, Word>, ptr: Word, idx: Word): Word {
    var k := if idx < 0 then Wrap(idx + HeapAt(heap, ptr)) else idx;
    Wrap(ptr + Wrap(Wrap(k + 1) * 8))
  }

  function UnVal(op: UnOp, a: Word, heap: map<int, Word>): Word {
    match op
    case UCopy => a
    case UNot => Flag(a == 0)
    case UBool => Flag(a != 0)
    case UBnot => Wrap(-1 - a)
    case UAbs => Wrap(Abs(a))
    case ULen => HeapAt(heap, a)
  }

  predicate TruthOf(t: Truth, a: bool, b: bool) {
    match t
    case TAnd => a && b
    case TOr => a || b
    case TXor => a != b
    case TXnor => a == b
  }

  // None: division by zero.
  function BinVal(op: BinOp, a: Word, b: Word, heap: map<int, Word>): Option<Word> {
    match op
    case BAlu(alu) => Some(Alu(alu, a, b))
    case BIdiv => if b == 0 then None else Some(Wrap(TruncDiv(a, b)))
    case BMod => if b == 0 then None else Some(FloorMod(a, b))
    case BXsub => Some(Wrap(Abs(Wrap(a - b)) + 1))
    case BTruth(t) => Some(Flag(TruthOf(t, a != 0, b != 0)))
    case BCmp(c) => Some(Flag(Holds(c, a, b)))
    case BIndex => Some(HeapAt(heap, ElemAddr(heap, a, b)))
  }

  predicate Done(p: seq<Instr>, s: State) {
    s.trapped || s.pc >= |p|
  }

  function Goto(p: seq<Instr>, s: State, q: Point): State {
    match Target(p, q, |p|)
    case Some(i) => s.(pc := i)
    case None => s
  }

  // The n-th FOR of the program text keeps its list and its index in two cells no program names.
  function LoopArr(n: nat): Ref { RTemp(-100000 - 2 * n) }

  function LoopIdx(n: nat): Ref { RTemp(-100000 - 2 * n - 1) }

  // How many FOR_BEGINs are among the instructions of p.
  function ForCount(p: seq<Instr>): nat {
    if p == [] then 0 else ForCount(p[..|p| - 1]) + (if p[|p| - 1].ForBegin? then 1 else 0)
  }

  // The test at the head of the FOR opened at b. The length is read again on every turn.
  function ForTest(p: seq<Instr>, s: State, b: nat): State
    requires b < |p| && p[b].ForBegin?
  {
    var n := ForCount(p[..b]);
    var arr, idx := Lookup(s.env, LoopArr(n)), Lookup(s.env, LoopIdx(n));
    if idx >= HeapAt(s.heap, arr) then Goto(p, s, PEndFor(b))
    else
      var v := HeapAt(s.heap, Wrap(arr + Wrap(Wrap(idx + 1) * 8)));
      s.(pc := b + 1, env := s.env[RVar(p[b].x) := v])
  }

  function IStep(p: seq<Instr>, s: State): State
    requires !Done(p, s)
  {
    var next := s.pc + 1;
    match p[s.pc]
    case Un(op, d, a) => s.(pc := next, env := s.env[d := UnVal(op, Val(s.env, a), s.heap)])
    case Bin(op, d, a, b) =>
      (match BinVal(op, Val(s.env, a), Val(s.env, b), s.heap)
       case None => s.(trapped := true)
       case Some(v) => s.(pc := next, env := s.env[d := v]))
    case StoreIndex(arr, idx, val) =>
      var at := ElemAddr(s.heap, Val(s.env, arr), Val(s.env, idx));
      s.(pc := next, heap := s.heap[at := Val(s.env, val)])
    case Print(a) => s.(pc := next, out := s.out + [Val(s.env, a)])
    case Jump(l) => Goto(p, s, PLabel(l))
    case JumpIfFalse(a, l) => if Val(s.env, a) == 0 then Goto(p, s, PLabel(l)) else s.(pc := next)
    case JumpIfTrue(a, l) => if Val(s.env, a) != 0 then Goto(p, s, PLabel(l)) else s.(pc := next)
    case IfBegin(a) => if Val(s.env, a) == 0 then Goto(p, s, PElse(s.pc)) else s.(pc := next)
    case IfElse =>
      var open := IfsOpen(p[..s.pc]);
      if open.Some? && open.value != [] then Goto(p, s, PEndIf(open.value[|open.value| - 1].begin)) else s
    case ForBegin(x, arr) =>
      var n := ForCount(p[..s.pc]);
      ForTest(p, s.(env := s.env[LoopArr(n) := Val(s.env, arr)][LoopIdx(n) := 0]), s.pc)
    case ForEnd =>
      var open := ForsOpen(p[..s.pc]);
      if open.Some? && open.value != [] then
        var b := open.value[|open.value| - 1];
        var idx := LoopIdx(ForCount(p[..b]));
        ForTest(p, s.(env := s.env[idx := Wrap(Lookup(s.env, idx) + 1)]), b)
      else s
    case _ => s.(pc := next)
  }

  function IRun(p: seq<Instr>, s: State, k: nat): State
    decreases k
  {
    if k == 0 || Done(p, s) then s else IRun(p, IStep(p, s), k - 1)
  }
}
