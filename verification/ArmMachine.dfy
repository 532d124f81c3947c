/** The part of the AArch64 machine that the backend's integer code runs on: 64-bit registers,
    the slot page that holds variables and temps, a list heap, the compare flags, and branches to labels.
    One `MInstr` stands for one emitter call (a 64-bit immediate load is one step). */
module ArmMachine {

  import opened Numbers

  function Abs(x: int): int {
    if x < 0 then -x else x
  }

  // C-style division, truncating toward zero.
  function TruncDiv(a: int, b: int): int
    requires b != 0
  {
    if (a < 0) == (b < 0) then Abs(a) / Abs(b) else -(Abs(a) / Abs(b))
  }

  datatype BitOp = BitAnd | BitOr | BitXor

  function Bit(op: BitOp, x: nat, y: nat): nat {
    match op
    case BitAnd => if x == 1 && y == 1 then 1 else 0
    case BitOr => if x == 1 || y == 1 then 1 else 0
    case BitXor => if x != y then 1 else 0
  }

  // The low n bits of x op y, bit by bit.
  function Bitwise(op: BitOp, x: nat, y: nat, n: nat): nat {
    if n == 0 then 0 else Bit(op, x % 2, y % 2) + 2 * Bitwise(op, x / 2, y / 2, n - 1)
  }

  datatype AluOp = Add | Sub | Mul | Sdiv | Logic(bit: BitOp) | Lsl | Lsr

  function Alu(op: AluOp, a: Word, b: Word): Word {
    match op
    case Add => Wrap(a + b)
    case Sub => Wrap(a - b)
    case Mul => Wrap(a * b)
    case Sdiv => if b == 0 then 0 else Wrap(TruncDiv(a, b))
    case Logic(bit) => Wrap(Bitwise(bit, Unsigned(a), Unsigned(b), 64))
    case Lsl => Wrap(a * Pow2(Unsigned(b) % 64))
    case Lsr => Wrap(Unsigned(a) / Pow2(Unsigned(b) % 64))
  }

  datatype Cond = EQ | NE | GE | LT | GT | LE

  predicate Holds(c: Cond, a: int, b: int) {
    match c
    case EQ => a == b
    case NE => a != b
    case GE => a >= b
    case LT => a < b
    case GT => a > b
    case LE => a <= b
  }

  function Flag(b: bool): Word {
    if b then 1 else 0
  }

  type Reg = r: int | 0 <= r <= 31

  const X0: Reg := 0
  const X9: Reg := 9
  const X10: Reg := 10
  const X11: Reg := 11
  const X12: Reg := 12
  const TCACHE: Reg := 16
  const XZR: Reg := 31

  datatype MInstr =
    | MovImm(d: Reg, imm: Word)
    | MovReg(d: Reg, n: Reg)
    | LdrSlot(d: Reg, slot: nat)
    | StrSlot(n: Reg, slot: nat)
    | Ldr(d: Reg, n: Reg)                 // load through [n]
    | Str(t: Reg, n: Reg)                 // store through [n]
    | AluReg(op: AluOp, d: Reg, n: Reg, m: Reg)
    | AddImm(d: Reg, n: Reg, add: nat)
    | Msub(d: Reg, n: Reg, m: Reg, a: Reg)
    | Neg(d: Reg, n: Reg)
    | Mvn(d: Reg, n: Reg)
    | Cmp(n: Reg, m: Reg)
    | Cset(d: Reg, c: Cond)
    | B(l: int)
    | Cbz(n: Reg, l: int)
    | Cbnz(n: Reg, l: int)
    | BCond(c: Cond, l: int)
    | BlTrap                              // BL to the division-by-zero routine
    | BlPrint                             // BL to the integer print routine
    | BlAlloc                             // BL to the allocator: X0 bytes in, pointer out

  // `junk` is what a called routine leaves in the caller-saved registers X0..X17; the allocator's block is in X0.
  datatype Image = Image(code: seq<MInstr>, labels: map<int, nat>, junk: Reg -> Word)

  type RegFile = s: seq<Word> | |s| == 32 witness seq(32, _ => 0)

  datatype Machine = Machine(
    pc: nat, regs: RegFile, slots: map<nat, Word>, heap: map<int, Word>,
    flagA: Word, flagB: Word, out: seq<Word>, trapped: bool)

  function Get(m: Machine, r: Reg): Word {
    if r == XZR then 0 else m.regs[r]
  }

  function SetReg(regs: RegFile, r: Reg, v: Word): RegFile {
    if r == XZR then regs else regs[r := v]
  }

  function Slot(m: Machine, s: nat): Word {
    if s in m.slots then m.slots[s] else 0
  }

  function HeapAt(heap: map<int, Word>, a: int): Word {
    if a in heap then heap[a] else 0
  }

  // Sets a register and moves to the next instruction.
  function Put(m: Machine, d: Reg, v: Word): Machine {
    m.(regs := SetReg(m.regs, d, v), pc := m.pc + 1)
  }

  function Branch(img: Image, m: Machine, l: int, taken: bool): Machine {
    if taken && l in img.labels then m.(pc := img.labels[l]) else m.(pc := m.pc + 1)
  }

  function Clobber(regs: RegFile, junk: Reg -> Word): RegFile {
    seq(32, i requires 0 <= i < 32 => if i <= 17 then junk(i) else regs[i])
  }

  // The allocator keeps the size in X9 and moves its cursor and its limit, in slots 0 and 1.
  function Allocate(img: Image, m: Machine): Machine {
    m.(regs := Clobber(m.regs, img.junk)[X9 := m.regs[X0]], slots := m.slots[0 := img.junk(X10)][1 := img.junk(X11)],
       pc := m.pc + 1)
  }

  predicate Stopped(img: Image, m: Machine) {
    m.trapped || m.pc >= |img.code|
  }

  // The effect of one instruction.
  function Exec(img: Image, ins: MInstr, m: Machine): Machine {
    match ins
    case MovImm(d, imm) => Put(m, d, imm)
    case MovReg(d, n) => Put(m, d, Get(m, n))
    case LdrSlot(d, s) => Put(m, d, Slot(m, s))
    case StrSlot(n, s) => m.(slots := m.slots[s := Get(m, n)], pc := m.pc + 1)
    case Ldr(d, n) => Put(m, d, HeapAt(m.heap, Get(m, n)))
    case Str(t, n) => m.(heap := m.heap[Get(m, n) := Get(m, t)], pc := m.pc + 1)
    case AluReg(op, d, n, k) => Put(m, d, Alu(op, Get(m, n), Get(m, k)))
    case AddImm(d, n, add) => Put(m, d, Wrap(Get(m, n) + add))
    case Msub(d, n, k, a) => Put(m, d, Wrap(Get(m, a) - Get(m, n) * Get(m, k)))
    case Neg(d, n) => Put(m, d, Wrap(0 - Get(m, n)))
    case Mvn(d, n) => Put(m, d, Wrap(-1 - Get(m, n)))
    case Cmp(n, k) => m.(flagA := Get(m, n), flagB := Get(m, k), pc := m.pc + 1)
    case Cset(d, c) => Put(m, d, Flag(Holds(c, m.flagA, m.flagB)))
    case B(l) => Branch(img, m, l, true)
    case Cbz(n, l) => Branch(img, m, l, Get(m, n) == 0)
    case Cbnz(n, l) => Branch(img, m, l, Get(m, n) != 0)
    case BCond(c, l) => Branch(img, m, l, Holds(c, m.flagA, m.flagB))
    case BlTrap => m.(trapped := true)
    case BlPrint => m.(out := m.out + [Get(m, X0)], regs := Clobber(m.regs, img.junk), pc := m.pc + 1)
    case BlAlloc => Allocate(img, m)
  }

  function Step(img: Image, m: Machine): Machine
    requires !Stopped(img, m)
  {
    Exec(img, img.code[m.pc], m)
  }

  function Run(img: Image, m: Machine, k: nat): Machine
    decreases k
  {
    if k == 0 || Stopped(img, m) then m else Run(img, Step(img, m), k - 1)
  }

  lemma RunStep(img: Image, m: Machine, m1: Machine, k: nat)
    requires !Stopped(img, m) && m1 == Step(img, m)
    ensures Run(img, m, k + 1) == Run(img, m1, k)
  {
  }

  lemma RunHalt(img: Image, m: Machine, k: nat)
    requires Stopped(img, m) || k == 0
    ensures Run(img, m, k) == m
  {
  }

  lemma GetStep(img: Image, m: Machine) returns (m1: Machine)
    requires !Stopped(img, m)
    ensures m1 == Step(img, m)
  {
    m1 := Step(img, m);
  }

  lemma {:induction false} RunCompose(img: Image, m: Machine, j: nat, k: nat)
    ensures Run(img, Run(img, m, j), k) == Run(img, m, j + k)
    decreases j
  {
    if j == 0 || Stopped(img, m) {
      RunHalt(img, m, j);
      if j != 0 {
        RunHalt(img, m, k);
        RunHalt(img, m, j + k);
      }
    } else {
      var m1 := GetStep(img, m);
      RunStep(img, m, m1, j - 1);
      RunStep(img, m, m1, j + k - 1);
      RunCompose(img, m1, j - 1, k);
    }
  }
}
