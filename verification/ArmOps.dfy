/** What each operator's instruction sequence computes, against the IR's own meaning of the operator. */
module ArmOps {
  import opened ArmMachine
  import opened ArmIr
  import opened ArmCodegen
  import opened ArmSim
  import opened Numbers
  import opened Options

  // ---- Arithmetic ----

  lemma {:induction false} BitwiseTop(op: BitOp, x: nat, y: nat, n: nat)
    requires 0 < n && x < Pow2(n) && y < Pow2(n)
    ensures Bitwise(op, x, y, n) < Pow2(n)
    ensures Bitwise(op, x, y, n) >= Pow2(n - 1)
      <==> Bit(op, if x >= Pow2(n - 1) then 1 else 0, if y >= Pow2(n - 1) then 1 else 0) == 1
  {
    if n == 1 {
      assert Bitwise(op, x / 2, y / 2, 0) == 0;
    } else {
      BitwiseTop(op, x / 2, y / 2, n - 1);
    }
  }

  lemma {:induction false} Pow2Add(m: nat, n: nat)
    ensures Pow2(m + n) == Pow2(m) * Pow2(n)
  {
    if m > 0 {
      Pow2Add(m - 1, n);
      assert 2 * Pow2(m - 1) * Pow2(n) == 2 * (Pow2(m - 1) * Pow2(n));
    }
  }

  lemma Pow63()
    ensures Pow2(63) == TWO63 && Pow2(64) == TWO64
  {
    assert Pow2(16) == 0x1_0000;
    Pow2Add(16, 16);
    Pow2Add(32, 16);
    Pow2Add(48, 15);
    assert Pow2(15) == 0x8000;
  }

  // EOR is negative exactly when the signs differ.
  lemma XorSign(a: Word, b: Word)
    ensures Alu(Logic(BitXor), a, b) < 0 <==> (a < 0) != (b < 0)
  {
    Pow63();
    BitwiseTop(BitXor, Unsigned(a), Unsigned(b), 64);
  }

  lemma {:induction false} BitwiseZero(op: BitOp, n: nat)
    ensures Bitwise(op, 0, 0, n) == 0
  {
    if n > 0 {
      BitwiseZero(op, n - 1);
    }
  }

  lemma FlagUnsigned(p: bool)
    ensures Unsigned(Flag(p)) == Flag(p) && Flag(p) % 2 == Flag(p) && Flag(p) / 2 == 0
  {
  }

  lemma BitwiseFlags(op: BitOp, p: bool, q: bool)
    ensures Alu(Logic(op), Flag(p), Flag(q)) == Bit(op, Flag(p), Flag(q))
  {
    BitwiseZero(op, 63);
    FlagUnsigned(p);
    FlagUnsigned(q);
    var x: nat, y: nat := Flag(p), Flag(q);
    assert Bitwise(op, x, y, 64) == Bit(op, x % 2, y % 2) + 2 * Bitwise(op, x / 2, y / 2, 63);
  }

  lemma {:induction false} MulAtLeast(k: nat, b: nat)
    requires k >= 1
    ensures k * b >= b
  {
    if k > 1 {
      MulAtLeast(k - 1, b);
      assert k * b == (k - 1) * b + b;
    }
  }

  lemma MulNeg(k: int, b: int)
    ensures (-k) * b == -(k * b) && k * (-b) == -(k * b)
  {
  }

  lemma SmallMultiple(k: int, b: int)
    requires b != 0 && -Abs(b) < k * b < Abs(b)
    ensures k == 0
  {
    MulNeg(k, b);
    MulNeg(-k, b);
    MulNeg(k, -b);
    if k > 0 {
      MulAtLeast(k, Abs(b));
    } else if k < 0 {
      MulAtLeast(-k, Abs(b));
    }
  }

  // A remainder with the divisor's sign is the floor modulo.
  lemma ModUnique(a: int, b: int, q: int, r: int)
    requires b != 0 && a == q * b + r && (if b > 0 then 0 <= r < b else b < r <= 0)
    ensures r == FloorMod(a, b)
  {
    var q2 := FloorModQuotient(a, b);
    var f := FloorMod(a, b);
    assert (q - q2) * b == q * b - q2 * b == f - r;
    SmallMultiple(q - q2, b);
  }

  lemma DivBound(x: nat, y: nat)
    requires y > 0
    ensures x / y <= x && (y >= 2 ==> 2 * (x / y) <= x) && x == (x / y) * y + x % y && x / y >= 0
  {
    var q := x / y;
    assert x == q * y + x % y;
    if q > 0 {
      MulAtLeast(q, y - 1);
      if y >= 2 {
        MulAtLeast(y - 1, q);
        assert q * y == (y - 1) * q + q;
      } else {
        assert y == 1;
      }
    }
  }

  // The remainder that SDIV leaves: the sign of the dividend, smaller than the divisor.
  lemma TruncRemainder(a: int, b: int) returns (r: int)
    requires b != 0
    ensures a == TruncDiv(a, b) * b + r && Abs(r) < Abs(b) && (r != 0 ==> (r < 0) == (a < 0))
  {
    var q := Abs(a) / Abs(b);
    var v := Abs(a) % Abs(b);
    DivBound(Abs(a), Abs(b));
    MulNeg(q, b);
    MulNeg(q, -b);
    r := if a < 0 then -v else v;
  }

  // 64-bit SDIV and MSUB leave that remainder, also for the one quotient that does not fit.
  lemma WrapRemainder(a: Word, b: Word, r: int)
    requires b != 0 && a == TruncDiv(a, b) * b + r && Abs(r) < Abs(b)
    ensures Wrap(a - Wrap(TruncDiv(a, b)) * b) == r
  {
    var t := TruncDiv(a, b);
    DivBound(Abs(a), Abs(b));
    if t == TWO63 {
      assert Abs(b) == 1;
      assert b == -1;
    } else {
      assert Wrap(t) == t;
    }
  }

  // ---- Instruction sequences ----

  // Only X9, X10, X11, the flags and the program counter may differ.
  ghost predicate BodyEffect(m: Machine, m': Machine) {
    && m' == m.(pc := m'.pc, regs := m'.regs, flagA := m'.flagA, flagB := m'.flagB)
    && forall q :: 0 <= q < 32 && q != X9 && q != X10 && q != X11 ==> m'.regs[q] == m.regs[q]
  }

  // The code lies in the image at pc, and its labels l, l-1, ... are resolved to the given offsets in it.
  ghost predicate Located(img: Image, pc: nat, code: seq<MInstr>) {
    pc + |code| <= |img.code| && forall i :: 0 <= i < |code| ==> img.code[pc + i] == code[i]
  }

  ghost predicate LabelsAt(img: Image, pc: nat, l: int, offs: seq<nat>) {
    && (|offs| >= 1 ==> l in img.labels && img.labels[l] == pc + offs[0])
    && (|offs| >= 2 ==> l - 1 in img.labels && img.labels[l - 1] == pc + offs[1])
  }

  lemma LocatedSplit(img: Image, pc: nat, a: seq<MInstr>, b: seq<MInstr>)
    requires Located(img, pc, a + b)
    ensures Located(img, pc, a) && Located(img, pc + |a|, b)
  {
    forall i | 0 <= i < |b| ensures img.code[pc + |a| + i] == b[i] {
      assert (a + b)[|a| + i] == b[i];
    }
    forall i | 0 <= i < |a| ensures img.code[pc + i] == a[i] {
      assert (a + b)[i] == a[i];
    }
  }

  ghost predicate At(img: Image, pc: nat, ins: MInstr) {
    pc < |img.code| && img.code[pc] == ins
  }

  // One more instruction at the end of a run.
  lemma Then(img: Image, m: Machine, j: nat, m1: Machine, ins: MInstr) returns (k: nat, m2: Machine)
    requires m1 == Run(img, m, j) && At(img, m1.pc, ins) && !m1.trapped
    ensures k == j + 1 && m2 == Exec(img, ins, m1) == Run(img, m, k)
  {
    RunOne(img, m1);
    m2 := Step(img, m1);
    RunCompose(img, m, j, 1);
    k := j + 1;
  }

  // X9 or X10 becomes 1 or 0, as it compares with zero.
  lemma FlagOk(img: Image, n: Reg, c: Cond, m: Machine) returns (k: nat, m': Machine)
    requires Located(img, m.pc, FlagCode(n, c)) && !m.trapped && (n == X9 || n == X10)
    ensures m' == Run(img, m, k) && m'.pc == m.pc + 2 && BodyEffect(m, m')
    ensures m'.regs == m.regs[n := Flag(Holds(c, Get(m, n), 0))]
  {
    assert FlagCode(n, c)[0] == Cmp(n, XZR) && FlagCode(n, c)[1] == Cset(n, c);
    k, m' := Then(img, m, 0, m, Cmp(n, XZR));
    k, m' := Then(img, m, k, m', Cset(n, c));
  }

  lemma AbsOk(img: Image, l: int, m: Machine) returns (k: nat, m': Machine)
    requires Located(img, m.pc, AbsCode(l)) && LabelsAt(img, m.pc, l, [3]) && !m.trapped
    ensures m' == Run(img, m, k) && m'.pc == m.pc + 3 && BodyEffect(m, m')
    ensures Get(m', X9) == Wrap(Abs(Get(m, X9)))
  {
    var c := AbsCode(l);
    assert c[0] == Cmp(X9, XZR) && c[1] == BCond(GE, l) && c[2] == Neg(X9, X9);
    k, m' := Then(img, m, 0, m, Cmp(X9, XZR));
    k, m' := Then(img, m, k, m', BCond(GE, l));
    if Get(m, X9) < 0 {
      k, m' := Then(img, m, k, m', Neg(X9, X9));
    } else {
      WrapId(Get(m, X9));
    }
  }

  lemma WrapId(a: Word)
    ensures Wrap(a) == a
  {
  }

  lemma UnOk(img: Image, op: UnOp, l: int, m: Machine) returns (k: nat, m': Machine)
    requires Located(img, m.pc, UnCode(op, l)) && LabelsAt(img, m.pc, l, UnLabels(op)) && !m.trapped
    ensures m' == Run(img, m, k) && m'.pc == m.pc + |UnCode(op, l)| && BodyEffect(m, m')
    ensures Get(m', X9) == UnVal(op, Get(m, X9), m.heap)
  {
    k, m' := 0, m;
    match op {
      case UCopy =>
      case UNot => k, m' := FlagOk(img, X9, EQ, m);
      case UBool => k, m' := FlagOk(img, X9, NE, m);
      case UBnot =>
        assert UnCode(op, l)[0] == Mvn(X9, X9);
        k, m' := Then(img, m, k, m', Mvn(X9, X9));
      case UAbs => k, m' := AbsOk(img, l, m);
      case ULen =>
        assert UnCode(op, l)[0] == Ldr(X9, X9);
        k, m' := Then(img, m, k, m', Ldr(X9, X9));
    }
  }

  // The guard passes a nonzero divisor through and traps on zero.
  lemma GuardOk(img: Image, l: int, m: Machine) returns (k: nat, m': Machine)
    requires Located(img, m.pc, DivZeroGuard(l)) && LabelsAt(img, m.pc, l, [2]) && !m.trapped
    ensures m' == Run(img, m, k)
    ensures Get(m, X10) != 0 ==> m' == m.(pc := m.pc + 2)
    ensures Get(m, X10) == 0 ==> m'.trapped && m' == m.(pc := m'.pc, trapped := true)
  {
    assert DivZeroGuard(l)[0] == Cbnz(X10, l) && DivZeroGuard(l)[1] == BlTrap;
    k, m' := Then(img, m, 0, m, Cbnz(X10, l));
    if Get(m, X10) == 0 {
      k, m' := Then(img, m, k, m', BlTrap);
    }
  }

  lemma WrapNegativeOk(img: Image, l: int, m: Machine) returns (k: nat, m': Machine)
    requires Located(img, m.pc, WrapNegativeIndex(l)) && LabelsAt(img, m.pc, l, [4]) && !m.trapped
    ensures m' == Run(img, m, k) && m'.pc == m.pc + 4 && BodyEffect(m, m') && Get(m', X9) == Get(m, X9)
    ensures var i := Get(m, X10); Get(m', X10) == if i < 0 then Wrap(i + HeapAt(m.heap, Get(m, X9))) else i
  {
    var c := WrapNegativeIndex(l);
    assert c[0] == Cmp(X10, XZR) && c[1] == BCond(GE, l) && c[2] == Ldr(X11, X9) && c[3] == AluReg(Add, X10, X10, X11);
    k, m' := Then(img, m, 0, m, Cmp(X10, XZR));
    k, m' := Then(img, m, k, m', BCond(GE, l));
    if Get(m, X10) < 0 {
      k, m' := Then(img, m, k, m', Ldr(X11, X9));
      k, m' := Then(img, m, k, m', AluReg(Add, X10, X10, X11));
    }
  }

  lemma ElementAddressOk(img: Image, m: Machine) returns (k: nat, m': Machine)
    requires Located(img, m.pc, ElementAddress()) && !m.trapped
    ensures m' == Run(img, m, k) && m'.pc == m.pc + 4 && BodyEffect(m, m')
    ensures Get(m', X9) == Wrap(Get(m, X9) + Wrap(Wrap(Get(m, X10) + 1) * 8))
  {
    var c := ElementAddress();
    assert c[0] == AddImm(X10, X10, 1) && c[1] == MovImm(X11, 8);
    assert c[2] == AluReg(Mul, X10, X10, X11) && c[3] == AluReg(Add, X9, X9, X10);
    k, m' := Then(img, m, 0, m, AddImm(X10, X10, 1));
    k, m' := Then(img, m, k, m', MovImm(X11, 8));
    k, m' := Then(img, m, k, m', AluReg(Mul, X10, X10, X11));
    k, m' := Then(img, m, k, m', AluReg(Add, X9, X9, X10));
  }

  // X9 := the address of the element that X10 names, counting a negative index from the end.
  lemma ElementOk(img: Image, l: int, m: Machine) returns (k: nat, m': Machine)
    requires Located(img, m.pc, WrapNegativeIndex(l) + ElementAddress()) && LabelsAt(img, m.pc, l, [4]) && !m.trapped
    ensures m' == Run(img, m, k) && m'.pc == m.pc + 8 && BodyEffect(m, m')
    ensures Get(m', X9) == ElemAddr(m.heap, Get(m, X9), Get(m, X10))
  {
    LocatedSplit(img, m.pc, WrapNegativeIndex(l), ElementAddress());
    var m1, j;
    k, m1 := WrapNegativeOk(img, l, m);
    j, m' := ElementAddressOk(img, m1);
    RunCompose(img, m, k, j);
    k := k + j;
  }

  lemma IndexOk(img: Image, l: int, m: Machine) returns (k: nat, m': Machine)
    requires Located(img, m.pc, BinCode(BIndex, l)) && LabelsAt(img, m.pc, l, [4]) && !m.trapped
    ensures m' == Run(img, m, k) && m'.pc == m.pc + 9 && BodyEffect(m, m')
    ensures Get(m', X9) == HeapAt(m.heap, ElemAddr(m.heap, Get(m, X9), Get(m, X10)))
  {
    LocatedSplit(img, m.pc, WrapNegativeIndex(l) + ElementAddress(), [Ldr(X9, X9)]);
    assert [Ldr(X9, X9)][0] == Ldr(X9, X9);
    k, m' := ElementOk(img, l, m);
    k, m' := Then(img, m, k, m', Ldr(X9, X9));
  }

  // X11 := quotient, X9 := remainder of the truncating division.
  lemma DivideOk(img: Image, m: Machine) returns (k: nat, m': Machine)
    requires Located(img, m.pc, [AluReg(Sdiv, X11, X9, X10), Msub(X9, X11, X10, X9)]) && !m.trapped && Get(m, X10) != 0
    ensures m' == Run(img, m, k) && m'.pc == m.pc + 2 && BodyEffect(m, m') && Get(m', X10) == Get(m, X10)
    ensures var a, b, r := Get(m, X9), Get(m, X10), Get(m', X9);
      a == TruncDiv(a, b) * b + r && Abs(r) < Abs(b) && (r != 0 ==> (r < 0) == (a < 0))
  {
    var a, b := Get(m, X9), Get(m, X10);
    var r := TruncRemainder(a, b);
    WrapRemainder(a, b, r);
    var c := [AluReg(Sdiv, X11, X9, X10), Msub(X9, X11, X10, X9)];
    assert c[0] == AluReg(Sdiv, X11, X9, X10) && c[1] == Msub(X9, X11, X10, X9);
    k, m' := Then(img, m, 0, m, AluReg(Sdiv, X11, X9, X10));
    k, m' := Then(img, m, k, m', Msub(X9, X11, X10, X9));
  }

  // What the tail of MOD adds to a truncating remainder makes it the floor modulo.
  lemma ModValue(a: Word, b: Word, r: Word)
    requires b != 0 && a == TruncDiv(a, b) * b + r && Abs(r) < Abs(b) && (r != 0 ==> (r < 0) == (a < 0))
    ensures FloorMod(a, b) == if r == 0 || (r < 0) == (b < 0) then r else Wrap(r + b)
  {
    var q := TruncDiv(a, b);
    if r == 0 || (r < 0) == (b < 0) {
      ModUnique(a, b, q, r);
    } else {
      assert (q - 1) * b == q * b - b;
      ModUnique(a, b, q - 1, r + b);
      WrapId(r + b);
    }
  }

  // The sign test leaves X9 alone and skips the addition when the signs agree.
  lemma SignTestOk(img: Image, l: int, m: Machine, m1: Machine) returns (k: nat, m': Machine)
    requires Located(img, m.pc, ModTail(l)) && LabelsAt(img, m.pc, l, [5]) && !m1.trapped
    requires m1 == Run(img, m, 1) && m1 == m.(pc := m.pc + 1)
    ensures m' == Run(img, m, k) && BodyEffect(m, m') && Get(m', X9) == Get(m, X9) && Get(m', X10) == Get(m, X10)
    ensures m'.pc == if (Get(m, X9) < 0) == (Get(m, X10) < 0) then m.pc + 5 else m.pc + 4
  {
    XorSign(Get(m, X9), Get(m, X10));
    var c := ModTail(l);
    assert c[1] == AluReg(Logic(BitXor), X11, X9, X10) && c[2] == Cmp(X11, XZR) && c[3] == BCond(GE, l);
    k, m' := Then(img, m, 1, m1, AluReg(Logic(BitXor), X11, X9, X10));
    k, m' := Then(img, m, k, m', Cmp(X11, XZR));
    k, m' := Then(img, m, k, m', BCond(GE, l));
  }

  // A remainder whose sign differs from the divisor's gets the divisor added.
  lemma SignFixOk(img: Image, l: int, m: Machine, m1: Machine) returns (k: nat, m': Machine)
    requires Located(img, m.pc, ModTail(l)) && LabelsAt(img, m.pc, l, [5]) && !m1.trapped
    requires m1 == Run(img, m, 1) && m1 == m.(pc := m.pc + 1)
    ensures m' == Run(img, m, k) && m'.pc == m.pc + 5 && BodyEffect(m, m')
    ensures var r, b := Get(m, X9), Get(m, X10); Get(m', X9) == if (r < 0) == (b < 0) then r else Wrap(r + b)
  {
    k, m' := SignTestOk(img, l, m, m1);
    if (Get(m, X9) < 0) != (Get(m, X10) < 0) {
      assert ModTail(l)[4] == AluReg(Add, X9, X9, X10);
      k, m' := Then(img, m, k, m', AluReg(Add, X9, X9, X10));
    }
  }

  // The zero test and the sign test at the end of MOD.
  lemma ModTailOk(img: Image, l: int, m: Machine) returns (k: nat, m': Machine)
    requires Located(img, m.pc, ModTail(l)) && LabelsAt(img, m.pc, l, [5]) && !m.trapped
    ensures m' == Run(img, m, k) && m'.pc == m.pc + 5 && BodyEffect(m, m')
    ensures var r, b := Get(m, X9), Get(m, X10); Get(m', X9) == if r == 0 || (r < 0) == (b < 0) then r else Wrap(r + b)
  {
    assert ModTail(l)[0] == Cbz(X9, l);
    k, m' := Then(img, m, 0, m, Cbz(X9, l));
    if Get(m, X9) != 0 {
      k, m' := SignFixOk(img, l, m, m');
    }
  }

  lemma ModOk(img: Image, l: int, m: Machine) returns (k: nat, m': Machine)
    requires Located(img, m.pc, BinCode(BMod, l)) && LabelsAt(img, m.pc, l, [2, 9]) && !m.trapped
    ensures m' == Run(img, m, k)
    ensures Get(m, X10) == 0 ==> m'.trapped && m' == m.(pc := m'.pc, trapped := true)
    ensures Get(m, X10) != 0 ==>
      m'.pc == m.pc + 9 && BodyEffect(m, m') && Get(m', X9) == FloorMod(Get(m, X9), Get(m, X10))
  {
    var divide := [AluReg(Sdiv, X11, X9, X10), Msub(X9, X11, X10, X9)];
    LocatedSplit(img, m.pc, DivZeroGuard(l) + divide, ModTail(l - 1));
    LocatedSplit(img, m.pc, DivZeroGuard(l), divide);
    k, m' := GuardOk(img, l, m);
    if Get(m, X10) != 0 {
      var m1, m2, i, j := m', m', 0, 0;
      i, m2 := DivideOk(img, m1);
      j, m' := ModTailOk(img, l - 1, m2);
      RunCompose(img, m, k, i);
      RunCompose(img, m, k + i, j);
      k := k + i + j;
      ModValue(Get(m, X9), Get(m, X10), Get(m2, X9));
    }
  }

  lemma IdivOk(img: Image, l: int, m: Machine) returns (k: nat, m': Machine)
    requires Located(img, m.pc, BinCode(BIdiv, l)) && LabelsAt(img, m.pc, l, [2]) && !m.trapped
    ensures m' == Run(img, m, k)
    ensures Get(m, X10) == 0 ==> m'.trapped && m' == m.(pc := m'.pc, trapped := true)
    ensures Get(m, X10) != 0 ==>
      m'.pc == m.pc + 3 && BodyEffect(m, m') && Get(m', X9) == Wrap(TruncDiv(Get(m, X9), Get(m, X10)))
  {
    LocatedSplit(img, m.pc, DivZeroGuard(l), [AluReg(Sdiv, X9, X9, X10)]);
    assert [AluReg(Sdiv, X9, X9, X10)][0] == AluReg(Sdiv, X9, X9, X10);
    k, m' := GuardOk(img, l, m);
    if Get(m, X10) != 0 {
      k, m' := Then(img, m, k, m', AluReg(Sdiv, X9, X9, X10));
    }
  }

  lemma XsubOk(img: Image, l: int, m: Machine) returns (k: nat, m': Machine)
    requires Located(img, m.pc, BinCode(BXsub, l)) && LabelsAt(img, m.pc, l, [4]) && !m.trapped
    ensures m' == Run(img, m, k) && m'.pc == m.pc + 5 && BodyEffect(m, m')
    ensures Get(m', X9) == Wrap(Abs(Wrap(Get(m, X9) - Get(m, X10))) + 1)
  {
    LocatedSplit(img, m.pc, [AluReg(Sub, X9, X9, X10)] + AbsCode(l), [AddImm(X9, X9, 1)]);
    LocatedSplit(img, m.pc, [AluReg(Sub, X9, X9, X10)], AbsCode(l));
    assert [AluReg(Sub, X9, X9, X10)][0] == AluReg(Sub, X9, X9, X10) && [AddImm(X9, X9, 1)][0] == AddImm(X9, X9, 1);
    k, m' := Then(img, m, 0, m, AluReg(Sub, X9, X9, X10));
    XsubValue(Get(m', X9));
    var j, m1 := 0, m';
    j, m' := AbsOk(img, l, m1);
    RunCompose(img, m, k, j);
    k, m' := Then(img, m, k + j, m', AddImm(X9, X9, 1));
  }

  // Wrapping the magnitude before adding one makes no difference.
  lemma XsubValue(d: Word)
    ensures Wrap(Wrap(Abs(d)) + 1) == Wrap(Abs(d) + 1)
  {
  }

  lemma LogicOk(img: Image, op: BitOp, p: bool, q: bool, m: Machine) returns (m': Machine)
    requires At(img, m.pc, AluReg(Logic(op), X9, X9, X10)) && !m.trapped && Get(m, X9) == Flag(p) &&
      Get(m, X10) == Flag(q)
    ensures m' == Run(img, m, 1) && m'.pc == m.pc + 1 && BodyEffect(m, m')
    ensures Get(m', X9) == Flag(TruthOf(match op case BitAnd => TAnd case BitOr => TOr case BitXor => TXor, p, q))
  {
    BitwiseFlags(op, p, q);
    var k;
    k, m' := Then(img, m, 0, m, AluReg(Logic(op), X9, X9, X10));
  }

  lemma XnorOk(img: Image, p: bool, q: bool, m: Machine) returns (k: nat, m': Machine)
    requires Located(img, m.pc, TruthCode(TXnor)) && !m.trapped && Get(m, X9) == Flag(p) && Get(m, X10) == Flag(q)
    ensures m' == Run(img, m, k) && m'.pc == m.pc + 3 && BodyEffect(m, m') && Get(m', X9) == Flag(p == q)
  {
    var first := [AluReg(Logic(BitXor), X9, X9, X10)];
    LocatedSplit(img, m.pc, first, FlagCode(X9, EQ));
    assert TruthCode(TXnor)[0] == first[0];
    var m1 := LogicOk(img, BitXor, p, q, m);
    k, m' := FlagOk(img, X9, EQ, m1);
    RunCompose(img, m, 1, k);
    k := k + 1;
  }

  lemma TruthOpOk(img: Image, t: Truth, p: bool, q: bool, m: Machine) returns (k: nat, m': Machine)
    requires Located(img, m.pc, TruthCode(t)) && !m.trapped && Get(m, X9) == Flag(p) && Get(m, X10) == Flag(q)
    ensures m' == Run(img, m, k) && m'.pc == m.pc + |TruthCode(t)| && BodyEffect(m, m')
    ensures Get(m', X9) == Flag(TruthOf(t, p, q))
  {
    if t.TXnor? {
      k, m' := XnorOk(img, p, q, m);
    } else {
      var op := match t case TAnd => BitAnd case TOr => BitOr case _ => BitXor;
      assert TruthCode(t)[0] == AluReg(Logic(op), X9, X9, X10);
      m' := LogicOk(img, op, p, q, m);
      k := 1;
    }
  }

  lemma TruthOk(img: Image, t: Truth, p: bool, m: Machine) returns (k: nat, m': Machine)
    requires Located(img, m.pc, FlagCode(X10, NE) + TruthCode(t)) && !m.trapped && Get(m, X9) == Flag(p)
    ensures m' == Run(img, m, k) && m'.pc == m.pc + 2 + |TruthCode(t)| && BodyEffect(m, m')
    ensures Get(m', X9) == Flag(TruthOf(t, p, Get(m, X10) != 0))
  {
    LocatedSplit(img, m.pc, FlagCode(X10, NE), TruthCode(t));
    var m1, j;
    k, m1 := FlagOk(img, X10, NE, m);
    j, m' := TruthOpOk(img, t, p, Get(m, X10) != 0, m1);
    RunCompose(img, m, k, j);
    k := k + j;
  }

  lemma CompareOk(img: Image, c: Cond, m: Machine) returns (k: nat, m': Machine)
    requires Located(img, m.pc, [Cmp(X9, X10), Cset(X9, c)]) && !m.trapped
    ensures m' == Run(img, m, k) && m'.pc == m.pc + 2 && BodyEffect(m, m')
    ensures Get(m', X9) == Flag(Holds(c, Get(m, X9), Get(m, X10)))
  {
    assert [Cmp(X9, X10), Cset(X9, c)][0] == Cmp(X9, X10) && [Cmp(X9, X10), Cset(X9, c)][1] == Cset(X9, c);
    k, m' := Then(img, m, 0, m, Cmp(X9, X10));
    k, m' := Then(img, m, k, m', Cset(X9, c));
  }

  // Every binary operator: the IR value in X9, or a trap exactly when the IR traps.
  lemma BinOk(img: Image, op: BinOp, l: int, a: Word, m: Machine) returns (k: nat, m': Machine)
    requires Located(img, m.pc, BinCode(op, l)) && LabelsAt(img, m.pc, l, BinLabels(op)) && !m.trapped
    requires Get(m, X9) == if op.BTruth? then Flag(a != 0) else a
    ensures m' == Run(img, m, k)
    ensures match BinVal(op, a, Get(m, X10), m.heap)
      case Some(v) => m'.pc == m.pc + |BinCode(op, l)| && BodyEffect(m, m') && Get(m', X9) == v
      case None => m'.trapped && m' == m.(pc := m'.pc, trapped := true)
  {
    match op {
      case BAlu(alu) =>
        assert BinCode(op, l)[0] == AluReg(alu, X9, X9, X10);
        k, m' := Then(img, m, 0, m, AluReg(alu, X9, X9, X10));
      case BIdiv => k, m' := IdivOk(img, l, m);
      case BMod => k, m' := ModOk(img, l, m);
      case BXsub => k, m' := XsubOk(img, l, m);
      case BTruth(t) => k, m' := TruthOk(img, t, a != 0, m);
      case BCmp(c) => k, m' := CompareOk(img, c, m);
      case BIndex => k, m' := IndexOk(img, l, m);
    }
  }
}
