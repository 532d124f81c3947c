/** What the operators of the IR compute, in plain arithmetic: sums, products and shifts modulo 2^64, bits one by one,
    quotients and remainders by their defining equations, comparisons and truth values as 0 and 1, and list elements by
    their place in memory. */
module ArmOperators {
  import opened ArmMachine
  import opened ArmIr
  import opened ArmOps
  import opened Numbers
  import opened Options

  // ---- Sums, differences, products ----

  lemma WrapExact(x: int) returns (k: int)
    ensures Wrap(x) == x + k * TWO64
  {
    k := -((x + TWO63) / TWO64);
  }

  // v is x up to a multiple of 2^64, which leaves one word.
  ghost predicate Congruent(v: Word, x: int) {
    exists k: int :: Carries(v, x, k)
  }

  predicate Carries(v: Word, x: int, k: int) {
    v == x + k * 0x1_0000_0000_0000_0000
  }

  lemma WrapCongruent(x: int)
    ensures Congruent(Wrap(x), x)
  {
    var k := WrapExact(x);
    assert Carries(Wrap(x), x, k);
  }

  // No two words are congruent to the same number.
  lemma CongruentOnce(v: Word, u: Word, x: int)
    requires Congruent(v, x) && Congruent(u, x)
    ensures v == u
  {
    var j :| Carries(v, x, j);
    var k :| Carries(u, x, k);
  }

  // ---- Bits ----

  // Binary digit k of x.
  predicate Digit(x: nat, k: nat) {
    x / Pow2(k) % 2 == 1
  }

  lemma DigitHalf(x: nat, k: nat)
    requires k > 0
    ensures Digit(x, k) <==> Digit(x / 2, k - 1)
  {
    DivDiv(x, 2, Pow2(k - 1));
  }

  predicate Joined(op: BitOp, p: bool, q: bool) {
    match op
    case BitAnd => p && q
    case BitOr => p || q
    case BitXor => p != q
  }

  lemma {:induction false} BitwiseDigit(op: BitOp, x: nat, y: nat, n: nat, k: nat)
    requires k < n
    ensures Digit(Bitwise(op, x, y, n), k) <==> Joined(op, Digit(x, k), Digit(y, k))
    decreases k
  {
    var z := Bitwise(op, x, y, n);
    assert z == Bit(op, x % 2, y % 2) + 2 * Bitwise(op, x / 2, y / 2, n - 1);
    if k > 0 {
      DigitHalf(z, k);
      DigitHalf(x, k);
      DigitHalf(y, k);
      BitwiseDigit(op, x / 2, y / 2, n - 1, k - 1);
    }
  }

  lemma BitsExact(op: BitOp, a: Word, b: Word, k: nat)
    requires k < 64
    ensures Digit(Unsigned(Alu(Logic(op), a, b)), k) <==> Joined(op, Digit(Unsigned(a), k), Digit(Unsigned(b), k))
  {
    Pow63();
    var z := Bitwise(op, Unsigned(a), Unsigned(b), 64);
    BitwiseTop(op, Unsigned(a), Unsigned(b), 64);
    UnsignedWrap(z);
    BitwiseDigit(op, Unsigned(a), Unsigned(b), 64, k);
  }

  lemma UnsignedWrap(z: nat)
    requires z < TWO64
    ensures Unsigned(Wrap(z)) == z
  {
  }

  lemma {:induction false} Complement(x: nat, n: nat, k: nat)
    requires k < n && x < Pow2(n)
    ensures Digit(Pow2(n) - 1 - x, k) <==> !Digit(x, k)
    decreases k
  {
    var z := Pow2(n) - 1 - x;
    if k > 0 {
      DigitHalf(z, k);
      DigitHalf(x, k);
      assert z / 2 == Pow2(n - 1) - 1 - x / 2;
      Complement(x / 2, n - 1, k - 1);
    }
  }

  // ---- Operators on two operands ----

  /** Sums, differences and products are those of the integers modulo 2^64. */
  lemma ArithmeticExact(a: Word, b: Word, heap: map<int, Word>)
    ensures BinVal(BAlu(Add), a, b, heap).Some? && Congruent(BinVal(BAlu(Add), a, b, heap).value, a + b)
    ensures BinVal(BAlu(Sub), a, b, heap).Some? && Congruent(BinVal(BAlu(Sub), a, b, heap).value, a - b)
    ensures BinVal(BAlu(Mul), a, b, heap).Some? && Congruent(BinVal(BAlu(Mul), a, b, heap).value, a * b)
  {
    WrapCongruent(a + b);
    WrapCongruent(a - b);
    WrapCongruent(a * b);
  }

  // The amount of a shift is the low six bits of the second operand.
  function Amount(b: Word): nat {
    b % 64
  }

  lemma AmountIs(b: Word)
    ensures Unsigned(b) % 64 == Amount(b)
  {
  }

  /** A shift to the left multiplies modulo 2^64; a shift to the right drops the low bits and fills with zeros. */
  lemma ShiftsExact(a: Word, b: Word, heap: map<int, Word>)
    ensures BinVal(BAlu(Lsl), a, b, heap).Some? &&
      Congruent(BinVal(BAlu(Lsl), a, b, heap).value, a * Pow2(Amount(b)))
    ensures BinVal(BAlu(Lsr), a, b, heap).Some? &&
      var u := Unsigned(BinVal(BAlu(Lsr), a, b, heap).value);
      u * Pow2(Amount(b)) <= Unsigned(a) < u * Pow2(Amount(b)) + Pow2(Amount(b))
  {
    AmountIs(b);
    var p := Pow2(Amount(b));
    WrapCongruent(a * p);
    var u := Unsigned(a) / p;
    DivBound(Unsigned(a), p);
    UnsignedWrap(u);
  }

  /** Bitwise operators work on each of the 64 bits alone. */
  lemma LogicExact(op: BitOp, a: Word, b: Word, heap: map<int, Word>, k: nat)
    requires k < 64
    ensures BinVal(BAlu(Logic(op)), a, b, heap).Some?
    ensures Digit(Unsigned(BinVal(BAlu(Logic(op)), a, b, heap).value), k) <==>
      Joined(op, Digit(Unsigned(a), k), Digit(Unsigned(b), k))
  {
    BitsExact(op, a, b, k);
  }

  // a / b is q toward zero, with the remainder r.
  predicate TowardZero(a: int, b: int, q: int, r: int) {
    a == q * b + r && 0 - Magnitude(b) < r < Magnitude(b) && (r > 0 ==> a > 0) && (r < 0 ==> a < 0)
  }

  function Magnitude(x: int): nat {
    if x >= 0 then x else 0 - x
  }

  /** The integer quotient is rounded toward zero, and traps exactly on zero; the one quotient that fits no word comes
      out as its dividend. */
  lemma QuotientExact(a: Word, b: Word, heap: map<int, Word>) returns (r: int)
    ensures BinVal(BIdiv, a, b, heap).None? <==> b == 0
    ensures b != 0 && !(a == -TWO63 && b == -1) ==> TowardZero(a, b, BinVal(BIdiv, a, b, heap).value, r)
    ensures a == -TWO63 && b == -1 ==> BinVal(BIdiv, a, b, heap).value == a
  {
    r := 0;
    if b != 0 {
      r := TruncRemainder(a, b);
      DivBound(Abs(a), Abs(b));
      if !(a == -TWO63 && b == -1) {
        QuotientFits(a, b);
      }
    }
  }

  lemma QuotientFits(a: Word, b: Word)
    requires b != 0 && !(a == -TWO63 && b == -1)
    ensures Wrap(TruncDiv(a, b)) == TruncDiv(a, b)
  {
    DivBound(Abs(a), Abs(b));
    if Abs(b) == 1 {
      assert Abs(a) / 1 == Abs(a);
    }
  }

  /** The modulus differs from the dividend by a multiple of the divisor, has the divisor's sign and is smaller; it
      traps exactly on zero. */
  lemma ModulusExact(a: Word, b: Word, heap: map<int, Word>) returns (q: int)
    ensures BinVal(BMod, a, b, heap).None? <==> b == 0
    ensures b != 0 ==> var r := BinVal(BMod, a, b, heap).value;
      a == q * b + r && (b > 0 ==> 0 <= r < b) && (b < 0 ==> b < r <= 0)
  {
    q := 0;
    if b != 0 {
      q := FloorModQuotient(a, b);
    }
  }

  predicate Compares(c: Cond, a: int, b: int) {
    || (c == EQ && !(a < b) && !(b < a)) || (c == NE && (a < b || b < a))
    || (c == LT && b - a > 0) || (c == GE && b - a <= 0) || (c == GT && a - b > 0) || (c == LE && a - b <= 0)
  }

  predicate Connects(t: Truth, p: bool, q: bool) {
    || (t == TAnd && p && q) || (t == TOr && !(!p && !q)) || (t == TXor && p && !q) || (t == TXor && !p && q)
    || (t == TXnor && p && q) || (t == TXnor && !p && !q)
  }

  /** Comparisons and truth operators give 1 or 0; nonzero operands count as true. */
  lemma TruthExact(c: Cond, t: Truth, a: Word, b: Word, heap: map<int, Word>)
    ensures BinVal(BCmp(c), a, b, heap) == Some(if Compares(c, a, b) then 1 else 0)
    ensures BinVal(BTruth(t), a, b, heap) == Some(if Connects(t, a != 0, b != 0) then 1 else 0)
  {
  }

  lemma WrapBy(x: int, k: int)
    requires -1 <= k <= 1 && -TWO63 <= x + k * TWO64 < TWO63
    ensures Wrap(x) == x + k * TWO64
  {
  }

  lemma DifferenceIs(d: int)
    requires -TWO64 < d < TWO64
    ensures Abs(Wrap(d)) == if Near(d) then Magnitude(d) else TWO64 - Magnitude(d)
  {
    WrapBy(d, if d >= TWO63 then -1 else if d < -TWO63 then 1 else 0);
  }

  lemma DistanceIs(a: Word, b: Word, heap: map<int, Word>)
    ensures BinVal(BXsub, a, b, heap) == Some(Wrap(if Near(a - b) then Magnitude(a - b) + 1
      else TWO64 - Magnitude(a - b) + 1))
  {
    DifferenceIs(a - b);
  }

  predicate Near(d: int) {
    -TWO63 <= d <= TWO63
  }

  /** The distance operator gives one more than the magnitude of the difference, modulo 2^64, exactly when the
      difference lies between -2^63 and 2^63; further apart the operands' difference wraps first. */
  lemma DistanceExact(a: Word, b: Word, heap: map<int, Word>)
    ensures BinVal(BXsub, a, b, heap).Some?
    ensures Congruent(BinVal(BXsub, a, b, heap).value, Magnitude(a - b) + 1) <==> -TWO63 <= a - b <= TWO63
  {
    DistanceIs(a, b, heap);
    var d := Magnitude(a - b);
    if Near(a - b) {
      WrapCongruent(d + 1);
    } else {
      FarApart(d, Wrap(TWO64 - d + 1));
    }
  }

  lemma FarApart(d: nat, v: Word)
    requires TWO63 < d < TWO64 && v == Wrap(TWO64 - d + 1)
    ensures !Congruent(v, d + 1)
  {
    var j := WrapExact(TWO64 - d + 1);
  }

  // ---- Operators on one operand ----

  /** Copying, the two truth tests, the magnitude and the length of a list. */
  lemma UnaryExact(a: Word, heap: map<int, Word>)
    ensures UnVal(UCopy, a, heap) == a
    ensures UnVal(UNot, a, heap) == 1 - UnVal(UBool, a, heap) && (UnVal(UBool, a, heap) == 0 <==> a == 0)
    ensures 0 <= UnVal(UBool, a, heap) <= 1
    ensures a != -TWO63 ==> UnVal(UAbs, a, heap) >= 0 && UnVal(UAbs, a, heap) in {a, -a}
    ensures UnVal(UAbs, -TWO63, heap) == -TWO63
    ensures a in heap ==> UnVal(ULen, a, heap) == heap[a]
  {
  }

  /** The complement turns every bit over. */
  lemma ComplementExact(a: Word, heap: map<int, Word>, k: nat)
    requires k < 64
    ensures Digit(Unsigned(UnVal(UBnot, a, heap)), k) <==> !Digit(Unsigned(a), k)
  {
    Pow63();
    assert Unsigned(UnVal(UBnot, a, heap)) == TWO64 - 1 - Unsigned(a);
    Complement(Unsigned(a), 64, k);
  }

  // ---- List elements ----

  predicate HasWord(heap: map<int, Word>, a: int, v: Word) {
    a in heap && heap[a] == v
  }

  // A list of these words at ptr: its length, and the elements behind it.
  predicate ListAt(heap: map<int, Word>, ptr: int, s: seq<Word>) {
    && ptr in heap && heap[ptr] == |s| && -TWO63 <= ptr && ptr + 8 * (|s| + 1) < TWO63
    && forall k :: 0 <= k < |s| ==> HasWord(heap, ptr + 8 * (k + 1), s[k])
  }

  // The element a valid index names: counted from the end when it is negative.
  function Place(n: nat, i: int): nat
    requires 0 - n <= i < n
  {
    if i < 0 then n + i else i
  }

  lemma AddressExact(heap: map<int, Word>, ptr: Word, s: seq<Word>, i: Word)
    requires ListAt(heap, ptr, s) && -|s| <= i < |s|
    ensures ElemAddr(heap, ptr, i) == ptr + 8 * (Place(|s|, i) + 1)
  {
  }

  /** An index within a list, from either end, reads the element it names. */
  lemma IndexExact(heap: map<int, Word>, ptr: Word, s: seq<Word>, i: Word)
    requires ListAt(heap, ptr, s) && -|s| <= i < |s|
    ensures BinVal(BIndex, ptr, i, heap) == Some(s[Place(|s|, i)])
  {
    AddressExact(heap, ptr, s, i);
    assert HasWord(heap, ptr + 8 * (Place(|s|, i) + 1), s[Place(|s|, i)]);
  }

  lemma Stored(heap: map<int, Word>, ptr: int, s: seq<Word>, k: nat, v: Word)
    requires ListAt(heap, ptr, s) && k < |s|
    ensures ListAt(heap[ptr + 8 * (k + 1) := v], ptr, s[k := v])
  {
    var after, t := heap[ptr + 8 * (k + 1) := v], s[k := v];
    forall j | 0 <= j < |t| ensures HasWord(after, ptr + 8 * (j + 1), t[j]) {
      assert HasWord(heap, ptr + 8 * (j + 1), s[j]);
    }
  }

  /** Storing at an index changes that element of the list and nothing else. */
  lemma StoreExact(p: seq<Instr>, s: State, list: seq<Word>)
    requires !Done(p, s) && p[s.pc].StoreIndex? && var ptr, i := Val(s.env, p[s.pc].arr), Val(s.env, p[s.pc].idx);
      ListAt(s.heap, ptr, list) && -|list| <= i < |list|
    ensures var ptr, i := Val(s.env, p[s.pc].arr), Val(s.env, p[s.pc].idx);
      && var s' := IStep(p, s);
      && s' == s.(pc := s.pc + 1, heap := s'.heap)
      && ListAt(s'.heap, ptr, list[Place(|list|, i) := Val(s.env, p[s.pc].val)])
      && forall a :: a in s.heap && a != ptr + 8 * (Place(|list|, i) + 1) ==> a in s'.heap && s'.heap[a] == s.heap[a]
  {
    var ptr, i := Val(s.env, p[s.pc].arr), Val(s.env, p[s.pc].idx);
    AddressExact(s.heap, ptr, list, i);
    Stored(s.heap, ptr, list, Place(|list|, i), Val(s.env, p[s.pc].val));
  }

  // ---- Jumps ----

  // The label l stands right in front of position i, and nowhere behind it.
  predicate LabelledAt(p: seq<Instr>, l: nat, i: nat) {
    0 < i <= |p| && p[i - 1] == Label(l) && forall j :: i <= j < |p| ==> p[j] != Label(l)
  }

  lemma {:induction false} TargetIs(p: seq<Instr>, l: nat, i: nat, n: nat)
    requires LabelledAt(p, l, i) && i <= n <= |p|
    ensures Target(p, PLabel(l), n) == Some(i)
    decreases n
  {
    if i < n {
      TargetIs(p, l, i, n - 1);
    }
  }

  /** A jump goes behind its label: always, or when the operand is zero, or when it is not. */
  lemma JumpExact(p: seq<Instr>, s: State, l: nat, a: Operand, i: nat)
    requires !Done(p, s) && LabelledAt(p, l, i)
    ensures p[s.pc] == Jump(l) ==> IStep(p, s) == s.(pc := i)
    ensures p[s.pc] == JumpIfFalse(a, l) ==> IStep(p, s) == s.(pc := if Val(s.env, a) == 0 then i else s.pc + 1)
    ensures p[s.pc] == JumpIfTrue(a, l) ==> IStep(p, s) == s.(pc := if Val(s.env, a) == 0 then s.pc + 1 else i)
  {
    TargetIs(p, l, i, |p|);
  }
}
