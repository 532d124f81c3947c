/** Integer to text and back, as the two runtime routines do it on a fresh 32-byte block. */
module IntText {
  import Alloc
  import opened CText
  import opened Numbers

  // Division as the processor does it, toward zero.
  function Quot10(x: int): int {
    if x >= 0 then x / 10 else -((-x) / 10)
  }

  function Rem10(x: int): (r: int)
    ensures -10 < r < 10 && (x >= 0 ==> r >= 0) && (x <= 0 ==> r <= 0)
  {
    x - Quot10(x) * 10
  }

  // The characters the loop leaves for x, most significant first; below '0' when x is negative.
  function Digits(x: int): (t: Text)
    ensures |t| > 0 && 0 !in t
    decreases if x >= 0 then x else -x
  {
    if Quot10(x) == 0 then [48 + Rem10(x)] else Digits(Quot10(x)) + [48 + Rem10(x)]
  }

  // The magnitude after the sign test: only -2^63 stays negative.
  function Magnitude(n: Word): Word {
    if n >= 0 then n else Wrap(0 - n as int)
  }

  function TextOf(n: Word): Text {
    (if n >= 0 then [] else [45]) + Digits(Magnitude(n))
  }

  // What the reading loop makes of the characters, from x10 on.
  function ReadFrom(x10: Word, t: Text): Word
    decreases |t|
  {
    if t == [] then x10 else ReadFrom(NextValue(x10, t[0]), t[1..])
  }

  // One turn of the reading loop.
  function NextValue(x10: Word, c: Byte): Word {
    Wrap(Wrap(x10 as int * 10) + (c as int - 48))
  }

  function ReadInt(t: Text): Word {
    if t != [] && t[0] == 45 then Wrap(0 - ReadFrom(0, t[1..]) as int) else ReadFrom(0, t)
  }

  lemma WrapSame(x: int)
    requires -TWO63 <= x < TWO63
    ensures Wrap(x) == x
  {
  }

  lemma WrapShift(x: int, y: int)
    ensures Wrap(Wrap(x) + y) == Wrap(x + y)
  {
    var q := (x + TWO63) / TWO64;
    assert Wrap(x) == x - q * TWO64;
    assert (x + y - q * TWO64 + TWO63) % TWO64 == (x + y + TWO63) % TWO64;
  }

  lemma {:induction false} ReadSnoc(x10: Word, t: Text, c: Byte)
    ensures ReadFrom(x10, t + [c]) == NextValue(ReadFrom(x10, t), c)
    decreases |t|
  {
    if t == [] {
      assert t + [c] == [c] && [c][1..] == [];
    } else {
      assert (t + [c])[1..] == t[1..] + [c];
      ReadSnoc(NextValue(x10, t[0]), t[1..], c);
    }
  }

  lemma {:induction false} DigitsRead(x: int)
    requires -TWO63 <= x < TWO63
    ensures ReadFrom(0, Digits(x)) == x
    decreases if x >= 0 then x else -x
  {
    var q, r := Quot10(x), Rem10(x);
    if q == 0 {
      assert Digits(x) == [48 + r] && [48 + r][1..] == [];
      WrapSame(r);
    } else {
      DigitsRead(q);
      ReadSnoc(0, Digits(q), 48 + r);
      WrapShift(q * 10, r);
      WrapSame(x);
    }
  }

  lemma FirstDigit(x: int)
    ensures Digits(x)[0] != 45 || x < 0
    decreases if x >= 0 then x else -x
  {
    if Quot10(x) != 0 {
      FirstDigit(Quot10(x));
    }
  }

  /** Text and back is the identity on all 64-bit integers, the smallest one included. */
  lemma RoundTrip(n: Word)
    ensures ReadInt(TextOf(n)) == n
  {
    var m := Magnitude(n);
    DigitsRead(m);
    if n >= 0 {
      FirstDigit(m);
      assert TextOf(n) == Digits(m);
    } else {
      assert TextOf(n)[1..] == Digits(m);
      NegateTwice(n);
    }
  }

  lemma NegateTwice(n: Word)
    ensures Wrap(0 - Wrap(0 - n as int) as int) == n
  {
    if n == -TWO63 {
      assert Wrap(0 - n as int) == -TWO63;
    } else {
      WrapSame(0 - n as int);
    }
  }

  predicate IsDigit(c: Byte) {
    '0' <= c as char <= '9'
  }

  // A decimal numeral: digits with an optional minus sign.
  predicate Numeral(t: Text) {
    WithoutSign(t) != [] && DigitText(WithoutSign(t))
  }

  predicate Signed(t: Text) {
    t != [] && t[0] as char == '-'
  }

  function WithoutSign(t: Text): Text {
    if Signed(t) then t[1..] else t
  }

  // What characters stand for in decimal, the last one for units.
  function Decimal(t: Text): int {
    if t == [] then 0 else 10 * Decimal(t[..|t| - 1]) + (t[|t| - 1] as char as int - '0' as int)
  }

  predicate DigitText(t: Text) {
    forall i :: 0 <= i < |t| ==> IsDigit(t[i])
  }

  lemma {:induction false} DigitsAreDigits(x: int)
    requires x >= 0
    ensures DigitText(Digits(x))
    decreases x
  {
    if Quot10(x) != 0 {
      DigitsAreDigits(Quot10(x));
    }
  }

  lemma NotNumeral(t: Text, i: nat)
    requires t != [] && t[0] == 45 && 0 < i < |t| && !IsDigit(t[i])
    ensures !Numeral(t)
  {
    assert WithoutSign(t)[i - 1] == t[i];
  }

  /** The text is a decimal numeral for every integer but -2^63, whose digits come out below '0'. */
  lemma NumeralUnlessSmallest(n: Word)
    ensures Numeral(TextOf(n)) <==> n != -TWO63
  {
    var ds := Digits(Magnitude(n));
    if n >= 0 {
      assert TextOf(n) == ds;
      DigitsAreDigits(n);
      FirstDigit(n);
    } else if n != -TWO63 {
      WrapSame(0 - n as int);
      DigitsAreDigits(0 - n as int);
      assert TextOf(n)[1..] == ds;
    } else {
      assert Magnitude(n) == -TWO63 && Rem10(-TWO63) == -8 && ds[|ds| - 1] == 40;
      assert TextOf(n)[|ds|] == ds[|ds| - 1];
      NotNumeral(TextOf(n), |ds|);
    }
  }

  lemma {:induction false} DigitsDecimal(x: int)
    requires x >= 0
    ensures Decimal(Digits(x)) == x && (x > 0 ==> Digits(x)[0] as char != '0')
    decreases x
  {
    var q, last := Quot10(x), 48 + Rem10(x);
    if q == 0 {
      assert [last][..0] == [];
    } else {
      DigitsDecimal(q);
      assert Digits(x)[..|Digits(x)| - 1] == Digits(q);
    }
  }

  /** The text of every integer but -2^63 is its decimal numeral: its value in decimal, a minus sign exactly when it is
      negative, and no 0 in front. */
  lemma TextIsDecimal(n: Word)
    requires n != -TWO63
    ensures Signed(TextOf(n)) <==> n < 0
    ensures Decimal(WithoutSign(TextOf(n))) == if n < 0 then 0 - n else n
    ensures n != 0 ==> WithoutSign(TextOf(n))[0] as char != '0'
  {
    var m := Magnitude(n);
    assert m == if n < 0 then 0 - n else n;
    DigitsDecimal(m);
    FirstDigit(m);
    if n >= 0 {
      assert TextOf(n) == Digits(m);
    } else {
      assert TextOf(n)[1..] == Digits(m);
    }
  }

  lemma WrapTen(x: int)
    ensures Wrap(Wrap(x) * 10) == Wrap(x * 10)
  {
    var q := (x + TWO63) / TWO64;
    assert Wrap(x) == x - q * TWO64;
    assert (x * 10 - 10 * q * TWO64 + TWO63) % TWO64 == (x * 10 + TWO63) % TWO64;
  }

  lemma {:induction false} ReadDecimal(t: Text)
    ensures ReadFrom(0, t) == Wrap(Decimal(t))
  {
    if t != [] {
      var front, c := t[..|t| - 1], t[|t| - 1];
      ReadDecimal(front);
      assert t == front + [c];
      ReadSnoc(0, front, c);
      WrapTen(Decimal(front));
      WrapShift(Decimal(front) * 10, c as int - 48);
    }
  }

  /** Any text, whether a numeral or not, reads as its value in decimal modulo 2^64, negated behind a minus sign. */
  lemma ReadExact(t: Text)
    ensures ReadInt(t) == Wrap(if Signed(t) then 0 - Decimal(t[1..]) else Decimal(t))
  {
    if Signed(t) {
      ReadDecimal(t[1..]);
      WrapNegate(Decimal(t[1..]));
    } else {
      ReadDecimal(t);
    }
  }

  lemma WrapNegate(x: int)
    ensures Wrap(0 - Wrap(x) as int) == Wrap(0 - x)
  {
    var q := (x + TWO63) / TWO64;
    assert Wrap(x) == x - q * TWO64;
    assert (0 - x + q * TWO64 + TWO63) % TWO64 == (0 - x + TWO63) % TWO64;
  }

  lemma {:induction false} DigitsLength(x: int, k: nat)
    requires x < Pow10(k) && 0 - x < Pow10(k) && k > 0
    ensures |Digits(x)| <= k
    decreases k
  {
    if Quot10(x) != 0 {
      DigitsLength(Quot10(x), k - 1);
    }
  }

  lemma AtMostNineteen(x: Word)
    ensures |Digits(x)| <= 19
  {
    assert Pow10(3) == 1000;
    assert Pow10(5) == 100000;
    assert Pow10(7) == 10000000;
    assert Pow10(9) == 1000000000;
    assert Pow10(11) == 100000000000;
    assert Pow10(13) == 10000000000000;
    assert Pow10(15) == 1000000000000000;
    assert Pow10(17) == 100000000000000000;
    assert Pow10(19) == 10000000000000000000;
    DigitsLength(x, 19);
  }

  // ---- The routines ----

  const BLOCK: nat := 32

  lemma DigitsSplit(x: int)
    ensures Digits(x) == if Quot10(x) == 0 then [48 + Rem10(x)] else Digits(Quot10(x)) + [48 + Rem10(x)]
  {
  }

  // The digits of x, backwards from the 31st byte of the block.
  method WriteDigits(mem: array<Byte>, block: nat, x: Word) returns (x10: nat)
    requires block + BLOCK <= mem.Length
    modifies mem
    ensures x10 == block + BLOCK - 2 - |Digits(x)| && |Digits(x)| <= 19
    ensures mem[x10 + 1..block + BLOCK - 1] == Digits(x)
    ensures forall i :: 0 <= i < mem.Length && !(block < i < block + BLOCK - 1) ==> mem[i] == old(mem[i])
  {
    AtMostNineteen(x);
    x10 := block + 30;
    var x12: int := x;
    ghost var text, done: Text := Digits(x), [];
    while true
      invariant text == Digits(x12) + done && x10 == block + 30 - |done|
      invariant mem[x10 + 1..block + BLOCK - 1] == done
      invariant forall i :: 0 <= i < mem.Length && !(block < i < block + BLOCK - 1) ==> mem[i] == old(mem[i])
      decreases if x12 >= 0 then x12 else -x12
    {
      DigitsSplit(x12);
      var q := Quot10(x12);
      var r := x12 - q * 10;
      ghost var before := mem[x10 + 1..block + BLOCK - 1];
      mem[x10] := 48 + r;
      assert mem[x10 + 1..block + BLOCK - 1] == before;
      done := [48 + r] + done;
      x10 := x10 - 1;
      x12 := q;
      if x12 == 0 {
        return;
      }
    }
  }

  /** Writes the text of n backwards, ending at the 31st byte of the block; the only NUL it stores is at the
      block's first byte, so the text is terminated exactly when the last byte of the block was 0. */
  method WriteCstr(mem: array<Byte>, block: nat, n: Word) returns (x0: nat)
    requires block + BLOCK <= mem.Length
    modifies mem
    ensures x0 == block + BLOCK - 1 - |TextOf(n)| && block < x0
    ensures mem[x0..block + BLOCK - 1] == TextOf(n)
    ensures mem[block + BLOCK - 1] == old(mem[block + BLOCK - 1])
    ensures TextAt(mem[..], x0, TextOf(n)) <==> old(mem[block + BLOCK - 1]) == 0
    ensures forall i :: 0 <= i < mem.Length && !(block <= i < block + BLOCK - 1) ==> mem[i] == old(mem[i])
  {
    var x12: int, x13 := n, 0;
    if x12 < 0 {
      x13 := 1;
      x12 := Wrap(0 - x12);
    }
    var x10 := WriteDigits(mem, block, x12);
    if x13 != 0 {
      ghost var digits := mem[x10 + 1..block + BLOCK - 1];
      mem[x10] := 45;
      assert mem[x10..block + BLOCK - 1] == [45] + digits;
      x10 := x10 - 1;
    }
    x10 := x10 + 1;
    assert mem[x10..block + BLOCK - 1] == TextOf(n);
    mem[block] := 0;
    x0 := x10;
    TextEnds(mem[..], x0, TextOf(n));
  }

  lemma TextEnds(mem: seq<Byte>, a: nat, t: Text)
    requires a + |t| < |mem| && mem[a..a + |t|] == t && 0 !in t
    ensures TextAt(mem, a, t) <==> mem[a + |t|] == 0
  {
  }

  /** Reads a text back: an optional minus sign, then every byte as a digit. */
  method CstrToInt(mem: array<Byte>, a: nat, ghost t: Text) returns (x0: Word)
    requires TextAt(mem[..], a, t)
    ensures x0 == ReadInt(t)
  {
    var x9, x10: Word, x11 := a, 0, 1;
    CharAt(mem[..], a, t, 0);
    if mem[x9] == 45 {
      x11 := -1;
      x9 := x9 + 1;
    }
    ghost var first := x9 - a;
    ghost var digits := t[first..];
    while true
      invariant a + first <= x9 <= a + |t| && ReadFrom(x10, t[x9 - a..]) == ReadFrom(0, digits)
      decreases a + |t| - x9
    {
      CharAt(mem[..], a, t, x9 - a);
      var x12 := mem[x9];
      if x12 == 0 {
        break;
      }
      assert t[x9 - a..][1..] == t[x9 + 1 - a..];
      x10 := NextValue(x10, x12);
      x9 := x9 + 1;
    }
    assert t[x9 - a..] == [];
    x0 := if x11 >= 0 then x10 else Wrap(0 - x10 as int);
    assert first == 0 ==> digits == t;
  }

  /** The text of n in a block of its own, NUL-terminated because a new block reads as zeros. What the older blocks hold
      is left alone. */
  method IntToCstr(heap: Alloc.Allocator, base: nat, n: Word) returns (x0: nat)
    requires heap.Valid() && heap.Room(BLOCK, base)
    modifies heap, heap.mem
    ensures heap.Valid() && heap.View() == Alloc.Allocated(old(heap.View()), BLOCK, base)
    ensures TextAt(heap.mem[..], x0, TextOf(n))
    ensures forall a :: 0 <= a < heap.mem.Length && Alloc.Given(old(heap.View()), a) ==> heap.mem[a] == old(heap.mem[a])
  {
    ghost var old0 := heap.blocks;
    var block := heap.Alloc(BLOCK, base);
    ghost var h, mem := heap.View(), heap.mem[..];
    x0 := WriteCstr(heap.mem, block, n);
    OnlyOwnBlock(h, old0, block, mem, heap.mem[..]);
  }

  // A write inside the newest block only.
  lemma OnlyOwnBlock(h: Alloc.Heap, older: seq<Alloc.Region>, block: nat, mem: seq<Byte>, mem': seq<Byte>)
    requires Alloc.Clean(h, mem) && |mem'| == |mem| && h.blocks == older + [Alloc.Region(block, BLOCK)]
    requires forall i :: 0 <= i < |mem| && !(block <= i < block + BLOCK - 1) ==> mem'[i] == mem[i]
    requires forall i :: 0 <= i < |older| ==> Alloc.Apart(older[i], Alloc.Region(block, BLOCK))
    ensures Alloc.Clean(h, mem')
    ensures forall a, i :: 0 <= a < |mem| && 0 <= i < |older| && Alloc.Holds(older[i], a) ==> mem'[a] == mem[a]
  {
    forall a | 0 <= a < |mem| && mem'[a] != mem[a] ensures Alloc.Given(h, a) {
      assert Alloc.Holds(h.blocks[|older|], a);
    }
    Alloc.WritesKeepClean(h, mem, mem');
  }

  /** Both routines together, on any heap in any state the allocator can leave it in. */
  method ThereAndBack(heap: Alloc.Allocator, base: nat, n: Word) returns (x0: Word)
    requires heap.Valid() && heap.Room(BLOCK, base)
    modifies heap, heap.mem
    ensures x0 == n && heap.Valid()
  {
    var a := IntToCstr(heap, base, n);
    x0 := CstrToInt(heap.mem, a, TextOf(n));
    RoundTrip(n);
  }
}
