/** The float printing routine on its stack frame: digit buffer, rounding with carry, and the text it leaves. */
module FloatPrint {
  import opened CText
  import opened FloatRead
  import opened FloatText
  import opened Numbers

  // Frame layout: text at 0, fraction digits at 112, integer digits backwards from 178.
  const FRACTION: nat := 112
  const REVERSE_END: nat := 178
  const FRAME: nat := 192

  // The digits ds stand at position a.
  ghost predicate Holds(mem: seq<Byte>, a: nat, ds: seq<nat>) {
    a + |ds| <= |mem| && forall i :: 0 <= i < |ds| ==> mem[a + i] == ds[i]
  }

  // The text t stands at position a.
  ghost predicate Reads(mem: seq<Byte>, a: nat, t: seq<Byte>) {
    a + |t| <= |mem| && mem[a..a + |t|] == t
  }

  // Digits the fraction keeps beside the integer part: 16 less its digits, at least 0.
  method Budget(x10: nat) returns (x13: int)
    ensures x13 == if DigitCount(x10) <= 16 then 16 - DigitCount(x10) else 0
  {
    var x15 := x10 / 10;
    x13 := 1;
    while x15 != 0
      invariant x15 >= 0 && DigitCount(x10) == x13 + if x15 == 0 then 0 else DigitCount(x15)
    {
      x15 := x15 / 10;
      x13 := x13 + 1;
    }
    x13 := 16 - x13;
    if x13 < 0 {
      x13 := 0;
    }
  }

  /** Fills the digit buffer from the fraction m/2^sh; ten times the rest always fits a register. */
  method Extract(frame: array<Byte>, m: nat, sh: nat)
    requires frame.Length == FRAME && sh <= 60 && m < Pow2(sh)
    modifies frame
    ensures Holds(frame[..], FRACTION, Digits(m, Pow2(sh), LENGTH))
  {
    var s := Pow2(sh);
    var x12, x14, x15 := FRACTION, m, LENGTH;
    while x15 != 0
      invariant 0 <= x15 <= LENGTH && x12 == FRACTION + LENGTH - x15
      invariant x14 == Left(m, s, LENGTH - x15)
      invariant Holds(frame[..], FRACTION, Digits(m, s, LENGTH - x15))
    {
      ghost var i := LENGTH - x15;
      NoOverflow(m, sh, i);
      x14 := x14 * 10;
      assert x14 < 0x1_0000_0000_0000_0000;
      DigitParts(m, s, i);
      var x0 := x14 / s;
      assert x0 == Digit(m, s, i);
      frame[x12] := x0;
      x12 := x12 + 1;
      x14 := x14 % s;
      x15 := x15 - 1;
    }
  }

  // The place of the first digit other than 0, or LENGTH.
  method FirstNonzero(frame: array<Byte>, ghost ds: seq<nat>) returns (x4: nat)
    requires frame.Length == FRAME && |ds| == LENGTH && Holds(frame[..], FRACTION, ds)
    ensures x4 == LeadingZeros(ds)
  {
    x4 := 0;
    while x4 < LENGTH && frame[FRACTION + x4] == 0
      invariant x4 <= LENGTH && LeadingZeros(ds) == x4 + LeadingZeros(ds[x4..])
    {
      assert ds[x4] == 0 && ds[x4..][1..] == ds[x4 + 1..];
      x4 := x4 + 1;
    }
    if x4 < LENGTH {
      assert ds[x4..][0] == ds[x4];
    } else {
      assert ds[x4..] == [];
    }
  }

  method FracKeep(frame: array<Byte>, x10: nat, ghost ds: seq<nat>) returns (x13: nat)
    requires frame.Length == FRAME && |ds| == LENGTH && Holds(frame[..], FRACTION, ds)
    ensures x13 == Keep(x10, ds)
  {
    x13 := Budget(x10);
    if x10 == 0 {
      var x4 := FirstNonzero(frame, ds);
      if x4 == LENGTH {
        x13 := 0;
      } else {
        if x4 > LENGTH - 17 {
          x4 := LENGTH - 17;
        }
        x13 := x4 + 16;
      }
    }
  }

  // ds plus one in its last place: the carry out of it, and the digits.
  function Increment(ds: seq<nat>): (r: (nat, seq<nat>))
    requires AllDigits(ds)
    ensures |r.1| == |ds| && AllDigits(r.1) && r.0 <= 1
  {
    if ds == [] then (1, [])
    else
      var e, d := ds[..|ds| - 1], ds[|ds| - 1];
      if d + 1 < 10 then (0, e + [d + 1]) else (Increment(e).0, Increment(e).1 + [0])
  }

  lemma {:induction false} IncrementValue(ds: seq<nat>)
    requires AllDigits(ds)
    ensures Num(Increment(ds).1) + Increment(ds).0 * Pow10(|ds|) == Num(ds) + 1
  {
    if ds != [] {
      var e := ds[..|ds| - 1];
      if ds[|ds| - 1] + 1 < 10 {
        assert Increment(ds).1[..|ds| - 1] == e;
      } else {
        IncrementValue(e);
        assert Increment(ds).1[..|ds| - 1] == Increment(e).1;
        TenMore(Increment(e).0, Pow10(|e|));
      }
    }
  }

  // The digits from place j on are zero, where ds had nines.
  ghost predicate Carrying(mem: seq<Byte>, ds: seq<nat>, j: nat) {
    && j <= |ds| && AllDigits(ds) && Holds(mem, FRACTION, ds[..j] + Zeros(|ds| - j))
    && Increment(ds).0 == Increment(ds[..j]).0 && Increment(ds).1 == Increment(ds[..j]).1 + Zeros(|ds| - j)
  }

  function Zeros(n: nat): (r: seq<nat>)
    ensures |r| == n && AllZero(r)
  {
    seq(n, i => 0)
  }

  lemma CarryOn(mem: seq<Byte>, mem': seq<Byte>, ds: seq<nat>, j: nat)
    requires Carrying(mem, ds, j) && j > 0 && ds[j - 1] == 9 && |mem| == FRAME && mem' == mem[FRACTION + j - 1 := 0]
    ensures Carrying(mem', ds, j - 1)
  {
    var e := ds[..j];
    assert e[..j - 1] == ds[..j - 1] && e[j - 1] == 9;
    assert Zeros(|ds| - j + 1) == [0] + Zeros(|ds| - j);
    assert Increment(e).1 == Increment(ds[..j - 1]).1 + [0];
    assert Increment(ds).1 == Increment(ds[..j - 1]).1 + Zeros(|ds| - j + 1);
    var before, after := ds[..j] + Zeros(|ds| - j), ds[..j - 1] + Zeros(|ds| - j + 1);
    forall i | 0 <= i < |after| ensures mem'[FRACTION + i] == after[i] {
      assert mem[FRACTION + i] == before[i];
    }
  }

  lemma CarryStops(mem: seq<Byte>, mem': seq<Byte>, ds: seq<nat>, j: nat)
    requires Carrying(mem, ds, j) && j > 0 && ds[j - 1] < 9 && |mem| == FRAME &&
      mem' == mem[FRACTION + j - 1 := ds[j - 1] + 1]
    ensures Holds(mem', FRACTION, Increment(ds).1) && Increment(ds).0 == 0
  {
    var e := ds[..j];
    assert e[..j - 1] == ds[..j - 1] && e[j - 1] == ds[j - 1];
    var before, after := ds[..j] + Zeros(|ds| - j), Increment(ds).1;
    assert Increment(e).1 == ds[..j - 1] + [ds[j - 1] + 1];
    forall i | 0 <= i < |after| ensures mem'[FRACTION + i] == after[i] {
      assert mem[FRACTION + i] == before[i];
    }
  }

  lemma CarryStarts(mem: seq<Byte>, ds: seq<nat>)
    requires AllDigits(ds) && Holds(mem, FRACTION, ds)
    ensures Carrying(mem, ds, |ds|)
  {
    assert ds[..|ds|] == ds && ds + Zeros(0) == ds && Increment(ds).1 + Zeros(0) == Increment(ds).1;
  }

  lemma CarryLeaves(mem: seq<Byte>, ds: seq<nat>)
    requires Carrying(mem, ds, 0)
    ensures Holds(mem, FRACTION, Increment(ds).1) && Increment(ds).0 == 1
  {
    assert ds[..0] == [] && [] + Zeros(|ds|) == Zeros(|ds|);
  }

  lemma CarryReads(mem: seq<Byte>, ds: seq<nat>, j: nat)
    requires Carrying(mem, ds, j) && j > 0
    ensures FRACTION + j <= |mem| && mem[FRACTION + j - 1] == ds[j - 1]
  {
    assert (ds[..j] + Zeros(|ds| - j))[j - 1] == ds[j - 1];
  }

  // Adds one to the kept digits; the return value says whether a carry left them.
  method Carry(frame: array<Byte>, x13: nat, ghost ds: seq<nat>) returns (out: bool)
    requires frame.Length == FRAME && 0 < x13 <= LENGTH && |ds| == x13 && AllDigits(ds) &&
      Holds(frame[..], FRACTION, ds)
    modifies frame
    ensures Holds(frame[..], FRACTION, Increment(ds).1) && Increment(ds).0 == if out then 1 else 0
  {
    var x12: int := FRACTION + x13 - 1;
    CarryStarts(frame[..], ds);
    while true
      invariant FRACTION <= x12 < FRACTION + x13 && Carrying(frame[..], ds, x12 + 1 - FRACTION)
      decreases x12
    {
      ghost var mem, j := frame[..], x12 + 1 - FRACTION;
      CarryReads(mem, ds, j);
      var x15 := frame[x12] as int + 1;
      if x15 < 10 {
        frame[x12] := x15;
        CarryStops(mem, frame[..], ds, j);
        return false;
      }
      frame[x12] := 0;
      CarryOn(mem, frame[..], ds, j);
      x12 := x12 - 1;
      if x12 == FRACTION - 1 {
        CarryLeaves(frame[..], ds);
        return true;
      }
    }
  }

  // The kept digits and the integer part after rounding at the guard digit.
  function Rounded(ds: seq<nat>, up: bool): (r: (nat, seq<nat>))
    requires AllDigits(ds)
    ensures |r.1| == |ds| && AllDigits(r.1)
  {
    if up then Increment(ds) else (0, ds)
  }

  lemma HoldsFirst(mem: seq<Byte>, a: nat, ds: seq<nat>, k: nat)
    requires Holds(mem, a, ds) && k <= |ds|
    ensures Holds(mem, a, ds[..k])
  {
  }

  method Round(frame: array<Byte>, x10: nat, x13: nat, ghost ds: seq<nat>) returns (n: nat)
    requires frame.Length == FRAME && |ds| == LENGTH && AllDigits(ds) && x13 < LENGTH && Holds(frame[..], FRACTION, ds)
    modifies frame
    ensures var r := Rounded(ds[..x13], ds[x13] >= 5); Holds(frame[..], FRACTION, r.1) && n == x10 + r.0
  {
    n := x10;
    HoldsFirst(frame[..], FRACTION, ds, x13);
    assert frame[..][FRACTION + x13] == ds[x13];
    if frame[FRACTION + x13] >= 5 {
      if x13 == 0 {
        n := n + 1;
      } else {
        var out := Carry(frame, x13, ds[..x13]);
        if out {
          n := n + 1;
        }
      }
    }
  }

  lemma AddCarry(t: nat, n: nat, c: nat, p: nat, a: nat, b: nat)
    requires SumOf(t, n, p, a) && SumOf(a + 1, c, p, b)
    ensures SumOf(t + 1, n + c, p, b)
  {
    MulAdd(n, c, p);
  }

  lemma IncrementSum(ds: seq<nat>)
    requires AllDigits(ds)
    ensures SumOf(Num(ds) + 1, Increment(ds).0, Pow10(|ds|), Num(Increment(ds).1))
  {
    IncrementValue(ds);
  }

  lemma WholeOf(t: nat, w: nat, ds: seq<nat>)
    requires AllDigits(ds) && SumOf(t, w, Pow10(|ds|), Num(ds))
    ensures Whole(t, |ds|) == w && Fixed(t, |ds|) == ds
  {
    WholeIs(w, ds);
  }

  lemma RoundedParts(n: nat, ds: seq<nat>, up: bool, t: nat)
    requires AllDigits(ds) && SumOf(t, n, Pow10(|ds|), Num(ds))
    ensures var t' := t + if up then 1 else 0;
      Whole(t', |ds|) == n + Rounded(ds, up).0 && Fixed(t', |ds|) == Rounded(ds, up).1
  {
    var r := Rounded(ds, up);
    if up {
      IncrementSum(ds);
      AddCarry(t, n, r.0, Pow10(|ds|), Num(ds), Num(r.1));
      WholeOf(t + 1, n + r.0, r.1);
    } else {
      WholeOf(t, n, ds);
    }
  }

  // After rounding, the integer part and the digits are those of the total.
  lemma RoundedIsTotal(n: nat, m: nat, s: nat)
    requires m < s
    ensures var k, t := Kept(n, m, s), Total(n, m, s);
      var r := Rounded(Digits(m, s, k), Digit(m, s, k) >= 5);
      Whole(t, k) == n + r.0 && Fixed(t, k) == r.1
  {
    var k := Kept(n, m, s);
    RoundedParts(n, Digits(m, s, k), Digit(m, s, k) >= 5, n * Pow10(k) + Num(Digits(m, s, k)));
  }

  lemma DigitsPrefix(m: nat, s: nat, k: nat)
    requires m < s && k <= LENGTH
    ensures Digits(m, s, LENGTH)[..k] == Digits(m, s, k)
  {
  }

  lemma DecSplit(x: nat)
    ensures x >= 10 ==> Dec(x) == Dec(x / 10) + [ZERO + x % 10]
    ensures x < 10 ==> Dec(x) == [ZERO + x]
  {
  }

  // Writes the digits of x10 backwards from the end of the reverse buffer.
  method Backwards(frame: array<Byte>, x10: nat) returns (x12: nat)
    requires frame.Length == FRAME && |Dec(x10)| <= 19
    modifies frame
    ensures x12 == REVERSE_END - |Dec(x10)| && frame[x12..REVERSE_END] == Dec(x10)
    ensures frame[..REVERSE_END - 19] == old(frame[..REVERSE_END - 19])
  {
    x12 := REVERSE_END;
    var x := x10;
    ghost var text, tail: seq<Byte> := Dec(x10), [];
    while true
      invariant text == Dec(x) + tail && x12 == REVERSE_END - |tail| && frame[x12..REVERSE_END] == tail
      invariant frame[..REVERSE_END - 19] == old(frame[..REVERSE_END - 19])
      decreases x
    {
      DecSplit(x);
      var x15 := x / 10;
      var x0 := x - x15 * 10;
      x12 := x12 - 1;
      frame[x12] := ZERO + x0;
      tail := [ZERO + x0] + tail;
      if x15 == 0 {
        return;
      }
      x := x15;
    }
  }

  // Copies the text t, which stands at `from` beyond the text area, to x9 on.
  method CopyText(frame: array<Byte>, from: nat, start: nat, ghost t: seq<Byte>) returns (x9: nat)
    requires frame.Length == FRAME && from + |t| == REVERSE_END && frame[from..REVERSE_END] == t && |t| <= 19 &&
      start <= 1
    modifies frame
    ensures x9 == start + |t| && frame[..x9] == old(frame[..start]) + t && frame[20..] == old(frame[20..])
  {
    x9 := start;
    var x12 := from;
    while x12 < REVERSE_END
      invariant from <= x12 <= REVERSE_END && x9 == start + (x12 - from)
      invariant frame[..x9] == old(frame[..start]) + t[..x12 - from] && frame[20..] == old(frame[20..])
    {
      ghost var done, i := frame[..x9], x12 - from;
      assert frame[x12] == frame[20..][x12 - 20] == old(frame[from..REVERSE_END])[i] == t[i];
      frame[x9] := frame[x12];
      assert frame[..x9 + 1] == done + [t[i]] && t[..i + 1] == t[..i] + [t[i]];
      x9 := x9 + 1;
      x12 := x12 + 1;
    }
    assert t[..|t|] == t;
  }

  lemma Untouched(a: seq<Byte>, b: seq<Byte>, c: seq<Byte>)
    requires |a| == |b| == |c| == FRAME && b[..REVERSE_END - 19] == a[..REVERSE_END - 19] && c[20..] == b[20..]
    ensures c[FRACTION..FRACTION + LENGTH] == a[FRACTION..FRACTION + LENGTH]
  {
    forall i | FRACTION <= i < FRACTION + LENGTH ensures c[i] == a[i] {
      assert c[20..][i - 20] == b[20..][i - 20] && b[..REVERSE_END - 19][i] == a[..REVERSE_END - 19][i];
    }
  }

  method IntegerDigits(frame: array<Byte>, x10: nat, start: nat) returns (x9: nat)
    requires frame.Length == FRAME && |Dec(x10)| <= 19 && start <= 1
    modifies frame
    ensures x9 == start + |Dec(x10)| && frame[..x9] == old(frame[..start]) + Dec(x10)
    ensures frame[FRACTION..FRACTION + LENGTH] == old(frame[FRACTION..FRACTION + LENGTH])
  {
    ghost var before := frame[..];
    var from := Backwards(frame, x10);
    ghost var between := frame[..];
    assert frame[..start] == frame[..REVERSE_END - 19][..start] == old(frame[..REVERSE_END - 19])[..start];
    x9 := CopyText(frame, from, start, Dec(x10));
    Untouched(before, between, frame[..]);
  }

  // How many digits are left when the zeros at the end are dropped.
  method StripZeros(frame: array<Byte>, start: nat, ghost ds: seq<nat>) returns (x13: nat)
    requires frame.Length == FRAME && start == |ds| <= LENGTH && Holds(frame[..], FRACTION, ds)
    ensures x13 <= start && Strip(ds) == ds[..x13]
  {
    x13 := start;
    assert ds[..start] == ds;
    while x13 != 0 && frame[FRACTION + x13 - 1] == 0
      invariant x13 <= start && Strip(ds) == Strip(ds[..x13])
    {
      assert frame[..][FRACTION + (x13 - 1)] == ds[x13 - 1];
      assert ds[..x13][..x13 - 1] == ds[..x13 - 1];
      x13 := x13 - 1;
    }
    if x13 != 0 {
      assert frame[..][FRACTION + (x13 - 1)] == ds[x13 - 1];
    }
  }

  // Appends the digits at the head of the buffer as characters.
  method CopyDigits(frame: array<Byte>, x13: nat, start: nat, ghost out: seq<nat>) returns (x9: nat)
    requires frame.Length == FRAME && x13 == |out| < LENGTH && AllDigits(out) && Holds(frame[..], FRACTION, out) &&
      start <= 21
    modifies frame
    ensures x9 == start + x13 && frame[..x9] == old(frame[..start]) + Chars(out)
  {
    x9 := start;
    var x16 := x13;
    while x16 != 0
      invariant 0 <= x16 <= x13 && x9 == start + (x13 - x16)
      invariant Holds(frame[..], FRACTION, out)
      invariant frame[..x9] == old(frame[..start]) + Chars(out)[..x13 - x16]
    {
      ghost var done, i := frame[..x9], x13 - x16;
      assert frame[..][FRACTION + i] == out[i];
      frame[x9] := frame[FRACTION + (x13 - x16)] + ZERO;
      assert frame[..x9 + 1] == done + [Chars(out)[i]];
      assert Chars(out)[..i + 1] == Chars(out)[..i] + [Chars(out)[i]];
      x9 := x9 + 1;
      x16 := x16 - 1;
    }
    assert Chars(out)[..x13] == Chars(out);
  }

  method FractionDigits(frame: array<Byte>, kept: nat, start: nat, smart: bool, ghost ds: seq<nat>) returns (x9: nat)
    requires frame.Length == FRAME && kept == |ds| < LENGTH && AllDigits(ds) && Holds(frame[..], FRACTION, ds) &&
      0 < start <= 20
    modifies frame
    ensures x9 <= start + LENGTH && frame[..x9] == old(frame[..start]) + FractionText(Strip(ds), smart)
  {
    var x13 := StripZeros(frame, kept, ds);
    if x13 != 0 {
      frame[start] := DOT;
      ghost var dotted := frame[..start + 1];
      assert dotted == old(frame[..start]) + [DOT];
      x9 := CopyDigits(frame, x13, start + 1, Strip(ds));
      Glue(old(frame[..start]), [DOT], Chars(Strip(ds)));
    } else if !smart {
      frame[start] := DOT;
      frame[start + 1] := ZERO;
      x9 := start + 2;
      assert frame[..x9] == old(frame[..start]) + [DOT, ZERO];
    } else {
      x9 := start;
    }
  }

  lemma Glue(a: seq<Byte>, b: seq<Byte>, c: seq<Byte>)
    ensures a + b + c == a + (b + c)
  {
  }

  // The digits to print and the integer part beside them.
  method RoundedDigits(frame: array<Byte>, n: nat, m: nat, sh: nat) returns (x10: nat, x13: nat)
    requires frame.Length == FRAME && sh <= 60 && m < Pow2(sh)
    modifies frame
    ensures var k, t := Kept(n, m, Pow2(sh)), Total(n, m, Pow2(sh));
      x13 == k && x10 == Whole(t, k) && x10 <= n + 1 && Holds(frame[..], FRACTION, Fixed(t, k))
  {
    ghost var s := Pow2(sh);
    ghost var ds := Digits(m, s, LENGTH);
    Extract(frame, m, sh);
    x13 := FracKeep(frame, n, ds);
    DigitsPrefix(m, s, x13);
    RoundedIsTotal(n, m, s);
    x10 := Round(frame, n, x13, ds);
  }

  // The sign, the integer part, and the kept digits without zeros at the end.
  method WriteText(frame: array<Byte>, negative: bool, x10: nat, x13: nat, smart: bool, ghost ds: seq<nat>)
    returns (x9: nat)
    requires frame.Length == FRAME && |Dec(x10)| <= 19 && x13 == |ds| < LENGTH && AllDigits(ds) &&
      Holds(frame[..], FRACTION, ds)
    modifies frame
    ensures x9 < FRACTION
    ensures frame[..x9] == (if negative then [MINUS] else []) + Dec(x10) + FractionText(Strip(ds), smart)
  {
    x9 := 0;
    if negative {
      frame[0] := MINUS;
      x9 := 1;
    }
    ghost var sign, kept := frame[..x9], frame[FRACTION..FRACTION + LENGTH];
    assert sign == if negative then [MINUS] else [];
    HoldsIn(frame[..], kept, ds);
    x9 := IntegerDigits(frame, x10, x9);
    HoldsBack(frame[..], kept, ds);
    x9 := FractionDigits(frame, x13, x9, smart, ds);
  }

  // ---- Where m and sh come from ----

  // The mantissa has 52 bits: its leading 1 is worth this much.
  const ONE: nat := 0x10_0000_0000_0000

  // The fields of the 64 bits of a binary64 number that is not negative.
  function Biased(bits: nat): nat {
    bits / ONE % 2048
  }

  function Mantissa(bits: nat): nat {
    bits % ONE
  }

  function TwoTo(e: int): (r: real)
    ensures r > 0.0
    decreases if e < 0 then -e else e
  {
    if e == 0 then 1.0 else if e > 0 then 2.0 * TwoTo(e - 1) else TwoTo(e + 1) / 2.0
  }

  // What the bits encode; a biased exponent of 0 stands for a number without a leading 1, and its exponent is that of
  // 1.
  function Encoded(bits: nat): real {
    var b, f := Biased(bits), Mantissa(bits) as real / ONE as real;
    if b == 0 then f * TwoTo(b - 1022) else (1.0 + f) * TwoTo(b - 1023)
  }

  // How far the binary point of the mantissa with its leading 1 is to the left.
  function Point(bits: nat): int {
    1075 - Biased(bits)
  }

  // The routine's own scaling: that mantissa, or for a shift that is too long the whole part of 2^52 times the
  // fraction.
  function Shift(bits: nat): int {
    if Point(bits) <= 60 then Point(bits) else 52
  }

  function Numerator(bits: nat): int {
    if Point(bits) <= 60 then ONE + Mantissa(bits) else (Encoded(bits) * ONE as real).Floor
  }

  lemma {:induction false} TwoToDown(e: nat)
    ensures TwoTo(0 - e) * Pow2(e) as real == 1.0
  {
    if e > 0 {
      TwoToDown(e - 1);
      assert TwoTo(0 - e) == TwoTo(0 - (e - 1)) / 2.0 && Pow2(e) as real == 2.0 * Pow2(e - 1) as real;
      Halves(TwoTo(0 - (e - 1)), Pow2(e - 1) as real);
    }
  }

  lemma Halves(a: real, b: real)
    ensures (a / 2.0) * (2.0 * b) == a * b
  {
  }

  // (1 + f/p) / q, over the common denominator s = p * q.
  lemma OverOne(f: real, p: real, q: real, t: real, s: real)
    requires p > 0.0 && q > 0.0 && t * q == 1.0 && s == p * q
    ensures (1.0 + f / p) * t == (p + f) / s
  {
    var x := (1.0 + f / p) * t;
    assert x * q == (1.0 + f / p) * (t * q);
    assert x * s == (x * q) * p;
    assert (1.0 + f / p) * p == p + f;
  }

  lemma {:induction false} Pow2Above(w: nat, e: nat)
    requires e > 0
    ensures 2 * Pow2(w) <= Pow2(w + e)
    decreases e
  {
    if e > 1 {
      Pow2Above(w, e - 1);
    }
  }

  // A mantissa f of w bits, and an exponent -e.
  lemma MantissaExact(w: nat, f: nat, e: nat, one: nat)
    requires one == Pow2(w) && f < one && e > 0
    ensures one + f < Pow2(w + e)
    ensures (1.0 + f as real / one as real) * TwoTo(0 - e) == (one + f) as real / Pow2(w + e) as real
  {
    Pow2Above(w, e);
    TwoToDown(e);
    Pow2Split(w, e);
    RealMul(Pow2(w), Pow2(e));
    OverOne(f as real, one as real, Pow2(e) as real, TwoTo(0 - e), Pow2(w + e) as real);
  }

  lemma OneIsPower()
    ensures Pow2(52) == ONE
  {
    assert Pow2(2) == 4;
    Pow2Split(2, 2);
    Pow2Split(4, 4);
    Pow2Split(8, 4);
    Pow2Split(12, 1);
    Pow2Split(13, 13);
    Pow2Split(26, 26);
  }

  lemma RealMul(a: nat, b: nat)
    ensures (a * b) as real == a as real * b as real
  {
  }

  // Bits with an exponent below that of 1.
  lemma BitsExact(bits: nat)
    requires 1 <= Biased(bits) <= 1022
    ensures var m := ONE + Mantissa(bits);
      m < Pow2(Point(bits)) && Encoded(bits) == m as real / Pow2(Point(bits)) as real
  {
    OneIsPower();
    MantissaExact(52, Mantissa(bits), 1023 - Biased(bits), ONE);
  }

  lemma Ratio(a: nat, b: nat)
    requires a < b
    ensures 0.0 <= a as real / b as real < 1.0
  {
  }

  lemma Less(a: real, b: real, c: real)
    requires 0.0 <= a < 1.0 && 0.0 < b <= 1.0 && c == a * b
    ensures 0.0 <= c < 1.0
  {
    assert a * b <= a * 1.0 && a * b >= 0.0;
  }

  lemma BelowOne(bits: nat)
    requires Biased(bits) <= 1022
    ensures 0.0 <= Encoded(bits) < 1.0
  {
    if Biased(bits) == 0 {
      var f, e := Mantissa(bits) as real / ONE as real, 1022 - Biased(bits);
      assert Biased(bits) - 1022 == 0 - e;
      Ratio(Mantissa(bits), ONE);
      AtMostOne(e);
      Less(f, TwoTo(0 - e), Encoded(bits));
    } else {
      BitsExact(bits);
      Ratio(ONE + Mantissa(bits), Pow2(Point(bits)));
    }
  }

  lemma {:induction false} AtMostOne(e: nat)
    ensures TwoTo(0 - e) <= 1.0
  {
    if e > 0 {
      AtMostOne(e - 1);
    }
  }

  lemma WholePart(x: real, p: nat)
    requires 0.0 <= x < 1.0 && p > 0
    ensures var m := (x * p as real).Floor;
      0 <= m < p && m as real / p as real <= x < (m + 1) as real / p as real
  {
    var m := (x * p as real).Floor;
    assert m as real <= x * p as real < (m + 1) as real;
    assert x * p as real < p as real;
  }

  /** The fraction that is printed: from the biased exponent 1015 on it is the encoded one, and below the encoded one
      lies less than 2^-52 above it. Either way ten times the rest fits a register. */
  lemma FractionScaled(bits: nat)
    requires Biased(bits) <= 1022
    ensures var m, sh := Numerator(bits), Shift(bits);
      && 52 <= sh <= 60 && 0 <= m < Pow2(sh)
      && (if Biased(bits) >= 1015 then Encoded(bits) == m as real / Pow2(sh) as real
          else m as real / Pow2(sh) as real <= Encoded(bits) < (m + 1) as real / Pow2(sh) as real)
  {
    if Biased(bits) >= 1015 {
      BitsExact(bits);
    } else {
      BelowOne(bits);
      OneIsPower();
      WholePart(Encoded(bits), ONE);
    }
  }

  /** Prints n + m/2^sh with its sign: the bytes left read as the value rounded at its sixteenth significant digit, a
      minus sign in front exactly when it is negative, and there is room for a newline in the 112 bytes of the text
      area. */
  method PrintFloat(frame: array<Byte>, negative: bool, n: nat, m: nat, sh: nat, smart: bool) returns (x9: nat)
    requires frame.Length == FRAME && sh <= 60 && m < Pow2(sh) && n < 0x7FFF_FFFF_FFFF_FFFF
    modifies frame
    ensures x9 < FRACTION && Shows(frame[..x9], negative, n, m, Pow2(sh), smart)
  {
    ghost var k, t := Kept(n, m, Pow2(sh)), Total(n, m, Pow2(sh));
    var x10, x13 := RoundedDigits(frame, n, m, sh);
    TenToNineteen();
    DecLength(x10, 19);
    x9 := WriteText(frame, negative, x10, x13, smart, Fixed(t, k));
    assert frame[..x9] == Printed(negative, t, k, smart);
    PrintedShows(negative, n, m, sh, smart, k, t);
  }

  lemma HoldsIn(mem: seq<Byte>, area: seq<Byte>, ds: seq<nat>)
    requires |mem| == FRAME && area == mem[FRACTION..FRACTION + LENGTH] && Holds(mem, FRACTION, ds) && |ds| <= LENGTH
    ensures Holds(area, 0, ds)
  {
    forall i | 0 <= i < |ds| ensures area[0 + i] == ds[i] {
      assert mem[FRACTION + i] == ds[i];
    }
  }

  lemma HoldsBack(mem: seq<Byte>, area: seq<Byte>, ds: seq<nat>)
    requires |mem| == FRAME && area == mem[FRACTION..FRACTION + LENGTH] && Holds(area, 0, ds)
    ensures Holds(mem, FRACTION, ds)
  {
    forall i | 0 <= i < |ds| ensures mem[FRACTION + i] == ds[i] {
      assert area[0 + i] == ds[i];
    }
  }
}
