/** Decimal text of a binary fraction: exact digits, rounding half up at the last kept place, and the text itself. */
module FloatText {

  import opened CText
  import opened Numbers

  // ---- Digits of the fraction m/s, one at a time ----

  // What is left after n digits, in units of 1/s of the n-th place.
  function Left(m: nat, s: nat, n: nat): (r: nat)
    requires m < s
    ensures r < s
  {
    if n == 0 then m else (Left(m, s, n - 1) * 10) % s
  }

  function Digit(m: nat, s: nat, i: nat): (d: nat)
    requires m < s
    ensures d < 10
  {
    var x := Left(m, s, i) * 10;
    QuotientBelow(x, s, 10);
    x / s
  }

  lemma QuotientBelow(x: nat, s: nat, k: nat)
    requires s > 0 && x < k * s
    ensures x / s < k
  {
    DivMod(x, s);
    if x / s >= k {
      MulMono(k, x / s, s);
    }
  }

  function Digits(m: nat, s: nat, n: nat): (ds: seq<nat>)
    requires m < s
    ensures |ds| == n && forall i :: 0 <= i < n ==> ds[i] == Digit(m, s, i)
  {
    if n == 0 then [] else Digits(m, s, n - 1) + [Digit(m, s, n - 1)]
  }

  // x is d times s, and l more.
  predicate Parts(x: nat, d: nat, s: nat, l: nat) {
    x == d * s + l
  }

  // a whole units and r/s of one more make m/s in units of 1/p.
  predicate Splits(a: nat, r: nat, s: nat, m: nat, p: nat) {
    a * s + r == m * p
  }

  lemma DigitStep(a: nat, r: nat, d: nat, l: nat, s: nat, m: nat, p: nat)
    requires Splits(a, r, s, m, p) && Parts(r * 10, d, s, l)
    ensures Splits(a * 10 + d, l, s, m, 10 * p)
  {
    MulAdd(a * 10, d, s);
    assert (a * 10) * s == 10 * (a * s);
    assert m * (10 * p) == 10 * (m * p);
  }

  lemma DigitParts(m: nat, s: nat, i: nat)
    requires m < s
    ensures Parts(Left(m, s, i) * 10, Digit(m, s, i), s, Left(m, s, i + 1))
  {
    DivMod(Left(m, s, i) * 10, s);
  }

  // One step of long division, in three functions of the place.
  ghost predicate StepAt(num: nat -> nat, left: nat -> nat, digit: nat -> nat, s: nat, i: nat) {
    num(i + 1) == num(i) * 10 + digit(i) && Parts(left(i) * 10, digit(i), s, left(i + 1))
  }

  lemma {:induction false} LongDivision(num: nat -> nat, left: nat -> nat, digit: nat -> nat, m: nat, s: nat, n: nat)
    requires num(0) == 0 && left(0) == m
    requires forall i: nat {:trigger StepAt(num, left, digit, s, i)} :: StepAt(num, left, digit, s, i)
    ensures Splits(num(n), left(n), s, m, Pow10(n))
  {
    if n > 0 {
      LongDivision(num, left, digit, m, s, n - 1);
      assert StepAt(num, left, digit, s, n - 1);
      DigitStep(num(n - 1), left(n - 1), digit(n - 1), left(n), s, m, Pow10(n - 1));
    }
  }

  lemma NumNext(m: nat, s: nat, n: nat)
    requires m < s
    ensures Num(Digits(m, s, n + 1)) == Num(Digits(m, s, n)) * 10 + Digit(m, s, n)
  {
    assert Digits(m, s, n + 1)[..n] == Digits(m, s, n);
  }

  /** The digits are the exact leading decimal digits of m/s: nothing is lost before the place they stop. */
  lemma DigitsExact(m: nat, s: nat, n: nat)
    requires m < s
    ensures Splits(Num(Digits(m, s, n)), Left(m, s, n), s, m, Pow10(n))
  {
    var num, left, digit := (i: nat) => Num(Digits(m, s, i)), (i: nat) => Left(m, s, i), (i: nat) => Digit(m, s, i);
    forall i: nat ensures StepAt(num, left, digit, s, i) {
      NumNext(m, s, i);
      DigitParts(m, s, i);
    }
    LongDivision(num, left, digit, m, s, n);
  }

  lemma MulAdd(a: nat, b: nat, s: nat)
    ensures (a + b) * s == a * s + b * s
  {
  }

  lemma MulSwap(a: nat, b: nat, s: nat)
    ensures (a * b) * s == (a * s) * b && (a * b) * s == a * (s * b)
  {
    MulComm(b, s);
    MulAssoc(a, b, s);
    MulAssoc(a, s, b);
  }

  lemma MulComm(a: nat, b: nat)
    ensures a * b == b * a
  {
  }

  lemma {:induction false} MulAssoc(a: nat, b: nat, c: nat)
    ensures (a * b) * c == a * (b * c)
  {
    if a > 0 {
      MulAssoc(a - 1, b, c);
      assert a * b == (a - 1) * b + b;
      MulAdd((a - 1) * b, b, c);
      assert a * (b * c) == (a - 1) * (b * c) + b * c;
    }
  }

  // ---- How many digits are kept ----

  const LENGTH: nat := 42

  function DigitCount(n: nat): (c: nat)
    ensures c >= 1
  {
    if n < 10 then 1 else 1 + DigitCount(n / 10)
  }

  predicate AllZero(ds: seq<nat>) {
    forall i :: 0 <= i < |ds| ==> ds[i] == 0
  }

  function LeadingZeros(ds: seq<nat>): (k: nat)
    ensures k <= |ds| && forall i :: 0 <= i < k ==> ds[i] == 0
    ensures k < |ds| ==> ds[k] != 0
  {
    if ds == [] || ds[0] != 0 then 0 else 1 + LeadingZeros(ds[1..])
  }

  // Sixteen significant digits, an integer part other than 0 included; the buffer holds LENGTH digits.
  function Keep(n: nat, ds: seq<nat>): (k: nat)
    requires |ds| == LENGTH
    ensures k < LENGTH
  {
    if n != 0 then (if DigitCount(n) <= 16 then 16 - DigitCount(n) else 0)
    else
      var k := LeadingZeros(ds);
      if k == LENGTH then 0 else (if k <= LENGTH - 17 then k else LENGTH - 17) + 16
  }

  // ---- Rounding ----

  function Kept(n: nat, m: nat, s: nat): nat
    requires m < s
  {
    Keep(n, Digits(m, s, LENGTH))
  }

  // The printed value, in units of the last kept place: digits, plus one when the guard digit is 5 or more.
  function Total(n: nat, m: nat, s: nat): nat
    requires m < s
  {
    var k := Kept(n, m, s);
    n * Pow10(k) + Num(Digits(m, s, k)) + (if Digit(m, s, k) >= 5 then 1 else 0)
  }

  lemma GuardIsHalf(m: nat, s: nat, k: nat)
    requires m < s
    ensures Digit(m, s, k) >= 5 <==> 2 * Left(m, s, k) >= s
  {
    var x := Left(m, s, k) * 10;
    DivMod(x, s);
    if x / s >= 5 {
      MulMono(5, x / s, s);
    } else {
      MulMono(x / s, 4, s);
    }
  }

  // n + m/s in units of 1/s.
  function Exact(n: nat, m: nat, s: nat): nat {
    n * s + m
  }

  // t is x/s rounded to the nearest integer, halves up.
  predicate Nearest(t: nat, x: nat, s: nat) {
    2 * (t * s) - s <= 2 * x < 2 * (t * s) + s
  }

  lemma Scaled(n: nat, m: nat, s: nat, p: nat, d: nat, l: nat)
    requires Splits(d, l, s, m, p)
    ensures Parts(Exact(n, m, s) * p, n * p + d, s, l)
  {
    MulAdd(n * s, m, p);
    MulSwap(n, s, p);
    MulAdd(n * p, d, s);
  }

  // a whole units and l/s of one more, rounded half up.
  lemma HalfUp(x: nat, a: nat, l: nat, s: nat, up: bool)
    requires Parts(x, a, s, l) && l < s && (up <==> 2 * l >= s)
    ensures Nearest(a + if up then 1 else 0, x, s)
  {
    if up {
      MulAdd(a, 1, s);
    }
  }

  /** The printed value is the exact one rounded to the nearest unit of the last kept place, halves up;
      so it is off by at most half such a unit. */
  lemma NearestValue(n: nat, m: nat, s: nat)
    requires m < s
    ensures Nearest(Total(n, m, s), Exact(n, m, s) * Pow10(Kept(n, m, s)), s)
  {
    var k := Kept(n, m, s);
    var p, d, l := Pow10(k), Num(Digits(m, s, k)), Left(m, s, k);
    DigitsExact(m, s, k);
    Scaled(n, m, s, p, d, l);
    GuardIsHalf(m, s, k);
    HalfUp(Exact(n, m, s) * p, n * p + d, l, s, Digit(m, s, k) >= 5);
  }

  lemma {:induction false} Pow2Most(sh: nat)
    requires sh <= 60
    ensures Pow2(sh) <= Pow2(60)
    decreases 60 - sh
  {
    if sh < 60 {
      Pow2Most(sh + 1);
      assert Pow2(sh + 1) == 2 * Pow2(sh);
    }
  }

  lemma {:induction false} Pow2Split(a: nat, b: nat)
    ensures Pow2(a + b) == Pow2(a) * Pow2(b)
  {
    if a > 0 {
      Pow2Split(a - 1, b);
      MulAssoc(2, Pow2(a - 1), Pow2(b));
    }
  }

  lemma {:induction false} Pow10Split(a: nat, b: nat)
    ensures Pow10(a + b) == Pow10(a) * Pow10(b)
  {
    if a > 0 {
      Pow10Split(a - 1, b);
      MulAssoc(10, Pow10(a - 1), Pow10(b));
    }
  }

  lemma TwoToSixty()
    ensures Pow2(60) == 1152921504606846976
  {
    assert Pow2(2) == 4;
    Pow2Split(2, 2);
    Pow2Split(4, 1);
    Pow2Split(5, 5);
    Pow2Split(10, 10);
    Pow2Split(20, 20);
    Pow2Split(40, 20);
  }

  lemma TenToNineteen()
    ensures Pow10(19) == 10000000000000000000
  {
    assert Pow10(2) == 100;
    Pow10Split(2, 2);
    Pow10Split(4, 4);
    Pow10Split(8, 8);
    Pow10Split(16, 2);
    Pow10Split(18, 1);
  }

  // Ten times what is left fits 64 bits.
  lemma NoOverflow(m: nat, sh: nat, i: nat)
    requires sh <= 60 && m < Pow2(sh)
    ensures Left(m, Pow2(sh), i) * 10 < 0x1_0000_0000_0000_0000
  {
    Pow2Most(sh);
    TwoToSixty();
  }

  lemma {:induction false} ZerosMakeZero(ds: seq<nat>)
    requires AllZero(ds)
    ensures Num(ds) == 0
  {
    if ds != [] {
      ZerosMakeZero(ds[..|ds| - 1]);
    }
  }

  lemma Remainder(m: nat, s: nat, p: nat, l: nat)
    requires Splits(0, l, s, m, p) && l < s && m > 0
    ensures p < s
  {
    if p >= s {
      MulMono(1, m, p);
    }
  }

  /** A fraction on its own keeps 16 digits from its first nonzero one on; the buffer is always long enough. */
  lemma SixteenSignificant(m: nat, sh: nat)
    requires sh <= 60 && 0 < m < Pow2(sh)
    ensures var ds := Digits(m, Pow2(sh), LENGTH);
      LeadingZeros(ds) < 19 && ds[LeadingZeros(ds)] != 0 && Kept(0, m, Pow2(sh)) == LeadingZeros(ds) + 16
  {
    var s := Pow2(sh);
    var ds := Digits(m, s, LENGTH);
    if LeadingZeros(ds) >= 19 {
      var first := Digits(m, s, 19);
      assert forall i :: 0 <= i < 19 ==> first[i] == Digit(m, s, i) == ds[i];
      ZerosMakeZero(first);
      DigitsExact(m, s, 19);
      Remainder(m, s, Pow10(19), Left(m, s, 19));
      Pow2Most(sh);
      TwoToSixty();
      TenToNineteen();
    }
  }

  // ---- Text ----

  const ZERO: Byte := 48
  const DOT: Byte := 46
  const MINUS: Byte := 45

  function Dec(n: nat): (t: seq<Byte>)
    ensures |t| > 0
  {
    if n < 10 then [ZERO + n] else Dec(n / 10) + [ZERO + n % 10]
  }

  // The number that decimal text writes.
  function Value(t: seq<Byte>): int {
    if t == [] then 0 else Value(t[..|t| - 1]) * 10 + (t[|t| - 1] - ZERO)
  }

  lemma {:induction false} ValueOfDec(n: nat)
    ensures Value(Dec(n)) == n
  {
    if n < 10 {
      assert Dec(n)[..0] == [];
    } else {
      ValueOfDec(n / 10);
      assert Dec(n)[..|Dec(n)| - 1] == Dec(n / 10);
    }
  }

  lemma {:induction false} DecLength(n: nat, k: nat)
    requires n < Pow10(k) && k > 0
    ensures |Dec(n)| <= k
  {
    if n >= 10 {
      DecLength(n / 10, k - 1);
    }
  }

  // f in exactly k digits.
  function Fixed(f: nat, k: nat): (ds: seq<nat>)
    ensures |ds| == k && forall i :: 0 <= i < k ==> ds[i] < 10
  {
    if k == 0 then [] else Fixed(f / 10, k - 1) + [f % 10]
  }

  lemma {:induction false} NumBelow(ds: seq<nat>)
    requires AllDigits(ds)
    ensures Num(ds) < Pow10(|ds|)
  {
    if ds != [] {
      NumBelow(ds[..|ds| - 1]);
    }
  }

  // Without the zeros at the end.
  function Strip(ds: seq<nat>): (r: seq<nat>)
    ensures |r| <= |ds| && r == ds[..|r|] && (r != [] ==> r[|r| - 1] != 0)
  {
    if ds == [] || ds[|ds| - 1] != 0 then ds else Strip(ds[..|ds| - 1])
  }

  lemma {:induction false} StripValue(ds: seq<nat>)
    ensures Num(ds) == Num(Strip(ds)) * Pow10(|ds| - |Strip(ds)|)
  {
    if ds != [] && ds[|ds| - 1] == 0 {
      var e := ds[..|ds| - 1];
      StripValue(e);
      TenMore(Num(Strip(e)), Pow10(|e| - |Strip(e)|));
    }
  }

  lemma TenMore(a: nat, p: nat)
    ensures a * (10 * p) == (a * p) * 10
  {
  }

  function Chars(ds: seq<nat>): (t: seq<Byte>)
    requires AllDigits(ds)
    ensures |t| == |ds| && forall i :: 0 <= i < |ds| ==> t[i] == ZERO + ds[i]
  {
    seq(|ds|, i requires 0 <= i < |ds| => ZERO + ds[i])
  }

  // The point and the digits; a whole value shows ".0", or nothing in smart display.
  function FractionText(ds: seq<nat>, smart: bool): seq<Byte>
    requires AllDigits(ds)
  {
    if ds != [] then [DOT] + Chars(ds) else if smart then [] else [DOT, ZERO]
  }

  // t without its last k digits.
  function Whole(t: nat, k: nat): nat {
    if k == 0 then t else Whole(t / 10, k - 1)
  }

  lemma {:induction false} WholeAndDigits(t: nat, k: nat)
    ensures t == Whole(t, k) * Pow10(k) + Num(Fixed(t, k))
  {
    if k > 0 {
      WholeAndDigits(t / 10, k - 1);
      assert Fixed(t, k)[..k - 1] == Fixed(t / 10, k - 1);
      TenMore(Whole(t, k), Pow10(k - 1));
    }
  }

  lemma {:induction false} WholeIs(w: nat, ds: seq<nat>)
    requires AllDigits(ds)
    ensures Whole(w * Pow10(|ds|) + Num(ds), |ds|) == w && Fixed(w * Pow10(|ds|) + Num(ds), |ds|) == ds
  {
    if ds != [] {
      var e := ds[..|ds| - 1];
      WholeIs(w, e);
      TenMore(w, Pow10(|e|));
    }
  }

  // t units of the k-th decimal place, as text.
  function Printed(negative: bool, t: nat, k: nat, smart: bool): seq<Byte> {
    (if negative then [MINUS] else []) + Dec(Whole(t, k)) + FractionText(Strip(Fixed(t, k)), smart)
  }

  predicate Times(x: nat, a: nat, b: nat) {
    x == a * b
  }

  predicate SumOf(t: nat, w: nat, p: nat, x: nat) {
    t == w * p + x
  }

  // w and the digits f after it, in units of 1/j, make t units that are r times smaller.
  predicate Reads(w: nat, j: nat, f: nat, r: nat, t: nat) {
    (w * j + f) * r == t
  }

  lemma JoinPlaces(w: nat, f: nat, j: nat, r: nat, t: nat, p: nat, x: nat)
    requires Times(p, j, r) && SumOf(t, w, p, x) && Times(x, f, r)
    ensures Reads(w, j, f, r, t)
  {
    MulAdd(w * j, f, r);
    MulAssoc(w, j, r);
  }

  lemma TextParts(t: nat, k: nat)
    ensures SumOf(t, Whole(t, k), Pow10(k), Num(Fixed(t, k)))
  {
    WholeAndDigits(t, k);
  }

  lemma StripParts(ds: seq<nat>)
    ensures Times(Num(ds), Num(Strip(ds)), Pow10(|ds| - |Strip(ds)|)) &&
      Times(Pow10(|ds|), Pow10(|Strip(ds)|), Pow10(|ds| - |Strip(ds)|))
  {
    StripValue(ds);
    Pow10Split(|Strip(ds)|, |ds| - |Strip(ds)|);
  }

  /** Reading the text back gives t units of the k-th place, and the fraction ends in no zero. */
  lemma TextReadsBack(t: nat, k: nat)
    ensures var ds := Strip(Fixed(t, k));
      && Value(Dec(Whole(t, k))) == Whole(t, k) && (ds != [] ==> ds[|ds| - 1] != 0)
      && Reads(Whole(t, k), Pow10(|ds|), Num(ds), Pow10(k - |ds|), t)
  {
    var w, ds := Whole(t, k), Strip(Fixed(t, k));
    ValueOfDec(w);
    TextParts(t, k);
    StripParts(Fixed(t, k));
    JoinPlaces(w, Num(ds), Pow10(|ds|), Pow10(k - |ds|), t, Pow10(k), Num(Fixed(t, k)));
  }
}
