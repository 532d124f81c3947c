/** What the text of a float means, read on its own: sign, digits, point, and how many digits are there. */
module FloatRead {
  import opened CText
  import opened FloatText
  import opened Numbers
  import opened Options
  import opened Sequences

  predicate IsDigit(b: Byte) {
    48 <= b <= 57
  }

  datatype Scanned = Scanned(value: nat, rest: seq<Byte>)

  // The digits in front, behind digits that make v.
  function Scan(v: nat, t: seq<Byte>): Scanned
    decreases |t|
  {
    if t != [] && IsDigit(t[0]) then Scan(10 * v + (t[0] - 48), t[1..]) else Scanned(v, t)
  }

  // A number in decimal: units / 10^places, and its sign.
  datatype Reading = Reading(negative: bool, units: nat, places: nat)

  // Digits, and perhaps a point (46) and more digits.
  function ReadUnsigned(negative: bool, t: seq<Byte>): Option<Reading> {
    var whole := Scan(0, t);
    if t == [] || !IsDigit(t[0]) then None
    else if whole.rest == [] then Some(Reading(negative, whole.value, 0))
    else if whole.rest[0] != 46 || |whole.rest| == 1 || !IsDigit(whole.rest[1]) then None
    else
      var all := Scan(whole.value, whole.rest[1..]);
      if all.rest == [] then Some(Reading(negative, all.value, |whole.rest| - 1)) else None
  }

  // A minus sign (45) may stand in front.
  function ReadText(t: seq<Byte>): Option<Reading> {
    if t != [] && t[0] == 45 then ReadUnsigned(true, t[1..]) else ReadUnsigned(false, t)
  }

  // The place of the sixteenth significant digit of n + m/s, or 0 when that lies in the integer part.
  ghost predicate SixteenthPlace(n: nat, m: nat, s: nat, k: nat) {
    if n > 0 then exists d: nat :: d > 0 && Pow10(d - 1) <= n < Pow10(d) && k == (if d <= 16 then 16 - d else 0)
    else if m == 0 then k == 0
    else exists z: nat :: k == z + 16 && m * Pow10(z) < s <= m * Pow10(z + 1)
  }

  predicate IsWhole(t: nat, k: nat) {
    t % Pow10(k) == 0
  }

  // r is t units of the k-th place. A whole value has no places, or one where ".0" is shown; any other ends in a digit
  // that is not 0.
  predicate Means(r: Reading, t: nat, k: nat, smart: bool) {
    && r.units * Pow10(k) == t * Pow10(r.places)
    && if IsWhole(t, k) then r.places == (if smart then 0 else 1) else r.places > 0 && r.units % 10 != 0
  }

  // No 0 in front of another digit.
  predicate NoZeroFirst(t: seq<Byte>) {
    |t| >= 2 && t[0] == 48 ==> !IsDigit(t[1])
  }

  // t is n + m/s in units of the k-th place, rounded to the nearest, halves up.
  predicate Rounds(t: nat, n: nat, m: nat, s: nat, k: nat) {
    var x := (n * s + m) * Pow10(k);
    2 * (t * s) - s <= 2 * x < 2 * (t * s) + s
  }

  // The text reads as n + m/s, rounded to the nearest unit of its sixteenth significant digit, halves up.
  ghost predicate Shows(t: seq<Byte>, negative: bool, n: nat, m: nat, s: nat, smart: bool) {
    && (t != [] && t[0] == 45 <==> negative) && NoZeroFirst(if negative then t[1..] else t)
    && ReadText(t).Some? && ReadText(t).value.negative == negative
    && exists k, total ::
         SixteenthPlace(n, m, s, k) && Rounds(total, n, m, s, k) && Means(ReadText(t).value, total, k, smart)
  }

  predicate NoDigitFirst(t: seq<Byte>) {
    t == [] || !IsDigit(t[0])
  }

  lemma {:induction false} ScanDigits(v: nat, ds: seq<nat>, rest: seq<Byte>)
    requires AllDigits(ds) && NoDigitFirst(rest)
    ensures Scan(v, Chars(ds) + rest) == Scanned(v * Pow10(|ds|) + Num(ds), rest)
    decreases |ds|
  {
    if ds == [] {
      assert Chars(ds) + rest == rest;
    } else {
      var t := Chars(ds) + rest;
      assert t[0] == 48 + ds[0] && t[1..] == Chars(ds[1..]) + rest;
      ScanDigits(10 * v + ds[0], ds[1..], rest);
      FirstDigit(ds);
      ShiftDigits(v, ds[0], Pow10(|ds| - 1), Num(ds[1..]));
    }
  }

  lemma ShiftDigits(v: nat, d: nat, p: nat, x: nat)
    ensures (10 * v + d) * p + x == v * (10 * p) + (d * p + x)
  {
    MulAdd(10 * v, d, p);
  }

  lemma {:induction false} FirstDigit(ds: seq<nat>)
    requires ds != []
    ensures Num(ds) == ds[0] * Pow10(|ds| - 1) + Num(ds[1..])
    decreases |ds|
  {
    if |ds| > 1 {
      var e := ds[..|ds| - 1];
      FirstDigit(e);
      assert ds[1..][..|ds| - 2] == e[1..];
      TenMore(ds[0], Pow10(|ds| - 2));
    }
  }

  function DecDigits(n: nat): (ds: seq<nat>)
    ensures |ds| > 0 && AllDigits(ds)
  {
    if n < 10 then [n] else DecDigits(n / 10) + [n % 10]
  }

  lemma {:induction false} DecIsDigits(n: nat)
    ensures var ds := DecDigits(n);
      Dec(n) == Chars(ds) && Num(ds) == n && (n > 0 ==> ds[0] > 0) && (n < 10 ==> |ds| == 1)
  {
    var ds := DecDigits(n);
    if n >= 10 {
      DecIsDigits(n / 10);
      var e := DecDigits(n / 10);
      assert ds[..|ds| - 1] == e;
      assert Chars(ds) == Chars(e) + [ZERO + n % 10];
    } else {
      assert ds[..0] == [];
    }
  }

  // The integer digits, and what comes behind them.
  lemma WholeScans(w: nat, rest: seq<Byte>)
    requires NoDigitFirst(rest)
    ensures Scan(0, Dec(w) + rest) == Scanned(w, rest) && IsDigit((Dec(w) + rest)[0])
    ensures (Dec(w) + rest)[0] == 48 ==> |Dec(w)| == 1
  {
    DecIsDigits(w);
    ScanDigits(0, DecDigits(w), rest);
  }

  // What the text with these digits behind the point reads as.
  function ReadingOf(negative: bool, w: nat, ds: seq<nat>, smart: bool): Reading {
    if ds != [] then Reading(negative, w * Pow10(|ds|) + Num(ds), |ds|)
    else if smart then Reading(negative, w, 0)
    else Reading(negative, 10 * w, 1)
  }

  // Digits, a point and the digits r.
  lemma PointIs(negative: bool, t: seq<Byte>, w: nat, r: seq<Byte>, u: nat)
    requires t != [] && IsDigit(t[0]) && Scan(0, t) == Scanned(w, [46] + r) && r != [] && IsDigit(r[0])
    requires Scan(w, r) == Scanned(u, [])
    ensures ReadUnsigned(negative, t) == Some(Reading(negative, u, |r|))
  {
    assert ([46] + r)[1..] == r;
  }

  lemma PointReads(negative: bool, w: nat, ds: seq<nat>, u: nat)
    requires AllDigits(ds) && ds != [] && u == w * Pow10(|ds|) + Num(ds)
    ensures ReadUnsigned(negative, Dec(w) + ([46] + Chars(ds))) == Some(Reading(negative, u, |ds|))
  {
    WholeScans(w, [46] + Chars(ds));
    ScanDigits(w, ds, []);
    assert Chars(ds) + [] == Chars(ds);
    PointIs(negative, Dec(w) + ([46] + Chars(ds)), w, Chars(ds), u);
  }

  lemma ZeroReads(negative: bool, w: nat)
    ensures ReadUnsigned(negative, Dec(w) + [46, 48]) == Some(Reading(negative, 10 * w, 1))
  {
    var rest: seq<Byte> := [46, 48];
    var zero: seq<Byte> := [48];
    WholeScans(w, rest);
    assert rest[1..] == zero && zero[1..] == [];
    assert Scan(w, zero) == Scan(10 * w, []) == Scanned(10 * w, []);
  }

  lemma PlainReads(negative: bool, w: nat)
    ensures ReadUnsigned(negative, Dec(w) + []) == Some(Reading(negative, w, 0))
  {
    WholeScans(w, []);
  }

  lemma UnsignedReads(negative: bool, w: nat, ds: seq<nat>, smart: bool, r: Reading)
    requires AllDigits(ds) && r == ReadingOf(negative, w, ds, smart)
    ensures ReadUnsigned(negative, Dec(w) + FractionText(ds, smart)) == Some(r)
  {
    if ds != [] {
      PointReads(negative, w, ds, r.units);
    } else if smart {
      PlainReads(negative, w);
    } else {
      ZeroReads(negative, w);
    }
  }

  lemma SignReads(negative: bool, body: seq<Byte>)
    requires body != [] && body[0] != 45
    ensures var text := (if negative then [45] else []) + body;
      && ReadText(text) == ReadUnsigned(negative, body) && (text[0] == 45 <==> negative)
      && (if negative then text[1..] else text) == body
  {
    if negative {
      assert ([45] + body)[1..] == body;
    } else {
      assert [] + body == body;
    }
  }

  lemma PrintedReads(negative: bool, t: nat, k: nat, smart: bool)
    ensures var text := Printed(negative, t, k, smart);
      && ReadText(text) == Some(ReadingOf(negative, Whole(t, k), Strip(Fixed(t, k)), smart))
      && text != [] && (text[0] == 45 <==> negative) && NoZeroFirst(if negative then text[1..] else text)
  {
    var w, ds := Whole(t, k), Strip(Fixed(t, k));
    var rest := FractionText(ds, smart);
    UnsignedReads(negative, w, ds, smart, ReadingOf(negative, w, ds, smart));
    WholeScans(w, rest);
    SignReads(negative, Dec(w) + rest);
    PrintedIs(negative, t, k, smart);
  }

  lemma PrintedIs(negative: bool, t: nat, k: nat, smart: bool)
    ensures Printed(negative, t, k, smart) ==
      (if negative then [45] else []) + (Dec(Whole(t, k)) + FractionText(Strip(Fixed(t, k)), smart))
  {
    Assoc(if negative then [45] else [], Dec(Whole(t, k)), FractionText(Strip(Fixed(t, k)), smart));
  }

  // ---- The value of what is printed ----

  lemma WholeDigits(t: nat, k: nat)
    ensures t == Whole(t, k) * Pow10(k) + Num(Fixed(t, k)) && Num(Fixed(t, k)) < Pow10(k)
    ensures IsWhole(t, k) <==> Num(Fixed(t, k)) == 0
  {
    WholeAndDigits(t, k);
    NumBelow(Fixed(t, k));
    ModOf(t, Whole(t, k), Pow10(k), Num(Fixed(t, k)));
  }

  lemma ModOf(t: nat, w: nat, p: nat, x: nat)
    requires t == w * p + x && x < p
    ensures t % p == x
  {
    DivMod(t, p);
    if w <= t / p {
      Quotients(w, t / p, p, x, t % p);
    } else {
      Quotients(t / p, w, p, t % p, x);
    }
  }

  lemma {:induction false} Quotients(a: nat, b: nat, p: nat, x: nat, y: nat)
    requires a <= b && a * p + x == b * p + y && x < p && y < p
    ensures x == y
  {
    if a < b {
      var d: nat := b - a;
      MulAdd(a, d, p);
      MulMono(1, d, p);
    }
  }

  lemma BothPositive(a: nat, p: nat)
    requires a > 0 && p > 0
    ensures a * p > 0
  {
    MulMono(1, a, p);
  }

  lemma StripLast(ds: seq<nat>)
    requires AllDigits(ds) && Strip(ds) != []
    ensures Num(Strip(ds)) % 10 != 0
  {
    var e := Strip(ds);
    assert Num(e) == Num(e[..|e| - 1]) * 10 + e[|e| - 1];
  }

  // The digits that are left are none exactly when the value is whole.
  lemma StripIsWhole(t: nat, k: nat)
    ensures Strip(Fixed(t, k)) == [] <==> IsWhole(t, k)
  {
    var ds := Strip(Fixed(t, k));
    WholeDigits(t, k);
    StripValue(Fixed(t, k));
    if ds != [] {
      StripLast(Fixed(t, k));
      BothPositive(Num(ds), Pow10(k - |ds|));
    } else {
      MulComm(0, Pow10(k));
    }
  }

  lemma Tens(w: nat, p: nat, x: nat)
    requires p % 10 == 0 && x % 10 != 0
    ensures (w * p + x) % 10 != 0
  {
    assert w * p == (w * (p / 10)) * 10;
  }

  lemma UnitsMean(w: nat, j: nat, f: nat, r: nat, p: nat, t: nat)
    requires Reads(w, j, f, r, t) && Times(p, j, r)
    ensures (w * j + f) * p == t * j
  {
    MulAssoc(w * j + f, r, j);
    MulComm(j, r);
  }

  lemma LastPlace(w: nat, ds: seq<nat>)
    requires ds != [] && Num(ds) % 10 != 0
    ensures (w * Pow10(|ds|) + Num(ds)) % 10 != 0
  {
    assert Pow10(|ds|) == 10 * Pow10(|ds| - 1);
    Tens(w, Pow10(|ds|), Num(ds));
  }

  lemma SplitMeans(w: nat, ds: seq<nat>, t: nat, k: nat)
    requires ds == Strip(Fixed(t, k)) && w == Whole(t, k) && ds != []
    ensures (w * Pow10(|ds|) + Num(ds)) * Pow10(k) == t * Pow10(|ds|)
  {
    TextReadsBack(t, k);
    StripParts(Fixed(t, k));
    UnitsMean(w, Pow10(|ds|), Num(ds), Pow10(k - |ds|), Pow10(k), t);
  }

  lemma WholeMeans(w: nat, t: nat, k: nat)
    requires Strip(Fixed(t, k)) == [] && w == Whole(t, k)
    ensures w * Pow10(k) == t && (10 * w) * Pow10(k) == t * 10
  {
    StripIsWhole(t, k);
    WholeDigits(t, k);
    MulAssoc(10, w, Pow10(k));
  }

  lemma ReadingMeans(negative: bool, t: nat, k: nat, smart: bool)
    ensures Means(ReadingOf(negative, Whole(t, k), Strip(Fixed(t, k)), smart), t, k, smart)
  {
    var w, ds := Whole(t, k), Strip(Fixed(t, k));
    StripIsWhole(t, k);
    if ds != [] {
      SplitMeans(w, ds, t, k);
      StripLast(Fixed(t, k));
      LastPlace(w, ds);
    } else {
      WholeMeans(w, t, k);
      assert Pow10(0) == 1 && Pow10(1) == 10;
    }
  }

  // ---- How many digits are kept ----

  lemma {:induction false} CountsDigits(n: nat)
    requires n > 0
    ensures Pow10(DigitCount(n) - 1) <= n < Pow10(DigitCount(n))
  {
    if n >= 10 {
      CountsDigits(n / 10);
    }
  }

  lemma ZeroFraction(s: nat)
    requires s > 0
    ensures Kept(0, 0, s) == 0
  {
    var ds := Digits(0, s, LENGTH);
    LeftOfZero(s, LENGTH);
    assert AllZero(ds);
  }

  lemma {:induction false} LeftOfZero(s: nat, n: nat)
    requires s > 0
    ensures Left(0, s, n) == 0 && forall i :: 0 <= i < n ==> Digit(0, s, i) == 0
  {
    if n > 0 {
      LeftOfZero(s, n - 1);
      DigitParts(0, s, n - 1);
    }
  }

  // The first digit other than 0 of a fraction stands at place z.
  lemma FirstPlace(m: nat, sh: nat, z: nat)
    requires sh <= 60 && 0 < m < Pow2(sh) && z == LeadingZeros(Digits(m, Pow2(sh), LENGTH)) && z < LENGTH
    requires Digit(m, Pow2(sh), z) != 0
    ensures m * Pow10(z) < Pow2(sh) <= m * Pow10(z + 1)
  {
    var s := Pow2(sh);
    var front, more := Digits(m, s, z), Digits(m, s, z + 1);
    forall i | 0 <= i < z ensures front[i] == 0 {
      assert front[i] == Digit(m, s, i) == Digits(m, s, LENGTH)[i];
    }
    ZerosMakeZero(front);
    DigitsExact(m, s, z);
    DigitsExact(m, s, z + 1);
    NumNext(m, s, z);
    MulMono(1, Num(more), s);
  }

  lemma KeptIsSixteenth(n: nat, m: nat, sh: nat)
    requires sh <= 60 && m < Pow2(sh)
    ensures SixteenthPlace(n, m, Pow2(sh), Kept(n, m, Pow2(sh)))
  {
    var s := Pow2(sh);
    if n > 0 {
      CountsDigits(n);
    } else if m == 0 {
      ZeroFraction(s);
    } else {
      SixteenSignificant(m, sh);
      FirstPlace(m, sh, LeadingZeros(Digits(m, s, LENGTH)));
    }
  }

  lemma TotalRounds(n: nat, m: nat, s: nat)
    requires m < s
    ensures Rounds(Total(n, m, s), n, m, s, Kept(n, m, s))
  {
    NearestValue(n, m, s);
  }

  /** The printed text shows the number: its sign, and its value rounded at the sixteenth significant digit. */
  lemma PrintedShows(negative: bool, n: nat, m: nat, sh: nat, smart: bool, k: nat, t: nat)
    requires sh <= 60 && m < Pow2(sh) && k == Kept(n, m, Pow2(sh)) && t == Total(n, m, Pow2(sh))
    ensures Shows(Printed(negative, t, k, smart), negative, n, m, Pow2(sh), smart)
  {
    PrintedReads(negative, t, k, smart);
    var r := ReadingOf(negative, Whole(t, k), Strip(Fixed(t, k)), smart);
    ReadingMeans(negative, t, k, smart);
    assert SixteenthPlace(n, m, Pow2(sh), k) && Rounds(t, n, m, Pow2(sh), k) by {
      KeptIsSixteenth(n, m, sh);
      TotalRounds(n, m, Pow2(sh));
    }
    assert Means(r, t, k, smart);
  }
}
