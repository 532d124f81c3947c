/** Powers, decimal numbers, and 64-bit words with wrap-around. */
module Numbers {

  const TWO63: int := 0x8000_0000_0000_0000
  const TWO64: int := 0x1_0000_0000_0000_0000

  type Word = x: int | -TWO63 <= x < TWO63

  function Wrap(x: int): Word {
    (x + TWO63) % TWO64 - TWO63
  }

  function Unsigned(x: Word): nat {
    if x < 0 then x + TWO64 else x
  }

  function Pow2(n: nat): (r: nat)
    ensures r > 0
  {
    if n == 0 then 1 else 2 * Pow2(n - 1)
  }

  function Pow10(n: nat): (r: nat)
    ensures r > 0
  {
    if n == 0 then 1 else 10 * Pow10(n - 1)
  }

  // The number with these decimal digits, most significant first.
  function Num(ds: seq<nat>): nat {
    if ds == [] then 0 else Num(ds[..|ds| - 1]) * 10 + ds[|ds| - 1]
  }

  predicate AllDigits(ds: seq<nat>) {
    forall i :: 0 <= i < |ds| ==> ds[i] < 10
  }

  lemma {:induction false} MulMono(a: nat, b: nat, c: nat)
    requires a <= b
    ensures a * c <= b * c
    decreases b - a
  {
    if a < b {
      MulMono(a, b - 1, c);
      assert b * c == (b - 1) * c + c;
    }
  }

  // The quotient is the only number with a remainder below the divisor.
  lemma DivIs(x: nat, d: nat, q: nat, r: nat)
    requires r < d && x == q * d + r
    ensures x / d == q
  {
    var p := x / d;
    assert x == p * d + x % d;
    assert (p + 1) * d == p * d + d && (q + 1) * d == q * d + d;
    if p < q {
      MulMono(p + 1, q, d);
    } else if q < p {
      MulMono(q + 1, p, d);
    }
  }

  lemma DivMod(x: nat, s: nat)
    requires s > 0
    ensures x == (x / s) * s + x % s && x % s < s
  {
  }

  lemma Nested(x: nat, y: nat, a: nat, s: nat, q: nat, d: nat, r: nat)
    requires x == y * a + s && s < a && y == q * d + r && r < d
    ensures x == q * (a * d) + (r * a + s) && r * a + s < a * d
  {
    MulMono(r + 1, d, a);
    assert (r + 1) * a == r * a + a;
    assert (q * d + r) * a == q * d * a + r * a;
    assert q * d * a == q * (d * a);
  }

  // Dividing twice is dividing by the product.
  lemma DivDiv(x: nat, a: nat, d: nat)
    requires a > 0 && d > 0
    ensures a * d > 0 && x / a / d == x / (a * d)
  {
    var y, s := x / a, x % a;
    DivMod(x, a);
    var q, r := y / d, y % d;
    DivMod(y, d);
    Nested(x, y, a, s, q, d, r);
    DivIs(x, a * d, q, r * a + s);
  }
}
