/** NUL-terminated text in byte memory. */
module CText {

  type Byte = b: int | 0 <= b < 256

  type Text = seq<Byte>

  // t stands at address a, with its NUL.
  ghost predicate TextAt(mem: seq<Byte>, a: nat, t: Text) {
    a + |t| < |mem| && mem[a..a + |t|] == t && mem[a + |t|] == 0 && 0 !in t
  }

  lemma CharAt(mem: seq<Byte>, a: nat, t: Text, i: nat)
    requires TextAt(mem, a, t) && i <= |t|
    ensures mem[a + i] == (if i < |t| then t[i] else 0) && (i < |t| ==> t[i] != 0)
  {
    if i < |t| {
      assert mem[a..a + |t|][i] == t[i];
    }
  }

  lemma NotLonger(mem: seq<Byte>, a: nat, t: Text, u: Text)
    requires TextAt(mem, a, t) && TextAt(mem, a, u)
    ensures |u| <= |t|
  {
    if |t| < |u| {
      CharAt(mem, a, t, |t|);
      CharAt(mem, a, u, |t|);
    }
  }

  // An address holds one text.
  lemma TextUnique(mem: seq<Byte>, a: nat, t: Text, u: Text)
    requires TextAt(mem, a, t) && TextAt(mem, a, u)
    ensures t == u
  {
    NotLonger(mem, a, t, u);
    NotLonger(mem, a, u, t);
  }

  /** Compares two texts byte by byte: 1 exactly when they are equal. */
  method StrEq(mem: array<Byte>, a: nat, b: nat, ghost t: Text, ghost u: Text) returns (r: int)
    requires TextAt(mem[..], a, t) && TextAt(mem[..], b, u)
    ensures r == if t == u then 1 else 0
  {
    var x0, x1 := a, b;
    ghost var i: nat := 0;
    while true
      invariant x0 == a + i && x1 == b + i && i <= |t| && i <= |u| && t[..i] == u[..i]
      decreases |t| - i
    {
      CharAt(mem[..], a, t, i);
      CharAt(mem[..], b, u, i);
      var x9, x10 := mem[x0], mem[x1];
      if x9 != x10 {
        return 0;
      }
      if x9 == 0 {
        assert t == t[..i] && u == u[..i];
        return 1;
      }
      x0 := x0 + 1;
      x1 := x1 + 1;
      i := i + 1;
    }
  }
}
