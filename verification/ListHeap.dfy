/** Growing lists in word memory: capacity at ptr-8, length at ptr, elements from ptr+8 on. */
module ListHeap {
  import Alloc
  import opened Numbers

  predicate Inside(a: int, r: Alloc.Region) {
    r.base <= a && a + 8 <= r.base + r.size
  }

  function Read(words: map<int, int>, a: int): int {
    if a in words then words[a] else 0
  }

  // The block that a list of this capacity lies in.
  function BlockOf(ptr: int, cap: nat): Alloc.Region {
    Alloc.Region(ptr - 8, (cap + 2) * 8)
  }

  predicate ListAt(words: map<int, int>, ptr: int, s: seq<int>, cap: nat) {
    && |s| <= cap && Read(words, ptr - 8) == cap && Read(words, ptr) == |s|
    && forall k :: 0 <= k < |s| ==> Read(words, ptr + 8 * (k + 1)) == s[k]
  }

  // Only words inside one of the two blocks differ.
  ghost predicate WritesOnly(before: map<int, int>, after: map<int, int>, r: Alloc.Region) {
    forall a :: Read(after, a) != Read(before, a) ==> Inside(a, r)
  }

  class Memory {
    var words: map<int, int>

    constructor ()
      ensures words == map[]
    {
      words := map[];
    }

    method Store(a: int, v: int)
      modifies this
      ensures words == old(words)[a := v]
    {
      words := words[a := v];
    }

    method Load(a: int) returns (v: int)
      ensures v == Read(words, a)
    {
      v := if a in words then words[a] else 0;
    }

    // Copies the elements to the list at x0, and counts them.
    method CopyElements(x19: int, x0: int, len: nat, ghost s: seq<int>, ghost cap: nat, ghost room: nat)
      returns (ghost copied: nat)
      requires ListAt(words, x19, s, cap) && len == |s| <= room && Alloc.Apart(BlockOf(x19, cap), BlockOf(x0, room))
      modifies this
      ensures copied == len && ListAt(words, x19, s, cap)
      ensures forall k :: 0 <= k < len ==> Read(words, x0 + 8 * (k + 1)) == s[k]
      ensures Read(words, x0) == old(Read(words, x0)) && Read(words, x0 - 8) == old(Read(words, x0 - 8))
      ensures WritesOnly(old(words), words, BlockOf(x0, room))
    {
      var x9 := 1;
      copied := 0;
      while x9 <= len
        invariant 1 <= x9 <= len + 1 && copied == x9 - 1
        invariant ListAt(words, x19, s, cap)
        invariant forall k :: 0 <= k < x9 - 1 ==> Read(words, x0 + 8 * (k + 1)) == s[k]
        invariant Read(words, x0) == old(Read(words, x0)) && Read(words, x0 - 8) == old(Read(words, x0 - 8))
        invariant WritesOnly(old(words), words, BlockOf(x0, room))
      {
        assert Read(words, x19 + 8 * ((x9 - 1) + 1)) == s[x9 - 1];
        var x12 := Load(x19 + 8 * x9);
        Store(x0 + 8 * x9, x12);
        copied := copied + 1;
        x9 := x9 + 1;
      }
    }

    /** Appends in place while there is room; otherwise doubles the capacity into the fresh block at raw and copies.
        With a capacity of at least 1 the result is the list with the value at its end, in its own block. */
    method Append(ptr: int, value: int, raw: int, ghost s: seq<int>, ghost cap: nat)
      returns (x0: int, ghost copied: nat)
      requires ListAt(words, ptr, s, cap)
      requires |s| == cap ==> Alloc.Apart(BlockOf(ptr, cap), Alloc.Region(raw, (2 * cap + 2) * 8))
      modifies this
      ensures copied == Copies(|s|, cap) && x0 == (if |s| < cap then ptr else raw + 8)
      ensures cap >= 1 ==>
        ListAt(words, x0, s + [value], CapAfter(|s|, cap)) &&
        WritesOnly(old(words), words, BlockOf(x0, CapAfter(|s|, cap)))
      ensures cap >= 1 && |s| == cap ==> ListAt(words, ptr, s, cap)
      ensures Read(words, x0 + 8 * (|s| + 1)) == value &&
        (Inside(x0 + 8 * (|s| + 1), BlockOf(x0, CapAfter(|s|, cap))) <==> cap >= 1)
    {
      var x21 := Load(ptr);
      var x22 := Load(ptr - 8);
      if x21 < x22 {
        x0, copied := ptr, 0;
        Store(ptr + 8 * (x21 + 1), value);
        Store(ptr, x21 + 1);
        return;
      }
      x22 := x22 + x22;
      x0 := raw;
      Store(x0, x22);
      x0 := x0 + 8;
      Store(x0, x21);
      copied := CopyElements(ptr, x0, x21, s, cap, x22);
      Store(x0 + 8 * (x21 + 1), value);
      Store(x0, x21 + 1);
    }

    /** Appends the values one after another; raws[i] is where a new block would be for the i-th of them. The list holds
        all of them, and the elements copied on the way are at most two for each append, and those it started with. */
    method AppendAll(ptr: int, values: seq<int>, raws: seq<int>, ghost s: seq<int>, ghost cap: nat)
      returns (x0: int, ghost copied: nat)
      requires ListAt(words, ptr, s, cap) && cap >= 1 && |raws| == |values|
      requires forall i :: 0 <= i < |values| ==> FreshFor(ptr, raws, |s|, cap, i)
      modifies this
      ensures x0 == PtrRun(ptr, raws, |s|, cap, |values|)
      ensures ListAt(words, x0, s + values, CapRun(|s|, cap, |values|))
      ensures copied == CopyRun(|s|, cap, |values|) && copied <= 2 * |values| + |s|
      ensures forall a :: Read(words, a) != old(Read(words, a)) ==> InRun(ptr, raws, |s|, cap, |values|, a)
    {
      x0, copied := ptr, 0;
      for i := 0 to |values|
        invariant x0 == PtrRun(ptr, raws, |s|, cap, i) && copied == CopyRun(|s|, cap, i)
        invariant ListAt(words, x0, s + values[..i], CapRun(|s|, cap, i))
        invariant forall a :: Read(words, a) != old(Read(words, a)) ==> InRun(ptr, raws, |s|, cap, i, a)
      {
        RunKeeps(|s|, cap, i);
        assert FreshFor(ptr, raws, |s|, cap, i);
        ghost var more;
        x0, more := Append(x0, values[i], raws[i], s + values[..i], CapRun(|s|, cap, i));
        copied := copied + more;
        assert s + values[..i] + [values[i]] == s + values[..i + 1];
      }
      assert values[..|values|] == values;
      AmortizedCopies(|s|, cap, |values|);
    }

    // A list literal: room for its elements, and for 4 at least.
    method NewLiteral(raw: int, elems: seq<int>) returns (ptr: int)
      modifies this
      ensures ptr == raw + 8 && ListAt(words, ptr, elems, LiteralCap(|elems|)) && LiteralCap(|elems|) >= 4
      ensures WritesOnly(old(words), words, BlockOf(ptr, LiteralCap(|elems|)))
    {
      var cap := if |elems| > 4 then |elems| else 4;
      Store(raw, cap);
      ptr := raw + 8;
      Store(ptr, |elems|);
      for k := 0 to |elems|
        invariant Read(words, raw) == cap && Read(words, ptr) == |elems|
        invariant forall j :: 0 <= j < k ==> Read(words, ptr + 8 * (j + 1)) == elems[j]
        invariant WritesOnly(old(words), words, BlockOf(ptr, cap))
      {
        Store(ptr + 8 * (k + 1), elems[k]);
      }
    }

    /** The numbers start, start + step and so on up to the end: counted by one loop, stored by another. The capacity is
        the length, 0 for an empty range. */
    method NewRange(raw: int, start: Word, end: Word, step: Word) returns (ptr: int)
      requires Counts(start, end, step)
      modifies this
      ensures var n := Count(start, end, step);
        ptr == raw + 8 && ListAt(words, ptr, Range(start, step, n), n) && WritesOnly(old(words), words, BlockOf(ptr, n))
    {
      var count := CountRange(start, end, step);
      Store(raw, count);
      ptr := raw + 8;
      Store(ptr, count);
      var x10, x11 := 0, start as int;
      while x10 < count
        invariant 0 <= x10 <= count && x11 == start + Times(x10, step)
        invariant Read(words, raw) == count && Read(words, ptr) == count
        invariant forall j :: 0 <= j < x10 ==> Read(words, ptr + 8 * (j + 1)) == start + Times(j, step)
        invariant WritesOnly(old(words), words, BlockOf(ptr, count))
      {
        Store(ptr + 8 * (x10 + 1), x11);
        x11 := x11 + step;
        x10 := x10 + 1;
      }
    }
  }

  // ---- How many numbers a range has ----

  // The numbers before the end, upward or downward; none for a step of 0.
  function Count(start: int, end: int, step: int): nat {
    if step > 0 && start < end then (end - start + step - 1) / step
    else if step < 0 && start > end then (start - end - step - 1) / (-step)
    else 0
  }

  predicate Before(x: int, end: int, step: int) {
    if step > 0 then x < end else step < 0 && x > end
  }

  // The first number past the last one still fits a register, so the counting loop sees it.
  predicate Counts(start: Word, end: Word, step: Word) {
    -TWO63 <= start + Times(Count(start, end, step), step) < TWO63
  }

  lemma {:induction false} TimesIs(n: nat, step: int)
    ensures Times(n, step) == n * step
  {
    if n > 0 {
      TimesIs(n - 1, step);
    }
  }

  lemma DivBounds(d: nat, step: nat, q: nat)
    requires step > 0 && d > 0 && q == (d + step - 1) / step
    ensures q > 0 && (q - 1) * step < d <= q * step
  {
    var r := (d + step - 1) % step;
    assert d + step - 1 == q * step + r;
    assert (q - 1) * step == q * step - step;
  }

  lemma Multiples(d: nat, step: nat, q: nat, k: nat)
    requires step > 0 && d > 0 && q == (d + step - 1) / step
    ensures q > 0 && (k < q ==> k * step < d) && d <= q * step
  {
    DivBounds(d, step, q);
    if k < q {
      MulMono(k, q - 1, step);
    }
  }

  /** The count is exact: its numbers all lie before the end, and the next one does not. */
  lemma CountExact(start: int, end: int, step: int, k: nat)
    ensures k < Count(start, end, step) ==> Before(start + Times(k, step), end, step)
    ensures !Before(start + Times(Count(start, end, step), step), end, step)
  {
    var n := Count(start, end, step);
    TimesIs(n, step);
    TimesIs(k, step);
    if step > 0 && start < end {
      Multiples(end - start, step, n, k);
    } else if step < 0 && start > end {
      Multiples(start - end, -step, n, k);
      Negated(n, step);
      Negated(k, step);
    }
  }

  lemma Negated(k: nat, step: int)
    ensures k * step == -(k * -step)
  {
  }

  // The counter's register after k turns.
  function IterAt(start: Word, step: Word, k: nat): Word {
    Wrap(start + Times(k, step))
  }

  // The counting loop leaves after exactly k turns.
  ghost predicate LeavesAfter(start: Word, end: Word, step: Word, k: nat) {
    !Before(IterAt(start, step, k), end, step) && forall j: nat :: j < k ==> Before(IterAt(start, step, j), end, step)
  }

  lemma WrapSame(x: int)
    requires -TWO63 <= x < TWO63
    ensures Wrap(x) == x
  {
  }

  lemma WrapFar(x: int)
    requires TWO63 <= x < TWO63 + TWO64 || -TWO63 - TWO64 <= x < -TWO63
    ensures if x > 0 then Wrap(x) == x - TWO64 else Wrap(x) == x + TWO64
  {
  }

  /** The loop counts the numbers of the range exactly when the first one past the end still fits a register. Otherwise
      the register wraps around, and the loop goes on. */
  lemma CountsExactly(start: Word, end: Word, step: Word)
    ensures LeavesAfter(start, end, step, Count(start, end, step)) <==> Counts(start, end, step)
  {
    var n := Count(start, end, step);
    CountExact(start, end, step, 0);
    forall j: nat | j < n ensures Before(IterAt(start, step, j), end, step) {
      CountExact(start, end, step, j);
      Between(start, end, step, j);
      WrapSame(start + Times(j, step));
    }
    if Counts(start, end, step) {
      WrapSame(start + Times(n, step));
    } else {
      JustPast(start, end, step);
      WrapFar(start + Times(n, step));
    }
  }

  /** Up to the largest integer in steps of 2: the number after 2^63 - 2 does not fit, and the loop misses the end. */
  lemma WrapExample()
    ensures !LeavesAfter(TWO63 - 4, TWO63 - 1, 2, Count(TWO63 - 4, TWO63 - 1, 2))
  {
    assert Times(2, 2) == 4;
    CountsExactly(TWO63 - 4, TWO63 - 1, 2);
  }

  // The numbers of the range lie between its start and its end.
  lemma Between(start: int, end: int, step: int, k: nat)
    requires k < Count(start, end, step)
    ensures start <= start + Times(k, step) < end || end < start + Times(k, step) <= start
  {
    CountExact(start, end, step, k);
    TimesIs(k, step);
    if step < 0 {
      assert k * step == -(k * -step);
      MulMono(0, k, -step);
    } else {
      MulMono(0, k, step);
    }
  }

  // The first number past the end is less than one step past it.
  lemma JustPast(start: int, end: int, step: int)
    requires Count(start, end, step) > 0
    ensures var x := start + Times(Count(start, end, step), step);
      if step > 0 then end <= x < end + step else end + step < x <= end
  {
    CountExact(start, end, step, Count(start, end, step) - 1);
  }

  /** The counting loop, upward or downward. */
  method CountRange(start: Word, end: Word, step: Word) returns (x15: nat)
    requires Counts(start, end, step)
    ensures x15 == Count(start, end, step)
  {
    ghost var n := Count(start, end, step);
    CountExact(start, end, step, 0);
    var x11: Word := start;
    x15 := 0;
    if step > 0 {
      while x11 < end
        invariant x15 <= n && x11 == start + Times(x15, step)
        decreases n - x15
      {
        NoWrap(start, end, step, x15, x11);
        x15 := x15 + 1;
        x11 := Wrap(x11 + step);
      }
      OnlyAtEnd(start, end, step, x15);
    } else if step < 0 {
      while x11 > end
        invariant x15 <= n && x11 == start + Times(x15, step)
        decreases n - x15
      {
        NoWrap(start, end, step, x15, x11);
        x15 := x15 + 1;
        x11 := Wrap(x11 + step);
      }
      OnlyAtEnd(start, end, step, x15);
    }
  }

  // One turn: the register moves on without wrapping.
  lemma NoWrap(start: Word, end: Word, step: Word, k: nat, x11: Word)
    requires Counts(start, end, step) && k <= Count(start, end, step) && x11 == start + Times(k, step)
    requires Before(x11, end, step)
    ensures k < Count(start, end, step) && Wrap(x11 + step) == start + Times(k + 1, step)
  {
    OnlyAtEnd(start, end, step, k);
    if k + 1 < Count(start, end, step) {
      Between(start, end, step, k + 1);
    }
    WrapSame(x11 + step);
  }

  lemma OnlyAtEnd(start: int, end: int, step: int, k: nat)
    requires k <= Count(start, end, step)
    ensures k < Count(start, end, step) <==> Before(start + Times(k, step), end, step)
  {
    CountExact(start, end, step, k);
  }

  function Times(n: nat, step: int): int {
    if n == 0 then 0 else Times(n - 1, step) + step
  }

  function Range(start: int, step: int, count: nat): (s: seq<int>)
    ensures |s| == count && forall j :: 0 <= j < count ==> s[j] == start + Times(j, step)
  {
    seq(count, j requires 0 <= j < count => start + Times(j, step))
  }

  function LiteralCap(n: nat): nat {
    if n > 4 then n else 4
  }

  // ---- Runs of appends ----

  function CapAfter(len: nat, cap: nat): nat {
    if len < cap then cap else 2 * cap
  }

  function Copies(len: nat, cap: nat): nat {
    if len < cap then 0 else len
  }

  // The capacity after n appends to a list of length len0 and capacity cap0.
  function CapRun(len0: nat, cap0: nat, n: nat): nat {
    if n == 0 then cap0 else CapAfter(len0 + n - 1, CapRun(len0, cap0, n - 1))
  }

  // The elements these n appends copy in all.
  function CopyRun(len0: nat, cap0: nat, n: nat): nat {
    if n == 0 then 0 else CopyRun(len0, cap0, n - 1) + Copies(len0 + n - 1, CapRun(len0, cap0, n - 1))
  }

  // Where the list is after n appends.
  function PtrRun(ptr: int, raws: seq<int>, len0: nat, cap0: nat, n: nat): int
    requires n <= |raws|
  {
    if n == 0 then ptr
    else if len0 + n - 1 < CapRun(len0, cap0, n - 1) then PtrRun(ptr, raws, len0, cap0, n - 1)
    else raws[n - 1] + 8
  }

  // When append n needs a new block, that block is clear of the list's current one.
  predicate FreshFor(ptr: int, raws: seq<int>, len0: nat, cap0: nat, n: nat)
    requires n <= |raws|
  {
    n < |raws| && CapRun(len0, cap0, n) == len0 + n ==>
      Alloc.Apart(BlockOf(PtrRun(ptr, raws, len0, cap0, n), CapRun(len0, cap0, n)),
                  Alloc.Region(raws[n], (2 * CapRun(len0, cap0, n) + 2) * 8))
  }

  // a lies in a block the list has had by append n.
  predicate InRun(ptr: int, raws: seq<int>, len0: nat, cap0: nat, n: nat, a: int)
    requires n <= |raws|
  {
    exists i: nat :: i <= n && Inside(a, BlockOf(PtrRun(ptr, raws, len0, cap0, i), CapRun(len0, cap0, i)))
  }

  // There is always room for the next element, and copying pays for exactly the growth.
  lemma {:induction false} RunKeeps(len0: nat, cap0: nat, n: nat)
    requires 1 <= cap0 && len0 <= cap0
    ensures len0 + n <= CapRun(len0, cap0, n) && CopyRun(len0, cap0, n) == CapRun(len0, cap0, n) - cap0
    ensures CapRun(len0, cap0, n) > cap0 ==> CapRun(len0, cap0, n) <= 2 * (len0 + n - 1)
  {
    if n > 0 {
      RunKeeps(len0, cap0, n - 1);
    }
  }

  /** n appends copy at most 2n + len0 elements in all: constant cost for one append, on average. */
  lemma AmortizedCopies(len0: nat, cap0: nat, n: nat)
    requires 1 <= cap0 && len0 <= cap0
    ensures CopyRun(len0, cap0, n) <= 2 * n + len0 && len0 + n <= CapRun(len0, cap0, n)
  {
    RunKeeps(len0, cap0, n);
  }

  /** A capacity of 0 never grows: from there on every append writes past its block. */
  lemma {:induction false} ZeroStaysZero(n: nat)
    ensures CapRun(0, 0, n) == 0
  {
    if n > 0 {
      ZeroStaysZero(n - 1);
    }
  }
}
