/** Bytes on a stream: the fixed-width integers, counted strings and counted lists of both cache files. */
module Wire {

  import opened CText
  import opened Numbers
  import opened Sequences

  type Bytes = seq<Byte>

  type Word16 = x: int | 0 <= x < 0x1_0000
  type Word32 = x: int | 0 <= x < 0x1_0000_0000
  type Word64 = x: int | 0 <= x < 0x1_0000_0000_0000_0000
  type Int32 = x: int | -0x8000_0000 <= x < 0x8000_0000
  type Int64 = x: int | -0x8000_0000_0000_0000 <= x < 0x8000_0000_0000_0000

  // What a read at the front of these bytes gives: a value and what is left, or Ran when the bytes run out.
  datatype Got<+T> = Ran | Got(value: T, rest: Bytes) {
    predicate IsFailure() {
      Ran?
    }

    function PropagateFailure<U>(): Got<U> {
      Ran
    }

    function Extract(): (T, Bytes)
      requires Got?
    {
      (value, rest)
    }
  }

  // ---- Integers, low byte first ----

  function Span(n: nat): (r: int)
    ensures r > 0
  {
    if n == 0 then 1 else 256 * Span(n - 1)
  }

  function Le(n: nat, v: nat): (b: Bytes)
    ensures |b| == n
  {
    if n == 0 then [] else [v % 256] + Le(n - 1, v / 256)
  }

  function UnLe(b: Bytes): (v: nat)
    ensures v < Span(|b|)
  {
    if b == [] then 0 else b[0] + 256 * UnLe(b[1..])
  }

  lemma {:induction false} LeInverse(n: nat, v: nat)
    requires v < Span(n)
    ensures UnLe(Le(n, v)) == v
  {
    if n > 0 {
      LeInverse(n - 1, v / 256);
      assert Le(n, v)[1..] == Le(n - 1, v / 256);
    }
  }

  function Take(n: nat, b: Bytes): Got<Bytes> {
    if |b| < n then Ran else Got(b[..n], b[n..])
  }

  function GetLe(n: nat, b: Bytes): (r: Got<nat>)
    ensures r.Got? ==> r.value < Span(n) && |r.rest| + n == |b|
  {
    if |b| < n then Ran else Got(UnLe(b[..n]), b[n..])
  }

  /** Byte i of an integer is its i-th digit in base 256. */
  lemma {:induction false} LeExact(n: nat, v: nat, i: nat)
    requires i < n
    ensures Le(n, v)[i] == v / Span(i) % 256
    decreases i
  {
    if i > 0 {
      LeExact(n - 1, v / 256, i - 1);
      DivDiv(v, 256, Span(i - 1));
    }
  }

  lemma TakeFront(front: Bytes, rest: Bytes)
    ensures Take(|front|, front + rest) == Got(front, rest)
  {
    assert (front + rest)[..|front|] == front && (front + rest)[|front|..] == rest;
  }

  lemma GetPutLe(n: nat, v: nat, rest: Bytes)
    requires v < Span(n)
    ensures GetLe(n, Le(n, v) + rest) == Got(v, rest)
  {
    TakeFront(Le(n, v), rest);
    LeInverse(n, v);
  }

  lemma Spans()
    ensures Span(1) == 256 && Span(2) == 0x1_0000 && Span(4) == 0x1_0000_0000 && Span(8) == 0x1_0000_0000_0000_0000
  {
    assert Span(3) == 0x100_0000 && Span(5) == 0x100_0000_0000 && Span(6) == 0x1_0000_0000_0000;
  }

  function Put8(v: Byte): Bytes { [v] }
  function Put16(v: Word16): Bytes { Le(2, v) }
  function Put32(v: Word32): Bytes { Le(4, v) }
  function Put64(v: Word64): Bytes { Le(8, v) }

  // Two's complement.
  function PutInt32(v: Int32): Bytes { Le(4, if v < 0 then v + 0x1_0000_0000 else v) }
  function PutInt64(v: Int64): Bytes { Le(8, if v < 0 then v + 0x1_0000_0000_0000_0000 else v) }

  function Signed32(u: Word32): Int32 { if u < 0x8000_0000 then u as int else u - 0x1_0000_0000 }
  function Signed64(u: Word64): Int64 { if u < 0x8000_0000_0000_0000 then u as int else u - 0x1_0000_0000_0000_0000 }

  function Get8(b: Bytes): Got<Byte> {
    if b == [] then Ran else Got(b[0], b[1..])
  }

  function Get16(b: Bytes): Got<Word16> {
    var (v, r) :- GetLe(2, b);
    Spans();
    Got(v, r)
  }

  function Get32(b: Bytes): Got<Word32> {
    var (v, r) :- GetLe(4, b);
    Spans();
    Got(v, r)
  }

  function Get64(b: Bytes): Got<Word64> {
    var (v, r) :- GetLe(8, b);
    Spans();
    Got(v, r)
  }

  function GetInt32(b: Bytes): Got<Int32> {
    var (v, r) :- GetLe(4, b);
    Spans();
    Got(Signed32(v), r)
  }

  function GetInt64(b: Bytes): Got<Int64> {
    var (v, r) :- GetLe(8, b);
    Spans();
    Got(Signed64(v), r)
  }

  lemma Back8(v: Byte, rest: Bytes)
    ensures Get8(Put8(v) + rest) == Got(v, rest)
  {
    assert ([v] + rest)[1..] == rest;
  }

  lemma Back16(v: Word16, rest: Bytes)
    ensures Get16(Put16(v) + rest) == Got(v, rest)
  {
    Spans();
    GetPutLe(2, v, rest);
  }

  lemma Back32(v: Word32, rest: Bytes)
    ensures Get32(Put32(v) + rest) == Got(v, rest)
  {
    Spans();
    GetPutLe(4, v, rest);
  }

  lemma Back64(v: Word64, rest: Bytes)
    ensures Get64(Put64(v) + rest) == Got(v, rest)
  {
    Spans();
    GetPutLe(8, v, rest);
  }

  lemma BackInt32(v: Int32, rest: Bytes)
    ensures GetInt32(PutInt32(v) + rest) == Got(v, rest)
  {
    Spans();
    GetPutLe(4, if v < 0 then v + 0x1_0000_0000 else v, rest);
  }

  lemma BackInt64(v: Int64, rest: Bytes)
    ensures GetInt64(PutInt64(v) + rest) == Got(v, rest)
  {
    Spans();
    GetPutLe(8, if v < 0 then v + 0x1_0000_0000_0000_0000 else v, rest);
  }

  // ---- Strings: a 16-bit length, then that many bytes. A longer string loses all but its length mod 65536 ----

  function Cut(s: Bytes): Bytes {
    s[..|s| % 0x1_0000]
  }

  predicate ShortText(s: Bytes) {
    |s| < 0x1_0000
  }

  lemma CutWhole(s: Bytes)
    ensures Cut(s) == s <==> ShortText(s)
  {
  }

  function PutStr(s: Bytes): Bytes {
    Put16(|s| % 0x1_0000) + Cut(s)
  }

  function GetStr(b: Bytes): Got<Bytes> {
    var (n, r) :- Get16(b);
    Take(n, r)
  }

  lemma BackStr(s: Bytes, rest: Bytes)
    ensures GetStr(PutStr(s) + rest) == Got(Cut(s), rest)
  {
    var n: Word16 := |s| % 0x1_0000;
    assert PutStr(s) + rest == Put16(n) + (Cut(s) + rest);
    Back16(n, Cut(s) + rest);
    TakeFront(Cut(s), rest);
  }

  // ---- Lists: items one after the other ----

  function PutAll<T>(put: T -> Bytes, vs: seq<T>): Bytes {
    if vs == [] then [] else put(vs[0]) + PutAll(put, vs[1..])
  }

  // The items from i on, with the one at i first.
  lemma PutFrom<T>(put: T -> Bytes, vs: seq<T>, i: nat)
    requires i < |vs|
    ensures PutAll(put, vs[i..]) == put(vs[i]) + PutAll(put, vs[i + 1..])
  {
    assert vs[i..][1..] == vs[i + 1..];
  }

  // n items, added to those already read.
  function GetAll<T>(get: Bytes -> Got<T>, n: nat, read: seq<T>, b: Bytes): Got<seq<T>> {
    if n == 0 then Got(read, b)
    else
      var (v, r) :- get(b);
      GetAll(get, n - 1, read + [v], r)
  }

  lemma {:induction false} AllRead<T>(get: Bytes -> Got<T>, n: nat, read: seq<T>, b: Bytes)
    ensures var r := GetAll(get, n, read, b); r.Got? ==> |r.value| == |read| + n
    decreases n
  {
    if n > 0 && get(b).Got? {
      AllRead(get, n - 1, read + [get(b).value], get(b).rest);
    }
  }

  // n reads that each add to what the ones before them gave.
  function Repeat<S>(get: (S, Bytes) -> Got<S>, n: nat, s: S, b: Bytes): Got<S> {
    if n == 0 then Got(s, b)
    else
      var (s', r) :- get(s, b);
      Repeat(get, n - 1, s', r)
  }

  function Each<T, U>(f: T -> U, vs: seq<T>): (r: seq<U>)
    ensures |r| == |vs| && forall i :: 0 <= i < |vs| ==> r[i] == f(vs[i])
  {
    if vs == [] then [] else [f(vs[0])] + Each(f, vs[1..])
  }

  predicate All<T>(ok: T -> bool, vs: seq<T>) {
    forall i :: 0 <= i < |vs| ==> ok(vs[i])
  }

  // Reading what was written for v gives what is kept of v when ok(v), and nothing otherwise.
  ghost predicate BackOne<T>(put: T -> Bytes, get: Bytes -> Got<T>, ok: T -> bool, kept: T -> T, v: T, rest: Bytes) {
    get(put(v) + rest) == if ok(v) then Got(kept(v), rest) else Ran
  }

  ghost predicate Inverse<T(!new)>(put: T -> Bytes, get: Bytes -> Got<T>, ok: T -> bool, kept: T -> T) {
    forall v, rest :: BackOne(put, get, ok, kept, v, rest)
  }

  lemma AllOf<T>(ok: T -> bool, v: T, others: seq<T>)
    ensures All(ok, [v] + others) <==> ok(v) && All(ok, others)
  {
    var vs := [v] + others;
    if All(ok, vs) {
      assert ok(vs[0]);
      forall i | 0 <= i < |others| ensures ok(others[i]) {
        assert ok(vs[i + 1]);
      }
    }
  }

  // One item read, then the others.
  lemma OneItem<T>(get: Bytes -> Got<T>, n: nat, read: seq<T>, front: Bytes, body: Bytes, rest: Bytes, v: T,
                   more: Got<seq<T>>)
    requires get(front + (body + rest)) == Got(v, body + rest)
    requires GetAll(get, n, read + [v], body + rest) == more
    ensures GetAll(get, n + 1, read, front + body + rest) == more
  {
    Assoc(front, body, rest);
  }

  lemma NoItem<T>(get: Bytes -> Got<T>, n: nat, read: seq<T>, front: Bytes, body: Bytes, rest: Bytes)
    requires get(front + (body + rest)) == Ran
    ensures GetAll(get, n + 1, read, front + body + rest) == Ran
  {
    Assoc(front, body, rest);
  }

  lemma {:induction false} BackAll<T(!new)>(put: T -> Bytes, get: Bytes -> Got<T>, ok: T -> bool, kept: T -> T,
                                            vs: seq<T>, read: seq<T>, rest: Bytes)
    requires Inverse(put, get, ok, kept)
    ensures GetAll(get, |vs|, read, PutAll(put, vs) + rest) == if All(ok, vs) then Got(read + Each(kept, vs), rest)
      else Ran
    decreases |vs|
  {
    if vs == [] {
      assert PutAll(put, vs) + rest == rest && read + Each(kept, vs) == read;
    } else {
      var v, others := vs[0], vs[1..];
      var body := PutAll(put, others);
      assert vs == [v] + others;
      AllOf(ok, v, others);
      assert BackOne(put, get, ok, kept, v, body + rest);
      if ok(v) {
        BackAll(put, get, ok, kept, others, read + [kept(v)], rest);
        OneItem(get, |others|, read, put(v), body, rest, kept(v), GetAll(get, |others|, read + [kept(v)], body + rest));
        Joined(read, kept(v), Each(kept, others));
      } else {
        NoItem(get, |others|, read, put(v), body, rest);
      }
    }
  }

  lemma Joined<T>(a: seq<T>, v: T, b: seq<T>)
    ensures a + [v] + b == a + ([v] + b)
  {
  }

  lemma BackList<T(!new)>(put: T -> Bytes, get: Bytes -> Got<T>, ok: T -> bool, kept: T -> T, vs: seq<T>, rest: Bytes)
    requires Inverse(put, get, ok, kept)
    ensures GetAll(get, |vs|, [], PutAll(put, vs) + rest) == if All(ok, vs) then Got(Each(kept, vs), rest) else Ran
  {
    BackAll(put, get, ok, kept, vs, [], rest);
    assert [] + Each(kept, vs) == Each(kept, vs);
  }

  lemma Tail3(a: Bytes, b: Bytes, c: Bytes, rest: Bytes)
    ensures (a + (b + c)) + rest == a + (b + (c + rest))
  {
    Assoc(a, b + c, rest);
    Assoc(b, c, rest);
  }

  lemma Tail4(a: Bytes, b: Bytes, c: Bytes, d: Bytes, rest: Bytes)
    ensures (a + (b + (c + d))) + rest == a + (b + (c + (d + rest)))
  {
    Assoc(a, b + (c + d), rest);
    Tail3(b, c, d, rest);
  }

  lemma Tail5(a: Bytes, b: Bytes, c: Bytes, d: Bytes, e: Bytes, rest: Bytes)
    ensures (a + (b + (c + (d + e)))) + rest == a + (b + (c + (d + (e + rest))))
  {
    Assoc(a, b + (c + (d + e)), rest);
    Tail4(b, c, d, e, rest);
  }

  lemma NoTail(b: Bytes)
    ensures b + [] == b
  {
  }

  // What is written in order stands in order.
  lemma InOrder3(o: Bytes, a: Bytes, b: Bytes, c: Bytes)
    ensures o + a + b + c == o + (a + (b + c))
  {
  }

  lemma InOrder4(o: Bytes, a: Bytes, b: Bytes, c: Bytes, d: Bytes)
    ensures o + a + b + c + d == o + (a + (b + (c + d)))
  {
    InOrder3(o + a, b, c, d);
    Assoc(o, a, b + (c + d));
  }

  lemma InOrder5(o: Bytes, a: Bytes, b: Bytes, c: Bytes, d: Bytes, e: Bytes)
    ensures o + a + b + c + d + e == o + (a + (b + (c + (d + e))))
  {
    InOrder4(o + a, b, c, d, e);
    Assoc(o, a, b + (c + (d + e)));
  }

  // A list under an 8-bit count: at most 255 items are written.
  function First255<T>(vs: seq<T>): (few: seq<T>)
    ensures few <= vs && |few| < 256 && (|vs| < 256 ==> few == vs) && (|vs| >= 256 ==> |few| == 255)
  {
    if |vs| <= 255 then vs else vs[..255]
  }

  function PutShort<T>(put: T -> Bytes, vs: seq<T>): Bytes {
    Put8(|First255(vs)|) + PutAll(put, First255(vs))
  }

  function GetShort<T>(get: Bytes -> Got<T>, b: Bytes): Got<seq<T>> {
    var (n, r) :- Get8(b);
    GetAll(get, n, [], r)
  }

  predicate Any<T>(v: T) { true }

  lemma BackShort<T(!new)>(put: T -> Bytes, get: Bytes -> Got<T>, kept: T -> T, vs: seq<T>, rest: Bytes)
    requires Inverse(put, get, Any, kept)
    ensures GetShort(get, PutShort(put, vs) + rest) == Got(Each(kept, First255(vs)), rest)
  {
    var few := First255(vs);
    var body := PutAll(put, few);
    Assoc(Put8(|few|), body, rest);
    Back8(|few|, body + rest);
    BackList(put, get, Any, kept, few, rest);
    assert All(Any, few);
  }

  // A list under a 32-bit count, which the reader refuses above a limit.
  function Low32(n: nat): (r: Word32)
    ensures n < 0x1_0000_0000 ==> r == n
  {
    n % 0x1_0000_0000
  }

  function Low16(n: nat): (r: Word16)
    ensures n < 0x1_0000 ==> r == n
  {
    n % 0x1_0000
  }

  function Low8(n: nat): (r: Byte)
    ensures n < 256 ==> r == n
  {
    n % 256
  }

  function PutLong<T>(put: T -> Bytes, vs: seq<T>): Bytes {
    Put32(Low32(|vs|)) + PutAll(put, vs)
  }

  function GetUnder<T>(get: Bytes -> Got<T>, limit: nat, n: Word32, b: Bytes): Got<seq<T>> {
    if n > limit then Ran else GetAll(get, n, [], b)
  }

  function GetLong<T>(get: Bytes -> Got<T>, limit: nat, b: Bytes): Got<seq<T>> {
    var (n, r) :- Get32(b);
    GetUnder(get, limit, n, r)
  }

  lemma CountFirst<T>(get: Bytes -> Got<T>, limit: nat, n: Word32, body: Bytes)
    ensures GetLong(get, limit, Put32(n) + body) == GetUnder(get, limit, n, body)
  {
    Back32(n, body);
  }

  lemma UnderLimit<T(!new)>(put: T -> Bytes, get: Bytes -> Got<T>, ok: T -> bool, kept: T -> T, limit: nat, vs: seq<T>,
                            rest: Bytes)
    requires Inverse(put, get, ok, kept) && |vs| < 0x1_0000_0000
    ensures GetUnder(get, limit, |vs|, PutAll(put, vs) + rest) ==
      if |vs| <= limit && All(ok, vs) then Got(Each(kept, vs), rest) else Ran
  {
    BackList(put, get, ok, kept, vs, rest);
  }

  lemma LongParts<T>(put: T -> Bytes, vs: seq<T>, rest: Bytes)
    requires |vs| < 0x1_0000_0000
    ensures PutLong(put, vs) + rest == Put32(|vs|) + (PutAll(put, vs) + rest)
  {
    var count := Put32(Low32(|vs|));
    assert count == Put32(|vs|);
    Assoc(count, PutAll(put, vs), rest);
  }

  lemma BackLong<T(!new)>(put: T -> Bytes, get: Bytes -> Got<T>, ok: T -> bool, kept: T -> T, limit: nat, vs: seq<T>,
                          rest: Bytes)
    requires Inverse(put, get, ok, kept) && |vs| < 0x1_0000_0000
    ensures GetLong(get, limit, PutLong(put, vs) + rest) ==
      if |vs| <= limit && All(ok, vs) then Got(Each(kept, vs), rest) else Ran
  {
    LongParts(put, vs, rest);
    CountFirst(get, limit, |vs|, PutAll(put, vs) + rest);
    UnderLimit(put, get, ok, kept, limit, vs, rest);
  }

  // Nothing of a list is lost when nothing of any item is.
  lemma EachSame<T>(kept: T -> T, whole: T -> bool, vs: seq<T>)
    requires forall v :: v in vs ==> (kept(v) == v <==> whole(v))
    ensures Each(kept, vs) == vs <==> All(whole, vs)
  {
    if All(whole, vs) {
      assert forall i :: 0 <= i < |vs| ==> vs[i] in vs && whole(vs[i]);
    } else {
      var i :| 0 <= i < |vs| && !whole(vs[i]);
      assert vs[i] in vs && Each(kept, vs)[i] != vs[i];
    }
  }

  // ---- The head of a cache file: four magic bytes, a version, and the key of what was saved ----

  function PutHeader(magic: Bytes, version: Byte, key: Word64): Bytes {
    magic + (Put8(version) + Put64(key))
  }

  function GetHeader(magic: Bytes, version: Byte, expected: Word64, b: Bytes): Got<Word64> {
    var (m, r1) :- Take(4, b);
    if m != magic then Ran else
    var (v, r2) :- Get8(r1);
    if v != version then Ran else
    var (key, r3) :- Get64(r2);
    if key != expected then Ran else Got(key, r3)
  }

  lemma BackHeader(magic: Bytes, version: Byte, key: Word64, expected: Word64, rest: Bytes)
    requires |magic| == 4
    ensures GetHeader(magic, version, expected, PutHeader(magic, version, key) + rest) == if key ==
      expected then Got(key, rest) else Ran
  {
    var v, k := Put8(version), Put64(key);
    Tail3(magic, v, k, rest);
    TakeFront(magic, v + (k + rest));
    Back8(version, k + rest);
    Back64(key, rest);
  }

  // ---- More bytes behind do not change what is read ----

  // A read of b that succeeds gives the same value on b + x, and leaves x unread.
  ghost predicate SteadyAt<T>(get: Bytes -> Got<T>, b: Bytes, x: Bytes) {
    get(b).Got? ==> get(b + x) == Got(get(b).value, get(b).rest + x)
  }

  ghost predicate Steady<T>(get: Bytes -> Got<T>) {
    forall b, x :: SteadyAt(get, b, x)
  }

  lemma SteadyTake(n: nat, b: Bytes, x: Bytes)
    requires n <= |b|
    ensures (b + x)[..n] == b[..n] && (b + x)[n..] == b[n..] + x
  {
  }

  lemma SteadyLe(n: nat, b: Bytes, x: Bytes)
    requires GetLe(n, b).Got?
    ensures GetLe(n, b + x) == Got(GetLe(n, b).value, GetLe(n, b).rest + x)
  {
    SteadyTake(n, b, x);
  }

  lemma Steady8(b: Bytes, x: Bytes)
    ensures SteadyAt(Get8, b, x)
  {
    if b != [] {
      SteadyTake(1, b, x);
    }
  }

  lemma Steady32(b: Bytes, x: Bytes)
    ensures SteadyAt(Get32, b, x) && SteadyAt(GetInt32, b, x)
  {
    if |b| >= 4 {
      SteadyLe(4, b, x);
    }
  }

  lemma Steady64(b: Bytes, x: Bytes)
    ensures SteadyAt(Get64, b, x) && SteadyAt(GetInt64, b, x)
  {
    if |b| >= 8 {
      SteadyLe(8, b, x);
    }
  }

  lemma SteadyStr(b: Bytes, x: Bytes)
    ensures SteadyAt(GetStr, b, x)
  {
    if GetStr(b).Got? {
      SteadyLe(2, b, x);
      SteadyTake(Get16(b).value, Get16(b).rest, x);
    }
  }

  lemma StrsInvert()
    ensures Inverse(PutStr, GetStr, Any, Cut)
  {
    forall v, rest ensures BackOne(PutStr, GetStr, Any, Cut, v, rest) {
      BackStr(v, rest);
    }
  }

  lemma StrsSteady()
    ensures Steady(GetStr)
  {
    forall b, x ensures SteadyAt(GetStr, b, x) {
      SteadyStr(b, x);
    }
  }

  lemma {:induction false} SteadyItems<T>(get: Bytes -> Got<T>, n: nat, read: seq<T>, b: Bytes, x: Bytes)
    requires Steady(get) && GetAll(get, n, read, b).Got?
    ensures GetAll(get, n, read, b + x) == Got(GetAll(get, n, read, b).value, GetAll(get, n, read, b).rest + x)
    decreases n
  {
    if n > 0 {
      assert SteadyAt(get, b, x);
      SteadyItems(get, n - 1, read + [get(b).value], get(b).rest, x);
    }
  }

  lemma SteadyShort<T>(get: Bytes -> Got<T>, b: Bytes, x: Bytes)
    requires Steady(get) && GetShort(get, b).Got?
    ensures GetShort(get, b + x) == Got(GetShort(get, b).value, GetShort(get, b).rest + x)
  {
    Steady8(b, x);
    assert SteadyAt(Get8, b, x);
    SteadyItems(get, Get8(b).value, [], Get8(b).rest, x);
  }

  lemma SteadyLong<T>(get: Bytes -> Got<T>, limit: nat, b: Bytes, x: Bytes)
    requires Steady(get) && GetLong(get, limit, b).Got?
    ensures GetLong(get, limit, b + x) == Got(GetLong(get, limit, b).value, GetLong(get, limit, b).rest + x)
  {
    Steady32(b, x);
    assert SteadyAt(Get32, b, x);
    SteadyItems(get, Get32(b).value, [], Get32(b).rest, x);
  }

  lemma SteadyHeader(magic: Bytes, version: Byte, expected: Word64, b: Bytes, x: Bytes)
    requires GetHeader(magic, version, expected, b).Got?
    ensures var h := GetHeader(magic, version, expected, b);
      GetHeader(magic, version, expected, b + x) == Got(h.value, h.rest + x)
  {
    SteadyTake(4, b, x);
    var r1 := b[4..];
    var r2 := Get8(r1).rest;
    Steady8(r1, x);
    Steady64(r2, x);
    assert SteadyAt(Get8, r1, x) && SteadyAt(Get64, r2, x);
  }

  ghost predicate SteadyFrom<S>(get: (S, Bytes) -> Got<S>, s: S, b: Bytes, x: Bytes) {
    get(s, b).Got? ==> get(s, b + x) == Got(get(s, b).value, get(s, b).rest + x)
  }

  lemma {:induction false} SteadyRepeat<S(!new)>(get: (S, Bytes) -> Got<S>, n: nat, s: S, b: Bytes, x: Bytes)
    requires forall s, b, x :: SteadyFrom(get, s, b, x)
    requires Repeat(get, n, s, b).Got?
    ensures Repeat(get, n, s, b + x) == Got(Repeat(get, n, s, b).value, Repeat(get, n, s, b).rest + x)
    decreases n
  {
    if n > 0 {
      assert SteadyFrom(get, s, b, x);
      SteadyRepeat(get, n - 1, get(s, b).value, get(s, b).rest, x);
    }
  }

  // ---- The streams as the compiler uses them ----

  class Writer {
    var out: Bytes

    constructor ()
      ensures out == []
    {
      out := [];
    }

    method Write(b: Bytes)
      modifies this
      ensures out == old(out) + b
    {
      out := out + b;
    }

    method Str(s: Bytes)
      modifies this
      ensures out == old(out) + PutStr(s)
    {
      var n := |s| % 0x1_0000;
      Write(Put16(n));
      Write(s[..n]);
    }
  }

  datatype Left = Failed | Left(bytes: Bytes)

  // A read from a stream in this state, by a reader of the bytes that are left.
  function From<T>(before: Left, get: Bytes -> Got<T>): Got<T> {
    match before
    case Failed => Ran
    case Left(b) => get(b)
  }

  // A stream that fails stays failed, and the value read is then any value.
  ghost predicate Read<T>(r: Got<T>, v: T, after: Left) {
    match r
    case Ran => after == Failed
    case Got(x, rest) => v == x && after == Left(rest)
  }

  // A read that may also refuse what it reads: then nothing can be loaded.
  ghost predicate ReadOrRefused<T>(ok: bool, g: Got<T>, v: T, after: Left) {
    if ok then Read(g, v, after) else g == Ran
  }

  // The rest of a list: n more items after those read.
  function More<T>(now: Left, get: Bytes -> Got<T>, n: nat, read: seq<T>): Got<seq<T>> {
    match now
    case Failed => Ran
    case Left(b) => GetAll(get, n, read, b)
  }

  // Lists under a count, from a stream in this state.
  function FromShort<T>(before: Left, get: Bytes -> Got<T>): Got<seq<T>> {
    match before
    case Failed => Ran
    case Left(b) => GetShort(get, b)
  }

  function FromLong<T>(before: Left, get: Bytes -> Got<T>, limit: nat): Got<seq<T>> {
    match before
    case Failed => Ran
    case Left(b) => GetLong(get, limit, b)
  }

  // In the middle of reading n items: those read, and left to come.
  ghost predicate Reading<T>(start: Left, get: Bytes -> Got<T>, n: nat, now: Left, read: seq<T>) {
    |read| <= n && More(now, get, n - |read|, read) == More(start, get, n, [])
  }

  lemma ReadOne<T>(start: Left, get: Bytes -> Got<T>, n: nat, now: Left, read: seq<T>, v: T, after: Left)
    requires Reading(start, get, n, now, read) && |read| < n && Read(From(now, get), v, after)
    ensures Reading(start, get, n, after, read + [v])
  {
    MoreByOne(now, get, n - |read|, read, v, after);
  }

  lemma ShortRead<T>(before: Left, get: Bytes -> Got<T>, n: Byte, start: Left, read: seq<T>, after: Left)
    requires Read(From(before, Get8), n, start) && Reading(start, get, n, after, read) && |read| == n
    ensures Read(FromShort(before, get), read, after)
  {
  }

  lemma LongRead<T>(before: Left, get: Bytes -> Got<T>, limit: nat, n: Word32, start: Left, read: seq<T>, after: Left)
    requires Read(From(before, Get32), n, start) && n <= limit && Reading(start, get, n, after, read) && |read| == n
    ensures Read(FromLong(before, get, limit), read, after)
  {
  }

  lemma LongRefused<T>(before: Left, get: Bytes -> Got<T>, limit: nat, n: Word32, start: Left)
    requires Read(From(before, Get32), n, start) && n > limit
    ensures FromLong(before, get, limit) == Ran
  {
  }

  // An item that cannot be read leaves the list unreadable.
  lemma Stopped<T>(start: Left, get: Bytes -> Got<T>, n: nat, now: Left, read: seq<T>)
    requires Reading(start, get, n, now, read) && |read| < n && From(now, get) == Ran
    ensures More(start, get, n, []) == Ran
  {
  }

  lemma LongStopped<T>(before: Left, get: Bytes -> Got<T>, limit: nat, n: Word32, start: Left, now: Left, read: seq<T>)
    requires Read(From(before, Get32), n, start) && n <= limit
    requires Reading(start, get, n, now, read) && |read| < n && From(now, get) == Ran
    ensures FromLong(before, get, limit) == Ran
  {
  }

  // Reads that each add to a state.
  function FromState<S>(before: Left, get: (S, Bytes) -> Got<S>, s: S): Got<S> {
    match before
    case Failed => Ran
    case Left(b) => get(s, b)
  }

  function FromRepeat<S>(before: Left, get: (S, Bytes) -> Got<S>, n: nat, s: S): Got<S> {
    match before
    case Failed => Ran
    case Left(b) => Repeat(get, n, s, b)
  }

  lemma RepeatOne<S>(now: Left, get: (S, Bytes) -> Got<S>, n: nat, s: S, s': S, after: Left)
    requires n > 0 && Read(FromState(now, get, s), s', after)
    ensures FromRepeat(now, get, n, s) == FromRepeat(after, get, n - 1, s')
  {
  }

  lemma RepeatStopped<S>(now: Left, get: (S, Bytes) -> Got<S>, n: nat, s: S)
    requires n > 0 && FromState(now, get, s) == Ran
    ensures FromRepeat(now, get, n, s) == Ran
  {
  }

  lemma MoreByOne<T>(now: Left, get: Bytes -> Got<T>, n: nat, read: seq<T>, v: T, after: Left)
    requires n > 0 && Read(From(now, get), v, after)
    ensures More(now, get, n, read) == More(after, get, n - 1, read + [v])
  {
  }

  class Reader {
    const data: Bytes
    var pos: nat
    var failed: bool

    ghost predicate Valid()
      reads this
    {
      pos <= |data|
    }

    ghost function View(): Left
      requires Valid()
      reads this
    {
      if failed then Failed else Left(data[pos..])
    }

    constructor (data: Bytes)
      ensures Valid() && View() == Left(data) && this.data == data
    {
      this.data, pos, failed := data, 0, false;
    }

    // A read past the end fails the stream and leaves in the destination whatever was there.
    method Next(n: nat) returns (b: Bytes)
      requires Valid()
      modifies this
      ensures Valid() && |b| == n && Read(From(old(View()), x => Take(n, x)), b, View())
    {
      if !failed && pos + n <= |data| {
        b := data[pos..pos + n];
        assert data[pos..][..n] == b && data[pos..][n..] == data[pos + n..];
        pos := pos + n;
      } else {
        failed := true;
        var junk: Bytes := *;
        b := if |junk| == n then junk else seq(n, _ => 0);
      }
    }

    method U8() returns (v: Byte)
      requires Valid()
      modifies this
      ensures Valid() && Read(From(old(View()), Get8), v, View())
    {
      var b := Next(1);
      v := b[0];
    }

    method U16() returns (v: Word16)
      requires Valid()
      modifies this
      ensures Valid() && Read(From(old(View()), Get16), v, View())
    {
      var b := Next(2);
      Spans();
      v := UnLe(b);
    }

    method U32() returns (v: Word32)
      requires Valid()
      modifies this
      ensures Valid() && Read(From(old(View()), Get32), v, View())
    {
      var b := Next(4);
      Spans();
      v := UnLe(b);
    }

    method U64() returns (v: Word64)
      requires Valid()
      modifies this
      ensures Valid() && Read(From(old(View()), Get64), v, View())
    {
      var b := Next(8);
      Spans();
      v := UnLe(b);
    }

    method I32() returns (v: Int32)
      requires Valid()
      modifies this
      ensures Valid() && Read(From(old(View()), GetInt32), v, View())
    {
      var b := Next(4);
      Spans();
      v := Signed32(UnLe(b));
    }

    method I64() returns (v: Int64)
      requires Valid()
      modifies this
      ensures Valid() && Read(From(old(View()), GetInt64), v, View())
    {
      var b := Next(8);
      Spans();
      v := Signed64(UnLe(b));
    }

    method Str() returns (s: Bytes)
      requires Valid()
      modifies this
      ensures Valid() && Read(From(old(View()), GetStr), s, View())
    {
      var n := U16();
      s := Next(n);
    }

    // Strings under an 8-bit count.
    method Strs() returns (vs: seq<Bytes>)
      requires Valid()
      modifies this
      ensures Valid() && Read(FromShort(old(View()), GetStr), vs, View())
    {
      var n := U8();
      ghost var start := View();
      vs := [];
      for i := 0 to n
        invariant Valid() && |vs| == i && Reading(start, GetStr, n, View(), vs)
      {
        ghost var now := View();
        var v := Str();
        ReadOne(start, GetStr, n, now, vs, v, View());
        vs := vs + [v];
      }
      ShortRead(old(View()), GetStr, n, start, vs, View());
    }

    // Whether the file starts with this head; a stream that has failed gives any answer.
    method Header(magic: Bytes, version: Byte, expected: Word64) returns (ok: bool)
      requires Valid()
      modifies this
      ensures Valid() && ReadOrRefused(ok, From(old(View()), b => GetHeader(magic, version, expected, b)), expected,
        View())
    {
      var m := Next(4);
      if m != magic {
        return false;
      }
      var v := U8();
      if v != version {
        return false;
      }
      var key := U64();
      ok := key == expected;
    }
  }
}
