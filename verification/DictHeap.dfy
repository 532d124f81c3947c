/** The dictionary routines: a linear scan over key/value pairs with a fixed capacity, against a map. */
module DictHeap {
  import opened CText

  // ---- A dictionary as a value: its pairs in order of insertion, and its capacity ----

  datatype Pair = Pair(key: Text, value: int)

  predicate Distinct(ps: seq<Pair>) {
    forall i, j :: 0 <= i < j < |ps| ==> ps[i].key != ps[j].key
  }

  // The place of a key, or |ps|.
  function Find(ps: seq<Pair>, key: Text): (i: nat)
    ensures i <= |ps| && (i < |ps| ==> ps[i].key == key)
    ensures forall j :: 0 <= j < i ==> ps[j].key != key
  {
    if ps == [] || ps[0].key == key then 0 else 1 + Find(ps[1..], key)
  }

  lemma FindIs(ps: seq<Pair>, key: Text, i: nat)
    requires i <= |ps| && (forall j :: 0 <= j < i ==> ps[j].key != key) && (i < |ps| ==> ps[i].key == key)
    ensures Find(ps, key) == i
  {
  }

  function Keys(ps: seq<Pair>): set<Text> {
    set i | 0 <= i < |ps| :: ps[i].key
  }

  function AsMap(ps: seq<Pair>): map<Text, int> {
    map key | key in Keys(ps) :: if Find(ps, key) < |ps| then ps[Find(ps, key)].value else 0
  }

  lemma MapHas(ps: seq<Pair>, key: Text)
    ensures key in AsMap(ps) <==> Find(ps, key) < |ps|
    ensures key in AsMap(ps) ==> AsMap(ps)[key] == ps[Find(ps, key)].value
  {
  }

  // Setting a key: replace its value, or append while there is room. A full dictionary stays as it is.
  function SetPair(ps: seq<Pair>, cap: nat, key: Text, value: int): seq<Pair> {
    var i := Find(ps, key);
    if i < |ps| then ps[i := Pair(ps[i].key, value)]
    else if |ps| < cap then ps + [Pair(key, value)]
    else ps
  }

  lemma FindAfter(ps: seq<Pair>, cap: nat, key: Text, value: int, other: Text)
    requires Distinct(ps)
    ensures var qs := SetPair(ps, cap, key, value);
      Find(qs, other) == if other == key && Find(ps, key) == |ps| && |ps| < cap then |ps|
        else if Find(ps, other) == |ps| then |qs| else Find(ps, other)
  {
    var qs := SetPair(ps, cap, key, value);
    var i := if other == key && Find(ps, key) == |ps| && |ps| < cap then |ps|
      else if Find(ps, other) == |ps| then |qs| else Find(ps, other);
    FindIs(qs, other, i);
  }

  lemma SetAt(ps: seq<Pair>, cap: nat, key: Text, value: int, other: Text)
    requires Distinct(ps)
    ensures var qs := SetPair(ps, cap, key, value);
      var want := if key in AsMap(ps) || |ps| < cap then AsMap(ps)[key := value] else AsMap(ps);
      (other in AsMap(qs) <==> other in want) && (other in want ==> AsMap(qs)[other] == want[other])
  {
    FindAfter(ps, cap, key, value, other);
    MapHas(ps, key);
    MapHas(ps, other);
    MapHas(SetPair(ps, cap, key, value), other);
  }

  /** Setting keeps the keys distinct and the size within the capacity, and is the map update,
      except that a new key is dropped when the dictionary is full. */
  lemma SetIsUpdate(ps: seq<Pair>, cap: nat, key: Text, value: int)
    requires Distinct(ps) && |ps| <= cap
    ensures var qs := SetPair(ps, cap, key, value);
      && Distinct(qs) && |qs| <= cap
      && AsMap(qs) == if key in AsMap(ps) || |ps| < cap then AsMap(ps)[key := value] else AsMap(ps)
  {
    var qs := SetPair(ps, cap, key, value);
    var want := if key in AsMap(ps) || |ps| < cap then AsMap(ps)[key := value] else AsMap(ps);
    forall other
      ensures (other in AsMap(qs) <==> other in want) && (other in want ==> AsMap(qs)[other] == want[other])
    {
      SetAt(ps, cap, key, value, other);
    }
  }

  // ---- Runs of sets ----

  datatype Put = Put(key: Text, value: int)

  function RunPairs(cap: nat, puts: seq<Put>): seq<Pair> {
    if puts == [] then []
    else SetPair(RunPairs(cap, puts[..|puts| - 1]), cap, puts[|puts| - 1].key, puts[|puts| - 1].value)
  }

  function RunMap(puts: seq<Put>): map<Text, int> {
    if puts == [] then map[] else RunMap(puts[..|puts| - 1])[puts[|puts| - 1].key := puts[|puts| - 1].value]
  }

  lemma KeyCount(ps: seq<Pair>)
    requires Distinct(ps)
    ensures |AsMap(ps)| == |ps|
  {
    if ps == [] {
      assert AsMap(ps) == map[];
    } else {
      var last := ps[|ps| - 1];
      var before := ps[..|ps| - 1];
      KeyCount(before);
      assert ps == before + [last];
      FindIs(before, last.key, |before|);
      MapHas(before, last.key);
      SetIsUpdate(before, |ps|, last.key, last.value);
      assert SetPair(before, |ps|, last.key, last.value) == ps;
      assert last.key !in AsMap(before);
    }
  }

  lemma {:induction false} MapGrows(puts: seq<Put>)
    requires puts != []
    ensures |RunMap(puts[..|puts| - 1])| <= |RunMap(puts)|
  {
    var m := RunMap(puts[..|puts| - 1]);
    var key := puts[|puts| - 1].key;
    if key in m {
      assert RunMap(puts).Keys == m.Keys;
    }
  }

  /** Any run of sets with no more distinct keys than the capacity makes exactly the map it writes,
      whatever the order and the repetitions. */
  lemma {:induction false} RunIsMap(cap: nat, puts: seq<Put>)
    requires |RunMap(puts)| <= cap
    ensures var ps := RunPairs(cap, puts); Distinct(ps) && |ps| <= cap && AsMap(ps) == RunMap(puts)
  {
    if puts == [] {
      assert AsMap([]) == map[];
    } else {
      var before := puts[..|puts| - 1];
      var last := puts[|puts| - 1];
      MapGrows(puts);
      RunIsMap(cap, before);
      var ps := RunPairs(cap, before);
      KeyCount(ps);
      SetIsUpdate(ps, cap, last.key, last.value);
    }
  }

  // ---- The routines, on the words of one dictionary block: capacity, count, then key address and value by turns ----

  ghost predicate DictAt(block: seq<int>, mem: seq<Byte>, ps: seq<Pair>, cap: nat) {
    && |block| == 2 + 2 * cap && block[0] == cap && block[1] == |ps| <= cap && Distinct(ps)
    && forall i :: 0 <= i < |ps| ==> PairAt(block, mem, i, ps[i])
  }

  ghost predicate PairAt(block: seq<int>, mem: seq<Byte>, i: nat, p: Pair) {
    3 + 2 * i < |block| && block[2 + 2 * i] >= 0 && TextAt(mem, block[2 + 2 * i], p.key) && block[3 + 2 * i] == p.value
  }

  /** The scan that all three routines share: the place of the key, or the number of pairs. */
  method Scan(block: array<int>, mem: array<Byte>, key: nat, ghost ps: seq<Pair>, ghost cap: nat, ghost k: Text)
    returns (x21: nat)
    requires DictAt(block[..], mem[..], ps, cap) && TextAt(mem[..], key, k)
    ensures x21 == Find(ps, k)
  {
    x21 := 0;
    while x21 < block[1]
      invariant x21 <= |ps| && forall j :: 0 <= j < x21 ==> ps[j].key != k
    {
      assert PairAt(block[..], mem[..], x21, ps[x21]);
      var same := StrEq(mem, block[2 + 2 * x21], key, ps[x21].key, k);
      if same != 0 {
        FindIs(ps, k, x21);
        return;
      }
      x21 := x21 + 1;
    }
    FindIs(ps, k, x21);
  }

  method DictHas(block: array<int>, mem: array<Byte>, key: nat, ghost ps: seq<Pair>, ghost cap: nat, ghost k: Text)
    returns (x0: int)
    requires DictAt(block[..], mem[..], ps, cap) && TextAt(mem[..], key, k)
    ensures x0 == if k in AsMap(ps) then 1 else 0
  {
    var x21 := Scan(block, mem, key, ps, cap, k);
    MapHas(ps, k);
    x0 := if x21 >= block[1] then 0 else 1;
  }

  // missing: the key error that ends the program.
  method DictGet(block: array<int>, mem: array<Byte>, key: nat, ghost ps: seq<Pair>, ghost cap: nat, ghost k: Text)
    returns (x0: int, missing: bool)
    requires DictAt(block[..], mem[..], ps, cap) && TextAt(mem[..], key, k)
    ensures missing <==> k !in AsMap(ps)
    ensures !missing ==> x0 == AsMap(ps)[k]
  {
    var x21 := Scan(block, mem, key, ps, cap, k);
    MapHas(ps, k);
    missing := x21 >= block[1];
    x0 := 0;
    if !missing {
      assert PairAt(block[..], mem[..], x21, ps[x21]);
      x0 := block[3 + 2 * x21];
    }
  }

  lemma PairsKept(b: seq<int>, b': seq<int>, mem: seq<Byte>, ps: seq<Pair>, i: nat)
    requires |b'| == |b| && i <= |ps| && forall j :: 0 <= j < |ps| ==> PairAt(b, mem, j, ps[j])
    requires forall x :: 2 <= x < |b| && x != 2 + 2 * i && x != 3 + 2 * i ==> b'[x] == b[x]
    ensures forall j :: 0 <= j < |ps| && j != i ==> PairAt(b', mem, j, ps[j])
  {
    forall j | 0 <= j < |ps| && j != i ensures PairAt(b', mem, j, ps[j]) {
      assert PairAt(b, mem, j, ps[j]);
    }
  }

  lemma Replaced(b: seq<int>, b': seq<int>, mem: seq<Byte>, ps: seq<Pair>, cap: nat, i: nat, value: int)
    requires DictAt(b, mem, ps, cap) && i < |ps| && b' == b[3 + 2 * i := value]
    ensures DictAt(b', mem, ps[i := Pair(ps[i].key, value)], cap)
  {
    assert PairAt(b, mem, i, ps[i]);
    PairsKept(b, b', mem, ps, i);
    assert PairAt(b', mem, i, Pair(ps[i].key, value));
  }

  lemma Appended(b: seq<int>, b': seq<int>, mem: seq<Byte>, ps: seq<Pair>, cap: nat, key: nat, k: Text, value: int)
    requires DictAt(b, mem, ps, cap) && |ps| < cap && TextAt(mem, key, k) && Find(ps, k) == |ps|
    requires b' == b[2 + 2 * |ps| := key][3 + 2 * |ps| := value][1 := |ps| + 1]
    ensures DictAt(b', mem, ps + [Pair(k, value)], cap)
  {
    PairsKept(b, b', mem, ps, |ps|);
    assert PairAt(b', mem, |ps|, Pair(k, value));
  }

  lemma SetMeans(ps: seq<Pair>, cap: nat, k: Text, value: int, full: bool)
    requires Distinct(ps) && |ps| <= cap && (full <==> Find(ps, k) == |ps| && |ps| == cap)
    ensures full <==> k !in AsMap(ps) && |ps| == cap
    ensures AsMap(SetPair(ps, cap, k, value)) == if full then AsMap(ps) else AsMap(ps)[k := value]
  {
    MapHas(ps, k);
    SetIsUpdate(ps, cap, k, value);
  }

  // full: the capacity error is printed and the dictionary stays unchanged.
  method DictSet(block: array<int>, mem: array<Byte>, key: nat, value: int, ghost ps: seq<Pair>, ghost cap: nat,
                 ghost k: Text)
    returns (full: bool)
    requires DictAt(block[..], mem[..], ps, cap) && TextAt(mem[..], key, k) && block.Length == 2 + 2 * cap
    modifies block
    ensures DictAt(block[..], mem[..], SetPair(ps, cap, k, value), cap)
    ensures full <==> k !in AsMap(ps) && |ps| == cap
    ensures full ==> block[..] == old(block[..])
    ensures AsMap(SetPair(ps, cap, k, value)) == if full then AsMap(ps) else AsMap(ps)[k := value]
  {
    var x22 := Scan(block, mem, key, ps, cap, k);
    ghost var before := block[..];
    full := false;
    if x22 < block[1] {
      block[3 + 2 * x22] := value;
      assert block[..] == before[3 + 2 * x22 := value];
      Replaced(before, block[..], mem[..], ps, cap, x22, value);
    } else if x22 >= block[0] {
      full := true;
    } else {
      block[2 + 2 * x22] := key;
      block[3 + 2 * x22] := value;
      block[1] := x22 + 1;
      assert block[..] == before[2 + 2 * x22 := key][3 + 2 * x22 := value][1 := x22 + 1];
      Appended(before, block[..], mem[..], ps, cap, key, k, value);
    }
    SetMeans(ps, cap, k, value, full);
  }
}
