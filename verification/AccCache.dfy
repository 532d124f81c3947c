/** The parser's cache file: what a saved tree reads back as. */
module AccCache {

  import opened CText
  import opened Sequences
  import opened Wire

  // The fields of a node that the file leaves out; inferred is 0 for no type.
  datatype Marks = Marks(exported: bool, angleUnit: Int32, inferred: nat)

  const UNMARKED := Marks(false, 0, 0)

  datatype Child = Null | Child(node: Node)

  datatype Node = Node(typ: Byte, value: Text, attrs: seq<Text>, children: seq<Child>, marks: Marks)

  // ---- Writing ----

  // The number of children that are not null.
  function Valid(cs: seq<Child>): nat {
    if cs == [] then 0 else (if cs[0].Null? then 0 else 1) + Valid(cs[1..])
  }

  // Both counts keep only their low bits, but every attribute and child is written.
  function PutFields(n: Node): Bytes {
    Put8(n.typ) + (PutStr(n.value) +
      (Put8(Low8(|n.attrs|)) + (PutAll(PutStr, n.attrs) + Put16(Low16(Valid(n.children))))))
  }

  function PutNode(n: Node): Bytes
    decreases n, 1
  {
    PutFields(n) + PutChildren(n, n.children)
  }

  function PutChildren(n: Node, cs: seq<Child>): Bytes
    requires forall c :: c in cs ==> c in n.children
    decreases n, 0, |cs|
  {
    if cs == [] then []
    else
      assert cs[0] in n.children;
      (if cs[0].Null? then [] else PutNode(cs[0].node)) + PutChildren(n, cs[1..])
  }

  // ---- Reading ----

  datatype Fields = Fields(typ: Byte, value: Text, attrs: seq<Text>, count: Word16)

  lemma {:induction false} StrsConsume(n: nat, read: seq<Text>, b: Bytes)
    ensures var r := GetAll(GetStr, n, read, b); r.Got? ==> |r.rest| <= |b| && |r.value| == |read| + n
    decreases n
  {
    if n > 0 && GetStr(b).Got? {
      StrsConsume(n - 1, read + [GetStr(b).value], GetStr(b).rest);
    }
  }

  function GetFields(b: Bytes): (r: Got<Fields>)
    ensures r.Got? ==> |r.rest| < |b| && |r.value.attrs| < 256
  {
    var (typ, r1) :- Get8(b);
    var (value, r2) :- GetStr(r1);
    var (attrs, r3) :- GetShort(GetStr, r2);
    StrsConsume(Get8(r2).value, [], Get8(r2).rest);
    var (count, r4) :- Get16(r3);
    Got(Fields(typ, value, attrs, count), r4)
  }

  function GetNode(b: Bytes): (r: Got<Node>)
    ensures r.Got? ==> |r.rest| < |b|
    decreases |b|, 0
  {
    var (f, r1) :- GetFields(b);
    var (children, r2) :- GetChildren(f.count, [], r1);
    Got(Node(f.typ, f.value, f.attrs, children, UNMARKED), r2)
  }

  function GetChildren(n: nat, read: seq<Child>, b: Bytes): (r: Got<seq<Child>>)
    ensures r.Got? ==> |r.rest| <= |b|
    decreases |b|, 1
  {
    if n == 0 then Got(read, b)
    else
      var (c, r) :- GetNode(b);
      GetChildren(n - 1, read + [Child(c)], r)
  }

  const MAGIC: Bytes := [65, 67, 67, 49]
  const VERSION: Byte := 10

  function Save(key: Word64, root: Node): Bytes {
    PutHeader(MAGIC, VERSION, key) + PutNode(root)
  }

  // Ran is the null result, and a file that runs out inside the tree.
  function Load(data: Bytes, key: Word64): Got<Node> {
    var (_, r) :- GetHeader(MAGIC, VERSION, key, data);
    GetNode(r)
  }

  // ---- What the file keeps ----

  // Strings cut at their length fields, no null children, no marks.
  function KeptNode(n: Node): Node
    decreases n, 1
  {
    Node(n.typ, Cut(n.value), Each(Cut, n.attrs), KeptChildren(n, n.children), UNMARKED)
  }

  function KeptChildren(n: Node, cs: seq<Child>): (r: seq<Child>)
    requires forall c :: c in cs ==> c in n.children
    ensures |r| == Valid(cs) && Null !in r
    decreases n, 0, |cs|
  {
    if cs == [] then []
    else
      assert cs[0] in n.children;
      (if cs[0].Null? then [] else [Child(KeptNode(cs[0].node))]) + KeptChildren(n, cs[1..])
  }

  // The counts of every node fit their fields.
  predicate Fits(n: Node)
    decreases n
  {
    |n.attrs| < 256 && Valid(n.children) < 0x1_0000 && forall c :: c in n.children && c.Child? ==> Fits(c.node)
  }

  lemma BackFields(n: Node, rest: Bytes)
    requires |n.attrs| < 256 && Valid(n.children) < 0x1_0000
    ensures GetFields(PutFields(n) + rest) ==
      Got(Fields(n.typ, Cut(n.value), Each(Cut, n.attrs), Valid(n.children)), rest)
  {
    var typ, value, count, attrs, children :=
      Put8(n.typ), PutStr(n.value), Put8(Low8(|n.attrs|)), PutAll(PutStr, n.attrs), Put16(Low16(Valid(n.children)));
    Tail5(typ, value, count, attrs, children, rest);
    Back8(n.typ, value + (count + (attrs + (children + rest))));
    BackStr(n.value, count + (attrs + (children + rest)));
    Back8(|n.attrs|, attrs + (children + rest));
    StrsInvert();
    BackList(PutStr, GetStr, Any, Cut, n.attrs, children + rest);
    assert All(Any, n.attrs);
    Back16(Valid(n.children), rest);
  }

  lemma {:induction false} BackNode(n: Node, rest: Bytes)
    requires Fits(n)
    ensures GetNode(PutNode(n) + rest) == Got(KeptNode(n), rest)
    decreases n, 1
  {
    var children := PutChildren(n, n.children);
    Assoc(PutFields(n), children, rest);
    BackFields(n, children + rest);
    BackChildren(n, n.children, [], rest);
    assert [] + KeptChildren(n, n.children) == KeptChildren(n, n.children);
  }

  lemma OneChild(front: Bytes, others: Bytes, rest: Bytes, c: Node, n: nat, read: seq<Child>, more: seq<Child>)
    requires GetNode(front + (others + rest)) == Got(c, others + rest)
    requires GetChildren(n, read + [Child(c)], others + rest) == Got(read + [Child(c)] + more, rest)
    ensures GetChildren(n + 1, read, front + others + rest) == Got(read + ([Child(c)] + more), rest)
  {
    Assoc(front, others, rest);
    assert read + [Child(c)] + more == read + ([Child(c)] + more);
  }

  lemma {:induction false} BackChildren(n: Node, cs: seq<Child>, read: seq<Child>, rest: Bytes)
    requires (forall c :: c in cs ==> c in n.children) && Fits(n)
    ensures GetChildren(Valid(cs), read, PutChildren(n, cs) + rest) == Got(read + KeptChildren(n, cs), rest)
    decreases n, 0, |cs|
  {
    if cs == [] {
      assert [] + rest == rest && read + [] == read;
    } else {
      assert cs[0] in n.children;
      var others := PutChildren(n, cs[1..]);
      if cs[0].Null? {
        assert PutChildren(n, cs) == others && KeptChildren(n, cs) == KeptChildren(n, cs[1..]);
        BackChildren(n, cs[1..], read, rest);
      } else {
        var c := cs[0].node;
        BackNode(c, others + rest);
        BackChildren(n, cs[1..], read + [Child(KeptNode(c))], rest);
        OneChild(PutNode(c), others, rest, KeptNode(c), Valid(cs[1..]), read, KeptChildren(n, cs[1..]));
      }
    }
  }

  predicate AllFit(cs: seq<Child>) {
    forall c :: c in cs ==> c.Child? && Fits(c.node)
  }

  lemma OneMoreFits(cs: seq<Child>, n: Node)
    requires AllFit(cs) && Fits(n)
    ensures AllFit(cs + [Child(n)])
  {
  }

  // Every tree read from a file fits.
  lemma {:induction false} ReadFits(b: Bytes)
    requires GetNode(b).Got?
    ensures Fits(GetNode(b).value)
    decreases |b|, 0
  {
    var f := GetFields(b);
    ChildrenFit(f.value.count, [], f.rest);
    NoNulls(GetChildren(f.value.count, [], f.rest).value);
  }

  lemma ChildrenStep(n: nat, read: seq<Child>, b: Bytes, c: Node, r: Bytes)
    requires n > 0 && GetNode(b) == Got(c, r)
    ensures GetChildren(n, read, b) == GetChildren(n - 1, read + [Child(c)], r)
  {
  }

  lemma {:induction false} ChildrenFit(n: nat, read: seq<Child>, b: Bytes)
    requires GetChildren(n, read, b).Got? && AllFit(read)
    ensures var cs := GetChildren(n, read, b).value; AllFit(cs) && |cs| == |read| + n
    decreases |b|, 1
  {
    if n > 0 {
      var c := GetNode(b);
      ChildrenStep(n, read, b, c.value, c.rest);
      ReadFits(b);
      OneMoreFits(read, c.value);
      ChildrenFit(n - 1, read + [Child(c.value)], c.rest);
    }
  }

  lemma {:induction false} NoNulls(cs: seq<Child>)
    requires Null !in cs
    ensures Valid(cs) == |cs|
  {
    if cs != [] {
      NoNulls(cs[1..]);
    }
  }

  // What is kept fits exactly when what was saved does.
  lemma {:induction false} KeptFits(n: Node)
    ensures Fits(KeptNode(n)) <==> Fits(n)
    decreases n, 1
  {
    NoNulls(KeptChildren(n, n.children));
    KeptChildrenFit(n, n.children);
  }

  lemma {:induction false} KeptChildrenFit(n: Node, cs: seq<Child>)
    requires forall c :: c in cs ==> c in n.children
    ensures (forall c :: c in KeptChildren(n, cs) && c.Child? ==> Fits(c.node)) <==>
      (forall c :: c in cs && c.Child? ==> Fits(c.node))
    decreases n, 0, |cs|
  {
    if cs != [] {
      assert cs[0] in n.children;
      KeptChildrenFit(n, cs[1..]);
      if cs[0].Child? {
        KeptFits(cs[0].node);
      }
      assert cs == [cs[0]] + cs[1..];
    }
  }

  /** A saved tree loads as what is kept of it exactly when every node's counts fit. */
  lemma LoadSaved(key: Word64, root: Node)
    ensures Load(Save(key, root), key) == Got(KeptNode(root), []) <==> Fits(root)
  {
    BackHeader(MAGIC, VERSION, key, key, PutNode(root));
    NoTail(PutNode(root));
    if Fits(root) {
      BackNode(root, []);
    } else {
      KeptFits(root);
      if GetNode(PutNode(root)).Got? {
        ReadFits(PutNode(root));
      }
    }
  }

  /** A tree saved under another key is not loaded. */
  lemma OtherKey(key: Word64, expected: Word64, root: Node)
    requires key != expected
    ensures Load(Save(key, root), expected) == Ran
  {
    BackHeader(MAGIC, VERSION, key, expected, PutNode(root));
  }

  // No null child, no mark and no long string anywhere in the tree.
  predicate Whole(n: Node)
    decreases n
  {
    && n.marks == UNMARKED && ShortText(n.value) && All(ShortText, n.attrs)
    && forall c :: c in n.children ==> c.Child? && Whole(c.node)
  }

  lemma {:induction false} KeptWhole(n: Node)
    ensures KeptNode(n) == n <==> Whole(n)
    decreases n, 1
  {
    CutWhole(n.value);
    forall v | v in n.attrs ensures Cut(v) == v <==> ShortText(v) {
      CutWhole(v);
    }
    EachSame(Cut, ShortText, n.attrs);
    KeptChildrenWhole(n, n.children);
  }

  lemma {:induction false} KeptChildrenWhole(n: Node, cs: seq<Child>)
    requires forall c :: c in cs ==> c in n.children
    ensures KeptChildren(n, cs) == cs <==> forall c :: c in cs ==> c.Child? && Whole(c.node)
    decreases n, 0, |cs|
  {
    if cs != [] {
      assert cs[0] in n.children;
      var first, more := cs[0], KeptChildren(n, cs[1..]);
      assert cs == [first] + cs[1..];
      assert first in cs;
      KeptChildrenWhole(n, cs[1..]);
      if first.Child? {
        KeptWhole(first.node);
        var kept := Child(KeptNode(first.node));
        assert ([kept] + more)[0] == kept && ([kept] + more)[1..] == more;
      }
    }
  }

  /** Loading gives back the tree itself exactly when its counts fit and nothing of it is left out or cut. */
  lemma LoadedWhole(key: Word64, root: Node)
    ensures Load(Save(key, root), key) == Got(root, []) <==> Fits(root) && Whole(root)
  {
    LoadSaved(key, root);
    KeptWhole(root);
    if !Fits(root) {
      BackHeader(MAGIC, VERSION, key, key, PutNode(root));
      if GetNode(PutNode(root)).Got? {
        ReadFits(PutNode(root));
      }
    }
  }

  // ---- The writer and the loader as they run ----

  // The children still to be written come behind what stands.
  lemma WroteChild(n: Node, i: nat, out: Bytes)
    requires i < |n.children|
    ensures n.children[i] in n.children
    ensures var front := if n.children[i].Null? then [] else PutNode(n.children[i].node);
      out + PutChildren(n, n.children[i..]) == (out + front) + PutChildren(n, n.children[i + 1..])
  {
    var cs := n.children[i..];
    assert cs[1..] == n.children[i + 1..];
    Assoc(out, if cs[0].Null? then [] else PutNode(cs[0].node), PutChildren(n, cs[1..]));
  }

  method WriteAttrs(w: Writer, attrs: seq<Text>)
    modifies w
    ensures w.out == old(w.out) + PutAll(PutStr, attrs)
  {
    assert attrs[0..] == attrs;
    for i := 0 to |attrs|
      invariant w.out + PutAll(PutStr, attrs[i..]) == old(w.out) + PutAll(PutStr, attrs)
    {
      PutFrom(PutStr, attrs, i);
      Assoc(w.out, PutStr(attrs[i]), PutAll(PutStr, attrs[i + 1..]));
      w.Str(attrs[i]);
    }
    NoTail(w.out);
  }

  method CountChildren(cs: seq<Child>) returns (count: Word16)
    ensures count == Low16(Valid(cs))
  {
    count := 0;
    assert cs[0..] == cs;
    ghost var seen := 0;
    for i := 0 to |cs|
      invariant seen + Valid(cs[i..]) == Valid(cs) && count == Low16(seen)
    {
      assert cs[i..][1..] == cs[i + 1..];
      if cs[i].Child? {
        count := (count + 1) % 0x1_0000;
        seen := seen + 1;
      }
    }
  }

  method WriteFields(w: Writer, n: Node)
    modifies w
    ensures w.out == old(w.out) + PutFields(n)
  {
    w.Write(Put8(n.typ));
    w.Str(n.value);
    w.Write(Put8(Low8(|n.attrs|)));
    WriteAttrs(w, n.attrs);
    var count := CountChildren(n.children);
    w.Write(Put16(count));
    InOrder5(old(w.out), Put8(n.typ), PutStr(n.value), Put8(Low8(|n.attrs|)), PutAll(PutStr, n.attrs), Put16(count));
  }

  method SerializeNode(w: Writer, n: Node)
    modifies w
    ensures w.out == old(w.out) + PutNode(n)
    decreases n, 1
  {
    WriteFields(w, n);
    WriteChildren(w, n);
    Assoc(old(w.out), PutFields(n), PutChildren(n, n.children));
  }

  method WriteChildren(w: Writer, n: Node)
    modifies w
    ensures w.out == old(w.out) + PutChildren(n, n.children)
    decreases n, 0
  {
    assert n.children[0..] == n.children;
    for i := 0 to |n.children|
      invariant w.out + PutChildren(n, n.children[i..]) == old(w.out) + PutChildren(n, n.children)
    {
      WroteChild(n, i, w.out);
      if n.children[i].Child? {
        SerializeNode(w, n.children[i].node);
      } else {
        NoTail(w.out);
      }
    }
    NoTail(w.out);
  }

  method SaveCache(key: Word64, root: Node) returns (data: Bytes)
    ensures data == Save(key, root)
  {
    var w := new Writer();
    w.Write(MAGIC);
    w.Write(Put8(VERSION));
    w.Write(Put64(key));
    InOrder3([], MAGIC, Put8(VERSION), Put64(key));
    SerializeNode(w, root);
    data := w.out;
  }

  function Size(v: Left): nat {
    if v.Left? then |v.bytes| else 0
  }

  function GetChild(b: Bytes): Got<Child> {
    var (c, r) :- GetNode(b);
    Got(Child(c), r)
  }

  // The children are a list like any other.
  lemma {:induction false} ChildrenAsList(n: nat, read: seq<Child>, b: Bytes)
    ensures GetChildren(n, read, b) == GetAll(GetChild, n, read, b)
    decreases n
  {
    if n > 0 && GetNode(b).Got? {
      ChildrenAsList(n - 1, read + [Child(GetNode(b).value)], GetNode(b).rest);
    }
  }

  // A node from its fields and its children.
  lemma NodeRead(before: Left, f: Fields, start: Left, read: seq<Child>, after: Left)
    requires Read(From(before, GetFields), f, start) && start.Left? && after.Left?
    requires GetChildren(f.count, [], start.bytes) == Got(read, after.bytes)
    ensures Read(From(before, GetNode), Node(f.typ, f.value, f.attrs, read, UNMARKED), after)
  {
  }

  lemma NodeStopped(before: Left, f: Fields, start: Left)
    requires Read(From(before, GetFields), f, start) && (start.Left? ==> GetChildren(f.count, [], start.bytes) == Ran)
    ensures From(before, GetNode) == Ran
  {
  }

  lemma ReadShrinks(before: Left, c: Node, after: Left)
    requires before.Left? && Read(From(before, GetNode), c, after)
    ensures Size(after) <= Size(before) && Read(From(before, GetChild), Child(c), after)
  {
  }

  method ReadFields(r: Reader) returns (f: Fields)
    requires r.Valid()
    modifies r
    ensures r.Valid() && Read(From(old(r.View()), GetFields), f, r.View())
  {
    var typ := r.U8();
    var value := r.Str();
    var attrs := r.Strs();
    var count := r.U16();
    f := Fields(typ, value, attrs, count);
  }

  // Stops where the file runs out.
  method DeserializeNode(r: Reader) returns (ok: bool, n: Node)
    requires r.Valid()
    modifies r
    ensures r.Valid() && ReadOrRefused(ok, From(old(r.View()), GetNode), n, r.View()) && (ok ==> r.View().Left?)
    decreases Size(r.View()), 0
  {
    var f := ReadFields(r);
    ghost var start := r.View();
    n := Node(f.typ, f.value, f.attrs, [], UNMARKED);
    if r.failed {
      NodeStopped(old(r.View()), f, start);
      return false, n;
    }
    ChildrenAsList(f.count, [], start.bytes);
    var children;
    ok, children := DeserializeChildren(r, f.count);
    if !ok {
      NodeStopped(old(r.View()), f, start);
      return;
    }
    NodeRead(old(r.View()), f, start, children, r.View());
    n := Node(f.typ, f.value, f.attrs, children, UNMARKED);
  }

  method DeserializeChildren(r: Reader, count: nat) returns (ok: bool, children: seq<Child>)
    requires r.Valid() && r.View().Left?
    modifies r
    ensures r.Valid() && (ok ==> r.View().Left?)
    ensures More(old(r.View()), GetChild, count, []) == if ok then Got(children, r.View().bytes) else Ran
    decreases Size(r.View()), 1
  {
    ghost var start := r.View();
    children := [];
    for i := 0 to count
      invariant r.Valid() && r.View().Left? && |children| == i && Size(r.View()) <= Size(start)
      invariant Reading(start, GetChild, count, r.View(), children)
    {
      ghost var now := r.View();
      var c;
      ok, c := DeserializeNode(r);
      if !ok {
        Stopped(start, GetChild, count, now, children);
        return;
      }
      ReadShrinks(now, c, r.View());
      ReadOne(start, GetChild, count, now, children, Child(c), r.View());
      children := children + [Child(c)];
    }
    ok := true;
  }

  method LoadCache(data: Bytes, key: Word64) returns (ok: bool, root: Node)
    ensures match Load(data, key) case Ran => !ok case Got(n, _) => ok && root == n
  {
    var r := new Reader(data);
    root := Node(0, [], [], [], UNMARKED);
    ok := r.Header(MAGIC, VERSION, key);
    if !ok || r.failed {
      return false, root;
    }
    ok, root := DeserializeNode(r);
  }
}
