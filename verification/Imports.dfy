/** Source imports, followed recursively over any graph of files. */
module Imports {

  import opened AccCache
  import opened CText
  import opened ExportClosure
  import opened Options

  // A top-level node as far as importing looks at it. Use is an import of a source file not yet resolved;
  // Inlined is one that has been; Header stands for the other lines that may open a file.
  datatype Item =
    | Use(lib: Text)
    | Inlined(lib: Text)
    | OtherUse(lib: Text)
    | LibDecl
    | Header
    | Export(names: seq<Text>)
    | Def(node: Node)
    | Var(node: Node)
    | Other(node: Node)

  // The file system: the file a name spells in a directory, the canonical path of a spelling and its directory,
  // and what parses at a canonical path.
  datatype World = World(files: map<Text, Option<seq<Item>>>, full: (Text, Text) -> Text, canon: Text -> Text,
                         dirOf: Text -> Text)

  predicate Readable(w: World, f: Text) {
    w.canon(f) in w.files && w.files[w.canon(f)].Some?
  }

  function FileAt(w: World, f: Text): seq<Item>
    requires Readable(w, f)
  {
    w.files[w.canon(f)].value
  }

  // ---- What one file passes on ----

  function ExportedNames(items: seq<Item>): set<Text> {
    if items == [] then {} else ExportedNames(items[..|items| - 1]) + ExportedBy(items[|items| - 1])
  }

  function ExportedBy(item: Item): set<Text> {
    match item
    case Export(names) => set name | name in names
    case Def(n) => if n.marks.exported then {n.value} else {}
    case _ => {}
  }

  predicate HasExports(items: seq<Item>) {
    exists i :: 0 <= i < |items| && (items[i].Export? || (items[i].Def? && items[i].node.marks.exported))
  }

  // The last definition of a name counts.
  function DefsOf(items: seq<Item>): Defs {
    if items == [] then map[]
    else
      var before, last := DefsOf(items[..|items| - 1]), items[|items| - 1];
      if last.Def? then before[last.node.value := last.node] else before
  }

  // own is the file as parsed, all is the file with its own imports in place.
  ghost predicate Passed(own: seq<Item>, all: seq<Item>, item: Item) {
    match item
    case Use(_) => true
    case Inlined(_) => true
    case OtherUse(_) => true
    case Def(n) => LibDecl in all || !HasExports(own) || n.value in Needed(DefsOf(all), ExportedNames(own))
    case _ => false
  }

  predicate PassedVar(all: seq<Item>, item: Item) {
    item.Var? && (LibDecl in all || item.node.marks.exported)
  }

  function Marked(item: Item): Item {
    if item.Var? then Var(item.node.(marks := item.node.marks.(exported := true))) else item
  }

  ghost function Selected(own: seq<Item>, all: seq<Item>, items: seq<Item>): seq<Item> {
    if items == [] then []
    else
      var rest := Selected(own, all, items[..|items| - 1]);
      if Passed(own, all, items[|items| - 1]) then rest + [items[|items| - 1]] else rest
  }

  function SelectedVars(all: seq<Item>, items: seq<Item>): seq<Item> {
    if items == [] then []
    else
      var rest := SelectedVars(all, items[..|items| - 1]);
      if PassedVar(all, items[|items| - 1]) then rest + [Marked(items[|items| - 1])] else rest
  }

  predicate IsHeader(item: Item) {
    item.Use? || item.Inlined? || item.OtherUse? || item.LibDecl? || item.Header?
  }

  function HeaderLength(items: seq<Item>): (n: nat)
    ensures n <= |items| && (forall i :: 0 <= i < n ==> IsHeader(items[i])) && (n < |items| ==> !IsHeader(items[n]))
  {
    if items == [] || !IsHeader(items[0]) then 0 else 1 + HeaderLength(items[1..])
  }

  // Variables go behind the header lines and before everything else.
  function Place(items: seq<Item>, vars: seq<Item>): seq<Item> {
    var at := HeaderLength(items);
    items[..at] + vars + items[at..]
  }

  /** A file passes on its imports, and each definition exactly when all are exported or this one is needed. */
  lemma {:induction false} SelectedExact(own: seq<Item>, all: seq<Item>, items: seq<Item>, item: Item)
    ensures item in Selected(own, all, items) <==> item in items && Passed(own, all, item)
  {
    if items != [] {
      var before, last := items[..|items| - 1], items[|items| - 1];
      SelectedExact(own, all, before, item);
      assert items == before + [last];
    }
  }

  // ---- Following the imports ----

  // What importing gives: the items, those to append and the variables to place, the files seen,
  // the spellings followed in order, and the cycles reported.
  datatype Walked = Walked(items: seq<Item>, append: seq<Item>, vars: seq<Item>, visited: set<Text>,
                           followed: seq<Text>, cycles: seq<Text>)

  function Both(a: Walked, b: Walked): Walked {
    Walked(a.items + b.items, a.append + b.append, a.vars + b.vars, b.visited, a.followed + b.followed, a.cycles +
      b.cycles)
  }

  ghost function One(w: World, dir: Text, item: Item, visited: set<Text>, chain: set<Text>): (r: Walked)
    ensures visited <= r.visited && |r.items| == 1
    decreases w.files.Keys - visited, 0
  {
    if !item.Use? then Walked([item], [], [], visited, [], [])
    else
      var f := w.full(dir, item.lib);
      var p := w.canon(f);
      if p in visited then Walked([Inlined(item.lib)], [], [], visited, [], if p in chain then [p] else [])
      else if !Readable(w, f) then Walked([item], [], [], visited + {p}, [], [])
      else
        var own := FileAt(w, f);
        assert p in w.files.Keys - visited && p !in w.files.Keys - (visited + {p});
        var inner := Inject(w, w.dirOf(f), own, visited + {p}, chain + {p});
        Walked([Inlined(item.lib)], Selected(own, inner.items, inner.items), SelectedVars(inner.items, inner.items),
               inner.visited, [f] + inner.followed, inner.cycles)
  }

  ghost function Walk(w: World, dir: Text, items: seq<Item>, visited: set<Text>, chain: set<Text>): (r: Walked)
    ensures visited <= r.visited && |r.items| == |items|
    decreases w.files.Keys - visited, |items|
  {
    if items == [] then Walked([], [], [], visited, [], [])
    else
      var one := One(w, dir, items[0], visited, chain);
      Both(one, Walk(w, dir, items[1..], one.visited, chain))
  }

  ghost function Inject(w: World, dir: Text, items: seq<Item>, visited: set<Text>, chain: set<Text>): (r: Walked)
    ensures visited <= r.visited
    decreases w.files.Keys - visited, |items| + 1
  {
    var r := Walk(w, dir, items, visited, chain);
    r.(items := Place(r.items + r.append, r.vars), append := [], vars := [])
  }

  // ---- Each file once, every file reached, no other ----

  // The items import this spelling.
  predicate Names(w: World, dir: Text, items: seq<Item>, f: Text) {
    exists i :: 0 <= i < |items| && items[i].Use? && w.full(dir, items[i].lib) == f
  }

  predicate NamedBy(w: World, g: Text, f: Text) {
    Readable(w, g) && Names(w, w.dirOf(g), FileAt(w, g), f)
  }

  // Imported by the items, or by one of the first k files followed.
  predicate Sourced(w: World, dir: Text, items: seq<Item>, followed: seq<Text>, k: nat, f: Text) {
    Names(w, dir, items, f) || exists j :: 0 <= j < k && j < |followed| && NamedBy(w, followed[j], f)
  }

  // Each file followed is new, and followed once.
  ghost predicate Once(w: World, visited: set<Text>, r: Walked) {
    && (forall k :: 0 <= k < |r.followed| ==>
      Readable(w, r.followed[k]) && w.canon(r.followed[k]) in r.visited - visited)
    && forall j, k :: 0 <= j < k < |r.followed| ==> w.canon(r.followed[j]) != w.canon(r.followed[k])
  }

  // Each file followed is imported by the items or by a file followed before it.
  ghost predicate Ordered(w: World, dir: Text, items: seq<Item>, r: Walked) {
    forall k :: 0 <= k < |r.followed| ==> Sourced(w, dir, items, r.followed, k, r.followed[k])
  }

  // Every import of the items and of the files followed has been seen.
  ghost predicate SeenAll(w: World, dir: Text, items: seq<Item>, r: Walked) {
    forall f :: Sourced(w, dir, items, r.followed, |r.followed|, f) ==> w.canon(f) in r.visited
  }

  ghost predicate SeenFrom(w: World, dir: Text, items: seq<Item>, followed: seq<Text>, p: Text) {
    exists f :: w.canon(f) == p && Sourced(w, dir, items, followed, |followed|, f)
  }

  // Nothing else has been seen.
  ghost predicate SeenOnly(w: World, dir: Text, items: seq<Item>, visited: set<Text>, r: Walked) {
    forall p :: p in r.visited - visited ==> SeenFrom(w, dir, items, r.followed, p)
  }

  predicate Followed(w: World, followed: seq<Text>, p: Text) {
    exists k :: 0 <= k < |followed| && w.canon(followed[k]) == p
  }

  // A readable file seen for the first time is followed.
  ghost predicate FollowedAll(w: World, visited: set<Text>, r: Walked) {
    forall p :: p in r.visited - visited && p in w.files && w.files[p].Some? ==> Followed(w, r.followed, p)
  }

  ghost predicate Exact(w: World, dir: Text, items: seq<Item>, visited: set<Text>, r: Walked) {
    && Once(w, visited, r) && Ordered(w, dir, items, r) && SeenAll(w, dir, items, r)
    && SeenOnly(w, dir, items, visited, r) && FollowedAll(w, visited, r)
  }

  // The items of one part among all the items, its files among all the files.
  lemma SourcedIn(w: World, dir: Text, part: seq<Item>, items: seq<Item>, before: seq<Text>, some: seq<Text>,
                  after: seq<Text>, k: nat, f: Text)
    requires (forall item :: item in part ==> item in items) && Sourced(w, dir, part, some, k, f) && k <= |some|
    ensures Sourced(w, dir, items, before + some + after, |before| + k, f)
  {
    var all := before + some + after;
    if Names(w, dir, part, f) {
      var i :| 0 <= i < |part| && part[i].Use? && w.full(dir, part[i].lib) == f;
      assert part[i] in items;
    } else {
      var j :| 0 <= j < k && j < |some| && NamedBy(w, some[j], f);
      assert all[|before| + j] == some[j];
    }
  }

  // A source of the whole is a source of one of the two parts.
  lemma SourcedSplit(w: World, dir: Text, item: Item, rest: seq<Item>, a: seq<Text>, b: seq<Text>, f: Text)
    requires Sourced(w, dir, [item] + rest, a + b, |a + b|, f)
    ensures Sourced(w, dir, [item], a, |a|, f) || Sourced(w, dir, rest, b, |b|, f)
  {
    var items := [item] + rest;
    if Names(w, dir, items, f) {
      var i :| 0 <= i < |items| && items[i].Use? && w.full(dir, items[i].lib) == f;
      if i == 0 {
        assert [item][0] == items[0];
      } else {
        assert rest[i - 1] == items[i];
      }
    } else {
      var j :| 0 <= j < |a + b| && NamedBy(w, (a + b)[j], f);
      if j < |a| {
        assert a[j] == (a + b)[j];
      } else {
        assert b[j - |a|] == (a + b)[j];
      }
    }
  }

  lemma BothOnce(w: World, visited: set<Text>, a: Walked, b: Walked)
    requires visited <= a.visited <= b.visited && Once(w, visited, a) && Once(w, a.visited, b)
    ensures Once(w, visited, Both(a, b))
  {
    var all := a.followed + b.followed;
    forall k | 0 <= k < |all| ensures Readable(w, all[k]) && w.canon(all[k]) in b.visited - visited {
      if k < |a.followed| {
        assert all[k] == a.followed[k];
      } else {
        assert all[k] == b.followed[k - |a.followed|];
      }
    }
    forall j, k | 0 <= j < k < |all| ensures w.canon(all[j]) != w.canon(all[k]) {
      if k < |a.followed| {
        assert all[j] == a.followed[j] && all[k] == a.followed[k];
      } else if j < |a.followed| {
        assert all[j] == a.followed[j] && all[k] == b.followed[k - |a.followed|];
      } else {
        assert all[j] == b.followed[j - |a.followed|] && all[k] == b.followed[k - |a.followed|];
      }
    }
  }

  lemma BothOrdered(w: World, dir: Text, item: Item, rest: seq<Item>, a: Walked, b: Walked)
    requires Ordered(w, dir, [item], a) && Ordered(w, dir, rest, b)
    ensures Ordered(w, dir, [item] + rest, Both(a, b))
  {
    var all := a.followed + b.followed;
    assert [] + a.followed + b.followed == all && a.followed + b.followed + [] == all;
    forall k | 0 <= k < |all| ensures Sourced(w, dir, [item] + rest, all, k, all[k]) {
      if k < |a.followed| {
        assert all[k] == a.followed[k];
        SourcedIn(w, dir, [item], [item] + rest, [], a.followed, b.followed, k, all[k]);
      } else {
        assert all[k] == b.followed[k - |a.followed|];
        SourcedIn(w, dir, rest, [item] + rest, a.followed, b.followed, [], k - |a.followed|, all[k]);
      }
    }
  }

  lemma BothSeenAll(w: World, dir: Text, item: Item, rest: seq<Item>, a: Walked, b: Walked)
    requires a.visited <= b.visited && SeenAll(w, dir, [item], a) && SeenAll(w, dir, rest, b)
    ensures SeenAll(w, dir, [item] + rest, Both(a, b))
  {
    var all := a.followed + b.followed;
    forall f | Sourced(w, dir, [item] + rest, all, |all|, f) ensures w.canon(f) in b.visited {
      SourcedSplit(w, dir, item, rest, a.followed, b.followed, f);
    }
  }

  lemma BothSeenOnly(w: World, dir: Text, item: Item, rest: seq<Item>, visited: set<Text>, a: Walked, b: Walked)
    requires SeenOnly(w, dir, [item], visited, a) && SeenOnly(w, dir, rest, a.visited, b)
    ensures SeenOnly(w, dir, [item] + rest, visited, Both(a, b))
  {
    var all := a.followed + b.followed;
    assert [] + a.followed + b.followed == all && a.followed + b.followed + [] == all;
    forall p | p in b.visited - visited ensures SeenFrom(w, dir, [item] + rest, all, p) {
      if p in a.visited {
        assert p in a.visited - visited;
        var f :| w.canon(f) == p && Sourced(w, dir, [item], a.followed, |a.followed|, f);
        SourcedIn(w, dir, [item], [item] + rest, [], a.followed, b.followed, |a.followed|, f);
        SourcedLater(w, dir, [item] + rest, all, |a.followed|, |all|, f);
      } else {
        assert p in b.visited - a.visited;
        var f :| w.canon(f) == p && Sourced(w, dir, rest, b.followed, |b.followed|, f);
        SourcedIn(w, dir, rest, [item] + rest, a.followed, b.followed, [], |b.followed|, f);
      }
    }
  }

  lemma SourcedLater(w: World, dir: Text, items: seq<Item>, followed: seq<Text>, k: nat, n: nat, f: Text)
    requires k <= n && Sourced(w, dir, items, followed, k, f)
    ensures Sourced(w, dir, items, followed, n, f)
  {
  }

  lemma BothFollowed(w: World, visited: set<Text>, a: Walked, b: Walked)
    requires FollowedAll(w, visited, a) && FollowedAll(w, a.visited, b)
    ensures FollowedAll(w, visited, Both(a, b))
  {
    var all := a.followed + b.followed;
    forall p | p in b.visited - visited && p in w.files && w.files[p].Some? ensures Followed(w, all, p) {
      if p in a.visited {
        assert p in a.visited - visited;
        var k :| 0 <= k < |a.followed| && w.canon(a.followed[k]) == p;
        assert all[k] == a.followed[k];
      } else {
        assert p in b.visited - a.visited;
        var k :| 0 <= k < |b.followed| && w.canon(b.followed[k]) == p;
        assert all[|a.followed| + k] == b.followed[k];
      }
    }
  }

  lemma BothExact(w: World, dir: Text, item: Item, rest: seq<Item>, visited: set<Text>, a: Walked, b: Walked)
    requires visited <= a.visited <= b.visited && Exact(w, dir, [item], visited, a) && Exact(w, dir, rest, a.visited, b)
    ensures Exact(w, dir, [item] + rest, visited, Both(a, b))
  {
    BothOnce(w, visited, a, b);
    BothOrdered(w, dir, item, rest, a, b);
    BothSeenAll(w, dir, item, rest, a, b);
    BothSeenOnly(w, dir, item, rest, visited, a, b);
    BothFollowed(w, visited, a, b);
  }

  // ---- One import: the file, then what its items import ----

  // A source below the file f is a source below an import of f.
  lemma SourcedBelow(w: World, dir: Text, lib: Text, followed: seq<Text>, k: nat, g: Text)
    requires var f := w.full(dir, lib); Readable(w, f) && Sourced(w, w.dirOf(f), FileAt(w, f), followed, k, g)
    ensures Sourced(w, dir, [Use(lib)], [w.full(dir, lib)] + followed, k + 1, g)
  {
    var f := w.full(dir, lib);
    var all := [f] + followed;
    if Names(w, w.dirOf(f), FileAt(w, f), g) {
      assert NamedBy(w, all[0], g);
    } else {
      var j :| 0 <= j < k && j < |followed| && NamedBy(w, followed[j], g);
      assert all[j + 1] == followed[j];
    }
  }

  lemma SourcedAbove(w: World, dir: Text, lib: Text, followed: seq<Text>, g: Text)
    requires Readable(w, w.full(dir, lib)) &&
      Sourced(w, dir, [Use(lib)], [w.full(dir, lib)] + followed, |followed| + 1, g)
    ensures var f := w.full(dir, lib); g == f || Sourced(w, w.dirOf(f), FileAt(w, f), followed, |followed|, g)
  {
    var f := w.full(dir, lib);
    var all := [f] + followed;
    if !Names(w, dir, [Use(lib)], g) {
      var j :| 0 <= j < |followed| + 1 && j < |all| && NamedBy(w, all[j], g);
      if j > 0 {
        assert followed[j - 1] == all[j];
      }
    }
  }

  lemma UseNamed(w: World, dir: Text, lib: Text)
    ensures Names(w, dir, [Use(lib)], w.full(dir, lib))
  {
    assert [Use(lib)][0].Use?;
  }

  // The file f is new; inner is what injecting it gave, and r what importing it gives.
  ghost predicate Opened(w: World, f: Text, visited: set<Text>, inner: Walked, r: Walked) {
    && Readable(w, f) && w.canon(f) !in visited && visited + {w.canon(f)} <= inner.visited
    && Exact(w, w.dirOf(f), FileAt(w, f), visited + {w.canon(f)}, inner)
    && r.visited == inner.visited && r.followed == [f] + inner.followed
  }

  lemma OneExact(w: World, dir: Text, lib: Text, visited: set<Text>, inner: Walked, r: Walked)
    requires Opened(w, w.full(dir, lib), visited, inner, r)
    ensures Exact(w, dir, [Use(lib)], visited, r)
  {
    var f := w.full(dir, lib);
    var p := w.canon(f);
    var all := [f] + inner.followed;
    UseNamed(w, dir, lib);
    forall k | 0 <= k < |all| ensures Sourced(w, dir, [Use(lib)], all, k, all[k]) {
      if k > 0 {
        assert all[k] == inner.followed[k - 1];
        SourcedBelow(w, dir, lib, inner.followed, k - 1, all[k]);
      }
    }
    forall g | Sourced(w, dir, [Use(lib)], all, |all|, g) ensures w.canon(g) in r.visited {
      SourcedAbove(w, dir, lib, inner.followed, g);
    }
    forall q | q in r.visited - visited ensures SeenFrom(w, dir, [Use(lib)], all, q) {
      if q == p {
        assert w.canon(f) == q && Sourced(w, dir, [Use(lib)], all, |all|, f);
      } else {
        assert q in inner.visited - (visited + {p});
        var g :| w.canon(g) == q && Sourced(w, w.dirOf(f), FileAt(w, f), inner.followed, |inner.followed|, g);
        SourcedBelow(w, dir, lib, inner.followed, |inner.followed|, g);
      }
    }
    OneFollowed(w, f, visited, inner, r);
  }

  lemma OneFollowed(w: World, f: Text, visited: set<Text>, inner: Walked, r: Walked)
    requires Readable(w, f) && w.canon(f) !in visited && visited + {w.canon(f)} <= inner.visited
    requires Once(w, visited + {w.canon(f)}, inner) && FollowedAll(w, visited + {w.canon(f)}, inner)
    requires r.visited == inner.visited && r.followed == [f] + inner.followed
    ensures Once(w, visited, r) && FollowedAll(w, visited, r)
  {
    var p := w.canon(f);
    forall k | 0 <= k < |r.followed|
      ensures Readable(w, r.followed[k]) && w.canon(r.followed[k]) in r.visited - visited &&
        (k > 0 ==> w.canon(r.followed[k]) != p)
    {
      if k > 0 {
        assert r.followed[k] == inner.followed[k - 1];
      }
    }
    forall j, k | 0 <= j < k < |r.followed| ensures w.canon(r.followed[j]) != w.canon(r.followed[k]) {
      if j > 0 {
        assert r.followed[j] == inner.followed[j - 1] && r.followed[k] == inner.followed[k - 1];
      }
    }
    forall q | q in r.visited - visited && q in w.files && w.files[q].Some? ensures Followed(w, r.followed, q) {
      if q == p {
        assert r.followed[0] == f;
      } else {
        assert q in inner.visited - (visited + {p});
        var k :| 0 <= k < |inner.followed| && w.canon(inner.followed[k]) == q;
        assert r.followed[k + 1] == inner.followed[k];
      }
    }
  }

  // An import that opens nothing: seen before, or not readable.
  lemma SkippedExact(w: World, dir: Text, item: Item, visited: set<Text>, r: Walked)
    requires r.followed == []
    requires if item.Use? then r.visited == visited + {w.canon(w.full(dir, item.lib))} &&
      (w.canon(w.full(dir, item.lib)) in visited || !Readable(w, w.full(dir, item.lib)))
             else r.visited == visited
    ensures Exact(w, dir, [item], visited, r)
  {
    if item.Use? {
      UseNamed(w, dir, item.lib);
      assert Sourced(w, dir, [item], r.followed, 0, w.full(dir, item.lib));
    }
  }

  lemma {:induction false} OneIsExact(w: World, dir: Text, item: Item, visited: set<Text>, chain: set<Text>)
    ensures Exact(w, dir, [item], visited, One(w, dir, item, visited, chain))
    decreases w.files.Keys - visited, 0
  {
    var r := One(w, dir, item, visited, chain);
    if item.Use? && w.canon(w.full(dir, item.lib)) !in visited && Readable(w, w.full(dir, item.lib)) {
      var f := w.full(dir, item.lib);
      var p := w.canon(f);
      assert p in w.files.Keys - visited && p !in w.files.Keys - (visited + {p});
      WalkExact(w, w.dirOf(f), FileAt(w, f), visited + {p}, chain + {p});
      OneExact(w, dir, item.lib, visited, Inject(w, w.dirOf(f), FileAt(w, f), visited + {p}, chain + {p}), r);
    } else {
      if item.Use? && w.canon(w.full(dir, item.lib)) in visited {
        assert visited + {w.canon(w.full(dir, item.lib))} == visited;
      }
      SkippedExact(w, dir, item, visited, r);
    }
  }

  /** Importing follows each readable file once, in an order of discovery, and sees exactly what is imported on the
      way. */
  lemma {:induction false} WalkExact(w: World, dir: Text, items: seq<Item>, visited: set<Text>, chain: set<Text>)
    ensures Exact(w, dir, items, visited, Walk(w, dir, items, visited, chain))
    decreases w.files.Keys - visited, |items| + 1
  {
    if items != [] {
      var a := One(w, dir, items[0], visited, chain);
      OneIsExact(w, dir, items[0], visited, chain);
      WalkExact(w, dir, items[1..], a.visited, chain);
      BothExact(w, dir, items[0], items[1..], visited, a, Walk(w, dir, items[1..], a.visited, chain));
      assert [items[0]] + items[1..] == items;
    }
  }

  // ---- Reachability by chains of imports ----

  // A chain of imports from the items.
  predicate Path(w: World, dir: Text, items: seq<Item>, p: seq<Text>) {
    p != [] && Names(w, dir, items, p[0]) && forall k :: 0 <= k < |p| - 1 ==> NamedBy(w, p[k], p[k + 1])
  }

  ghost predicate PathTo(w: World, dir: Text, items: seq<Item>, f: Text) {
    exists p :: Path(w, dir, items, p) && p[|p| - 1] == f
  }

  lemma PathOn(w: World, dir: Text, items: seq<Item>, g: Text, f: Text)
    requires PathTo(w, dir, items, g) && NamedBy(w, g, f)
    ensures PathTo(w, dir, items, f)
  {
    var p :| Path(w, dir, items, p) && p[|p| - 1] == g;
    var q := p + [f];
    assert Path(w, dir, items, q) && q[|q| - 1] == f;
  }

  lemma {:induction false} SourcedPath(w: World, dir: Text, items: seq<Item>, r: Walked, k: nat, f: Text)
    requires Ordered(w, dir, items, r) && Sourced(w, dir, items, r.followed, k, f) && k <= |r.followed|
    ensures PathTo(w, dir, items, f)
    decreases k
  {
    if Names(w, dir, items, f) {
      assert Path(w, dir, items, [f]) && [f][|[f]| - 1] == f;
    } else {
      var j :| 0 <= j < k && j < |r.followed| && NamedBy(w, r.followed[j], f);
      SourcedPath(w, dir, items, r, j, r.followed[j]);
      PathOn(w, dir, items, r.followed[j], f);
    }
  }

  ghost predicate Alike(w: World, f: Text, g: Text, lib: Text) {
    w.canon(f) == w.canon(g) ==> w.canon(w.full(w.dirOf(f), lib)) == w.canon(w.full(w.dirOf(g), lib))
  }

  // Two spellings of one file import the same files.
  ghost predicate Consistent(w: World) {
    forall f, g, lib :: Alike(w, f, g, lib)
  }

  lemma {:induction false} PathSeen(w: World, dir: Text, items: seq<Item>, r: Walked, p: seq<Text>)
    requires Consistent(w) && Exact(w, dir, items, {}, r) && Path(w, dir, items, p)
    ensures w.canon(p[|p| - 1]) in r.visited
    decreases |p|
  {
    var f := p[|p| - 1];
    if |p| == 1 {
      assert Sourced(w, dir, items, r.followed, |r.followed|, f);
    } else {
      var q := p[..|p| - 1];
      var g := q[|q| - 1];
      assert Path(w, dir, items, q);
      PathSeen(w, dir, items, r, q);
      assert NamedBy(w, p[|p| - 2], p[|p| - 2 + 1]);
      assert w.canon(g) in r.visited - {};
      var k :| 0 <= k < |r.followed| && w.canon(r.followed[k]) == w.canon(g);
      var i :| 0 <= i < |FileAt(w, g)| && FileAt(w, g)[i].Use? && w.full(w.dirOf(g), FileAt(w, g)[i].lib) == f;
      var h := w.full(w.dirOf(r.followed[k]), FileAt(w, g)[i].lib);
      assert Alike(w, r.followed[k], g, FileAt(w, g)[i].lib);
      assert NamedBy(w, r.followed[k], h);
      assert Sourced(w, dir, items, r.followed, |r.followed|, h);
    }
  }

  /** The files seen from a program are those at the end of a chain of imports, cyclic or not. */
  lemma ImportsReach(w: World, dir: Text, items: seq<Item>, c: Text)
    ensures var r := Inject(w, dir, items, {}, {});
      && (c in r.visited ==> exists f :: w.canon(f) == c && PathTo(w, dir, items, f))
      && (Consistent(w) && (exists f :: w.canon(f) == c && PathTo(w, dir, items, f)) ==> c in r.visited)
  {
    var r := Walk(w, dir, items, {}, {});
    WalkExact(w, dir, items, {}, {});
    if c in r.visited {
      assert c in r.visited - {};
      var f :| w.canon(f) == c && Sourced(w, dir, items, r.followed, |r.followed|, f);
      SourcedPath(w, dir, items, r, |r.followed|, f);
    }
    if Consistent(w) && exists f :: w.canon(f) == c && PathTo(w, dir, items, f) {
      var f :| w.canon(f) == c && PathTo(w, dir, items, f);
      var p :| Path(w, dir, items, p) && p[|p| - 1] == f;
      PathSeen(w, dir, items, r, p);
    }
  }

  // ---- Cycles ----

  // A spelling of the file c is reached from the items.
  ghost predicate Meets(w: World, dir: Text, items: seq<Item>, c: Text) {
    exists f :: w.canon(f) == c && PathTo(w, dir, items, f)
  }

  // The file c imports itself, over some chain.
  ghost predicate OnCycle(w: World, c: Text) {
    exists f :: Readable(w, f) && w.canon(f) == c && Meets(w, w.dirOf(f), FileAt(w, f), c)
  }

  lemma PathBelow(w: World, dir: Text, lib: Text, p: seq<Text>)
    requires var f := w.full(dir, lib); Readable(w, f) && Path(w, w.dirOf(f), FileAt(w, f), p)
    ensures Path(w, dir, [Use(lib)], [w.full(dir, lib)] + p)
  {
    var f := w.full(dir, lib);
    var q := [f] + p;
    UseNamed(w, dir, lib);
    forall k | 0 <= k < |q| - 1 ensures NamedBy(w, q[k], q[k + 1]) {
      if k > 0 {
        assert NamedBy(w, p[k - 1], p[k - 1 + 1]);
      }
    }
  }

  lemma MeetsBelow(w: World, dir: Text, lib: Text, c: Text)
    requires var f := w.full(dir, lib); Readable(w, f) && Meets(w, w.dirOf(f), FileAt(w, f), c)
    ensures Meets(w, dir, [Use(lib)], c)
  {
    var f := w.full(dir, lib);
    var g :| w.canon(g) == c && PathTo(w, w.dirOf(f), FileAt(w, f), g);
    var p :| Path(w, w.dirOf(f), FileAt(w, f), p) && p[|p| - 1] == g;
    PathBelow(w, dir, lib, p);
    var q := [f] + p;
    assert q[|q| - 1] == g;
    assert PathTo(w, dir, [Use(lib)], g);
  }

  lemma MeetsAmong(w: World, dir: Text, part: seq<Item>, items: seq<Item>, c: Text)
    requires (forall item :: item in part ==> item in items) && Meets(w, dir, part, c)
    ensures Meets(w, dir, items, c)
  {
    var f :| w.canon(f) == c && PathTo(w, dir, part, f);
    var p :| Path(w, dir, part, p) && p[|p| - 1] == f;
    var i :| 0 <= i < |part| && part[i].Use? && w.full(dir, part[i].lib) == p[0];
    assert part[i] in items;
    assert Path(w, dir, items, p);
    assert PathTo(w, dir, items, f);
  }

  // A reported file is on the chain above and reached again from here, or imports itself further down.
  ghost predicate CyclesReal(w: World, dir: Text, items: seq<Item>, chain: set<Text>, cycles: seq<Text>) {
    forall c :: c in cycles ==> (c in chain && Meets(w, dir, items, c)) || OnCycle(w, c)
  }

  lemma {:induction false} OneCycles(w: World, dir: Text, item: Item, visited: set<Text>, chain: set<Text>)
    ensures CyclesReal(w, dir, [item], chain, One(w, dir, item, visited, chain).cycles)
    decreases w.files.Keys - visited, 0
  {
    if item.Use? {
      var f := w.full(dir, item.lib);
      var p := w.canon(f);
      UseNamed(w, dir, item.lib);
      if p in visited {
        assert Path(w, dir, [item], [f]) && [f][|[f]| - 1] == f;
        assert PathTo(w, dir, [item], f);
      } else if Readable(w, f) {
        assert p in w.files.Keys - visited && p !in w.files.Keys - (visited + {p});
        WalkCycles(w, w.dirOf(f), FileAt(w, f), visited + {p}, chain + {p});
        forall c | c in One(w, dir, item, visited, chain).cycles
          ensures (c in chain && Meets(w, dir, [item], c)) || OnCycle(w, c)
        {
          if !OnCycle(w, c) {
            assert Meets(w, w.dirOf(f), FileAt(w, f), c);
            MeetsBelow(w, dir, item.lib, c);
          }
        }
      }
    }
  }

  lemma {:induction false} WalkCycles(w: World, dir: Text, items: seq<Item>, visited: set<Text>, chain: set<Text>)
    ensures CyclesReal(w, dir, items, chain, Walk(w, dir, items, visited, chain).cycles)
    decreases w.files.Keys - visited, |items| + 1
  {
    if items != [] {
      var a := One(w, dir, items[0], visited, chain);
      var b := Walk(w, dir, items[1..], a.visited, chain);
      OneCycles(w, dir, items[0], visited, chain);
      WalkCycles(w, dir, items[1..], a.visited, chain);
      forall c | c in a.cycles + b.cycles ensures (c in chain && Meets(w, dir, items, c)) || OnCycle(w, c) {
        if !OnCycle(w, c) {
          if c in a.cycles {
            MeetsAmong(w, dir, [items[0]], items, c);
          } else {
            MeetsAmong(w, dir, items[1..], items, c);
          }
        }
      }
    }
  }

  /** A cycle reported for a program is one: the file imports itself over some chain. Importing twice from siblings is
      not reported. */
  lemma ReportedCycle(w: World, dir: Text, items: seq<Item>, c: Text)
    requires c in Inject(w, dir, items, {}, {}).cycles
    ensures OnCycle(w, c)
  {
    WalkCycles(w, dir, items, {}, {});
  }

  // ---- And every cycle is reported ----

  ghost predicate Stays(w: World, d: set<Text>) {
    forall f, g :: w.canon(f) in d && NamedBy(w, f, g) ==> w.canon(g) in d
  }

  // Files that lead only to one another, and never back.
  ghost predicate Clean(w: World, d: set<Text>) {
    Stays(w, d) && forall c :: c in d ==> !OnCycle(w, c)
  }

  lemma {:induction false} PathStays(w: World, d: set<Text>, dir: Text, items: seq<Item>, p: seq<Text>, k: nat)
    requires Stays(w, d) && Path(w, dir, items, p) && w.canon(p[0]) in d && k < |p|
    ensures w.canon(p[k]) in d
    decreases k
  {
    if k > 0 {
      PathStays(w, d, dir, items, p, k - 1);
      assert NamedBy(w, p[k - 1], p[k - 1 + 1]);
    }
  }

  // A file whose imports all lie in a set that does not hold the file, and that imports do not leave.
  lemma NotBack(w: World, d: set<Text>, f: Text)
    requires Consistent(w) && Readable(w, f) && Stays(w, d) && w.canon(f) !in d
    requires forall g :: NamedBy(w, f, g) ==> w.canon(g) in d
    ensures !OnCycle(w, w.canon(f)) && Stays(w, d + {w.canon(f)})
  {
    var c := w.canon(f);
    forall f', g | w.canon(f') == c && NamedBy(w, f', g) ensures w.canon(g) in d {
      NamedAlike(w, f, f', g);
    }
    if OnCycle(w, c) {
      var f' :| Readable(w, f') && w.canon(f') == c && Meets(w, w.dirOf(f'), FileAt(w, f'), c);
      var g :| w.canon(g) == c && PathTo(w, w.dirOf(f'), FileAt(w, f'), g);
      var p :| Path(w, w.dirOf(f'), FileAt(w, f'), p) && p[|p| - 1] == g;
      assert NamedBy(w, f', p[0]);
      PathStays(w, d, w.dirOf(f'), FileAt(w, f'), p, |p| - 1);
    }
  }

  // What one spelling of a file imports, the other imports under some spelling.
  lemma NamedAlike(w: World, f: Text, f': Text, g: Text)
    requires Consistent(w) && w.canon(f) == w.canon(f') && NamedBy(w, f', g)
    ensures exists h :: NamedBy(w, f, h) && w.canon(h) == w.canon(g)
  {
    var items := FileAt(w, f');
    var i :| 0 <= i < |items| && items[i].Use? && w.full(w.dirOf(f'), items[i].lib) == g;
    var h := w.full(w.dirOf(f), items[i].lib);
    assert Alike(w, f, f', items[i].lib);
    assert NamedBy(w, f, h) && w.canon(h) == w.canon(g);
  }

  // A file that cannot be read leads nowhere.
  lemma UnreadableClean(w: World, d: set<Text>, f: Text)
    requires Clean(w, d) && !Readable(w, f)
    ensures Clean(w, d + {w.canon(f)})
  {
  }

  // Quiet: every import of the items leads into the clean set.
  ghost predicate LeadsInto(w: World, dir: Text, items: seq<Item>, d: set<Text>) {
    forall f :: Names(w, dir, items, f) ==> w.canon(f) in d
  }

  lemma OnlyName(w: World, dir: Text, item: Item, d: set<Text>)
    requires item.Use? ==> w.canon(w.full(dir, item.lib)) in d
    ensures LeadsInto(w, dir, [item], d)
  {
  }

  lemma {:induction false} OneQuiet(w: World, dir: Text, item: Item, visited: set<Text>, chain: set<Text>)
    requires Consistent(w) && chain <= visited && Clean(w, visited - chain) &&
      One(w, dir, item, visited, chain).cycles == []
    ensures var r := One(w, dir, item, visited, chain);
      Clean(w, r.visited - chain) && LeadsInto(w, dir, [item], r.visited - chain)
    decreases w.files.Keys - visited, 0
  {
    var r := One(w, dir, item, visited, chain);
    if item.Use? {
      var f := w.full(dir, item.lib);
      var p := w.canon(f);
      var d := visited - chain;
      if p in visited {
        assert p in d;
      } else if !Readable(w, f) {
        UnreadableClean(w, d, f);
        assert r.visited - chain == d + {p};
      } else {
        assert p in w.files.Keys - visited && p !in w.files.Keys - (visited + {p});
        assert (visited + {p}) - (chain + {p}) == d;
        WalkQuiet(w, w.dirOf(f), FileAt(w, f), visited + {p}, chain + {p});
        var inside := r.visited - (chain + {p});
        NotBack(w, inside, f);
        assert r.visited - chain == inside + {p};
      }
    }
    OnlyName(w, dir, item, r.visited - chain);
  }

  lemma NamesSplit(w: World, dir: Text, item: Item, rest: seq<Item>, d: set<Text>)
    requires LeadsInto(w, dir, [item], d) && LeadsInto(w, dir, rest, d)
    ensures LeadsInto(w, dir, [item] + rest, d)
  {
    var items := [item] + rest;
    forall f | Names(w, dir, items, f) ensures w.canon(f) in d {
      SourcedSplit(w, dir, item, rest, [], [], f);
    }
  }

  lemma {:induction false} WalkQuiet(w: World, dir: Text, items: seq<Item>, visited: set<Text>, chain: set<Text>)
    requires Consistent(w) && chain <= visited && Clean(w, visited - chain) &&
      Walk(w, dir, items, visited, chain).cycles == []
    ensures var r := Walk(w, dir, items, visited, chain);
      Clean(w, r.visited - chain) && LeadsInto(w, dir, items, r.visited - chain)
    decreases w.files.Keys - visited, |items| + 1
  {
    if items != [] {
      var a := One(w, dir, items[0], visited, chain);
      var b := Walk(w, dir, items[1..], a.visited, chain);
      assert a.cycles + b.cycles == [] ==> a.cycles == [] && b.cycles == [];
      OneQuiet(w, dir, items[0], visited, chain);
      WalkQuiet(w, dir, items[1..], a.visited, chain);
      NamesSplit(w, dir, items[0], items[1..], b.visited - chain);
      assert [items[0]] + items[1..] == items;
    }
  }

  /** A cycle is reported exactly when some file the program reaches imports itself over some chain. */
  lemma CycleReported(w: World, dir: Text, items: seq<Item>)
    requires Consistent(w)
    ensures var r := Inject(w, dir, items, {}, {});
      r.cycles == [] <==> forall c :: c in r.visited ==> !OnCycle(w, c)
  {
    var r := Walk(w, dir, items, {}, {});
    if r.cycles == [] {
      assert Clean(w, {}) && r.visited - {} == r.visited;
      WalkQuiet(w, dir, items, {}, {});
    } else {
      var c := r.cycles[0];
      ReportedCycle(w, dir, items, c);
      WalkReports(w, dir, items, {}, {}, c);
    }
  }

  // A reported file has been seen.
  lemma {:induction false} OneReports(w: World, dir: Text, item: Item, visited: set<Text>, chain: set<Text>, c: Text)
    requires c in One(w, dir, item, visited, chain).cycles
    ensures c in One(w, dir, item, visited, chain).visited
    decreases w.files.Keys - visited, 0
  {
    var f := w.full(dir, item.lib);
    var p := w.canon(f);
    if p !in visited && Readable(w, f) {
      assert p in w.files.Keys - visited && p !in w.files.Keys - (visited + {p});
      WalkReports(w, w.dirOf(f), FileAt(w, f), visited + {p}, chain + {p}, c);
    }
  }

  lemma {:induction false} WalkReports(w: World, dir: Text, items: seq<Item>, visited: set<Text>, chain: set<Text>,
                                       c: Text)
    requires c in Walk(w, dir, items, visited, chain).cycles
    ensures c in Walk(w, dir, items, visited, chain).visited
    decreases w.files.Keys - visited, |items| + 1
  {
    var a := One(w, dir, items[0], visited, chain);
    if c in a.cycles {
      OneReports(w, dir, items[0], visited, chain, c);
    } else {
      WalkReports(w, dir, items[1..], a.visited, chain, c);
    }
  }
}
