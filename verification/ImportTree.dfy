/** What importing leaves in a program, said of the tree of files that were followed: which items come out, and where
    they stand. */
module ImportTree {
  import opened AccCache
  import opened CText
  import opened ExportClosure
  import opened Imports
  import opened Sequences

  // A file, or the program: its items as parsed, its items when its imports are in place, and the files that were
  // followed for its import lines, in the order of these lines.
  datatype File = File(name: Text, dir: Text, own: seq<Item>, all: seq<Item>, imports: seq<File>)

  // ---- What comes out of a file ----

  predicate ExportsName(own: seq<Item>, name: Text) {
    || (exists i :: 0 <= i < |own| && own[i].Export? && name in own[i].names)
    || (exists i :: 0 <= i < |own| && own[i].Def? && own[i].node.marks.exported && own[i].node.value == name)
  }

  predicate ExportsSome(own: seq<Item>) {
    exists i :: 0 <= i < |own| && (own[i].Export? || (own[i].Def? && own[i].node.marks.exported))
  }

  predicate Defines(item: Item, name: Text) {
    item.Def? && item.node.value == name
  }

  // The definition at k is the one that counts for its name: the last.
  predicate Counts(items: seq<Item>, k: nat, name: Text) {
    k < |items| && Defines(items[k], name) && forall j :: k < j < |items| ==> !Defines(items[j], name)
  }

  // A name stands in a tree: as a value, or as a word of an attribute.
  ghost predicate Names(n: Node, name: Text) {
    || n.value == name || (exists a :: a in n.attrs && HasWord(a, 0, name))
    || (exists c :: c in n.children && c.Child? && Names(c.node, name))
  }

  // The definition that counts for a names b, which is defined too.
  ghost predicate Uses(items: seq<Item>, a: Text, b: Text) {
    (exists k: nat :: Counts(items, k, a) && Names(items[k].node, b)) && exists k: nat :: Counts(items, k, b)
  }

  // A chain of uses from an exported name.
  ghost predicate UseChain(own: seq<Item>, items: seq<Item>, p: seq<Text>) {
    p != [] && ExportsName(own, p[0]) && forall k :: 0 <= k < |p| - 1 ==> Uses(items, p[k], p[k + 1])
  }

  // f hands a definition on to the file that imports it: all of them when f is a library or exports nothing by name,
  // and otherwise those that are exported or used, over some chain, by what is.
  ghost predicate HandsOn(f: File, d: Item) {
    d.Def? && (LibDecl in f.all || !ExportsSome(f.own) ||
      exists p :: UseChain(f.own, f.all, p) && p[|p| - 1] == d.node.value)
  }

  // A variable when f is a library or the variable is exported.
  predicate HandsOnVar(f: File, v: Item) {
    v.Var? && (LibDecl in f.all || v.node.marks.exported)
  }

  // d is defined in f, or in a file below it from which every file on the way hands it on.
  ghost predicate ComesFrom(f: File, d: Item)
    decreases f
  {
    d in f.own || exists k :: 0 <= k < |f.imports| && HandsOn(f.imports[k], d) && ComesFrom(f.imports[k], d)
  }

  // A variable that was handed on carries the mark of an exported one from then on.
  ghost predicate VarComesFrom(f: File, v: Item)
    decreases f
  {
    || v in f.own
    || exists k, u :: 0 <= k < |f.imports| && HandsOnVar(f.imports[k], u) && VarComesFrom(f.imports[k], u) &&
         v == Var(u.node.(marks := u.node.marks.(exported := true)))
  }

  // ---- Where it stands ----

  predicate IsImport(item: Item) {
    item.Use? || item.Inlined? || item.OtherUse?
  }

  // A line that stands at the head of a file.
  predicate OpensFile(item: Item) {
    IsImport(item) || item.LibDecl? || item.Header?
  }

  // The definitions and import lines that f hands on, in f's order.
  ghost function Handed(f: File, items: seq<Item>): seq<Item> {
    if items == [] then []
    else
      var last := items[|items| - 1];
      Handed(f, items[..|items| - 1]) + if IsImport(last) || HandsOn(f, last) then [last] else []
  }

  function HandedVars(f: File, items: seq<Item>): seq<Item> {
    if items == [] then []
    else
      var last := items[|items| - 1];
      HandedVars(f, items[..|items| - 1]) +
      if HandsOnVar(f, last) then [Var(last.node.(marks := last.node.marks.(exported := true)))] else []
  }

  ghost function AllHanded(files: seq<File>): seq<Item> {
    if files == [] then []
    else Handed(files[0], files[0].all) + AllHanded(files[1..])
  }

  function AllVars(files: seq<File>): seq<Item> {
    if files == [] then [] else HandedVars(files[0], files[0].all) + AllVars(files[1..])
  }

  // The items with their import lines marked as done; a line stays as it is only when its file cannot be read.
  predicate Marks(w: World, dir: Text, own: seq<Item>, placed: seq<Item>) {
    |placed| == |own| &&
    forall i :: 0 <= i < |own| ==>
      if own[i].Use? && Readable(w, w.full(dir, own[i].lib)) then placed[i] == Inlined(own[i].lib)
      else placed[i] == own[i] || (own[i].Use? && placed[i] == Inlined(own[i].lib))
  }

  // f's own items in their order, what its imports hand on behind them, and the variables in between: behind the header
  // lines and in front of everything else.
  ghost predicate Arranged(w: World, f: File, placed: seq<Item>, before: seq<Item>, after: seq<Item>) {
    && Marks(w, f.dir, f.own, placed) && before + after == placed + AllHanded(f.imports)
    && f.all == before + AllVars(f.imports) + after
    && (forall x :: x in before ==> OpensFile(x)) && (after != [] ==> !OpensFile(after[0]))
  }

  predicate NameAt(w: World, dir: Text, item: Item, name: Text) {
    item.Use? && w.full(dir, item.lib) == name
  }

  // Each file followed stands at one of the import lines, and the lines are in order.
  predicate AtLines(w: World, dir: Text, own: seq<Item>, files: seq<File>, lines: seq<nat>) {
    && |lines| == |files|
    && (forall k :: 0 <= k < |lines| ==> lines[k] < |own| && NameAt(w, dir, own[lines[k]], files[k].name))
    && forall j, k :: 0 <= j < k < |lines| ==> lines[j] < lines[k]
  }

  predicate IsFile(w: World, f: File) {
    Readable(w, f.name) && f.own == FileAt(w, f.name) && f.dir == w.dirOf(f.name)
  }

  // The whole tree: every file in it is the one its name spells, and is arranged.
  ghost predicate Genuine(w: World, f: File)
    decreases f
  {
    && (exists placed, before, after :: Arranged(w, f, placed, before, after))
    && (exists lines :: AtLines(w, f.dir, f.own, f.imports, lines))
    && forall k :: 0 <= k < |f.imports| ==> IsFile(w, f.imports[k]) && Genuine(w, f.imports[k])
  }

  // The names of all files in these trees, each in front of those below it.
  function NamesOf(files: seq<File>): seq<Text>
    decreases files
  {
    if files == [] then [] else [files[0].name] + NamesOf(files[0].imports) + NamesOf(files[1..])
  }

  // ---- What the compiler hands on is this ----

  lemma {:induction false} ExportedExact(own: seq<Item>, name: Text)
    ensures name in ExportedNames(own) <==> ExportsName(own, name)
  {
    if own != [] {
      var front, last := own[..|own| - 1], own[|own| - 1];
      ExportedExact(front, name);
      assert forall i :: 0 <= i < |front| ==> own[i] == front[i];
      assert name in ExportedBy(last) <==>
        (last.Export? && name in last.names) || (last.Def? && last.node.marks.exported && last.node.value == name);
    }
  }

  lemma {:induction false} DefsExact(items: seq<Item>, name: Text)
    ensures name in DefsOf(items) <==> exists k: nat :: Counts(items, k, name)
    ensures forall k: nat :: Counts(items, k, name) ==> name in DefsOf(items) && DefsOf(items)[name] == items[k].node
  {
    if items != [] {
      var n := |items| - 1;
      var front, last := items[..n], items[n];
      DefsExact(front, name);
      if Defines(last, name) {
        assert Counts(items, n, name);
      } else {
        forall k: nat ensures Counts(items, k, name) <==> Counts(front, k, name) {
          assert forall j :: 0 <= j < n ==> items[j] == front[j];
        }
      }
    }
  }

  lemma {:induction false} AllWordsExact(attrs: seq<Text>, name: Text)
    ensures name in AllWords(attrs) <==> exists a :: a in attrs && HasWord(a, 0, name)
  {
    if attrs != [] {
      WordsExact(attrs[0], name);
      AllWordsExact(attrs[1..], name);
      assert forall a :: a in attrs <==> a == attrs[0] || a in attrs[1..];
    }
  }

  ghost predicate NamedIn(cs: seq<Child>, name: Text) {
    exists c :: c in cs && c.Child? && Names(c.node, name)
  }

  /** The mentions of a tree are the names that stand in it. */
  lemma {:induction false} MentionsExact(n: Node, name: Text)
    ensures name in Mentions(n) <==> Names(n, name)
    decreases n, 1
  {
    AllWordsExact(n.attrs, name);
    MentionsInExact(n, n.children, name);
  }

  lemma {:induction false} MentionsInExact(n: Node, cs: seq<Child>, name: Text)
    requires forall c :: c in cs ==> c in n.children
    ensures name in MentionsIn(n, cs) <==> NamedIn(cs, name)
    decreases n, 0, |cs|
  {
    if cs != [] {
      assert cs[0] in n.children;
      if cs[0].Child? {
        MentionsExact(cs[0].node, name);
      }
      MentionsInExact(n, cs[1..], name);
      assert forall c :: c in cs <==> c == cs[0] || c in cs[1..];
    }
  }

  lemma UsesExact(items: seq<Item>, a: Text, b: Text)
    ensures Uses(items, a, b) <==> Link(DefsOf(items), a, b)
  {
    DefsExact(items, a);
    DefsExact(items, b);
    if k: nat :| Counts(items, k, a) {
      MentionsExact(items[k].node, b);
    }
  }

  lemma ChainsExact(own: seq<Item>, items: seq<Item>, p: seq<Text>)
    ensures UseChain(own, items, p) <==> Chain(DefsOf(items), ExportedNames(own), p)
  {
    if p != [] {
      ExportedExact(own, p[0]);
      forall k | 0 <= k < |p| - 1 ensures Uses(items, p[k], p[k + 1]) <==> Link(DefsOf(items), p[k], p[k + 1]) {
        UsesExact(items, p[k], p[k + 1]);
      }
    }
  }

  // The end of a chain of uses is a name that is needed.
  lemma NeededExact(own: seq<Item>, items: seq<Item>, name: Text)
    ensures name in Needed(DefsOf(items), ExportedNames(own)) <==>
      exists p :: UseChain(own, items, p) && p[|p| - 1] == name
  {
    var defs, exported := DefsOf(items), ExportedNames(own);
    if name in Needed(defs, exported) {
      if name in exported {
        ExportedReached(defs, exported, name);
      }
      var p :| Chain(defs, exported, p) && p[|p| - 1] == name;
      ChainsExact(own, items, p);
    }
    if p :| UseChain(own, items, p) && p[|p| - 1] == name {
      ChainsExact(own, items, p);
      assert Reached(defs, exported, name);
      if |p| > 1 {
        assert Link(defs, p[|p| - 2], p[|p| - 2 + 1]);
      }
    }
  }

  lemma PassedIsHanded(f: File, item: Item)
    ensures Passed(f.own, f.all, item) <==> IsImport(item) || HandsOn(f, item)
  {
    if item.Def? {
      NeededExact(f.own, f.all, item.node.value);
    }
  }

  // ---- Following the imports builds such a tree ----

  lemma {:induction false} SelectedIsHanded(f: File, items: seq<Item>)
    ensures Selected(f.own, f.all, items) == Handed(f, items) && SelectedVars(f.all, items) == HandedVars(f, items)
  {
    if items != [] {
      SelectedIsHanded(f, items[..|items| - 1]);
      PassedIsHanded(f, items[|items| - 1]);
    }
  }

  // The trees of the files that some items made the compiler follow.
  ghost predicate Follows(w: World, dir: Text, items: seq<Item>, r: Walked, files: seq<File>, lines: seq<nat>) {
    && Marks(w, dir, items, r.items) && r.append == AllHanded(files) && r.vars == AllVars(files)
    && r.followed == NamesOf(files) && AtLines(w, dir, items, files, lines)
    && forall k :: 0 <= k < |files| ==> IsFile(w, files[k]) && Genuine(w, files[k])
  }

  lemma {:induction false} HandedJoin(a: seq<File>, b: seq<File>)
    ensures AllHanded(a + b) == AllHanded(a) + AllHanded(b)
    decreases |a|
  {
    if a == [] {
      assert a + b == b;
    } else {
      assert (a + b)[1..] == a[1..] + b;
      HandedJoin(a[1..], b);
      Assoc(Handed(a[0], a[0].all), AllHanded(a[1..]), AllHanded(b));
    }
  }

  lemma {:induction false} VarsJoin(a: seq<File>, b: seq<File>)
    ensures AllVars(a + b) == AllVars(a) + AllVars(b)
    decreases |a|
  {
    if a == [] {
      assert a + b == b;
    } else {
      assert (a + b)[1..] == a[1..] + b;
      VarsJoin(a[1..], b);
      Assoc(HandedVars(a[0], a[0].all), AllVars(a[1..]), AllVars(b));
    }
  }

  lemma {:induction false} NamesJoin(a: seq<File>, b: seq<File>)
    ensures NamesOf(a + b) == NamesOf(a) + NamesOf(b)
    decreases |a|
  {
    if a == [] {
      assert a + b == b;
    } else {
      assert (a + b)[1..] == a[1..] + b;
      NamesJoin(a[1..], b);
      Assoc([a[0].name] + NamesOf(a[0].imports), NamesOf(a[1..]), NamesOf(b));
    }
  }

  lemma OneFile(f: File)
    ensures AllHanded([f]) == Handed(f, f.all) && AllVars([f]) == HandedVars(f, f.all)
    ensures NamesOf([f]) == [f.name] + NamesOf(f.imports)
  {
    assert [f][1..] == [];
  }

  // The lines of the rest, counted from the first one.
  function Shifted(lines: seq<nat>): seq<nat> {
    seq(|lines|, k requires 0 <= k < |lines| => lines[k] + 1)
  }

  lemma JoinLines(w: World, dir: Text, item: Item, rest: seq<Item>, fa: seq<File>, la: seq<nat>, fb: seq<File>,
                  lb: seq<nat>)
    requires AtLines(w, dir, [item], fa, la) && AtLines(w, dir, rest, fb, lb)
    ensures AtLines(w, dir, [item] + rest, fa + fb, la + Shifted(lb))
  {
    var items, lines := [item] + rest, la + Shifted(lb);
    forall k | 0 <= k < |lines| ensures lines[k] < |items| && NameAt(w, dir, items[lines[k]], (fa + fb)[k].name) {
      if k >= |la| {
        assert lines[k] == lb[k - |la|] + 1 && items[lines[k]] == rest[lb[k - |la|]] && (fa + fb)[k] == fb[k - |la|];
      }
    }
  }

  lemma JoinFollows(w: World, dir: Text, item: Item, rest: seq<Item>, a: Walked, fa: seq<File>, la: seq<nat>, b: Walked,
                    fb: seq<File>, lb: seq<nat>)
    requires Follows(w, dir, [item], a, fa, la) && Follows(w, dir, rest, b, fb, lb)
    ensures Follows(w, dir, [item] + rest, Both(a, b), fa + fb, la + Shifted(lb))
  {
    HandedJoin(fa, fb);
    VarsJoin(fa, fb);
    NamesJoin(fa, fb);
    JoinLines(w, dir, item, rest, fa, la, fb, lb);
    forall k | 0 <= k < |fa + fb| ensures IsFile(w, (fa + fb)[k]) && Genuine(w, (fa + fb)[k]) {
      if k >= |fa| {
        assert (fa + fb)[k] == fb[k - |fa|];
      }
    }
    JoinMarks(w, dir, item, rest, a.items, b.items);
  }

  lemma JoinMarks(w: World, dir: Text, item: Item, rest: seq<Item>, a: seq<Item>, b: seq<Item>)
    requires Marks(w, dir, [item], a) && Marks(w, dir, rest, b)
    ensures Marks(w, dir, [item] + rest, a + b)
  {
    var items := [item] + rest;
    forall i | 0 <= i < |items|
      ensures if items[i].Use? && Readable(w, w.full(dir, items[i].lib)) then (a + b)[i] == Inlined(items[i].lib)
              else (a + b)[i] == items[i] || (items[i].Use? && (a + b)[i] == Inlined(items[i].lib))
    {
      if i > 0 {
        assert items[i] == rest[i - 1] && (a + b)[i] == b[i - 1];
      } else {
        assert items[0] == [item][0];
      }
    }
  }

  lemma OneLine(w: World, dir: Text, lib: Text, f: File)
    requires f.name == w.full(dir, lib)
    ensures AtLines(w, dir, [Use(lib)], [f], [0]) && Marks(w, dir, [Use(lib)], [Inlined(lib)])
  {
  }

  // What following one line gives: f's own part of it.
  ghost predicate Opens(r: Walked, f: File) {
    r.append == AllHanded([f]) && r.vars == AllVars([f]) && r.followed == NamesOf([f])
  }

  lemma OpenedIs(r: Walked, f: File)
    requires r.append == Selected(f.own, f.all, f.all) && r.vars == SelectedVars(f.all, f.all)
    requires r.followed == [f.name] + NamesOf(f.imports)
    ensures Opens(r, f)
  {
    SelectedIsHanded(f, f.all);
    OneFile(f);
  }

  lemma OpenedFollows(w: World, dir: Text, lib: Text, r: Walked, f: File)
    requires f.name == w.full(dir, lib) && IsFile(w, f) && Genuine(w, f) && r.items == [Inlined(lib)] && Opens(r, f)
    ensures Follows(w, dir, [Use(lib)], r, [f], [0])
  {
    OneLine(w, dir, lib, f);
  }

  lemma {:induction false} OneFollows(w: World, dir: Text, item: Item, visited: set<Text>, chain: set<Text>)
    returns (files: seq<File>, lines: seq<nat>)
    ensures Follows(w, dir, [item], One(w, dir, item, visited, chain), files, lines)
    decreases w.files.Keys - visited, 0
  {
    files, lines := [], [];
    if item.Use? && w.canon(w.full(dir, item.lib)) !in visited && Readable(w, w.full(dir, item.lib)) {
      var f := w.full(dir, item.lib);
      var p := w.canon(f);
      assert p in w.files.Keys - visited && p !in w.files.Keys - (visited + {p});
      var file := TreeOf(w, f, w.dirOf(f), FileAt(w, f), visited + {p}, chain + {p});
      OpenedIs(One(w, dir, item, visited, chain), file);
      OpenedFollows(w, dir, item.lib, One(w, dir, item, visited, chain), file);
      files, lines := [file], [0];
    }
  }

  lemma WalkIs(w: World, dir: Text, first: Item, rest: seq<Item>, visited: set<Text>, chain: set<Text>)
    ensures var a := One(w, dir, first, visited, chain);
      Walk(w, dir, [first] + rest, visited, chain) == Both(a, Walk(w, dir, rest, a.visited, chain))
  {
    assert ([first] + rest)[1..] == rest;
  }

  lemma {:induction false} WalkFollows(w: World, dir: Text, items: seq<Item>, visited: set<Text>, chain: set<Text>,
                                       r: Walked) returns (files: seq<File>, lines: seq<nat>)
    requires r == Walk(w, dir, items, visited, chain)
    ensures Follows(w, dir, items, r, files, lines)
    decreases w.files.Keys - visited, |items| + 1
  {
    files, lines := [], [];
    if items != [] {
      var first, rest := items[0], items[1..];
      var a := One(w, dir, first, visited, chain);
      var b := Walk(w, dir, rest, a.visited, chain);
      assert items == [first] + rest;
      assert r == Both(a, b) by {
        WalkIs(w, dir, first, rest, visited, chain);
      }
      var fa, la := OneFollows(w, dir, first, visited, chain);
      var fb, lb := WalkFollows(w, dir, rest, a.visited, chain, b);
      JoinFollows(w, dir, first, rest, a, fa, la, b, fb, lb);
      files, lines := fa + fb, la + Shifted(lb);
    }
  }

  lemma PlaceSplits(x: seq<Item>, vars: seq<Item>) returns (before: seq<Item>, after: seq<Item>)
    ensures before + after == x && Place(x, vars) == before + vars + after
    ensures (forall i :: i in before ==> OpensFile(i)) && (after != [] ==> !OpensFile(after[0]))
  {
    var at := HeaderLength(x);
    before, after := x[..at], x[at..];
  }

  lemma PlacedArranged(w: World, f: File, r: Walked, lines: seq<nat>)
    requires Follows(w, f.dir, f.own, r, f.imports, lines) && f.all == Place(r.items + r.append, r.vars)
    ensures Genuine(w, f)
  {
    var before, after := PlaceSplits(r.items + r.append, r.vars);
    assert Arranged(w, f, r.items, before, after);
    assert AtLines(w, f.dir, f.own, f.imports, lines);
  }

  /** Injecting the imports of some items gives a genuine tree of the files that were followed. */
  lemma {:induction false} TreeOf(w: World, name: Text, dir: Text, items: seq<Item>, visited: set<Text>,
                                  chain: set<Text>)
    returns (f: File)
    ensures var r := Inject(w, dir, items, visited, chain);
      f.name == name && f.dir == dir && f.own == items && f.all == r.items && Genuine(w, f) &&
        NamesOf(f.imports) == r.followed
    decreases w.files.Keys - visited, |items| + 2
  {
    var r := Walk(w, dir, items, visited, chain);
    var files, lines := WalkFollows(w, dir, items, visited, chain, r);
    f := File(name, dir, items, Place(r.items + r.append, r.vars), files);
    PlacedArranged(w, f, r, lines);
  }

  // ---- Which definitions and variables come out ----

  lemma {:induction false} HandedExact(f: File, items: seq<Item>, d: Item)
    requires d.Def?
    ensures d in Handed(f, items) <==> d in items && HandsOn(f, d)
  {
    if items != [] {
      HandedExact(f, items[..|items| - 1], d);
      assert items == items[..|items| - 1] + [items[|items| - 1]];
    }
  }

  lemma {:induction false} AllHandedExact(files: seq<File>, d: Item)
    requires d.Def?
    ensures d in AllHanded(files) <==> exists k :: 0 <= k < |files| && HandsOn(files[k], d) && d in files[k].all
  {
    if files != [] {
      HandedExact(files[0], files[0].all, d);
      AllHandedExact(files[1..], d);
      if k :| 0 <= k < |files[1..]| && HandsOn(files[1..][k], d) && d in files[1..][k].all {
        assert files[k + 1] == files[1..][k];
      }
      if k :| 0 <= k < |files| && HandsOn(files[k], d) && d in files[k].all {
        if k > 0 {
          assert files[1..][k - 1] == files[k];
        }
      }
    }
  }

  lemma {:induction false} VarsAreVars(files: seq<File>, x: Item)
    requires x in AllVars(files)
    ensures x.Var?
  {
    if x in HandedVars(files[0], files[0].all) {
      HandedVarsAre(files[0], files[0].all, x);
    } else {
      VarsAreVars(files[1..], x);
    }
  }

  lemma {:induction false} HandedVarsAre(f: File, items: seq<Item>, x: Item)
    requires x in HandedVars(f, items)
    ensures x.Var?
  {
    if x in HandedVars(f, items[..|items| - 1]) {
      HandedVarsAre(f, items[..|items| - 1], x);
    }
  }

  lemma MarksKeepDefs(w: World, dir: Text, own: seq<Item>, placed: seq<Item>, d: Item)
    requires Marks(w, dir, own, placed) && (d.Def? || d.Var?)
    ensures d in placed <==> d in own
  {
    if d in placed {
      var i :| 0 <= i < |placed| && placed[i] == d;
      assert own[i] == d;
    }
    if d in own {
      var i :| 0 <= i < |own| && own[i] == d;
      assert placed[i] == d;
    }
  }

  /** A definition is in the program after importing exactly when it is the program's own, or a definition of a file
      that was followed and every file on the way hands it on. */
  lemma {:induction false} DefinitionsExact(w: World, f: File, d: Item)
    requires Genuine(w, f) && d.Def?
    ensures d in f.all <==> ComesFrom(f, d)
    decreases f
  {
    var placed, before, after :| Arranged(w, f, placed, before, after);
    MarksKeepDefs(w, f.dir, f.own, placed, d);
    AllHandedExact(f.imports, d);
    assert d in placed + AllHanded(f.imports) <==> d in before + after;
    if d in AllVars(f.imports) {
      VarsAreVars(f.imports, d);
    }
    forall k | 0 <= k < |f.imports| ensures d in f.imports[k].all <==> ComesFrom(f.imports[k], d) {
      DefinitionsExact(w, f.imports[k], d);
    }
  }

  predicate HandsOnAs(f: File, u: Item, v: Item) {
    HandsOnVar(f, u) && v == Var(u.node.(marks := u.node.marks.(exported := true)))
  }

  lemma {:induction false} HandedVarsExact(f: File, items: seq<Item>, v: Item)
    ensures v in HandedVars(f, items) <==> exists u :: u in items && HandsOnAs(f, u, v)
  {
    if items != [] {
      var front, last := items[..|items| - 1], items[|items| - 1];
      HandedVarsExact(f, front, v);
      assert items == front + [last];
      if HandsOnAs(f, last, v) {
        assert last in items;
      }
    }
  }

  lemma {:induction false} AllVarsExact(files: seq<File>, v: Item)
    ensures v in AllVars(files) <==>
      exists k, u :: 0 <= k < |files| && u in files[k].all && HandsOnAs(files[k], u, v)
  {
    if files != [] {
      HandedVarsExact(files[0], files[0].all, v);
      AllVarsExact(files[1..], v);
      if v in AllVars(files[1..]) {
        var k, u :| 0 <= k < |files[1..]| && u in files[1..][k].all && HandsOnAs(files[1..][k], u, v);
        assert files[k + 1] == files[1..][k];
      }
      if k, u :| 0 <= k < |files| && u in files[k].all && HandsOnAs(files[k], u, v) {
        if k > 0 {
          assert files[1..][k - 1] == files[k];
        }
      }
    }
  }

  lemma {:induction false} HandedNoVars(f: File, items: seq<Item>, x: Item)
    requires x in Handed(f, items)
    ensures !x.Var?
  {
    if x in Handed(f, items[..|items| - 1]) {
      HandedNoVars(f, items[..|items| - 1], x);
    }
  }

  lemma {:induction false} AllHandedNoVars(files: seq<File>, x: Item)
    requires x in AllHanded(files)
    ensures !x.Var?
  {
    if x in Handed(files[0], files[0].all) {
      HandedNoVars(files[0], files[0].all, x);
    } else {
      AllHandedNoVars(files[1..], x);
    }
  }

  lemma ArrangedVars(w: World, f: File, v: Item)
    requires Genuine(w, f) && v.Var?
    ensures v in f.all <==> v in f.own || v in AllVars(f.imports)
  {
    var placed, before, after :| Arranged(w, f, placed, before, after);
    MarksKeepDefs(w, f.dir, f.own, placed, v);
    assert v in placed + AllHanded(f.imports) <==> v in before + after;
    if v in AllHanded(f.imports) {
      AllHandedNoVars(f.imports, v);
    }
  }

  /** And a variable exactly when it is the program's own, or one of a file followed that every file on the way hands
      on; it is marked as exported then. */
  lemma {:induction false} VariablesExact(w: World, f: File, v: Item)
    requires Genuine(w, f) && v.Var?
    ensures v in f.all <==> VarComesFrom(f, v)
    decreases f
  {
    ArrangedVars(w, f, v);
    AllVarsExact(f.imports, v);
    forall k, u: Item | 0 <= k < |f.imports| && u.Var?
      ensures u in f.imports[k].all <==> VarComesFrom(f.imports[k], u)
    {
      VariablesExact(w, f.imports[k], u);
    }
    if v in AllVars(f.imports) {
      var k, u :| 0 <= k < |f.imports| && u in f.imports[k].all && HandsOnAs(f.imports[k], u, v);
      assert VarComesFrom(f.imports[k], u);
    }
  }

  // ---- What a program holds after its imports ----

  // f is the tree that importing built, and its files are those that were seen for the first time and can be read.
  ghost predicate Built(w: World, dir: Text, items: seq<Item>, out: seq<Item>, before: set<Text>, after: set<Text>,
                        f: File)
  {
    && f.dir == dir && f.own == items && f.all == out && Genuine(w, f)
    && (forall p :: p in after - before && p in w.files && w.files[p].Some? <==> FollowedIn(w, f, p))
    && (forall j, k :: 0 <= j < k < |NamesOf(f.imports)| ==>
      w.canon(NamesOf(f.imports)[j]) != w.canon(NamesOf(f.imports)[k]))
    && (forall d: Item :: d.Def? ==> (d in out <==> ComesFrom(f, d)))
    && (forall v: Item :: v.Var? ==> (v in out <==> VarComesFrom(f, v)))
  }

  predicate FollowedIn(w: World, f: File, p: Text) {
    Followed(w, NamesOf(f.imports), p)
  }

  /** Importing builds a tree of files, each one followed once, and leaves what the tree says. */
  lemma InjectBuilds(w: World, dir: Text, items: seq<Item>, visited: set<Text>, chain: set<Text>) returns (f: File)
    ensures var r := Inject(w, dir, items, visited, chain); Built(w, dir, items, r.items, visited, r.visited, f)
  {
    f := TreeOf(w, [], dir, items, visited, chain);
    var r := Walk(w, dir, items, visited, chain);
    WalkExact(w, dir, items, visited, chain);
    forall p ensures p in r.visited - visited && p in w.files && w.files[p].Some? <==> FollowedIn(w, f, p) {
      FollowedExactly(w, visited, r, p);
    }
    forall d: Item | d.Def? ensures d in f.all <==> ComesFrom(f, d) {
      DefinitionsExact(w, f, d);
    }
    forall v: Item | v.Var? ensures v in f.all <==> VarComesFrom(f, v) {
      VariablesExact(w, f, v);
    }
  }

  lemma FollowedExactly(w: World, visited: set<Text>, r: Walked, p: Text)
    requires Once(w, visited, r) && FollowedAll(w, visited, r)
    ensures p in r.visited - visited && p in w.files && w.files[p].Some? <==> Followed(w, r.followed, p)
  {
    if Followed(w, r.followed, p) {
      var k :| 0 <= k < |r.followed| && w.canon(r.followed[k]) == p;
      assert Readable(w, r.followed[k]);
    }
  }
}
