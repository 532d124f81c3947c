/** Importing as the compiler does it: one pass over the lines of a file, with the files seen and the stack of files
    being followed shared by all. */
module ImportsRun {
  import opened AccCache
  import opened CText
  import opened ExportClosure
  import opened Imports
  import opened ImportTree
  import opened Options

  lemma BothAssoc(a: Walked, b: Walked, c: Walked)
    ensures Both(Both(a, b), c) == Both(a, Both(b, c))
  {
    assert (a.items + b.items) + c.items == a.items + (b.items + c.items);
    assert (a.append + b.append) + c.append == a.append + (b.append + c.append);
    assert (a.vars + b.vars) + c.vars == a.vars + (b.vars + c.vars);
    assert (a.followed + b.followed) + c.followed == a.followed + (b.followed + c.followed);
    assert (a.cycles + b.cycles) + c.cycles == a.cycles + (b.cycles + c.cycles);
  }

  function Nothing(visited: set<Text>): Walked {
    Walked([], [], [], visited, [], [])
  }

  lemma BothNothing(a: Walked)
    ensures Both(Nothing(a.visited), a) == a && Both(a, Nothing(a.visited)) == a
  {
  }

  // Part way through the items: what was done for those before i, then what the others give.
  ghost predicate Walking(w: World, dir: Text, items: seq<Item>, i: nat, done: Walked, chain: set<Text>, all: Walked) {
    i <= |items| && Both(done, Walk(w, dir, items[i..], done.visited, chain)) == all
  }

  lemma WalkedOne(w: World, dir: Text, items: seq<Item>, i: nat, done: Walked, chain: set<Text>, all: Walked)
    requires i < |items| && Walking(w, dir, items, i, done, chain, all)
    ensures Walking(w, dir, items, i + 1, Both(done, One(w, dir, items[i], done.visited, chain)), chain, all)
  {
    var one := One(w, dir, items[i], done.visited, chain);
    assert items[i..][1..] == items[i + 1..];
    BothAssoc(done, one, Walk(w, dir, items[i + 1..], one.visited, chain));
  }

  lemma WalkedAll(w: World, dir: Text, items: seq<Item>, done: Walked, chain: set<Text>, all: Walked)
    requires Walking(w, dir, items, |items|, done, chain, all)
    ensures done == all
  {
    assert items[|items|..] == [];
    BothNothing(done);
  }

  method ScanExports(items: seq<Item>) returns (has: bool, names: set<Text>)
    ensures has == HasExports(items) && names == ExportedNames(items)
  {
    has, names := false, {};
    for i := 0 to |items|
      invariant has == HasExports(items[..i]) && names == ExportedNames(items[..i])
    {
      assert items[..i + 1][..i] == items[..i] && items[..i + 1][i] == items[i];
      if items[i].Export? || (items[i].Def? && items[i].node.marks.exported) {
        has := true;
      }
      names := names + ExportedBy(items[i]);
    }
    assert items[..|items|] == items;
  }

  method CollectDefs(items: seq<Item>) returns (defs: Defs)
    ensures defs == DefsOf(items)
  {
    defs := map[];
    for i := 0 to |items|
      invariant defs == DefsOf(items[..i])
    {
      assert items[..i + 1][..i] == items[..i];
      if items[i].Def? {
        defs := defs[items[i].node.value := items[i].node];
      }
    }
    assert items[..|items|] == items;
  }

  method InSomeOrder(names: set<Text>) returns (order: seq<Text>)
    ensures forall name :: name in order <==> name in names
  {
    order := [];
    var left := names;
    while left != {}
      invariant left <= names && forall name :: name in order <==> name in names - left
      decreases |left|
    {
      var name :| name in left;
      order := order + [name];
      left := left - {name};
    }
  }

  // Which items of a file go to the importing one.
  method Select(own: seq<Item>, has: bool, names: set<Text>, all: seq<Item>)
    returns (append: seq<Item>, vars: seq<Item>)
    requires has == HasExports(own) && names == ExportedNames(own)
    ensures append == Selected(own, all, all) && vars == SelectedVars(all, all)
  {
    var libFile := LibDecl in all;
    var defs := CollectDefs(all);
    var order := InSomeOrder(names);
    var closure := new Closure(defs);
    closure.Close(names, order);
    var needed := closure.needed;
    append, vars := [], [];
    for i := 0 to |all|
      invariant append == Selected(own, all, all[..i]) && vars == SelectedVars(all, all[..i])
    {
      assert all[..i + 1][..i] == all[..i];
      var item := all[i];
      if item.Use? || item.Inlined? || item.OtherUse? || (item.Def? && (libFile || !has || item.node.value in needed)) {
        append := append + [item];
      } else if item.Var? && (libFile || item.node.marks.exported) {
        vars := vars + [Marked(item)];
      }
    }
    assert all[..|all|] == all;
  }

  class Importer {
    const world: World
    var visited: set<Text>
    var importStack: set<Text>
    var cyclic: seq<Text>

    constructor (world: World)
      ensures this.world == world && visited == {} && importStack == {} && cyclic == []
    {
      this.world, visited, importStack, cyclic := world, {}, {}, [];
    }

    // The import at one line; a file goes on the stack while its own imports are followed.
    method ImportOne(dir: Text, item: Item) returns (item': Item, append: seq<Item>, vars: seq<Item>)
      requires importStack <= visited
      modifies this
      ensures var r := One(world, dir, item, old(visited), old(importStack));
        [item'] == r.items && append == r.append && vars == r.vars && visited == r.visited &&
          cyclic == old(cyclic) + r.cycles
      ensures importStack == old(importStack)
      decreases world.files.Keys - visited, 0
    {
      item', append, vars := item, [], [];
      if !item.Use? {
        return;
      }
      var f := world.full(dir, item.lib);
      var p := world.canon(f);
      if p in visited {
        if p in importStack {
          cyclic := cyclic + [p];
        }
        item' := Inlined(item.lib);
        return;
      }
      visited := visited + {p};
      if p !in world.files || world.files[p].None? {
        return;
      }
      assert p in world.files.Keys - old(visited) && p !in world.files.Keys - visited;
      var own := world.files[p].value;
      var has, names := ScanExports(own);
      importStack := importStack + {p};
      var all := InjectModules(world.dirOf(f), own);
      importStack := importStack - {p};
      append, vars := Select(own, has, names, all);
      item' := Inlined(item.lib);
    }

    // What is left is what the tree of the files followed says: the definitions and variables that come from it, the
    // program's own items in their order, what was handed on behind them, and the variables behind the header lines.
    method InjectModules(dir: Text, items: seq<Item>) returns (out: seq<Item>)
      requires importStack <= visited
      modifies this
      ensures var r := Inject(world, dir, items, old(visited), old(importStack));
        out == r.items && visited == r.visited && cyclic == old(cyclic) + r.cycles
      ensures exists f :: Built(world, dir, items, out, old(visited), visited, f)
      ensures importStack == old(importStack)
      decreases world.files.Keys - visited, |items| + 1
    {
      ghost var chain, all := importStack, Walk(world, dir, items, visited, importStack);
      ghost var done := Nothing(visited);
      assert items[0..] == items;
      BothNothing(all);
      out := [];
      var toAppend, toVars := [], [];
      for i := 0 to |items|
        invariant Walking(world, dir, items, i, done, chain, all)
        invariant old(visited) <= visited == done.visited && importStack == chain
        invariant out == done.items && toAppend == done.append && toVars == done.vars &&
          cyclic == old(cyclic) + done.cycles
      {
        WalkedOne(world, dir, items, i, done, chain, all);
        done := Both(done, One(world, dir, items[i], visited, chain));
        var item, append, vars := ImportOne(dir, items[i]);
        out, toAppend, toVars := out + [item], toAppend + append, toVars + vars;
      }
      WalkedAll(world, dir, items, done, chain, all);
      out := Place(out + toAppend, toVars);
      ghost var f := InjectBuilds(world, dir, items, old(visited), old(importStack));
    }
  }
}
