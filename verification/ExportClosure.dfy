/** What an exported definition needs: the worklist over mentions against reachability. */
module ExportClosure {

  import opened AccCache
  import opened CText

  // ---- Words in text ----

  predicate IsWordChar(c: Byte) {
    48 <= c <= 57 || 65 <= c <= 90 || 97 <= c <= 122 || c == 95
  }

  predicate IsLetter(c: char) {
    'a' <= c <= 'z' || 'A' <= c <= 'Z'
  }

  // A letter, a decimal digit or an underscore.
  predicate InWord(c: Byte) {
    IsLetter(c as char) || '0' <= c as char <= '9' || c as char == '_'
  }

  // The characters of a from i to j are a word with nothing of a word on either side.
  predicate WordAt(a: Text, i: nat, j: nat) {
    && i < j <= |a| && (forall k :: i <= k < j ==> InWord(a[k]))
    && (i == 0 || !InWord(a[i - 1])) && (j == |a| || !InWord(a[j]))
  }

  ghost predicate HasWord(a: Text, from: nat, w: Text) {
    exists i: nat, j: nat :: from <= i && WordAt(a, i, j) && a[i..j] == w
  }

  function Flush(word: Text): seq<Text> {
    if word == [] then [] else [word]
  }

  // The words of a, the first of them already begun.
  function Words(a: Text, word: Text): seq<Text> {
    if a == [] then Flush(word)
    else if IsWordChar(a[0]) then Words(a[1..], word + [a[0]])
    else Flush(word) + Words(a[1..], [])
  }

  // Part way through a: the word from i to k is begun, or k stands at a boundary.
  predicate Begun(a: Text, i: nat, k: nat) {
    i <= k <= |a| && (forall x :: i <= x < k ==> InWord(a[x])) && (i == 0 || !InWord(a[i - 1]))
  }

  lemma WordsStep(a: Text, i: nat, k: nat)
    requires i <= k < |a|
    ensures Words(a[k..], a[i..k]) ==
      if InWord(a[k]) then Words(a[k + 1..], a[i..k + 1]) else Flush(a[i..k]) + Words(a[k + 1..], [])
  {
    assert a[k..][0] == a[k] && a[k..][1..] == a[k + 1..] && a[i..k] + [a[k]] == a[i..k + 1];
  }

  lemma BegunStep(a: Text, i: nat, k: nat)
    requires Begun(a, i, k) && k < |a|
    ensures if InWord(a[k]) then Begun(a, i, k + 1) else Begun(a, k + 1, k + 1)
  {
  }

  lemma {:induction false} WordsFrom(a: Text, i: nat, k: nat, w: Text, found: seq<Text>)
    requires Begun(a, i, k) && found == Words(a[k..], a[i..k])
    ensures w in found <==> HasWord(a, i, w)
    decreases |a| - k
  {
    if k == |a| {
      OnlyWord(a, i, k, w);
    } else {
      WordsStep(a, i, k);
      BegunStep(a, i, k);
      if InWord(a[k]) {
        WordsFrom(a, i, k + 1, w, found);
      } else {
        assert a[k + 1..k + 1] == [];
        WordsFrom(a, k + 1, k + 1, w, Words(a[k + 1..], []));
        WordEnds(a, i, k, w);
      }
    }
  }

  // A word begun at i and still open at the end is the only one from i on.
  lemma OnlyWord(a: Text, i: nat, k: nat, w: Text)
    requires Begun(a, i, k) && k == |a|
    ensures w in Flush(a[i..k]) <==> HasWord(a, i, w)
  {
    if i < k && w == a[i..k] {
      assert WordAt(a, i, k);
    }
    if HasWord(a, i, w) {
      var x: nat, y: nat :| i <= x && WordAt(a, x, y) && a[x..y] == w;
      assert x == i && y == k;
    }
  }

  // A word that ends at k, then the words behind k.
  lemma WordEnds(a: Text, i: nat, k: nat, w: Text)
    requires Begun(a, i, k) && k < |a| && !InWord(a[k])
    ensures HasWord(a, i, w) <==> w in Flush(a[i..k]) || HasWord(a, k + 1, w)
  {
    if i < k && w == a[i..k] {
      assert WordAt(a, i, k);
    }
    if HasWord(a, i, w) {
      var x: nat, y: nat :| i <= x && WordAt(a, x, y) && a[x..y] == w;
      if x <= k {
        assert x == i && y == k;
      }
    }
    if HasWord(a, k + 1, w) {
      var x: nat, y: nat :| k + 1 <= x && WordAt(a, x, y) && a[x..y] == w;
    }
  }

  /** The words found in a text are its maximal runs of word characters. */
  lemma WordsExact(a: Text, w: Text)
    ensures w in Words(a, []) <==> HasWord(a, 0, w)
  {
    assert a[0..] == a && a[0..0] == [];
    WordsFrom(a, 0, 0, w, Words(a, []));
  }

  // ---- Mentions ----

  function AllWords(attrs: seq<Text>): seq<Text> {
    if attrs == [] then [] else Words(attrs[0], []) + AllWords(attrs[1..])
  }

  // Every value in a tree, and every word in its attributes.
  function Mentions(n: Node): seq<Text>
    decreases n, 1
  {
    [n.value] + AllWords(n.attrs) + MentionsIn(n, n.children)
  }

  function MentionsIn(n: Node, cs: seq<Child>): seq<Text>
    requires forall c :: c in cs ==> c in n.children
    decreases n, 0, |cs|
  {
    if cs == [] then []
    else
      assert cs[0] in n.children;
      (if cs[0].Null? then [] else Mentions(cs[0].node)) + MentionsIn(n, cs[1..])
  }

  // ---- Reachability ----

  type Defs = map<Text, Node>

  predicate Link(defs: Defs, a: Text, b: Text) {
    a in defs && b in defs && b in Mentions(defs[a])
  }

  // A chain of mentions from an exported name.
  predicate Chain(defs: Defs, exported: set<Text>, p: seq<Text>) {
    p != [] && p[0] in exported && forall k :: 0 <= k < |p| - 1 ==> Link(defs, p[k], p[k + 1])
  }

  ghost predicate Reached(defs: Defs, exported: set<Text>, name: Text) {
    exists p :: Chain(defs, exported, p) && p[|p| - 1] == name
  }

  ghost function Needed(defs: Defs, exported: set<Text>): (s: set<Text>)
    ensures forall name :: name in s <==> name in exported || (name in defs && Reached(defs, exported, name))
  {
    exported + set name | name in defs && Reached(defs, exported, name)
  }

  lemma ReachedOn(defs: Defs, exported: set<Text>, a: Text, b: Text)
    requires Reached(defs, exported, a) && Link(defs, a, b)
    ensures Reached(defs, exported, b)
  {
    var p :| Chain(defs, exported, p) && p[|p| - 1] == a;
    var q := p + [b];
    assert Chain(defs, exported, q) && q[|q| - 1] == b;
  }

  lemma ExportedReached(defs: Defs, exported: set<Text>, name: Text)
    requires name in exported
    ensures Reached(defs, exported, name)
  {
    assert Chain(defs, exported, [name]) && [name][|[name]| - 1] == name;
  }

  ghost predicate Closed(defs: Defs, s: set<Text>) {
    forall a, b :: a in s && Link(defs, a, b) ==> b in s
  }

  // A closed set over the exported names holds the end of every chain.
  lemma {:induction false} ChainInside(defs: Defs, exported: set<Text>, s: set<Text>, p: seq<Text>)
    requires exported <= s && Closed(defs, s) && Chain(defs, exported, p)
    ensures p[|p| - 1] in s
    decreases |p|
  {
    if |p| > 1 {
      var q := p[..|p| - 1];
      assert Chain(defs, exported, q);
      ChainInside(defs, exported, s, q);
      assert Link(defs, q[|q| - 1], p[|q|]);
    }
  }

  /** The names needed are the least set over the exported ones that mentions do not leave. */
  lemma NeededLeast(defs: Defs, exported: set<Text>, s: set<Text>)
    requires exported <= s && Closed(defs, s)
    ensures Needed(defs, exported) <= s && Closed(defs, Needed(defs, exported))
  {
    forall name | name in Needed(defs, exported) ensures name in s {
      if name !in exported {
        var p :| Chain(defs, exported, p) && p[|p| - 1] == name;
        ChainInside(defs, exported, s, p);
      }
    }
    forall a, b | a in Needed(defs, exported) && Link(defs, a, b) ensures b in Needed(defs, exported) {
      if a in exported {
        ExportedReached(defs, exported, a);
      }
      ReachedOn(defs, exported, a, b);
    }
  }

  // ---- The worklist ----

  datatype State = State(needed: set<Text>, work: seq<Text>)

  // The state with these names' definitions added, those that are new waiting behind the others.
  ghost predicate Added(defs: Defs, s: State, names: seq<Text>, s': State) {
    && (forall name :: name in s'.needed <==> name in s.needed || (name in names && name in defs))
    && s.work <= s'.work && (forall name :: name in s'.work ==> name in s.work || name in s'.needed)
    && (forall name :: name in s'.needed ==> name in s.needed || name in s'.work)
    && (s'.needed == s.needed ==> s'.work == s.work)
  }

  lemma AddedBoth(defs: Defs, s: State, a: seq<Text>, s': State, b: seq<Text>, s'': State)
    requires Added(defs, s, a, s') && Added(defs, s', b, s'')
    ensures Added(defs, s, a + b, s'')
  {
  }

  // Needed so far: everything is reached, and what waits no more has all its mentions in.
  ghost predicate Exploring(defs: Defs, exported: set<Text>, s: State) {
    && exported <= s.needed && (forall name :: name in s.work ==> name in s.needed)
    && (forall name :: name in s.needed ==> Reached(defs, exported, name))
    && (forall name :: name in s.needed ==> name in exported || name in defs)
    && forall a, b :: a in s.needed && a !in s.work && Link(defs, a, b) ==> b in s.needed
  }

  lemma StartExploring(defs: Defs, exported: set<Text>, order: seq<Text>)
    requires forall name :: name in order <==> name in exported
    ensures Exploring(defs, exported, State(exported, order))
  {
    forall name | name in exported ensures Reached(defs, exported, name) {
      ExportedReached(defs, exported, name);
    }
  }

  // What the definition of a name mentions, when it has one.
  function MentionsBy(defs: Defs, name: Text): seq<Text> {
    if name in defs then Mentions(defs[name]) else []
  }

  lemma PoppedReached(defs: Defs, exported: set<Text>, s: State, name: Text, s': State, m: Text)
    requires name in s.needed && (forall x :: x in s.needed ==> Reached(defs, exported, x))
    requires forall x :: x in s'.needed <==> x in s.needed || (x in MentionsBy(defs, name) && x in defs)
    requires m in s'.needed
    ensures Reached(defs, exported, m)
  {
    if m !in s.needed {
      assert Link(defs, name, m);
      ReachedOn(defs, exported, name, m);
    }
  }

  // What waits no more still has all its mentions in.
  lemma PoppedClosed(defs: Defs, needed: set<Text>, rest: seq<Text>, name: Text, s': State, a: Text, b: Text)
    requires forall x, y :: x in needed && x !in rest + [name] && Link(defs, x, y) ==> y in needed
    requires Added(defs, State(needed, rest), MentionsBy(defs, name), s')
    requires a in s'.needed && a !in s'.work && Link(defs, a, b)
    ensures b in s'.needed
  {
    assert a in needed && a !in rest;
    if a == name {
      assert b in MentionsBy(defs, name);
    } else {
      assert a !in rest + [name];
    }
  }

  lemma PoppedFrom(defs: Defs, exported: set<Text>, s: State, rest: seq<Text>, name: Text, s': State)
    requires Exploring(defs, exported, s) && s.work == rest + [name]
    requires Added(defs, State(s.needed, rest), MentionsBy(defs, name), s')
    ensures Exploring(defs, exported, s')
  {
    assert name in s.work && forall x :: x in rest ==> x in s.work;
    forall m | m in s'.needed ensures Reached(defs, exported, m) {
      PoppedReached(defs, exported, s, name, s', m);
    }
    forall a, b | a in s'.needed && a !in s'.work && Link(defs, a, b) ensures b in s'.needed {
      PoppedClosed(defs, s.needed, rest, name, s', a, b);
    }
  }

  lemma Explored(defs: Defs, exported: set<Text>, s: State)
    requires Exploring(defs, exported, s) && s.work == []
    ensures s.needed == Needed(defs, exported)
  {
    assert Closed(defs, s.needed);
    NeededLeast(defs, exported, s.needed);
  }

  // One definition in or one name fewer waiting, at every turn.
  lemma Shrinks(defs: Defs, s: State, names: seq<Text>, s': State)
    requires Added(defs, s, names, s')
    ensures defs.Keys - s'.needed <= defs.Keys - s.needed
    ensures defs.Keys - s'.needed == defs.Keys - s.needed ==> s'.needed == s.needed
  {
    if defs.Keys - s'.needed == defs.Keys - s.needed {
      forall name | name in s'.needed ensures name in s.needed {
        assert name in defs.Keys - s'.needed <==> name in defs.Keys - s.needed;
      }
    }
  }

  // The words still to come when the scan stands at i with a word begun.
  function Ahead(a: Text, i: nat, word: Text): seq<Text> {
    if i <= |a| then Words(a[i..], word) else Flush(word)
  }

  function CharOrBlank(a: Text, i: nat): Byte {
    if i < |a| then a[i] else 32
  }

  lemma AheadStep(a: Text, i: nat, word: Text)
    requires i <= |a|
    ensures Ahead(a, i, word) ==
      if IsWordChar(CharOrBlank(a, i)) then Ahead(a, i + 1, word + [a[i]]) else Flush(word) + Ahead(a, i + 1, [])
  {
    if i < |a| {
      assert a[i..][0] == a[i] && a[i..][1..] == a[i + 1..];
    } else {
      assert a[i..] == [] && Flush(word) + [] == Flush(word);
    }
  }

  lemma Moved(seen: seq<Text>, some: seq<Text>, others: seq<Text>)
    ensures seen + (some + others) == (seen + some) + others
  {
  }

  function MentionsOf(c: Child): seq<Text> {
    if c.Null? then [] else Mentions(c.node)
  }

  lemma NextChild(n: Node, i: nat)
    requires i < |n.children|
    ensures n.children[i] in n.children
    ensures MentionsIn(n, n.children[i..]) == MentionsOf(n.children[i]) + MentionsIn(n, n.children[i + 1..])
  {
    assert n.children[i..][1..] == n.children[i + 1..];
  }

  class Closure {
    const defs: Defs
    var needed: set<Text>
    var work: seq<Text>

    ghost function View(): State
      reads this
    {
      State(needed, work)
    }

    constructor (defs: Defs)
      ensures this.defs == defs && View() == State({}, [])
    {
      this.defs, needed, work := defs, {}, [];
    }

    method Mention(name: Text)
      modifies this
      ensures Added(defs, old(View()), [name], View())
    {
      if name in defs && name !in needed {
        needed := needed + {name};
        work := work + [name];
        assert work[|work| - 1] == name;
      }
    }

    method EndWord(word: Text)
      modifies this
      ensures Added(defs, old(View()), Flush(word), View())
    {
      if word != [] {
        Mention(word);
      }
    }

    // The words of one attribute, each as it ends; a blank behind the text ends the last.
    method MentionWords(a: Text)
      modifies this
      ensures Added(defs, old(View()), Words(a, []), View())
    {
      var word: Text := [];
      ghost var seen: seq<Text> := [];
      assert a[0..] == a;
      for i := 0 to |a| + 1
        invariant seen + Ahead(a, i, word) == Words(a, []) && (i > |a| ==> word == [])
        invariant Added(defs, old(View()), seen, View())
      {
        AheadStep(a, i, word);
        var c := CharOrBlank(a, i);
        if IsWordChar(c) {
          word := word + [c];
        } else {
          ghost var now := View();
          EndWord(word);
          AddedBoth(defs, old(View()), seen, now, Flush(word), View());
          Moved(seen, Flush(word), Ahead(a, i + 1, []));
          seen := seen + Flush(word);
          word := [];
        }
      }
      assert seen + [] == seen;
    }

    method MentionAttrs(attrs: seq<Text>)
      modifies this
      ensures Added(defs, old(View()), AllWords(attrs), View())
    {
      ghost var seen: seq<Text> := [];
      assert attrs[0..] == attrs;
      for i := 0 to |attrs|
        invariant seen + AllWords(attrs[i..]) == AllWords(attrs)
        invariant Added(defs, old(View()), seen, View())
      {
        ghost var now, words := View(), Words(attrs[i], []);
        assert attrs[i..][1..] == attrs[i + 1..];
        MentionWords(attrs[i]);
        AddedBoth(defs, old(View()), seen, now, words, View());
        Moved(seen, words, AllWords(attrs[i + 1..]));
        seen := seen + words;
      }
      assert seen + [] == seen;
    }

    method Refs(n: Node)
      modifies this
      ensures Added(defs, old(View()), Mentions(n), View())
      decreases n, 1
    {
      Mention(n.value);
      ghost var named := View();
      MentionAttrs(n.attrs);
      AddedBoth(defs, old(View()), [n.value], named, AllWords(n.attrs), View());
      ghost var attributed := View();
      RefsIn(n);
      AddedBoth(defs, old(View()), [n.value] + AllWords(n.attrs), attributed, MentionsIn(n, n.children), View());
    }

    method RefChild(n: Node, c: Child)
      requires c in n.children
      modifies this
      ensures Added(defs, old(View()), MentionsOf(c), View())
      decreases n, 0, 0
    {
      if c.Child? {
        Refs(c.node);
      }
    }

    method RefsIn(n: Node)
      modifies this
      ensures Added(defs, old(View()), MentionsIn(n, n.children), View())
      decreases n, 0, 1
    {
      ghost var seen: seq<Text> := [];
      assert n.children[0..] == n.children;
      for i := 0 to |n.children|
        invariant seen + MentionsIn(n, n.children[i..]) == MentionsIn(n, n.children)
        invariant Added(defs, old(View()), seen, View())
      {
        ghost var now, names := View(), MentionsOf(n.children[i]);
        NextChild(n, i);
        RefChild(n, n.children[i]);
        AddedBoth(defs, old(View()), seen, now, names, View());
        Moved(seen, names, MentionsIn(n, n.children[i + 1..]));
        seen := seen + names;
      }
      assert seen + [] == seen;
    }

    // Takes one name from the back and adds what its definition mentions.
    method Turn(exported: set<Text>)
      requires work != [] && Exploring(defs, exported, View())
      modifies this
      ensures Exploring(defs, exported, View())
      ensures defs.Keys - needed < defs.Keys - old(needed) || (needed == old(needed) && |work| < |old(work)|)
    {
      ghost var before := View();
      var name := work[|work| - 1];
      work := work[..|work| - 1];
      ghost var popped := View();
      if name in defs {
        Refs(defs[name]);
      }
      Shrinks(defs, popped, MentionsBy(defs, name), View());
      assert before.work == popped.work + [name];
      PoppedFrom(defs, exported, before, popped.work, name, View());
    }

    // The exported names wait in some order; the loop runs until none waits.
    method Close(exported: set<Text>, order: seq<Text>)
      requires forall name :: name in order <==> name in exported
      modifies this
      ensures needed == Needed(defs, exported)
    {
      needed, work := exported, order;
      StartExploring(defs, exported, order);
      while work != []
        invariant Exploring(defs, exported, View())
        decreases defs.Keys - needed, |work|
      {
        Turn(exported);
      }
      Explored(defs, exported, View());
    }
  }
}
