/** The scoped symbol table against a stack of maps, one map for each open scope. */
module Symbols {

  import opened CText
  import opened Options

  // typ is the number of the symbol's IR type, which the table only stores.
  datatype Symbol = Symbol(name: Text, typ: Byte, scope: int)

  datatype Table = Table(symbols: seq<Symbol>, nameToIds: map<Text, seq<nat>>, currentScope: nat)

  const EMPTY := Table([], map[], 0)

  function Ids(t: Table, name: Text): seq<nat> {
    if name in t.nameToIds then t.nameToIds[name] else []
  }

  // The first of these ids whose symbol has the scope.
  function FirstIn(symbols: seq<Symbol>, ids: seq<nat>, scope: nat): (r: Option<nat>)
    ensures r.Some? ==> r.value in ids && r.value < |symbols| && symbols[r.value].scope == scope
    ensures r.None? ==> forall id :: id in ids && id < |symbols| ==> symbols[id].scope != scope
  {
    if ids == [] then None
    else if ids[0] < |symbols| && symbols[ids[0]].scope == scope then Some(ids[0])
    else FirstIn(symbols, ids[1..], scope)
  }

  function Added(t: Table, name: Text, typ: Byte, scope: int): Table {
    var id := |t.symbols|;
    Table(t.symbols + [Symbol(name, typ, scope)], t.nameToIds[name := Ids(t, name) + [id]], t.currentScope)
  }

  function Intern(t: Table, name: Text, typ: Byte): (Table, nat) {
    match FirstIn(t.symbols, Ids(t, name), t.currentScope)
    case Some(id) => (t, id)
    case None => (Added(t, name, typ, t.currentScope), |t.symbols|)
  }

  // Adds a symbol at the next id without looking for it first, at the scope it had.
  function Restore(t: Table, name: Text, typ: Byte, scope: int): Table {
    Added(t, name, typ, scope)
  }

  function LookupFrom(t: Table, name: Text, scope: nat): Option<nat> {
    match FirstIn(t.symbols, Ids(t, name), scope)
    case Some(id) => Some(id)
    case None => if scope == 0 then None else LookupFrom(t, name, scope - 1)
  }

  function Lookup(t: Table, name: Text): Option<nat> {
    LookupFrom(t, name, t.currentScope)
  }

  // The ids whose symbol is of another scope.
  function Without(symbols: seq<Symbol>, ids: seq<nat>, scope: nat): (r: seq<nat>)
    ensures forall id :: id in r <==> id in ids && !(id < |symbols| && symbols[id].scope == scope)
  {
    if ids == [] then []
    else if ids[0] < |symbols| && symbols[ids[0]].scope == scope then Without(symbols, ids[1..], scope)
    else [ids[0]] + Without(symbols, ids[1..], scope)
  }

  function Enter(t: Table): Table {
    t.(currentScope := t.currentScope + 1)
  }

  function Exit(t: Table): Table {
    if t.currentScope == 0 then t
    else
      Table(t.symbols, map name | name in t.nameToIds ::
        Without(t.symbols, t.nameToIds[name], t.currentScope), t.currentScope - 1)
  }

  // The last id ever given to the name.
  function LookupAny(symbols: seq<Symbol>, name: Text): (r: Option<nat>)
    ensures r.Some? ==>
      r.value < |symbols| && symbols[r.value].name == name && forall i :: r.value < i < |symbols| ==>
        symbols[i].name != name
    ensures r.None? ==> forall i :: 0 <= i < |symbols| ==> symbols[i].name != name
  {
    if symbols == [] then None
    else if symbols[|symbols| - 1].name == name then Some(|symbols| - 1)
    else LookupAny(symbols[..|symbols| - 1], name)
  }

  // ---- A stack of maps: one for each open scope, the global one first ----

  type Stack = s: seq<map<Text, nat>> | s != [] witness [map[]]

  function Put(m: map<Text, nat>, name: Text, id: nat): map<Text, nat> {
    m[name := id]
  }

  function Bind(s: Stack, name: Text, next: nat): (Stack, nat) {
    var top := s[|s| - 1];
    if name in top then (s, top[name]) else (s[|s| - 1 := Put(top, name, next)], next)
  }

  function Push(s: Stack): Stack {
    s + [map[]]
  }

  function Pop(s: Stack): Stack {
    if |s| == 1 then s else s[..|s| - 1]
  }

  // The innermost binding.
  function Innermost(s: Stack, name: Text): Option<nat> {
    if name in s[|s| - 1] then Some(s[|s| - 1][name])
    else if |s| == 1 then None
    else Innermost(s[..|s| - 1], name)
  }

  // ---- The table refines the stack ----

  // id is listed for the name, and its symbol has this scope.
  predicate Live(t: Table, name: Text, id: nat, scope: nat) {
    id in Ids(t, name) && id < |t.symbols| && t.symbols[id].scope == scope
  }

  // Listed ids are ids of symbols with that name, in open scopes.
  predicate ListedId(t: Table, name: Text, id: nat) {
    id in Ids(t, name) ==> id < |t.symbols| && t.symbols[id].name == name && t.symbols[id].scope <= t.currentScope
  }

  ghost predicate Listed(t: Table) {
    forall name, id: nat :: ListedId(t, name, id)
  }

  // One name at one scope: bound in the map exactly when some id is live, and to the only one.
  ghost predicate BoundAt(t: Table, m: map<Text, nat>, name: Text, scope: nat) {
    && (name in m ==> Live(t, name, m[name], scope))
    && forall id: nat :: Live(t, name, id, scope) ==> name in m && m[name] == id
  }

  ghost predicate Refines(t: Table, s: Stack) {
    && |s| == t.currentScope + 1 && Listed(t)
    && forall d, name :: 0 <= d < |s| ==> BoundAt(t, s[d], name, d)
  }

  /** At most one live id for a name and a scope. */
  lemma OneLiveId(t: Table, s: Stack, name: Text, scope: nat, id: nat, id': nat)
    requires Refines(t, s) && scope <= t.currentScope && Live(t, name, id, scope) && Live(t, name, id', scope)
    ensures id == id'
  {
    assert BoundAt(t, s[scope], name, scope);
  }

  lemma FirstIsBound(t: Table, s: Stack, name: Text, d: nat)
    requires Refines(t, s) && d < |s|
    ensures FirstIn(t.symbols, Ids(t, name), d) == if name in s[d] then Some(s[d][name]) else None
  {
    assert BoundAt(t, s[d], name, d);
    var r := FirstIn(t.symbols, Ids(t, name), d);
    if r.Some? {
      assert Live(t, name, r.value, d);
    }
  }

  lemma AddedBound(t: Table, s: Stack, name: Text, typ: Byte, d: nat, other: Text)
    requires Refines(t, s) && d < |s| && name !in s[|s| - 1]
    ensures var t' := Added(t, name, typ, t.currentScope);
      BoundAt(t', s[|s| - 1 := Put(s[|s| - 1], name, |t.symbols|)][d], other, d)
  {
    var t' := Added(t, name, typ, t.currentScope);
    assert BoundAt(t, s[d], other, d) && BoundAt(t, s[|s| - 1], name, |s| - 1);
    forall id: nat
      ensures Live(t', other, id, d) <==>
        Live(t, other, id, d) || (other == name && id == |t.symbols| && d == t.currentScope)
    {
      assert ListedId(t, other, id);
    }
  }

  lemma AddedListed(t: Table, name: Text, typ: Byte)
    requires Listed(t)
    ensures Listed(Added(t, name, typ, t.currentScope))
  {
    var t' := Added(t, name, typ, t.currentScope);
    forall other, id: nat ensures ListedId(t', other, id) {
      assert ListedId(t, other, id);
    }
  }

  lemma InternRefines(t: Table, s: Stack, name: Text, typ: Byte)
    requires Refines(t, s)
    ensures var (t', id) := Intern(t, name, typ); var (s', id') := Bind(s, name, |t.symbols|);
      Refines(t', s') && id == id'
  {
    FirstIsBound(t, s, name, t.currentScope);
    if name !in s[|s| - 1] {
      AddedListed(t, name, typ);
      forall d, other | 0 <= d < |s|
        ensures BoundAt(Intern(t, name, typ).0, Bind(s, name, |t.symbols|).0[d], other, d)
      {
        AddedBound(t, s, name, typ, d, other);
      }
    }
  }

  lemma EnterRefines(t: Table, s: Stack)
    requires Refines(t, s)
    ensures Refines(Enter(t), Push(s))
  {
    var t' := Enter(t);
    forall name, id: nat ensures ListedId(t', name, id) {
      assert ListedId(t, name, id);
    }
    forall d, name | 0 <= d < |Push(s)| ensures BoundAt(t', Push(s)[d], name, d) {
      forall id: nat ensures Live(t', name, id, d) <==> Live(t, name, id, d) && d < |s| {
        assert ListedId(t, name, id);
      }
      if d < |s| {
        assert BoundAt(t, s[d], name, d);
      }
    }
  }

  lemma ExitLive(t: Table, name: Text, id: nat, d: nat)
    requires Listed(t) && t.currentScope > 0
    ensures Live(Exit(t), name, id, d) <==> Live(t, name, id, d) && d < t.currentScope
    ensures ListedId(Exit(t), name, id)
  {
    assert ListedId(t, name, id);
  }

  lemma ExitRefines(t: Table, s: Stack)
    requires Refines(t, s)
    ensures Refines(Exit(t), Pop(s))
  {
    if t.currentScope > 0 {
      forall name, id: nat ensures ListedId(Exit(t), name, id) {
        ExitLive(t, name, id, 0);
      }
      forall d, name | 0 <= d < |Pop(s)| ensures BoundAt(Exit(t), Pop(s)[d], name, d) {
        assert BoundAt(t, s[d], name, d);
        forall id: nat ensures Live(Exit(t), name, id, d) <==> Live(t, name, id, d) {
          ExitLive(t, name, id, d);
        }
      }
    }
  }

  lemma {:induction false} LookupFromRefines(t: Table, s: Stack, name: Text, d: nat)
    requires Refines(t, s) && d < |s|
    ensures LookupFrom(t, name, d) == Innermost(s[..d + 1], name)
  {
    FirstIsBound(t, s, name, d);
    if d > 0 {
      LookupFromRefines(t, s, name, d - 1);
      assert s[..d + 1][..d] == s[..d];
    }
  }

  /** lookup returns the innermost binding. */
  lemma LookupRefines(t: Table, s: Stack, name: Text)
    requires Refines(t, s)
    ensures Lookup(t, name) == Innermost(s, name)
  {
    LookupFromRefines(t, s, name, t.currentScope);
    assert s[..|s|] == s;
  }

  // ---- Runs ----

  datatype Op = OpIntern(name: Text, typ: Byte) | OpEnter | OpExit

  function Do(t: Table, op: Op): Table {
    match op
    case OpIntern(name, typ) => Intern(t, name, typ).0
    case OpEnter => Enter(t)
    case OpExit => Exit(t)
  }

  // next is the id that a new binding gets.
  function DoStack(s: Stack, op: Op, next: nat): Stack {
    match op
    case OpIntern(name, _) => Bind(s, name, next).0
    case OpEnter => Push(s)
    case OpExit => Pop(s)
  }

  function Run(t: Table, ops: seq<Op>): Table {
    if ops == [] then t else Do(Run(t, ops[..|ops| - 1]), ops[|ops| - 1])
  }

  function RunStack(t: Table, s: Stack, ops: seq<Op>): Stack {
    if ops == [] then s
    else DoStack(RunStack(t, s, ops[..|ops| - 1]), ops[|ops| - 1], |Run(t, ops[..|ops| - 1]).symbols|)
  }

  lemma DoRefines(t: Table, s: Stack, op: Op)
    requires Refines(t, s)
    ensures Refines(Do(t, op), DoStack(s, op, |t.symbols|))
  {
    match op
    case OpIntern(name, typ) => InternRefines(t, s, name, typ);
    case OpEnter => EnterRefines(t, s);
    case OpExit => ExitRefines(t, s);
  }

  /** Every run of interns, enters and exits keeps the table a stack of maps; names and ids never change. */
  lemma {:induction false} RunRefines(t: Table, s: Stack, ops: seq<Op>)
    requires Refines(t, s)
    ensures Refines(Run(t, ops), RunStack(t, s, ops)) && t.symbols <= Run(t, ops).symbols
  {
    if ops != [] {
      var before := ops[..|ops| - 1];
      RunRefines(t, s, before);
      DoRefines(Run(t, before), RunStack(t, s, before), ops[|ops| - 1]);
    }
  }

  lemma EmptyRefines()
    ensures Refines(EMPTY, [map[]])
  {
  }

  /** Every table that can be reached is a stack of maps. */
  lemma ReachableRefines(ops: seq<Op>)
    ensures Refines(Run(EMPTY, ops), RunStack(EMPTY, [map[]], ops))
  {
    EmptyRefines();
    RunRefines(EMPTY, [map[]], ops);
  }

  function Depth(ops: seq<Op>): int {
    if ops == [] then 0
    else Depth(ops[..|ops| - 1]) + (match ops[|ops| - 1] case OpEnter => 1 case OpExit => -1 case _ => 0)
  }

  // No exit without its own enter.
  predicate Nested(ops: seq<Op>) {
    forall k :: 0 <= k <= |ops| ==> Depth(ops[..k]) >= 0
  }

  // Well-nested code leaves the maps of the scopes around it alone.
  lemma {:induction false} OuterUnchanged(t: Table, s: Stack, ops: seq<Op>)
    requires Nested(ops)
    ensures |RunStack(t, s, ops)| == |s| + Depth(ops) && RunStack(t, s, ops)[..|s| - 1] == s[..|s| - 1]
  {
    if ops != [] {
      var before := ops[..|ops| - 1];
      assert ops[..|ops|] == ops;
      assert forall k :: 0 <= k <= |before| ==> before[..k] == ops[..k];
      OuterUnchanged(t, s, before);
    }
  }

  lemma RunAppend(t: Table, s: Stack, a: seq<Op>, op: Op)
    ensures Run(t, a + [op]) == Do(Run(t, a), op) &&
      RunStack(t, s, a + [op]) == DoStack(RunStack(t, s, a), op, |Run(t, a).symbols|)
  {
    assert (a + [op])[..|a|] == a;
  }

  lemma {:induction false} RunFrom(t: Table, s: Stack, op: Op, ops: seq<Op>)
    ensures Run(t, [op] + ops) == Run(Do(t, op), ops)
    ensures RunStack(t, s, [op] + ops) == RunStack(Do(t, op), DoStack(s, op, |t.symbols|), ops)
  {
    if ops == [] {
      assert [op] + ops == [op] && [op][..0] == [];
    } else {
      var before := ops[..|ops| - 1];
      assert ([op] + ops)[..|[op] + ops| - 1] == [op] + before;
      RunFrom(t, s, op, before);
    }
  }

  /** A well-nested enter ... exit restores exactly the earlier lookups, for every name. */
  lemma ScopeRestores(t: Table, s: Stack, ops: seq<Op>, name: Text)
    requires Refines(t, s) && Nested(ops) && Depth(ops) == 0
    ensures Lookup(Run(t, [OpEnter] + ops + [OpExit]), name) == Lookup(t, name)
  {
    var all := [OpEnter] + ops;
    RunRefines(t, s, all + [OpExit]);
    RunAppend(t, s, all, OpExit);
    RunFrom(t, s, OpEnter, ops);
    OuterUnchanged(Enter(t), Push(s), ops);
    assert Push(s)[..|s|] == s;
    assert RunStack(t, s, all + [OpExit]) == s;
    LookupRefines(Run(t, all + [OpExit]), s, name);
    LookupRefines(t, s, name);
  }

  // Part way through an exit: the lists in todo are as before, the others have lost this scope's ids.
  predicate Pruned(symbols: seq<Symbol>, scope: nat, before: map<Text, seq<nat>>, now: map<Text, seq<nat>>,
                   todo: set<Text>) {
    && todo <= before.Keys == now.Keys
    && forall name :: name in before ==> now[name] == if name in todo then before[name]
      else Without(symbols, before[name], scope)
  }

  lemma PruneOne(symbols: seq<Symbol>, scope: nat, before: map<Text, seq<nat>>, now: map<Text, seq<nat>>,
                 todo: set<Text>, name: Text)
    requires Pruned(symbols, scope, before, now, todo) && name in todo
    ensures Pruned(symbols, scope, before, now[name := Without(symbols, now[name], scope)], todo - {name})
  {
  }

  lemma PrunedAll(t: Table, now: map<Text, seq<nat>>)
    requires t.currentScope > 0 && Pruned(t.symbols, t.currentScope, t.nameToIds, now, {})
    ensures Exit(t) == Table(t.symbols, now, t.currentScope - 1)
  {
    assert now == Exit(t).nameToIds;
  }

  // ---- The table as the compiler updates it ----

  class SymbolTable {
    var symbols: seq<Symbol>
    var nameToIds: map<Text, seq<nat>>
    var currentScope: nat

    function View(): Table
      reads this
    {
      Table(symbols, nameToIds, currentScope)
    }

    constructor ()
      ensures View() == EMPTY
    {
      symbols, nameToIds, currentScope := [], map[], 0;
    }

    method IdsOf(name: Text) returns (ids: seq<nat>)
      ensures ids == Ids(View(), name)
    {
      ids := if name in nameToIds then nameToIds[name] else [];
    }

    // The first listed id of this scope, or -1.
    method Scan(ids: seq<nat>, scope: nat) returns (id: int)
      ensures match FirstIn(symbols, ids, scope) case Some(x) => id == x case None => id == -1
    {
      for i := 0 to |ids|
        invariant FirstIn(symbols, ids, scope) == FirstIn(symbols, ids[i..], scope)
      {
        if ids[i] < |symbols| && symbols[ids[i]].scope == scope {
          return ids[i];
        }
        assert ids[i..][1..] == ids[i + 1..];
      }
      assert ids[|ids|..] == [];
      id := -1;
    }

    method Append(name: Text, typ: Byte, scope: int) returns (id: nat)
      modifies this`symbols, this`nameToIds
      ensures id == old(|symbols|) && View() == Added(old(View()), name, typ, scope)
    {
      id := |symbols|;
      symbols := symbols + [Symbol(name, typ, scope)];
      var ids := IdsOf(name);
      nameToIds := nameToIds[name := ids + [id]];
    }

    method InternSymbol(name: Text, typ: Byte) returns (id: int)
      modifies this`symbols, this`nameToIds
      ensures (View(), id as int) == Intern(old(View()), name, typ)
    {
      var ids := IdsOf(name);
      id := Scan(ids, currentScope);
      if id < 0 {
        id := Append(name, typ, currentScope);
      }
    }

    method RestoreSymbol(name: Text, typ: Byte, scope: int) returns (id: nat)
      modifies this`symbols, this`nameToIds
      ensures id == old(|symbols|) && View() == Restore(old(View()), name, typ, scope)
    {
      id := Append(name, typ, scope);
    }

    // From the current scope up to the global one; -1 when the name is bound in none of them.
    method LookupName(name: Text) returns (id: int)
      ensures match Lookup(View(), name) case Some(x) => id == x case None => id == -1
    {
      var ids := IdsOf(name);
      var scope: int := currentScope;
      while scope >= 0
        invariant -1 <= scope <= currentScope
        invariant Lookup(View(), name) == if scope >= 0 then LookupFrom(View(), name, scope) else None
      {
        id := Scan(ids, scope);
        if id >= 0 {
          return;
        }
        scope := scope - 1;
      }
      id := -1;
    }

    method LookupAnyScope(name: Text) returns (id: int)
      ensures match LookupAny(symbols, name) case Some(x) => id == x case None => id == -1
    {
      id := |symbols| - 1;
      assert symbols[..|symbols|] == symbols;
      while id >= 0
        invariant -1 <= id < |symbols| && LookupAny(symbols, name) == LookupAny(symbols[..id + 1], name)
      {
        if symbols[id].name == name {
          return;
        }
        assert symbols[..id + 1][..id] == symbols[..id];
        id := id - 1;
      }
    }

    method EnterScope()
      modifies this`currentScope
      ensures View() == Enter(old(View()))
    {
      currentScope := currentScope + 1;
    }

    // Erases the ids of the current scope from every list.
    method ExitScope()
      modifies this`nameToIds, this`currentScope
      ensures View() == Exit(old(View()))
    {
      if currentScope == 0 {
        return;
      }
      ghost var t := View();
      var todo := nameToIds.Keys;
      while todo != {}
        invariant View() == t.(nameToIds := nameToIds) &&
          Pruned(t.symbols, t.currentScope, t.nameToIds, nameToIds, todo)
        decreases |todo|
      {
        var name :| name in todo;
        PruneOne(t.symbols, t.currentScope, t.nameToIds, nameToIds, todo, name);
        nameToIds := nameToIds[name := Without(symbols, nameToIds[name], currentScope)];
        todo := todo - {name};
      }
      PrunedAll(t, nameToIds);
      currentScope := currentScope - 1;
    }
  }
}
