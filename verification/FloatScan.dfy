/** The pass that finds, before code is emitted, every variable and temp that can hold a float. */
module FloatScan {

  import opened Options

  datatype Ref = Var(id: int) | Temp(id: int)

  datatype Operand = Value(ref: Ref) | Const(isFloat: bool)

  datatype Instr =
    | Move(dst: Ref, src: Operand, coerced: bool)   // a store or a constant; coerced: into a fixed-width integer
    | Load(dst: Ref, src: Operand)                  // LOAD_VAR, which the scan passes over
    | Cast(dst: Ref, toFloat: bool)
    | Divide(dst: Ref)                              // true division, always a float
    | Arith(dst: Ref, a: Operand, b: Operand)       // + - * and the pure multiply
    | Call(dst: Ref, callee: nat)
    | NoFloat(dst: Ref)                             // another result that is never a float
    | NoResult

  // What is known before the pass: variables named by a float literal, and functions that return a float.
  datatype Known = Known(literals: set<Ref>, returning: set<nat>)

  predicate IsFloat(k: Known, marked: set<Ref>, o: Operand) {
    match o
    case Const(f) => f
    case Value(r) => r in k.literals || r in marked
  }

  // Does the scan say that ins gives its destination a float, when the marked ones hold floats?
  predicate GivesFloat(k: Known, marked: set<Ref>, ins: Instr) {
    match ins
    case Move(_, src, coerced) => IsFloat(k, marked, src) && !coerced
    case Load(_, _) => false
    case Cast(_, toFloat) => toFloat
    case Divide(_) => true
    case Arith(_, a, b) => IsFloat(k, marked, a) || IsFloat(k, marked, b)
    case Call(_, callee) => callee in k.returning
    case NoFloat(_) => false
    case NoResult => false
  }

  predicate ClosedAt(k: Known, marked: set<Ref>, ins: Instr) {
    GivesFloat(k, marked, ins) ==> IsFloat(k, marked, Value(ins.dst))
  }

  ghost predicate Closed(k: Known, marked: set<Ref>, code: seq<Instr>) {
    forall i :: 0 <= i < |code| ==> ClosedAt(k, marked, code[i])
  }

  ghost predicate Least(k: Known, start: set<Ref>, code: seq<Instr>, marked: set<Ref>) {
    && start <= marked && Closed(k, marked, code)
    && forall t: set<Ref> :: start <= t && Closed(k, t, code) ==> marked <= t
  }

  // Marked so far is within every closed set.
  ghost predicate Forced(k: Known, start: set<Ref>, code: seq<Instr>, marked: set<Ref>) {
    start <= marked && forall t: set<Ref> :: start <= t && Closed(k, t, code) ==> marked <= t
  }

  lemma More(k: Known, marked: set<Ref>, t: set<Ref>, ins: Instr)
    requires marked <= t && GivesFloat(k, marked, ins)
    ensures GivesFloat(k, t, ins)
  {
  }

  lemma ForcedNext(k: Known, start: set<Ref>, code: seq<Instr>, marked: set<Ref>, i: nat)
    requires i < |code| && Forced(k, start, code, marked) && GivesFloat(k, marked, code[i]) &&
      code[i].dst !in k.literals
    ensures Forced(k, start, code, marked + {code[i].dst})
  {
    forall t: set<Ref> | start <= t && Closed(k, t, code) ensures marked + {code[i].dst} <= t {
      More(k, marked, t, code[i]);
      assert ClosedAt(k, t, code[i]);
    }
  }

  // Every ref that an instruction can mark.
  function Targets(code: seq<Instr>): (s: set<Ref>)
    ensures forall i :: 0 <= i < |code| && !code[i].NoResult? ==> code[i].dst in s
  {
    set i | 0 <= i < |code| && !code[i].NoResult? :: code[i].dst
  }

  class Scanner {
    const known: Known
    var floatRefs: set<Ref>

    constructor (k: Known, start: set<Ref>)
      ensures known == k && floatRefs == start
    {
      known, floatRefs := k, start;
    }

    // Marks r unless it already counts as a float.
    method MarkIfNew(r: Ref) returns (changed: bool)
      modifies this`floatRefs
      ensures changed == !IsFloat(known, old(floatRefs), Value(r))
      ensures floatRefs == old(floatRefs) + (if changed then {r} else {})
    {
      changed := !IsFloat(known, floatRefs, Value(r));
      if changed {
        floatRefs := floatRefs + {r};
      }
    }

    // One pass over the code.
    method Pass(code: seq<Instr>, ghost start: set<Ref>) returns (changed: bool)
      requires Forced(known, start, code, floatRefs)
      modifies this`floatRefs
      ensures old(floatRefs) <= floatRefs && Forced(known, start, code, floatRefs)
      ensures if changed then Targets(code) - floatRefs < Targets(code) - old(floatRefs)
        else floatRefs == old(floatRefs) && Closed(known, floatRefs, code)
    {
      changed := false;
      for i := 0 to |code|
        invariant old(floatRefs) <= floatRefs && Forced(known, start, code, floatRefs)
        invariant changed ==> exists r :: r in Targets(code) && r in floatRefs && r !in old(floatRefs)
        invariant !changed ==> floatRefs == old(floatRefs) && forall j :: 0 <= j < i ==>
          ClosedAt(known, floatRefs, code[j])
      {
        if GivesFloat(known, floatRefs, code[i]) {
          if code[i].dst !in known.literals {
            ForcedNext(known, start, code, floatRefs, i);
          }
          assert code[i].dst in Targets(code);
          var added := MarkIfNew(code[i].dst);
          changed := changed || added;
        }
      }
      if changed {
        ghost var r :| r in Targets(code) && r in floatRefs && r !in old(floatRefs);
        assert r in Targets(code) - old(floatRefs) && r !in Targets(code) - floatRefs;
      }
    }

    /** Repeats the pass until nothing changes: the result is the least set that holds the start and is closed. */
    method PreScan(code: seq<Instr>)
      modifies this`floatRefs
      ensures Least(known, old(floatRefs), code, floatRefs)
    {
      ghost var start := floatRefs;
      var changed := true;
      while changed
        invariant start <= floatRefs && Forced(known, start, code, floatRefs)
        invariant !changed ==> Closed(known, floatRefs, code)
        decreases Targets(code) - floatRefs, changed
      {
        changed := Pass(code, start);
      }
    }
  }

  // ---- What the marks mean for runs ----

  // Does the operand hold a float, when these refs do?
  predicate HoldsFloat(k: Known, held: set<Ref>, o: Operand) {
    if o.Const? then o.isFloat else o.ref in held || o.ref in k.literals
  }

  // Does ins leave a float in its destination, when these refs hold floats? This is what the instructions do; it owes
  // nothing to the scan. Moves and loads hand on a float, arithmetic is in floats as soon as one operand is.
  predicate MakesFloat(k: Known, held: set<Ref>, ins: Instr) {
    || (ins.Move? && HoldsFloat(k, held, ins.src) && !ins.coerced)
    || (ins.Load? && HoldsFloat(k, held, ins.src))
    || (ins.Cast? && ins.toFloat)
    || ins.Divide?
    || (ins.Arith? && (HoldsFloat(k, held, ins.a) || HoldsFloat(k, held, ins.b)))
    || (ins.Call? && ins.callee in k.returning)
  }

  // Which refs hold a float after ins.
  function Step(k: Known, held: set<Ref>, ins: Instr): set<Ref> {
    if ins.NoResult? then held
    else if MakesFloat(k, held, ins) then held + {ins.dst}
    else held - {ins.dst}
  }

  // The instructions of a path, by place, whichever way control goes.
  predicate Path(code: seq<Instr>, path: seq<nat>) {
    forall j :: 0 <= j < |path| ==> path[j] < |code|
  }

  function Run(k: Known, code: seq<Instr>, held: set<Ref>, path: seq<nat>): set<Ref>
    requires Path(code, path)
  {
    if path == [] then held
    else Step(k, Run(k, code, held, path[..|path| - 1]), code[path[|path| - 1]])
  }

  // No load takes a marked ref to an unmarked one.
  predicate LoadsMarked(k: Known, marked: set<Ref>, code: seq<Instr>) {
    forall i :: 0 <= i < |code| && code[i].Load? && HoldsFloat(k, marked, code[i].src) ==>
      HoldsFloat(k, marked, Value(code[i].dst))
  }

  /** Loads apart, the scan says of every instruction what the instruction does. */
  lemma ScanAgrees(k: Known, held: set<Ref>, ins: Instr)
    ensures GivesFloat(k, held, ins) <==> MakesFloat(k, held, ins) && !ins.Load?
  {
  }

  lemma {:induction false} MarksCover(k: Known, start: set<Ref>, code: seq<Instr>, marked: set<Ref>, path: seq<nat>)
    requires Least(k, start, code, marked) && LoadsMarked(k, marked, code) && Path(code, path)
    ensures Run(k, code, start, path) <= marked + k.literals
  {
    if path != [] {
      var before := path[..|path| - 1];
      MarksCover(k, start, code, marked, before);
      var i := path[|path| - 1];
      var held := Run(k, code, start, before);
      if MakesFloat(k, held, code[i]) && !code[i].NoResult? {
        FromMarked(k, held, marked, code[i]);
        assert ClosedAt(k, marked, code[i]);
      }
    }
  }

  ghost predicate Covers(k: Known, start: set<Ref>, code: seq<Instr>, marked: set<Ref>) {
    forall path :: Path(code, path) ==> Run(k, code, start, path) <= marked + k.literals
  }

  /** No path through any loop or branch gives a float to a ref that is not marked, exactly when no load takes a marked
      ref to an unmarked one. The scan itself does not look at loads. */
  lemma MarksCoverExactly(k: Known, start: set<Ref>, code: seq<Instr>, marked: set<Ref>)
    requires Least(k, start, code, marked)
    ensures Covers(k, start, code, marked) <==> LoadsMarked(k, marked, code)
  {
    if LoadsMarked(k, marked, code) {
      forall path | Path(code, path) ensures Run(k, code, start, path) <= marked + k.literals {
        MarksCover(k, start, code, marked, path);
      }
    } else {
      var i :| 0 <= i < |code| && code[i].Load? && IsFloat(k, marked, code[i].src)
        && !IsFloat(k, marked, Value(code[i].dst));
      LoadEscapes(k, start, code, marked, i);
    }
  }

  // A load from a marked ref to an unmarked one gives a float that is not covered, on some path.
  lemma LoadEscapes(k: Known, start: set<Ref>, code: seq<Instr>, marked: set<Ref>, i: nat)
    requires Least(k, start, code, marked) && i < |code| && code[i].Load? && IsFloat(k, marked, code[i].src)
    requires !IsFloat(k, marked, Value(code[i].dst))
    ensures !Covers(k, start, code, marked)
  {
    var path: seq<nat> := [];
    var src := code[i].src;
    if src.Value? && src.ref !in k.literals {
      MarksAreReached(k, start, code, marked, src.ref);
      path :| Path(code, path) && src.ref in Run(k, code, start, path);
    }
    RunOne(k, start, code, path, i);
    assert code[i].dst in Run(k, code, start, path + [i]);
  }

  /** A variable that holds a float is loaded into a temp: the scan leaves the temp unmarked. */
  lemma LoadExample(k: Known)
    requires Temp(0) !in k.literals && Var(0) !in k.literals
    ensures var code := [Move(Var(0), Const(true), false), Load(Temp(0), Value(Var(0)))];
      Least(k, {}, code, {Var(0)}) && !Covers(k, {}, code, {Var(0)})
  {
    var code := [Move(Var(0), Const(true), false), Load(Temp(0), Value(Var(0)))];
    forall t: set<Ref> | Closed(k, t, code) ensures {Var(0)} <= t {
      assert ClosedAt(k, t, code[0]);
    }
    assert code[1].Load?;
    MarksCoverExactly(k, {}, code, {Var(0)});
  }

  lemma FromMarked(k: Known, held: set<Ref>, marked: set<Ref>, ins: Instr)
    requires held <= marked + k.literals && MakesFloat(k, held, ins)
    ensures MakesFloat(k, marked, ins)
  {
  }

  ghost predicate CanHold(k: Known, start: set<Ref>, code: seq<Instr>, r: Ref) {
    exists path :: Path(code, path) && r in Run(k, code, start, path)
  }

  lemma RunOne(k: Known, start: set<Ref>, code: seq<Instr>, path: seq<nat>, i: nat)
    requires Path(code, path) && i < |code|
    ensures Path(code, path + [i]) && Run(k, code, start, path + [i]) == Step(k, Run(k, code, start, path), code[i])
  {
    assert (path + [i])[..|path|] == path;
  }

  // The ref that makes ins give a float, if it takes one.
  lemma Cause(k: Known, marked: set<Ref>, ins: Instr) returns (cause: Option<Ref>)
    requires GivesFloat(k, marked, ins)
    ensures cause.Some? ==> cause.value in marked
    ensures forall held: set<Ref> :: (cause.Some? ==> cause.value in held) ==> GivesFloat(k, held, ins)
  {
    match ins
    case Move(_, src, _) => cause := if src.Value? && src.ref !in k.literals then Some(src.ref) else None;
    case Arith(_, a, b) =>
      if IsFloat(k, {}, a) || IsFloat(k, {}, b) {
        cause := None;
      } else if IsFloat(k, marked, a) {
        cause := Some(a.ref);
      } else {
        cause := Some(b.ref);
      }
    case _ => cause := None;
  }

  lemma CanHoldNext(k: Known, start: set<Ref>, code: seq<Instr>, marked: set<Ref>, i: nat)
    requires i < |code| && GivesFloat(k, marked, code[i]) && forall r :: r in marked ==> CanHold(k, start, code, r)
    ensures CanHold(k, start, code, code[i].dst)
  {
    var cause := Cause(k, marked, code[i]);
    var path: seq<nat> := [];
    if cause.Some? {
      path :| Path(code, path) && cause.value in Run(k, code, start, path);
    }
    ScanAgrees(k, Run(k, code, start, path), code[i]);
    RunOne(k, start, code, path, i);
    assert code[i].dst in Run(k, code, start, path + [i]);
  }

  /** And every marked ref does hold a float on some path: the marks are exact, not only safe. */
  lemma MarksAreReached(k: Known, start: set<Ref>, code: seq<Instr>, marked: set<Ref>, r: Ref)
    requires Least(k, start, code, marked) && r in marked
    ensures CanHold(k, start, code, r)
  {
    var t := set x | x in marked && CanHold(k, start, code, x);
    forall x | x in start ensures x in t {
      var none: seq<nat> := [];
      assert Path(code, none) && x in Run(k, code, start, none);
    }
    forall i | 0 <= i < |code| ensures ClosedAt(k, t, code[i]) {
      if GivesFloat(k, t, code[i]) {
        CanHoldNext(k, start, code, t, i);
        More(k, t, marked, code[i]);
        assert ClosedAt(k, marked, code[i]);
      }
    }
    assert start <= t && Closed(k, t, code) && marked <= t;
  }
}
