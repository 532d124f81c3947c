/** The evaluator as the program runs it: one text and a cursor in a shared one-element list, moved by every routine. */
module EvalRun {
  import opened EvalText
  import opened EvalExact

  // The text from the cursor on.
  ghost function Rest(s: string, st: array<int>): string
    reads st
    requires InText(s, st)
  {
    s[st[0] - 1..]
  }

  // Positions count from 1; |s| + 1 is the end.
  ghost predicate InText(s: string, st: array<int>)
    reads st
  {
    st.Length == 1 && 1 <= st[0] <= |s| + 1
  }

  // A routine that did not abort read what the function reads.
  ghost predicate Agrees(r: Read, killed: bool, v: real, rest: string) {
    match r
    case Got(x, t) => !killed && v == x && rest == t
    case Kill => killed
  }

  method SkipBlanks(s: string, st: array<int>)
    requires InText(s, st)
    modifies st
    ensures InText(s, st) && st[0] >= old(st[0]) && Rest(s, st) == Skip(old(Rest(s, st)))
  {
    var run := 1;
    while run == 1
      invariant InText(s, st) && st[0] >= old(st[0]) && (run == 0 || run == 1)
      invariant Skip(Rest(s, st)) == Skip(old(Rest(s, st)))
      invariant run == 0 ==> Skip(Rest(s, st)) == Rest(s, st)
      decreases run, |s| - st[0]
    {
      if st[0] > |s| {
        run := 0;
      } else if s[st[0] - 1] == ' ' {
        assert Rest(s, st)[1..] == s[st[0]..];
        st[0] := st[0] + 1;
      } else {
        run := 0;
      }
    }
  }

  // The digits at the cursor, in front of which the value is v0.
  method WholePart(s: string, st: array<int>, v0: real) returns (whole: real)
    requires InText(s, st)
    modifies st
    ensures InText(s, st) && st[0] >= old(st[0]) && ReadWhole(v0, old(Rest(s, st))) == Got(whole, Rest(s, st))
  {
    whole := v0;
    var run := 1;
    while run == 1
      invariant InText(s, st) && st[0] >= old(st[0]) && (run == 0 || run == 1)
      invariant ReadWhole(whole, Rest(s, st)) == ReadWhole(v0, old(Rest(s, st)))
      invariant run == 0 ==> !StartsDigit(Rest(s, st))
      decreases run, |s| - st[0]
    {
      if st[0] > |s| {
        run := 0;
      } else {
        var d := DigitOf(s[st[0] - 1]);
        if d < 0 {
          run := 0;
        } else {
          assert Rest(s, st)[1..] == s[st[0]..];
          whole := whole * 10.0 + d as real;
          st[0] := st[0] + 1;
        }
      }
    }
  }

  method FractionPart(s: string, st: array<int>, v0: real) returns (whole: real)
    requires InText(s, st)
    modifies st
    ensures InText(s, st) && st[0] >= old(st[0]) && ReadFraction(v0, 1.0, old(Rest(s, st))) == Got(whole, Rest(s, st))
  {
    whole := v0;
    var scale, run := 1.0, 1;
    while run == 1
      invariant InText(s, st) && st[0] >= old(st[0]) && (run == 0 || run == 1)
      invariant ReadFraction(whole, scale, Rest(s, st)) == ReadFraction(v0, 1.0, old(Rest(s, st)))
      invariant run == 0 ==> !StartsDigit(Rest(s, st))
      decreases run, |s| - st[0]
    {
      if st[0] > |s| {
        run := 0;
      } else {
        var d := DigitOf(s[st[0] - 1]);
        if d < 0 {
          run := 0;
        } else {
          assert Rest(s, st)[1..] == s[st[0]..];
          scale := scale / 10.0;
          whole := AddPlace(whole, d, scale);
          st[0] := st[0] + 1;
        }
      }
    }
  }

  // One character further.
  method Step(s: string, st: array<int>)
    requires InText(s, st) && st[0] <= |s|
    modifies st
    ensures InText(s, st) && st[0] == old(st[0]) + 1 && Rest(s, st) == old(Rest(s, st))[1..]
  {
    st[0] := st[0] + 1;
  }

  method NumberAt(s: string, st: array<int>) returns (whole: real)
    requires InText(s, st)
    modifies st
    ensures InText(s, st) && st[0] >= old(st[0]) && ReadNumber(old(Rest(s, st))) == Got(whole, Rest(s, st))
  {
    whole := WholePart(s, st, 0.0);
    if st[0] <= |s| && s[st[0] - 1] == '.' {
      Step(s, st);
      whole := FractionPart(s, st, whole);
    }
  }

  method EvalFactor(s: string, st: array<int>) returns (v: real, killed: bool)
    requires InText(s, st)
    modifies st
    ensures InText(s, st) && st[0] >= old(st[0]) && Agrees(ReadFactor(old(Rest(s, st))), killed, v, Rest(s, st))
    decreases |s| - st[0], 0
  {
    SkipBlanks(s, st);
    v, killed := 0.0, false;
    if st[0] > |s| {
      return;
    }
    var c := s[st[0] - 1];
    if c == '(' {
      Step(s, st);
      v, killed := EvalExpr(s, st);
      if !killed {
        SkipBlanks(s, st);
        if st[0] <= |s| {
          Step(s, st);
        }
      }
    } else if c == '-' {
      Step(s, st);
      v, killed := EvalFactor(s, st);
      v := 0.0 - v;
    } else if c == '+' {
      Step(s, st);
      v, killed := EvalFactor(s, st);
    } else if DigitOf(c) < 0 && c != '.' {
      killed := true;
    } else {
      v := NumberAt(s, st);
    }
  }

  method EvalTerm(s: string, st: array<int>) returns (v: real, killed: bool)
    requires InText(s, st)
    modifies st
    ensures InText(s, st) && st[0] >= old(st[0]) && Agrees(ReadTerm(old(Rest(s, st))), killed, v, Rest(s, st))
    decreases |s| - st[0], 2
  {
    v, killed := EvalFactor(s, st);
    if killed {
      return;
    }
    var run := 1;
    while run == 1
      invariant InText(s, st) && st[0] >= old(st[0]) && !killed && (run == 0 || run == 1)
      invariant ReadTerm(old(Rest(s, st))) == if run == 1 then TermLoop(v, Rest(s, st)) else Got(v, Rest(s, st))
      decreases run, |s| - st[0]
    {
      SkipBlanks(s, st);
      if st[0] > |s| {
        run := 0;
      } else {
        var c := s[st[0] - 1];
        if c == '*' || c == '/' {
          Step(s, st);
          var d;
          d, killed := EvalFactor(s, st);
          if killed {
            return;
          }
          v := if c == '*' then Product(v, d) else Quotient(v, d);
        } else {
          run := 0;
        }
      }
    }
  }

  method EvalExpr(s: string, st: array<int>) returns (v: real, killed: bool)
    requires InText(s, st)
    modifies st
    ensures InText(s, st) && st[0] >= old(st[0]) && Agrees(ReadExpr(old(Rest(s, st))), killed, v, Rest(s, st))
    decreases |s| - st[0], 4
  {
    v, killed := EvalTerm(s, st);
    if killed {
      return;
    }
    var run := 1;
    while run == 1
      invariant InText(s, st) && st[0] >= old(st[0]) && !killed && (run == 0 || run == 1)
      invariant ReadExpr(old(Rest(s, st))) == if run == 1 then ExprLoop(v, Rest(s, st)) else Got(v, Rest(s, st))
      decreases run, |s| - st[0]
    {
      SkipBlanks(s, st);
      if st[0] > |s| {
        run := 0;
      } else {
        var c := s[st[0] - 1];
        if c == '+' || c == '-' {
          Step(s, st);
          var d;
          d, killed := EvalTerm(s, st);
          if killed {
            return;
          }
          v := if c == '+' then v + d else v - d;
        } else {
          run := 0;
        }
      }
    }
  }

  /** Returns exactly for the texts of the grammar, and then their value; aborts on every other text. */
  method EvalStr(s: string) returns (v: real, killed: bool)
    ensures !killed <==> Evaluate(s).Got?
    ensures !killed ==> exists e, k: nat :: s == ExprText(e) + Spaces(k) && ExprOk(e, Spaces(k)) && ExprValue(e) == v
    ensures forall e, k: nat :: Proper(e) && s == ExprText(e) + Spaces(k) ==> !killed && v == ExprValue(e)
  {
    var st := new int[1];
    st[0] := 1;
    assert Rest(s, st) == s;
    v, killed := EvalExpr(s, st);
    if !killed {
      SkipBlanks(s, st);
      killed := st[0] <= |s|;
    }
    if !killed {
      EvaluatesExactly(s, v);
    }
    forall e, k: nat | Proper(e) && s == ExprText(e) + Spaces(k) ensures !killed && v == ExprValue(e) {
      BalancedEvaluates(e, k);
    }
  }
}
