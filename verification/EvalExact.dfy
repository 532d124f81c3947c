/** The evaluator returns the value of every arithmetic text, and returns a value for no other text. */
module EvalExact {
  import opened EvalText
  import opened Numbers
  import opened Options
  import opened Sequences

  // ---- Pieces of text ----

  lemma {:induction false} SkipSpaces(n: nat, t: string)
    ensures Skip(Spaces(n) + t) == Skip(t)
  {
    if n == 0 {
      assert Spaces(0) + t == t;
    } else {
      assert (Spaces(n) + t)[1..] == Spaces(n - 1) + t;
      SkipSpaces(n - 1, t);
    }
  }

  lemma OneSpace(n: nat)
    ensures Spaces(n + 1) == [' '] + Spaces(n)
  {
  }

  // How many spaces the skip passes.
  lemma {:induction false} SkipIs(t: string) returns (n: nat)
    ensures t == Spaces(n) + Skip(t)
  {
    if t != "" && t[0] == ' ' {
      n := SkipIs(t[1..]);
      assert t == [' '] + t[1..];
      OneSpace(n);
      Assoc([' '], Spaces(n), Skip(t[1..]));
      n := n + 1;
    } else {
      n := 0;
    }
  }

  lemma SkipTwice(t: string)
    ensures Skip(Skip(t)) == Skip(t)
  {
  }

  lemma CharDigit(ds: seq<nat>, i: nat)
    requires AllDigits(ds) && i < |ds|
    ensures DigitOf(Chars(ds)[i]) == ds[i]
  {
  }

  lemma ChooseOne(ds: seq<nat>, rest: string)
    requires AllDigits(ds) && ds != []
    ensures var t := Chars(ds) + rest;
      StartsDigit(t) && DigitOf(t[0]) == ds[0] && t[1..] == Chars(ds[1..]) + rest
  {
    CharDigit(ds, 0);
    assert Chars(ds)[1..] == Chars(ds[1..]);
  }

  lemma NumSnoc(ds: seq<nat>, d: nat)
    ensures Num(ds + [d]) == Num(ds) * 10 + d
  {
    assert (ds + [d])[..|ds|] == ds;
  }

  lemma MoveOne(done: seq<nat>, ds: seq<nat>)
    requires ds != []
    ensures done + ds == done + [ds[0]] + ds[1..]
  {
  }

  lemma {:induction false} WholeReads(done: seq<nat>, ds: seq<nat>, rest: string)
    requires AllDigits(ds) && !StartsDigit(rest)
    ensures ReadWhole(Num(done) as real, Chars(ds) + rest) == Got(Num(done + ds) as real, rest)
    decreases |ds|
  {
    if ds == [] {
      assert Chars(ds) + rest == rest && done + ds == done;
    } else {
      ChooseOne(ds, rest);
      NumSnoc(done, ds[0]);
      MoveOne(done, ds);
      WholeReads(done + [ds[0]], ds[1..], rest);
    }
  }

  lemma TenthOf(p: real)
    requires p > 0.0
    ensures (1.0 / p) / 10.0 == 1.0 / (10.0 * p)
  {
    var q := 1.0 / p;
    assert q * p == 1.0;
    assert (q / 10.0) * (10.0 * p) == q * p;
  }

  lemma OverTen(n: real, d: real, p: real)
    requires p > 0.0
    ensures n / p + d * (1.0 / (10.0 * p)) == (n * 10.0 + d) / (10.0 * p)
  {
    var q := 1.0 / (10.0 * p);
    assert q * (10.0 * p) == 1.0;
    ByReciprocal(n, p, q);
    assert (n * 10.0 + d) / (10.0 * p) == (n * 10.0 + d) * q by { ByReciprocal(n * 10.0 + d, 10.0 * p, q); }
  }

  // Dividing is multiplying by the reciprocal.
  lemma ByReciprocal(x: real, y: real, q: real)
    requires y > 0.0 && (q * y == 1.0 || q * (10.0 * y) == 1.0)
    ensures q * y == 1.0 ==> x / y == x * q
    ensures q * (10.0 * y) == 1.0 ==> x / y == x * 10.0 * q
  {
    if q * y == 1.0 {
      assert (x * q) * y == x * (q * y);
    } else {
      assert (x * 10.0 * q) * y == x * (q * (10.0 * y));
    }
  }

  function PowReal(n: nat): (r: real)
    ensures r > 0.0
  {
    Pow10(n) as real
  }

  lemma FractionStep(w: real, n: nat, d: nat, k: nat)
    ensures w + n as real / PowReal(k) + d as real * ((1.0 / PowReal(k)) / 10.0) == w +
      (n * 10 + d) as real / PowReal(k + 1)
    ensures (1.0 / PowReal(k)) / 10.0 == 1.0 / PowReal(k + 1)
  {
    assert PowReal(k + 1) == 10.0 * PowReal(k);
    TenthOf(PowReal(k));
    OverTen(n as real, d as real, PowReal(k));
  }

  // The value and the scale after the digits `done` of a fraction.
  predicate At(v: real, scale: real, w: real, done: seq<nat>) {
    v == w + Num(done) as real / PowReal(|done|) && scale == 1.0 / PowReal(|done|)
  }

  lemma AtNext(v: real, scale: real, w: real, done: seq<nat>, d: nat)
    requires At(v, scale, w, done)
    ensures At(AddPlace(v, d, scale / 10.0), scale / 10.0, w, done + [d])
  {
    NumSnoc(done, d);
    FractionStep(w, Num(done), d, |done|);
  }

  // v is w and the fraction with the digits ds.
  predicate Ends(v: real, w: real, ds: seq<nat>) {
    v == w + Num(ds) as real / PowReal(|ds|)
  }

  lemma {:induction false} FractionReads(v: real, scale: real, w: real, done: seq<nat>, ds: seq<nat>, rest: string)
    requires AllDigits(ds) && !StartsDigit(rest) && At(v, scale, w, done)
    ensures var r := ReadFraction(v, scale, Chars(ds) + rest); r.rest == rest && Ends(r.v, w, done + ds)
    decreases |ds|
  {
    if ds == [] {
      assert Chars(ds) + rest == rest && done + ds == done;
    } else {
      ChooseOne(ds, rest);
      MoveOne(done, ds);
      var v', scale' := FractionTurn(v, scale, Chars(ds) + rest);
      AtNext(v, scale, w, done, ds[0]);
      FractionReads(v', scale', w, done + [ds[0]], ds[1..], rest);
    }
  }

  lemma FractionTurn(v: real, scale: real, t: string) returns (v': real, scale': real)
    requires StartsDigit(t)
    ensures v' == AddPlace(v, DigitOf(t[0]), scale / 10.0) && scale' == scale / 10.0
    ensures ReadFraction(v, scale, t) == ReadFraction(v', scale', t[1..])
  {
    scale' := scale / 10.0;
    v' := AddPlace(v, DigitOf(t[0]), scale');
  }

  lemma DotReads(w: real, ds: seq<nat>, rest: string)
    requires AllDigits(ds) && !StartsDigit(rest)
    ensures ReadFraction(w, 1.0, Chars(ds) + rest) == Got(w + Num(ds) as real / PowReal(|ds|), rest)
  {
    assert Num([]) as real / PowReal(0) == 0.0 && 1.0 / PowReal(0) == 1.0;
    FractionReads(w, 1.0, w, [], ds, rest);
    assert [] + ds == ds;
  }

  lemma WholeFirst(whole: seq<nat>, rest: string)
    requires AllDigits(whole) && !StartsDigit(rest)
    ensures ReadWhole(0.0, Chars(whole) + rest) == Got(Num(whole) as real, rest)
  {
    assert [] + whole == whole && Num([]) as real == 0.0;
    WholeReads([], whole, rest);
  }

  lemma DottedReads(whole: seq<nat>, frac: seq<nat>, rest: string)
    requires AllDigits(whole) && AllDigits(frac) && !StartsDigit(rest)
    ensures ReadNumber(Chars(whole) + ("." + (Chars(frac) + rest))) == Got(Decimal(whole, Some(frac)), rest)
  {
    var after := "." + (Chars(frac) + rest);
    WholeFirst(whole, after);
    assert after[1..] == Chars(frac) + rest;
    DotReads(Num(whole) as real, frac, rest);
  }

  lemma PlainReads(whole: seq<nat>, rest: string)
    requires AllDigits(whole) && !StartsDigit(rest) && !StartsWith(rest, '.')
    ensures ReadNumber(Chars(whole) + rest) == Got(Decimal(whole, None), rest)
  {
    WholeFirst(whole, rest);
  }

  // ---- Every tree of the grammar is read as its value ----

  predicate Starter(c: char) {
    DigitOf(c) >= 0 || c == '.'
  }

  lemma NumberReads(f: Factor, rest: string)
    requires f.Number? && FactorOk(f, rest)
    ensures ReadFactor(FactorText(f) + rest) == Got(FactorValue(f), rest)
  {
    var dotted := if f.frac.Some? then "." + Chars(f.frac.value) else "";
    var t := Chars(f.whole) + (dotted + rest);
    Assoc4(Spaces(f.sp), Chars(f.whole), dotted, rest);
    SkipSpaces(f.sp, t);
    NumberStarts(f, rest, t);
    if f.frac.Some? {
      Assoc(".", Chars(f.frac.value), rest);
      DottedReads(f.whole, f.frac.value, rest);
    } else {
      assert dotted + rest == rest;
      PlainReads(f.whole, rest);
    }
    NumberIs(FactorText(f) + rest, t);
  }

  lemma NumberStarts(f: Factor, rest: string, t: string)
    requires f.Number? && FactorOk(f, rest)
    requires t == Chars(f.whole) + ((if f.frac.Some? then "." + Chars(f.frac.value) else "") + rest)
    ensures t != "" && Starter(t[0]) && Skip(t) == t
  {
    if f.whole != [] {
      CharDigit(f.whole, 0);
    }
  }

  lemma NumberIs(text: string, t: string)
    requires Skip(text) == t && t != "" && Starter(t[0])
    ensures ReadFactor(text) == ReadNumber(t)
  {
  }

  lemma {:induction false} SignedReads(f: Factor, rest: string)
    requires f.Signed? && FactorOk(f, rest)
    ensures ReadFactor(FactorText(f) + rest) == Got(FactorValue(f), rest)
    decreases f, 0
  {
    var sign := if f.minus then "-" else "+";
    var t := sign + (FactorText(f.f) + rest);
    Assoc4(Spaces(f.sp), sign, FactorText(f.f), rest);
    SkipSpaces(f.sp, t);
    assert t[1..] == FactorText(f.f) + rest && Skip(t) == t;
    FactorReads(f.f, rest);
  }

  lemma {:induction false} GroupReads(f: Factor, rest: string)
    requires f.Group? && FactorOk(f, rest)
    ensures ReadFactor(FactorText(f) + rest) == Got(FactorValue(f), rest)
    decreases f, 0
  {
    var close := if f.closer.Some? then [f.closer.value] else "";
    var after := Spaces(f.gap) + (close + rest);
    var t := "(" + (ExprText(f.e) + after);
    GroupText(f, close, rest);
    SkipSpaces(f.sp, t);
    assert t[1..] == ExprText(f.e) + after && Skip(t) == t;
    ExprReads(f.e, after);
    SkipSpaces(f.gap, close + rest);
    CloseReads(f.closer, rest);
  }

  lemma GroupText(f: Factor, close: string, rest: string)
    requires f.Group? && close == if f.closer.Some? then [f.closer.value] else ""
    ensures FactorText(f) + rest == Spaces(f.sp) + ("(" + (ExprText(f.e) + (Spaces(f.gap) + (close + rest))))
  {
    var inner := Spaces(f.gap) + close;
    Assoc(Spaces(f.gap), close, rest);
    Assoc(ExprText(f.e), inner, rest);
    Assoc("(", ExprText(f.e) + inner, rest);
    Assoc(Spaces(f.sp), "(" + (ExprText(f.e) + inner), rest);
  }

  lemma CloseReads(closer: Option<char>, rest: string)
    requires if closer.Some? then closer.value != ' ' else rest == ""
    ensures var r := Skip((if closer.Some? then [closer.value] else "") + rest);
      (if r == "" then "" else r[1..]) == rest
  {
    if closer.Some? {
      assert ([closer.value] + rest)[1..] == rest;
    }
  }

  lemma {:induction false} FactorReads(f: Factor, rest: string)
    requires FactorOk(f, rest)
    ensures ReadFactor(FactorText(f) + rest) == Got(FactorValue(f), rest)
    decreases f, 1
  {
    match f
    case Number(_, _, _) => NumberReads(f, rest);
    case Signed(_, _, _) => SignedReads(f, rest);
    case Group(_, _, _, _) => GroupReads(f, rest);
    case Missing(sp) =>
      SkipSpaces(sp, "");
  }

  function TimesOp(v: real, div: bool, x: real): real {
    if div then Quotient(v, x) else Product(v, x)
  }

  /** What the routines compute is what the tree is worth. */
  lemma ComputesWorth(v: real, div: bool, x: real)
    ensures TimesOp(v, div, x) == Worth(v, div, x)
  {
  }

  function PlusOp(v: real, sub: bool, x: real): real {
    if sub then v - x else v + x
  }

  // One turn of the term loop.
  lemma TermTurn(v: real, sp: nat, div: bool, t: string, x: real, rest: string)
    requires ReadFactor(t) == Got(x, rest)
    ensures TermLoop(v, Spaces(sp) + ((if div then "/" else "*") + t)) == TermLoop(TimesOp(v, div, x), rest)
  {
    var next := (if div then "/" else "*") + t;
    SkipSpaces(sp, next);
    assert next[1..] == t && Skip(next) == next;
  }

  lemma ExprTurn(v: real, sp: nat, sub: bool, t: string, x: real, rest: string)
    requires ReadTerm(t) == Got(x, rest)
    ensures ExprLoop(v, Skip(Spaces(sp) + ((if sub then "-" else "+") + t))) == ExprLoop(PlusOp(v, sub, x), rest)
  {
    var next := (if sub then "-" else "+") + t;
    SkipSpaces(sp, next);
    assert next[1..] == t && Skip(next) == next;
  }

  lemma {:induction false} TermReads(t: Term, rest: string)
    requires TermOk(t, rest)
    ensures ReadTerm(TermText(t) + rest) == TermLoop(TermValue(t), rest)
    decreases t, 0
  {
    match t
    case One(f) => FactorReads(f, rest);
    case Times(u, sp, div, f) =>
      var op := if div then "/" else "*";
      TimesText(t, op, rest);
      TermReads(u, Spaces(sp) + (op + (FactorText(f) + rest)));
      FactorReads(f, rest);
      TermTurn(TermValue(u), sp, div, FactorText(f) + rest, FactorValue(f), rest);
      ComputesWorth(TermValue(u), div, FactorValue(f));
  }

  lemma TimesText(t: Term, op: string, rest: string)
    requires t.Times? && op == if t.div then "/" else "*"
    ensures TermText(t) + rest == TermText(t.t) + (Spaces(t.sp) + (op + (FactorText(t.f) + rest)))
  {
    Assoc(op, FactorText(t.f), rest);
    Assoc(Spaces(t.sp), op + FactorText(t.f), rest);
    Assoc(TermText(t.t), Spaces(t.sp) + (op + FactorText(t.f)), rest);
  }

  lemma PlusText(e: Expr, op: string, rest: string)
    requires e.Plus? && op == if e.sub then "-" else "+"
    ensures ExprText(e) + rest == ExprText(e.e) + (Spaces(e.sp) + (op + (TermText(e.t) + rest)))
  {
    Assoc(op, TermText(e.t), rest);
    Assoc(Spaces(e.sp), op + TermText(e.t), rest);
    Assoc(ExprText(e.e), Spaces(e.sp) + (op + TermText(e.t)), rest);
  }

  // A term that the term loop leaves: what it leaves has no spaces in front.
  lemma TermDone(t: Term, rest: string)
    requires ReadTerm(TermText(t) + rest) == TermLoop(TermValue(t), rest) && !TermGoesOn(rest)
    ensures ReadTerm(TermText(t) + rest) == Got(TermValue(t), Skip(rest))
  {
  }

  lemma {:induction false} PlusReads(v: real, sp: nat, sub: bool, t: Term, rest: string)
    requires TermOk(t, rest) && !TermGoesOn(rest)
    ensures ExprLoop(v, Skip(Spaces(sp) + ((if sub then "-" else "+") + (TermText(t) + rest))))
      == ExprLoop(PlusOp(v, sub, TermValue(t)), Skip(rest))
    decreases t, 1
  {
    TermReads(t, rest);
    TermDone(t, rest);
    ExprTurn(v, sp, sub, TermText(t) + rest, TermValue(t), Skip(rest));
  }

  lemma {:induction false} ExprReaches(e: Expr, rest: string)
    requires ExprShape(e, rest)
    ensures ReadExpr(ExprText(e) + rest) == ExprLoop(ExprValue(e), Skip(rest))
    decreases e, 0
  {
    match e
    case Single(t) =>
      TermReads(t, rest);
      TermDone(t, rest);
    case Plus(d, sp, sub, t) =>
      var op := if sub then "-" else "+";
      PlusText(e, op, rest);
      ExprReaches(d, Spaces(sp) + (op + (TermText(t) + rest)));
      PlusReads(ExprValue(d), sp, sub, t, rest);
  }

  lemma {:induction false} ExprReads(e: Expr, rest: string)
    requires ExprOk(e, rest)
    ensures ReadExpr(ExprText(e) + rest) == Got(ExprValue(e), Skip(rest))
    decreases e, 1
  {
    ExprReaches(e, rest);
    SkipTwice(rest);
  }

  // ---- A text with a value is a text of the grammar ----

  lemma {:induction false} FromDigits(t: string) returns (ds: seq<nat>, rest: string)
    ensures t == Chars(ds) + rest && AllDigits(ds) && !StartsDigit(rest)
    decreases |t|
  {
    if StartsDigit(t) {
      ds, rest := FromDigits(t[1..]);
      var d: nat := DigitOf(t[0]);
      assert Chars([d] + ds) == [t[0]] + Chars(ds);
      assert t == [t[0]] + t[1..];
      ds := [d] + ds;
    } else {
      ds, rest := [], t;
    }
  }

  // f stands at the head of text, before rest.
  ghost predicate FactorAt(f: Factor, text: string, rest: string) {
    text == FactorText(f) + rest && FactorOk(f, rest)
  }

  lemma FromNumber(sp: nat, t: string) returns (f: Factor, rest: string)
    requires t != "" && Starter(t[0])
    ensures FactorAt(f, Spaces(sp) + t, rest)
  {
    var whole, after := FromDigits(t);
    if StartsWith(after, '.') {
      var frac, r := FromDigits(after[1..]);
      rest := r;
      f := Number(sp, whole, Some(frac));
      assert after == "." + (Chars(frac) + r);
      Assoc(".", Chars(frac), r);
      Assoc4(Spaces(sp), Chars(whole), "." + Chars(frac), r);
    } else {
      rest := after;
      f := Number(sp, whole, None);
      assert Chars(whole) + "" == Chars(whole);
      Assoc(Spaces(sp), Chars(whole), rest);
      assert whole == [] ==> t == after;
    }
  }

  lemma JoinSign(sp: nat, t: string, g: Factor, rest: string) returns (f: Factor)
    requires t != "" && (t[0] == '-' || t[0] == '+') && FactorAt(g, t[1..], rest)
    ensures f == Signed(sp, t[0] == '-', g) && FactorAt(f, Spaces(sp) + t, rest)
  {
    f := Signed(sp, t[0] == '-', g);
    assert t == [t[0]] + t[1..];
    Assoc4(Spaces(sp), [t[0]], FactorText(g), rest);
  }

  lemma {:induction false} FromFactor(text: string) returns (f: Factor, rest: string)
    requires ReadFactor(text).Got?
    ensures FactorAt(f, text, rest) && rest == ReadFactor(text).rest
    decreases |text|, 0
  {
    var sp := SkipIs(text);
    var t := Skip(text);
    if t == "" {
      f, rest := Missing(sp), "";
    } else if t[0] == '(' {
      f, rest := FromGroup(sp, t[1..]);
      assert t == "(" + t[1..];
    } else if t[0] == '-' || t[0] == '+' {
      var g;
      g, rest := FromFactor(t[1..]);
      f := JoinSign(sp, t, g, rest);
    } else {
      f, rest := FromNumber(sp, t);
      FactorReads(f, rest);
    }
  }

  lemma {:induction false} FromGroup(sp: nat, t: string) returns (f: Factor, rest: string)
    requires ReadExpr(t).Got?
    ensures FactorAt(f, Spaces(sp) + ("(" + t), rest)
    ensures var r := Skip(ReadExpr(t).rest); rest == if r == "" then "" else r[1..]
    decreases |t|, 5
  {
    var e, tail := FromExpr(t);
    var r := Skip(ReadExpr(t).rest);
    SkipTwice(tail);
    var gap := SkipIs(tail);
    rest := if r == "" then "" else r[1..];
    var closer := if r == "" then None else Some(r[0]);
    f := Group(sp, e, gap, closer);
    var close := if closer.Some? then [closer.value] else "";
    assert r == close + rest;
    GroupText(f, close, rest);
  }

  lemma {:induction false} FromTerm(text: string) returns (t: Term, tail: string)
    requires ReadTerm(text).Got?
    ensures text == TermText(t) + tail && TermOk(t, tail) && !TermGoesOn(tail) && Skip(tail) == ReadTerm(text).rest
    decreases |text|, 2
  {
    var f, rest := FromFactor(text);
    t, tail := FromTermLoop(ReadFactor(text).v, One(f), rest);
  }

  lemma {:induction false} FromTermLoop(v: real, u: Term, text: string) returns (t: Term, tail: string)
    requires TermLoop(v, text).Got? && TermOk(u, text)
    ensures TermText(u) + text == TermText(t) + tail && TermOk(t, tail) && !TermGoesOn(tail) &&
      Skip(tail) == TermLoop(v, text).rest
    decreases |text|, 1
  {
    if TermGoesOn(text) {
      var sp := SkipIs(text);
      var s := Skip(text);
      var f, rest := FromFactor(s[1..]);
      var w := Times(u, sp, s[0] == '/', f);
      assert s == [s[0]] + s[1..];
      TimesText(w, [s[0]], rest);
      var x := ReadFactor(s[1..]).v;
      t, tail := FromTermLoop(TimesOp(v, s[0] == '/', x), w, rest);
    } else {
      t, tail := u, text;
    }
  }

  lemma {:induction false} FromExpr(text: string) returns (e: Expr, tail: string)
    requires ReadExpr(text).Got?
    ensures text == ExprText(e) + tail && ExprOk(e, tail) && Skip(tail) == ReadExpr(text).rest
    decreases |text|, 4
  {
    var t, rest := FromTerm(text);
    e, tail := FromExprLoop(ReadTerm(text).v, Single(t), rest);
  }

  lemma {:induction false} FromExprLoop(v: real, d: Expr, text: string) returns (e: Expr, tail: string)
    requires ExprLoop(v, Skip(text)).Got? && ExprShape(d, text)
    ensures ExprText(d) + text == ExprText(e) + tail && ExprOk(e, tail) && Skip(tail) == ExprLoop(v, Skip(text)).rest
    decreases |text|, 3
  {
    SkipTwice(text);
    if ExprGoesOn(text) {
      var sp := SkipIs(text);
      var s := Skip(text);
      var t, rest := FromTerm(s[1..]);
      var w := Plus(d, sp, s[0] == '-', t);
      assert s == [s[0]] + s[1..];
      PlusText(w, [s[0]], rest);
      var x := ReadTerm(s[1..]).v;
      e, tail := FromExprLoop(PlusOp(v, s[0] == '-', x), w, rest);
    } else {
      e, tail := d, text;
    }
  }

  /** eval returns v for a text exactly when the text is an expression of the grammar, spaces anywhere between
      its parts and after it, whose value is v. */
  lemma EvaluatesExactly(text: string, v: real)
    ensures Evaluate(text) == Got(v, "") <==>
      exists e, k: nat :: text == ExprText(e) + Spaces(k) && ExprOk(e, Spaces(k)) && ExprValue(e) == v
  {
    if Evaluate(text) == Got(v, "") {
      var e, tail := FromExpr(text);
      var k := SkipIs(tail);
      SkipTwice(tail);
      assert tail == Spaces(k);
      ExprReads(e, tail);
    }
    if e, k: nat :| text == ExprText(e) + Spaces(k) && ExprOk(e, Spaces(k)) && ExprValue(e) == v {
      ExprReads(e, Spaces(k));
      SkipAll(k);
    }
  }

  lemma SkipAll(k: nat)
    ensures Skip(Spaces(k)) == ""
  {
    SkipSpaces(k, "");
    assert Spaces(k) + "" == Spaces(k);
  }

  // ---- Balanced texts ----

  // Every group is closed by ')' and no operand is missing.
  predicate Proper(e: Expr) {
    match e
    case Single(t) => ProperTerm(t)
    case Plus(d, _, _, t) => Proper(d) && ProperTerm(t)
  }

  predicate ProperTerm(t: Term) {
    match t
    case One(f) => ProperFactor(f)
    case Times(u, _, _, f) => ProperTerm(u) && ProperFactor(f)
  }

  predicate ProperFactor(f: Factor) {
    match f
    case Number(_, whole, frac) => AllDigits(whole) && (frac.Some? ==> AllDigits(frac.value)) &&
      (whole != [] || frac.Some?)
    case Signed(_, _, g) => ProperFactor(g)
    case Group(_, e, _, closer) => Proper(e) && closer == Some(')')
    case Missing(_) => false
  }

  predicate Boundary(rest: string) {
    rest == "" || rest[0] in " +-*/)"
  }

  lemma {:induction false} ProperFactorOk(f: Factor, rest: string)
    requires ProperFactor(f) && Boundary(rest)
    ensures FactorOk(f, rest)
    decreases f, 0
  {
    match f
    case Number(_, _, _) =>
    case Signed(_, _, g) => ProperFactorOk(g, rest);
    case Group(_, e, gap, _) =>
      SkipSpaces(gap, ")" + rest);
      ProperOk(e, Spaces(gap) + (")" + rest));
  }

  lemma {:induction false} ProperTermOk(t: Term, rest: string)
    requires ProperTerm(t) && Boundary(rest)
    ensures TermOk(t, rest)
    decreases t, 0
  {
    match t
    case One(f) => ProperFactorOk(f, rest);
    case Times(u, sp, div, f) =>
      ProperFactorOk(f, rest);
      ProperTermOk(u, Spaces(sp) + ((if div then "/" else "*") + (FactorText(f) + rest)));
  }

  lemma {:induction false} ProperShape(e: Expr, rest: string)
    requires Proper(e) && Boundary(rest) && !TermGoesOn(rest)
    ensures ExprShape(e, rest)
    decreases e, 0
  {
    match e
    case Single(t) => ProperTermOk(t, rest);
    case Plus(d, sp, sub, t) =>
      var after := (if sub then "-" else "+") + (TermText(t) + rest);
      ProperTermOk(t, rest);
      SkipSpaces(sp, after);
      ProperShape(d, Spaces(sp) + after);
  }

  lemma {:induction false} ProperOk(e: Expr, rest: string)
    requires Proper(e) && Boundary(rest) && !TermGoesOn(rest) && !ExprGoesOn(rest)
    ensures ExprOk(e, rest)
    decreases e, 1
  {
    ProperShape(e, rest);
  }

  /** Every balanced arithmetic text, with any spaces between its parts, evaluates to its value. */
  lemma BalancedEvaluates(e: Expr, k: nat)
    requires Proper(e)
    ensures Evaluate(ExprText(e) + Spaces(k)) == Got(ExprValue(e), "")
  {
    SkipAll(k);
    ProperOk(e, Spaces(k));
    EvaluatesExactly(ExprText(e) + Spaces(k), ExprValue(e));
  }

  // The text 1 as an expression, before the character c.
  lemma OneBefore(c: char) returns (e: Expr)
    requires c != ' ' && c != '.' && c != '+' && c != '-' && c != '*' && c != '/' && DigitOf(c) < 0
    ensures ExprText(e) == "1" && ExprOk(e, [c]) && ExprValue(e) == 1.0
  {
    var one := Number(0, [1], None);
    e := Single(One(one));
    assert Spaces(0) == "" && Chars([1]) == "1" && FactorText(one) == "1";
    NumSnoc([], 1);
    assert [] + [1] == [1];
  }

  /** A group need not be closed by ')': any character that cannot continue it closes it. */
  lemma AnyCloser(c: char)
    requires c != ' ' && c != '.' && c != '+' && c != '-' && c != '*' && c != '/' && DigitOf(c) < 0
    ensures Evaluate("(1" + [c]) == Got(1.0, "")
  {
    var inner := OneBefore(c);
    var f := Group(0, inner, 0, Some(c));
    assert Spaces(0) == "" && Spaces(0) + ([c] + "") == [c];
    GroupText(f, [c], "");
    assert FactorText(f) + "" == "(1" + [c];
    FactorReads(f, "");
    var text := "(1" + [c];
    assert ReadFactor(text) == Got(1.0, "") && Skip("") == "";
    assert TermLoop(1.0, "") == Got(1.0, "") && ExprLoop(1.0, "") == Got(1.0, "");
    assert ReadTerm(text) == Got(1.0, "");
    assert ReadExpr(text) == Got(1.0, "");
  }

  // ---- Plain arithmetic trees ----

  datatype Tree =
    | Lit(whole: seq<nat>, frac: Option<seq<nat>>)
    | Minus(a: Tree)
    | Sum(a: Tree, sub: bool, b: Tree)
    | Prod(a: Tree, div: bool, b: Tree)

  function TreeValue(t: Tree): real {
    match t
    case Lit(whole, frac) => Decimal(whole, frac)
    case Minus(a) => -TreeValue(a)
    case Sum(a, sub, b) => if sub then TreeValue(a) - TreeValue(b) else TreeValue(a) + TreeValue(b)
    case Prod(a, div, b) => Worth(TreeValue(a), div, TreeValue(b))
  }

  predicate GoodTree(t: Tree) {
    match t
    case Lit(whole, frac) => AllDigits(whole) && (frac.Some? ==> AllDigits(frac.value)) && (whole != [] || frac.Some?)
    case Minus(a) => GoodTree(a)
    case Sum(a, _, b) => GoodTree(a) && GoodTree(b)
    case Prod(a, _, b) => GoodTree(a) && GoodTree(b)
  }

  // Parentheses only where the levels need them; n spaces before every part.
  function AsExpr(t: Tree, n: nat): Expr
    decreases t, 2
  {
    if t.Sum? then Plus(AsExpr(t.a, n), n, t.sub, AsTerm(t.b, n)) else Single(AsTerm(t, n))
  }

  function AsTerm(t: Tree, n: nat): Term
    decreases t, 1
  {
    if t.Prod? then Times(AsTerm(t.a, n), n, t.div, AsFactor(t.b, n)) else One(AsFactor(t, n))
  }

  function AsFactor(t: Tree, n: nat): Factor
    decreases t, 0
  {
    match t
    case Lit(whole, frac) => Number(n, whole, frac)
    case Minus(a) => Signed(n, true, AsFactor(a, n))
    case Sum(a, sub, b) => Group(n, Plus(AsExpr(a, n), n, sub, AsTerm(b, n)), n, Some(')'))
    case Prod(a, div, b) => Group(n, Single(Times(AsTerm(a, n), n, div, AsFactor(b, n))), n, Some(')'))
  }

  lemma {:induction false} TreeParts(t: Tree, n: nat)
    requires GoodTree(t)
    ensures ExprValue(AsExpr(t, n)) == TermValue(AsTerm(t, n)) == FactorValue(AsFactor(t, n)) == TreeValue(t)
    ensures Proper(AsExpr(t, n)) && ProperTerm(AsTerm(t, n)) && ProperFactor(AsFactor(t, n))
  {
    match t
    case Lit(_, _) =>
    case Minus(a) => TreeParts(a, n);
    case Sum(a, _, b) =>
      TreeParts(a, n);
      TreeParts(b, n);
    case Prod(a, _, b) =>
      TreeParts(a, n);
      TreeParts(b, n);
  }

  /** Printing any arithmetic tree and evaluating the text gives the tree's value: left-associative, x/0 = 0. */
  lemma TreeEvaluates(t: Tree, n: nat)
    requires GoodTree(t)
    ensures Evaluate(ExprText(AsExpr(t, n)) + Spaces(n)) == Got(TreeValue(t), "")
  {
    TreeParts(t, n);
    BalancedEvaluates(AsExpr(t, n), n);
  }
}
