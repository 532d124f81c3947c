/** The text evaluator behind eval: what it reads, over the reals, and exactly which texts it accepts. */
module EvalText {

  import opened Numbers
  import opened Options

  // -1 for everything that is no digit.
  function DigitOf(c: char): (d: int)
    ensures -1 <= d < 10
  {
    if '0' <= c <= '9' then c as int - '0' as int else -1
  }

  function Skip(t: string): (r: string)
    ensures |r| <= |t| && (r != "" ==> r[0] != ' ')
  {
    if t != "" && t[0] == ' ' then Skip(t[1..]) else t
  }

  predicate StartsWith(t: string, c: char) {
    t != "" && t[0] == c
  }

  predicate StartsDigit(t: string) {
    t != "" && DigitOf(t[0]) >= 0
  }

  // Kill: the program aborts.
  datatype Read = Got(v: real, rest: string) | Kill

  function ReadWhole(v: real, t: string): (r: Read)
    ensures r.Got? && |r.rest| <= |t|
    decreases |t|
  {
    if StartsDigit(t) then ReadWhole(v * 10.0 + DigitOf(t[0]) as real, t[1..]) else Got(v, t)
  }

  // v and a digit of the given place.
  function AddPlace(v: real, d: int, scale: real): real {
    v + d as real * scale
  }

  function ReadFraction(v: real, scale: real, t: string): (r: Read)
    ensures r.Got? && |r.rest| <= |t|
    decreases |t|
  {
    if StartsDigit(t) then ReadFraction(AddPlace(v, DigitOf(t[0]), scale / 10.0), scale / 10.0, t[1..]) else Got(v, t)
  }

  function ReadNumber(t: string): (r: Read)
    ensures r.Got? && |r.rest| <= |t|
  {
    var w := ReadWhole(0.0, t);
    if StartsWith(w.rest, '.') then ReadFraction(w.v, 1.0, w.rest[1..]) else w
  }

  function ReadFactor(text: string): (r: Read)
    ensures r.Got? ==> |r.rest| <= |text|
    decreases |text|, 0
  {
    var t := Skip(text);
    if t == "" then Got(0.0, "")
    else if t[0] == '(' then
      match ReadExpr(t[1..])
      case Got(v, rest) =>
        var r := Skip(rest);
        Got(v, if r == "" then "" else r[1..])
      case Kill => Kill
    else if t[0] == '-' then
      match ReadFactor(t[1..])
      case Got(v, rest) => Got(0.0 - v, rest)
      case Kill => Kill
    else if t[0] == '+' then ReadFactor(t[1..])
    else if DigitOf(t[0]) < 0 && t[0] != '.' then Kill
    else ReadNumber(t)
  }

  function Product(a: real, b: real): real {
    a * b
  }

  function Quotient(a: real, b: real): real {
    if b == 0.0 then 0.0 else a / b
  }

  function TermLoop(v: real, text: string): (r: Read)
    ensures r.Got? ==> |r.rest| <= |text|
    decreases |text|, 1
  {
    var t := Skip(text);
    if StartsWith(t, '*') || StartsWith(t, '/') then
      match ReadFactor(t[1..])
      case Got(x, rest) => TermLoop(if t[0] == '*' then Product(v, x) else Quotient(v, x), rest)
      case Kill => Kill
    else Got(v, t)
  }

  function ReadTerm(text: string): (r: Read)
    ensures r.Got? ==> |r.rest| <= |text|
    decreases |text|, 2
  {
    match ReadFactor(text)
    case Got(v, rest) => TermLoop(v, rest)
    case Kill => Kill
  }

  function ExprLoop(v: real, text: string): (r: Read)
    ensures r.Got? ==> |r.rest| <= |text|
    decreases |text|, 3
  {
    var t := Skip(text);
    if StartsWith(t, '+') || StartsWith(t, '-') then
      match ReadTerm(t[1..])
      case Got(x, rest) => ExprLoop(if t[0] == '+' then v + x else v - x, rest)
      case Kill => Kill
    else Got(v, t)
  }

  function ReadExpr(text: string): (r: Read)
    ensures r.Got? ==> |r.rest| <= |text|
    decreases |text|, 4
  {
    match ReadTerm(text)
    case Got(v, rest) => ExprLoop(v, rest)
    case Kill => Kill
  }

  // The whole text has to be used up.
  function Evaluate(text: string): Read {
    match ReadExpr(text)
    case Got(v, rest) => if Skip(rest) == "" then Got(v, "") else Kill
    case Kill => Kill
  }

  // ---- Texts as trees, spaces included ----

  datatype Factor =
    | Number(sp: nat, whole: seq<nat>, frac: Option<seq<nat>>)
    | Signed(sp: nat, minus: bool, f: Factor)
    | Group(sp: nat, e: Expr, gap: nat, closer: Option<char>)
    | Missing(sp: nat)                    // the text ends here; counts as 0

  datatype Term = One(f: Factor) | Times(t: Term, sp: nat, div: bool, f: Factor)

  datatype Expr = Single(t: Term) | Plus(e: Expr, sp: nat, sub: bool, t: Term)

  function Spaces(n: nat): (t: string)
    ensures |t| == n && forall i :: 0 <= i < n ==> t[i] == ' '
  {
    seq(n, i => ' ')
  }

  function Chars(ds: seq<nat>): (t: string)
    ensures |t| == |ds|
  {
    seq(|ds|, i requires 0 <= i < |ds| => if ds[i] < 10 then '0' + ds[i] as char else '0')
  }

  function FactorText(f: Factor): string {
    match f
    case Number(sp, whole, frac) => Spaces(sp) + (Chars(whole) + if frac.Some? then "." + Chars(frac.value) else "")
    case Signed(sp, minus, g) => Spaces(sp) + ((if minus then "-" else "+") + FactorText(g))
    case Group(sp, e, gap, closer) => Spaces(sp) +
      ("(" + (ExprText(e) + (Spaces(gap) + if closer.Some? then [closer.value] else "")))
    case Missing(sp) => Spaces(sp)
  }

  function TermText(t: Term): string {
    match t
    case One(f) => FactorText(f)
    case Times(u, sp, div, f) => TermText(u) + (Spaces(sp) + ((if div then "/" else "*") + FactorText(f)))
  }

  function ExprText(e: Expr): string {
    match e
    case Single(t) => TermText(t)
    case Plus(d, sp, sub, t) => ExprText(d) + (Spaces(sp) + ((if sub then "-" else "+") + TermText(t)))
  }

  // The decimal number with these digits before and after the point.
  function Decimal(whole: seq<nat>, frac: Option<seq<nat>>): real {
    match frac
    case None => Num(whole) as real
    case Some(ds) => Num(whole) as real + Num(ds) as real / Pow10(|ds|) as real
  }

  // What `a * b` and `a / b` are worth: as in arithmetic, and dividing by 0 gives 0. No routine calls this.
  function Worth(a: real, div: bool, b: real): real {
    if !div then a * b else if b == 0.0 then 0.0 else a / b
  }

  function FactorValue(f: Factor): real {
    match f
    case Number(_, whole, frac) => Decimal(whole, frac)
    case Signed(_, minus, g) => if minus then -FactorValue(g) else FactorValue(g)
    case Group(_, e, _, _) => ExprValue(e)
    case Missing(_) => 0.0
  }

  function TermValue(t: Term): real {
    match t
    case One(f) => FactorValue(f)
    case Times(u, _, div, f) => Worth(TermValue(u), div, FactorValue(f))
  }

  function ExprValue(e: Expr): real {
    match e
    case Single(t) => TermValue(t)
    case Plus(d, _, sub, t) => if sub then ExprValue(d) - TermValue(t) else ExprValue(d) + TermValue(t)
  }

  // ---- Which trees the evaluator reads before a given rest of the text ----

  predicate TermGoesOn(rest: string) {
    StartsWith(Skip(rest), '*') || StartsWith(Skip(rest), '/')
  }

  predicate ExprGoesOn(rest: string) {
    StartsWith(Skip(rest), '+') || StartsWith(Skip(rest), '-')
  }

  // A group closes with any one character that cannot continue it, or with the end of the text.
  predicate FactorOk(f: Factor, rest: string)
    decreases f, 0
  {
    match f
    case Number(_, whole, frac) =>
      && AllDigits(whole) && (whole != [] || frac.Some?) && !StartsDigit(rest)
      && (if frac.Some? then AllDigits(frac.value) else !StartsWith(rest, '.'))
    case Signed(_, _, g) => FactorOk(g, rest)
    case Group(_, e, gap, closer) =>
      && ExprOk(e, Spaces(gap) + ((if closer.Some? then [closer.value] else "") + rest))
      && (if closer.Some? then closer.value != ' ' else rest == "")
    case Missing(_) => rest == ""
  }

  predicate TermOk(t: Term, rest: string)
    decreases t, 0
  {
    match t
    case One(f) => FactorOk(f, rest)
    case Times(u, sp, div, f) =>
      TermOk(u, Spaces(sp) + ((if div then "/" else "*") + (FactorText(f) + rest))) && FactorOk(f, rest)
  }

  predicate ExprShape(e: Expr, rest: string)
    decreases e, 0
  {
    match e
    case Single(t) => TermOk(t, rest) && !TermGoesOn(rest)
    case Plus(d, sp, sub, t) =>
      && ExprShape(d, Spaces(sp) + ((if sub then "-" else "+") + (TermText(t) + rest)))
      && TermOk(t, rest) && !TermGoesOn(rest)
  }

  predicate ExprOk(e: Expr, rest: string)
    decreases e, 1
  {
    ExprShape(e, rest) && !ExprGoesOn(rest)
  }
}
