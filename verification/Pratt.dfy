/** The expression grammar and the precedence-climbing parser that reads it, on token lists. */
module Pratt {
  import opened Options

  datatype Op =
    | Or | Xor | And | Bor | Bxor | Band
    | Is | Has | NotEq | Lt | Gt | Le | Ge | Overlap | Wild
    | Plus | Minus | Xsub
    | Times | Slash | DSlash | TSlash | At | Ptm | Ptd
    | Caret

  datatype UnOp = Neg | Not | Bnot | Length

  datatype Token =
    | TLit(lit: nat)
    | TName(name: nat)
    | TOp(op: Op)                          // Minus is the unary sign as well, Plus is a name where an operand stands
    | TNot | THash | TTilde | TBnot | TLength
    | TIn | THashPipe
    | TLParen | TRParen | TLBracket | TRBracket
    | TComma | TPipe | TSemi | TDot
    | TBreak                               // newline or dedent
    | TClose                               // closing brace or colon
    | TEof
    | TKeyword                             // `if`, `return` and the like, or an opening tag: a statement starts here
    | TForm                                // a keyword or bracket that starts a form outside this model
    | TOther                               // any other token: no expression starts or goes on with it

  // What a name node holds. The lexer hands over a plus sign as an identifier spelled "+".
  datatype Ident = Word(id: nat) | PlusSign

  // Null is the parser's null pointer: no expression there.
  datatype Expr =
    | Null
    | Lit(lit: nat)
    | Name(name: Ident)
    | Un(u: UnOp, x: Expr)
    | Bin(op: Op, l: Expr, r: Expr)
    | Tern(c: Expr, t: Expr, f: Expr)
    | Tuple(elems: Exprs, kind: Kind)
    | Call(name: Ident, args: Exprs)
    | Index(name: Ident, at: Expr)

  datatype Exprs = Nil | Cons(head: Expr, tail: Exprs)

  // The type written after ';' in a tuple literal.
  datatype Kind = Plain | Of(typ: nat)

  // The names 0..4 are `any`, `int`, `dec`, `string` and `bool`, which may follow ';'. The parser lists three more, but
  // the lexer makes keywords of them, and a keyword is refused there.
  predicate TypeName(k: nat) {
    k < 5
  }

  function OpPrec(op: Op): (q: nat)
    ensures 1 <= q <= 10
  {
    match op
    case Or => 1
    case Xor => 2
    case And => 3
    case Bor => 4
    case Bxor => 5
    case Band => 6
    case Plus => 8
    case Minus => 8
    case Xsub => 8
    case Times => 9
    case Slash => 9
    case DSlash => 9
    case TSlash => 9
    case At => 9
    case Ptm => 9
    case Ptd => 9
    case Caret => 10
    case _ => 7
  }

  // The level at which the loop sees a token; 0 for everything that is no infix operator.
  function Prec(t: Token): nat {
    match t
    case TOp(op) => OpPrec(op)
    case TIn => 7
    case THashPipe => 5
    case _ => 0
  }

  predicate RightAssoc(op: Op) {
    op == Caret
  }

  // The level at which the right operand is parsed.
  function RightSlot(op: Op): (q: nat)
    ensures 1 <= q <= 9
  {
    if RightAssoc(op) then OpPrec(op) - 1 else OpPrec(op)
  }

  // The level at which a unary operator parses its operand.
  function UnSlot(u: UnOp): nat {
    if u == Not then 3 else 9
  }

  function Head(toks: seq<Token>): Token {
    if toks == [] then TEof else toks[0]
  }

  // A token at which there is no expression.
  predicate Terminator(t: Token) {
    t == TBreak || t == TClose || t == TEof || t == TRParen || t == TRBracket || t == TComma
  }

  // A token at which the parser takes up again after an error.
  predicate Halts(t: Token) {
    t == TBreak || t == TEof || t == TKeyword
  }

  // ---- The parser ----

  // How many more errors end the parse: the last one of them is thrown.
  type Limit = n: int | n > 0 witness 1

  // Done may have reported errors on the way: the limit says how many are left. Fail: an error was thrown.
  // Loops: a call's argument loop makes no progress. Outside: a form that is not modelled.
  datatype Outcome<+T> = Done(tree: T, rest: seq<Token>, lim: Limit) | Fail | Loops | Outside {
    // The same failure for another kind of tree.
    function As<U>(): Outcome<U>
      requires !Done?
    {
      match this
      case Fail => Fail
      case Loops => Loops
      case Outside => Outside
    }
  }

  function Report<T>(x: T, toks: seq<Token>, lim: Limit): Outcome<T> {
    if lim == 1 then Fail else Done(x, toks, lim - 1)
  }

  // The tokens from the next one at which the parser takes up again.
  function Resync(toks: seq<Token>): (rest: seq<Token>)
    ensures |rest| <= |toks| && Halts(Head(rest))
  {
    if Halts(Head(toks)) then toks else Resync(toks[1..])
  }

  // The token t is wanted here. A missing one is reported, and what stands before the next line is dropped.
  function Expect<T>(x: T, t: Token, toks: seq<Token>, lim: Limit): (o: Outcome<T>)
    requires t != TEof
    ensures !o.Loops? && !o.Outside? && (o.Done? ==> o.tree == x && |o.rest| <= |toks| && o.lim <= lim)
  {
    if Head(toks) == t then Done(x, toks[1..], lim) else Report(x, Resync(toks), lim)
  }

  function UnaryOf(t: Token): Option<UnOp> {
    match t
    case TOp(op) => if op == Minus then Some(Neg) else None
    case TNot => Some(Not)
    case THash => Some(Not)
    case TTilde => Some(Bnot)
    case TBnot => Some(Bnot)
    case TLength => Some(Length)
    case _ => None
  }

  function ParsePrefix(toks: seq<Token>, lim: Limit): (o: Outcome<Expr>)
    ensures o.Done? ==> |o.rest| <= |toks| && o.lim <= lim && (o.tree != Null ==> |o.rest| < |toks|)
    decreases |toks|, lim, 2
  {
    var t := Head(toks);
    if Terminator(t) then Done(Null, toks, lim)
    else if UnaryOf(t).Some? then ParseUnary(UnaryOf(t).value, toks[1..], lim)
    else
      match t
      case TLParen => ParseGroup(toks[1..], lim)
      case TLit(k) => Done(Lit(k), toks[1..], lim)
      case TName(k) => ParseName(Word(k), toks[1..], lim)
      case TOp(op) => if op == Plus then ParseName(PlusSign, toks[1..], lim) else Report(Null, toks, lim)
      case TForm => Outside
      case TLBracket => Outside
      case _ => Report(Null, toks, lim)
  }

  function ParseUnary(u: UnOp, toks: seq<Token>, lim: Limit): (o: Outcome<Expr>)
    ensures o.Done? ==> |o.rest| <= |toks| && o.lim <= lim
    decreases |toks|, lim, 5
  {
    var x := ParseExpr(toks, UnSlot(u), lim);
    if x.Done? then Done(Un(u, x.tree), x.rest, x.lim) else x
  }

  // After '(': grouping, or a tuple when a comma follows the first expression.
  function ParseGroup(toks: seq<Token>, lim: Limit): (o: Outcome<Expr>)
    ensures o.Done? ==> |o.rest| <= |toks| && o.lim <= lim
    decreases |toks|, lim, 5
  {
    var x := ParseExpr(toks, 0, lim);
    if !x.Done? then x
    else if Head(x.rest) == TComma then ParseTuple(x.tree, x.rest, x.lim)
    else Expect(x.tree, TRParen, x.rest, x.lim)
  }

  // The tuple after its first element; a null element is dropped.
  function ParseTuple(first: Expr, toks: seq<Token>, lim: Limit): (o: Outcome<Expr>)
    requires Head(toks) == TComma
    ensures o.Done? ==> |o.rest| <= |toks| && o.lim <= lim
    decreases |toks|, lim, 4
  {
    var es := ParseElems(toks, lim);
    if es.Done? then CloseTuple(Add(first, es.tree), es.rest, es.lim) else es.As()
  }

  function Add(e: Expr, es: Exprs): Exprs {
    if e == Null then es else Cons(e, es)
  }

  function CloseTuple(es: Exprs, toks: seq<Token>, lim: Limit): (o: Outcome<Expr>)
    ensures !o.Loops? && !o.Outside? && (o.Done? ==> |o.rest| <= |toks| && o.lim <= lim)
  {
    if Head(toks) != TSemi then Expect(Tuple(es, Plain), TRParen, toks, lim)
    else
      var rest := toks[1..];
      if Head(rest).TName? && TypeName(Head(rest).name) then Expect(Tuple(es, Of(Head(rest).name)), TRParen, rest[1..],
        lim)
      else Fail
  }

  function ParseElems(toks: seq<Token>, lim: Limit): (o: Outcome<Exprs>)
    requires Head(toks) == TComma
    ensures o.Done? ==> |o.rest| < |toks| && o.lim <= lim
    decreases |toks|, lim, 3
  {
    var r := toks[1..];
    if Head(r) == TRParen then Done(Nil, r, lim)
    else
      var x := ParseExpr(r, 0, lim);
      if !x.Done? then x.As()
      else if Head(x.rest) != TComma then Done(Add(x.tree, Nil), x.rest, x.lim)
      else
        var es := ParseElems(x.rest, x.lim);
        if es.Done? then Done(Add(x.tree, es.tree), es.rest, es.lim) else es
  }

  function ParseName(k: Ident, toks: seq<Token>, lim: Limit): (o: Outcome<Expr>)
    ensures o.Done? ==> |o.rest| <= |toks| && o.lim <= lim
    decreases |toks|, lim, 5
  {
    match Head(toks)
    case TDot => Outside
    case TLParen =>
      var es := ParseArgs(toks[1..], lim);
      if es.Done? then Done(Call(k, es.tree), es.rest, es.lim) else es.As()
    case TLBracket =>
      var x := ParseExpr(toks[1..], 0, lim);
      if x.Done? then CloseIndex(Expect(Index(k, x.tree), TRBracket, x.rest, x.lim)) else x
    case _ => Done(Name(k), toks, lim)
  }

  // A call of an element is outside.
  function CloseIndex(o: Outcome<Expr>): Outcome<Expr> {
    if o.Done? && Head(o.rest) == TLParen then Outside else o
  }

  // One turn of a call's argument loop: an expression, then a comma if there is one.
  function ArgTurn(toks: seq<Token>, lim: Limit): (o: Outcome<Expr>)
    ensures o.Done? ==> |o.rest| <= |toks| && o.lim <= lim
    decreases |toks|, lim, 5
  {
    var x := ParseExpr(toks, 0, lim);
    if x.Done? && Head(x.rest) == TComma then Done(x.tree, x.rest[1..], x.lim) else x
  }

  // The loop ends at ')' or at the end of the file; there the ')' is missing. A turn that neither consumes a token nor
  // reports an error is repeated for ever.
  function ParseArgs(toks: seq<Token>, lim: Limit): (o: Outcome<Exprs>)
    ensures o.Done? ==> |o.rest| <= |toks| && o.lim <= lim
    decreases |toks|, lim, 6
  {
    if Head(toks) == TRParen then Done(Nil, toks[1..], lim)
    else if Head(toks) == TEof then Report(Nil, toks, lim)
    else
      var x := ArgTurn(toks, lim);
      if !x.Done? then x.As()
      else if |x.rest| == |toks| && x.lim == lim then Loops
      else
        var es := ParseArgs(x.rest, x.lim);
        if es.Done? then Done(Cons(x.tree, es.tree), es.rest, es.lim) else es
  }

  function ParseExpr(toks: seq<Token>, p: nat, lim: Limit): (o: Outcome<Expr>)
    ensures o.Done? ==> |o.rest| <= |toks| && o.lim <= lim && (o.tree != Null ==> |o.rest| < |toks|)
    decreases |toks|, lim, 4
  {
    var x := ParsePrefix(toks, lim);
    if x.Done? && x.tree != Null then ParseLoop(x.tree, x.rest, p, x.lim) else x
  }

  // The loop over infix operators, with what has been built so far.
  function ParseLoop(x: Expr, toks: seq<Token>, p: nat, lim: Limit): (o: Outcome<Expr>)
    requires x != Null
    ensures o.Done? ==> |o.rest| <= |toks| && o.lim <= lim && o.tree != Null
    decreases |toks|, lim, 3
  {
    if Prec(Head(toks)) <= p then ParseTernary(x, toks, p, lim)
    else
      var y := ParseInfix(x, toks, lim);
      if y.Done? then ParseLoop(y.tree, y.rest, p, y.lim) else y
  }

  predicate IsOperator(t: Token) {
    t.TOp? || t == TIn
  }

  // `x in y` is `y has x`.
  function OpOf(t: Token): Op
    requires IsOperator(t)
  {
    if t.TOp? then t.op else Has
  }

  function MakeBin(t: Token, l: Expr, r: Expr): Expr
    requires IsOperator(t)
  {
    if t == TIn then Bin(Has, r, l) else Bin(OpOf(t), l, r)
  }

  // A missing right operand is thrown, as are the retired operator and `is not`.
  function ParseInfix(x: Expr, toks: seq<Token>, lim: Limit): (o: Outcome<Expr>)
    requires x != Null && Prec(Head(toks)) > 0
    ensures o.Done? ==> |o.rest| < |toks| && o.lim <= lim && o.tree != Null
    decreases |toks|, lim, 1
  {
    var t, r := Head(toks), toks[1..];
    if !IsOperator(t) || (t == TOp(Is) && Head(r) == TNot) then Fail
    else
      var y := ParseExpr(r, RightSlot(OpOf(t)), lim);
      if !y.Done? then y
      else if y.tree == Null then Fail
      else Done(MakeBin(t, x, y.tree), y.rest, y.lim)
  }

  // After the loop: `c | t, # f`, at level 0 only.
  function ParseTernary(x: Expr, toks: seq<Token>, p: nat, lim: Limit): (o: Outcome<Expr>)
    requires x != Null
    ensures o.Done? ==> |o.rest| <= |toks| && o.lim <= lim && o.tree != Null
    decreases |toks|, lim, 1
  {
    if p != 0 || Head(toks) != TPipe then Done(x, toks, lim)
    else
      var t := ParseExpr(toks[1..], 0, lim);
      var marks := if t.Done? then Marks(t.tree, t.rest, t.lim) else t;
      if !marks.Done? then marks
      else
        var f := ParseExpr(marks.rest, 0, marks.lim);
        if f.Done? then Done(Tern(x, marks.tree, f.tree), f.rest, f.lim) else f
  }

  // The comma and the hash after the true branch.
  function Marks(t: Expr, toks: seq<Token>, lim: Limit): (o: Outcome<Expr>)
    ensures !o.Loops? && !o.Outside? && (o.Done? ==> o.tree == t && |o.rest| <= |toks| && o.lim <= lim)
  {
    var comma := Expect(t, TComma, toks, lim);
    if comma.Done? then Expect(t, THash, comma.rest, comma.lim) else comma
  }
}
