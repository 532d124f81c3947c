/** The parser accepts exactly the strings of a precedence grammar, errors and their recovery included, and builds the
    tree the grammar gives them. */
module PrattGrammar {
  import opened Options
  import opened Pratt
  import opened Sequences

  // ---- Concrete syntax: parentheses, spellings, missing parts and reported errors included ----

  // How a wanted token was met: it was there, or it was missing and these tokens were dropped.
  datatype Ending = Met | Skipped(skip: seq<Token>)

  // Bad: a token at which no expression starts; it is reported and stays.
  datatype Syn =
    | Missing
    | SBad
    | SLit(lit: nat)
    | SName(k: Ident)
    | SUn(tok: Token, x: Syn)
    | SBin(tok: Token, l: Syn, r: Syn)
    | STern(c: Syn, t: Syn, f: Syn, comma: Ending, hash: Ending)
    | SParen(x: Syn, close: Ending)
    | STuple(x: Syn, elems: Elems, kind: Kind, close: Ending)
    | SCall(k: Ident, args: Args, close: Ending)
    | SIndex(k: Ident, x: Syn, close: Ending)

  datatype Elems = NoElem | Elem(x: Syn, more: Elems)

  datatype Args = NoArg | Arg(x: Syn, comma: bool, more: Args)

  // How a name is written.
  function NameToken(k: Ident): Token {
    match k
    case Word(id) => TName(id)
    case PlusSign => TOp(Plus)
  }

  predicate IsUnary(t: Token) {
    UnaryOf(t).Some?
  }

  function Tree(s: Syn): Expr {
    match s
    case Missing => Null
    case SBad => Null
    case SLit(k) => Lit(k)
    case SName(k) => Name(k)
    case SUn(tok, x) => if IsUnary(tok) then Un(UnaryOf(tok).value, Tree(x)) else Null
    case SBin(tok, l, r) => if IsOperator(tok) then MakeBin(tok, Tree(l), Tree(r)) else Null
    case STern(c, t, f, _, _) => Tern(Tree(c), Tree(t), Tree(f))
    case SParen(x, _) => Tree(x)
    case STuple(x, es, kind, _) => Tuple(Add(Tree(x), TreeElems(es)), kind)
    case SCall(k, args, _) => Call(k, TreeArgs(args))
    case SIndex(k, x, _) => Index(k, Tree(x))
  }

  function TreeElems(es: Elems): Exprs {
    match es
    case NoElem => Nil
    case Elem(x, more) => Add(Tree(x), TreeElems(more))
  }

  function TreeArgs(args: Args): Exprs {
    match args
    case NoArg => Nil
    case Arg(x, _, more) => Cons(Tree(x), TreeArgs(more))
  }

  function YieldEnd(t: Token, e: Ending): seq<Token> {
    match e
    case Met => [t]
    case Skipped(skip) => skip
  }

  function Yield(s: Syn): seq<Token> {
    match s
    case Missing => []
    case SBad => []
    case SLit(k) => [TLit(k)]
    case SName(k) => [NameToken(k)]
    case SUn(tok, x) => [tok] + Yield(x)
    case SBin(tok, l, r) => Yield(l) + ([tok] + Yield(r))
    case STern(c, t, f, comma, hash) =>
      Yield(c) + ([TPipe] + (Yield(t) + (YieldEnd(TComma, comma) + (YieldEnd(THash, hash) + Yield(f)))))
    case SParen(x, close) => [TLParen] + (Yield(x) + YieldEnd(TRParen, close))
    case STuple(x, es, kind, close) => [TLParen] + (Yield(x) + (YieldElems(es) + Closing(kind, close)))
    case SCall(k, args, close) => [NameToken(k), TLParen] + (YieldArgs(args) + YieldEnd(TRParen, close))
    case SIndex(k, x, close) => [NameToken(k), TLBracket] + (Yield(x) + YieldEnd(TRBracket, close))
  }

  function Closing(kind: Kind, close: Ending): seq<Token> {
    match kind
    case Plain => YieldEnd(TRParen, close)
    case Of(k) => [TSemi, TName(k)] + YieldEnd(TRParen, close)
  }

  function Comma(comma: bool): seq<Token> {
    if comma then [TComma] else []
  }

  function YieldElems(es: Elems): seq<Token> {
    match es
    case NoElem => []
    case Elem(x, more) => [TComma] + (Yield(x) + YieldElems(more))
  }

  function YieldArgs(args: Args): seq<Token> {
    match args
    case NoArg => []
    case Arg(x, comma, more) => Yield(x) + (Comma(comma) + YieldArgs(more))
  }

  // ---- How many errors are reported ----

  function EndErrors(e: Ending): nat {
    if e.Met? then 0 else 1
  }

  function Errors(s: Syn): nat {
    match s
    case SBad => 1
    case SUn(_, x) => Errors(x)
    case SBin(_, l, r) => Errors(l) + Errors(r)
    case STern(c, t, f, comma, hash) => Errors(c) + (Errors(t) + (EndErrors(comma) + (EndErrors(hash) + Errors(f))))
    case SParen(x, close) => Errors(x) + EndErrors(close)
    case STuple(x, es, _, close) => Errors(x) + (ElemErrors(es) + EndErrors(close))
    case SCall(_, args, close) => ArgErrors(args) + EndErrors(close)
    case SIndex(_, x, close) => Errors(x) + EndErrors(close)
    case _ => 0
  }

  function ElemErrors(es: Elems): nat {
    if es.NoElem? then 0 else Errors(es.x) + ElemErrors(es.more)
  }

  function ArgErrors(args: Args): nat {
    if args.NoArg? then 0 else Errors(args.x) + ArgErrors(args.more)
  }

  // ---- The grammar: what may stand in a place of level p before the token n ----

  predicate Stops(p: nat, n: Token) {
    Prec(n) <= p && (p == 0 ==> n != TPipe)
  }

  // A token that is reported where an expression is wanted.
  predicate Unexpected(t: Token) {
    && !Terminator(t) && !IsUnary(t) && t != TLParen && !t.TLit? && !t.TName? && t != TOp(Plus)
    && t != TForm && t != TLBracket
  }

  // The first token of a part, when n is the token after it.
  function First(toks: seq<Token>, n: Token): Token {
    if toks == [] then n else toks[0]
  }

  // A missing token is looked for up to the next place where the parser takes up again.
  predicate OkEnd(t: Token, e: Ending, n: Token) {
    e.Skipped? ==> Halts(n) && (forall x :: x in e.skip ==> !Halts(x)) && First(e.skip, n) != t
  }

  predicate Ok(s: Syn, p: nat, n: Token)
    decreases s, 1
  {
    Shape(s, p, n) && (Tree(s) != Null && !s.STern? ==> Stops(p, n))
  }

  predicate Shape(s: Syn, p: nat, n: Token)
    decreases s, 0
  {
    match s
    case Missing => Terminator(n)
    case SBad => Unexpected(n)
    case SLit(_) => true
    case SName(_) => n != TDot && n != TLParen && n != TLBracket
    case SUn(tok, x) => IsUnary(tok) && Ok(x, UnSlot(UnaryOf(tok).value), n)
    case SBin(tok, l, r) =>
      && IsOperator(tok) && OpPrec(OpOf(tok)) > p
      && Left(l, p, tok)
      && Tree(r) != Null && Ok(r, RightSlot(OpOf(tok)), n) && (tok == TOp(Is) ==> Head(Yield(r)) != TNot)
    case STern(c, t, f, comma, hash) =>
      var nf := First(Yield(f), n);
      var nh := First(YieldEnd(THash, hash), nf);
      && p == 0 && Left(c, 0, TPipe)
      && Ok(t, 0, First(YieldEnd(TComma, comma), nh)) && OkEnd(TComma, comma, nh) && OkEnd(THash, hash, nf) &&
        Ok(f, 0, n)
    case SParen(x, close) =>
      var first := First(YieldEnd(TRParen, close), n);
      Ok(x, 0, first) && first != TComma && OkEnd(TRParen, close, n)
    case STuple(x, es, kind, close) =>
      var first := First(Closing(kind, close), n);
      && es.Elem? && Ok(x, 0, TComma) && OkElems(es, first) && first != TComma && OkEnd(TRParen, close, n)
      && (kind.Of? ==> TypeName(kind.typ)) && (kind.Plain? ==> first != TSemi)
    case SCall(_, args, close) =>
      OkArgs(args, First(YieldEnd(TRParen, close), n)) && (close.Met? || (close == Skipped([]) && n == TEof))
    case SIndex(_, x, close) =>
      Ok(x, 0, First(YieldEnd(TRBracket, close), n)) && OkEnd(TRBracket, close, n) && n != TLParen
  }

  // An operand on the left.
  predicate Left(s: Syn, p: nat, n: Token)
    decreases s, 1
  {
    Tree(s) != Null && !s.STern? && Shape(s, p, n)
  }

  predicate OkElems(es: Elems, close: Token)
    decreases es, 0
  {
    match es
    case NoElem => true
    case Elem(x, more) => Ok(x, 0, if more.NoElem? then close else TComma) && OkElems(more, close)
  }

  // Arguments in front of the token close. A turn of the loop has to consume a token or to report an error.
  predicate OkArgs(args: Args, close: Token)
    decreases args, 0
  {
    match args
    case NoArg => true
    case Arg(x, comma, more) =>
      var next := First(YieldArgs(more), close);
      && Ok(x, 0, if comma then TComma else next) && OkArgs(more, close)
      && (comma || (next != TComma && (Yield(x) != [] || Errors(x) > 0)))
  }

  // ---- Every string of the grammar is read as its tree ----

  predicate Prefix(s: Syn) {
    !s.Missing? && !s.SBad? && !s.SBin? && !s.STern?
  }

  lemma EmptyIsNull(s: Syn)
    requires Yield(s) == []
    ensures s == Missing || s == SBad
  {
  }

  lemma FirstOfBoth(a: seq<Token>, b: seq<Token>)
    ensures Head(a + b) == First(a, Head(b))
  {
  }

  // An expression starts there: no terminator, and no place to take up again after an error.
  predicate Begins(t: Token) {
    !Terminator(t) && !Halts(t)
  }

  lemma {:induction false} Starts(s: Syn, p: nat, n: Token)
    requires Shape(s, p, n) && Yield(s) != []
    ensures Begins(Yield(s)[0])
    decreases s
  {
    match s
    case SBin(_, l, _) =>
      if Yield(l) == [] {
        EmptyIsNull(l);
      } else {
        Starts(l, p, s.tok);
        assert Yield(s)[0] == Yield(l)[0];
      }
    case STern(c, _, _, _, _) =>
      if Yield(c) == [] {
        EmptyIsNull(c);
      } else {
        Starts(c, 0, TPipe);
        assert Yield(s)[0] == Yield(c)[0];
      }
    case _ =>
  }

  lemma {:induction false} ResyncSkips(skip: seq<Token>, rest: seq<Token>)
    requires Halts(Head(rest)) && forall x :: x in skip ==> !Halts(x)
    ensures Resync(skip + rest) == rest
    decreases |skip|
  {
    if skip == [] {
      assert skip + rest == rest;
    } else {
      assert (skip + rest)[1..] == skip[1..] + rest;
      ResyncSkips(skip[1..], rest);
    }
  }

  lemma ExpectReads<T>(x: T, t: Token, e: Ending, rest: seq<Token>, lim: Limit)
    requires t != TEof && OkEnd(t, e, Head(rest)) && EndErrors(e) < lim
    ensures Expect(x, t, YieldEnd(t, e) + rest, lim) == Done(x, rest, lim - EndErrors(e))
  {
    match e
    case Met => assert ([t] + rest)[1..] == rest;
    case Skipped(skip) =>
      FirstOfBoth(skip, rest);
      ResyncSkips(skip, rest);
  }

  lemma UnaryIs(t: Token, toks: seq<Token>, lim: Limit, x: Expr, rest: seq<Token>, l: Limit)
    requires IsUnary(t) && ParseExpr(toks, UnSlot(UnaryOf(t).value), lim) == Done(x, rest, l)
    ensures ParsePrefix([t] + toks, lim) == Done(Un(UnaryOf(t).value, x), rest, l)
  {
    assert Head([t] + toks) == t && ([t] + toks)[1..] == toks;
    assert ParseUnary(UnaryOf(t).value, toks, lim) == Done(Un(UnaryOf(t).value, x), rest, l);
  }

  lemma {:induction false} UnaryReads(s: Syn, rest: seq<Token>, lim: Limit)
    requires s.SUn? && Shape(s, 0, Head(rest)) && Errors(s) < lim
    ensures ParsePrefix(Yield(s) + rest, lim) == Done(Tree(s), rest, lim - Errors(s))
    decreases s, 0
  {
    Accepts(s.x, UnSlot(UnaryOf(s.tok).value), rest, lim);
    UnaryIs(s.tok, Yield(s.x) + rest, lim, Tree(s.x), rest, lim - Errors(s));
    Assoc([s.tok], Yield(s.x), rest);
  }

  lemma GroupIs(toks: seq<Token>, lim: Limit, x: Expr, r: seq<Token>, l: Limit)
    requires ParseExpr(toks, 0, lim) == Done(x, r, l)
    ensures ParsePrefix([TLParen] + toks, lim) ==
      if Head(r) == TComma then ParseTuple(x, r, l) else Expect(x, TRParen, r, l)
  {
    assert ([TLParen] + toks)[1..] == toks;
  }

  lemma {:induction false} ParenDone(x: Syn, close: Ending, rest: seq<Token>, lim: Limit, l: Limit)
    requires Ok(x, 0, First(YieldEnd(TRParen, close), Head(rest))) &&
      First(YieldEnd(TRParen, close), Head(rest)) != TComma
    requires OkEnd(TRParen, close, Head(rest)) && lim == l + EndErrors(close) + Errors(x)
    ensures ParsePrefix([TLParen] + (Yield(x) + (YieldEnd(TRParen, close) + rest)), lim) == Done(Tree(x), rest, l)
    decreases x, 5
  {
    var after, l1 := YieldEnd(TRParen, close) + rest, l + EndErrors(close);
    FirstOfBoth(YieldEnd(TRParen, close), rest);
    ExpectReads(Tree(x), TRParen, close, rest, l1);
    Accepts(x, 0, after, lim);
    GroupIs(Yield(x) + after, lim, Tree(x), after, l1);
  }

  lemma {:induction false} ParenReads(s: Syn, rest: seq<Token>, lim: Limit)
    requires s.SParen? && Shape(s, 0, Head(rest)) && Errors(s) < lim
    ensures ParsePrefix(Yield(s) + rest, lim) == Done(Tree(s), rest, lim - Errors(s))
    decreases s, 0
  {
    ParenDone(s.x, s.close, rest, lim, lim - Errors(s));
    Assoc4([TLParen], Yield(s.x), YieldEnd(TRParen, s.close), rest);
  }

  lemma NotParen(x: Syn, after: seq<Token>)
    requires Ok(x, 0, Head(after)) && Head(Yield(x) + after) == TRParen
    ensures x == Missing && Head(after) == TRParen && Yield(x) + after == after
  {
    if Yield(x) != [] {
      Starts(x, 0, Head(after));
    } else {
      EmptyIsNull(x);
    }
  }

  lemma NoElemIs(r: seq<Token>, lim: Limit)
    requires Head(r) == TRParen
    ensures ParseElems([TComma] + r, lim) == Done(Nil, r, lim)
  {
    assert ([TComma] + r)[1..] == r;
  }

  lemma LastElemIs(r: seq<Token>, lim: Limit, x: Expr, after: seq<Token>, l: Limit)
    requires Head(r) != TRParen && ParseExpr(r, 0, lim) == Done(x, after, l) && Head(after) != TComma
    ensures ParseElems([TComma] + r, lim) == Done(Add(x, Nil), after, l)
  {
    assert ([TComma] + r)[1..] == r;
  }

  lemma ElemIs(r: seq<Token>, lim: Limit, x: Expr, after: seq<Token>, l: Limit, es: Exprs, rest: seq<Token>, l2: Limit)
    requires Head(r) != TRParen && ParseExpr(r, 0, lim) == Done(x, after, l) && Head(after) == TComma
    requires ParseElems(after, l) == Done(es, rest, l2)
    ensures ParseElems([TComma] + r, lim) == Done(Add(x, es), rest, l2)
  {
    assert ([TComma] + r)[1..] == r;
  }

  // The last element, and one in front of others; either may be missing.
  lemma {:induction false} LastRead(x: Syn, close: seq<Token>, lim: Limit)
    requires Ok(x, 0, Head(close)) && Head(close) != TComma && Errors(x) < lim
    ensures ParseElems([TComma] + (Yield(x) + close), lim) == Done(Add(Tree(x), Nil), close, lim - Errors(x))
    decreases x, 5
  {
    if Head(Yield(x) + close) == TRParen {
      NotParen(x, close);
      NoElemIs(close, lim);
    } else {
      assert ParseExpr(Yield(x) + close, 0, lim) == Done(Tree(x), close, lim - Errors(x)) by {
        Accepts(x, 0, close, lim);
      }
      LastElemIs(Yield(x) + close, lim, Tree(x), close, lim - Errors(x));
    }
  }

  // An element in front of a comma does not start with a closing parenthesis.
  lemma NoParenFirst(x: Syn, after: seq<Token>)
    requires Head(after) == TComma && Ok(x, 0, TComma)
    ensures Head(Yield(x) + after) != TRParen
  {
    if Head(Yield(x) + after) == TRParen {
      NotParen(x, after);
    }
  }

  lemma {:induction false} ElemRead(x: Syn, after: seq<Token>, lim: Limit, l: Limit, es: Exprs, rest: seq<Token>,
                                    l2: Limit)
    requires Ok(x, 0, TComma) && Head(after) == TComma && lim == l + Errors(x)
    requires ParseElems(after, l) == Done(es, rest, l2)
    ensures ParseElems([TComma] + (Yield(x) + after), lim) == Done(Add(Tree(x), es), rest, l2)
    decreases x, 5
  {
    NoParenFirst(x, after);
    Accepts(x, 0, after, lim);
    ElemIs(Yield(x) + after, lim, Tree(x), after, l, es, rest, l2);
  }

  lemma ElemsParts(es: Elems, close: seq<Token>)
    requires es.Elem? && Head(close) != TComma
    ensures var after := YieldElems(es.more) + close;
      && YieldElems(es) + close == [TComma] + (Yield(es.x) + after)
      && (if es.more.NoElem? then after == close else Head(after) == TComma)
  {
    Assoc4([TComma], Yield(es.x), YieldElems(es.more), close);
  }

  lemma {:induction false} ElemsRead(es: Elems, close: seq<Token>, lim: Limit, l: Limit)
    requires es.Elem? && OkElems(es, Head(close)) && Head(close) != TComma && lim == l + ElemErrors(es)
    ensures ParseElems(YieldElems(es) + close, lim) == Done(TreeElems(es), close, l)
    decreases es, 0
  {
    ElemsParts(es, close);
    if es.more.NoElem? {
      LastRead(es.x, close, lim);
    } else {
      var l1 := lim - Errors(es.x);
      ElemsRead(es.more, close, l1, l);
      ElemRead(es.x, YieldElems(es.more) + close, lim, l1, TreeElems(es.more), close, l);
    }
  }

  lemma CloseReads(es: Exprs, kind: Kind, close: Ending, rest: seq<Token>, lim: Limit)
    requires (kind.Of? ==> TypeName(kind.typ)) && (kind.Plain? ==> First(Closing(kind, close), Head(rest)) != TSemi)
    requires OkEnd(TRParen, close, Head(rest)) && EndErrors(close) < lim
    ensures CloseTuple(es, Closing(kind, close) + rest, lim) == Done(Tuple(es, kind), rest, lim - EndErrors(close))
  {
    ExpectReads(Tuple(es, kind), TRParen, close, rest, lim);
    if kind.Of? {
      TypedIs(es, kind.typ, YieldEnd(TRParen, close) + rest, lim);
      Assoc([TSemi, TName(kind.typ)], YieldEnd(TRParen, close), rest);
    } else {
      FirstOfBoth(Closing(kind, close), rest);
    }
  }

  lemma TypedIs(es: Exprs, k: nat, toks: seq<Token>, lim: Limit)
    requires TypeName(k)
    ensures CloseTuple(es, [TSemi, TName(k)] + toks, lim) == Expect(Tuple(es, Of(k)), TRParen, toks, lim)
  {
    var all := [TSemi, TName(k)] + toks;
    assert all[1..] == [TName(k)] + toks && all[1..][1..] == toks;
  }

  lemma TupleIs(x: Expr, r: seq<Token>, lim: Limit, es: Exprs, r2: seq<Token>, l: Limit)
    requires Head(r) == TComma && ParseElems(r, lim) == Done(es, r2, l)
    ensures ParseTuple(x, r, lim) == CloseTuple(Add(x, es), r2, l)
  {
  }

  // What follows the first element of a tuple.
  lemma {:induction false} TailReads(x: Expr, es: Elems, kind: Kind, close: Ending, rest: seq<Token>, lim: Limit,
                                     l: Limit)
    requires es.Elem? && OkElems(es, First(Closing(kind, close), Head(rest)))
    requires First(Closing(kind, close), Head(rest)) != TComma && OkEnd(TRParen, close, Head(rest))
    requires (kind.Of? ==> TypeName(kind.typ)) && (kind.Plain? ==> First(Closing(kind, close), Head(rest)) != TSemi)
    requires lim == l + EndErrors(close) + ElemErrors(es)
    ensures ParseTuple(x, YieldElems(es) + (Closing(kind, close) + rest), lim) ==
      Done(Tuple(Add(x, TreeElems(es)), kind), rest, l)
    decreases es, 1
  {
    var end := Closing(kind, close) + rest;
    FirstOfBoth(Closing(kind, close), rest);
    ElemsRead(es, end, lim, l + EndErrors(close));
    CloseReads(Add(x, TreeElems(es)), kind, close, rest, l + EndErrors(close));
    TupleIs(x, YieldElems(es) + end, lim, TreeElems(es), end, l + EndErrors(close));
  }

  lemma TupleOpens(toks: seq<Token>, lim: Limit, x: Expr, r: seq<Token>, l: Limit, o: Outcome<Expr>)
    requires ParseExpr(toks, 0, lim) == Done(x, r, l) && Head(r) == TComma && ParseTuple(x, r, l) == o
    ensures ParsePrefix([TLParen] + toks, lim) == o
  {
    GroupIs(toks, lim, x, r, l);
  }

  lemma {:induction false} TupleDone(s: Syn, rest: seq<Token>, elems: seq<Token>, lim: Limit, l: Limit)
    requires s.STuple? && s.elems.Elem? && OkElems(s.elems, First(Closing(s.kind, s.close), Head(rest)))
    requires var first := First(Closing(s.kind, s.close), Head(rest));
      first != TComma && (s.kind.Plain? ==> first != TSemi)
    requires OkEnd(TRParen, s.close, Head(rest)) && (s.kind.Of? ==> TypeName(s.kind.typ)) && Ok(s.x, 0, TComma)
    requires lim == l + EndErrors(s.close) + ElemErrors(s.elems) + Errors(s.x)
    requires elems == YieldElems(s.elems) + (Closing(s.kind, s.close) + rest)
    ensures ParsePrefix([TLParen] + (Yield(s.x) + elems), lim) ==
      Done(Tuple(Add(Tree(s.x), TreeElems(s.elems)), s.kind), rest, l)
    decreases s, 0
  {
    var l1 := lim - Errors(s.x);
    assert Head(elems) == TComma;
    Accepts(s.x, 0, elems, lim);
    TailReads(Tree(s.x), s.elems, s.kind, s.close, rest, l1, l);
    TupleOpens(Yield(s.x) + elems, lim, Tree(s.x), elems, l1,
      Done(Tuple(Add(Tree(s.x), TreeElems(s.elems)), s.kind), rest, l));
  }

  lemma {:induction false} TupleReads(s: Syn, rest: seq<Token>, lim: Limit)
    requires s.STuple? && Shape(s, 0, Head(rest)) && Errors(s) < lim
    ensures ParsePrefix(Yield(s) + rest, lim) == Done(Tree(s), rest, lim - Errors(s))
    decreases s, 1
  {
    TupleDone(s, rest, YieldElems(s.elems) + (Closing(s.kind, s.close) + rest), lim, lim - Errors(s));
    Assoc5([TLParen], Yield(s.x), YieldElems(s.elems), Closing(s.kind, s.close), rest);
  }

  lemma NameOpens(k: Ident, toks: seq<Token>, lim: Limit)
    requires Head(toks) == NameToken(k)
    ensures ParsePrefix(toks, lim) == ParseName(k, toks[1..], lim)
  {
  }

  lemma IndexIs(k: Ident, toks: seq<Token>, lim: Limit, x: Expr, r: seq<Token>, l: Limit, rest: seq<Token>, l2: Limit)
    requires ParseExpr(toks, 0, lim) == Done(x, r, l) && Head(rest) != TLParen
    requires Expect(Index(k, x), TRBracket, r, l) == Done(Index(k, x), rest, l2)
    ensures ParsePrefix([NameToken(k), TLBracket] + toks, lim) == Done(Index(k, x), rest, l2)
  {
    var all := [NameToken(k), TLBracket] + toks;
    assert all[1..][0] == TLBracket && all[1..][1..] == toks;
    NameOpens(k, all, lim);
  }

  lemma {:induction false} IndexDone(k: Ident, x: Syn, close: Ending, rest: seq<Token>, lim: Limit, l: Limit)
    requires Ok(x, 0, First(YieldEnd(TRBracket, close), Head(rest))) && Head(rest) != TLParen
    requires OkEnd(TRBracket, close, Head(rest)) && lim == l + EndErrors(close) + Errors(x)
    ensures ParsePrefix([NameToken(k), TLBracket] + (Yield(x) + (YieldEnd(TRBracket, close) + rest)), lim) ==
      Done(Index(k, Tree(x)), rest, l)
    decreases x, 5
  {
    var after, l1 := YieldEnd(TRBracket, close) + rest, l + EndErrors(close);
    FirstOfBoth(YieldEnd(TRBracket, close), rest);
    ExpectReads(Index(k, Tree(x)), TRBracket, close, rest, l1);
    Accepts(x, 0, after, lim);
    IndexIs(k, Yield(x) + after, lim, Tree(x), after, l1, rest, l);
  }

  lemma {:induction false} IndexReads(s: Syn, rest: seq<Token>, lim: Limit)
    requires s.SIndex? && Shape(s, 0, Head(rest)) && Errors(s) < lim
    ensures ParsePrefix(Yield(s) + rest, lim) == Done(Tree(s), rest, lim - Errors(s))
    decreases s, 0
  {
    IndexDone(s.k, s.x, s.close, rest, lim, lim - Errors(s));
    Assoc4([NameToken(s.k), TLBracket], Yield(s.x), YieldEnd(TRBracket, s.close), rest);
  }

  // ---- Argument lists ----

  function TreeBefore(args: Args, es: Exprs): Exprs {
    match args
    case NoArg => es
    case Arg(x, _, more) => Cons(Tree(x), TreeBefore(more, es))
  }

  // What the whole list comes to, when what follows x comes to o.
  function After(x: Expr, o: Outcome<Exprs>): Outcome<Exprs> {
    if o.Done? then Done(Cons(x, o.tree), o.rest, o.lim) else o
  }

  // The same for a list of arguments.
  function Behind(args: Args, o: Outcome<Exprs>): Outcome<Exprs> {
    if o.Done? then Done(TreeBefore(args, o.tree), o.rest, o.lim) else o
  }

  lemma BehindOne(args: Args, o: Outcome<Exprs>)
    requires args.Arg?
    ensures After(Tree(args.x), Behind(args.more, o)) == Behind(args, o)
  {
  }

  lemma ArgsSplit(args: Args, close: seq<Token>)
    requires args.Arg?
    ensures YieldArgs(args) + close == Yield(args.x) + (Comma(args.comma) + (YieldArgs(args.more) + close))
    ensures Head(YieldArgs(args.more) + close) == First(YieldArgs(args.more), Head(close))
  {
    Assoc4(Yield(args.x), Comma(args.comma), YieldArgs(args.more), close);
    FirstOfBoth(YieldArgs(args.more), close);
  }

  lemma ArgsTurn(toks: seq<Token>, lim: Limit, x: Expr, next: seq<Token>, l: Limit)
    requires Head(toks) != TRParen && Head(toks) != TEof && ArgTurn(toks, lim) == Done(x, next, l)
    requires |next| < |toks| || l < lim
    ensures ParseArgs(toks, lim) == After(x, ParseArgs(next, l))
  {
  }

  lemma {:induction false} ArgFirst(x: Syn, comma: bool, next: seq<Token>, toks: seq<Token>, lim: Limit, l: Limit)
    requires toks == Yield(x) + (Comma(comma) + next) && lim == l + Errors(x)
    requires Ok(x, 0, if comma then TComma else Head(next))
    requires comma || (Head(next) != TComma && (Yield(x) != [] || Errors(x) > 0))
    ensures ParseArgs(toks, lim) == After(Tree(x), ParseArgs(next, l))
    decreases x, 6
  {
    ArgReads(x, comma, next, toks, lim);
    ArgsTurn(toks, lim, Tree(x), next, l);
  }

  /** Arguments are read one by one: what the list comes to is up to what follows them, which comes to o. */
  lemma {:induction false} ArgsRead(args: Args, rest: seq<Token>, lim: Limit, l: Limit, o: Outcome<Exprs>)
    requires OkArgs(args, Head(rest)) && lim == l + ArgErrors(args) && o == ParseArgs(rest, l)
    ensures ParseArgs(YieldArgs(args) + rest, lim) == Behind(args, o)
    decreases args, 0
  {
    if args.NoArg? {
      assert YieldArgs(args) + rest == rest;
    } else {
      var l1, next := lim - Errors(args.x), YieldArgs(args.more) + rest;
      assert ParseArgs(next, l1) == Behind(args.more, o) by {
        ArgsRead(args.more, rest, l1, l, o);
      }
      assert ParseArgs(YieldArgs(args) + rest, lim) == After(Tree(args.x), ParseArgs(next, l1)) by {
        ArgsSplit(args, rest);
        ArgFirst(args.x, args.comma, next, YieldArgs(args) + rest, lim, l1);
      }
      BehindOne(args, o);
    }
  }

  lemma {:induction false} ArgReads(x: Syn, comma: bool, next: seq<Token>, toks: seq<Token>, lim: Limit)
    requires toks == Yield(x) + (Comma(comma) + next) && Errors(x) < lim
    requires Ok(x, 0, if comma then TComma else Head(next))
    requires comma || (Head(next) != TComma && (Yield(x) != [] || Errors(x) > 0))
    ensures ArgTurn(toks, lim) == Done(Tree(x), next, lim - Errors(x)) && (|next| < |toks| || Errors(x) > 0)
    ensures Head(toks) != TRParen && Head(toks) != TEof
    decreases x, 5
  {
    var after := Comma(comma) + next;
    assert !comma ==> after == next;
    assert comma ==> after[1..] == next;
    Accepts(x, 0, after, lim);
    if Yield(x) != [] {
      Starts(x, 0, Head(after));
    } else {
      EmptyIsNull(x);
      assert toks == after;
    }
  }

  lemma {:induction false} TreeBeforeNil(args: Args)
    ensures TreeBefore(args, Nil) == TreeArgs(args)
  {
    if args.Arg? {
      TreeBeforeNil(args.more);
    }
  }

  lemma EndOfArgs(close: Ending, rest: seq<Token>, lim: Limit)
    requires close.Met? || (close == Skipped([]) && Head(rest) == TEof && lim > 1)
    ensures ParseArgs(YieldEnd(TRParen, close) + rest, lim) == Done(Nil, rest, lim - EndErrors(close))
  {
    if close.Met? {
      assert ([TRParen] + rest)[1..] == rest;
    } else {
      assert YieldEnd(TRParen, close) + rest == rest;
    }
  }

  lemma CallIs(k: Ident, toks: seq<Token>, lim: Limit, es: Exprs, rest: seq<Token>, l: Limit)
    requires ParseArgs(toks, lim) == Done(es, rest, l)
    ensures ParsePrefix([NameToken(k), TLParen] + toks, lim) == Done(Call(k, es), rest, l)
  {
    var all := [NameToken(k), TLParen] + toks;
    assert all[1..][0] == TLParen && all[1..][1..] == toks;
    NameOpens(k, all, lim);
  }

  lemma {:induction false} CallDone(k: Ident, args: Args, close: Ending, rest: seq<Token>, lim: Limit, l: Limit)
    requires OkArgs(args, First(YieldEnd(TRParen, close), Head(rest))) && lim == l + EndErrors(close) + ArgErrors(args)
    requires close.Met? || (close == Skipped([]) && Head(rest) == TEof)
    ensures ParsePrefix([NameToken(k), TLParen] + (YieldArgs(args) + (YieldEnd(TRParen, close) + rest)), lim) ==
      Done(Call(k, TreeArgs(args)), rest, l)
    decreases args, 1
  {
    var after := YieldEnd(TRParen, close) + rest;
    var l1 := l + EndErrors(close);
    EndOfArgs(close, rest, l1);
    FirstOfBoth(YieldEnd(TRParen, close), rest);
    assert ParseArgs(YieldArgs(args) + after, lim) == Behind(args, Done(Nil, rest, l)) by {
      ArgsRead(args, after, lim, l1, Done(Nil, rest, l));
    }
    TreeBeforeNil(args);
    CallIs(k, YieldArgs(args) + after, lim, TreeArgs(args), rest, l);
  }

  lemma {:induction false} CallReads(s: Syn, rest: seq<Token>, lim: Limit)
    requires s.SCall? && Shape(s, 0, Head(rest)) && Errors(s) < lim
    ensures ParsePrefix(Yield(s) + rest, lim) == Done(Tree(s), rest, lim - Errors(s))
    decreases s, 0
  {
    CallDone(s.k, s.args, s.close, rest, lim, lim - Errors(s));
    Assoc4([NameToken(s.k), TLParen], YieldArgs(s.args), YieldEnd(TRParen, s.close), rest);
  }

  // ---- Whole expressions ----

  lemma {:induction false} PrefixReads(s: Syn, p: nat, rest: seq<Token>, lim: Limit)
    requires Prefix(s) && Shape(s, p, Head(rest)) && Errors(s) < lim
    ensures ParsePrefix(Yield(s) + rest, lim) == Done(Tree(s), rest, lim - Errors(s))
    decreases s, 2
  {
    match s
    case SLit(k) => assert (Yield(s) + rest)[1..] == rest;
    case SName(k) =>
      assert (Yield(s) + rest)[1..] == rest;
      NameOpens(k, Yield(s) + rest, lim);
    case SUn(_, _) => UnaryReads(s, rest, lim);
    case SParen(_, _) => ParenReads(s, rest, lim);
    case STuple(_, _, _, _) => TupleReads(s, rest, lim);
    case SCall(_, _, _) => CallReads(s, rest, lim);
    case SIndex(_, _, _) => IndexReads(s, rest, lim);
  }

  // An expression without a ternary on top is built as x, and the loop goes on after it.
  lemma {:induction false} Reaches(s: Syn, x: Expr, p: nat, rest: seq<Token>, lim: Limit, l: Limit)
    requires Left(s, p, Head(rest)) && lim == l + Errors(s) && x == Tree(s)
    ensures ParseExpr(Yield(s) + rest, p, lim) == ParseLoop(x, rest, p, l)
    decreases s, 3
  {
    if s.SBin? {
      BinReaches(s, x, p, rest, lim, l);
    } else {
      PrefixReads(s, p, rest, lim);
    }
  }

  // The right operand is y.
  lemma OperatorIs(x: Expr, tok: Token, toks: seq<Token>, lim: Limit, y: Expr, rest: seq<Token>, l: Limit)
    requires x != Null && y != Null && IsOperator(tok) && (tok == TOp(Is) ==> Head(toks) != TNot)
    requires ParseExpr(toks, RightSlot(OpOf(tok)), lim) == Done(y, rest, l)
    ensures ParseInfix(x, [tok] + toks, lim) == Done(MakeBin(tok, x, y), rest, l)
  {
    assert Head([tok] + toks) == tok && ([tok] + toks)[1..] == toks;
  }

  // One turn of the loop over operators.
  lemma OneOperator(x: Expr, toks: seq<Token>, p: nat, lim: Limit)
    requires x != Null && Prec(Head(toks)) > p
    ensures var y := ParseInfix(x, toks, lim);
      ParseLoop(x, toks, p, lim) == if y.Done? then ParseLoop(y.tree, y.rest, p, y.lim) else y
  {
  }

  lemma InfixIs(x: Expr, tok: Token, toks: seq<Token>, p: nat, lim: Limit, y: Expr, rest: seq<Token>, l: Limit)
    requires x != Null && y != Null && IsOperator(tok) && OpPrec(OpOf(tok)) > p &&
      (tok == TOp(Is) ==> Head(toks) != TNot)
    requires ParseExpr(toks, RightSlot(OpOf(tok)), lim) == Done(y, rest, l)
    ensures ParseLoop(x, [tok] + toks, p, lim) == ParseLoop(MakeBin(tok, x, y), rest, p, l)
  {
    assert Head([tok] + toks) == tok;
    OperatorIs(x, tok, toks, lim, y, rest, l);
    OneOperator(x, [tok] + toks, p, lim);
  }

  lemma FirstOperand(s: Syn, rest: seq<Token>)
    requires Tree(s) != Null
    ensures Head(Yield(s) + rest) == Head(Yield(s))
  {
    if Yield(s) == [] {
      EmptyIsNull(s);
    }
  }

  lemma {:induction false} RightReads(c: Expr, tok: Token, r: Syn, x: Expr, p: nat, rest: seq<Token>, lim: Limit,
                                      l: Limit)
    requires c != Null && IsOperator(tok) && OpPrec(OpOf(tok)) > p && (tok == TOp(Is) ==> Head(Yield(r)) != TNot)
    requires Tree(r) != Null && Ok(r, RightSlot(OpOf(tok)), Head(rest)) && lim == l + Errors(r)
    requires x == MakeBin(tok, c, Tree(r))
    ensures ParseLoop(c, [tok] + (Yield(r) + rest), p, lim) == ParseLoop(x, rest, p, l)
    decreases r, 5
  {
    Accepts(r, RightSlot(OpOf(tok)), rest, lim);
    FirstOperand(r, rest);
    InfixIs(c, tok, Yield(r) + rest, p, lim, Tree(r), rest, l);
  }

  lemma {:induction false} BinReaches(s: Syn, x: Expr, p: nat, rest: seq<Token>, lim: Limit, l: Limit)
    requires s.SBin? && Shape(s, p, Head(rest)) && lim == l + Errors(s) && x == Tree(s)
    ensures ParseExpr(Yield(s) + rest, p, lim) == ParseLoop(x, rest, p, l)
    decreases s, 2
  {
    var c, tail, l1 := Tree(s.l), [s.tok] + (Yield(s.r) + rest), l + Errors(s.r);
    assert ParseLoop(c, tail, p, l1) == ParseLoop(x, rest, p, l) by {
      RightReads(c, s.tok, s.r, x, p, rest, l1, l);
    }
    assert ParseExpr(Yield(s.l) + tail, p, lim) == ParseLoop(c, tail, p, l1) by {
      assert Head(tail) == s.tok;
      Reaches(s.l, c, p, tail, lim, l1);
    }
    Assoc4(Yield(s.l), [s.tok], Yield(s.r), rest);
  }

  function Branches(c: Expr, t: Expr, f: Outcome<Expr>): Outcome<Expr> {
    if f.Done? then Done(Tern(c, t, f.tree), f.rest, f.lim) else f
  }

  // A ternary up to its last branch.
  lemma TernaryIs(c: Expr, t: Expr, toks: seq<Token>, lim: Limit, r1: seq<Token>, l1: Limit, r2: seq<Token>, l2: Limit,
                  r3: seq<Token>, l3: Limit)
    requires c != Null && ParseExpr(toks, 0, lim) == Done(t, r1, l1)
    requires Expect(t, TComma, r1, l1) == Done(t, r2, l2) && Expect(t, THash, r2, l2) == Done(t, r3, l3)
    ensures ParseLoop(c, [TPipe] + toks, 0, lim) == Branches(c, t, ParseExpr(r3, 0, l3))
  {
    assert ([TPipe] + toks)[1..] == toks;
    assert Marks(t, r1, l1) == Done(t, r3, l3);
  }

  // The comma and the hash of a ternary.
  lemma MarksRead(x: Expr, comma: Ending, hash: Ending, r2: seq<Token>, r3: seq<Token>, l1: Limit, l2: Limit, l3: Limit)
    requires r2 == YieldEnd(THash, hash) + r3 && OkEnd(TComma, comma, First(YieldEnd(THash, hash), Head(r3)))
    requires OkEnd(THash, hash, Head(r3)) && l2 == l1 - EndErrors(comma) && l3 == l2 - EndErrors(hash)
    ensures Expect(x, TComma, YieldEnd(TComma, comma) + r2, l1) == Done(x, r2, l2)
    ensures Expect(x, THash, r2, l2) == Done(x, r3, l3)
    ensures Head(r2) == First(YieldEnd(THash, hash), Head(r3))
    ensures Head(YieldEnd(TComma, comma) + r2) == First(YieldEnd(TComma, comma), Head(r2))
  {
    FirstOfBoth(YieldEnd(THash, hash), r3);
    FirstOfBoth(YieldEnd(TComma, comma), r2);
    ExpectReads(x, TComma, comma, r2, l1);
    ExpectReads(x, THash, hash, r3, l2);
  }

  // Everything of a ternary in front of its last branch, which starts at r3.
  lemma {:induction false} YesReads(c: Expr, t: Syn, comma: Ending, hash: Ending, r3: seq<Token>, lim: Limit, l3: Limit)
    requires c != Null && Ok(t, 0, First(YieldEnd(TComma, comma), First(YieldEnd(THash, hash), Head(r3))))
    requires OkEnd(TComma, comma, First(YieldEnd(THash, hash), Head(r3))) && OkEnd(THash, hash, Head(r3))
    requires lim == l3 + EndErrors(hash) + EndErrors(comma) + Errors(t)
    ensures ParseLoop(c, [TPipe] + (Yield(t) + (YieldEnd(TComma, comma) + (YieldEnd(THash, hash) + r3))), 0, lim) ==
      Branches(c, Tree(t), ParseExpr(r3, 0, l3))
    decreases t, 5
  {
    var r2 := YieldEnd(THash, hash) + r3;
    var r1, l1, l2 := YieldEnd(TComma, comma) + r2, lim - Errors(t), l3 + EndErrors(hash);
    MarksRead(Tree(t), comma, hash, r2, r3, l1, l2, l3);
    Accepts(t, 0, r1, lim);
    TernaryIs(c, Tree(t), Yield(t) + r1, lim, r1, l1, r2, l2, r3, l3);
  }

  // The tokens behind the condition of a ternary.
  function YieldYes(t: Syn, comma: Ending, hash: Ending, r3: seq<Token>): seq<Token> {
    [TPipe] + (Yield(t) + (YieldEnd(TComma, comma) + (YieldEnd(THash, hash) + r3)))
  }

  lemma TernTokens(s: Syn, rest: seq<Token>)
    requires s.STern?
    ensures Yield(s) + rest == Yield(s.c) + YieldYes(s.t, s.comma, s.hash, Yield(s.f) + rest)
  {
    var h := YieldEnd(THash, s.hash);
    Assoc(h, Yield(s.f), rest);
    Assoc5([TPipe], Yield(s.t), YieldEnd(TComma, s.comma), h + Yield(s.f), rest);
    Assoc(Yield(s.c), [TPipe] + (Yield(s.t) + (YieldEnd(TComma, s.comma) + (h + Yield(s.f)))), rest);
  }

  lemma BranchesJoin(c: Expr, t: Expr, toks: seq<Token>, lim: Limit, r3: seq<Token>, l3: Limit, f: Expr,
                     rest: seq<Token>, l: Limit)
    requires c != Null && ParseLoop(c, toks, 0, lim) == Branches(c, t, ParseExpr(r3, 0, l3))
    requires ParseExpr(r3, 0, l3) == Done(f, rest, l)
    ensures ParseLoop(c, toks, 0, lim) == Done(Tern(c, t, f), rest, l)
  {
  }

  lemma {:induction false} BranchesRead(c: Expr, s: Syn, rest: seq<Token>, lim: Limit, l: Limit)
    requires s.STern? && c != Null && Ok(s.f, 0, Head(rest))
    requires var nf := First(Yield(s.f), Head(rest)); var nh := First(YieldEnd(THash, s.hash), nf);
      && OkEnd(TComma, s.comma, nh) && OkEnd(THash, s.hash, nf) && Ok(s.t, 0, First(YieldEnd(TComma, s.comma), nh))
    requires lim == l + Errors(s.f) + EndErrors(s.hash) + EndErrors(s.comma) + Errors(s.t)
    ensures ParseLoop(c, YieldYes(s.t, s.comma, s.hash, Yield(s.f) + rest), 0, lim) ==
      Done(Tern(c, Tree(s.t), Tree(s.f)), rest, l)
    decreases s, 0
  {
    var r3, l3 := Yield(s.f) + rest, l + Errors(s.f);
    FirstOfBoth(Yield(s.f), rest);
    Accepts(s.f, 0, rest, l3);
    YesReads(c, s.t, s.comma, s.hash, r3, lim, l3);
    BranchesJoin(c, Tree(s.t), YieldYes(s.t, s.comma, s.hash, r3), lim, r3, l3, Tree(s.f), rest, l);
  }

  lemma LoopDone(toks: seq<Token>, p: nat, lim: Limit, x: Expr, r: seq<Token>, l1: Limit, o: Outcome<Expr>)
    requires x != Null && ParseExpr(toks, p, lim) == ParseLoop(x, r, p, l1) == o
    ensures ParseExpr(toks, p, lim) == o
  {
  }

  lemma {:induction false} TernReads(s: Syn, rest: seq<Token>, lim: Limit, l: Limit)
    requires s.STern? && Shape(s, 0, Head(rest)) && lim == l + Errors(s)
    ensures ParseExpr(Yield(s) + rest, 0, lim) == Done(Tree(s), rest, l)
    decreases s, 1
  {
    var toks, l1 := YieldYes(s.t, s.comma, s.hash, Yield(s.f) + rest), lim - Errors(s.c);
    TernTokens(s, rest);
    BranchesRead(Tree(s.c), s, rest, l1, l);
    Reaches(s.c, Tree(s.c), 0, toks, lim, l1);
    LoopDone(Yield(s) + rest, 0, lim, Tree(s.c), toks, l1, Done(Tree(s), rest, l));
  }

  lemma LoopStops(x: Expr, rest: seq<Token>, p: nat, lim: Limit)
    requires x != Null && Stops(p, Head(rest))
    ensures ParseLoop(x, rest, p, lim) == Done(x, rest, lim)
  {
  }

  lemma BadIs(rest: seq<Token>, lim: Limit)
    requires Unexpected(Head(rest)) && lim > 1
    ensures ParsePrefix(rest, lim) == Done(Null, rest, lim - 1)
  {
  }

  /** The parser reads every string of the grammar as the grammar's tree, leaves the rest alone, and reports as many
      errors as the grammar counts. */
  lemma {:induction false} Accepts(s: Syn, p: nat, rest: seq<Token>, lim: Limit)
    requires Ok(s, p, Head(rest)) && Errors(s) < lim
    ensures ParseExpr(Yield(s) + rest, p, lim) == Done(Tree(s), rest, lim - Errors(s))
    decreases s, 4
  {
    if s.Missing? || s.SBad? {
      assert Yield(s) + rest == rest;
      if s.SBad? {
        BadIs(rest, lim);
      }
    } else if s.STern? {
      TernReads(s, rest, lim, lim - Errors(s));
    } else if Tree(s) == Null {
      PrefixReads(s, p, rest, lim);
    } else {
      var l := lim - Errors(s);
      Reaches(s, Tree(s), p, rest, lim, l);
      LoopStops(Tree(s), rest, p, l);
      LoopDone(Yield(s) + rest, p, lim, Tree(s), rest, l, Done(Tree(s), rest, l));
    }
  }
}
