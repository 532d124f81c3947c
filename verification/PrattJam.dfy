/** When the parser never ends: exactly when the tokens it has read so far are a grammar's beginning that leads into a
    call's argument list, and there a ']', '}' or ':' or the end of a line or block comes next. */
module PrattJam {
  import opened Options
  import opened Pratt
  import opened PrattGrammar
  import opened PrattExact
  import opened Sequences

  // What stands in front of the token at which a call's argument loop makes no progress, from the outside in.
  datatype Jam =
    | InArgs(k: Ident, args: Args)              // name ( args
    | InArg(k: Ident, args: Args, inner: Jam)   // name ( args, and the next argument
    | InUnary(tok: Token, inner: Jam)
    | InParen(inner: Jam)
    | InElem(x: Syn, elems: Elems, inner: Jam)  // ( x , ... , and the next element
    | InIndex(k: Ident, inner: Jam)
    | InRight(l: Syn, tok: Token, inner: Jam)   // the right operand
    | InYes(c: Syn, inner: Jam)                 // c | and the true branch
    | InNo(c: Syn, t: Syn, inner: Jam)          // c | t , # and the false branch

  function YieldJam(j: Jam): (toks: seq<Token>)
    ensures toks != []
  {
    match j
    case InArgs(k, args) => [NameToken(k), TLParen] + YieldArgs(args)
    case InArg(k, args, inner) => [NameToken(k), TLParen] + (YieldArgs(args) + YieldJam(inner))
    case InUnary(tok, inner) => [tok] + YieldJam(inner)
    case InParen(inner) => [TLParen] + YieldJam(inner)
    case InElem(x, es, inner) => [TLParen] + (Yield(x) + (YieldElems(es) + ([TComma] + YieldJam(inner))))
    case InIndex(k, inner) => [NameToken(k), TLBracket] + YieldJam(inner)
    case InRight(l, tok, inner) => Yield(l) + ([tok] + YieldJam(inner))
    case InYes(c, inner) => Yield(c) + ([TPipe] + YieldJam(inner))
    case InNo(c, t, inner) => Yield(c) + ([TPipe] + (Yield(t) + ([TComma] + ([THash] + YieldJam(inner)))))
  }

  // The errors reported on the way.
  function JamErrors(j: Jam): nat {
    match j
    case InArgs(_, args) => ArgErrors(args)
    case InArg(_, args, inner) => ArgErrors(args) + JamErrors(inner)
    case InUnary(_, inner) => JamErrors(inner)
    case InParen(inner) => JamErrors(inner)
    case InElem(x, es, inner) => Errors(x) + (ElemErrors(es) + JamErrors(inner))
    case InIndex(_, inner) => JamErrors(inner)
    case InRight(l, _, inner) => Errors(l) + JamErrors(inner)
    case InYes(c, inner) => Errors(c) + JamErrors(inner)
    case InNo(c, t, inner) => Errors(c) + (Errors(t) + JamErrors(inner))
  }

  // May j stand in a place of level p, with the argument loop stuck at n?
  predicate OkJam(j: Jam, p: nat, n: Token)
    decreases j
  {
    match j
    case InArgs(_, args) => OkArgs(args, n)
    case InArg(_, args, inner) => OkArgs(args, YieldJam(inner)[0]) && OkJam(inner, 0, n)
    case InUnary(tok, inner) => IsUnary(tok) && OkJam(inner, UnSlot(UnaryOf(tok).value), n)
    case InParen(inner) => OkJam(inner, 0, n)
    case InElem(x, es, inner) => Ok(x, 0, TComma) && OkElems(es, TComma) && OkJam(inner, 0, n)
    case InIndex(_, inner) => OkJam(inner, 0, n)
    case InRight(l, tok, inner) =>
      && IsOperator(tok) && OpPrec(OpOf(tok)) > p && Left(l, p, tok)
      && OkJam(inner, RightSlot(OpOf(tok)), n) && (tok == TOp(Is) ==> YieldJam(inner)[0] != TNot)
    case InYes(c, inner) => p == 0 && Left(c, 0, TPipe) && OkJam(inner, 0, n)
    case InNo(c, t, inner) => p == 0 && Left(c, 0, TPipe) && Ok(t, 0, TComma) && OkJam(inner, 0, n)
  }

  // ---- Every such beginning jams the parser ----

  lemma {:induction false} JamStarts(j: Jam, p: nat, n: Token)
    requires OkJam(j, p, n)
    ensures Begins(YieldJam(j)[0])
  {
    match j
    case InRight(l, tok, _) => FirstStarts(l, p, tok, YieldJam(j));
    case InYes(c, _) => FirstStarts(c, 0, TPipe, YieldJam(j));
    case InNo(c, _, _) => FirstStarts(c, 0, TPipe, YieldJam(j));
    case _ =>
  }

  lemma FirstStarts(l: Syn, p: nat, n: Token, toks: seq<Token>)
    requires Left(l, p, n) && Yield(l) <= toks && toks != []
    ensures Begins(toks[0])
  {
    if Yield(l) == [] {
      EmptyIsNull(l);
    } else {
      Starts(l, p, n);
    }
  }

  lemma StuckArgs(rest: seq<Token>, lim: Limit)
    requires Jams(Head(rest))
    ensures ParseArgs(rest, lim) == Loops
  {
    ArgLoopStuck(rest, lim);
  }

  lemma ArgJams(toks: seq<Token>, lim: Limit)
    requires ParseExpr(toks, 0, lim) == Loops && Head(toks) != TRParen && Head(toks) != TEof
    ensures ParseArgs(toks, lim) == Loops
  {
  }

  lemma CallLoops(k: Ident, toks: seq<Token>, p: nat, lim: Limit)
    requires ParseArgs(toks, lim) == Loops
    ensures ParseExpr([NameToken(k), TLParen] + toks, p, lim) == Loops
  {
    var all := [NameToken(k), TLParen] + toks;
    assert all[1..][0] == TLParen && all[1..][1..] == toks;
    NameOpens(k, all, lim);
  }

  lemma IndexLoops(k: Ident, toks: seq<Token>, lim: Limit)
    requires ParseExpr(toks, 0, lim) == Loops
    ensures ParsePrefix([NameToken(k), TLBracket] + toks, lim) == Loops
  {
    var all := [NameToken(k), TLBracket] + toks;
    assert all[1..][0] == TLBracket && all[1..][1..] == toks;
    NameOpens(k, all, lim);
  }

  lemma UnaryLoops(t: Token, toks: seq<Token>, lim: Limit)
    requires IsUnary(t) && ParseExpr(toks, UnSlot(UnaryOf(t).value), lim) == Loops
    ensures ParsePrefix([t] + toks, lim) == Loops
  {
    assert ([t] + toks)[1..] == toks;
    assert ParseUnary(UnaryOf(t).value, toks, lim) == Loops;
  }

  lemma ParenLoops(toks: seq<Token>, lim: Limit)
    requires ParseGroup(toks, lim) == Loops
    ensures ParsePrefix([TLParen] + toks, lim) == Loops
  {
    assert ([TLParen] + toks)[1..] == toks;
  }

  lemma InfixLoops(left: Expr, tok: Token, toks: seq<Token>, p: nat, lim: Limit)
    requires left != Null && IsOperator(tok) && OpPrec(OpOf(tok)) > p && (tok == TOp(Is) ==> Head(toks) != TNot)
    requires ParseExpr(toks, RightSlot(OpOf(tok)), lim) == Loops
    ensures ParseLoop(left, [tok] + toks, p, lim) == Loops
  {
    assert ([tok] + toks)[1..] == toks;
    assert ParseInfix(left, [tok] + toks, lim) == Loops;
  }

  lemma FirstElemLoops(toks: seq<Token>, lim: Limit)
    requires Head(toks) != TRParen && ParseExpr(toks, 0, lim) == Loops
    ensures ParseElems([TComma] + toks, lim) == Loops
  {
    assert ([TComma] + toks)[1..] == toks;
  }

  lemma ElemThenLoops(toks: seq<Token>, lim: Limit, x: Expr, after: seq<Token>, l: Limit)
    requires Head(toks) != TRParen && ParseExpr(toks, 0, lim) == Done(x, after, l)
    requires Head(after) == TComma && ParseElems(after, l) == Loops
    ensures ParseElems([TComma] + toks, lim) == Loops
  {
    assert ([TComma] + toks)[1..] == toks;
  }

  // The elements in front of one that jams.
  lemma {:induction false} ElemsThenLoops(es: Elems, rest: seq<Token>, lim: Limit, l: Limit)
    requires OkElems(es, TComma) && lim == l + ElemErrors(es)
    requires ParseExpr(rest, 0, l) == Loops && Head(rest) != TRParen
    ensures ParseElems(YieldElems(es) + ([TComma] + rest), lim) == Loops
    decreases es
  {
    var close := [TComma] + rest;
    if es.NoElem? {
      assert YieldElems(es) + close == close;
      FirstElemLoops(rest, lim);
    } else {
      var after, l1 := YieldElems(es.more) + close, lim - Errors(es.x);
      assert ParseElems(after, l1) == Loops by {
        ElemsThenLoops(es.more, rest, l1, l);
      }
      assert Head(after) == TComma;
      ElemJams(es.x, after, lim, l1);
      Assoc4([TComma], Yield(es.x), YieldElems(es.more), close);
    }
  }

  lemma ElemJams(x: Syn, after: seq<Token>, lim: Limit, l: Limit)
    requires Ok(x, 0, TComma) && Head(after) == TComma && lim == l + Errors(x) && ParseElems(after, l) == Loops
    ensures ParseElems([TComma] + (Yield(x) + after), lim) == Loops
  {
    Accepts(x, 0, after, lim);
    NoParenFirst(x, after);
    ElemThenLoops(Yield(x) + after, lim, Tree(x), after, l);
  }

  lemma TupleLoops(toks: seq<Token>, lim: Limit, x: Expr, r: seq<Token>, l: Limit)
    requires ParseExpr(toks, 0, lim) == Done(x, r, l) && Head(r) == TComma && ParseElems(r, l) == Loops
    ensures ParseGroup(toks, lim) == Loops
  {
    assert ParseTuple(x, r, l) == Loops;
  }

  lemma YesLoops(c: Expr, toks: seq<Token>, lim: Limit)
    requires c != Null && ParseExpr(toks, 0, lim) == Loops
    ensures ParseLoop(c, [TPipe] + toks, 0, lim) == Loops
  {
    assert ([TPipe] + toks)[1..] == toks;
  }

  lemma NoLoops(c: Expr, toks: seq<Token>, lim: Limit, t: Expr, rest: seq<Token>, l: Limit)
    requires c != Null && ParseExpr(toks, 0, lim) == Done(t, [TComma] + ([THash] + rest), l) &&
      ParseExpr(rest, 0, l) == Loops
    ensures ParseLoop(c, [TPipe] + toks, 0, lim) == Loops
  {
    assert ([TPipe] + toks)[1..] == toks && ([TComma] + ([THash] + rest))[1..] == [THash] + rest;
    assert ([THash] + rest)[1..] == rest;
    assert Marks(t, [TComma] + ([THash] + rest), l) == Done(t, rest, l);
  }

  lemma PrefixLoops(toks: seq<Token>, p: nat, lim: Limit)
    requires ParsePrefix(toks, lim) == Loops
    ensures ParseExpr(toks, p, lim) == Loops
  {
  }

  /** Such a beginning jams the parser. */
  lemma {:induction false} JamLoops(j: Jam, p: nat, rest: seq<Token>, lim: Limit)
    requires Jams(Head(rest)) && OkJam(j, p, Head(rest)) && JamErrors(j) < lim
    ensures ParseExpr(YieldJam(j) + rest, p, lim) == Loops
    decreases j, 2
  {
    match j
    case InArgs(_, _) => InArgsLoops(j, p, rest, lim);
    case InArg(_, _, _) => InArgLoops(j, p, rest, lim);
    case InRight(_, _, _) => InRightLoops(j, p, rest, lim);
    case InYes(_, _) => InYesLoops(j, rest, lim);
    case InNo(_, _, _) => InNoLoops(j, rest, lim);
    case InElem(_, _, _) => InElemLoops(j, p, rest, lim);
    case _ => PrefixJams(j, p, rest, lim);
  }

  lemma {:induction false} PrefixJams(j: Jam, p: nat, rest: seq<Token>, lim: Limit)
    requires (j.InUnary? || j.InParen? || j.InIndex?) && Jams(Head(rest)) && OkJam(j, p, Head(rest)) &&
      JamErrors(j) < lim
    ensures ParseExpr(YieldJam(j) + rest, p, lim) == Loops
    decreases j, 0
  {
    var tail := YieldJam(j.inner) + rest;
    match j
    case InUnary(tok, inner) =>
      JamLoops(inner, UnSlot(UnaryOf(tok).value), rest, lim);
      UnaryLoops(tok, tail, lim);
      Assoc([tok], YieldJam(inner), rest);
    case InParen(inner) =>
      JamLoops(inner, 0, rest, lim);
      ParenLoops(tail, lim);
      Assoc([TLParen], YieldJam(inner), rest);
    case InIndex(k, inner) =>
      JamLoops(inner, 0, rest, lim);
      IndexLoops(k, tail, lim);
      Assoc([NameToken(k), TLBracket], YieldJam(inner), rest);
  }

  // A call whose argument list jams behind args.
  lemma ListLoops(k: Ident, args: Args, rest: seq<Token>, p: nat, lim: Limit, l: Limit)
    requires OkArgs(args, Head(rest)) && lim == l + ArgErrors(args) && ParseArgs(rest, l) == Loops
    ensures ParseExpr([NameToken(k), TLParen] + (YieldArgs(args) + rest), p, lim) == Loops
  {
    assert ParseArgs(YieldArgs(args) + rest, lim) == Loops by {
      ArgsRead(args, rest, lim, l, Loops);
    }
    CallLoops(k, YieldArgs(args) + rest, p, lim);
  }

  lemma {:induction false} InArgsLoops(j: Jam, p: nat, rest: seq<Token>, lim: Limit)
    requires j.InArgs? && Jams(Head(rest)) && OkJam(j, p, Head(rest)) && JamErrors(j) < lim
    ensures ParseExpr(YieldJam(j) + rest, p, lim) == Loops
  {
    StuckArgs(rest, lim - ArgErrors(j.args));
    ListLoops(j.k, j.args, rest, p, lim, lim - ArgErrors(j.args));
    Assoc([NameToken(j.k), TLParen], YieldArgs(j.args), rest);
  }

  lemma {:induction false} InArgLoops(j: Jam, p: nat, rest: seq<Token>, lim: Limit)
    requires j.InArg? && Jams(Head(rest)) && OkJam(j, p, Head(rest)) && JamErrors(j) < lim
    ensures ParseExpr(YieldJam(j) + rest, p, lim) == Loops
    decreases j, 0
  {
    var tail, l := YieldJam(j.inner) + rest, lim - ArgErrors(j.args);
    assert ParseArgs(tail, l) == Loops by {
      JamLoops(j.inner, 0, rest, l);
      JamStarts(j.inner, 0, Head(rest));
      ArgJams(tail, l);
    }
    ListLoops(j.k, j.args, tail, p, lim, l);
    Assoc4([NameToken(j.k), TLParen], YieldArgs(j.args), YieldJam(j.inner), rest);
  }

  // A tuple that jams behind its first elements.
  lemma TailLoops(x: Syn, es: Elems, tail: seq<Token>, p: nat, lim: Limit, l: Limit)
    requires Ok(x, 0, TComma) && OkElems(es, TComma) && lim == l + ElemErrors(es) + Errors(x)
    requires ParseExpr(tail, 0, l) == Loops && Head(tail) != TRParen
    ensures ParseExpr([TLParen] + (Yield(x) + (YieldElems(es) + ([TComma] + tail))), p, lim) == Loops
  {
    var elems, l1 := YieldElems(es) + ([TComma] + tail), l + ElemErrors(es);
    assert ParseElems(elems, l1) == Loops by {
      ElemsThenLoops(es, tail, l1, l);
    }
    assert Head(elems) == TComma;
    assert ParseGroup(Yield(x) + elems, lim) == Loops by {
      Accepts(x, 0, elems, lim);
      TupleLoops(Yield(x) + elems, lim, Tree(x), elems, l1);
    }
    ParenLoops(Yield(x) + elems, lim);
    PrefixLoops([TLParen] + (Yield(x) + elems), p, lim);
  }

  lemma {:induction false} InElemLoops(j: Jam, p: nat, rest: seq<Token>, lim: Limit)
    requires j.InElem? && Jams(Head(rest)) && OkJam(j, p, Head(rest)) && JamErrors(j) < lim
    ensures ParseExpr(YieldJam(j) + rest, p, lim) == Loops
    decreases j, 0
  {
    var tail, l := YieldJam(j.inner) + rest, lim - Errors(j.x) - ElemErrors(j.elems);
    assert ParseExpr(tail, 0, l) == Loops && Head(tail) != TRParen by {
      JamLoops(j.inner, 0, rest, l);
      JamStarts(j.inner, 0, Head(rest));
    }
    TailLoops(j.x, j.elems, tail, p, lim, l);
    ElemTokens(j, rest, YieldElems(j.elems) + ([TComma] + tail));
  }

  lemma ElemTokens(j: Jam, rest: seq<Token>, elems: seq<Token>)
    requires j.InElem? && elems == YieldElems(j.elems) + ([TComma] + (YieldJam(j.inner) + rest))
    ensures YieldJam(j) + rest == [TLParen] + (Yield(j.x) + elems)
  {
    Assoc([TComma], YieldJam(j.inner), rest);
    Assoc5([TLParen], Yield(j.x), YieldElems(j.elems), [TComma] + YieldJam(j.inner), rest);
  }

  // Behind an operand on the left.
  lemma LeftLoops(c: Syn, e: Expr, p: nat, rest: seq<Token>, lim: Limit, l: Limit)
    requires Left(c, p, Head(rest)) && e == Tree(c) && lim == l + Errors(c) && ParseLoop(e, rest, p, l) == Loops
    ensures ParseExpr(Yield(c) + rest, p, lim) == Loops
  {
    Reaches(c, e, p, rest, lim, l);
  }

  lemma {:induction false} InRightLoops(j: Jam, p: nat, rest: seq<Token>, lim: Limit)
    requires j.InRight? && Jams(Head(rest)) && OkJam(j, p, Head(rest)) && JamErrors(j) < lim
    ensures ParseExpr(YieldJam(j) + rest, p, lim) == Loops
    decreases j, 0
  {
    var tail, l := YieldJam(j.inner) + rest, lim - Errors(j.l);
    assert ParseLoop(Tree(j.l), [j.tok] + tail, p, l) == Loops by {
      JamLoops(j.inner, RightSlot(OpOf(j.tok)), rest, l);
      InfixLoops(Tree(j.l), j.tok, tail, p, l);
    }
    LeftLoops(j.l, Tree(j.l), p, [j.tok] + tail, lim, l);
    Assoc4(Yield(j.l), [j.tok], YieldJam(j.inner), rest);
  }

  lemma {:induction false} InYesLoops(j: Jam, rest: seq<Token>, lim: Limit)
    requires j.InYes? && Jams(Head(rest)) && OkJam(j, 0, Head(rest)) && JamErrors(j) < lim
    ensures ParseExpr(YieldJam(j) + rest, 0, lim) == Loops
    decreases j, 0
  {
    var tail, l := YieldJam(j.inner) + rest, lim - Errors(j.c);
    assert ParseLoop(Tree(j.c), [TPipe] + tail, 0, l) == Loops by {
      JamLoops(j.inner, 0, rest, l);
      YesLoops(Tree(j.c), tail, l);
    }
    LeftLoops(j.c, Tree(j.c), 0, [TPipe] + tail, lim, l);
    Assoc4(Yield(j.c), [TPipe], YieldJam(j.inner), rest);
  }

  // A ternary that jams in its false branch.
  lemma FalseLoops(c: Expr, t: Syn, tail: seq<Token>, lim: Limit, l: Limit)
    requires c != Null && Ok(t, 0, TComma) && lim == l + Errors(t) && ParseExpr(tail, 0, l) == Loops
    ensures ParseLoop(c, [TPipe] + (Yield(t) + ([TComma] + ([THash] + tail))), 0, lim) == Loops
  {
    var r1 := [TComma] + ([THash] + tail);
    assert ParseExpr(Yield(t) + r1, 0, lim) == Done(Tree(t), r1, l) by {
      Accepts(t, 0, r1, lim);
    }
    NoLoops(c, Yield(t) + r1, lim, Tree(t), tail, l);
  }

  lemma TernaryLoops(c: Syn, e: Expr, t: Syn, tail: seq<Token>, lim: Limit, l1: Limit, l: Limit)
    requires Left(c, 0, TPipe) && Ok(t, 0, TComma) && e == Tree(c) && lim == l1 + Errors(c) && l1 == l + Errors(t)
    requires ParseExpr(tail, 0, l) == Loops
    ensures ParseExpr(Yield(c) + ([TPipe] + (Yield(t) + ([TComma] + ([THash] + tail)))), 0, lim) == Loops
  {
    var toks := [TPipe] + (Yield(t) + ([TComma] + ([THash] + tail)));
    FalseLoops(e, t, tail, l1, l);
    LeftLoops(c, e, 0, toks, lim, l1);
  }

  lemma {:induction false} InNoLoops(j: Jam, rest: seq<Token>, lim: Limit)
    requires j.InNo? && Jams(Head(rest)) && OkJam(j, 0, Head(rest)) && JamErrors(j) < lim
    ensures ParseExpr(YieldJam(j) + rest, 0, lim) == Loops
    decreases j, 0
  {
    var tail, l := YieldJam(j.inner) + rest, lim - Errors(j.c) - Errors(j.t);
    JamLoops(j.inner, 0, rest, l);
    TernaryLoops(j.c, Tree(j.c), j.t, tail, lim, l + Errors(j.t), l);
    NoTokens(j, rest, [TPipe] + (Yield(j.t) + ([TComma] + ([THash] + tail))));
  }

  lemma NoTokens(j: Jam, rest: seq<Token>, toks: seq<Token>)
    requires j.InNo? && toks == [TPipe] + (Yield(j.t) + ([TComma] + ([THash] + (YieldJam(j.inner) + rest))))
    ensures YieldJam(j) + rest == Yield(j.c) + toks
  {
    Assoc([THash], YieldJam(j.inner), rest);
    Assoc5([TPipe], Yield(j.t), [TComma], [THash] + YieldJam(j.inner), rest);
    Assoc(Yield(j.c), [TPipe] + (Yield(j.t) + ([TComma] + ([THash] + YieldJam(j.inner)))), rest);
  }

  // ---- Every parse that never ends has such a beginning ----

  // j is what was read in front of rest, with fewer errors than would have ended the parse, and the loop is stuck
  // there.
  ghost predicate ReadJam(j: Jam, toks: seq<Token>, lim: int, rest: seq<Token>, p: nat) {
    toks == YieldJam(j) + rest && Jams(Head(rest)) && OkJam(j, p, Head(rest)) && JamErrors(j) < lim
  }

  predicate PrefixJam(j: Jam) {
    !j.InRight? && !j.InYes? && !j.InNo?
  }

  lemma JamAny(j: Jam, p: nat, n: Token)
    requires PrefixJam(j) && OkJam(j, 0, n)
    ensures OkJam(j, p, n)
  {
  }

  lemma {:induction false} FromPrefixLoops(toks: seq<Token>, lim: Limit) returns (j: Jam, rest: seq<Token>)
    requires ParsePrefix(toks, lim) == Loops
    ensures ReadJam(j, toks, lim, rest, 0) && PrefixJam(j)
    decreases |toks|, lim, 2
  {
    var t := Head(toks);
    assert toks == [t] + toks[1..];
    if IsUnary(t) {
      var inner;
      inner, rest := FromExprLoops(toks[1..], UnSlot(UnaryOf(t).value), lim);
      j := InUnary(t, inner);
      Assoc([t], YieldJam(inner), rest);
    } else if t == TLParen {
      j, rest := FromGroupLoops(toks[1..], lim);
    } else {
      j, rest := FromNameLoops(if t.TName? then Word(t.name) else PlusSign, toks[1..], lim);
    }
  }

  lemma {:induction false} FromGroupLoops(toks: seq<Token>, lim: Limit) returns (j: Jam, rest: seq<Token>)
    requires ParseGroup(toks, lim) == Loops
    ensures ReadJam(j, [TLParen] + toks, lim, rest, 0) && PrefixJam(j)
    decreases |toks|, lim, 5
  {
    var o := ParseExpr(toks, 0, lim);
    var inner;
    if o == Loops {
      inner, rest := FromExprLoops(toks, 0, lim);
      j := InParen(inner);
      Assoc([TLParen], YieldJam(inner), rest);
    } else {
      var x := FromExpr(toks, 0, lim, o);
      var es, tail, l := FromElemsLoops(o.rest, o.lim);
      inner, rest := FromExprLoops(tail, 0, l);
      j := InElem(x, es, inner);
      ElemTokens(j, rest, o.rest);
    }
  }

  // The elements in front of the one that never ends, which starts at tail.
  lemma {:induction false} FromElemsLoops(toks: seq<Token>, lim: Limit) returns (es: Elems, tail: seq<Token>, l: Limit)
    requires Head(toks) == TComma && ParseElems(toks, lim) == Loops
    ensures toks == YieldElems(es) + ([TComma] + tail) && OkElems(es, TComma) && lim == l + ElemErrors(es)
    ensures ParseExpr(tail, 0, l) == Loops && |tail| < |toks|
    decreases |toks|, lim, 3
  {
    var r := toks[1..];
    assert toks == [TComma] + r;
    var o := ParseExpr(r, 0, lim);
    if o == Loops {
      es, tail, l := NoElem, r, lim;
      assert YieldElems(es) + toks == toks;
    } else {
      var x := FromExpr(r, 0, lim, o);
      var more;
      more, tail, l := FromElemsLoops(o.rest, o.lim);
      es := Elem(x, more);
      Assoc4([TComma], Yield(x), YieldElems(more), [TComma] + tail);
    }
  }

  lemma {:induction false} FromNameLoops(k: Ident, toks: seq<Token>, lim: Limit) returns (j: Jam, rest: seq<Token>)
    requires ParseName(k, toks, lim) == Loops
    ensures ReadJam(j, [NameToken(k)] + toks, lim, rest, 0) && PrefixJam(j)
    decreases |toks|, lim, 5
  {
    assert toks == [toks[0]] + toks[1..];
    Assoc([NameToken(k)], [toks[0]], toks[1..]);
    assert [NameToken(k)] + [toks[0]] == [NameToken(k), toks[0]];
    if toks[0] == TLParen {
      j, rest := FromCallLoops(k, toks[1..], lim);
    } else {
      var inner;
      inner, rest := FromExprLoops(toks[1..], 0, lim);
      j := InIndex(k, inner);
      Assoc([NameToken(k), TLBracket], YieldJam(inner), rest);
    }
  }

  lemma {:induction false} FromCallLoops(k: Ident, toks: seq<Token>, lim: Limit) returns (j: Jam, rest: seq<Token>)
    requires ParseArgs(toks, lim) == Loops
    ensures ReadJam(j, [NameToken(k), TLParen] + toks, lim, rest, 0) && PrefixJam(j)
    decreases |toks|, lim, 7
  {
    var args, tail, l := FromArgsLoops(toks, lim);
    if Jams(Head(tail)) {
      j, rest := InArgs(k, args), tail;
      Assoc([NameToken(k), TLParen], YieldArgs(args), rest);
    } else {
      var inner;
      inner, rest := FromExprLoops(tail, 0, l);
      j := InArg(k, args, inner);
      Assoc4([NameToken(k), TLParen], YieldArgs(args), YieldJam(inner), rest);
    }
  }

  // The arguments in front of the token at which nothing is consumed, or of the argument that never ends.
  lemma {:induction false} FromArgsLoops(toks: seq<Token>, lim: Limit) returns (args: Args, tail: seq<Token>, l: Limit)
    requires ParseArgs(toks, lim) == Loops
    ensures toks == YieldArgs(args) + tail && OkArgs(args, Head(tail)) && lim == l + ArgErrors(args)
    ensures (Jams(Head(tail)) || ParseExpr(tail, 0, l) == Loops) && |tail| <= |toks| && l <= lim
    decreases |toks|, lim, 6
  {
    var o := ArgTurn(toks, lim);
    if !o.Done? || (|o.rest| == |toks| && o.lim == lim) {
      args, tail, l := NoArg, toks, lim;
      assert YieldArgs(args) + toks == toks;
      if o.Done? {
        NothingRead(toks, lim, o);
      }
    } else {
      var x, comma := FromArg(toks, lim, o);
      var more;
      more, tail, l := FromArgsLoops(o.rest, o.lim);
      args := Arg(x, comma, more);
      ArgsSplit(args, tail);
    }
  }

  lemma {:induction false} FromExprLoops(toks: seq<Token>, p: nat, lim: Limit) returns (j: Jam, rest: seq<Token>)
    requires ParseExpr(toks, p, lim) == Loops
    ensures ReadJam(j, toks, lim, rest, p)
    decreases |toks|, lim, 4
  {
    var o := ParsePrefix(toks, lim);
    if o == Loops {
      j, rest := FromPrefixLoops(toks, lim);
      JamAny(j, p, Head(rest));
    } else {
      var x := FromPrefix(toks, lim, o);
      ShapeAny(x, p, Head(o.rest));
      j, rest := FromLoopLoops(x, o.rest, p, o.lim);
    }
  }

  lemma {:induction false} FromLoopLoops(x: Syn, toks: seq<Token>, p: nat, lim: Limit)
    returns (j: Jam, rest: seq<Token>)
    requires Left(x, p, Head(toks)) && ParseLoop(Tree(x), toks, p, lim) == Loops
    ensures ReadJam(j, Yield(x) + toks, lim + Errors(x), rest, p)
    decreases |toks|, lim, 3
  {
    if Prec(Head(toks)) <= p {
      j, rest := FromTernaryLoops(x, toks, p, lim);
    } else {
      var o := ParseInfix(Tree(x), toks, lim);
      if o == Loops {
        j, rest := FromInfixLoops(x, toks, p, lim);
      } else {
        var y := FromInfix(x, toks, p, lim, o);
        j, rest := FromLoopLoops(y, o.rest, p, o.lim);
      }
    }
  }

  lemma {:induction false} FromInfixLoops(x: Syn, toks: seq<Token>, p: nat, lim: Limit)
    returns (j: Jam, rest: seq<Token>)
    requires Left(x, p, Head(toks)) && Prec(Head(toks)) > p && ParseInfix(Tree(x), toks, lim) == Loops
    ensures ReadJam(j, Yield(x) + toks, lim + Errors(x), rest, p)
    decreases |toks|, lim, 1
  {
    var t := Head(toks);
    assert toks == [t] + toks[1..];
    var inner;
    inner, rest := FromExprLoops(toks[1..], RightSlot(OpOf(t)), lim);
    j := InRight(x, t, inner);
    Assoc4(Yield(x), [t], YieldJam(inner), rest);
    assert Head(toks[1..]) == YieldJam(inner)[0];
  }

  // Which branch never ends.
  lemma TernaryStuck(c: Expr, toks: seq<Token>, lim: Limit) returns (o: Outcome<Expr>, o2: Outcome<Expr>)
    requires c != Null && ParseTernary(c, toks, 0, lim) == Loops
    ensures toks != [] && toks == [TPipe] + toks[1..] && o == ParseExpr(toks[1..], 0, lim)
    ensures o == Loops || (o.Done? && o2 == Marks(o.tree, o.rest, o.lim) && o2.Done? && |o2.rest| < |toks| &&
      ParseExpr(o2.rest, 0, o2.lim) == Loops)
  {
    o := ParseExpr(toks[1..], 0, lim);
    o2 := if o.Done? then Marks(o.tree, o.rest, o.lim) else o;
  }

  lemma {:induction false} FromTernaryLoops(x: Syn, toks: seq<Token>, p: nat, lim: Limit)
    returns (j: Jam, rest: seq<Token>)
    requires Left(x, p, Head(toks)) && Prec(Head(toks)) <= p && ParseTernary(Tree(x), toks, p, lim) == Loops
    ensures ReadJam(j, Yield(x) + toks, lim + Errors(x), rest, p)
    decreases |toks|, lim, 1
  {
    var o, o2 := TernaryStuck(Tree(x), toks, lim);
    var inner;
    if o == Loops {
      inner, rest := FromExprLoops(toks[1..], 0, lim);
      j := InYes(x, inner);
      Assoc4(Yield(x), [TPipe], YieldJam(inner), rest);
    } else {
      var t := FromExpr(toks[1..], 0, lim, o);
      inner, rest := FromExprLoops(o2.rest, 0, o2.lim);
      j := InNo(x, t, inner);
      JoinNo(j, toks, lim, o, o2, rest);
    }
  }

  lemma JoinNo(j: Jam, toks: seq<Token>, lim: Limit, o: Outcome<Expr>, o2: Outcome<Expr>, rest: seq<Token>)
    requires j.InNo? && Left(j.c, 0, TPipe) && toks != [] && toks == [TPipe] + toks[1..]
    requires Read(j.t, toks[1..], lim, o) && Ok(j.t, 0, Head(o.rest)) && o2 == Marks(o.tree, o.rest, o.lim) && o2.Done?
    requires ReadJam(j.inner, o2.rest, o2.lim, rest, 0)
    ensures ReadJam(j, Yield(j.c) + toks, lim + Errors(j.c), rest, 0)
  {
    JamStarts(j.inner, 0, Head(rest));
    BothMarks(o, o2);
    NoTokens(j, rest, toks);
  }

  // An expression does not start where a missing mark would have been looked for.
  lemma BothMarks(o: Outcome<Expr>, o2: Outcome<Expr>)
    requires o.Done? && o2 == Marks(o.tree, o.rest, o.lim) && o2.Done? && Begins(Head(o2.rest))
    ensures o.rest == [TComma] + ([THash] + o2.rest) && o2.lim == o.lim
  {
    var comma, hash := FromMarks(o.tree, o.rest, o.lim, o2);
    assert hash == Met && comma == Met;
  }

  /** The parser never ends exactly when some beginning of its tokens leads into a call's argument list, at any depth
      and behind any expressions the grammar allows, a ']', '}' or ':' or the end of a line or block comes next, and
      the errors reported on the way have not ended the parse. */
  lemma NeverEndsExactly(toks: seq<Token>, p: nat, lim: Limit)
    ensures ParseExpr(toks, p, lim) == Loops <==> exists j, rest :: ReadJam(j, toks, lim, rest, p)
  {
    if ParseExpr(toks, p, lim) == Loops {
      var j, rest := FromExprLoops(toks, p, lim);
    }
    if j, rest :| ReadJam(j, toks, lim, rest, p) {
      JamLoops(j, p, rest, lim);
    }
  }

  // A call with one argument and no closing parenthesis, at the end of a line.
  lemma OneArgLoops(f: nat, s: Syn, toks: seq<Token>, p: nat, lim: Limit)
    requires Ok(s, 0, TBreak) && Yield(s) != [] && Errors(s) < lim &&
      toks == [TName(f), TLParen] + (Yield(s) + [TBreak])
    ensures ParseExpr(toks, p, lim) == Loops
  {
    var args, l := Arg(s, false, NoArg), lim - Errors(s);
    assert YieldArgs(NoArg) == [] && OkArgs(NoArg, TBreak) && ArgErrors(NoArg) == 0;
    assert YieldArgs(args) == Yield(s) && OkArgs(args, TBreak) && ArgErrors(args) == Errors(s);
    StuckArgs([TBreak], l);
    ListLoops(Word(f), args, [TBreak], p, lim, l);
  }

  /** `( f ( 1` at the end of a line: the parser never ends. */
  lemma OpenCallExample(f: nat, lim: Limit)
    ensures ParseExpr([TLParen, TName(f), TLParen, TLit(1), TBreak], 0, lim) == Loops
  {
    var toks := [TName(f), TLParen, TLit(1), TBreak];
    OneArgLoops(f, SLit(1), toks, 0, lim);
    ParenLoops(toks, lim);
    PrefixLoops([TLParen] + toks, 0, lim);
    assert [TLParen] + toks == [TLParen, TName(f), TLParen, TLit(1), TBreak];
  }

  /** `f ( ( 1 2 ) )` at the end of a line: all brackets match, and the parser never ends unless one error is too many.
      The missing ')' behind the 1 is reported, and what stands in front of the end of the line is dropped. */
  lemma ResyncExample(f: nat, lim: Limit)
    requires lim > 1
    ensures ParseExpr([TName(f), TLParen, TLParen, TLit(1), TLit(2), TRParen, TRParen, TBreak], 0, lim) == Loops
  {
    var s := SParen(SLit(1), Skipped([TLit(2), TRParen, TRParen]));
    assert Yield(s) == [TLParen, TLit(1), TLit(2), TRParen, TRParen] && Ok(s.x, 0, TLit(2));
    OneArgLoops(f, s, [TName(f), TLParen, TLParen, TLit(1), TLit(2), TRParen, TRParen, TBreak], 0, lim);
  }

  /** `f ( a [ 1` at the end of a line is another such input. */
  lemma OpenIndexExample(f: nat, a: nat, lim: Limit)
    requires lim > 1
    ensures ParseExpr([TName(f), TLParen, TName(a), TLBracket, TLit(1), TBreak], 0, lim) == Loops
  {
    var s := SIndex(Word(a), SLit(1), Skipped([]));
    assert Yield(s) == [TName(a), TLBracket, TLit(1)] && Ok(s.x, 0, TBreak);
    OneArgLoops(f, s, [TName(f), TLParen, TName(a), TLBracket, TLit(1), TBreak], 0, lim);
  }
}
