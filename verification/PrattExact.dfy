/** Everything the parser accepts is a string of the grammar; trees print with needed parentheses only and read back. */
module PrattExact {
  import opened Options
  import opened Pratt
  import opened PrattGrammar
  import opened Sequences

  // ---- From a finished parse back to the grammar ----

  // s is what was read in front of o's rest, with as many errors reported.
  ghost predicate Read(s: Syn, toks: seq<Token>, lim: int, o: Outcome<Expr>) {
    o.Done? && toks == Yield(s) + o.rest && Tree(s) == o.tree && lim == o.lim + Errors(s)
  }

  lemma {:induction false} FromResync(toks: seq<Token>) returns (skip: seq<Token>)
    ensures toks == skip + Resync(toks) && (forall x :: x in skip ==> !Halts(x))
    ensures First(skip, Head(Resync(toks))) == Head(toks)
    decreases |toks|
  {
    if Halts(Head(toks)) {
      skip := [];
    } else {
      var more := FromResync(toks[1..]);
      skip := [toks[0]] + more;
      Assoc([toks[0]], more, Resync(toks[1..]));
    }
  }

  lemma FromExpect<T>(x: T, t: Token, toks: seq<Token>, lim: Limit, o: Outcome<T>) returns (e: Ending)
    requires t != TEof && o == Expect(x, t, toks, lim) && o.Done?
    ensures toks == YieldEnd(t, e) + o.rest && OkEnd(t, e, Head(o.rest)) && lim == o.lim + EndErrors(e)
  {
    if Head(toks) == t {
      e := Met;
    } else {
      var skip := FromResync(toks);
      e := Skipped(skip);
    }
  }

  // Behind a prefix no infix operator is too weak: it fits into the tightest place.
  lemma {:induction false} FromPrefix(toks: seq<Token>, lim: Limit, o: Outcome<Expr>) returns (s: Syn)
    requires o == ParsePrefix(toks, lim) && o.Done?
    ensures Read(s, toks, lim, o) && Ok(s, 10, Head(o.rest)) && (Prefix(s) || s == Missing || s == SBad)
    decreases |toks|, lim, 2
  {
    var t := Head(toks);
    if Terminator(t) || Unexpected(t) {
      NothingStarts(toks, lim);
      s := FromNothing(toks, lim, o);
    } else {
      assert toks == [t] + toks[1..];
      if IsUnary(t) {
        s := FromUnary(t, toks[1..], lim, o);
      } else if t == TLParen {
        s := FromGroup(toks[1..], lim, o);
      } else if t.TLit? {
        s := SLit(t.lit);
      } else {
        s := FromName(if t.TName? then Word(t.name) else PlusSign, toks[1..], lim, o);
      }
    }
  }

  lemma NothingStarts(toks: seq<Token>, lim: Limit)
    ensures Terminator(Head(toks)) ==> ParsePrefix(toks, lim) == Done(Null, toks, lim)
    ensures Unexpected(Head(toks)) ==> ParsePrefix(toks, lim) == Report(Null, toks, lim)
  {
  }

  lemma FromNothing(toks: seq<Token>, lim: Limit, o: Outcome<Expr>) returns (s: Syn)
    requires Terminator(Head(toks)) || Unexpected(Head(toks))
    requires o == (if Terminator(Head(toks)) then Done(Null, toks, lim) else Report(Null, toks, lim)) && o.Done?
    ensures Read(s, toks, lim, o) && Ok(s, 10, Head(o.rest)) && (s == Missing || s == SBad)
  {
    s := if Terminator(Head(toks)) then Missing else SBad;
    assert toks == [] + toks;
  }

  lemma {:induction false} FromUnary(t: Token, toks: seq<Token>, lim: Limit, o: Outcome<Expr>) returns (s: Syn)
    requires IsUnary(t) && o == ParseUnary(UnaryOf(t).value, toks, lim) && o.Done?
    ensures Read(s, [t] + toks, lim, o) && Ok(s, 10, Head(o.rest)) && Prefix(s)
    decreases |toks|, lim, 5
  {
    var x := FromExpr(toks, UnSlot(UnaryOf(t).value), lim, ParseExpr(toks, UnSlot(UnaryOf(t).value), lim));
    s := SUn(t, x);
    Assoc([t], Yield(x), o.rest);
  }

  lemma {:induction false} FromGroup(toks: seq<Token>, lim: Limit, o: Outcome<Expr>) returns (s: Syn)
    requires o == ParseGroup(toks, lim) && o.Done?
    ensures Read(s, [TLParen] + toks, lim, o) && Ok(s, 10, Head(o.rest)) && Prefix(s)
    decreases |toks|, lim, 5
  {
    var o1 := ParseExpr(toks, 0, lim);
    var x := FromExpr(toks, 0, lim, o1);
    if Head(o1.rest) == TComma {
      s := FromTuple(x, toks, lim, o1.rest, o1.lim, o);
    } else {
      s := FromParen(x, toks, lim, o1.rest, o1.lim, o);
    }
  }

  lemma FromParen(x: Syn, toks: seq<Token>, lim: Limit, r: seq<Token>, l: Limit, o: Outcome<Expr>) returns (s: Syn)
    requires toks == Yield(x) + r && Ok(x, 0, Head(r)) && Head(r) != TComma && lim == l + Errors(x)
    requires o == Expect(Tree(x), TRParen, r, l) && o.Done?
    ensures Read(s, [TLParen] + toks, lim, o) && Ok(s, 10, Head(o.rest)) && Prefix(s)
  {
    var close := FromExpect(Tree(x), TRParen, r, l, o);
    s := SParen(x, close);
    JoinParen(x, close, o.rest);
  }

  lemma JoinParen(x: Syn, close: Ending, rest: seq<Token>)
    requires var r := YieldEnd(TRParen, close) + rest; Ok(x, 0, Head(r)) && Head(r) != TComma
    requires OkEnd(TRParen, close, Head(rest))
    ensures [TLParen] + (Yield(x) + (YieldEnd(TRParen, close) + rest)) == Yield(SParen(x, close)) + rest
    ensures Ok(SParen(x, close), 10, Head(rest))
  {
    FirstOfBoth(YieldEnd(TRParen, close), rest);
    Assoc4([TLParen], Yield(x), YieldEnd(TRParen, close), rest);
  }

  lemma {:induction false} FromTuple(x: Syn, toks: seq<Token>, lim: Limit, r: seq<Token>, l: Limit, o: Outcome<Expr>)
    returns (s: Syn)
    requires toks == Yield(x) + r && Ok(x, 0, TComma) && Head(r) == TComma && lim == l + Errors(x)
    requires o == ParseTuple(Tree(x), r, l) && o.Done?
    ensures Read(s, [TLParen] + toks, lim, o) && Ok(s, 10, Head(o.rest)) && Prefix(s)
    decreases |r|, l, 4
  {
    var o1 := ParseElems(r, l);
    var es := FromElems(r, l, o1);
    var kind, close := FromClose(Add(Tree(x), TreeElems(es)), o1.rest, o1.lim, o);
    s := JoinTuple(x, toks, es, o1.rest, kind, close, o.rest);
  }

  lemma JoinTuple(x: Syn, toks: seq<Token>, es: Elems, r: seq<Token>, kind: Kind, close: Ending, rest: seq<Token>)
    returns (s: Syn)
    requires toks == Yield(x) + (YieldElems(es) + r) && r == Closing(kind, close) + rest
    requires es.Elem? && Ok(x, 0, TComma) && OkElems(es, Head(r)) && Head(r) != TComma &&
      OkEnd(TRParen, close, Head(rest))
    requires (kind.Of? ==> TypeName(kind.typ)) && (kind.Plain? ==> Head(r) != TSemi)
    ensures s == STuple(x, es, kind, close) && [TLParen] + toks == Yield(s) + rest && Ok(s, 10, Head(rest))
  {
    s := STuple(x, es, kind, close);
    FirstOfBoth(Closing(kind, close), rest);
    Assoc5([TLParen], Yield(x), YieldElems(es), Closing(kind, close), rest);
  }

  lemma FromClose(es: Exprs, toks: seq<Token>, lim: Limit, o: Outcome<Expr>) returns (kind: Kind, close: Ending)
    requires o == CloseTuple(es, toks, lim) && o.Done?
    ensures o.tree == Tuple(es, kind) && toks == Closing(kind, close) + o.rest && lim == o.lim + EndErrors(close)
    ensures OkEnd(TRParen, close, Head(o.rest)) && (kind.Of? ==> TypeName(kind.typ)) &&
      (kind.Plain? ==> Head(toks) != TSemi)
  {
    if Head(toks) == TSemi {
      var r := toks[2..];
      kind := TypedParts(es, toks, lim, o);
      close := FromExpect(Tuple(es, kind), TRParen, r, lim, o);
      Assoc([TSemi, TName(kind.typ)], YieldEnd(TRParen, close), o.rest);
    } else {
      kind := Plain;
      close := FromExpect(Tuple(es, kind), TRParen, toks, lim, o);
    }
  }

  lemma TypedParts(es: Exprs, toks: seq<Token>, lim: Limit, o: Outcome<Expr>) returns (kind: Kind)
    requires Head(toks) == TSemi && o == CloseTuple(es, toks, lim) && o.Done?
    ensures |toks| >= 2 && kind.Of? && TypeName(kind.typ) && toks == [TSemi, TName(kind.typ)] + toks[2..]
    ensures o == Expect(Tuple(es, kind), TRParen, toks[2..], lim)
  {
    kind := Of(Head(toks[1..]).name);
    assert toks[1..][1..] == toks[2..];
  }

  lemma {:induction false} FromElems(toks: seq<Token>, lim: Limit, o: Outcome<Exprs>) returns (es: Elems)
    requires Head(toks) == TComma && o == ParseElems(toks, lim) && o.Done?
    ensures es.Elem? && toks == YieldElems(es) + o.rest && TreeElems(es) == o.tree && lim == o.lim + ElemErrors(es)
    ensures OkElems(es, Head(o.rest)) && Head(o.rest) != TComma
    decreases |toks|, lim, 3
  {
    var r := toks[1..];
    assert toks == [TComma] + r;
    if Head(r) == TRParen {
      es := Elem(Missing, NoElem);
    } else {
      var o1 := ParseExpr(r, 0, lim);
      var x := FromExpr(r, 0, lim, o1);
      if Head(o1.rest) == TComma {
        var more := FromElems(o1.rest, o1.lim, ParseElems(o1.rest, o1.lim));
        es := Elem(x, more);
        Assoc4([TComma], Yield(x), YieldElems(more), o.rest);
      } else {
        es := Elem(x, NoElem);
        Assoc4([TComma], Yield(x), [], o.rest);
        assert [] + o.rest == o.rest;
      }
    }
  }

  lemma {:induction false} FromName(k: Ident, toks: seq<Token>, lim: Limit, o: Outcome<Expr>) returns (s: Syn)
    requires o == ParseName(k, toks, lim) && o.Done?
    ensures Read(s, [NameToken(k)] + toks, lim, o) && Ok(s, 10, Head(o.rest)) && Prefix(s)
    decreases |toks|, lim, 5
  {
    if Head(toks) == TLParen {
      s := FromCallAt(k, toks, lim, ParseArgs(toks[1..], lim));
    } else if Head(toks) == TLBracket {
      s := FromIndexAt(k, toks, lim, ParseExpr(toks[1..], 0, lim), o);
    } else {
      s := SName(k);
    }
  }

  lemma {:induction false} FromCallAt(k: Ident, toks: seq<Token>, lim: Limit, o: Outcome<Exprs>) returns (s: Syn)
    requires Head(toks) == TLParen && o == ParseArgs(toks[1..], lim) && o.Done?
    ensures Read(s, [NameToken(k)] + toks, lim, Done(Call(k, o.tree), o.rest, o.lim))
    ensures Ok(s, 10, Head(o.rest)) && Prefix(s)
    decreases |toks|, lim, 4
  {
    var args, close := FromArgs(toks[1..], lim, o);
    s := FromCall(k, toks, args, close, o.rest);
  }

  lemma {:induction false} FromIndexAt(k: Ident, toks: seq<Token>, lim: Limit, o1: Outcome<Expr>, o: Outcome<Expr>)
    returns (s: Syn)
    requires Head(toks) == TLBracket && o1 == ParseExpr(toks[1..], 0, lim) && o1.Done?
    requires o == CloseIndex(Expect(Index(k, o1.tree), TRBracket, o1.rest, o1.lim)) && o.Done?
    ensures Read(s, [NameToken(k)] + toks, lim, o) && Ok(s, 10, Head(o.rest)) && Prefix(s)
    decreases |toks|, lim, 4
  {
    var x := FromExpr(toks[1..], 0, lim, o1);
    s := FromIndex(k, toks, x, lim, o1.rest, o1.lim, o);
  }

  lemma Enclosed(a: Token, b: Token, toks: seq<Token>, y: seq<Token>, close: seq<Token>, rest: seq<Token>)
    requires Head(toks) == b && b != TEof && toks[1..] == y + (close + rest)
    ensures [a] + toks == [a, b] + (y + close) + rest
  {
    assert toks == [b] + toks[1..] && [a] + [b] == [a, b];
    Assoc([a], [b], y + (close + rest));
    Assoc4([a, b], y, close, rest);
  }

  lemma FromCall(k: Ident, toks: seq<Token>, args: Args, close: Ending, rest: seq<Token>) returns (s: Syn)
    requires Head(toks) == TLParen && toks[1..] == YieldArgs(args) + (YieldEnd(TRParen, close) + rest)
    requires OkArgs(args, Head(YieldEnd(TRParen, close) + rest))
    requires close.Met? || (close == Skipped([]) && Head(rest) == TEof)
    ensures s == SCall(k, args, close) && [NameToken(k)] + toks == Yield(s) + rest && Ok(s, 10, Head(rest))
  {
    s := SCall(k, args, close);
    FirstOfBoth(YieldEnd(TRParen, close), rest);
    Enclosed(NameToken(k), TLParen, toks, YieldArgs(args), YieldEnd(TRParen, close), rest);
  }

  lemma FromIndex(k: Ident, toks: seq<Token>, x: Syn, lim: Limit, r: seq<Token>, l: Limit, o: Outcome<Expr>)
    returns (s: Syn)
    requires Head(toks) == TLBracket && toks[1..] == Yield(x) + r && Ok(x, 0, Head(r)) && lim == l + Errors(x)
    requires o == CloseIndex(Expect(Index(k, Tree(x)), TRBracket, r, l)) && o.Done?
    ensures Read(s, [NameToken(k)] + toks, lim, o) && Ok(s, 10, Head(o.rest)) && Prefix(s)
  {
    var close := FromExpect(Index(k, Tree(x)), TRBracket, r, l, o);
    s := SIndex(k, x, close);
    FirstOfBoth(YieldEnd(TRBracket, close), o.rest);
    Enclosed(NameToken(k), TLBracket, toks, Yield(x), YieldEnd(TRBracket, close), o.rest);
  }

  lemma {:induction false} FromArgs(toks: seq<Token>, lim: Limit, o: Outcome<Exprs>) returns (args: Args, close: Ending)
    requires o == ParseArgs(toks, lim) && o.Done?
    ensures toks == YieldArgs(args) + (YieldEnd(TRParen, close) + o.rest) && TreeArgs(args) == o.tree
    ensures OkArgs(args, Head(YieldEnd(TRParen, close) + o.rest)) && lim == o.lim + EndErrors(close) + ArgErrors(args)
    ensures close.Met? || (close == Skipped([]) && Head(o.rest) == TEof)
    decreases |toks|, lim, 6
  {
    if Head(toks) == TRParen || Head(toks) == TEof {
      args := NoArg;
      close := FromEnd(toks, lim, o);
    } else {
      var o1 := ArgTurn(toks, lim);
      var x, comma := FromArg(toks, lim, o1);
      var more;
      more, close := FromArgs(o1.rest, o1.lim, ParseArgs(o1.rest, o1.lim));
      args := Arg(x, comma, more);
      ArgsSplit(args, YieldEnd(TRParen, close) + o.rest);
    }
  }

  lemma FromEnd(toks: seq<Token>, lim: Limit, o: Outcome<Exprs>) returns (close: Ending)
    requires (Head(toks) == TRParen || Head(toks) == TEof) && o == ParseArgs(toks, lim) && o.Done?
    ensures toks == [] + (YieldEnd(TRParen, close) + o.rest) && o.tree == Nil && lim == o.lim + EndErrors(close)
    ensures close.Met? || (close == Skipped([]) && Head(o.rest) == TEof)
  {
    close := if Head(toks) == TRParen then Met else Skipped([]);
    assert toks == YieldEnd(TRParen, close) + o.rest;
  }

  lemma {:induction false} FromArg(toks: seq<Token>, lim: Limit, o: Outcome<Expr>) returns (x: Syn, comma: bool)
    requires o == ArgTurn(toks, lim) && o.Done? && (|o.rest| < |toks| || o.lim < lim)
    ensures toks == Yield(x) + (Comma(comma) + o.rest) && Tree(x) == o.tree && lim == o.lim + Errors(x)
    ensures Ok(x, 0, if comma then TComma else Head(o.rest))
    ensures comma || (Head(o.rest) != TComma && (Yield(x) != [] || Errors(x) > 0))
    decreases |toks|, lim, 5
  {
    var o1 := ParseExpr(toks, 0, lim);
    x := FromExpr(toks, 0, lim, o1);
    comma := Head(o1.rest) == TComma;
    CommaSplit(o1.rest, o.rest);
    assert |toks| == |Yield(x)| + |o1.rest|;
  }

  lemma CommaSplit(r: seq<Token>, next: seq<Token>)
    requires next == if Head(r) == TComma then r[1..] else r
    ensures r == Comma(Head(r) == TComma) + next
  {
  }

  lemma ShapeAny(s: Syn, p: nat, n: Token)
    requires (Prefix(s) || s == Missing || s == SBad) && Ok(s, 10, n)
    ensures if Tree(s) == Null then Ok(s, p, n) else Left(s, p, n)
  {
  }

  lemma {:induction false} FromExpr(toks: seq<Token>, p: nat, lim: Limit, o: Outcome<Expr>) returns (s: Syn)
    requires o == ParseExpr(toks, p, lim) && o.Done?
    ensures Read(s, toks, lim, o) && Ok(s, p, Head(o.rest))
    decreases |toks|, lim, 4
  {
    var o1 := ParsePrefix(toks, lim);
    s := FromPrefix(toks, lim, o1);
    ShapeAny(s, p, Head(o1.rest));
    if o1.tree != Null {
      s := FromLoop(s, o1.rest, p, o1.lim, o);
    }
  }

  lemma {:induction false} FromLoop(x: Syn, toks: seq<Token>, p: nat, lim: Limit, o: Outcome<Expr>) returns (s: Syn)
    requires Left(x, p, Head(toks)) && o == ParseLoop(Tree(x), toks, p, lim) && o.Done?
    ensures Read(s, Yield(x) + toks, lim + Errors(x), o) && Ok(s, p, Head(o.rest))
    decreases |toks|, lim, 3
  {
    if Prec(Head(toks)) <= p {
      s := FromTernary(x, toks, p, lim, o);
    } else {
      var o1 := ParseInfix(Tree(x), toks, lim);
      var y := FromInfix(x, toks, p, lim, o1);
      s := FromLoop(y, o1.rest, p, o1.lim, o);
    }
  }

  lemma {:induction false} FromInfix(x: Syn, toks: seq<Token>, p: nat, lim: Limit, o: Outcome<Expr>) returns (s: Syn)
    requires Left(x, p, Head(toks)) && Prec(Head(toks)) > p && o == ParseInfix(Tree(x), toks, lim) && o.Done?
    ensures Read(s, Yield(x) + toks, lim + Errors(x), o) && Left(s, p, Head(o.rest))
    decreases |toks|, lim, 1
  {
    var t := Head(toks);
    var o1 := ParseExpr(toks[1..], RightSlot(OpOf(t)), lim);
    var r := FromExpr(toks[1..], RightSlot(OpOf(t)), lim, o1);
    s := SBin(t, x, r);
    JoinBin(s, toks, p, lim, o1);
  }

  lemma JoinBin(s: Syn, toks: seq<Token>, p: nat, lim: Limit, o: Outcome<Expr>)
    requires s.SBin? && toks != [] && s.tok == toks[0] && IsOperator(s.tok) && OpPrec(OpOf(s.tok)) > p &&
      Left(s.l, p, s.tok)
    requires Read(s.r, toks[1..], lim, o) && Ok(s.r, RightSlot(OpOf(s.tok)), Head(o.rest)) && o.tree != Null
    requires s.tok == TOp(Is) ==> Head(toks[1..]) != TNot
    ensures Read(s, Yield(s.l) + toks, lim + Errors(s.l), Done(MakeBin(s.tok, Tree(s.l), o.tree), o.rest, o.lim))
    ensures Left(s, p, Head(o.rest))
  {
    assert toks == [s.tok] + toks[1..];
    Assoc4(Yield(s.l), [s.tok], Yield(s.r), o.rest);
    FirstOperand(s.r, o.rest);
  }

  lemma {:induction false} FromTernary(x: Syn, toks: seq<Token>, p: nat, lim: Limit, o: Outcome<Expr>) returns (s: Syn)
    requires Left(x, p, Head(toks)) && Prec(Head(toks)) <= p && o == ParseTernary(Tree(x), toks, p, lim) && o.Done?
    ensures Read(s, Yield(x) + toks, lim + Errors(x), o) && Ok(s, p, Head(o.rest))
    decreases |toks|, lim, 1
  {
    if p != 0 || Head(toks) != TPipe {
      s := x;
    } else {
      var o1, o2, o3 := TernaryParts(Tree(x), toks, lim, o);
      var t, comma, hash, f := FromBranches(toks[1..], lim, o1, o2, o3);
      s := STern(x, t, f, comma, hash);
      JoinTernary(s, toks, lim, o1, o2.rest, o2.lim, o3);
    }
  }

  lemma TernaryParts(c: Expr, toks: seq<Token>, lim: Limit, o: Outcome<Expr>)
    returns (o1: Outcome<Expr>, o2: Outcome<Expr>, o3: Outcome<Expr>)
    requires c != Null && Head(toks) == TPipe && o == ParseTernary(c, toks, 0, lim) && o.Done?
    ensures o1 == ParseExpr(toks[1..], 0, lim) && o1.Done? && o2 == Marks(o1.tree, o1.rest, o1.lim) && o2.Done?
    ensures o3 == ParseExpr(o2.rest, 0, o2.lim) && o3.Done? && o == Done(Tern(c, o1.tree, o3.tree), o3.rest, o3.lim)
    ensures |o2.rest| < |toks| && toks == [TPipe] + toks[1..]
  {
    o1 := ParseExpr(toks[1..], 0, lim);
    o2 := Marks(o1.tree, o1.rest, o1.lim);
    o3 := ParseExpr(o2.rest, 0, o2.lim);
  }

  // The three parts of a ternary behind its condition.
  lemma {:induction false} FromBranches(toks: seq<Token>, lim: Limit, o1: Outcome<Expr>, o2: Outcome<Expr>,
                                        o3: Outcome<Expr>)
    returns (t: Syn, comma: Ending, hash: Ending, f: Syn)
    requires o1 == ParseExpr(toks, 0, lim) && o1.Done? && o2 == Marks(o1.tree, o1.rest, o1.lim) && o2.Done?
    requires o3 == ParseExpr(o2.rest, 0, o2.lim) && o3.Done? && |o2.rest| <= |toks|
    ensures Read(t, toks, lim, o1) && Ok(t, 0, Head(o1.rest)) && Read(f, o2.rest, o2.lim, o3) && Ok(f, 0, Head(o3.rest))
    ensures o1.rest == YieldEnd(TComma, comma) + (YieldEnd(THash, hash) + o2.rest)
    ensures var nh := First(YieldEnd(THash, hash), Head(o2.rest));
      OkEnd(THash, hash, Head(o2.rest)) && OkEnd(TComma, comma, nh) &&
        Head(o1.rest) == First(YieldEnd(TComma, comma), nh)
    ensures o1.lim == o2.lim + EndErrors(hash) + EndErrors(comma)
    decreases |toks|, lim, 7
  {
    t := FromExpr(toks, 0, lim, o1);
    comma, hash := FromMarks(o1.tree, o1.rest, o1.lim, o2);
    f := FromExpr(o2.rest, 0, o2.lim, o3);
  }

  lemma JoinTernary(s: Syn, toks: seq<Token>, lim: Limit, o1: Outcome<Expr>, r3: seq<Token>, l3: Limit,
                    o3: Outcome<Expr>)
    requires s.STern? && toks != [] && toks == [TPipe] + toks[1..] && Left(s.c, 0, TPipe)
    requires Read(s.t, toks[1..], lim, o1) && Ok(s.t, 0, Head(o1.rest)) && Read(s.f, r3, l3, o3) &&
      Ok(s.f, 0, Head(o3.rest))
    requires o1.rest == YieldEnd(TComma, s.comma) + (YieldEnd(THash, s.hash) + r3)
    requires var nh := First(YieldEnd(THash, s.hash), Head(r3));
      OkEnd(THash, s.hash, Head(r3)) && OkEnd(TComma, s.comma, nh) &&
        Head(o1.rest) == First(YieldEnd(TComma, s.comma), nh)
    requires o1.lim == l3 + EndErrors(s.hash) + EndErrors(s.comma)
    ensures Read(s, Yield(s.c) + toks, lim + Errors(s.c), Done(Tern(Tree(s.c), o1.tree, o3.tree), o3.rest, o3.lim))
    ensures Ok(s, 0, Head(o3.rest))
  {
    FirstOfBoth(Yield(s.f), o3.rest);
    TernTokens(s, o3.rest);
  }

  lemma FromMarks(t: Expr, toks: seq<Token>, lim: Limit, o: Outcome<Expr>) returns (comma: Ending, hash: Ending)
    requires o == Marks(t, toks, lim) && o.Done?
    ensures toks == YieldEnd(TComma, comma) + (YieldEnd(THash, hash) + o.rest) && o.tree == t
    ensures var nh := First(YieldEnd(THash, hash), Head(o.rest));
      OkEnd(THash, hash, Head(o.rest)) && OkEnd(TComma, comma, nh) && Head(toks) == First(YieldEnd(TComma, comma), nh)
    ensures lim == o.lim + EndErrors(hash) + EndErrors(comma)
  {
    var o1 := Expect(t, TComma, toks, lim);
    comma := FromExpect(t, TComma, toks, lim, o1);
    hash := FromExpect(t, THash, o1.rest, o1.lim, o);
    FirstOfBoth(YieldEnd(THash, hash), o.rest);
    FirstOfBoth(YieldEnd(TComma, comma), o1.rest);
  }

  /** The parser reads e off the front of toks exactly when the grammar derives e there; l of lim errors are then
      left. */
  lemma ParsesExactly(toks: seq<Token>, p: nat, lim: Limit, e: Expr, rest: seq<Token>, l: Limit)
    ensures ParseExpr(toks, p, lim) == Done(e, rest, l) <==>
      exists s :: Read(s, toks, lim, Done(e, rest, l)) && Ok(s, p, Head(rest))
  {
    if ParseExpr(toks, p, lim) == Done(e, rest, l) {
      var s := FromExpr(toks, p, lim, Done(e, rest, l));
    }
    if s :| Read(s, toks, lim, Done(e, rest, l)) && Ok(s, p, Head(rest)) {
      Accepts(s, p, rest, lim);
    }
  }

  /** No string of the grammar has two meanings, or two counts of errors. */
  lemma Unambiguous(s: Syn, s': Syn, p: nat, n: Token)
    requires Ok(s, p, n) && Ok(s', p, n) && Yield(s) == Yield(s')
    ensures Tree(s) == Tree(s') && Errors(s) == Errors(s')
  {
    var lim := Errors(s) + Errors(s') + 1;
    Accepts(s, p, [n], lim);
    Accepts(s', p, [n], lim);
  }

  /** A binary operator where an operand is missing: the plus sign is read as a name, with a call's or an index's
      brackets if they follow; every other one is reported and stays. */
  lemma OperandMissing(op: Op, toks: seq<Token>, lim: Limit)
    requires op != Minus
    ensures ParsePrefix([TOp(op)] + toks, lim) ==
      if op == Plus then ParseName(PlusSign, toks, lim) else Report(Null, [TOp(op)] + toks, lim)
  {
    assert ([TOp(op)] + toks)[1..] == toks;
  }

  /** `1 * +` at the end of a line is a product. */
  lemma TimesPlus(lim: Limit)
    ensures ParseExpr([TLit(1), TOp(Times), TOp(Plus), TBreak], 0, lim) ==
      Done(Bin(Times, Lit(1), Name(PlusSign)), [TBreak], lim)
  {
    var s := SBin(TOp(Times), SLit(1), SName(PlusSign));
    assert Yield(s) + [TBreak] == [TLit(1), TOp(Times), TOp(Plus), TBreak];
    Accepts(s, 0, [TBreak], lim);
  }

  /** Of `a + + b` the sum of a and a name is read, and b is left. */
  lemma SumPlus(a: nat, b: nat, lim: Limit)
    ensures ParseExpr([TName(a), TOp(Plus), TOp(Plus), TName(b)], 0, lim) ==
      Done(Bin(Plus, Name(Word(a)), Name(PlusSign)), [TName(b)], lim)
  {
    var s := SBin(TOp(Plus), SName(Word(a)), SName(PlusSign));
    assert Yield(s) + [TName(b)] == [TName(a), TOp(Plus), TOp(Plus), TName(b)];
    assert Left(s.l, 0, s.tok) && Ok(s.r, 8, TName(b));
    Accepts(s, 0, [TName(b)], lim);
  }

  // A token at which a turn of the argument loop does nothing.
  predicate Jams(n: Token) {
    n == TRBracket || n == TBreak || n == TClose
  }

  /** A turn of a call's argument loop consumes nothing and reports nothing exactly at a ']', at the end of a line or
      block, and at a '}' or ':': there the loop never ends. */
  lemma ArgLoopStuck(toks: seq<Token>, lim: Limit)
    requires Head(toks) != TRParen && Head(toks) != TEof
    ensures ArgTurn(toks, lim).Done? && ArgTurn(toks, lim).rest == toks && ArgTurn(toks, lim).lim == lim <==>
      Jams(Head(toks))
  {
    if Terminator(Head(toks)) {
      assert ParsePrefix(toks, lim) == Done(Null, toks, lim);
    }
    var o := ArgTurn(toks, lim);
    if o.Done? && o.rest == toks && o.lim == lim {
      NothingRead(toks, lim, o);
    }
  }

  lemma NothingRead(toks: seq<Token>, lim: Limit, o: Outcome<Expr>)
    requires o == ArgTurn(toks, lim) && o.Done? && |o.rest| == |toks| && o.lim == lim
    ensures Terminator(Head(toks)) && Head(toks) != TComma
  {
    var o1 := ParseExpr(toks, 0, lim);
    var x := FromExpr(toks, 0, lim, o1);
    assert |toks| == |Yield(x)| + |o1.rest|;
    assert Yield(x) == [] && o1.rest == toks;
    EmptyIsNull(x);
  }

  lemma ArgLoopExample(f: Ident, lim: Limit)
    ensures ParseExpr([NameToken(f), TLParen, TRBracket], 0, lim) == Loops
  {
    var toks := [NameToken(f), TLParen, TRBracket];
    assert toks[1..] == [TLParen, TRBracket] && [TLParen, TRBracket][1..] == [TRBracket];
    ArgLoopStuck([TRBracket], lim);
    assert ParseArgs([TRBracket], lim) == Loops;
    assert ParseName(f, [TLParen, TRBracket], lim) == Loops;
  }

  // ---- Printing ----

  // Trees that the language can write: no null parts.
  predicate Good(e: Expr) {
    match e
    case Null => false
    case Lit(_) => true
    case Name(_) => true
    case Un(_, x) => Good(x)
    case Bin(_, l, r) => Good(l) && Good(r)
    case Tern(c, t, f) => Good(c) && Good(t) && Good(f)
    case Tuple(es, kind) => es.Cons? && GoodAll(es) && (kind.Of? ==> TypeName(kind.typ))
    case Call(_, args) => GoodAll(args)
    case Index(_, x) => Good(x)
  }

  predicate GoodAll(es: Exprs) {
    match es
    case Nil => true
    case Cons(e, tail) => Good(e) && GoodAll(tail)
  }

  function UnToken(u: UnOp): Token {
    match u
    case Neg => TOp(Minus)
    case Not => THash
    case Bnot => TTilde
    case Length => TLength
  }

  // May e stand in a place of level p before n without parentheses?
  predicate Bare(e: Expr, p: nat, n: Token) {
    match e
    case Un(u, _) => Prec(n) <= UnSlot(u)
    case Bin(op, _, _) => OpPrec(op) > p && Prec(n) <= RightSlot(op)
    case Tern(_, _, _) => p == 0 && Prec(n) == 0 && n != TPipe
    case Name(_) => n != TDot && n != TLParen && n != TLBracket
    case Index(_, _) => n != TLParen
    case _ => true
  }

  function Print(e: Expr, p: nat, n: Token): Syn
    decreases e, 1
  {
    if Bare(e, p, n) then PrintBare(e, p, n) else SParen(PrintBare(e, 0, TRParen), Met)
  }

  function PrintBare(e: Expr, p: nat, n: Token): Syn
    decreases e, 0
  {
    match e
    case Null => Missing
    case Lit(k) => SLit(k)
    case Name(k) => SName(k)
    case Un(u, x) => SUn(UnToken(u), Print(x, UnSlot(u), n))
    case Bin(op, l, r) => SBin(TOp(op), Print(l, p, TOp(op)), Print(r, RightSlot(op), n))
    case Tern(c, t, f) => STern(Print(c, 0, TPipe), Print(t, 0, TComma), Print(f, 0, n), Met, Met)
    case Tuple(es, kind) =>
      if es.Cons? then STuple(Print(es.head, 0, TComma), PrintElems(es.tail, Closing(kind, Met)[0]), kind, Met)
        else Missing
    case Call(k, args) => SCall(k, PrintArgs(args), Met)
    case Index(k, x) => SIndex(k, Print(x, 0, TRBracket), Met)
  }

  // A tuple of one element keeps its comma; before a type annotation an empty pair of parentheses fills the place.
  function PrintElems(es: Exprs, close: Token): Elems {
    match es
    case Nil => Elem(if close == TRParen then Missing else SParen(Missing, Met), NoElem)
    case Cons(e, tail) => Elem(Print(e, 0, if tail == Nil then close else TComma), if tail == Nil then NoElem
      else PrintElems(tail, close))
  }

  function PrintArgs(es: Exprs): Args {
    match es
    case Nil => NoArg
    case Cons(e, tail) => Arg(Print(e, 0, TComma), true, PrintArgs(tail))
  }

  // ---- Printed trees read back ----

  lemma {:induction false} PrintOk(e: Expr, p: nat, n: Token)
    requires Good(e) && Stops(p, n)
    ensures Tree(Print(e, p, n)) == e && Ok(Print(e, p, n), p, n)
    decreases e, 3
  {
    PrintShape(e, p, n);
  }

  lemma {:induction false} PrintShape(e: Expr, p: nat, n: Token)
    requires Good(e)
    ensures Tree(Print(e, p, n)) == e && Shape(Print(e, p, n), p, n)
    ensures Bare(e, p, n) || Print(e, p, n) == SParen(PrintBare(e, 0, TRParen), Met)
    decreases e, 2
  {
    if Bare(e, p, n) {
      BareShape(e, p, n);
    } else {
      BareShape(e, 0, TRParen);
    }
  }

  lemma {:induction false} BareShape(e: Expr, p: nat, n: Token)
    requires Good(e) && Bare(e, p, n)
    ensures Tree(PrintBare(e, p, n)) == e && Shape(PrintBare(e, p, n), p, n)
    decreases e, 1
  {
    match e
    case Lit(_) =>
    case Name(_) =>
    case Un(u, x) => PrintOk(x, UnSlot(u), n);
    case Bin(op, l, r) =>
      PrintShape(l, p, TOp(op));
      PrintOk(r, RightSlot(op), n);
      BinShape(op, l, r, p, n);
    case Tern(_, _, _) => TernShape(e, p, n);
    case Tuple(_, _) => TupleShape(e);
    case Call(_, _) => CallShape(e, p, n);
    case Index(_, x) => PrintOk(x, 0, TRBracket);
  }

  lemma {:induction false} TernShape(e: Expr, p: nat, n: Token)
    requires Good(e) && e.Tern? && Bare(e, p, n)
    ensures Tree(PrintBare(e, p, n)) == e && Shape(PrintBare(e, p, n), p, n)
    decreases e, 0
  {
    match e
    case Tern(c, t, f) =>
      PrintShape(c, 0, TPipe);
      PrintOk(t, 0, TComma);
      PrintOk(f, 0, n);
  }

  lemma {:induction false} CallShape(e: Expr, p: nat, n: Token)
    requires Good(e) && e.Call? && Bare(e, p, n)
    ensures Tree(PrintBare(e, p, n)) == e && Shape(PrintBare(e, p, n), p, n)
    decreases e, 0
  {
    ArgsShape(e.args);
  }

  lemma {:induction false} TupleShape(e: Expr)
    requires Good(e) && e.Tuple?
    ensures forall p: nat, n :: Tree(PrintBare(e, p, n)) == e && Shape(PrintBare(e, p, n), p, n)
    decreases e, 0
  {
    PrintOk(e.elems.head, 0, TComma);
    ElemsShape(e.elems.tail, Closing(e.kind, Met)[0]);
  }

  // In front of an operator no ternary is printed without parentheses.
  lemma NoTernaryFirst(e: Expr, p: nat, op: Op)
    ensures !Print(e, p, TOp(op)).STern?
  {
  }

  lemma BinShapeOf(op: Op, x: Syn, y: Syn, p: nat, n: Token)
    requires OpPrec(op) > p && Left(x, p, TOp(op))
    requires Tree(y) != Null && Ok(y, RightSlot(op), n) && Head(Yield(y)) != TNot
    ensures Shape(SBin(TOp(op), x, y), p, n)
  {
  }

  // A printed operand never starts with `not`, so `is not` never appears.
  lemma BinShape(op: Op, l: Expr, r: Expr, p: nat, n: Token)
    requires Good(l) && Good(r) && Bare(Bin(op, l, r), p, n)
    requires Tree(Print(l, p, TOp(op))) == l && Shape(Print(l, p, TOp(op)), p, TOp(op))
    requires Tree(Print(r, RightSlot(op), n)) == r && Ok(Print(r, RightSlot(op), n), RightSlot(op), n)
    ensures Shape(PrintBare(Bin(op, l, r), p, n), p, n)
  {
    NoNotFirst(r, RightSlot(op), n);
    NoTernaryFirst(l, p, op);
    BinShapeOf(op, Print(l, p, TOp(op)), Print(r, RightSlot(op), n), p, n);
  }

  lemma {:induction false} NoNotFirst(e: Expr, p: nat, n: Token)
    ensures Head(Yield(Print(e, p, n))) != TNot
    decreases e, 1
  {
    if Bare(e, p, n) {
      NoNotBare(e, p, n);
    }
  }

  lemma {:induction false} NoNotBare(e: Expr, p: nat, n: Token)
    ensures Head(Yield(PrintBare(e, p, n))) != TNot
    decreases e, 0
  {
    match e
    case Bin(op, l, _) => FirstOf(Yield(Print(l, p, TOp(op))), TOp(op), PrintBare(e, p, n));
      NoNotFirst(l, p, TOp(op));
    case Tern(c, _, _) => FirstOf(Yield(Print(c, 0, TPipe)), TPipe, PrintBare(e, p, n));
      NoNotFirst(c, 0, TPipe);
    case _ =>
  }

  lemma FirstOf(l: seq<Token>, t: Token, s: Syn)
    requires l + [t] <= Yield(s)
    ensures Head(Yield(s)) == Head(l) || Head(Yield(s)) == t
  {
  }

  lemma {:induction false} ElemsShape(es: Exprs, close: Token)
    requires GoodAll(es) && (close == TRParen || close == TSemi)
    ensures var p := PrintElems(es, close); TreeElems(p) == es && OkElems(p, close) && p.Elem?
    decreases es, 0
  {
    if es.Cons? {
      PrintOk(es.head, 0, if es.tail == Nil then close else TComma);
      if es.tail != Nil {
        ElemsShape(es.tail, close);
      }
    }
  }

  lemma {:induction false} ArgsShape(es: Exprs)
    requires GoodAll(es)
    ensures TreeArgs(PrintArgs(es)) == es && OkArgs(PrintArgs(es), TRParen)
    decreases es, 0
  {
    if es.Cons? {
      PrintOk(es.head, 0, TComma);
      ArgsShape(es.tail);
    }
  }

  // Nothing is reported about a printed tree.
  lemma {:induction false} PrintClean(e: Expr, p: nat, n: Token)
    ensures Errors(Print(e, p, n)) == 0
    decreases e, 1
  {
    if Bare(e, p, n) {
      BareClean(e, p, n);
    } else {
      BareClean(e, 0, TRParen);
    }
  }

  lemma {:induction false} BareClean(e: Expr, p: nat, n: Token)
    ensures Errors(PrintBare(e, p, n)) == 0
    decreases e, 0
  {
    match e
    case Un(u, x) => PrintClean(x, UnSlot(u), n);
    case Bin(op, l, r) =>
      PrintClean(l, p, TOp(op));
      PrintClean(r, RightSlot(op), n);
    case Tern(c, t, f) =>
      PrintClean(c, 0, TPipe);
      PrintClean(t, 0, TComma);
      PrintClean(f, 0, n);
    case Tuple(es, kind) =>
      if es.Cons? {
        PrintClean(es.head, 0, TComma);
        ElemsClean(es.tail, Closing(kind, Met)[0]);
      }
    case Call(_, args) => ArgsClean(args);
    case Index(_, x) => PrintClean(x, 0, TRBracket);
    case _ =>
  }

  lemma {:induction false} ElemsClean(es: Exprs, close: Token)
    ensures ElemErrors(PrintElems(es, close)) == 0
    decreases es, 0
  {
    if es.Cons? {
      PrintClean(es.head, 0, if es.tail == Nil then close else TComma);
      if es.tail != Nil {
        ElemsClean(es.tail, close);
      }
    }
  }

  lemma {:induction false} ArgsClean(es: Exprs)
    ensures ArgErrors(PrintArgs(es)) == 0
    decreases es, 0
  {
    if es.Cons? {
      PrintClean(es.head, 0, TComma);
      ArgsClean(es.tail);
    }
  }

  /** Round trip: every tree, printed with the parentheses its place needs, is read back as the same tree. */
  lemma PrintReadsBack(e: Expr, p: nat, rest: seq<Token>, lim: Limit)
    requires Good(e) && Stops(p, Head(rest))
    ensures ParseExpr(Yield(Print(e, p, Head(rest))) + rest, p, lim) == Done(e, rest, lim)
  {
    PrintOk(e, p, Head(rest));
    PrintClean(e, p, Head(rest));
    Accepts(Print(e, p, Head(rest)), p, rest, lim);
  }

  lemma {:induction false} TernStops(s: Syn, n: Token)
    requires Good(Tree(s)) && Ok(s, 0, n)
    ensures Stops(0, n)
  {
    if s.STern? {
      TernStops(s.f, n);
    }
  }

  lemma NoTernary(s: Syn, p: nat, n: Token)
    requires p > 0 && Ok(s, p, n) && Tree(s) != Null
    ensures Stops(p, n)
  {
  }

  /** The parentheses are needed: a string of the grammar without parentheses around e, in whatever spelling,
      is possible only where Print writes none. */
  lemma ParensNeeded(e: Expr, p: nat, n: Token, s: Syn)
    requires Good(e) && Tree(s) == e && Shape(s, p, n) && !s.SParen?
    ensures Bare(e, p, n)
  {
    match s
    case STern(_, _, f, _, _) => TernStops(f, n);
    case SUn(tok, x) => NoTernary(x, UnSlot(UnaryOf(tok).value), n);
    case SBin(tok, _, r) => NoTernary(r, RightSlot(OpOf(tok)), n);
    case _ =>
  }
}
