/** The parser object: a token list, a cursor that every parse method moves forward, and the errors reported so far. */
module PrattParser {
  import opened Options
  import opened Pratt
  import opened PrattGrammar
  import opened PrattExact

  datatype Parsed<+T> = Got(tree: T) | Failed | Stuck | Unmodelled

  // The outcome that the method result r stands for, with `rest` left to read and room for `lim` errors.
  function OutcomeOf<T>(r: Parsed<T>, rest: seq<Token>, lim: int): Outcome<T>
    requires r.Got? ==> lim > 0
  {
    match r
    case Got(t) => Done(t, rest, lim)
    case Failed => Fail
    case Stuck => Loops
    case Unmodelled => Outside
  }

  // The children collected so far, in front of those still to come.
  function Prepend(done: seq<Expr>, es: Exprs): Exprs {
    if done == [] then es else Cons(done[0], Prepend(done[1..], es))
  }

  function Following(done: seq<Expr>, o: Outcome<Exprs>): Outcome<Exprs> {
    if o.Done? then Done(Prepend(done, o.tree), o.rest, o.lim) else o
  }

  lemma {:induction false} PrependOne(done: seq<Expr>, x: Expr, es: Exprs)
    ensures Prepend(done + [x], es) == Prepend(done, Cons(x, es))
  {
    if done == [] {
      assert [x][1..] == [] && Prepend([], es) == es;
    } else {
      assert (done + [x])[1..] == done[1..] + [x];
      PrependOne(done[1..], x, es);
    }
  }

  lemma FollowOne(done: seq<Expr>, x: Expr, o: Outcome<Exprs>)
    ensures Following(done + [x], o) == Following(done, After(x, o))
  {
    if o.Done? {
      PrependOne(done, x, o.tree);
    }
  }

  // A ternary behind its marks.
  function FalseBranch(c: Expr, marks: Outcome<Expr>): Outcome<Expr> {
    if marks.Done? then Branches(c, marks.tree, ParseExpr(marks.rest, 0, marks.lim)) else marks
  }

  // A ternary behind its bar.
  function BothBranches(c: Expr, t: Outcome<Expr>): Outcome<Expr> {
    if t.Done? then FalseBranch(c, Marks(t.tree, t.rest, t.lim)) else t
  }

  lemma BarIs(c: Expr, toks: seq<Token>, lim: Limit)
    requires c != Null && Head(toks) == TPipe
    ensures ParseTernary(c, toks, 0, lim) == BothBranches(c, ParseExpr(toks[1..], 0, lim))
  {
  }

  // One turn of the argument loop.
  lemma OneArg(toks: seq<Token>, lim: Limit)
    requires Head(toks) != TRParen && Head(toks) != TEof
    ensures var x := ArgTurn(toks, lim);
      ParseArgs(toks, lim) ==
      if !x.Done? then x.As()
      else if |x.rest| == |toks| && x.lim == lim then Loops
      else After(x.tree, ParseArgs(x.rest, x.lim))
  {
  }

  // One turn of the loop over the elements of a tuple.
  lemma OneElem(toks: seq<Token>, lim: Limit)
    requires Head(toks) == TComma
    ensures var x := ParseExpr(toks[1..], 0, lim);
      ParseElems(toks, lim) ==
      if Head(toks[1..]) == TRParen then Done(Nil, toks[1..], lim)
      else if !x.Done? then x.As()
      else if Head(x.rest) != TComma then Done(Add(x.tree, Nil), x.rest, x.lim)
      else if x.tree == Null then ParseElems(x.rest, x.lim)
      else After(x.tree, ParseElems(x.rest, x.lim))
  {
  }

  class Parser {
    const tokens: seq<Token>
    const maxErrors: nat
    var pos: nat
    var errors: nat

    // The parse is still under way: the last error has not been thrown.
    ghost predicate Valid()
      reads this
    {
      pos <= |tokens| && errors < maxErrors
    }

    ghost function Rest(): seq<Token>
      reads this
      requires pos <= |tokens|
    {
      tokens[pos..]
    }

    ghost function Room(): Limit
      reads this
      requires Valid()
    {
      maxErrors - errors
    }

    // What a parse method promises: the outcome o, and a cursor that has not moved back.
    twostate predicate Gives<T>(new o: Outcome<T>, new r: Parsed<T>)
      reads this
    {
      && old(pos) <= pos <= |tokens| && old(errors) <= errors && (r.Got? ==> Valid())
      && o == OutcomeOf(r, Rest(), maxErrors - errors)
    }

    constructor (toks: seq<Token>, max: nat)
      requires max > 0
      ensures Valid() && Rest() == toks && tokens == toks && pos == 0 && errors == 0 && maxErrors == max
    {
      tokens, maxErrors, pos, errors := toks, max, 0, 0;
    }

    method Peek() returns (t: Token)
      requires Valid()
      ensures t == Head(Rest())
    {
      t := if pos < |tokens| then tokens[pos] else TEof;
    }

    method Advance()
      requires Valid() && Rest() != []
      modifies this`pos
      ensures Valid() && pos == old(pos) + 1 && Rest() == old(Rest())[1..]
    {
      pos := pos + 1;
    }

    // Consumes t if it is next.
    method Accept(t: Token) returns (ok: bool)
      requires Valid() && t != TEof
      modifies this`pos
      ensures Valid() && ok == (Head(old(Rest())) == t)
      ensures Rest() == (if ok then old(Rest())[1..] else old(Rest())) && pos == old(pos) + (if ok then 1 else 0)
    {
      var next := Peek();
      ok := next == t;
      if ok {
        Advance();
      }
    }

    // The last error allowed is thrown.
    method ReportError() returns (thrown: bool)
      requires Valid()
      modifies this`errors
      ensures errors == old(errors) + 1 && thrown == (old(Room()) == 1) && (!thrown ==> Valid())
    {
      errors := errors + 1;
      thrown := errors == maxErrors;
    }

    // Moves to the end of the line or block, or to the next statement.
    method Synchronize()
      requires Valid()
      modifies this`pos
      ensures Valid() && pos >= old(pos) && Rest() == Resync(old(Rest())) && Halts(Head(Rest()))
    {
      var t := Peek();
      while !Halts(t)
        invariant Valid() && pos >= old(pos) && t == Head(Rest()) && Resync(Rest()) == Resync(old(Rest()))
        decreases |tokens| - pos
      {
        Advance();
        t := Peek();
      }
    }

    // Consumes the wanted t. A missing one is reported, and the parse takes up again at the next line or statement.
    method Expect(t: Token) returns (thrown: bool)
      requires Valid() && t != TEof
      modifies this`pos, this`errors
      ensures old(pos) <= pos <= |tokens| && old(errors) <= errors && (!thrown ==> Valid())
      ensures thrown == (Head(old(Rest())) != t && old(Room()) == 1)
      ensures Head(old(Rest())) == t ==> Rest() == old(Rest())[1..] && errors == old(errors)
      ensures Head(old(Rest())) != t && !thrown ==> Rest() == Resync(old(Rest())) && errors == old(errors) + 1
    {
      var ok := Accept(t);
      thrown := false;
      if !ok {
        thrown := ReportError();
        if !thrown {
          Synchronize();
        }
      }
    }

    method ReadPrefix() returns (r: Parsed<Expr>)
      requires Valid()
      modifies this`pos, this`errors
      ensures Gives(ParsePrefix(old(Rest()), old(Room())), r) && (r.Got? && r.tree != Null ==> pos > old(pos))
      decreases |tokens| - pos, maxErrors - errors, 2
    {
      var t := Peek();
      if Terminator(t) {
        return Got(Null);
      }
      var u := UnaryOf(t);
      if u.Some? {
        Advance();
        r := ReadUnary(u.value);
        return;
      }
      if t == TLParen {
        Advance();
        r := ReadGroup();
      } else if t.TLit? {
        Advance();
        r := Got(Lit(t.lit));
      } else if t.TName? || t == TOp(Plus) {
        Advance();
        r := ReadName(if t.TName? then Word(t.name) else PlusSign);
      } else if t == TForm || t == TLBracket {
        r := Unmodelled;
      } else {
        r := Unexpected();
      }
    }

    // No expression starts here: that is reported, the token stays, and there is no tree.
    method Unexpected() returns (r: Parsed<Expr>)
      requires Valid()
      modifies this`errors
      ensures Gives(Report(Null, old(Rest()), old(Room())), r) && (r.Got? ==> r.tree == Null)
    {
      var thrown := ReportError();
      r := if thrown then Failed else Got(Null);
    }

    method ReadUnary(u: UnOp) returns (r: Parsed<Expr>)
      requires Valid()
      modifies this`pos, this`errors
      ensures Gives(ParseUnary(u, old(Rest()), old(Room())), r)
      decreases |tokens| - pos, maxErrors - errors, 5
    {
      r := ParseExpression(UnSlot(u));
      if r.Got? {
        r := Got(Un(u, r.tree));
      }
    }

    method ReadGroup() returns (r: Parsed<Expr>)
      requires Valid()
      modifies this`pos, this`errors
      ensures Gives(ParseGroup(old(Rest()), old(Room())), r)
      decreases |tokens| - pos, maxErrors - errors, 5
    {
      r := ParseExpression(0);
      if !r.Got? {
        return;
      }
      var next := Peek();
      if next == TComma {
        r := ReadTuple(r.tree);
      } else {
        var thrown := Expect(TRParen);
        if thrown {
          r := Failed;
        }
      }
    }

    method ReadTuple(first: Expr) returns (r: Parsed<Expr>)
      requires Valid() && Head(Rest()) == TComma
      modifies this`pos, this`errors
      ensures Gives(ParseTuple(first, old(Rest()), old(Room())), r)
      decreases |tokens| - pos, maxErrors - errors, 4
    {
      ghost var o := ParseElems(Rest(), Room());
      var es := ReadElems();
      assert es.Got? ==> o == Done(es.tree, Rest(), Room());
      match es {
        case Got(l) => r := CloseTheTuple(Add(first, l));
        case Failed => r := Failed;
        case Stuck => r := Stuck;
        case Unmodelled => r := Unmodelled;
      }
    }

    // A name behind ';' that is no type is thrown.
    method CloseTheTuple(es: Exprs) returns (r: Parsed<Expr>)
      requires Valid()
      modifies this`pos, this`errors
      ensures Gives(CloseTuple(es, old(Rest()), old(Room())), r)
    {
      var kind := Plain;
      var typed := Accept(TSemi);
      if typed {
        var t := Peek();
        if !t.TName? || !TypeName(t.name) {
          return Failed;
        }
        Advance();
        kind := Of(t.name);
      }
      var thrown := Expect(TRParen);
      r := if thrown then Failed else Got(Tuple(es, kind));
    }

    // The elements of a tuple after the first one; null elements are dropped.
    method ReadElems() returns (r: Parsed<Exprs>)
      requires Valid() && Head(Rest()) == TComma
      modifies this`pos, this`errors
      ensures Gives(ParseElems(old(Rest()), old(Room())), r)
      decreases |tokens| - pos, maxErrors - errors, 3
    {
      ghost var goal := ParseElems(Rest(), Room());
      var done: seq<Expr> := [];
      var t := Peek();
      while t == TComma
        invariant Valid() && pos >= old(pos) && errors >= old(errors) && t == Head(Rest())
        invariant goal == if t == TComma then Following(done, ParseElems(Rest(), Room()))
          else Done(Prepend(done, Nil), Rest(), Room())
        decreases |tokens| - pos
      {
        ghost var toks := Rest();
        Advance();
        t := Peek();
        OneElem(toks, Room());
        if t == TRParen {
          break;
        }
        ghost var o := ParseExpr(Rest(), 0, Room());
        var x := ParseExpression(0);
        if !x.Got? {
          return match x case Failed => Failed case Stuck => Stuck case _ => Unmodelled;
        }
        assert o == Done(x.tree, Rest(), Room());
        t := Peek();
        if x.tree != Null {
          FollowOne(done, x.tree, if t == TComma then ParseElems(Rest(), Room()) else Done(Nil, Rest(), Room()));
          done := done + [x.tree];
        }
      }
      r := Got(Prepend(done, Nil));
    }

    method ReadName(k: Ident) returns (r: Parsed<Expr>)
      requires Valid()
      modifies this`pos, this`errors
      ensures Gives(ParseName(k, old(Rest()), old(Room())), r)
      decreases |tokens| - pos, maxErrors - errors, 5
    {
      var t := Peek();
      match t {
        case TDot => r := Unmodelled;
        case TLParen =>
          Advance();
          var es := ReadArgs();
          r :=
            match es
            case Got(l) => Got(Call(k, l))
            case Failed => Failed
            case Stuck => Stuck
            case Unmodelled => Unmodelled;
        case TLBracket =>
          Advance();
          r := ReadIndex(k);
        case _ => r := Got(Name(k));
      }
    }

    method ReadIndex(k: Ident) returns (r: Parsed<Expr>)
      requires Valid() && pos > 0 && Head(tokens[pos - 1..]) == TLBracket
      modifies this`pos, this`errors
      ensures Gives(ParseName(k, old(tokens[pos - 1..]), old(Room())), r)
      decreases |tokens| - pos, maxErrors - errors, 6
    {
      r := ParseExpression(0);
      if !r.Got? {
        return;
      }
      var thrown := Expect(TRBracket);
      if thrown {
        return Failed;
      }
      var t := Peek();
      r := if t == TLParen then Unmodelled else Got(Index(k, r.tree));
    }

    // The argument loop. Stuck: a turn consumes nothing and reports nothing, so that the next one does the same.
    method ReadArgs() returns (r: Parsed<Exprs>)
      requires Valid()
      modifies this`pos, this`errors
      ensures Gives(ParseArgs(old(Rest()), old(Room())), r)
      decreases |tokens| - pos, maxErrors - errors, 6
    {
      ghost var goal := ParseArgs(Rest(), Room());
      var done: seq<Expr> := [];
      var t := Peek();
      while t != TRParen && t != TEof
        invariant Valid() && pos >= old(pos) && errors >= old(errors) && t == Head(Rest())
        invariant goal == Following(done, ParseArgs(Rest(), Room()))
        decreases |tokens| - pos, maxErrors - errors
      {
        OneArg(Rest(), Room());
        ghost var o := ArgTurn(Rest(), Room());
        var start, reported := pos, errors;
        var x := ReadArg();
        if !x.Got? {
          return match x case Failed => Failed case Stuck => Stuck case _ => Unmodelled;
        }
        assert o == Done(x.tree, Rest(), Room());
        if pos == start && errors == reported {
          return Stuck;
        }
        FollowOne(done, x.tree, ParseArgs(Rest(), Room()));
        done := done + [x.tree];
        t := Peek();
      }
      var thrown := Expect(TRParen);
      r := if thrown then Failed else Got(Prepend(done, Nil));
    }

    // One turn of the loop.
    method ReadArg() returns (r: Parsed<Expr>)
      requires Valid()
      modifies this`pos, this`errors
      ensures Gives(ArgTurn(old(Rest()), old(Room())), r)
      decreases |tokens| - pos, maxErrors - errors, 5
    {
      r := ParseExpression(0);
      if r.Got? {
        var comma := Accept(TComma);
      }
    }

    method ReadInfix(left: Expr) returns (r: Parsed<Expr>)
      requires Valid() && left != Null && Prec(Head(Rest())) > 0
      modifies this`pos, this`errors
      ensures Gives(ParseInfix(left, old(Rest()), old(Room())), r) && pos > old(pos) && (r.Got? ==> r.tree != Null)
      decreases |tokens| - pos, maxErrors - errors, 1
    {
      var t := Peek();
      Advance();
      if !IsOperator(t) {
        return Failed;
      }
      if t == TOp(Is) {
        var next := Peek();
        if next == TNot {
          return Failed;
        }
      }
      r := ParseExpression(RightSlot(OpOf(t)));
      if r.Got? {
        r := if r.tree == Null then Failed else Got(MakeBin(t, left, r.tree));
      }
    }

    // The loop of infix operators: every turn moves the cursor.
    method ParseExpression(p: nat) returns (r: Parsed<Expr>)
      requires Valid()
      modifies this`pos, this`errors
      ensures Gives(ParseExpr(old(Rest()), p, old(Room())), r) && (r.Got? && r.tree != Null ==> pos > old(pos))
      decreases |tokens| - pos, maxErrors - errors, 4
    {
      ghost var goal := ParseExpr(Rest(), p, Room());
      r := ReadPrefix();
      if !r.Got? || r.tree == Null {
        return;
      }
      while true
        invariant Valid() && pos > old(pos) && errors >= old(errors) && r.Got? && r.tree != Null
        invariant goal == ParseLoop(r.tree, Rest(), p, Room())
        decreases |tokens| - pos
      {
        var t := Peek();
        if Prec(t) <= p {
          break;
        }
        OneOperator(r.tree, Rest(), p, Room());
        ghost var o := ParseInfix(r.tree, Rest(), Room());
        r := ReadInfix(r.tree);
        if !r.Got? {
          return;
        }
        assert o == Done(r.tree, Rest(), Room());
      }
      if p == 0 {
        r := ReadTernary(r.tree);
      }
    }

    method ReadTernary(left: Expr) returns (r: Parsed<Expr>)
      requires Valid() && left != Null
      modifies this`pos, this`errors
      ensures Gives(ParseTernary(left, old(Rest()), 0, old(Room())), r) && (r.Got? ==> r.tree != Null)
      decreases |tokens| - pos, maxErrors - errors, 3
    {
      if pos < |tokens| && tokens[pos] == TPipe {
        ghost var goal := ParseTernary(left, Rest(), 0, Room());
        BarIs(left, Rest(), Room());
        Advance();
        r := ReadBranches(left, goal);
      } else {
        r := Got(left);
      }
    }

    method ReadBranches(c: Expr, ghost goal: Outcome<Expr>) returns (r: Parsed<Expr>)
      requires Valid() && c != Null && goal == BothBranches(c, ParseExpr(Rest(), 0, Room()))
      modifies this`pos, this`errors
      ensures Gives(goal, r) && (r.Got? ==> r.tree != Null)
      decreases |tokens| - pos, maxErrors - errors, 7
    {
      ghost var o := ParseExpr(Rest(), 0, Room());
      r := ParseExpression(0);
      if r.Got? {
        assert o == Done(r.tree, Rest(), Room());
        r := ReadFalse(c, r.tree, goal);
      }
    }

    // The marks between the branches, and the false one.
    method ReadFalse(c: Expr, t: Expr, ghost goal: Outcome<Expr>) returns (r: Parsed<Expr>)
      requires Valid() && c != Null && goal == FalseBranch(c, Marks(t, Rest(), Room()))
      modifies this`pos, this`errors
      ensures Gives(goal, r) && (r.Got? ==> r.tree != Null)
      decreases |tokens| - pos, maxErrors - errors, 6
    {
      var thrown := ReadMarks(t);
      if thrown {
        return Failed;
      }
      ghost var o := ParseExpr(Rest(), 0, Room());
      assert goal == Branches(c, t, o);
      r := ParseExpression(0);
      if r.Got? {
        assert o == Done(r.tree, Rest(), Room());
        r := Got(Tern(c, t, r.tree));
      }
    }

    method ReadMarks(ghost t: Expr) returns (thrown: bool)
      requires Valid()
      modifies this`pos, this`errors
      ensures Gives(Marks(t, old(Rest()), old(Room())), if thrown then Failed else Got(t))
    {
      thrown := Expect(TComma);
      if !thrown {
        thrown := Expect(THash);
      }
    }
  }

  /** Parsing the printed form of a tree, with anything after it that cannot continue it. */
  method ParsePrinted(e: Expr, rest: seq<Token>, max: nat) returns (r: Parsed<Expr>)
    requires Good(e) && Stops(0, Head(rest)) && max > 0
    ensures r == Got(e)
  {
    var toks := Yield(Print(e, 0, Head(rest))) + rest;
    assert ParseExpr(toks, 0, max) == Done(e, rest, max) by {
      PrintReadsBack(e, 0, rest, max);
    }
    var parser := new Parser(toks, max);
    r := parser.ParseExpression(0);
  }
}
