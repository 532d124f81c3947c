/** A check a caller can make on its tokens, in one pass and without building a tree, before the parser sees them:
    tokens that pass it are parsed without an error and do not keep the parser for ever. */
module PrattNeat {
  import opened Options
  import opened Pratt
  import opened PrattGrammar
  import opened PrattExact
  import opened PrattJam
  import opened Sequences

  // What is open: a call, a parenthesis without and with a comma inside, an index, and a ternary before its comma.
  datatype Frame = ACall | AGroup | ATuple | AnIndex | ATernary

  datatype Frames = Bottom | Inside(frame: Frame, out: Frames)

  /** Operands and operators alternate, every bracket is closed by its own kind, and nothing ends a line or a block
      inside brackets. After says that an operand has just been read. Anything the parser would report is refused, as
      are the forms that are not modelled. */
  predicate Neat(toks: seq<Token>, open: Frames, after: bool)
    decreases |toks|, 0
  {
    if toks == [] then open == Bottom else NeatAt(toks[0], toks[1..], open, after)
  }

  predicate NeatAt(t: Token, r: seq<Token>, open: Frames, after: bool)
    decreases |r|, 2
  {
    if Terminator(t) then NeatEnd(t, r, open, after)
    else if after then
      if IsOperator(t) then Neat(r, open, false)
      else if t == TPipe then Neat(r, Inside(ATernary, open), false)
      else open == Bottom
    else if IsUnary(t) then Neat(r, open, false)
    else if t == TLParen then Neat(r, Inside(AGroup, open), false)
    else if t.TLit? then Neat(r, open, true)
    else if t.TName? || t == TOp(Plus) then
      if Head(r) == TLParen then Neat(r[1..], Inside(ACall, open), false)
      else if Head(r) == TLBracket then Neat(r[1..], Inside(AnIndex, open), false)
      else Head(r) != TDot && Neat(r, open, true)
    else false
  }

  // At a token at which no expression starts.
  predicate NeatEnd(t: Token, r: seq<Token>, open: Frames, after: bool)
    decreases |r|, 1
  {
    if open == Bottom then true
    else
      match open.frame
      case ACall => if t == TComma then Neat(r, open, false) else t == TRParen && Neat(r, open.out, true)
      case AGroup =>
        if t == TComma then Neat(r, Inside(ATuple, open.out), false)
        else t == TRParen && after && Neat(r, open.out, true)
      case ATuple => if t == TComma then Neat(r, open, false) else t == TRParen && Neat(r, open.out, true)
      case AnIndex => t == TRBracket && Head(r) != TLParen && Neat(r, open.out, true)
      case ATernary => t == TComma && Head(r) == THash && Neat(r[1..], open.out, false)
  }

  lemma NeatIs(t: Token, r: seq<Token>, open: Frames, after: bool)
    ensures Neat([t] + r, open, after) == NeatAt(t, r, open, after)
  {
    assert ([t] + r)[1..] == r;
  }

  // Where an operand is missing.
  lemma NeatMissing(toks: seq<Token>, open: Frames)
    requires Terminator(Head(toks)) && Neat(toks, open, false)
    ensures Neat(toks, open, true)
  {
    if toks != [] {
      assert NeatEnd(toks[0], toks[1..], open, false);
      assert NeatEnd(toks[0], toks[1..], open, true);
    }
  }

  lemma NeatBad(rest: seq<Token>, open: Frames)
    requires Unexpected(Head(rest))
    ensures !Neat([] + rest, open, false)
  {
    assert [] + rest == rest;
  }

  // Inside brackets, behind an operand that no operator follows, only what closes them or a comma is neat.
  lemma NeatCloses(toks: seq<Token>, open: Frames)
    requires open != Bottom && Neat(toks, open, true) && Stops(0, Head(toks))
    ensures Head(toks) == TComma || Head(toks) == (if open.frame == AnIndex then TRBracket else TRParen)
    ensures open.frame == ATernary ==> Head(toks) == TComma
    ensures open.frame == AnIndex ==> Head(toks) != TComma
  {
    if toks != [] {
      assert NeatAt(toks[0], toks[1..], open, true);
      assert NeatEnd(toks[0], toks[1..], open, true);
    }
  }

  // s was read without an error, and the rest is neat.
  predicate Clean(s: Syn, p: nat, rest: seq<Token>, open: Frames) {
    Errors(s) == 0 && Neat(rest, open, true) && (Tree(s) != Null || s == Missing) && (s.STern? ==> Stops(0, Head(rest)))
  }

  lemma {:induction false} NeatShape(s: Syn, p: nat, rest: seq<Token>, open: Frames)
    requires Shape(s, p, Head(rest)) && Neat(Yield(s) + rest, open, false)
    ensures Clean(s, p, rest, open)
    decreases s, 2
  {
    match s
    case Missing =>
      assert Yield(s) + rest == rest;
      NeatMissing(rest, open);
    case SBad => NeatBad(rest, open);
    case SLit(k) => NeatIs(TLit(k), rest, open, false);
    case SName(k) => NeatIs(NameToken(k), rest, open, false);
    case SUn(tok, x) => NeatUnary(s, p, rest, open);
    case SBin(_, _, _) => NeatBin(s, p, rest, open);
    case STern(_, _, _, _, _) => NeatTernary(s, rest, open);
    case SParen(_, _) => NeatParen(s, p, rest, open);
    case STuple(_, _, _, _) => NeatTuple(s, p, rest, open);
    case SCall(_, _, _) => NeatCall(s, p, rest, open);
    case SIndex(_, _, _) => NeatIndex(s, p, rest, open);
  }

  lemma {:induction false} NeatOk(s: Syn, p: nat, rest: seq<Token>, open: Frames)
    requires Ok(s, p, Head(rest)) && Neat(Yield(s) + rest, open, false)
    ensures Clean(s, p, rest, open) && Stops(p, Head(rest))
    decreases s, 3
  {
    NeatShape(s, p, rest, open);
  }

  lemma {:induction false} NeatUnary(s: Syn, p: nat, rest: seq<Token>, open: Frames)
    requires s.SUn? && Shape(s, p, Head(rest)) && Neat(Yield(s) + rest, open, false)
    ensures Clean(s, p, rest, open)
    decreases s, 1
  {
    assert Neat(Yield(s.x) + rest, open, false) by {
      Assoc([s.tok], Yield(s.x), rest);
      NeatIs(s.tok, Yield(s.x) + rest, open, false);
    }
    NeatOk(s.x, UnSlot(UnaryOf(s.tok).value), rest, open);
  }

  lemma {:induction false} NeatBin(s: Syn, p: nat, rest: seq<Token>, open: Frames)
    requires s.SBin? && Shape(s, p, Head(rest)) && Neat(Yield(s) + rest, open, false)
    ensures Clean(s, p, rest, open)
    decreases s, 1
  {
    var r := Yield(s.r) + rest;
    Assoc4(Yield(s.l), [s.tok], Yield(s.r), rest);
    NeatShape(s.l, p, [s.tok] + r, open);
    NeatIs(s.tok, r, open, true);
    NeatOk(s.r, RightSlot(OpOf(s.tok)), rest, open);
  }

  lemma {:induction false} NeatTernary(s: Syn, rest: seq<Token>, open: Frames)
    requires s.STern? && Shape(s, 0, Head(rest)) && Neat(Yield(s) + rest, open, false)
    ensures Clean(s, 0, rest, open)
    decreases s, 1
  {
    var r3 := Yield(s.f) + rest;
    var toks := Yield(s.t) + (YieldEnd(TComma, s.comma) + (YieldEnd(THash, s.hash) + r3));
    TernTokens(s, rest);
    NeatShape(s.c, 0, [TPipe] + toks, open);
    NeatIs(TPipe, toks, open, true);
    FirstOfBoth(Yield(s.f), rest);
    NeatBranches(s, rest, r3, open);
  }

  lemma {:induction false} NeatBranches(s: Syn, rest: seq<Token>, r3: seq<Token>, open: Frames)
    requires s.STern? && r3 == Yield(s.f) + rest && Ok(s.f, 0, Head(rest))
    requires var nh := First(YieldEnd(THash, s.hash), Head(r3));
      OkEnd(TComma, s.comma, nh) && OkEnd(THash, s.hash, Head(r3)) && Ok(s.t, 0, First(YieldEnd(TComma, s.comma), nh))
    requires Neat(Yield(s.t) + (YieldEnd(TComma, s.comma) + (YieldEnd(THash, s.hash) + r3)), Inside(ATernary, open),
      false)
    ensures Errors(s.t) == 0 && s.comma == Met && s.hash == Met && Errors(s.f) == 0
    ensures Neat(rest, open, true) && Stops(0, Head(rest))
    decreases s, 0
  {
    var r2 := YieldEnd(THash, s.hash) + r3;
    FirstOfBoth(YieldEnd(THash, s.hash), r3);
    FirstOfBoth(YieldEnd(TComma, s.comma), r2);
    NeatOk(s.t, 0, YieldEnd(TComma, s.comma) + r2, Inside(ATernary, open));
    NeatMarks(s.comma, s.hash, r3, open);
    NeatOk(s.f, 0, rest, open);
  }

  lemma NeatMarks(comma: Ending, hash: Ending, r3: seq<Token>, open: Frames)
    requires var nh := First(YieldEnd(THash, hash), Head(r3)); OkEnd(TComma, comma, nh) && OkEnd(THash, hash, Head(r3))
    requires var r1 := YieldEnd(TComma, comma) + (YieldEnd(THash, hash) + r3);
      Neat(r1, Inside(ATernary, open), true) && Stops(0, Head(r1))
    ensures comma == Met && hash == Met && Neat(r3, open, false)
  {
    var r2 := YieldEnd(THash, hash) + r3;
    FirstOfBoth(YieldEnd(THash, hash), r3);
    FirstOfBoth(YieldEnd(TComma, comma), r2);
    NeatCloses(YieldEnd(TComma, comma) + r2, Inside(ATernary, open));
    assert comma == Met;
    NeatIs(TComma, r2, Inside(ATernary, open), true);
    assert ([THash] + r3)[1..] == r3;
  }

  lemma {:induction false} NeatParen(s: Syn, p: nat, rest: seq<Token>, open: Frames)
    requires s.SParen? && Shape(s, p, Head(rest)) && Neat(Yield(s) + rest, open, false)
    ensures Clean(s, p, rest, open)
    decreases s, 1
  {
    var r, inside := YieldEnd(TRParen, s.close) + rest, Inside(AGroup, open);
    Assoc4([TLParen], Yield(s.x), YieldEnd(TRParen, s.close), rest);
    NeatIs(TLParen, Yield(s.x) + r, open, false);
    FirstOfBoth(YieldEnd(TRParen, s.close), rest);
    NeatOk(s.x, 0, r, inside);
    NeatGroup(s.x, s.close, rest, open);
  }

  lemma NeatGroup(x: Syn, close: Ending, rest: seq<Token>, open: Frames)
    requires OkEnd(TRParen, close, Head(rest)) && (Tree(x) != Null || x == Missing)
    requires var r, inside := YieldEnd(TRParen, close) + rest, Inside(AGroup, open);
      Neat(Yield(x) + r, inside, false) && Neat(r, inside, true) && Stops(0, Head(r)) && Head(r) != TComma
    ensures close == Met && Tree(x) != Null && Neat(rest, open, true)
  {
    var r, inside := YieldEnd(TRParen, close) + rest, Inside(AGroup, open);
    assert x == Missing ==> Yield(x) + r == r;
    NeatCloses(r, inside);
    FirstOfBoth(YieldEnd(TRParen, close), rest);
    NeatIs(TRParen, rest, inside, true);
    NeatIs(TRParen, rest, inside, false);
  }

  // The frame after elements of a tuple.
  function TupleFrame(es: Elems, frame: Frame): Frame {
    if es.NoElem? then frame else ATuple
  }

  lemma {:induction false} NeatElems(es: Elems, close: seq<Token>, frame: Frame, open: Frames)
    requires (frame == AGroup || frame == ATuple) && OkElems(es, Head(close))
    requires Neat(YieldElems(es) + close, Inside(frame, open), true)
    ensures ElemErrors(es) == 0 && Neat(close, Inside(TupleFrame(es, frame), open), true)
    ensures es.Elem? ==> Stops(0, Head(close))
    decreases es
  {
    if es.NoElem? {
      assert YieldElems(es) + close == close;
    } else {
      var after, inside := YieldElems(es.more) + close, Inside(ATuple, open);
      Assoc4([TComma], Yield(es.x), YieldElems(es.more), close);
      NeatIs(TComma, Yield(es.x) + after, Inside(frame, open), true);
      if es.more.NoElem? {
        assert after == close;
      } else {
        assert Head(after) == TComma;
      }
      NeatOk(es.x, 0, after, inside);
      NeatElems(es.more, close, ATuple, open);
    }
  }

  lemma {:induction false} NeatTuple(s: Syn, p: nat, rest: seq<Token>, open: Frames)
    requires s.STuple? && Shape(s, p, Head(rest)) && Neat(Yield(s) + rest, open, false)
    ensures Clean(s, p, rest, open)
    decreases s, 1
  {
    var close := Closing(s.kind, s.close) + rest;
    var elems := YieldElems(s.elems) + close;
    Assoc5([TLParen], Yield(s.x), YieldElems(s.elems), Closing(s.kind, s.close), rest);
    NeatIs(TLParen, Yield(s.x) + elems, open, false);
    assert Head(elems) == TComma;
    FirstOfBoth(Closing(s.kind, s.close), rest);
    NeatOk(s.x, 0, elems, Inside(AGroup, open));
    NeatElems(s.elems, close, AGroup, open);
    NeatClosing(s.kind, s.close, rest, open);
  }

  lemma NeatClosing(kind: Kind, end: Ending, rest: seq<Token>, open: Frames)
    requires OkEnd(TRParen, end, Head(rest))
    requires var close := Closing(kind, end) + rest;
      Neat(close, Inside(ATuple, open), true) && Stops(0, Head(close)) && Head(close) != TComma
    ensures end == Met && Neat(rest, open, true)
  {
    var close := Closing(kind, end) + rest;
    NeatCloses(close, Inside(ATuple, open));
    FirstOfBoth(Closing(kind, end), rest);
    NeatIs(TRParen, rest, Inside(ATuple, open), true);
  }

  lemma {:induction false} NeatArgs(args: Args, r: seq<Token>, open: Frames)
    requires OkArgs(args, Head(r)) && Neat(YieldArgs(args) + r, Inside(ACall, open), false)
    ensures ArgErrors(args) == 0 && Neat(r, Inside(ACall, open), false)
    decreases args, 0
  {
    if args.NoArg? {
      assert YieldArgs(args) + r == r;
    } else {
      var next := YieldArgs(args.more) + r;
      var after := Comma(args.comma) + next;
      ArgsSplit(args, r);
      assert Head(after) == if args.comma then TComma else Head(next);
      NeatOk(args.x, 0, after, Inside(ACall, open));
      NeatNext(args, r, next, after, open);
      NeatArgs(args.more, r, open);
    }
  }

  // Behind an argument.
  lemma NeatNext(args: Args, r: seq<Token>, next: seq<Token>, after: seq<Token>, open: Frames)
    requires args.Arg? && OkArgs(args.more, Head(r)) && next == YieldArgs(args.more) + r &&
      after == Comma(args.comma) + next
    requires Neat(after, Inside(ACall, open), true) && Stops(0, Head(after)) && (!args.comma ==> Head(next) != TComma)
    ensures Neat(next, Inside(ACall, open), false)
  {
    if args.comma {
      NeatIs(TComma, next, Inside(ACall, open), true);
    } else {
      assert after == next;
      NeatCloses(next, Inside(ACall, open));
      assert next == [TRParen] + next[1..];
      NeatIs(TRParen, next[1..], Inside(ACall, open), true);
      NeatIs(TRParen, next[1..], Inside(ACall, open), false);
    }
  }

  lemma {:induction false} NeatCall(s: Syn, p: nat, rest: seq<Token>, open: Frames)
    requires s.SCall? && Shape(s, p, Head(rest)) && Neat(Yield(s) + rest, open, false)
    ensures Clean(s, p, rest, open)
    decreases s, 1
  {
    var r := YieldEnd(TRParen, s.close) + rest;
    Assoc4([NameToken(s.k), TLParen], YieldArgs(s.args), YieldEnd(TRParen, s.close), rest);
    NeatOpens(s.k, TLParen, YieldArgs(s.args) + r, open);
    NeatCallArgs(s.args, s.close, rest, open);
  }

  lemma {:induction false} NeatCallArgs(args: Args, close: Ending, rest: seq<Token>, open: Frames)
    requires OkArgs(args, First(YieldEnd(TRParen, close), Head(rest)))
    requires close.Met? || (close == Skipped([]) && Head(rest) == TEof)
    requires Neat(YieldArgs(args) + (YieldEnd(TRParen, close) + rest), Inside(ACall, open), false)
    ensures ArgErrors(args) == 0 && close == Met && Neat(rest, open, true)
    decreases args, 1
  {
    var r := YieldEnd(TRParen, close) + rest;
    FirstOfBoth(YieldEnd(TRParen, close), rest);
    NeatArgs(args, r, open);
    NeatMissing(r, Inside(ACall, open));
    NeatCloses(r, Inside(ACall, open));
    NeatIs(TRParen, rest, Inside(ACall, open), true);
  }

  // A name and the bracket behind it.
  lemma NeatOpens(k: Ident, b: Token, r: seq<Token>, open: Frames)
    requires b == TLParen || b == TLBracket
    ensures Neat([NameToken(k), b] + r, open, false) ==
      Neat(r, Inside(if b == TLParen then ACall else AnIndex, open), false)
  {
    assert [NameToken(k)] + [b] == [NameToken(k), b];
    Assoc([NameToken(k)], [b], r);
    NeatIs(NameToken(k), [b] + r, open, false);
    assert ([b] + r)[1..] == r;
  }

  lemma {:induction false} NeatIndex(s: Syn, p: nat, rest: seq<Token>, open: Frames)
    requires s.SIndex? && Shape(s, p, Head(rest)) && Neat(Yield(s) + rest, open, false)
    ensures Clean(s, p, rest, open)
    decreases s, 1
  {
    var r := YieldEnd(TRBracket, s.close) + rest;
    Assoc4([NameToken(s.k), TLBracket], Yield(s.x), YieldEnd(TRBracket, s.close), rest);
    NeatOpens(s.k, TLBracket, Yield(s.x) + r, open);
    FirstOfBoth(YieldEnd(TRBracket, s.close), rest);
    NeatOk(s.x, 0, r, Inside(AnIndex, open));
    NeatBracket(s.close, rest, open);
  }

  lemma NeatBracket(close: Ending, rest: seq<Token>, open: Frames)
    requires OkEnd(TRBracket, close, Head(rest))
    requires var r := YieldEnd(TRBracket, close) + rest; Neat(r, Inside(AnIndex, open), true) && Stops(0, Head(r))
    ensures close == Met && Neat(rest, open, true)
  {
    FirstOfBoth(YieldEnd(TRBracket, close), rest);
    NeatCloses(YieldEnd(TRBracket, close) + rest, Inside(AnIndex, open));
    NeatIs(TRBracket, rest, Inside(AnIndex, open), true);
  }

  // ---- What never ends is not neat ----

  lemma {:induction false} JamNotNeat(j: Jam, p: nat, rest: seq<Token>, open: Frames)
    requires Jams(Head(rest)) && OkJam(j, p, Head(rest))
    ensures !Neat(YieldJam(j) + rest, open, false)
    decreases j, 1
  {
    match j
    case InArgs(_, _) => CallNotNeat(j, rest, open);
    case InArg(_, _, _) => CallNotNeat(j, rest, open);
    case InElem(_, _, _) => ElemNotNeat(j, rest, open);
    case InRight(_, _, _) => RightNotNeat(j, p, rest, open);
    case InYes(_, _) => YesNotNeat(j, rest, open);
    case InNo(_, _, _) => NoNotNeat(j, rest, open);
    case _ => PrefixNotNeat(j, rest, open);
  }

  lemma {:induction false} PrefixNotNeat(j: Jam, rest: seq<Token>, open: Frames)
    requires (j.InUnary? || j.InParen? || j.InIndex?) && Jams(Head(rest)) && OkJam(j, 0, Head(rest))
    ensures !Neat(YieldJam(j) + rest, open, false)
    decreases j, 0
  {
    var tail := YieldJam(j.inner) + rest;
    match j
    case InUnary(tok, inner) =>
      Assoc([tok], YieldJam(inner), rest);
      NeatIs(tok, tail, open, false);
      JamNotNeat(inner, UnSlot(UnaryOf(tok).value), rest, open);
    case InParen(inner) =>
      Assoc([TLParen], YieldJam(inner), rest);
      NeatIs(TLParen, tail, open, false);
      JamNotNeat(inner, 0, rest, Inside(AGroup, open));
    case InIndex(k, inner) =>
      Assoc([NameToken(k), TLBracket], YieldJam(inner), rest);
      NeatOpens(k, TLBracket, tail, open);
      JamNotNeat(inner, 0, rest, Inside(AnIndex, open));
  }

  lemma {:induction false} CallNotNeat(j: Jam, rest: seq<Token>, open: Frames)
    requires (j.InArgs? || j.InArg?) && Jams(Head(rest)) && OkJam(j, 0, Head(rest))
    ensures !Neat(YieldJam(j) + rest, open, false)
    decreases j, 0
  {
    if j.InArgs? {
      Assoc([NameToken(j.k), TLParen], YieldArgs(j.args), rest);
      StuckNotNeat(rest, open);
      ListNotNeat(j.k, j.args, rest, open);
    } else {
      Assoc4([NameToken(j.k), TLParen], YieldArgs(j.args), YieldJam(j.inner), rest);
      JamNotNeat(j.inner, 0, rest, Inside(ACall, open));
      ListNotNeat(j.k, j.args, YieldJam(j.inner) + rest, open);
    }
  }

  lemma StuckNotNeat(toks: seq<Token>, open: Frames)
    requires Jams(Head(toks))
    ensures !Neat(toks, Inside(ACall, open), false)
  {
    assert NeatAt(toks[0], toks[1..], Inside(ACall, open), false) ==
      NeatEnd(toks[0], toks[1..], Inside(ACall, open), false);
  }

  lemma ListNotNeat(k: Ident, args: Args, tail: seq<Token>, open: Frames)
    requires OkArgs(args, Head(tail)) && !Neat(tail, Inside(ACall, open), false)
    ensures !Neat([NameToken(k), TLParen] + (YieldArgs(args) + tail), open, false)
  {
    NeatOpens(k, TLParen, YieldArgs(args) + tail, open);
    if Neat(YieldArgs(args) + tail, Inside(ACall, open), false) {
      NeatArgs(args, tail, open);
    }
  }

  lemma {:induction false} RightNotNeat(j: Jam, p: nat, rest: seq<Token>, open: Frames)
    requires j.InRight? && Jams(Head(rest)) && OkJam(j, p, Head(rest))
    ensures !Neat(YieldJam(j) + rest, open, false)
    decreases j, 0
  {
    var tail := YieldJam(j.inner) + rest;
    Assoc4(Yield(j.l), [j.tok], YieldJam(j.inner), rest);
    JamNotNeat(j.inner, RightSlot(OpOf(j.tok)), rest, open);
    NeatIs(j.tok, tail, open, true);
    if Neat(YieldJam(j) + rest, open, false) {
      NeatShape(j.l, p, [j.tok] + tail, open);
    }
  }

  lemma {:induction false} YesNotNeat(j: Jam, rest: seq<Token>, open: Frames)
    requires j.InYes? && Jams(Head(rest)) && OkJam(j, 0, Head(rest))
    ensures !Neat(YieldJam(j) + rest, open, false)
    decreases j, 0
  {
    var tail := YieldJam(j.inner) + rest;
    Assoc4(Yield(j.c), [TPipe], YieldJam(j.inner), rest);
    JamNotNeat(j.inner, 0, rest, Inside(ATernary, open));
    NeatIs(TPipe, tail, open, true);
    if Neat(YieldJam(j) + rest, open, false) {
      NeatShape(j.c, 0, [TPipe] + tail, open);
    }
  }

  lemma {:induction false} NoNotNeat(j: Jam, rest: seq<Token>, open: Frames)
    requires j.InNo? && Jams(Head(rest)) && OkJam(j, 0, Head(rest))
    ensures !Neat(YieldJam(j) + rest, open, false)
    decreases j, 0
  {
    var tail := YieldJam(j.inner) + rest;
    NoTokens(j, rest, [TPipe] + (Yield(j.t) + ([TComma] + ([THash] + tail))));
    JamNotNeat(j.inner, 0, rest, open);
    TrueNotNeat(j.t, tail, open);
    NeatIs(TPipe, Yield(j.t) + ([TComma] + ([THash] + tail)), open, true);
    if Neat(YieldJam(j) + rest, open, false) {
      NeatShape(j.c, 0, [TPipe] + (Yield(j.t) + ([TComma] + ([THash] + tail))), open);
    }
  }

  lemma TrueNotNeat(t: Syn, tail: seq<Token>, open: Frames)
    requires Ok(t, 0, TComma) && !Neat(tail, open, false)
    ensures !Neat(Yield(t) + ([TComma] + ([THash] + tail)), Inside(ATernary, open), false)
  {
    var r1 := [TComma] + ([THash] + tail);
    assert ([THash] + tail)[1..] == tail;
    NeatIs(TComma, [THash] + tail, Inside(ATernary, open), true);
    if Neat(Yield(t) + r1, Inside(ATernary, open), false) {
      NeatOk(t, 0, r1, Inside(ATernary, open));
    }
  }

  lemma {:induction false} ElemNotNeat(j: Jam, rest: seq<Token>, open: Frames)
    requires j.InElem? && Jams(Head(rest)) && OkJam(j, 0, Head(rest))
    ensures !Neat(YieldJam(j) + rest, open, false)
    decreases j, 0
  {
    var tail := YieldJam(j.inner) + rest;
    var close := [TComma] + tail;
    var elems := YieldElems(j.elems) + close;
    ElemTokens(j, rest, elems);
    JamNotNeat(j.inner, 0, rest, Inside(ATuple, open));
    NeatIs(TLParen, Yield(j.x) + elems, open, false);
    NeatIs(TComma, tail, Inside(TupleFrame(j.elems, AGroup), open), true);
    assert Head(elems) == TComma;
    if Neat(YieldJam(j) + rest, open, false) {
      NeatOk(j.x, 0, elems, Inside(AGroup, open));
      NeatElems(j.elems, close, AGroup, open);
    }
  }

  /** Neat tokens are parsed in a finite number of steps, and no error is reported about them. */
  lemma NeatEnds(toks: seq<Token>, p: nat, lim: Limit)
    requires Neat(toks, Bottom, false)
    ensures var o := ParseExpr(toks, p, lim); o != Loops && (o.Done? ==> o.lim == lim)
  {
    var o := ParseExpr(toks, p, lim);
    if o == Loops {
      var j, rest := FromExprLoops(toks, p, lim);
      JamNotNeat(j, p, rest, Bottom);
    }
    if o.Done? {
      var s := FromExpr(toks, p, lim, o);
      NeatOk(s, p, o.rest, Bottom);
    }
  }
}
