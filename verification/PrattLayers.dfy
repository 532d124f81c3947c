/** The expression language as a layered grammar, one layer for each set of operators, and the proof that it is what the
    parser reads. The layers, the trees and the tokens that matter are listed here once more, apart from the parser. */
module PrattLayers {
  import opened Options
  import opened Pratt
  import opened PrattGrammar
  import opened PrattExact
  import opened Sequences

  // ---- The layers, from the loosest operators to the tightest ----

  // `#|` belongs to the operators of its layer, but the parser refuses it.
  predicate InLayer(t: Token, k: nat) {
    match k
    case 1 => t == TOp(Or)
    case 2 => t == TOp(Xor)
    case 3 => t == TOp(And)
    case 4 => t == TOp(Bor)
    case 5 => t == TOp(Bxor) || t == THashPipe
    case 6 => t == TOp(Band)
    case 7 => t in {TOp(Is), TOp(Has), TOp(NotEq), TOp(Lt), TOp(Gt), TOp(Le), TOp(Ge), TOp(Overlap), TOp(Wild), TIn}
    case 8 => t in {TOp(Plus), TOp(Minus), TOp(Xsub)}
    case 9 => t in {TOp(Times), TOp(Slash), TOp(DSlash), TOp(TSlash), TOp(At), TOp(Ptm), TOp(Ptd)}
    case 10 => t == TOp(Caret)
    case _ => false
  }

  // The layers of the operands of a sign, of a not.
  const POWER: nat := 10
  const BOR: nat := 4
  const ATOM: nat := 11

  predicate IsSign(t: Token) {
    t == TOp(Minus) || t == TTilde || t == TBnot || t == TLength
  }

  predicate IsNot(t: Token) {
    t == TNot || t == THash
  }

  // ---- What the phrases mean ----

  function Meaning(s: Syn): Expr {
    match s
    case Missing => Null
    case SBad => Null
    case SLit(k) => Lit(k)
    case SName(k) => Name(k)
    case SUn(t, x) =>
      if t == TOp(Minus) then Un(Neg, Meaning(x))
      else if t == TLength then Un(Length, Meaning(x))
      else if IsSign(t) then Un(Bnot, Meaning(x))
      else if IsNot(t) then Un(Not, Meaning(x))
      else Null
    case SBin(t, l, r) =>
      if t == TIn then Bin(Has, Meaning(r), Meaning(l)) else if t.TOp? then Bin(t.op, Meaning(l), Meaning(r)) else Null
    case STern(c, t, f, _, _) => Tern(Meaning(c), Meaning(t), Meaning(f))
    case SParen(x, _) => Meaning(x)
    case STuple(x, es, kind, _) =>
      Tuple(if Meaning(x) == Null then MeaningAll(es) else Cons(Meaning(x), MeaningAll(es)), kind)
    case SCall(k, args, _) => Call(k, MeaningArgs(args))
    case SIndex(k, x, _) => Index(k, Meaning(x))
  }

  // Elements that are not there are left out, arguments that are not there stay as nulls.
  function MeaningAll(es: Elems): Exprs {
    match es
    case NoElem => Nil
    case Elem(x, more) => if Meaning(x) == Null then MeaningAll(more) else Cons(Meaning(x), MeaningAll(more))
  }

  function MeaningArgs(args: Args): Exprs {
    match args
    case NoArg => Nil
    case Arg(x, _, more) => Cons(Meaning(x), MeaningArgs(more))
  }

  // ---- The grammar ----

  // Where there is no expression.
  predicate Closes(n: Token) {
    n == TBreak || n == TClose || n == TEof || n == TRParen || n == TRBracket || n == TComma
  }

  // A line ends, the file ends, or a statement starts.
  predicate Resumes(n: Token) {
    n == TBreak || n == TEof || n == TKeyword
  }

  // Tokens that are reported where an expression is wanted.
  predicate Misplaced(n: Token) {
    || (n.TOp? && n.op != Plus && n.op != Minus) || n == TIn || n == THashPipe || n == TPipe || n == TSemi || n == TDot
    || n == TKeyword || n == TOther
  }

  // A wanted token t in front of n: there, or missing, and then everything up to the next line or statement is dropped.
  predicate Ends(t: Token, e: Ending, n: Token) {
    e.Skipped? ==> Resumes(n) && (forall x :: x in e.skip ==> !Resumes(x)) && First(e.skip, n) != t
  }

  predicate Real(s: Syn) {
    Meaning(s) != Null
  }

  // n is an operator of layer k or of a tighter one.
  predicate GoesOn(n: Token, k: nat) {
    exists j :: k <= j <= 10 && InLayer(n, j)
  }

  /** A phrase of layer k in front of the token n: operators of the layer from the left, with operands of the next one;
      the power from the right. */
  predicate Phrase(s: Syn, k: nat, n: Token)
    decreases s, 1, 12 - k
  {
    if k >= ATOM then Atom(s, n)
    else if s.SBin? && InLayer(s.tok, k) && s.tok != THashPipe then
      && Real(s.l) && Real(s.r) && (s.tok == TOp(Is) ==> Head(Yield(s.r)) != TNot)
      && if k == POWER then Phrase(s.l, ATOM, s.tok) && Phrase(s.r, POWER, n)
         else Phrase(s.l, k, s.tok) && Phrase(s.r, k + 1, n)
    else Phrase(s, k + 1, n)
  }

  // The operand of a prefix operator: a phrase that takes all operators of its layers, or nothing.
  predicate Operand(s: Syn, k: nat, n: Token)
    decreases s, 2
  {
    if Real(s) then Phrase(s, k, n) && !GoesOn(n, k) else Atom(s, n)
  }

  /** A whole expression in front of n: a phrase of the loosest layer, a ternary, or nothing. */
  predicate Whole(s: Syn, n: Token)
    decreases s, 3
  {
    if s.STern? then
      var nf := First(Yield(s.f), n);
      var nh := First(YieldEnd(THash, s.hash), nf);
      && Real(s.c) && Phrase(s.c, 1, TPipe) && Whole(s.t, First(YieldEnd(TComma, s.comma), nh))
      && Ends(TComma, s.comma, nh) && Ends(THash, s.hash, nf) && Whole(s.f, n)
    else Operand(s, 1, n) && (Real(s) ==> n != TPipe)
  }

  predicate Atom(s: Syn, n: Token)
    decreases s, 0
  {
    match s
    case Missing => Closes(n)
    case SBad => Misplaced(n)
    case SLit(_) => true
    case SName(_) => n != TDot && n != TLParen && n != TLBracket
    case SUn(t, x) => (IsSign(t) && Operand(x, POWER, n)) || (IsNot(t) && Operand(x, BOR, n))
    case SParen(x, close) =>
      var first := First(YieldEnd(TRParen, close), n);
      Whole(x, first) && first != TComma && Ends(TRParen, close, n)
    case STuple(x, es, kind, close) =>
      var first := First(Closing(kind, close), n);
      && es.Elem? && Whole(x, TComma) && Elements(es, first) && first != TComma && Ends(TRParen, close, n)
      && (if kind.Of? then kind.typ < 5 else first != TSemi)
    case SCall(_, args, close) =>
      Arguments(args, First(YieldEnd(TRParen, close), n)) && (close == Met || (close == Skipped([]) && n == TEof))
    case SIndex(_, x, close) =>
      Whole(x, First(YieldEnd(TRBracket, close), n)) && Ends(TRBracket, close, n) && n != TLParen
    case _ => false
  }

  predicate Elements(es: Elems, close: Token)
    decreases es, 0
  {
    es.Elem? ==> Whole(es.x, if es.more.NoElem? then close else TComma) && Elements(es.more, close)
  }

  predicate Arguments(args: Args, close: Token)
    decreases args, 0
  {
    args.Arg? ==>
      var next := First(YieldArgs(args.more), close);
      && Whole(args.x, if args.comma then TComma else next) && Arguments(args.more, close)
      && (args.comma || (next != TComma && (Yield(args.x) != [] || Errors(args.x) > 0)))
  }

  // ---- The layers are the levels of the parser ----

  /** The table of levels, read off the layers. */
  lemma LevelIsLayer(t: Token, k: nat)
    requires 1 <= k <= 10
    ensures InLayer(t, k) <==> Prec(t) == k
  {
  }

  lemma GoesOnIs(n: Token, k: nat)
    requires 1 <= k <= 10
    ensures GoesOn(n, k) <==> Prec(n) >= k
  {
    if Prec(n) >= k {
      LevelIsLayer(n, Prec(n));
    }
    if j :| k <= j <= 10 && InLayer(n, j) {
      LevelIsLayer(n, j);
    }
  }

  /** The parser's tree is what the phrase means. */
  lemma {:induction false} MeaningIs(s: Syn)
    ensures Meaning(s) == Tree(s)
    decreases s
  {
    match s
    case SUn(_, x) => MeaningIs(x);
    case SBin(_, l, r) =>
      MeaningIs(l);
      MeaningIs(r);
    case STern(c, t, f, _, _) =>
      MeaningIs(c);
      MeaningIs(t);
      MeaningIs(f);
    case SParen(x, _) => MeaningIs(x);
    case STuple(x, es, _, _) =>
      MeaningIs(x);
      MeaningAllIs(es);
    case SCall(_, args, _) => MeaningArgsIs(args);
    case SIndex(_, x, _) => MeaningIs(x);
    case _ =>
  }

  lemma {:induction false} MeaningAllIs(es: Elems)
    ensures MeaningAll(es) == TreeElems(es)
    decreases es
  {
    if es.Elem? {
      MeaningIs(es.x);
      MeaningAllIs(es.more);
    }
  }

  lemma {:induction false} MeaningArgsIs(args: Args)
    ensures MeaningArgs(args) == TreeArgs(args)
    decreases args
  {
    if args.Arg? {
      MeaningIs(args.x);
      MeaningArgsIs(args.more);
    }
  }

  lemma EndsIs(t: Token, e: Ending, n: Token)
    ensures Ends(t, e, n) <==> OkEnd(t, e, n)
  {
  }

  // ---- Phrases of several layers ----

  lemma {:induction false} PhraseAtom(s: Syn, k: nat, n: Token)
    requires !s.SBin?
    ensures Phrase(s, k, n) <==> Atom(s, n)
    decreases 12 - k
  {
    if k < ATOM {
      PhraseAtom(s, k + 1, n);
    }
  }

  // A phrase of a layer is one of the looser layers.
  lemma {:induction false} PhraseDown(s: Syn, m: nat, j: nat, n: Token)
    requires s.SBin? && 1 <= m <= j <= 10 && Prec(s.tok) == j
    ensures Phrase(s, m, n) <==> Phrase(s, j, n)
    decreases j - m
  {
    if m < j {
      LevelIsLayer(s.tok, m);
      PhraseDown(s, m + 1, j, n);
    }
  }

  // Its operator is of layer k or of a tighter one.
  lemma {:induction false} PhraseTight(s: Syn, k: nat, n: Token)
    requires s.SBin? && 1 <= k <= 11 && Phrase(s, k, n)
    ensures k <= Prec(s.tok)
    decreases 12 - k
  {
    if k < ATOM {
      LevelIsLayer(s.tok, k);
      if !InLayer(s.tok, k) {
        PhraseTight(s, k + 1, n);
      }
    }
  }

  // A phrase with an operator, at the operator's own layer.
  predicate Joined(s: Syn, n: Token)
    requires s.SBin?
  {
    && s.tok != THashPipe && Real(s.l) && Real(s.r) && (s.tok == TOp(Is) ==> Head(Yield(s.r)) != TNot)
    && if s.tok == TOp(Caret) then Phrase(s.l, ATOM, s.tok) && Phrase(s.r, POWER, n)
       else Phrase(s.l, Prec(s.tok), s.tok) && Phrase(s.r, Prec(s.tok) + 1, n)
  }

  lemma PhraseJoined(s: Syn, n: Token)
    requires s.SBin? && Prec(s.tok) > 0
    ensures Phrase(s, Prec(s.tok), n) <==> Joined(s, n)
  {
    LevelIsLayer(s.tok, Prec(s.tok));
    if s.tok == THashPipe && Phrase(s, 6, n) {
      PhraseTight(s, 6, n);
    }
  }

  // ---- The grammar is the parser's ----

  // A ternary stands only where the parser is at its lowest level.
  lemma NoTernaryInside(s: Syn, p: nat, n: Token)
    requires s.STern? && p > 0
    ensures !Shape(s, p, n)
  {
  }

  // What stands on the left stands there for looser operators too.
  lemma LeftLooser(s: Syn, p: nat, q: nat, n: Token)
    requires q <= p && Left(s, p, n)
    ensures Left(s, q, n)
    decreases s
  {
    if s.SBin? {
      LeftLooser(s.l, p, q, s.tok);
    }
  }

  // In front of an operator that is not tighter than layer k, a phrase of layer k is an operand on the left.
  lemma {:induction false} PhraseIsLeft(s: Syn, k: nat, n: Token)
    requires 1 <= k <= 11 && Real(s) && Phrase(s, k, n) && (k <= 10 ==> Prec(n) <= k && Prec(n) <= 9)
    ensures Left(s, k - 1, n)
    decreases s, 3
  {
    MeaningIs(s);
    if s.SBin? {
      PhraseTight(s, k, n);
      JoinedIsLeft(s, k, n);
    } else {
      PhraseAtom(s, k, n);
      AtomIs(s, k - 1, n);
    }
  }

  lemma {:induction false} JoinedIsLeft(s: Syn, k: nat, n: Token)
    requires s.SBin? && 1 <= k <= Prec(s.tok) <= 10 && Phrase(s, k, n) && Prec(n) <= k && Prec(n) <= 9
    ensures Left(s, k - 1, n)
    decreases s, 1
  {
    PhraseDown(s, k, Prec(s.tok), n);
    PhraseJoined(s, n);
    BothAreLeft(s.l, s.tok, s.r, k, n);
    BinIsLeft(s, k - 1, n);
  }

  lemma {:induction false} BothAreLeft(l: Syn, t: Token, r: Syn, k: nat, n: Token)
    requires 1 <= k <= Prec(t) && Prec(n) <= k && Prec(n) <= 9 && Joined(SBin(t, l, r), n)
    ensures IsOperator(t) && OpPrec(OpOf(t)) == Prec(t) && Prec(n) <= RightSlot(OpOf(t))
    ensures Left(l, k - 1, t) && Left(r, RightSlot(OpOf(t)), n)
    decreases SBin(t, l, r), 0
  {
    LevelIsLayer(t, 10);
    FirstIsLeft(l, t, k);
    SecondIsLeft(r, t, n);
  }

  lemma {:induction false} FirstIsLeft(l: Syn, t: Token, k: nat)
    requires IsOperator(t) && Real(l) && 1 <= k <= Prec(t) && Phrase(l, if t == TOp(Caret) then ATOM else Prec(t), t)
    ensures Left(l, k - 1, t)
    decreases l, 4
  {
    var j := if t == TOp(Caret) then ATOM else Prec(t);
    LevelIsLayer(t, 10);
    PhraseIsLeft(l, j, t);
    LeftLooser(l, j - 1, k - 1, t);
  }

  lemma {:induction false} SecondIsLeft(r: Syn, t: Token, n: Token)
    requires IsOperator(t) && Real(r) && Prec(n) <= RightSlot(OpOf(t))
    requires Phrase(r, if t == TOp(Caret) then POWER else Prec(t) + 1, n)
    ensures Left(r, RightSlot(OpOf(t)), n)
    decreases r, 4
  {
    LevelIsLayer(t, 10);
    PhraseIsLeft(r, RightSlot(OpOf(t)) + 1, n);
  }

  lemma BinIsLeft(s: Syn, p: nat, n: Token)
    requires s.SBin? && IsOperator(s.tok) && OpPrec(OpOf(s.tok)) > p && Left(s.l, p, s.tok)
    requires Left(s.r, RightSlot(OpOf(s.tok)), n) && Prec(n) <= RightSlot(OpOf(s.tok))
    requires s.tok == TOp(Is) ==> Head(Yield(s.r)) != TNot
    ensures Left(s, p, n)
  {
  }

  // And back: it is a phrase of the layer of the operator behind it, or of its own place if that is tighter.
  lemma {:induction false} LeftIsPhrase(s: Syn, p: nat, n: Token, m: nat)
    requires p <= 9 && Left(s, p, n) && m == if Prec(n) == 10 then 11 else if Prec(n) > p then Prec(n) else p + 1
    ensures Phrase(s, m, n)
    decreases s, 3
  {
    if s.SBin? {
      LeftIsJoined(s, p, n);
      PhraseJoined(s, n);
      PhraseDown(s, m, Prec(s.tok), n);
    } else {
      PhraseAtom(s, m, n);
      AtomIs(s, p, n);
    }
  }

  lemma OkToLeft(s: Syn, p: nat, n: Token)
    requires Tree(s) != Null && !s.STern? && Ok(s, p, n)
    ensures Left(s, p, n) && Stops(p, n)
  {
  }

  lemma LeftToOk(s: Syn, p: nat, n: Token)
    requires Left(s, p, n) && Stops(p, n)
    ensures Ok(s, p, n)
  {
  }

  // The parts of such an operand.
  lemma LeftParts(s: Syn, p: nat, n: Token)
    requires s.SBin? && Left(s, p, n)
    ensures IsOperator(s.tok) && Prec(s.tok) == OpPrec(OpOf(s.tok)) > p && Left(s.l, p, s.tok)
    ensures var slot := RightSlot(OpOf(s.tok)); Left(s.r, slot, n) && Prec(n) <= slot
    ensures s.tok == TOp(Is) ==> Head(Yield(s.r)) != TNot
  {
    var slot := RightSlot(OpOf(s.tok));
    assert Tree(s.r) != Null && Ok(s.r, slot, n);
    if s.r.STern? {
      NoTernaryInside(s.r, slot, n);
    } else {
      OkToLeft(s.r, slot, n);
    }
  }

  lemma {:induction false} LeftIsJoined(s: Syn, p: nat, n: Token)
    requires s.SBin? && p <= 9 && Left(s, p, n)
    ensures Joined(s, n) && p < Prec(s.tok) <= 10 && Prec(n) <= Prec(s.tok) && Prec(n) <= 9
    decreases s, 0
  {
    var j, slot := Prec(s.tok), RightSlot(OpOf(s.tok));
    LeftParts(s, p, n);
    MeaningIs(s.l);
    MeaningIs(s.r);
    LevelIsLayer(s.tok, 10);
    var m := if j == 10 then 11 else j;
    assert Phrase(s.l, m, s.tok) by {
      LeftIsPhrase(s.l, p, s.tok, m);
    }
    assert Phrase(s.r, slot + 1, n) by {
      LeftIsPhrase(s.r, slot, n, slot + 1);
    }
  }

  lemma OperandToPhrase(s: Syn, k: nat, n: Token)
    requires Real(s) && 1 <= k <= 10 && Operand(s, k, n)
    ensures Phrase(s, k, n) && Prec(n) < k
  {
    GoesOnIs(n, k);
  }

  lemma PhraseToOperand(s: Syn, k: nat, n: Token)
    requires Real(s) && 1 <= k <= 10 && Phrase(s, k, n) && Prec(n) < k
    ensures Operand(s, k, n)
  {
    GoesOnIs(n, k);
  }

  // A real operand that is no ternary.
  lemma {:induction false} RealIsOk(s: Syn, p: nat, n: Token)
    requires p <= 9 && Real(s) && Operand(s, p + 1, n) && (p == 0 ==> n != TPipe)
    ensures Ok(s, p, n)
    decreases s, 4
  {
    OperandToPhrase(s, p + 1, n);
    PhraseIsLeft(s, p + 1, n);
    LeftToOk(s, p, n);
  }

  lemma {:induction false} OkIsReal(s: Syn, p: nat, n: Token)
    requires p <= 9 && Tree(s) != Null && !s.STern? && Ok(s, p, n)
    ensures Operand(s, p + 1, n) && (p == 0 ==> n != TPipe)
    decreases s, 4
  {
    OkToLeft(s, p, n);
    LeftIsPhrase(s, p, n, p + 1);
    MeaningIs(s);
    PhraseToOperand(s, p + 1, n);
  }

  lemma {:induction false} OperandIs(s: Syn, p: nat, n: Token)
    requires 1 <= p <= 9
    ensures Operand(s, p + 1, n) <==> Ok(s, p, n)
    decreases s, 5
  {
    MeaningIs(s);
    if !Real(s) {
      NothingIs(s, p, n);
    } else if s.STern? {
      TernaryOperand(s, p, n);
    } else {
      if Operand(s, p + 1, n) {
        RealIsOk(s, p, n);
      }
      if Ok(s, p, n) {
        OkIsReal(s, p, n);
      }
    }
  }

  lemma TernaryOperand(s: Syn, p: nat, n: Token)
    requires 1 <= p <= 9 && s.STern?
    ensures !Operand(s, p + 1, n) && !Ok(s, p, n)
  {
    NoTernaryInside(s, p, n);
    PhraseAtom(s, p + 1, n);
  }

  // Where there is no expression.
  lemma {:induction false} NothingIs(s: Syn, p: nat, n: Token)
    requires !Real(s)
    ensures Atom(s, n) <==> Ok(s, p, n)
    decreases s, 3
  {
    MeaningIs(s);
    if s.SBin? {
      NoBin(s, p, n);
    } else if !s.STern? {
      AtomIs(s, p, n);
      NothingOk(s, p, n);
    }
  }

  lemma NothingOk(s: Syn, p: nat, n: Token)
    requires Tree(s) == Null
    ensures Ok(s, p, n) <==> Shape(s, p, n)
  {
  }

  lemma NoBin(s: Syn, p: nat, n: Token)
    requires s.SBin? && Tree(s) == Null
    ensures !Atom(s, n) && !Ok(s, p, n)
  {
  }

  lemma WholeParts(s: Syn, n: Token)
    requires !s.STern?
    ensures Whole(s, n) <==> Operand(s, 1, n) && (Real(s) ==> n != TPipe)
  {
  }

  /** A whole expression is what the parser reads at its lowest level. */
  lemma {:induction false} WholeIs(s: Syn, n: Token)
    ensures Whole(s, n) <==> Ok(s, 0, n)
    decreases s, 7
  {
    if s.STern? {
      BranchesAre(s, n);
    } else {
      PlainIs(s, n);
    }
  }

  lemma {:induction false} PlainIs(s: Syn, n: Token)
    requires !s.STern?
    ensures Whole(s, n) <==> Ok(s, 0, n)
    decreases s, 6
  {
    MeaningIs(s);
    if !Real(s) {
      WholeParts(s, n);
      NothingIs(s, 0, n);
    } else {
      RealWhole(s, n);
    }
  }

  lemma {:induction false} RealWhole(s: Syn, n: Token)
    requires !s.STern? && Tree(s) != Null && Meaning(s) == Tree(s)
    ensures Whole(s, n) <==> Ok(s, 0, n)
    decreases s, 5
  {
    WholeParts(s, n);
    if Operand(s, 1, n) && n != TPipe {
      RealIsOk(s, 0, n);
    }
    if Ok(s, 0, n) {
      OkIsReal(s, 0, n);
    }
  }

  lemma {:induction false} BranchesAre(s: Syn, n: Token)
    requires s.STern?
    ensures Whole(s, n) <==> Ok(s, 0, n)
    decreases s, 5
  {
    var nf := First(Yield(s.f), n);
    var nh := First(YieldEnd(THash, s.hash), nf);
    WholeIs(s.t, First(YieldEnd(TComma, s.comma), nh));
    WholeIs(s.f, n);
    EndsIs(TComma, s.comma, nh);
    EndsIs(THash, s.hash, nf);
    ConditionIs(s.c);
  }

  lemma {:induction false} ConditionIs(c: Syn)
    ensures Real(c) && Phrase(c, 1, TPipe) <==> Left(c, 0, TPipe)
    decreases c, 8
  {
    MeaningIs(c);
    if Real(c) && Phrase(c, 1, TPipe) {
      PhraseIsLeft(c, 1, TPipe);
    }
    if Left(c, 0, TPipe) {
      LeftIsPhrase(c, 0, TPipe, 1);
    }
  }

  lemma {:induction false} AtomIs(s: Syn, p: nat, n: Token)
    requires !s.SBin? && !s.STern?
    ensures Atom(s, n) <==> Shape(s, p, n)
    decreases s, 2
  {
    if s.SUn? {
      SignedIs(s, p, n);
    } else if s.SParen? || s.STuple? {
      BracketsAre(s, p, n);
    } else if s.SCall? || s.SIndex? {
      NamedIs(s, p, n);
    } else {
      LeafIs(s, p, n);
    }
  }

  lemma LeafIs(s: Syn, p: nat, n: Token)
    requires s.Missing? || s.SBad? || s.SLit? || s.SName?
    ensures Atom(s, n) <==> Shape(s, p, n)
  {
  }

  lemma {:induction false} SignedIs(s: Syn, p: nat, n: Token)
    requires s.SUn?
    ensures Atom(s, n) <==> Shape(s, p, n)
    decreases s, 1
  {
    PrefixIs(s.tok, s.x, n);
  }

  lemma {:induction false} BracketsAre(s: Syn, p: nat, n: Token)
    requires s.SParen? || s.STuple?
    ensures Atom(s, n) <==> Shape(s, p, n)
    decreases s, 1
  {
    if s.SParen? {
      InsideParens(s.x, s.close, n);
    } else {
      InsideTuple(s, First(Closing(s.kind, s.close), n), n);
    }
  }

  lemma {:induction false} NamedIs(s: Syn, p: nat, n: Token)
    requires s.SCall? || s.SIndex?
    ensures Atom(s, n) <==> Shape(s, p, n)
    decreases s, 1
  {
    if s.SCall? {
      ArgumentsIs(s.args, First(YieldEnd(TRParen, s.close), n));
    } else {
      InsideIndex(s.x, s.close, n);
    }
  }

  lemma {:induction false} InsideTuple(s: Syn, first: Token, n: Token)
    requires s.STuple?
    ensures Whole(s.x, TComma) && Elements(s.elems, first) && Ends(TRParen, s.close, n) <==>
      Ok(s.x, 0, TComma) && OkElems(s.elems, first) && OkEnd(TRParen, s.close, n)
    decreases s, 0
  {
    WholeIs(s.x, TComma);
    ElementsIs(s.elems, first);
    EndsIs(TRParen, s.close, n);
  }

  lemma {:induction false} InsideParens(x: Syn, close: Ending, n: Token)
    ensures var first := First(YieldEnd(TRParen, close), n);
      Whole(x, first) && Ends(TRParen, close, n) <==> Ok(x, 0, first) && OkEnd(TRParen, close, n)
    decreases x, 8
  {
    WholeIs(x, First(YieldEnd(TRParen, close), n));
    EndsIs(TRParen, close, n);
  }

  lemma {:induction false} InsideIndex(x: Syn, close: Ending, n: Token)
    ensures var first := First(YieldEnd(TRBracket, close), n);
      Whole(x, first) && Ends(TRBracket, close, n) <==> Ok(x, 0, first) && OkEnd(TRBracket, close, n)
    decreases x, 8
  {
    WholeIs(x, First(YieldEnd(TRBracket, close), n));
    EndsIs(TRBracket, close, n);
  }

  lemma PrefixTable(t: Token)
    ensures IsUnary(t) <==> IsSign(t) || IsNot(t)
    ensures (IsSign(t) ==> UnSlot(UnaryOf(t).value) == 9) && (IsNot(t) ==> UnSlot(UnaryOf(t).value) == 3)
    ensures !(IsSign(t) && IsNot(t))
  {
  }

  lemma {:induction false} PrefixIs(t: Token, x: Syn, n: Token)
    ensures (IsSign(t) && Operand(x, POWER, n)) || (IsNot(t) && Operand(x, BOR, n)) <==>
      IsUnary(t) && Ok(x, UnSlot(UnaryOf(t).value), n)
    decreases x, 8
  {
    PrefixTable(t);
    if IsUnary(t) {
      OperandIs(x, UnSlot(UnaryOf(t).value), n);
    }
  }

  lemma {:induction false} ElementsIs(es: Elems, close: Token)
    ensures Elements(es, close) <==> OkElems(es, close)
    decreases es
  {
    if es.Elem? {
      WholeIs(es.x, if es.more.NoElem? then close else TComma);
      ElementsIs(es.more, close);
    }
  }

  lemma {:induction false} ArgumentsIs(args: Args, close: Token)
    ensures Arguments(args, close) <==> OkArgs(args, close)
    decreases args
  {
    if args.Arg? {
      WholeIs(args.x, if args.comma then TComma else First(YieldArgs(args.more), close));
      ArgumentsIs(args.more, close);
    }
  }

  // s stands between toks and what o leaves, as the layers derive it.
  ghost predicate Derives(s: Syn, toks: seq<Token>, lim: int, o: Outcome<Expr>) {
    o.Done? && toks == Yield(s) + o.rest && Whole(s, Head(o.rest)) && Meaning(s) == o.tree && lim == o.lim + Errors(s)
  }

  /** The parser reads e exactly when the layered grammar derives e. */
  lemma LayersParsed(toks: seq<Token>, lim: Limit, e: Expr, rest: seq<Token>, l: Limit)
    ensures ParseExpr(toks, 0, lim) == Done(e, rest, l) <==> exists s :: Derives(s, toks, lim, Done(e, rest, l))
  {
    var o := Done(e, rest, l);
    ParsesExactly(toks, 0, lim, e, rest, l);
    if s :| Read(s, toks, lim, o) && Ok(s, 0, Head(rest)) {
      WholeIs(s, Head(rest));
      MeaningIs(s);
      assert Derives(s, toks, lim, o);
    }
    if s :| Derives(s, toks, lim, o) {
      WholeIs(s, Head(rest));
      MeaningIs(s);
      assert Read(s, toks, lim, o) && Ok(s, 0, Head(rest));
    }
  }

  // ---- How two operators group ----

  // An operand without a prefix operator in front, before n.
  predicate Simple(s: Syn, n: Token) {
    Real(s) && !s.SUn? && Atom(s, n) && Errors(s) == 0
  }

  // The operator t of layer k.
  predicate Joins(t: Token, k: nat) {
    1 <= k <= 10 && InLayer(t, k) && t != THashPipe
  }

  lemma SimpleStart(s: Syn, n: Token)
    requires Simple(s, n)
    ensures Head(Yield(s)) != TNot && Yield(s) != []
  {
  }

  lemma TwoJoined(t: Token, x: Syn, y: Syn, i: nat, k: nat, n: Token)
    requires Joins(t, i) && 1 <= k <= i && Simple(x, t) && Simple(y, n)
    ensures Phrase(SBin(t, x, y), k, n) && Real(SBin(t, x, y)) && Errors(SBin(t, x, y)) == 0
    ensures Head(Yield(SBin(t, x, y))) != TNot
  {
    var s := SBin(t, x, y);
    LevelIsLayer(t, i);
    LevelIsLayer(t, 10);
    SimpleStart(x, t);
    SimpleStart(y, n);
    PhraseAtom(x, if i == 10 then ATOM else i, t);
    PhraseAtom(y, if i == 10 then POWER else i + 1, n);
    PhraseJoined(s, n);
    PhraseDown(s, k, i, n);
  }

  // x t1 (y t2 z)
  lemma GroupsRight(t1: Token, t2: Token, x: Syn, y: Syn, z: Syn, i: nat, j: nat, n: Token)
    requires Joins(t1, i) && Joins(t2, j) && (i < j || i == j == 10) && Simple(x, t1) && Simple(y, t2) && Simple(z, n)
    ensures Phrase(SBin(t1, x, SBin(t2, y, z)), 1, n)
  {
    var s := SBin(t1, x, SBin(t2, y, z));
    TwoJoined(t2, y, z, j, if i == 10 then POWER else i + 1, n);
    LevelIsLayer(t1, i);
    LevelIsLayer(t1, 10);
    PhraseAtom(x, if i == 10 then ATOM else i, t1);
    PhraseJoined(s, n);
    PhraseDown(s, 1, i, n);
  }

  // (x t1 y) t2 z
  lemma GroupsLeft(t1: Token, t2: Token, x: Syn, y: Syn, z: Syn, i: nat, j: nat, n: Token)
    requires Joins(t1, i) && Joins(t2, j) && j <= i && j < 10 && Simple(x, t1) && Simple(y, t2) && Simple(z, n)
    ensures Phrase(SBin(t2, SBin(t1, x, y), z), 1, n)
  {
    var s := SBin(t2, SBin(t1, x, y), z);
    TwoJoined(t1, x, y, i, j, t2);
    LevelIsLayer(t2, j);
    LevelIsLayer(t2, 10);
    SimpleStart(z, n);
    PhraseAtom(z, j + 1, n);
    PhraseJoined(s, n);
    PhraseDown(s, 1, j, n);
  }

  // The tokens x t1 y t2 z.
  function FiveParts(x: Syn, t1: Token, y: Syn, t2: Token, z: Syn): seq<Token> {
    Yield(x) + ([t1] + (Yield(y) + ([t2] + Yield(z))))
  }

  function Grouped(x: Syn, t1: Token, y: Syn, t2: Token, z: Syn, right: bool): Syn {
    if right then SBin(t1, x, SBin(t2, y, z)) else SBin(t2, SBin(t1, x, y), z)
  }

  lemma GroupedTokens(x: Syn, t1: Token, y: Syn, t2: Token, z: Syn, right: bool)
    ensures Yield(Grouped(x, t1, y, t2, z, right)) == FiveParts(x, t1, y, t2, z)
  {
    if !right {
      Assoc([t1], Yield(y), [t2] + Yield(z));
      Assoc(Yield(x), [t1] + Yield(y), [t2] + Yield(z));
    }
  }

  /** Of `x t1 y t2 z` the tighter operator is joined first; of two from one layer the left one is, and of two powers
      the right one. */
  lemma Grouping(x: Syn, t1: Token, y: Syn, t2: Token, z: Syn, i: nat, j: nat, rest: seq<Token>, lim: Limit)
    requires Joins(t1, i) && Joins(t2, j) && Simple(x, t1) && Simple(y, t2) && Simple(z, Head(rest))
    requires !GoesOn(Head(rest), 1) && Head(rest) != TPipe
    ensures var s := Grouped(x, t1, y, t2, z, i < j || i == j == 10);
      ParseExpr(FiveParts(x, t1, y, t2, z) + rest, 0, lim) == Done(Meaning(s), rest, lim)
  {
    var right := i < j || i == j == 10;
    var s := Grouped(x, t1, y, t2, z, right);
    if right {
      GroupsRight(t1, t2, x, y, z, i, j, Head(rest));
    } else {
      GroupsLeft(t1, t2, x, y, z, i, j, Head(rest));
    }
    GroupedTokens(x, t1, y, t2, z, right);
    assert Errors(s) == 0 && Real(s);
    assert Whole(s, Head(rest));
    assert Derives(s, FiveParts(x, t1, y, t2, z) + rest, lim, Done(Meaning(s), rest, lim));
    LayersParsed(FiveParts(x, t1, y, t2, z) + rest, lim, Meaning(s), rest, lim);
  }
}
