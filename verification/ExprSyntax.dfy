// Printing expressions and parsing them back, over tokens.
module ExprSyntax {
  import opened Basics
  import opened Model
  import opened Semantics

  // A symbol, a relation, an operator, the end of the line, or anything else.
  datatype Token = Name(o: Operand) | RelOp(rel: Relation) | AndOp | OrOp | NotOp | Open | Close | End | Other

  // ---- printing ----

  predicate ChoiceFree(e: Expr) {
    match e
    case InChoice(_) => false
    case And(l, r) => ChoiceFree(l) && ChoiceFree(r)
    case Or(l, r) => ChoiceFree(l) && ChoiceFree(r)
    case Not(x) => ChoiceFree(x)
    case _ => true
  }

  // expr_str()
  function Print(e: Expr): seq<Token>
    decreases e, 0
  {
    match e
    case Leaf(o) => [Name(o)]
    case InChoice(_) => [Other]
    case And(l, r) => PrintOperand(l, l.Or?) + [AndOp] + PrintOperand(r, r.Or?)
    case Or(l, r) => PrintOperand(l, l.And?) + [OrOp] + PrintOperand(r, r.And?)
    case Not(x) => [NotOp] + PrintOperand(x, !x.Leaf? && !x.InChoice?)
    case Compare(rel, l, r) => [Name(l), RelOp(rel), Name(r)]
  }

  // _parenthesize()
  function PrintOperand(e: Expr, parens: bool): seq<Token>
    decreases e, 1
  {
    if parens then [Open] + Print(e) + [Close] else Print(e)
  }

  // ---- parsing, as functions from tokens to an expression and what follows it ----

  // How m is treated: rewritten to 'm && MODULES' in conditions.
  datatype Mode = Plain | Conditional(modules: Operand)

  function Symbolic(mode: Mode, o: Operand): Expr {
    if mode.Conditional? && o == Const(1) then And(Leaf(o), Leaf(mode.modules)) else Leaf(o)
  }

  function Head(ts: seq<Token>): Token { if ts == [] then End else ts[0] }

  type Parsed = Option<(Expr, seq<Token>)>

  // _parse_expr()
  function ParseOr(mode: Mode, ts: seq<Token>): (p: Parsed)
    ensures p.Some? ==> |p.value.1| < |ts|
    decreases |ts|, 2
  {
    var (l, rest) :- ParseAnd(mode, ts);
    if Head(rest) != OrOp then Some((l, rest))
    else
      var (r, rest') :- ParseOr(mode, rest[1..]);
      Some((Or(l, r), rest'))
  }

  // _parse_and_expr()
  function ParseAnd(mode: Mode, ts: seq<Token>): (p: Parsed)
    ensures p.Some? ==> |p.value.1| < |ts|
    decreases |ts|, 1
  {
    var (l, rest) :- ParseFactor(mode, ts);
    if Head(rest) != AndOp then Some((l, rest))
    else
      var (r, rest') :- ParseAnd(mode, rest[1..]);
      Some((And(l, r), rest'))
  }

  // _parse_factor()
  function ParseFactor(mode: Mode, ts: seq<Token>): (p: Parsed)
    ensures p.Some? ==> |p.value.1| < |ts|
    decreases |ts|, 0
  {
    match Head(ts)
    case Name(o) =>
      if !Head(ts[1..]).RelOp? then Some((Symbolic(mode, o), ts[1..]))
      else if Head(ts[2..]).Name? then Some((Compare(ts[1].rel, o, ts[2].o), ts[3..]))
      else None
    case NotOp =>
      var (x, rest) :- ParseFactor(mode, ts[1..]);
      Some((Not(x), rest))
    case Open =>
      var (e, rest) :- ParseOr(mode, ts[1..]);
      if Head(rest) == Close then Some((e, rest[1..])) else None
    case _ => None
  }

  // ---- parsing, as it runs ----

  // The tokens of a line always end with End.
  class Parser {
    const tokens: seq<Token>
    const mode: Mode
    var tokensI: nat

    ghost predicate Valid()
      reads this
    {
      tokensI < |tokens| && tokens[|tokens| - 1] == End && forall i :: 0 <= i < |tokens| - 1 ==> tokens[i] != End
    }

    constructor (tokens: seq<Token>, mode: Mode)
      requires End !in tokens
      ensures Valid() && this.tokens == tokens + [End] && this.mode == mode && tokensI == 0
    {
      this.tokens, this.mode, tokensI := tokens + [End], mode, 0;
    }

    ghost function Rest(): seq<Token>
      requires Valid()
      reads this
    {
      tokens[tokensI..]
    }

    // What a parsing method leaves behind, given what its function gives.
    ghost predicate Consumed(p: Parsed, e: Option<Expr>)
      reads this
    {
      if p.None? then e.None? else e == Some(p.value.0) && Valid() && p.value.1 == Rest()
    }

    // _check_token()
    method CheckToken(t: Token) returns (found: bool)
      requires Valid() && t != End
      modifies this
      ensures Valid() && found == (Head(old(Rest())) == t)
      ensures Rest() == if found then old(Rest())[1..] else old(Rest())
    {
      found := tokens[tokensI] == t;
      if found {
        tokensI := tokensI + 1;
      }
    }

    // _parse_expr(); None when it raises
    method ParseExpr() returns (e: Option<Expr>)
      requires Valid()
      modifies this
      ensures Consumed(ParseOr(mode, old(Rest())), e)
      decreases |tokens| - tokensI, 2
    {
      var l := ParseAndExpr();
      if l.None? {
        return None;
      }
      var more := CheckToken(OrOp);
      if !more {
        return l;
      }
      var r := ParseExpr();
      e := if r.None? then None else Some(Or(l.value, r.value));
    }

    // _parse_and_expr()
    method ParseAndExpr() returns (e: Option<Expr>)
      requires Valid()
      modifies this
      ensures Consumed(ParseAnd(mode, old(Rest())), e)
      decreases |tokens| - tokensI, 1
    {
      var l := ParseOneFactor();
      if l.None? {
        return None;
      }
      var more := CheckToken(AndOp);
      if !more {
        return l;
      }
      var r := ParseAndExpr();
      e := if r.None? then None else Some(And(l.value, r.value));
    }

    // _parse_factor()
    method ParseOneFactor() returns (e: Option<Expr>)
      requires Valid()
      modifies this
      ensures Consumed(ParseFactor(mode, old(Rest())), e)
      decreases |tokens| - tokensI, 0
    {
      var token := tokens[tokensI];
      if token == End {
        return None;
      }
      tokensI := tokensI + 1;
      assert old(Rest()) == [token] + Rest() && old(Rest())[1..] == Rest();
      match token
      case Name(o) => e := ParseSymbol(o);
      case NotOp =>
        var x := ParseOneFactor();
        e := if x.None? then None else Some(Not(x.value));
      case Open =>
        e := ParseExpr();
        if e.Some? {
          var closed := CheckToken(Close);
          if !closed {
            e := None;
          }
        }
      case _ => e := None;
    }

    // A plain symbol or a relation; the symbol has been consumed.
    method ParseSymbol(o: Operand) returns (e: Option<Expr>)
      requires Valid()
      modifies this
      ensures Consumed(ParseFactor(mode, [Name(o)] + old(Rest())), e)
    {
      ghost var ts := [Name(o)] + Rest();
      assert ts[1..] == Rest();
      if !tokens[tokensI].RelOp? {
        return Some(Symbolic(mode, o));
      }
      assert ts[2..] == tokens[tokensI + 1..];
      tokensI := tokensI + 2;
      if !tokens[tokensI - 1].Name? {
        return None;
      }
      assert ts[3..] == tokens[tokensI..];
      e := Some(Compare(tokens[tokensI - 2].rel, o, tokens[tokensI - 1].o));
    }
  }

  // ---- what printing and parsing again gives ----

  // l && r, with the operands of l moved to the right: a && (b && (... && r)).
  function Conj(l: Expr, r: Expr): Expr { if l.And? then And(l.l, Conj(l.r, r)) else And(l, r) }

  function Disj(l: Expr, r: Expr): Expr { if l.Or? then Or(l.l, Disj(l.r, r)) else Or(l, r) }

  // The expression with every && and || associated to the right.
  function RightAssociated(e: Expr): Expr {
    match e
    case And(l, r) => Conj(RightAssociated(l), RightAssociated(r))
    case Or(l, r) => Disj(RightAssociated(l), RightAssociated(r))
    case Not(x) => Not(RightAssociated(x))
    case _ => e
  }

  lemma ConjAssociates(a: Expr, b: Expr, c: Expr)
    ensures Conj(Conj(a, b), c) == Conj(a, Conj(b, c))
  {
  }

  lemma DisjAssociates(a: Expr, b: Expr, c: Expr)
    ensures Disj(Disj(a, b), c) == Disj(a, Disj(b, c))
  {
  }

  // A printed factor is parsed back as one factor.
  lemma {:induction false} FactorReadBack(e: Expr, parens: bool, rest: seq<Token>)
    requires ChoiceFree(e) && !Head(rest).RelOp? && (e.And? || e.Or? ==> parens)
    ensures ParseFactor(Plain, PrintOperand(e, parens) + rest) == Some((RightAssociated(e), rest))
    decreases e, if parens then 3 else 0
  {
    if parens {
      ExprReadBack(e, [Close] + rest);
      assert PrintOperand(e, parens) + rest == [Open] + (Print(e) + ([Close] + rest));
      ParensReadBack(Print(e) + ([Close] + rest), RightAssociated(e), rest);
    } else {
      match e
      case Leaf(o) => NameReadBack(o, rest);
      case Not(x) =>
        FactorReadBack(x, !x.Leaf?, rest);
        NotReadBack(x, rest);
      case Compare(rel, l, r) => RelationReadBack(rel, l, r, rest);
    }
  }

  lemma {:induction false} ParensReadBack(inner: seq<Token>, e: Expr, rest: seq<Token>)
    requires ParseOr(Plain, inner) == Some((e, [Close] + rest))
    ensures ParseFactor(Plain, [Open] + inner) == Some((e, rest))
  {
    assert ([Open] + inner)[1..] == inner && ([Close] + rest)[1..] == rest;
  }

  lemma {:induction false} NameReadBack(o: Operand, rest: seq<Token>)
    requires !Head(rest).RelOp?
    ensures ParseFactor(Plain, PrintOperand(Leaf(o), false) + rest) == Some((Leaf(o), rest))
  {
    assert PrintOperand(Leaf(o), false) + rest == [Name(o)] + rest;
    assert ([Name(o)] + rest)[1..] == rest;
  }

  lemma {:induction false} RelationReadBack(rel: Relation, l: Operand, r: Operand, rest: seq<Token>)
    ensures ParseFactor(Plain, PrintOperand(Compare(rel, l, r), false) + rest) == Some((Compare(rel, l, r), rest))
  {
    var ts := [Name(l), RelOp(rel), Name(r)] + rest;
    assert PrintOperand(Compare(rel, l, r), false) + rest == ts;
    assert ts[2..] == [Name(r)] + rest && ts[3..] == rest;
  }

  lemma {:induction false} NotReadBack(x: Expr, rest: seq<Token>)
    requires ChoiceFree(x) && ParseFactor(Plain, PrintOperand(x, !x.Leaf?) + rest) == Some((RightAssociated(x), rest))
    ensures ParseFactor(Plain, PrintOperand(Not(x), false) + rest) == Some((Not(RightAssociated(x)), rest))
  {
    var inner := PrintOperand(x, !x.Leaf?) + rest;
    assert PrintOperand(Not(x), false) + rest == [NotOp] + inner;
    assert ([NotOp] + inner)[1..] == inner;
  }

  // A printed expression is parsed back up to where it ends.
  lemma {:induction false} ExprReadBack(e: Expr, rest: seq<Token>)
    requires ChoiceFree(e) && !Head(rest).RelOp? && Head(rest) != AndOp && Head(rest) != OrOp
    ensures ParseOr(Plain, Print(e) + rest) == Some((RightAssociated(e), rest))
    decreases e, 2
  {
    if e.Or? {
      OrReadBack(e, rest);
    } else if e.And? {
      AndReadBack(e, rest);
    } else {
      FactorReadBack(e, false, rest);
    }
  }

  lemma {:induction false} AndPrinted(e: Expr, rest: seq<Token>)
    requires e.And?
    ensures PrintOperand(e, e.Or?) + rest == PrintOperand(e.l, e.l.Or?) + [AndOp] + (PrintOperand(e.r, e.r.Or?) + rest)
  {
    Regroup(PrintOperand(e.l, e.l.Or?) + [AndOp], PrintOperand(e.r, e.r.Or?), rest);
  }

  lemma {:induction false} OrPrinted(e: Expr, rest: seq<Token>)
    requires e.Or?
    ensures PrintOperand(e, e.And?) + rest == PrintOperand(e.l, e.l.And?) + [OrOp] + (PrintOperand(e.r, e.r.And?) + rest)
  {
    Regroup(PrintOperand(e.l, e.l.And?) + [OrOp], PrintOperand(e.r, e.r.And?), rest);
  }

  lemma {:induction false} AndReadBack(e: Expr, rest: seq<Token>)
    requires ChoiceFree(e) && !Head(rest).RelOp? && Head(rest) != AndOp
    ensures ParseAnd(Plain, PrintOperand(e, e.Or?) + rest) == Some((RightAssociated(e), rest))
    decreases e, if e.And? then 1 else 5
  {
    if e.And? {
      AndReadBack(e.r, rest);
      AndContinues(e.l, PrintOperand(e.r, e.r.Or?) + rest);
      AndPrinted(e, rest);
    } else {
      FactorReadBack(e, e.Or?, rest);
    }
  }

  // ... and when another operand follows.
  lemma {:induction false} AndContinues(e: Expr, more: seq<Token>)
    requires ChoiceFree(e) && ParseAnd(Plain, more).Some?
    ensures
      var (r, rest) := ParseAnd(Plain, more).value;
      ParseAnd(Plain, PrintOperand(e, e.Or?) + [AndOp] + more) == Some((Conj(RightAssociated(e), r), rest))
    decreases e, if e.And? then 1 else 5
  {
    if e.And? {
      AndContinues(e.r, more);
      AndContinues(e.l, PrintOperand(e.r, e.r.Or?) + [AndOp] + more);
      AndPrinted(e, [AndOp] + more);
      Regroup(PrintOperand(e.r, e.r.Or?), [AndOp], more);
      Regroup(PrintOperand(e, e.Or?), [AndOp], more);
      ConjAssociates(RightAssociated(e.l), RightAssociated(e.r), ParseAnd(Plain, more).value.0);
    } else {
      FactorThenAnd(e, more);
    }
  }

  lemma {:induction false} FactorThenAnd(e: Expr, more: seq<Token>)
    requires ChoiceFree(e) && !e.And? && ParseAnd(Plain, more).Some?
    ensures
      var (r, rest) := ParseAnd(Plain, more).value;
      ParseAnd(Plain, PrintOperand(e, e.Or?) + [AndOp] + more) == Some((Conj(RightAssociated(e), r), rest))
    decreases e, 4
  {
    FactorReadBack(e, e.Or?, [AndOp] + more);
    assert PrintOperand(e, e.Or?) + [AndOp] + more == PrintOperand(e, e.Or?) + ([AndOp] + more);
    assert ([AndOp] + more)[1..] == more;
    NotConj(e);
  }

  lemma {:induction false} NotConj(e: Expr)
    requires !e.And?
    ensures !RightAssociated(e).And?
  {
  }

  lemma {:induction false} OrReadBack(e: Expr, rest: seq<Token>)
    requires ChoiceFree(e) && !Head(rest).RelOp? && Head(rest) != AndOp && Head(rest) != OrOp
    ensures ParseOr(Plain, PrintOperand(e, e.And?) + rest) == Some((RightAssociated(e), rest))
    decreases e, if e.Or? then 1 else 5
  {
    if e.Or? {
      OrReadBack(e.r, rest);
      OrContinues(e.l, PrintOperand(e.r, e.r.And?) + rest);
      OrPrinted(e, rest);
    } else {
      FactorReadBack(e, e.And?, rest);
    }
  }

  lemma {:induction false} OrContinues(e: Expr, more: seq<Token>)
    requires ChoiceFree(e) && ParseOr(Plain, more).Some?
    ensures
      var (r, rest) := ParseOr(Plain, more).value;
      ParseOr(Plain, PrintOperand(e, e.And?) + [OrOp] + more) == Some((Disj(RightAssociated(e), r), rest))
    decreases e, if e.Or? then 1 else 5
  {
    if e.Or? {
      OrContinues(e.r, more);
      OrContinues(e.l, PrintOperand(e.r, e.r.And?) + [OrOp] + more);
      OrPrinted(e, [OrOp] + more);
      Regroup(PrintOperand(e.r, e.r.And?), [OrOp], more);
      Regroup(PrintOperand(e, e.And?), [OrOp], more);
      DisjAssociates(RightAssociated(e.l), RightAssociated(e.r), ParseOr(Plain, more).value.0);
    } else {
      OperandThenOr(e, more);
    }
  }

  lemma {:induction false} OperandThenOr(e: Expr, more: seq<Token>)
    requires ChoiceFree(e) && !e.Or? && ParseOr(Plain, more).Some?
    ensures
      var (r, rest) := ParseOr(Plain, more).value;
      ParseOr(Plain, PrintOperand(e, e.And?) + [OrOp] + more) == Some((Disj(RightAssociated(e), r), rest))
    decreases e, 4
  {
    FactorReadBack(e, e.And?, [OrOp] + more);
    assert PrintOperand(e, e.And?) + [OrOp] + more == PrintOperand(e, e.And?) + ([OrOp] + more);
    assert ([OrOp] + more)[1..] == more;
    NotDisj(e);
  }

  lemma {:induction false} NotDisj(e: Expr)
    requires !e.Or?
    ensures !RightAssociated(e).Or?
  {
  }

  // ---- meaning and structure ----

  lemma {:induction false} ConjMeans(k: View, l: Expr, r: Expr)
    ensures k.Eval(Conj(l, r)) == k.Eval(And(l, r))
  {
    if l.And? {
      ConjMeans(k, l.r, r);
    }
  }

  lemma {:induction false} DisjMeans(k: View, l: Expr, r: Expr)
    ensures k.Eval(Disj(l, r)) == k.Eval(Or(l, r))
  {
    if l.Or? {
      DisjMeans(k, l.r, r);
    }
  }

  lemma {:induction false} RightAssociatedMeans(k: View, e: Expr)
    ensures k.Eval(RightAssociated(e)) == k.Eval(e)
  {
    match e
    case And(l, r) =>
      RightAssociatedMeans(k, l);
      RightAssociatedMeans(k, r);
      ConjMeans(k, RightAssociated(l), RightAssociated(r));
    case Or(l, r) =>
      RightAssociatedMeans(k, l);
      RightAssociatedMeans(k, r);
      DisjMeans(k, RightAssociated(l), RightAssociated(r));
    case Not(x) => RightAssociatedMeans(k, x);
    case _ =>
  }

  // split_expr(e, AND) and split_expr(e, OR)
  function SplitAnd(e: Expr): seq<Expr> { if e.And? then SplitAnd(e.l) + SplitAnd(e.r) else [e] }

  function SplitOr(e: Expr): seq<Expr> { if e.Or? then SplitOr(e.l) + SplitOr(e.r) else [e] }

  function AllRightAssociated(es: seq<Expr>): (r: seq<Expr>)
    ensures |r| == |es|
  {
    seq(|es|, i requires 0 <= i < |es| => RightAssociated(es[i]))
  }

  lemma {:induction false} ConjSplits(l: Expr, r: Expr)
    ensures SplitAnd(Conj(l, r)) == SplitAnd(l) + SplitAnd(r)
  {
    if l.And? {
      ConjSplits(l.r, r);
      Regroup(SplitAnd(l.l), SplitAnd(l.r), SplitAnd(r));
    }
  }

  lemma {:induction false} DisjSplits(l: Expr, r: Expr)
    ensures SplitOr(Disj(l, r)) == SplitOr(l) + SplitOr(r)
  {
    if l.Or? {
      DisjSplits(l.r, r);
      Regroup(SplitOr(l.l), SplitOr(l.r), SplitOr(r));
    }
  }

  lemma {:induction false} SplitAndKept(e: Expr)
    ensures SplitAnd(RightAssociated(e)) == AllRightAssociated(SplitAnd(e))
  {
    if e.And? {
      SplitAndKept(e.l);
      SplitAndKept(e.r);
      ConjSplits(RightAssociated(e.l), RightAssociated(e.r));
    } else {
      NotConj(e);
    }
  }

  lemma {:induction false} SplitOrKept(e: Expr)
    ensures SplitOr(RightAssociated(e)) == AllRightAssociated(SplitOr(e))
  {
    if e.Or? {
      SplitOrKept(e.l);
      SplitOrKept(e.r);
      DisjSplits(RightAssociated(e.l), RightAssociated(e.r));
    } else {
      NotDisj(e);
    }
  }

  // Parsing the tokens of a printed choice-free expression succeeds and uses up all of them; the
  // result has the same lists of operands, and the same value in every state.
  lemma {:induction false} PrintedIsReadBack(e: Expr)
    requires ChoiceFree(e)
    ensures
      ParseOr(Plain, Print(e) + [End]).Some? &&
      var (e', rest) := ParseOr(Plain, Print(e) + [End]).value;
      && rest == [End]
      && SplitAnd(e') == AllRightAssociated(SplitAnd(e)) && SplitOr(e') == AllRightAssociated(SplitOr(e))
      && forall k: View :: k.Eval(e') == k.Eval(e)
  {
    ExprReadBack(e, [End]);
    SplitAndKept(e);
    SplitOrKept(e);
    forall k: View ensures k.Eval(RightAssociated(e)) == k.Eval(e) {
      RightAssociatedMeans(k, e);
    }
  }

  // Expressions that print alike mean the same.
  lemma {:induction false} PrintedAlike(e: Expr, f: Expr, k: View)
    requires ChoiceFree(e) && ChoiceFree(f) && Print(e) == Print(f)
    ensures k.Eval(e) == k.Eval(f)
  {
    PrintedIsReadBack(e);
    PrintedIsReadBack(f);
  }

  // ---- m in conditions ----

  // Every m that stands alone becomes 'm && MODULES'.
  function Conditioned(e: Expr, modules: Operand): Expr {
    match e
    case Leaf(o) => Symbolic(Conditional(modules), o)
    case And(l, r) => And(Conditioned(l, modules), Conditioned(r, modules))
    case Or(l, r) => Or(Conditioned(l, modules), Conditioned(r, modules))
    case Not(x) => Not(Conditioned(x, modules))
    case _ => e
  }

  function Condition(p: Parsed, modules: Operand): Parsed {
    if p.None? then None else Some((Conditioned(p.value.0, modules), p.value.1))
  }

  // Parsing a condition is parsing and then rewriting m.
  lemma {:induction false} ConditionsAreRewritten(ts: seq<Token>, modules: Operand)
    ensures ParseOr(Conditional(modules), ts) == Condition(ParseOr(Plain, ts), modules)
    decreases |ts|, 2
  {
    AndConditionsAreRewritten(ts, modules);
    var p := ParseAnd(Plain, ts);
    if p.Some? && Head(p.value.1) == OrOp {
      ConditionsAreRewritten(p.value.1[1..], modules);
    }
  }

  lemma {:induction false} AndConditionsAreRewritten(ts: seq<Token>, modules: Operand)
    ensures ParseAnd(Conditional(modules), ts) == Condition(ParseAnd(Plain, ts), modules)
    decreases |ts|, 1
  {
    FactorsAreRewritten(ts, modules);
    var p := ParseFactor(Plain, ts);
    if p.Some? && Head(p.value.1) == AndOp {
      AndConditionsAreRewritten(p.value.1[1..], modules);
    }
  }

  lemma {:induction false} FactorsAreRewritten(ts: seq<Token>, modules: Operand)
    ensures ParseFactor(Conditional(modules), ts) == Condition(ParseFactor(Plain, ts), modules)
    decreases |ts|, 0
  {
    match Head(ts)
    case NotOp => FactorsAreRewritten(ts[1..], modules);
    case Open => ConditionsAreRewritten(ts[1..], modules);
    case _ =>
  }

  // ---- short-circuit evaluation ----

  // The documented meaning: minimum, maximum, 2 - x.
  function Documented(k: View, e: Expr): Option<Tri> {
    match e
    case And(l, r) =>
      var a :- Documented(k, l);
      var b :- Documented(k, r);
      Some(Min(a, b))
    case Or(l, r) =>
      var a :- Documented(k, l);
      var b :- Documented(k, r);
      Some(Max(a, b))
    case Not(x) =>
      var a :- Documented(k, x);
      Some(2 - a)
    case _ => k.Eval(e)
  }

  lemma {:induction false} ShortCircuitIsHarmless(k: View, e: Expr)
    requires Documented(k, e).Some?
    ensures k.Eval(e) == Documented(k, e)
  {
    match e
    case And(l, r) =>
      ShortCircuitIsHarmless(k, l);
      ShortCircuitIsHarmless(k, r);
    case Or(l, r) =>
      ShortCircuitIsHarmless(k, l);
      ShortCircuitIsHarmless(k, r);
    case Not(x) => ShortCircuitIsHarmless(k, x);
    case _ =>
  }
}
