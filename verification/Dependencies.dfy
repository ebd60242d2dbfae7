// What a rule may read. Reads(cfg, q) over-approximates the quantities that the rule of q looks up,
// and the lemmas say that this is all that matters: a rule gives the same result in two views that
// agree on what it may read, and gives a result when all it may read is known.
module Dependencies {
  import opened Basics
  import opened Model
  import opened Semantics

  datatype Quantity = SymVis(s: nat) | SymTri(s: nat) | SymStr(s: nat) | ChoiceVis(c: nat) | ChoiceSel(c: nat)

  function TriRefs(cfg: Config, o: Operand): set<Quantity> {
    if o.Sym? && cfg.Boolish(o.id) then {SymTri(o.id)} else {}
  }

  function StrRefs(cfg: Config, o: Operand): set<Quantity> {
    if o.Sym? && cfg.S(o.id).typ != Unknown then {SymStr(o.id)} else {}
  }

  function ChoiceTypeRefs(cfg: Config, c: nat): set<Quantity> {
    if cfg.C(c).typ == Tristate then TriRefs(cfg, cfg.modules) else {}
  }

  function ModeRefs(cfg: Config, c: nat): set<Quantity> { {ChoiceVis(c)} + ChoiceTypeRefs(cfg, c) }

  function ExprRefs(cfg: Config, e: Expr): set<Quantity> {
    match e
    case Leaf(o) => TriRefs(cfg, o)
    case InChoice(c) => ModeRefs(cfg, c)
    case And(l, r) => ExprRefs(cfg, l) + ExprRefs(cfg, r)
    case Or(l, r) => ExprRefs(cfg, l) + ExprRefs(cfg, r)
    case Not(x) => ExprRefs(cfg, x)
    case Compare(_, l, r) => TriRefs(cfg, l) + StrRefs(cfg, l) + TriRefs(cfg, r) + StrRefs(cfg, r)
  }

  function ExprsRefs(cfg: Config, es: seq<Expr>): set<Quantity> {
    if es == [] then {} else ExprsRefs(cfg, es[..|es| - 1]) + ExprRefs(cfg, es[|es| - 1])
  }

  lemma {:induction false} ExprsRefsAt(cfg: Config, es: seq<Expr>, i: nat)
    requires i < |es|
    ensures ExprRefs(cfg, es[i]) <= ExprsRefs(cfg, es)
  {
    if i < |es| - 1 {
      ExprsRefsAt(cfg, es[..|es| - 1], i);
    }
  }

  function DefaultValues(ds: seq<Default>): seq<Expr> { seq(|ds|, i requires 0 <= i < |ds| => ds[i].value) }

  function OperandRefs(cfg: Config, os: seq<Operand>): set<Quantity> {
    set i | 0 <= i < |os| && os[i].Sym? && cfg.S(os[i].id).typ != Unknown :: SymStr(os[i].id)
  }

  lemma {:induction false} OperandRefsAt(cfg: Config, os: seq<Operand>, i: nat)
    requires i < |os|
    ensures StrRefs(cfg, os[i]) <= OperandRefs(cfg, os)
  {
  }

  function DefaultOperands(ds: seq<Default>): seq<Operand> {
    seq(|ds|, i requires 0 <= i < |ds| => if ds[i].value.Leaf? then ds[i].value.o else Const(0))
  }

  function Lows(rs: seq<Range>): seq<Operand> { seq(|rs|, i requires 0 <= i < |rs| => rs[i].low) }

  function Highs(rs: seq<Range>): seq<Operand> { seq(|rs|, i requires 0 <= i < |rs| => rs[i].high) }

  function ModeOfChoiceRefs(cfg: Config, s: nat): set<Quantity> {
    if cfg.S(s).choice.Some? then ModeRefs(cfg, cfg.S(s).choice.value) else {}
  }

  function SymTypeRefs(cfg: Config, s: nat): set<Quantity> {
    if cfg.S(s).typ == Tristate then TriRefs(cfg, cfg.modules) + ModeOfChoiceRefs(cfg, s) else {}
  }

  function ChoiceConds(ds: seq<ChoiceDefault>): seq<Expr> { seq(|ds|, i requires 0 <= i < |ds| => ds[i].cond) }

  function Reads(cfg: Config, q: Quantity): set<Quantity> {
    match q
    case ChoiceVis(c) => ExprsRefs(cfg, cfg.C(c).prompts) + ChoiceTypeRefs(cfg, c)
    case ChoiceSel(c) =>
      ModeRefs(cfg, c) + ExprsRefs(cfg, ChoiceConds(cfg.C(c).defaults)) +
      (set i | 0 <= i < |cfg.C(c).defaults| :: SymVis(cfg.C(c).defaults[i].sym)) +
      (set i | 0 <= i < |cfg.C(c).members| :: SymVis(cfg.C(c).members[i]))
    case SymVis(s) => ExprsRefs(cfg, cfg.S(s).prompts) + ModeOfChoiceRefs(cfg, s) + SymTypeRefs(cfg, s)
    case SymTri(s) =>
      if !cfg.Boolish(s) then {}
      else if cfg.S(s).choice.Some? then {SymVis(s), ChoiceSel(cfg.S(s).choice.value)}
      else {SymVis(s)} + ExprsRefs(cfg, DefaultConds(cfg.S(s).defaults)) + ExprsRefs(cfg, DefaultValues(cfg.S(s).defaults)) +
           ExprRefs(cfg, cfg.S(s).revDep) + ExprRefs(cfg, cfg.S(s).weakRevDep) + ExprRefs(cfg, cfg.S(s).directDep) +
           SymTypeRefs(cfg, s)
    case SymStr(s) =>
      if cfg.Boolish(s) then {SymTri(s)}
      else if cfg.S(s).typ == Unknown then {}
      else {SymVis(s)} + ExprsRefs(cfg, DefaultConds(cfg.S(s).defaults)) + OperandRefs(cfg, DefaultOperands(cfg.S(s).defaults)) +
           (if cfg.S(s).typ == String then {} else
              ExprsRefs(cfg, RangeConds(cfg.S(s).ranges)) + OperandRefs(cfg, Lows(cfg.S(s).ranges)) + OperandRefs(cfg, Highs(cfg.S(s).ranges)))
  }

  // ---- agreement ----

  predicate Known(k: View, q: Quantity) {
    match q
    case SymVis(s) => k.env.S(s).vis.Some?
    case SymTri(s) => k.env.S(s).tri.Some?
    case SymStr(s) => k.env.S(s).str.Some?
    case ChoiceVis(c) => k.env.C(c).vis.Some?
    case ChoiceSel(c) => k.env.C(c).sel.Some?
  }

  // If k knows q, so does k', with the same value. The mode of a choice is computed from its
  // visibility and the user's mode, so the latter is part of ChoiceVis.
  predicate LeqAt(k: View, k': View, q: Quantity) {
    match q
    case SymVis(s) => Refines(k.env.S(s).vis, k'.env.S(s).vis)
    case SymTri(s) => Refines(k.env.S(s).tri, k'.env.S(s).tri)
    case SymStr(s) => Refines(k.env.S(s).str, k'.env.S(s).str)
    case ChoiceVis(c) => Refines(k.env.C(c).vis, k'.env.C(c).vis) && k.u.UserMode(c) == k'.u.UserMode(c)
    case ChoiceSel(c) => Refines(k.env.C(c).sel, k'.env.C(c).sel)
  }

  ghost predicate Leq(k: View, k': View, qs: set<Quantity>) {
    k.cfg == k'.cfg && forall q :: q in qs ==> LeqAt(k, k', q)
  }

  ghost predicate AllKnown(k: View, qs: set<Quantity>) { forall q :: q in qs ==> Known(k, q) }

  lemma {:induction false} EvalLeq(k: View, k': View, e: Expr)
    requires Leq(k, k', ExprRefs(k.cfg, e))
    ensures Refines(k.Eval(e), k'.Eval(e))
    ensures AllKnown(k, ExprRefs(k.cfg, e)) ==> k.Eval(e).Some?
  {
    match e
    case Leaf(o) => TriOfLeq(k, k', o);
    case InChoice(c) => ModeLeq(k, k', c);
    case And(l, r) => EvalLeq(k, k', l); EvalLeq(k, k', r);
    case Or(l, r) => EvalLeq(k, k', l); EvalLeq(k, k', r);
    case Not(x) => EvalLeq(k, k', x);
    case Compare(_, l, r) => CompareLeq(k, k', l, r);
  }

  lemma {:induction false} TriOfLeq(k: View, k': View, o: Operand)
    requires Leq(k, k', TriRefs(k.cfg, o))
    ensures Refines(k.TriOf(o), k'.TriOf(o))
    ensures AllKnown(k, TriRefs(k.cfg, o)) ==> k.TriOf(o).Some?
  {
    if o.Sym? && k.cfg.Boolish(o.id) {
      assert LeqAt(k, k', SymTri(o.id));
    }
  }

  lemma {:induction false} StrOfLeq(k: View, k': View, o: Operand)
    requires Leq(k, k', StrRefs(k.cfg, o))
    ensures Refines(k.StrOf(o), k'.StrOf(o))
    ensures AllKnown(k, StrRefs(k.cfg, o)) ==> k.StrOf(o).Some?
  {
    if o.Sym? && k.cfg.S(o.id).typ != Unknown {
      assert LeqAt(k, k', SymStr(o.id));
    }
  }

  lemma {:induction false} NumOfLeq(k: View, k': View, o: Operand)
    requires Leq(k, k', TriRefs(k.cfg, o) + StrRefs(k.cfg, o))
    ensures Refines(k.NumOf(o), k'.NumOf(o))
    ensures AllKnown(k, TriRefs(k.cfg, o) + StrRefs(k.cfg, o)) ==> k.NumOf(o).Some?
  {
    StrOfLeq(k, k', o);
    TriOfLeq(k, k', o);
  }

  lemma {:induction false} CompareLeq(k: View, k': View, l: Operand, r: Operand)
    requires Leq(k, k', TriRefs(k.cfg, l) + StrRefs(k.cfg, l) + TriRefs(k.cfg, r) + StrRefs(k.cfg, r))
    ensures Refines(k.Comparison(l, r), k'.Comparison(l, r))
    ensures AllKnown(k, TriRefs(k.cfg, l) + StrRefs(k.cfg, l) + TriRefs(k.cfg, r) + StrRefs(k.cfg, r)) ==> k.Comparison(l, r).Some?
  {
    StrOfLeq(k, k', l);
    StrOfLeq(k, k', r);
    NumOfLeq(k, k', l);
    NumOfLeq(k, k', r);
  }

  lemma {:induction false} ChoiceTypeLeq(k: View, k': View, c: nat)
    requires Leq(k, k', ChoiceTypeRefs(k.cfg, c))
    ensures Refines(k.ChoiceType(c), k'.ChoiceType(c))
    ensures AllKnown(k, ChoiceTypeRefs(k.cfg, c)) ==> k.ChoiceType(c).Some?
  {
    if k.cfg.C(c).typ == Tristate {
      TriOfLeq(k, k', k.cfg.modules);
    }
  }

  lemma {:induction false} ModeLeq(k: View, k': View, c: nat)
    requires Leq(k, k', ModeRefs(k.cfg, c))
    ensures Refines(k.Mode(c), k'.Mode(c))
    ensures AllKnown(k, ModeRefs(k.cfg, c)) ==> k.Mode(c).Some?
  {
    assert LeqAt(k, k', ChoiceVis(c));
    ChoiceTypeLeq(k, k', c);
  }

  lemma {:induction false} MaxEvalLeq(k: View, k': View, es: seq<Expr>, n: nat)
    requires n <= |es| && Leq(k, k', ExprsRefs(k.cfg, es))
    ensures Refines(k.MaxEval(es, n), k'.MaxEval(es, n))
    ensures AllKnown(k, ExprsRefs(k.cfg, es)) ==> k.MaxEval(es, n).Some?
  {
    if n > 0 {
      MaxEvalLeq(k, k', es, n - 1);
      ExprsRefsAt(k.cfg, es, n - 1);
      EvalLeq(k, k', es[n - 1]);
    }
  }

  lemma {:induction false} FirstActiveLeq(k: View, k': View, es: seq<Expr>, i: nat)
    requires i <= |es| && Leq(k, k', ExprsRefs(k.cfg, es))
    ensures Refines(k.FirstActive(es, i), k'.FirstActive(es, i))
    ensures AllKnown(k, ExprsRefs(k.cfg, es)) ==> k.FirstActive(es, i).Some?
    decreases |es| - i
  {
    if i < |es| {
      FirstActiveLeq(k, k', es, i + 1);
      ExprsRefsAt(k.cfg, es, i);
      EvalLeq(k, k', es[i]);
    }
  }

  lemma {:induction false} ChoiceVisibilityLeq(k: View, k': View, c: nat)
    requires Leq(k, k', Reads(k.cfg, ChoiceVis(c)))
    ensures Refines(k.ChoiceVisibility(c), k'.ChoiceVisibility(c))
    ensures AllKnown(k, Reads(k.cfg, ChoiceVis(c))) ==> k.ChoiceVisibility(c).Some?
  {
    MaxEvalLeq(k, k', k.cfg.C(c).prompts, |k.cfg.C(c).prompts|);
    ChoiceTypeLeq(k, k', c);
  }

  lemma {:induction false} ChoiceAssignableLeq(k: View, k': View, c: nat)
    requires Leq(k, k', ModeRefs(k.cfg, c))
    ensures Refines(k.ChoiceAssignable(c), k'.ChoiceAssignable(c))
    ensures AllKnown(k, ModeRefs(k.cfg, c)) ==> k.ChoiceAssignable(c).Some?
  {
    assert LeqAt(k, k', ChoiceVis(c));
    ChoiceTypeLeq(k, k', c);
  }

  lemma {:induction false} FirstVisibleLeq(k: View, k': View, c: nat, i: nat)
    requires i <= |k.cfg.C(c).members| && Leq(k, k', Reads(k.cfg, ChoiceSel(c)))
    ensures Refines(k.FirstVisible(k.cfg.C(c).members, i), k'.FirstVisible(k.cfg.C(c).members, i))
    ensures AllKnown(k, Reads(k.cfg, ChoiceSel(c))) ==> k.FirstVisible(k.cfg.C(c).members, i).Some?
    decreases |k.cfg.C(c).members| - i
  {
    if i < |k.cfg.C(c).members| {
      FirstVisibleLeq(k, k', c, i + 1);
      assert SymVis(k.cfg.C(c).members[i]) in Reads(k.cfg, ChoiceSel(c));
    }
  }

  lemma {:induction false} DefaultSelectionLeq(k: View, k': View, c: nat, i: nat)
    requires i <= |k.cfg.C(c).defaults| && Leq(k, k', Reads(k.cfg, ChoiceSel(c)))
    ensures Refines(k.DefaultSelection(c, i), k'.DefaultSelection(c, i))
    ensures AllKnown(k, Reads(k.cfg, ChoiceSel(c))) ==> k.DefaultSelection(c, i).Some?
    decreases |k.cfg.C(c).defaults| - i
  {
    if i == |k.cfg.C(c).defaults| {
      FirstVisibleLeq(k, k', c, 0);
    } else {
      DefaultSelectionLeq(k, k', c, i + 1);
      ExprsRefsAt(k.cfg, ChoiceConds(k.cfg.C(c).defaults), i);
      EvalLeq(k, k', k.cfg.C(c).defaults[i].cond);
      assert SymVis(k.cfg.C(c).defaults[i].sym) in Reads(k.cfg, ChoiceSel(c));
    }
  }

  // The user's selection has to be one of the choice's own symbols.
  predicate MemberSelection(k: View, c: nat) {
    k.u.UserSel(c).Some? ==> k.u.UserSel(c).value in k.cfg.C(c).members
  }

  lemma {:induction false} SelectionLeq(k: View, k': View, c: nat)
    requires Leq(k, k', Reads(k.cfg, ChoiceSel(c)))
    requires MemberSelection(k, c) && k.u.UserSel(c) == k'.u.UserSel(c)
    ensures Refines(k.Selection(c), k'.Selection(c))
    ensures AllKnown(k, Reads(k.cfg, ChoiceSel(c))) ==> k.Selection(c).Some?
  {
    ModeLeq(k, k', c);
    DefaultSelectionLeq(k, k', c, 0);
    if k.u.UserSel(c).Some? {
      assert SymVis(k.u.UserSel(c).value) in Reads(k.cfg, ChoiceSel(c));
    }
  }

  lemma {:induction false} SymTypeLeq(k: View, k': View, s: nat)
    requires Leq(k, k', SymTypeRefs(k.cfg, s))
    ensures Refines(k.SymType(s), k'.SymType(s))
    ensures AllKnown(k, SymTypeRefs(k.cfg, s)) ==> k.SymType(s).Some?
  {
    if k.cfg.S(s).typ == Tristate {
      TriOfLeq(k, k', k.cfg.modules);
      if k.cfg.S(s).choice.Some? {
        ModeLeq(k, k', k.cfg.S(s).choice.value);
      }
    }
  }

  lemma {:induction false} VisibilityLeq(k: View, k': View, s: nat)
    requires Leq(k, k', Reads(k.cfg, SymVis(s)))
    ensures Refines(k.Visibility(s), k'.Visibility(s))
    ensures AllKnown(k, Reads(k.cfg, SymVis(s))) ==> k.Visibility(s).Some?
  {
    var d := k.cfg.S(s);
    MaxEvalLeq(k, k', d.prompts, |d.prompts|);
    SymTypeLeq(k, k', s);
    if d.choice.Some? {
      ModeLeq(k, k', d.choice.value);
    }
  }

  lemma {:induction false} FromDefaultsLeq(k: View, k': View, s: nat, write: bool)
    requires Leq(k, k', ExprsRefs(k.cfg, DefaultConds(k.cfg.S(s).defaults)) + ExprsRefs(k.cfg, DefaultValues(k.cfg.S(s).defaults)))
    ensures Refines(k.FromDefaults(s, write), k'.FromDefaults(s, write))
    ensures AllKnown(k, ExprsRefs(k.cfg, DefaultConds(k.cfg.S(s).defaults)) + ExprsRefs(k.cfg, DefaultValues(k.cfg.S(s).defaults))) ==>
              k.FromDefaults(s, write).Some?
  {
    var d := k.cfg.S(s);
    FirstActiveLeq(k, k', DefaultConds(d.defaults), 0);
    var first := k.FirstActive(DefaultConds(d.defaults), 0);
    if first.Some? && first.value.Some? {
      ExprsRefsAt(k.cfg, DefaultValues(d.defaults), first.value.value.0);
      EvalLeq(k, k', d.defaults[first.value.value.0].value);
    }
  }

  lemma {:induction false} BeforeSelectLeq(k: View, k': View, s: nat, vis: Tri)
    requires Leq(k, k', Reads(k.cfg, SymTri(s))) && k.cfg.Boolish(s) && k.cfg.S(s).choice.None?
    requires k.u.UserTri(s) == k'.u.UserTri(s)
    ensures Refines(k.BeforeSelect(s, vis), k'.BeforeSelect(s, vis))
    ensures AllKnown(k, Reads(k.cfg, SymTri(s))) ==> k.BeforeSelect(s, vis).Some?
  {
    var d := k.cfg.S(s);
    FromDefaultsLeq(k, k', s, vis != 0);
    EvalLeq(k, k', d.weakRevDep);
    EvalLeq(k, k', d.directDep);
  }

  lemma {:induction false} TriValueLeq(k: View, k': View, s: nat)
    requires Leq(k, k', Reads(k.cfg, SymTri(s))) && k.cfg.Boolish(s)
    requires k.u.UserTri(s) == k'.u.UserTri(s)
    ensures Refines(k.TriValue(s), k'.TriValue(s))
    ensures AllKnown(k, Reads(k.cfg, SymTri(s))) ==> k.TriValue(s).Some?
  {
    var d := k.cfg.S(s);
    assert LeqAt(k, k', SymVis(s));
    if d.choice.Some? {
      assert LeqAt(k, k', ChoiceSel(d.choice.value));
    } else if k.env.S(s).vis.Some? {
      BeforeSelectLeq(k, k', s, k.env.S(s).vis.value);
      EvalLeq(k, k', d.revDep);
      EvalLeq(k, k', d.weakRevDep);
      SymTypeLeq(k, k', s);
    }
  }

  lemma {:induction false} OperandLeq(k: View, k': View, os: seq<Operand>, i: nat)
    requires i < |os| && Leq(k, k', OperandRefs(k.cfg, os))
    ensures Refines(k.StrOf(os[i]), k'.StrOf(os[i]))
    ensures AllKnown(k, OperandRefs(k.cfg, os)) ==> k.StrOf(os[i]).Some?
  {
    if os[i].Sym? && k.cfg.S(os[i].id).typ != Unknown {
      assert SymStr(os[i].id) in OperandRefs(k.cfg, os);
    }
  }

  lemma {:induction false} DefaultStrLeq(k: View, k': View, s: nat)
    requires Leq(k, k', Reads(k.cfg, SymStr(s)))
    requires !k.cfg.Boolish(s) && k.cfg.S(s).typ != Unknown
    ensures Refines(k.DefaultStr(s), k'.DefaultStr(s))
    ensures AllKnown(k, Reads(k.cfg, SymStr(s))) ==> k.DefaultStr(s).Some?
  {
    var ds := k.cfg.S(s).defaults;
    FirstActiveLeq(k, k', DefaultConds(ds), 0);
    var first := k.FirstActive(DefaultConds(ds), 0);
    if first.Some? && first.value.Some? {
      OperandLeq(k, k', DefaultOperands(ds), first.value.value.0);
    }
  }

  lemma {:induction false} ActiveRangeLeq(k: View, k': View, s: nat)
    requires Leq(k, k', Reads(k.cfg, SymStr(s)))
    requires !k.cfg.Boolish(s) && k.cfg.S(s).typ != Unknown && k.cfg.S(s).typ != String
    ensures Refines(k.ActiveRange(s), k'.ActiveRange(s))
    ensures AllKnown(k, Reads(k.cfg, SymStr(s))) ==> k.ActiveRange(s).Some?
  {
    var rs := k.cfg.S(s).ranges;
    FirstActiveLeq(k, k', RangeConds(rs), 0);
    var first := k.FirstActive(RangeConds(rs), 0);
    if first.Some? && first.value.Some? {
      OperandLeq(k, k', Lows(rs), first.value.value.0);
      OperandLeq(k, k', Highs(rs), first.value.value.0);
    }
  }

  lemma {:induction false} TypedStrValueLeq(k: View, k': View, s: nat)
    requires Leq(k, k', Reads(k.cfg, SymStr(s)))
    requires !k.cfg.Boolish(s) && k.cfg.S(s).typ != Unknown
    requires k.u.UserStr(s) == k'.u.UserStr(s)
    ensures Refines(k.TypedStrValue(s), k'.TypedStrValue(s))
    ensures AllKnown(k, Reads(k.cfg, SymStr(s))) ==> k.TypedStrValue(s).Some?
  {
    assert LeqAt(k, k', SymVis(s));
    DefaultStrLeq(k, k', s);
    if k.cfg.S(s).typ != String {
      ActiveRangeLeq(k, k', s);
    }
  }

  lemma {:induction false} StrValueLeq(k: View, k': View, s: nat)
    requires Leq(k, k', Reads(k.cfg, SymStr(s)))
    requires k.u.UserStr(s) == k'.u.UserStr(s)
    ensures Refines(k.StrValue(s), k'.StrValue(s))
    ensures AllKnown(k, Reads(k.cfg, SymStr(s))) ==> k.StrValue(s).Some?
  {
    if k.cfg.Boolish(s) {
      assert LeqAt(k, k', SymTri(s));
    } else if k.cfg.S(s).typ != Unknown {
      TypedStrValueLeq(k, k', s);
    }
  }

  lemma {:induction false} AssignableLeq(k: View, k': View, s: nat)
    requires Leq(k, k', {SymVis(s)} + ExprRefs(k.cfg, k.cfg.S(s).revDep) + ExprRefs(k.cfg, k.cfg.S(s).weakRevDep) + SymTypeRefs(k.cfg, s))
    ensures Refines(k.Assignable(s), k'.Assignable(s))
    ensures AllKnown(k, {SymVis(s)} + ExprRefs(k.cfg, k.cfg.S(s).revDep) + ExprRefs(k.cfg, k.cfg.S(s).weakRevDep) + SymTypeRefs(k.cfg, s)) ==> k.Assignable(s).Some?
  {
    assert LeqAt(k, k', SymVis(s));
    EvalLeq(k, k', k.cfg.S(s).revDep);
    EvalLeq(k, k', k.cfg.S(s).weakRevDep);
    SymTypeLeq(k, k', s);
  }
}
