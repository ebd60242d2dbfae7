// Symbol.assignable against its meaning: the values that the symbol can actually be given.
module AssignableLaws {
  import opened Basics
  import opened Model
  import opened Semantics
  import opened Dependencies
  import opened Evaluation
  import opened CacheState
  import opened UserValues
  import opened Invalidation
  import opened ChoiceLaws
  import opened Locality

  // The value of s after a valid set_value(t).
  ghost function Outcome(cfg: Config, u: Users, s: nat, t: Tri): Option<Tri>
    requires Evaluable(cfg)
  {
    Values(cfg, SetUser(cfg, u, s, UTri(t))).S(s).tri
  }

  // Some valid assignment gives s the value v.
  ghost predicate CanBecome(cfg: Config, u: Users, s: nat, v: Tri)
    requires Evaluable(cfg)
  {
    exists t: Tri :: TypeTakes(cfg.S(s).typ, t) && Outcome(cfg, u, s, t) == Some(v)
  }

  // A user value t under visibility vis, select value rev and imply value weak.
  function Settled(vis: Tri, rev: Tri, weak: Tri, isBool: bool, t: Tri): Tri {
    var v := Max(rev, Min(t, vis));
    if v == 1 && (isBool || weak == 2) then 2 else v
  }

  // The value that the rules give a visible symbol with a user value.
  lemma {:induction false} ValueSettles(k: View, s: nat, t: Tri)
    requires k.cfg.Boolish(s) && k.cfg.S(s).choice.None? && k.u.UserTri(s) == Some(t)
    requires k.env.S(s).vis.Some? && k.env.S(s).vis != Some(0)
    requires k.Eval(k.cfg.S(s).revDep).Some? && k.Eval(k.cfg.S(s).weakRevDep).Some? && k.SymType(s).Some?
    ensures TriRule(k, s) == Some(Settled(k.env.S(s).vis.value, k.Eval(k.cfg.S(s).revDep).value,
                                          k.Eval(k.cfg.S(s).weakRevDep).value, k.SymType(s) == Some(Bool), t))
  {
  }

  // Assigning to s changes nothing that its value is made of.
  lemma {:induction false} InputsStay(cfg: Config, u: Users, s: nat, t: Tri)
    requires WellFormed(cfg) && Evaluable(cfg) && UsersOk(cfg, u) && s < |cfg.syms| == |u.val|
    requires cfg.Boolish(s) && cfg.S(s).choice.None? && TypeTakes(cfg.S(s).typ, t)
    ensures
      var k, k' := Evaluated(cfg, u), Evaluated(cfg, SetUser(cfg, u, s, UTri(t)));
      && Solution(k') && k'.env.S(s).vis == k.env.S(s).vis && k'.Eval(cfg.S(s).revDep) == k.Eval(cfg.S(s).revDep)
      && k'.Eval(cfg.S(s).weakRevDep) == k.Eval(cfg.S(s).weakRevDep) && k'.SymType(s) == k.SymType(s)
      && k.env.S(s).vis.Some? && k.Eval(cfg.S(s).revDep).Some? && k.Eval(cfg.S(s).weakRevDep).Some? && k.SymType(s).Some?
  {
    var u' := SetUser(cfg, u, s, UTri(t));
    var k, k' := Evaluated(cfg, u), Evaluated(cfg, u');
    SetUserOk(cfg, u, s, Number(t));
    UsersSelectMembers(cfg, u');
    ValuesAreTheSolution(cfg, u');
    forall q | q in Reads(cfg, SymTri(s)) ensures LeqAt(k, k', q) && Known(k, q) {
      OwnInputsUnchanged(cfg, u, s, UTri(t), q);
    }
    assert SymVis(s) in Reads(cfg, SymTri(s));
    EvalLeq(k, k', cfg.S(s).revDep);
    EvalLeq(k, k', cfg.S(s).weakRevDep);
    SymTypeLeq(k, k', s);
  }

  lemma {:induction false} OutcomeSettles(cfg: Config, u: Users, s: nat, t: Tri)
    requires WellFormed(cfg) && Evaluable(cfg) && UsersOk(cfg, u) && s < |cfg.syms| == |u.val|
    requires cfg.Boolish(s) && cfg.S(s).choice.None? && TypeTakes(cfg.S(s).typ, t)
    requires Evaluated(cfg, u).env.S(s).vis.Some? && Evaluated(cfg, u).env.S(s).vis != Some(0)
    ensures
      var k := Evaluated(cfg, u);
      && k.Eval(cfg.S(s).revDep).Some? && k.Eval(cfg.S(s).weakRevDep).Some? && k.SymType(s).Some?
      && Outcome(cfg, u, s, t) == Some(Settled(k.env.S(s).vis.value, k.Eval(cfg.S(s).revDep).value,
                                               k.Eval(cfg.S(s).weakRevDep).value, k.SymType(s) == Some(Bool), t))
  {
    var k' := Evaluated(cfg, SetUser(cfg, u, s, UTri(t)));
    InputsStay(cfg, u, s, t);
    SymKnown(k', s);
    ValueSettles(k', s, t);
  }

  // m visibility is possible only while the symbol is really a tristate.
  lemma {:induction false} MVisibleIsTristate(k: View, s: nat)
    requires Solution(k) && s < |k.cfg.syms| && k.env.S(s).vis == Some(1)
    ensures k.SymType(s) == Some(Tristate)
  {
    SymKnown(k, s);
  }

  // The one combination for which assignable is wrong: m visibility, an m select and a y imply.
  ghost predicate ImplyOverridesSelect(k: View, s: nat) {
    k.env.S(s).vis == Some(1) && k.Eval(k.cfg.S(s).revDep) == Some(1) && k.Eval(k.cfg.S(s).weakRevDep) == Some(2)
  }

  lemma {:induction false} AssignableFormula(k: View, s: nat)
    requires Solution(k) && s < |k.cfg.syms| && k.cfg.Boolish(s) && k.cfg.S(s).choice.None? && k.env.S(s).vis != Some(0)
    requires k.Eval(k.cfg.S(s).revDep).Some? && k.Eval(k.cfg.S(s).weakRevDep).Some? && k.SymType(s).Some?
    ensures k.Assignable(s).Some?
    ensures forall v: Tri :: !ImplyOverridesSelect(k, s) ==>
              (v in k.Assignable(s).value <==>
                 exists t: Tri :: TypeTakes(k.cfg.S(s).typ, t) &&
                   v == Settled(k.env.S(s).vis.value, k.Eval(k.cfg.S(s).revDep).value, k.Eval(k.cfg.S(s).weakRevDep).value, k.SymType(s) == Some(Bool), t))
  {
    SymKnown(k, s);
    if k.env.S(s).vis == Some(1) {
      MVisibleIsTristate(k, s);
    }
    var vis, rev, weak, isBool := k.env.S(s).vis.value, k.Eval(k.cfg.S(s).revDep).value, k.Eval(k.cfg.S(s).weakRevDep).value, k.SymType(s) == Some(Bool);
    var typ := k.cfg.S(s).typ;
    assert TypeTakes(typ, 0) && TypeTakes(typ, 2) && (TypeTakes(typ, 1) <==> typ == Tristate);
    forall v: Tri | !ImplyOverridesSelect(k, s)
      ensures v in k.Assignable(s).value <==> exists t: Tri :: TypeTakes(typ, t) && v == Settled(vis, rev, weak, isBool, t)
    {
      assert (exists t: Tri :: TypeTakes(typ, t) && v == Settled(vis, rev, weak, isBool, t)) <==>
             (v == Settled(vis, rev, weak, isBool, 0) || v == Settled(vis, rev, weak, isBool, 2) ||
              (typ == Tristate && v == Settled(vis, rev, weak, isBool, 1)));
    }
  }

  // For every visible bool or tristate symbol outside choices, the assignable values are exactly the
  // values it can be given, if and only if it is not in the one exceptional situation.
  lemma {:induction false} AssignableIsExact(cfg: Config, u: Users, s: nat)
    requires WellFormed(cfg) && Evaluable(cfg) && UsersOk(cfg, u) && s < |cfg.syms| == |u.val|
    requires cfg.Boolish(s) && cfg.S(s).choice.None? && Evaluated(cfg, u).env.S(s).vis != Some(0)
    ensures Evaluated(cfg, u).Assignable(s).Some?
    ensures (forall v: Tri :: CanBecome(cfg, u, s, v) <==> v in Evaluated(cfg, u).Assignable(s).value)
            <==> !ImplyOverridesSelect(Evaluated(cfg, u), s)
    // in the exceptional situation m is offered but only y can be had
    ensures ImplyOverridesSelect(Evaluated(cfg, u), s) ==>
              Evaluated(cfg, u).Assignable(s) == Some([1]) && forall v: Tri :: CanBecome(cfg, u, s, v) <==> v == 2
  {
    var k := Evaluated(cfg, u);
    UsersSelectMembers(cfg, u);
    ValuesAreTheSolution(cfg, u);
    SymKnown(k, s);
    assert TypeTakes(cfg.S(s).typ, 0) && TypeTakes(cfg.S(s).typ, 2);
    forall t: Tri | TypeTakes(cfg.S(s).typ, t)
      ensures k.Eval(cfg.S(s).revDep).Some? && k.Eval(cfg.S(s).weakRevDep).Some? && k.SymType(s).Some?
      ensures Outcome(cfg, u, s, t) == Some(Settled(k.env.S(s).vis.value, k.Eval(cfg.S(s).revDep).value,
                                                    k.Eval(cfg.S(s).weakRevDep).value, k.SymType(s) == Some(Bool), t))
    {
      OutcomeSettles(cfg, u, s, t);
    }
    AssignableFormula(k, s);
    if ImplyOverridesSelect(k, s) {
      assert Outcome(cfg, u, s, 0) == Some(2);
      assert CanBecome(cfg, u, s, 2);
    }
  }

  // ---- the exceptional situation occurs ----

  // MODULES is y. A is m by default and selects S, B is y by default and implies S, and the prompt of
  // the tristate S has 'if m'.
  function ExceptionConfig(num: Numerals): Config {
    Config([SymDecl("A", Tristate, [], [Default(Leaf(Const(1)), YES)], [], NO, NO, YES, None, false),
            SymDecl("B", Bool, [], [Default(YES, YES)], [], NO, NO, YES, None, false),
            SymDecl("S", Tristate, [Leaf(Const(1))], [], [], Leaf(Sym(0)), Leaf(Sym(1)), YES, None, false)],
           [], Const(2), num)
  }

  function ExceptionRank(q: Quantity): nat {
    match q
    case SymTri(s) => if s == 2 then 2 else 1
    case SymStr(_) => 3
    case _ => 0
  }

  lemma {:induction false} ExceptionReads(cfg: Config, q: Quantity)
    requires cfg == ExceptionConfig(cfg.num) && InRange(cfg, q)
    ensures forall q' :: q' in Reads(cfg, q) ==> InRange(cfg, q') && ExceptionRank(q') < ExceptionRank(q)
  {
    assert forall s: nat :: s < 3 ==> |cfg.S(s).defaults| <= 1 && |cfg.S(s).prompts| <= 1;
    match q
    case SymTri(s) =>
      if s < 2 {
        assert DefaultConds(cfg.S(s).defaults) == [YES];
        assert DefaultValues(cfg.S(s).defaults) == [cfg.S(s).defaults[0].value];
        SingleRefs(cfg, YES);
        SingleRefs(cfg, cfg.S(s).defaults[0].value);
      }
    case SymVis(s) => if s == 2 { SingleRefs(cfg, Leaf(Const(1))); }
    case _ =>
  }

  lemma {:induction false} ExceptionEvaluable(num: Numerals)
    ensures WellFormed(ExceptionConfig(num)) && Evaluable(ExceptionConfig(num))
  {
    var cfg := ExceptionConfig(num);
    var r := Ranking(ExceptionRank, 4);
    forall q ensures ReadsLower(cfg, r, q) {
      if InRange(cfg, q) {
        ExceptionReads(cfg, q);
      }
    }
    assert Ranks(cfg, r);
    forall s: nat ensures ChoiceSymbolOk(cfg, s) && SelectsOk(cfg, s) {
    }
  }

  // m is offered for S, but whatever is assigned S is y.
  lemma {:induction false} ExceptionOccurs(num: Numerals)
    ensures WellFormed(ExceptionConfig(num)) && Evaluable(ExceptionConfig(num))
    ensures ImplyOverridesSelect(Evaluated(ExceptionConfig(num), NoUsers(ExceptionConfig(num))), 2)
  {
    var cfg := ExceptionConfig(num);
    ExceptionEvaluable(num);
    var u := NoUsers(cfg);
    forall i: nat ensures UserOk(cfg, u, i) {
    }
    UsersSelectMembers(cfg, u);
    ValuesAreTheSolution(cfg, u);
    ExceptionValues(Evaluated(cfg, u));
  }

  lemma {:induction false} ExceptionValues(k: View)
    requires k.cfg == ExceptionConfig(k.cfg.num) && k.u == NoUsers(k.cfg) && Solution(k)
    ensures ImplyOverridesSelect(k, 2)
  {
    SymKnown(k, 0);
    SymKnown(k, 1);
    SymKnown(k, 2);
    assert DefaultConds(k.cfg.S(0).defaults)[0] == YES && DefaultConds(k.cfg.S(1).defaults)[0] == YES;
    assert k.Eval(YES) == Some(2) && k.Eval(NO) == Some(0) && k.Eval(Leaf(Const(1))) == Some(1);
    assert k.FromDefaults(0, false) == Some(Written(1, true));
    assert k.FromDefaults(1, false) == Some(Written(2, true));
    assert k.MaxEval(k.cfg.S(2).prompts, 1) == Some(1);
  }
}
