// The assignable modes of a choice and the assignable values of its symbols against their meaning.
module ChoiceAssignable {
  import opened Basics
  import opened Model
  import opened Semantics
  import opened Dependencies
  import opened Evaluation
  import opened CacheState
  import opened UserValues
  import opened Invalidation
  import opened ChoiceLaws
  import opened Locality
  import opened AssignableLaws
  import opened RuleLaws

  // ---- choices ----

  // Whatever is ranked below the visibility of a choice does not see its mode.
  lemma {:induction false} BelowMode(k: View, k': View, r: Ranking, c: nat, t: Tri, q: Quantity)
    requires k.cfg == k'.cfg && k'.u == SetMode(k.u, c, t) && Ranks(k.cfg, r) && Solution(k) && Solution(k') && SelectsMembers(k.cfg, k.u)
    requires InRange(k.cfg, q) && r.of(q) < r.of(ChoiceVis(c))
    ensures LeqAt(k, k', q) && Known(k, q)
    decreases r.of(q)
  {
    assert ReadsLower(k.cfg, r, q);
    forall q' | q' in Reads(k.cfg, q) ensures LeqAt(k, k', q') {
      BelowMode(k, k', r, c, t, q');
    }
    RuleLeq(k, k', q);
    assert Recomputed(k, q) && Recomputed(k', q);
  }

  // Assigning a mode leaves the visibility and the type of the choice as they were.
  lemma {:induction false} ChoiceInputsStay(cfg: Config, u: Users, c: nat, t: Tri)
    requires Evaluable(cfg) && UsersOk(cfg, u) && c < |cfg.choices| == |u.mode| && TypeTakes(cfg.C(c).typ, t)
    ensures
      var k, k' := Evaluated(cfg, u), Evaluated(cfg, SetMode(u, c, t));
      && Solution(k) && Solution(k') && k'.env.C(c).vis == k.env.C(c).vis && k'.ChoiceType(c) == k.ChoiceType(c) && k.ChoiceType(c).Some?
  {
    var u' := SetMode(u, c, t);
    var k, k' := Evaluated(cfg, u), Evaluated(cfg, u');
    SetModeOk(cfg, u, c, t);
    UsersSelectMembers(cfg, u);
    UsersSelectMembers(cfg, u');
    ValuesAreTheSolution(cfg, u);
    ValuesAreTheSolution(cfg, u');
    var r :| Ranks(cfg, r);
    assert ReadsLower(cfg, r, ChoiceVis(c));
    forall q | q in Reads(cfg, ChoiceVis(c)) ensures LeqAt(k, k', q) && Known(k, q) {
      BelowMode(k, k', r, c, t, q);
    }
    RuleLeq(k, k', ChoiceVis(c));
    ChoiceKnown(k, c);
    ChoiceKnown(k', c);
    ModulesKnown(k);
    if cfg.C(c).typ == Tristate && cfg.modules.Sym? && cfg.Boolish(cfg.modules.id) {
      assert SymTri(cfg.modules.id) in Reads(cfg, ChoiceVis(c));
      assert LeqAt(k, k', SymTri(cfg.modules.id)) && Known(k, SymTri(cfg.modules.id));
    }
  }

  // Some valid assignment puts the choice in mode v.
  ghost predicate ModeCanBecome(cfg: Config, u: Users, c: nat, v: Tri)
    requires Evaluable(cfg)
  {
    exists t: Tri :: TypeTakes(cfg.C(c).typ, t) && Evaluated(cfg, SetMode(u, c, t)).Mode(c) == Some(v)
  }

  // The mode of a visible choice after asking for t.
  lemma {:induction false} ModeSettles(k: View, c: nat, t: Tri)
    requires k.env.C(c).vis.Some? && k.ChoiceType(c).Some? && k.u.UserMode(c) == Some(t)
    ensures
      var v := Min(Max(if k.cfg.C(c).optional then 0 else 1, t), k.env.C(c).vis.value);
      k.Mode(c) == Some(if v == 1 && k.ChoiceType(c) == Some(Bool) then 2 else v)
  {
  }

  // Without asking, it is n if it is optional, and otherwise as low as it can be.
  lemma {:induction false} ModeWithoutUser(k: View, c: nat)
    requires Solution(k) && c < |k.cfg.choices| && BoolishChoice(k.cfg, c) && k.u.UserMode(c).None?
    ensures k.Mode(c) == Some(if k.cfg.C(c).optional || k.env.C(c).vis == Some(0) then 0 else if k.ChoiceType(c) == Some(Bool) then 2 else 1)
  {
    ChoiceKnown(k, c);
    ModulesKnown(k);
  }

  // The assignable modes of a visible choice are exactly those that it can be put in.
  lemma {:induction false} ChoiceAssignableIsExact(cfg: Config, u: Users, c: nat)
    requires Evaluable(cfg) && UsersOk(cfg, u) && c < |cfg.choices| == |u.mode| && BoolishChoice(cfg, c)
    requires Evaluated(cfg, u).env.C(c).vis != Some(0)
    ensures Evaluated(cfg, u).ChoiceAssignable(c).Some?
    ensures forall v: Tri :: ModeCanBecome(cfg, u, c, v) <==> v in Evaluated(cfg, u).ChoiceAssignable(c).value
  {
    var k := Evaluated(cfg, u);
    forall t: Tri | TypeTakes(cfg.C(c).typ, t)
      ensures Solution(k) && k.env.C(c).vis.Some? && k.ChoiceType(c).Some? && Evaluated(cfg, SetMode(u, c, t)).Mode(c) ==
              var v := Min(Max(if cfg.C(c).optional then 0 else 1, t), k.env.C(c).vis.value);
              Some(if v == 1 && k.ChoiceType(c) == Some(Bool) then 2 else v)
    {
      ChoiceInputsStay(cfg, u, c, t);
      ChoiceKnown(k, c);
      ModeSettles(Evaluated(cfg, SetMode(u, c, t)), c, t);
    }
    assert TypeTakes(cfg.C(c).typ, 0) && TypeTakes(cfg.C(c).typ, 2) && (cfg.C(c).typ == Tristate ==> TypeTakes(cfg.C(c).typ, 1));
    ChoiceKnown(k, c);
    forall v: Tri ensures ModeCanBecome(cfg, u, c, v) <==> v in k.ChoiceAssignable(c).value {
      assert ModeCanBecome(cfg, u, c, v) <==>
             || Evaluated(cfg, SetMode(u, c, 0)).Mode(c) == Some(v) || Evaluated(cfg, SetMode(u, c, 2)).Mode(c) == Some(v)
             || (cfg.C(c).typ == Tristate && Evaluated(cfg, SetMode(u, c, 1)).Mode(c) == Some(v));
    }
  }

  // ---- choice symbols ----

  // After an assignment to a choice symbol its visibility and the mode of the choice are as before.
  lemma {:induction false} ChoiceSymbolStays(cfg: Config, u: Users, s: nat, c: nat, t: Tri)
    requires WellFormed(cfg) && Evaluable(cfg) && UsersOk(cfg, u) && s < |cfg.syms| == |u.val| && cfg.Boolish(s)
    requires cfg.S(s).choice == Some(c) && TypeTakes(cfg.S(s).typ, t)
    ensures
      var k, k' := Evaluated(cfg, u), Evaluated(cfg, SetUser(cfg, u, s, UTri(t)));
      Solution(k) && Solution(k') && k'.env.S(s).vis == k.env.S(s).vis && k'.Mode(c) == k.Mode(c) && c < |cfg.choices|
  {
    var u' := SetUser(cfg, u, s, UTri(t));
    var k, k' := Evaluated(cfg, u), Evaluated(cfg, u');
    AcceptedUserOk(cfg, u, s, UTri(t));
    UsersSelectMembers(cfg, u);
    UsersSelectMembers(cfg, u');
    ValuesAreTheSolution(cfg, u);
    ValuesAreTheSolution(cfg, u');
    assert ChoiceSymbolOk(cfg, s);
    OwnInputsUnchanged(cfg, u, s, UTri(t), SymVis(s));
    forall q | q in ModeRefs(cfg, c) ensures LeqAt(k, k', q) && Known(k, q) {
      OwnInputsUnchanged(cfg, u, s, UTri(t), q);
    }
    ModeLeq(k, k', c);
    ChoiceKnown(k, c);
  }

  // In y mode, where only y is assignable, assigning y to a visible symbol selects it and makes it y.
  lemma {:induction false} AssigningYSelects(cfg: Config, u: Users, s: nat, c: nat)
    requires WellFormed(cfg) && ChoicesGuarded(cfg) && Evaluable(cfg) && UsersOk(cfg, u) && s < |cfg.syms| == |u.val| && |cfg.choices| == |u.sel|
    requires cfg.Boolish(s) && cfg.S(s).choice == Some(c) && BoolishChoice(cfg, c) && Evaluated(cfg, u).env.S(s).vis == Some(2)
    ensures Evaluated(cfg, u).Eval(cfg.S(s).revDep).Some? ==> Evaluated(cfg, u).Assignable(s) == Some([2])
    ensures Outcome(cfg, u, s, 2) == Some(2) && Values(cfg, SetUser(cfg, u, s, UTri(2))).C(c).sel == Some(Some(s))
  {
    var k, k' := Evaluated(cfg, u), Evaluated(cfg, SetUser(cfg, u, s, UTri(2)));
    ChoiceSymbolStays(cfg, u, s, c, 2);
    assert ChoiceSymbolOk(cfg, s);
    MemberVisibility(k, c, s);
    ChoiceKnown(k, c);
    ChoiceKnown(k', c);
    ChoiceSymbolMeans(k', s, c);
  }

  // In m mode, where n and m are assignable to a symbol that nothing selects or implies, those are exactly
  // the values that it can be given.
  lemma {:induction false} LowModeIsExact(cfg: Config, u: Users, s: nat, c: nat, v: Tri)
    requires WellFormed(cfg) && Evaluable(cfg) && UsersOk(cfg, u) && s < |cfg.syms| == |u.val|
    requires cfg.Boolish(s) && cfg.S(s).choice == Some(c) && Evaluated(cfg, u).env.S(s).vis == Some(1)
    requires cfg.S(s).revDep == NO && cfg.S(s).weakRevDep == NO
    ensures Evaluated(cfg, u).Assignable(s) == Some([0, 1]) && (CanBecome(cfg, u, s, v) <==> v == 0 || v == 1)
  {
    var k := Evaluated(cfg, u);
    UsersSelectMembers(cfg, u);
    ValuesAreTheSolution(cfg, u);
    MVisibleIsTristate(k, s);
    assert k.Eval(NO) == Some(0);
    forall t: Tri | TypeTakes(cfg.S(s).typ, t) ensures Outcome(cfg, u, s, t) == Some(if t == 0 then 0 else 1) {
      ChoiceSymbolStays(cfg, u, s, c, t);
      var k' := Evaluated(cfg, SetUser(cfg, u, s, UTri(t)));
      ChoiceSymbolMeans(k', s, c);
      SymKnown(k', s);
    }
    assert k.cfg.S(s).typ == Tristate;
    assert TypeTakes(cfg.S(s).typ, 0) && TypeTakes(cfg.S(s).typ, 1);
  }

  // ---- what is accepted ----

  // Exactly these values are accepted, and stored as these user values.
  lemma {:induction false} AcceptedExactly(cfg: Config, s: nat, v: Input, x: UserVal)
    ensures Parsed(cfg, s, v) == Some(x) <==>
            match cfg.S(s).typ
            case Bool => (x == UTri(0) && v in [Number(0), Word("n")]) || (x == UTri(2) && v in [Number(2), Word("y")])
            case Tristate => (x == UTri(0) && v in [Number(0), Word("n")]) || (x == UTri(1) && v in [Number(1), Word("m")]) || (x == UTri(2) && v in [Number(2), Word("y")])
            case String => v.Word? && x == UStr(v.s)
            case Int => v.Word? && x == UStr(v.s) && cfg.num.parse(v.s, 10).Some?
            case Hex => v.Word? && x == UStr(v.s) && cfg.num.parse(v.s, 16).Some? && cfg.num.parse(v.s, 16).value >= 0
            case Unknown => false
  {
  }
}
