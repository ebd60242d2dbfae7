// Choices: in every state the mode of a visible choice is one of its assignable modes, and the mode
// says how many of its symbols can be set.
module ChoiceLaws {
  import opened Basics
  import opened Model
  import opened Semantics
  import opened Dependencies
  import opened Evaluation
  import opened CacheState
  import opened UserValues

  // e is n or has the choice as a conjunct: what propagating the choice to its contents gives.
  predicate Guarded(e: Expr, c: nat) {
    e == NO || e == InChoice(c) || (e.And? && (Guarded(e.l, c) || Guarded(e.r, c)))
  }

  predicate PromptsGuarded(cfg: Config, s: nat) {
    cfg.S(s).choice.Some? ==> forall p :: p in cfg.S(s).prompts ==> Guarded(p, cfg.S(s).choice.value)
  }

  ghost predicate ChoicesGuarded(cfg: Config) { forall s: nat :: PromptsGuarded(cfg, s) }

  lemma GuardBounds(k: View, e: Expr, c: nat)
    requires Guarded(e, c) && k.Eval(e).Some? && k.Mode(c).Some?
    ensures k.Eval(e).value <= k.Mode(c).value
  {
  }

  lemma {:induction false} GuardsBound(k: View, es: seq<Expr>, n: nat, c: nat)
    requires n <= |es| && k.MaxEval(es, n).Some? && k.Mode(c).Some?
    requires forall p :: p in es ==> Guarded(p, c)
    ensures k.MaxEval(es, n).value <= k.Mode(c).value
  {
    if n > 0 {
      GuardsBound(k, es, n - 1, c);
      GuardBounds(k, es[n - 1], c);
    }
  }

  // All of the following is about the values under some user choices.
  ghost predicate InState(k: View) {
    && WellFormed(k.cfg) && ChoicesGuarded(k.cfg) && Solution(k) && UsersOk(k.cfg, k.u)
  }

  lemma {:induction false} ChoiceKnown(k: View, c: nat)
    requires Solution(k) && c < |k.cfg.choices|
    ensures k.env.C(c).vis.Some? && k.env.C(c).vis == k.ChoiceVisibility(c)
    ensures k.env.C(c).sel.Some? && k.env.C(c).sel == k.Selection(c) && k.Mode(c).Some?
  {
    assert Recomputed(k, ChoiceVis(c)) && Recomputed(k, ChoiceSel(c));
  }

  lemma {:induction false} SymKnown(k: View, s: nat)
    requires Solution(k) && s < |k.cfg.syms|
    ensures k.env.S(s).vis.Some? && k.env.S(s).vis == k.Visibility(s)
    ensures k.env.S(s).tri.Some? && k.env.S(s).tri == TriRule(k, s)
    ensures k.env.S(s).str.Some? && k.env.S(s).str == k.StrValue(s)
  {
    assert Recomputed(k, SymVis(s)) && Recomputed(k, SymTri(s)) && Recomputed(k, SymStr(s));
  }

  lemma {:induction false} ModulesKnown(k: View)
    requires Solution(k)
    ensures k.TriOf(k.cfg.modules).Some?
  {
    if k.cfg.modules.Sym? && k.cfg.Boolish(k.cfg.modules.id) {
      assert Recomputed(k, SymTri(k.cfg.modules.id));
    }
  }

  predicate BoolishChoice(cfg: Config, c: nat) { cfg.C(c).typ == Bool || cfg.C(c).typ == Tristate }

  // The mode of a visible choice is always one of its assignable values.
  lemma {:induction false} ModeIsAssignable(k: View, c: nat)
    requires InState(k) && c < |k.cfg.choices| && k.env.C(c).vis != Some(0)
    ensures k.ChoiceAssignable(c).Some? && k.Mode(c).Some? && k.Mode(c).value in k.ChoiceAssignable(c).value
  {
    ModulesKnown(k);
    ChoiceKnown(k, c);
  }

  // The visibility of a choice symbol in each mode of its choice.
  lemma {:induction false} MemberVisibility(k: View, c: nat, s: nat)
    requires InState(k) && c < |k.cfg.choices| && s in k.cfg.C(c).members && BoolishChoice(k.cfg, c)
    ensures s < |k.cfg.syms| && k.cfg.S(s).choice == Some(c)
    ensures k.Mode(c) == Some(0) ==> k.env.S(s).vis == Some(0)
    ensures k.Mode(c) == Some(1) ==> k.env.S(s).vis == Some(0) || k.env.S(s).vis == Some(1)
    ensures k.Mode(c) == Some(2) ==> k.env.S(s).vis == Some(0) || k.env.S(s).vis == Some(2)
  {
    var i :| 0 <= i < |k.cfg.C(c).members| && k.cfg.C(c).members[i] == s;
    assert MembersOk(k.cfg, c) && PromptsGuarded(k.cfg, s);
    ModulesKnown(k);
    ChoiceKnown(k, c);
    SymKnown(k, s);
    GuardsBound(k, k.cfg.S(s).prompts, |k.cfg.S(s).prompts|, c);
  }

  lemma FirstVisibleIsMember(k: View, members: seq<nat>, i: nat)
    requires i <= |members| && k.FirstVisible(members, i).Some?
    ensures k.FirstVisible(members, i).value.Some? ==>
              k.FirstVisible(members, i).value.value in members && k.env.S(k.FirstVisible(members, i).value.value).vis != Some(0)
    ensures k.FirstVisible(members, i).value.None? ==> forall j :: i <= j < |members| ==> k.env.S(members[j]).vis == Some(0)
    decreases |members| - i
  {
  }

  lemma {:induction false} DefaultSelectionIsMember(k: View, c: nat, i: nat)
    requires WellFormed(k.cfg) && i <= |k.cfg.C(c).defaults| && k.DefaultSelection(c, i).Some?
    ensures k.DefaultSelection(c, i).value.Some? ==>
              var s := k.DefaultSelection(c, i).value.value;
              s in k.cfg.C(c).members && k.env.S(s).vis != Some(0)
    ensures k.DefaultSelection(c, i).value.None? ==> forall s :: s in k.cfg.C(c).members ==> k.env.S(s).vis == Some(0)
    decreases |k.cfg.C(c).defaults| - i
  {
    assert ChoiceDefaultsOk(k.cfg, c);
    if i == |k.cfg.C(c).defaults| {
      FirstVisibleIsMember(k, k.cfg.C(c).members, 0);
    } else if k.DefaultSelection(c, i) == k.DefaultSelection(c, i + 1) {
      DefaultSelectionIsMember(k, c, i + 1);
    }
  }

  // The selection is a visible symbol of the choice; in y mode there is one if any symbol is visible.
  lemma {:induction false} SelectionIsVisibleMember(k: View, c: nat)
    requires InState(k) && c < |k.cfg.choices| && BoolishChoice(k.cfg, c)
    ensures k.env.C(c).sel.Some?
    ensures k.env.C(c).sel.value.Some? ==>
              k.Mode(c) == Some(2) && k.env.C(c).sel.value.value in k.cfg.C(c).members && k.env.S(k.env.C(c).sel.value.value).vis == Some(2)
    ensures k.Mode(c) == Some(2) && k.env.C(c).sel.value.None? ==> forall s :: s in k.cfg.C(c).members ==> k.env.S(s).vis == Some(0)
  {
    ChoiceKnown(k, c);
    if k.Mode(c) == Some(2) {
      if k.DefaultSelection(c, 0).Some? {
        DefaultSelectionIsMember(k, c, 0);
      }
      assert UserOk(k.cfg, k.u, c);
      if k.env.C(c).sel.value.Some? {
        MemberVisibility(k, c, k.env.C(c).sel.value.value);
      }
    }
  }

  // In y mode the selected symbol is y, every other symbol of the choice is n, and nothing is
  // selected only if no symbol is visible.
  lemma {:induction false} YModeSetsExactlyTheSelection(k: View, c: nat, s: nat)
    requires InState(k) && c < |k.cfg.choices| && BoolishChoice(k.cfg, c) && k.Mode(c) == Some(2)
    requires s in k.cfg.C(c).members && k.cfg.Boolish(s)
    ensures k.env.S(s).tri == Some(if k.env.C(c).sel == Some(Some(s)) then 2 else 0)
    ensures k.env.C(c).sel == Some(None) <==> forall x :: x in k.cfg.C(c).members ==> k.env.S(x).vis == Some(0)
  {
    MemberVisibility(k, c, s);
    SymKnown(k, s);
    SelectionIsVisibleMember(k, c);
  }

  // In m mode no symbol of the choice is y; in n mode all of them are n.
  lemma {:induction false} LowModesBoundTheSymbols(k: View, c: nat, s: nat)
    requires InState(k) && c < |k.cfg.choices| && BoolishChoice(k.cfg, c) && k.Mode(c) != Some(2)
    requires s in k.cfg.C(c).members && k.cfg.Boolish(s)
    ensures k.env.S(s).tri.Some? && k.Mode(c).Some? && k.env.S(s).tri.value <= k.Mode(c).value
    ensures k.env.C(c).sel == Some(None)
  {
    ChoiceKnown(k, c);
    MemberVisibility(k, c, s);
    SymKnown(k, s);
  }
}
