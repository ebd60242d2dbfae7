// The cache-free evaluator. When the read relation is well-founded the rules have exactly one
// solution, it gives every quantity a value, and any consistent partial record is part of it.
module Evaluation {
  import opened Basics
  import opened Model
  import opened Semantics
  import opened Dependencies

  predicate InRange(cfg: Config, q: Quantity) {
    match q
    case SymVis(s) => s < |cfg.syms|
    case SymTri(s) => s < |cfg.syms|
    case SymStr(s) => s < |cfg.syms|
    case ChoiceVis(c) => c < |cfg.choices|
    case ChoiceSel(c) => c < |cfg.choices|
  }

  // A ranking of the quantities under which every rule reads only lower ones.
  datatype Ranking = Ranking(of: Quantity -> nat, top: nat)

  ghost predicate Ranks(cfg: Config, r: Ranking) { forall q :: ReadsLower(cfg, r, q) }

  ghost predicate ReadsLower(cfg: Config, r: Ranking, q: Quantity) {
    r.of(q) < r.top && (InRange(cfg, q) ==> forall q' :: q' in Reads(cfg, q) ==> InRange(cfg, q') && r.of(q') < r.of(q))
  }

  ghost predicate Evaluable(cfg: Config) { exists r :: Ranks(cfg, r) }

  // What the source keeps true of user values: a user selection is a symbol of its choice.
  ghost predicate SelectsMembers(cfg: Config, u: Users) {
    forall c: nat :: MemberSelection(View(cfg, u, Env([], [])), c)
  }

  // ---- the rules as one operation on records ----

  function Val<T>(w: Option<Written<T>>): Option<T> { if w.Some? then Some(w.value.val) else None }

  function TriRule(k: View, s: nat): Option<Tri> { if k.cfg.Boolish(s) then Val(k.TriValue(s)) else Some(0) }

  // q is known and is what its rule gives.
  ghost predicate Recomputed(k: View, q: Quantity) {
    Known(k, q) &&
    match q
    case SymVis(s) => k.env.S(s).vis == k.Visibility(s)
    case SymTri(s) => k.env.S(s).tri == TriRule(k, s)
    case SymStr(s) => k.env.S(s).str == k.StrValue(s)
    case ChoiceVis(c) => k.env.C(c).vis == k.ChoiceVisibility(c)
    case ChoiceSel(c) => k.env.C(c).sel == k.Selection(c)
  }

  predicate RuleDefined(k: View, q: Quantity) {
    match q
    case SymVis(s) => k.Visibility(s).Some?
    case SymTri(s) => TriRule(k, s).Some?
    case SymStr(s) => k.StrValue(s).Some?
    case ChoiceVis(c) => k.ChoiceVisibility(c).Some?
    case ChoiceSel(c) => k.Selection(c).Some?
  }

  // The rule of q gives the same in k' as in k, if it gives anything in k.
  predicate RuleRefines(k: View, k': View, q: Quantity) {
    match q
    case SymVis(s) => Refines(k.Visibility(s), k'.Visibility(s))
    case SymTri(s) => Refines(TriRule(k, s), TriRule(k', s))
    case SymStr(s) => Refines(k.StrValue(s), k'.StrValue(s))
    case ChoiceVis(c) => Refines(k.ChoiceVisibility(c), k'.ChoiceVisibility(c))
    case ChoiceSel(c) => Refines(k.Selection(c), k'.Selection(c))
  }

  // The part of the user's choices that the rule of q reads directly, other than choice modes.
  predicate SameUser(u: Users, u': Users, q: Quantity) {
    match q
    case SymTri(s) => u.UserTri(s) == u'.UserTri(s)
    case SymStr(s) => u.UserStr(s) == u'.UserStr(s)
    case ChoiceSel(c) => u.UserSel(c) == u'.UserSel(c)
    case _ => true
  }

  lemma {:induction false} RuleLeq(k: View, k': View, q: Quantity)
    requires Leq(k, k', Reads(k.cfg, q)) && SelectsMembers(k.cfg, k.u) && SameUser(k.u, k'.u, q)
    ensures RuleRefines(k, k', q)
    ensures AllKnown(k, Reads(k.cfg, q)) ==> RuleDefined(k, q)
  {
    match q
    case SymVis(s) => VisibilityLeq(k, k', s);
    case SymTri(s) => if k.cfg.Boolish(s) { TriValueLeq(k, k', s); }
    case SymStr(s) => StrValueLeq(k, k', s);
    case ChoiceVis(c) => ChoiceVisibilityLeq(k, k', c);
    case ChoiceSel(c) =>
      assert MemberSelection(View(k.cfg, k.u, Env([], [])), c);
      SelectionLeq(k, k', c);
  }

  // ---- uniqueness ----

  // Every known entry of the record follows from the others.
  ghost predicate Consistent(k: View) { forall q {:trigger Recomputed(k, q)} :: Known(k, q) ==> Recomputed(k, q) }

  ghost predicate Solution(k: View) {
    && |k.env.syms| == |k.cfg.syms| && |k.env.choices| == |k.cfg.choices|
    && forall q {:trigger Recomputed(k, q)} :: InRange(k.cfg, q) ==> Recomputed(k, q)
  }

  lemma {:induction false} KnownInRange(k: View, q: Quantity)
    requires |k.env.syms| == |k.cfg.syms| && |k.env.choices| == |k.cfg.choices| && Known(k, q)
    ensures InRange(k.cfg, q)
  {
  }

  // A consistent partial record agrees with any solution: this is what makes a cache correct.
  lemma {:induction false} ConsistentIsCorrect(k: View, sol: View, r: Ranking, q: Quantity)
    requires k.cfg == sol.cfg && k.u == sol.u && Ranks(k.cfg, r) && SelectsMembers(k.cfg, k.u)
    requires Consistent(k) && Solution(sol) && InRange(k.cfg, q)
    ensures LeqAt(k, sol, q)
    decreases r.of(q)
  {
    assert ReadsLower(k.cfg, r, q);
    forall q' | q' in Reads(k.cfg, q) ensures LeqAt(k, sol, q') {
      ConsistentIsCorrect(k, sol, r, q');
    }
    RuleLeq(k, sol, q);
    if Known(k, q) {
      assert Recomputed(k, q) && Recomputed(sol, q);
    }
  }

  lemma {:induction false} SolutionIsUnique(k: View, k': View, r: Ranking)
    requires k.cfg == k'.cfg && k.u == k'.u && Ranks(k.cfg, r) && SelectsMembers(k.cfg, k.u)
    requires Solution(k) && Solution(k')
    ensures k.env == k'.env
  {
    forall q | Known(k, q) ensures Recomputed(k, q) {
      KnownInRange(k, q);
    }
    forall s: nat | s < |k.cfg.syms| ensures k.env.syms[s] == k'.env.syms[s] {
      forall q | q in {SymVis(s), SymTri(s), SymStr(s)} ensures LeqAt(k, k', q) && Known(k, q) {
        assert InRange(k.cfg, q);
        ConsistentIsCorrect(k, k', r, q);
        assert Recomputed(k, q);
      }
      assert LeqAt(k, k', SymVis(s)) && LeqAt(k, k', SymTri(s)) && LeqAt(k, k', SymStr(s));
      assert Known(k, SymVis(s)) && Known(k, SymTri(s)) && Known(k, SymStr(s));
    }
    forall c: nat | c < |k.cfg.choices| ensures k.env.choices[c] == k'.env.choices[c] {
      forall q | q in {ChoiceVis(c), ChoiceSel(c)} ensures LeqAt(k, k', q) && Known(k, q) {
        assert InRange(k.cfg, q);
        ConsistentIsCorrect(k, k', r, q);
        assert Recomputed(k, q);
      }
      assert LeqAt(k, k', ChoiceVis(c)) && LeqAt(k, k', ChoiceSel(c));
      assert Known(k, ChoiceVis(c)) && Known(k, ChoiceSel(c));
    }
  }

  // ---- existence ----

  // The values of all quantities of rank below b, by recursion on the rank.
  ghost function EnvBelow(cfg: Config, u: Users, r: Ranking, b: nat): Env
    decreases b
  {
    Env(
      seq(|cfg.syms|, s requires 0 <= s < |cfg.syms| => SymEnt(
        if r.of(SymVis(s)) < b then View(cfg, u, EnvBelow(cfg, u, r, r.of(SymVis(s)))).Visibility(s) else None,
        if r.of(SymTri(s)) < b then TriRule(View(cfg, u, EnvBelow(cfg, u, r, r.of(SymTri(s)))), s) else None,
        if r.of(SymStr(s)) < b then View(cfg, u, EnvBelow(cfg, u, r, r.of(SymStr(s)))).StrValue(s) else None)),
      seq(|cfg.choices|, c requires 0 <= c < |cfg.choices| => ChoiceEnt(
        if r.of(ChoiceVis(c)) < b then View(cfg, u, EnvBelow(cfg, u, r, r.of(ChoiceVis(c)))).ChoiceVisibility(c) else None,
        if r.of(ChoiceSel(c)) < b then View(cfg, u, EnvBelow(cfg, u, r, r.of(ChoiceSel(c)))).Selection(c) else None)))
  }

  ghost function ViewBelow(cfg: Config, u: Users, r: Ranking, b: nat): View { View(cfg, u, EnvBelow(cfg, u, r, b)) }

  // The entry of q in k is what the rule of q gives in k0.
  predicate EntryFrom(k: View, k0: View, q: Quantity) {
    match q
    case SymVis(s) => k.env.S(s).vis == k0.Visibility(s)
    case SymTri(s) => k.env.S(s).tri == TriRule(k0, s)
    case SymStr(s) => k.env.S(s).str == k0.StrValue(s)
    case ChoiceVis(c) => k.env.C(c).vis == k0.ChoiceVisibility(c)
    case ChoiceSel(c) => k.env.C(c).sel == k0.Selection(c)
  }

  lemma {:induction false} EnvBelowEntry(cfg: Config, u: Users, r: Ranking, b: nat, q: Quantity)
    requires InRange(cfg, q) && r.of(q) < b
    ensures EntryFrom(ViewBelow(cfg, u, r, b), ViewBelow(cfg, u, r, r.of(q)), q)
  {
  }

  lemma {:induction false} SameEntry(k: View, k': View, k0: View, q: Quantity)
    requires EntryFrom(k, k0, q) && EntryFrom(k', k0, q) && k.u == k'.u
    ensures LeqAt(k, k', q)
  {
  }

  lemma {:induction false} EntryKnown(k: View, k0: View, q: Quantity)
    requires EntryFrom(k, k0, q) && RuleDefined(k0, q)
    ensures Known(k, q)
    ensures RuleRefines(k0, k, q) ==> Recomputed(k, q)
  {
  }

  // The evaluator never meets an undefined read.
  lemma {:induction false} EvaluationTerminates(cfg: Config, u: Users, r: Ranking, q: Quantity)
    requires Ranks(cfg, r) && SelectsMembers(cfg, u) && InRange(cfg, q)
    ensures RuleDefined(ViewBelow(cfg, u, r, r.of(q)), q)
    decreases r.of(q)
  {
    assert ReadsLower(cfg, r, q);
    forall q' | q' in Reads(cfg, q) ensures Known(ViewBelow(cfg, u, r, r.of(q)), q') {
      EvaluationTerminates(cfg, u, r, q');
      EnvBelowEntry(cfg, u, r, r.of(q), q');
      EntryKnown(ViewBelow(cfg, u, r, r.of(q)), ViewBelow(cfg, u, r, r.of(q')), q');
    }
    DefinedWhenKnown(ViewBelow(cfg, u, r, r.of(q)), q);
  }

  lemma {:induction false} DefinedWhenKnown(k: View, q: Quantity)
    requires SelectsMembers(k.cfg, k.u) && AllKnown(k, Reads(k.cfg, q))
    ensures RuleDefined(k, q)
  {
    RuleLeq(k, k, q);
  }

  lemma {:induction false} TopIsSolution(cfg: Config, u: Users, r: Ranking)
    requires Ranks(cfg, r) && SelectsMembers(cfg, u)
    ensures Solution(ViewBelow(cfg, u, r, r.top))
  {
    forall q | InRange(cfg, q) ensures Recomputed(ViewBelow(cfg, u, r, r.top), q) {
      TopRecomputes(cfg, u, r, q);
    }
    Shape(cfg, u, r, r.top);
  }

  lemma {:induction false} Shape(cfg: Config, u: Users, r: Ranking, b: nat)
    ensures |EnvBelow(cfg, u, r, b).syms| == |cfg.syms| && |EnvBelow(cfg, u, r, b).choices| == |cfg.choices|
  {
  }

  lemma {:induction false} TopRecomputes(cfg: Config, u: Users, r: Ranking, q: Quantity)
    requires Ranks(cfg, r) && SelectsMembers(cfg, u) && InRange(cfg, q)
    ensures Recomputed(ViewBelow(cfg, u, r, r.top), q)
  {
    assert ReadsLower(cfg, r, q);
    forall q' | q' in Reads(cfg, q)
      ensures LeqAt(ViewBelow(cfg, u, r, r.of(q)), ViewBelow(cfg, u, r, r.top), q')
    {
      assert ReadsLower(cfg, r, q');
      EnvBelowEntry(cfg, u, r, r.of(q), q');
      EnvBelowEntry(cfg, u, r, r.top, q');
      SameEntry(ViewBelow(cfg, u, r, r.of(q)), ViewBelow(cfg, u, r, r.top), ViewBelow(cfg, u, r, r.of(q')), q');
    }
    RuleLeq(ViewBelow(cfg, u, r, r.of(q)), ViewBelow(cfg, u, r, r.top), q);
    EvaluationTerminates(cfg, u, r, q);
    EnvBelowEntry(cfg, u, r, r.top, q);
    EntryKnown(ViewBelow(cfg, u, r, r.top), ViewBelow(cfg, u, r, r.of(q)), q);
  }

  // The value of everything under the user choices u.
  ghost function Values(cfg: Config, u: Users): Env
    requires Evaluable(cfg)
  {
    var r :| Ranks(cfg, r);
    EnvBelow(cfg, u, r, r.top)
  }

  ghost function Evaluated(cfg: Config, u: Users): View
    requires Evaluable(cfg)
  {
    View(cfg, u, Values(cfg, u))
  }

  // Under a well-founded read relation the rules determine the value of every symbol and choice:
  // there is a solution, and it does not depend on the ranking or the order of evaluation.
  lemma {:induction false} ValuesAreTheSolution(cfg: Config, u: Users)
    requires Evaluable(cfg) && SelectsMembers(cfg, u)
    ensures Solution(Evaluated(cfg, u))
    ensures forall env :: Solution(View(cfg, u, env)) ==> env == Values(cfg, u)
  {
    var r :| Ranks(cfg, r) && Values(cfg, u) == EnvBelow(cfg, u, r, r.top);
    TopIsSolution(cfg, u, r);
    forall env | Solution(View(cfg, u, env)) ensures env == Values(cfg, u) {
      SolutionIsUnique(View(cfg, u, env), Evaluated(cfg, u), r);
    }
  }

  lemma {:induction false} CacheIsCorrect(k: View, q: Quantity)
    requires Evaluable(k.cfg) && SelectsMembers(k.cfg, k.u) && Consistent(k)
    requires InRange(k.cfg, q)
    ensures LeqAt(k, Evaluated(k.cfg, k.u), q)
  {
    var r :| Ranks(k.cfg, r);
    ValuesAreTheSolution(k.cfg, k.u);
    ConsistentIsCorrect(k, Evaluated(k.cfg, k.u), r, q);
  }
}
