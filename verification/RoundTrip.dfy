// When do other user choices reproduce the values of a state? The conditions here are met by what
// loading a full or a minimal configuration leaves behind, and they are enough.
module RoundTrip {
  import opened Basics
  import opened Model
  import opened Semantics
  import opened Dependencies
  import opened Evaluation
  import opened CacheState
  import opened UserValues
  import opened Invalidation
  import opened ChoiceLaws

  // ---- configurations without tristates ----

  predicate BoolOnlySymbol(cfg: Config, s: nat) {
    && cfg.S(s).typ != Tristate && !cfg.S(s).auto
    && (cfg.S(s).choice.Some? ==> cfg.S(s).typ == Bool)
    && (!cfg.Boolish(s) ==> cfg.S(s).revDep == NO)
  }

  ghost predicate OnlyMembersMention(cfg: Config, y: Item, c: nat) {
    Mentions(cfg, y, ChoiceItem(c)) ==> y.SymItem? && y.s in cfg.C(c).members
  }

  // Where a symbol has a visible prompt, its direct dependencies are met: what dependency
  // propagation gives.
  ghost predicate PromptNeedsDeps(cfg: Config, s: nat) {
    forall k: View, p :: k.cfg == cfg && p in cfg.S(s).prompts && k.Eval(p).Some? && k.Eval(p) != Some(0) ==>
      k.Eval(cfg.S(s).directDep) != Some(0)
  }

  ghost predicate BoolOnly(cfg: Config) {
    && WellFormed(cfg) && ChoicesGuarded(cfg)
    && (forall s: nat :: BoolOnlySymbol(cfg, s) && PromptNeedsDeps(cfg, s))
    && (forall c: nat :: c < |cfg.choices| ==> cfg.C(c).typ == Bool)
    && (forall y, c: nat :: OnlyMembersMention(cfg, y, c))
  }

  // ---- what the minimal configuration leaves out ----

  // The first active default of a bool symbol.
  function BoolDefault(k: View, s: nat): Option<Tri> {
    var w :- k.FromDefaults(s, false);
    Some(w.val)
  }

  // Symbol._str_default()
  function StrDefault(k: View, s: nat): Option<string> {
    if k.cfg.Boolish(s) then
      if k.cfg.S(s).choice.Some? then Some("n")
      else
        var val :- BoolDefault(k, s);
        var rev :- k.Eval(k.cfg.S(s).revDep);
        var weak :- k.Eval(k.cfg.S(s).weakRevDep);
        var best := Max(Max(rev, weak), val);
        if best == 1 then
          var t :- k.SymType(s);
          Some(if t == Bool then "y" else "m")
        else Some(TriStr(best))
    else if k.cfg.S(s).typ == Unknown then Some("")
    else
      var d :- k.DefaultStr(s);
      Some(if d.Some? then d.value else "")
  }

  // The symbol cannot be changed: selects leave it no freedom.
  predicate Forced(k: View, s: nat) {
    k.cfg.S(s).choice.None? && k.env.S(s).vis.Some? && k.Eval(k.cfg.S(s).revDep).Some? &&
    k.env.S(s).vis.value <= k.Eval(k.cfg.S(s).revDep).value
  }

  // The choice would select the symbol anyway.
  predicate SelectedAnyway(k: View, s: nat) {
    k.cfg.S(s).choice.Some? && k.cfg.S(s).typ == Bool && !k.cfg.C(k.cfg.S(s).choice.value).optional &&
    k.DefaultSelection(k.cfg.S(s).choice.value, 0) == Some(Some(s)) && k.env.S(s).tri == Some(2)
  }

  predicate Omitted(k: View, s: nat) {
    Forced(k, s) || (k.env.S(s).str == StrDefault(k, s)) || SelectedAnyway(k, s)
  }

  // ---- the conditions ----

  // The symbol is invisible, or it is assigned the value it has (if that is of the right form), or
  // it is left alone and minimal configurations omit it.
  predicate SymbolReproduced(k: View, u': Users, s: nat) {
    k.cfg.S(s).choice.None? && k.env.S(s).vis != Some(0) && s < |u'.val| && k.env.S(s).str.Some? ==>
      u'.val[s] == Parsed(k.cfg, s, Word(k.env.S(s).str.value)) || (u'.val[s].None? && Omitted(k, s))
  }

  // The selected symbol is made the user selection in y mode, or is the one selected by default; if
  // there is no selection, the choice is left alone.
  predicate ChoiceReproduced(k: View, u': Users, c: nat) {
    match k.env.C(c).sel
    case Some(Some(s)) =>
      || (u'.UserSel(c) == Some(s) && u'.UserMode(c) == Some(2))
      || (u'.UserSel(c).None? && u'.UserMode(c).None? && !k.cfg.C(c).optional && k.DefaultSelection(c, 0) == Some(Some(s)))
    case _ => u'.UserSel(c).None? && u'.UserMode(c).None?
  }

  ghost predicate Reproduced(k: View, u': Users) {
    && |u'.val| == |k.cfg.syms| && UsersOk(k.cfg, u')
    && (forall s: nat :: SymbolReproduced(k, u', s))
    && (forall c: nat :: ChoiceReproduced(k, u', c))
  }

  // ---- the proof, quantity by quantity ----

  ghost predicate Setting(k: View, u': Users) {
    Evaluable(k.cfg) && BoolOnly(k.cfg) && InState(k) && Reproduced(k, u')
  }

  function With(k: View, u': Users): View { k.(u := u') }

  lemma SameEval(k: View, k': View, e: Expr)
    requires k'.cfg == k.cfg && k'.env == k.env
    requires forall c: nat :: ChoiceItem(c) in ExprItems(e) ==> k'.Mode(c) == k.Mode(c)
    ensures k'.Eval(e) == k.Eval(e)
  {
  }

  lemma {:induction false} SameMaxEval(k: View, k': View, es: seq<Expr>, n: nat)
    requires k'.cfg == k.cfg && k'.env == k.env && n <= |es|
    requires forall i, c: nat :: 0 <= i < |es| && ChoiceItem(c) in ExprItems(es[i]) ==> k'.Mode(c) == k.Mode(c)
    ensures k'.MaxEval(es, n) == k.MaxEval(es, n)
  {
    if n > 0 {
      SameMaxEval(k, k', es, n - 1);
      SameEval(k, k', es[n - 1]);
    }
  }

  lemma {:induction false} SameFirstActive(k: View, k': View, es: seq<Expr>, i: nat)
    requires k'.cfg == k.cfg && k'.env == k.env && i <= |es|
    requires forall i, c: nat :: 0 <= i < |es| && ChoiceItem(c) in ExprItems(es[i]) ==> k'.Mode(c) == k.Mode(c)
    ensures k'.FirstActive(es, i) == k.FirstActive(es, i)
    decreases |es| - i
  {
    if i < |es| {
      SameFirstActive(k, k', es, i + 1);
      SameEval(k, k', es[i]);
    }
  }

  // A block of properties of an item that mentions no choice evaluates the same.
  lemma {:induction false} BlockFree(cfg: Config, y: Item, es: seq<Expr>, i: int, c: nat)
    requires HasBlock(cfg, y, es) && 0 <= i < |es| && ChoiceItem(c) in ExprItems(es[i])
    ensures Mentions(cfg, y, ChoiceItem(c))
  {
    var n: nat :| Within(cfg, y, es, n);
    assert Properties(cfg, y)[n..n + |es|][i] == Properties(cfg, y)[n + i];
  }

  // Reloading keeps the mode of a choice, except that an optional choice in y mode none of whose
  // symbols is visible falls back to n.
  lemma {:induction false} ModeReproduced(k: View, u': Users, c: nat)
    requires Setting(k, u') && c < |k.cfg.choices|
    ensures k.Mode(c).Some?
    ensures With(k, u').Mode(c) == k.Mode(c) ||
            (With(k, u').Mode(c) == Some(0) && k.Mode(c) == Some(2) && forall s :: s in k.cfg.C(c).members ==> k.env.S(s).vis == Some(0))
  {
    assert ChoiceReproduced(k, u', c);
    assert UserOk(k.cfg, k.u, c);
    ChoiceKnown(k, c);
    SelectionIsVisibleMember(k, c);
  }

  ghost predicate ChoiceFree(es: seq<Expr>) { forall i, c: nat :: 0 <= i < |es| ==> ChoiceItem(c) !in ExprItems(es[i]) }

  lemma {:induction false} MentionedByMember(k: View, u': Users, s: nat, es: seq<Expr>, i: int, c: nat)
    requires Setting(k, u') && HasBlock(k.cfg, SymItem(s), es) && 0 <= i < |es| && ChoiceItem(c) in ExprItems(es[i])
    ensures k.cfg.S(s).choice == Some(c)
  {
    BlockFree(k.cfg, SymItem(s), es, i, c);
    assert OnlyMembersMention(k.cfg, SymItem(s), c) && MembersOk(k.cfg, c);
    var m :| 0 <= m < |k.cfg.C(c).members| && k.cfg.C(c).members[m] == s;
  }

  lemma {:induction false} PlainSymbolIsChoiceFree(k: View, u': Users, s: nat, es: seq<Expr>)
    requires Setting(k, u') && k.cfg.S(s).choice.None? && HasBlock(k.cfg, SymItem(s), es)
    ensures ChoiceFree(es)
  {
    forall i, c: nat | 0 <= i < |es| ensures ChoiceItem(c) !in ExprItems(es[i]) {
      if ChoiceItem(c) in ExprItems(es[i]) {
        MentionedByMember(k, u', s, es, i, c);
      }
    }
  }

  lemma {:induction false} ChoicesMentionNoChoice(cfg: Config, c: nat, c': nat)
    requires BoolOnly(cfg)
    ensures !Mentions(cfg, ChoiceItem(c), ChoiceItem(c'))
  {
    assert OnlyMembersMention(cfg, ChoiceItem(c), c');
  }

  lemma {:induction false} ChoiceIsChoiceFree(k: View, u': Users, c: nat, es: seq<Expr>)
    requires Setting(k, u') && HasBlock(k.cfg, ChoiceItem(c), es)
    ensures ChoiceFree(es)
  {
    forall i, c': nat | 0 <= i < |es| ensures ChoiceItem(c') !in ExprItems(es[i]) {
      ChoicesMentionNoChoice(k.cfg, c, c');
      if ChoiceItem(c') in ExprItems(es[i]) {
        BlockFree(k.cfg, ChoiceItem(c), es, i, c');
      }
    }
  }

  lemma {:induction false} ChoiceVisReproduced(k: View, u': Users, c: nat)
    requires Setting(k, u') && c < |k.cfg.choices|
    ensures With(k, u').ChoiceVisibility(c) == k.ChoiceVisibility(c)
  {
    ChoiceBlocks(k.cfg, c);
    ChoiceIsChoiceFree(k, u', c, k.cfg.C(c).prompts);
    SameMaxEval(k, With(k, u'), k.cfg.C(c).prompts, |k.cfg.C(c).prompts|);
  }

  lemma {:induction false} SameDefaultSelection(k: View, u': Users, c: nat, i: nat)
    requires Setting(k, u') && i <= |k.cfg.C(c).defaults| && ChoiceFree(ChoiceConds(k.cfg.C(c).defaults))
    ensures With(k, u').DefaultSelection(c, i) == k.DefaultSelection(c, i)
    decreases |k.cfg.C(c).defaults| - i
  {
    if i == |k.cfg.C(c).defaults| {
      SameFirstVisible(k, u', k.cfg.C(c).members, 0);
    } else {
      SameDefaultSelection(k, u', c, i + 1);
      assert ChoiceConds(k.cfg.C(c).defaults)[i] == k.cfg.C(c).defaults[i].cond;
      SameEval(k, With(k, u'), k.cfg.C(c).defaults[i].cond);
    }
  }

  lemma SameFirstVisible(k: View, u': Users, members: seq<nat>, i: nat)
    requires i <= |members|
    ensures With(k, u').FirstVisible(members, i) == k.FirstVisible(members, i)
    decreases |members| - i
  {
  }

  lemma {:induction false} DefaultSelectionReproduced(k: View, u': Users, c: nat)
    requires Setting(k, u')
    ensures With(k, u').DefaultSelection(c, 0) == k.DefaultSelection(c, 0)
  {
    ChoiceBlocks(k.cfg, c);
    ChoiceIsChoiceFree(k, u', c, ChoiceConds(k.cfg.C(c).defaults));
    SameDefaultSelection(k, u', c, 0);
  }

  // A choice with a selection stays in y mode, and selects the same symbol.
  lemma {:induction false} SelectedReproduced(k: View, u': Users, c: nat, s: nat)
    requires Setting(k, u') && c < |k.cfg.choices| && k.env.C(c).sel == Some(Some(s))
    ensures With(k, u').Selection(c) == Some(Some(s))
  {
    SelectionIsVisibleMember(k, c);
    ModeReproduced(k, u', c);
    assert With(k, u').Mode(c) == Some(2);
    DefaultSelectionReproduced(k, u', c);
    assert ChoiceReproduced(k, u', c);
  }

  // A choice without one, even in y mode, has no visible symbol.
  lemma {:induction false} UnselectedReproduced(k: View, u': Users, c: nat)
    requires Setting(k, u') && c < |k.cfg.choices| && k.env.C(c).sel == Some(None) && k.Selection(c) == Some(None)
    ensures With(k, u').Selection(c) == Some(None)
  {
    ModeReproduced(k, u', c);
    if With(k, u').Mode(c) == Some(2) {
      SelectionIsVisibleMember(k, c);
      NoDefaultSelection(k, c);
      DefaultSelectionReproduced(k, u', c);
      assert ChoiceReproduced(k, u', c);
    }
  }

  lemma {:induction false} NoDefaultSelection(k: View, c: nat)
    requires InState(k) && k.Selection(c) == Some(None) && k.Mode(c) == Some(2)
    ensures k.DefaultSelection(c, 0) == Some(None)
  {
  }

  lemma {:induction false} SelectionReproduced(k: View, u': Users, c: nat)
    requires Setting(k, u') && c < |k.cfg.choices|
    ensures With(k, u').Selection(c) == k.Selection(c)
  {
    ChoiceKnown(k, c);
    if k.env.C(c).sel.value.Some? {
      SelectedReproduced(k, u', c, k.env.C(c).sel.value.value);
    } else {
      UnselectedReproduced(k, u', c);
    }
  }

  lemma {:induction false} PlainVisReproduced(k: View, u': Users, s: nat)
    requires Setting(k, u') && s < |k.cfg.syms| && k.cfg.S(s).choice.None?
    ensures With(k, u').Visibility(s) == k.Visibility(s)
  {
    SymbolBlocks(k.cfg, s);
    PlainSymbolIsChoiceFree(k, u', s, k.cfg.S(s).prompts);
    SameMaxEval(k, With(k, u'), k.cfg.S(s).prompts, |k.cfg.S(s).prompts|);
    assert BoolOnlySymbol(k.cfg, s);
  }

  lemma {:induction false} MemberMentionsOnlyItsChoice(k: View, u': Users, s: nat, c: nat, i: int, c': nat)
    requires Setting(k, u') && s < |k.cfg.syms| && k.cfg.S(s).choice == Some(c)
    requires 0 <= i < |k.cfg.S(s).prompts| && ChoiceItem(c') in ExprItems(k.cfg.S(s).prompts[i])
    ensures c' == c
  {
    SymbolBlocks(k.cfg, s);
    MentionedByMember(k, u', s, k.cfg.S(s).prompts, i, c');
  }

  lemma {:induction false} MemberPromptsReproduced(k: View, u': Users, s: nat, c: nat)
    requires Setting(k, u') && s < |k.cfg.syms| && k.cfg.S(s).choice == Some(c)
    ensures
      var ps := k.cfg.S(s).prompts;
      var k' := With(k, u');
      || k'.MaxEval(ps, |ps|) == k.MaxEval(ps, |ps|)
      || (k.env.S(s).vis == Some(0) && k'.MaxEval(ps, |ps|) == Some(0))
  {
    var ps := k.cfg.S(s).prompts;
    var k' := With(k, u');
    assert ChoiceSymbolOk(k.cfg, s);
    ModeReproduced(k, u', c);
    if k'.Mode(c) == k.Mode(c) {
      forall i, c': nat | 0 <= i < |ps| && ChoiceItem(c') in ExprItems(ps[i]) ensures k'.Mode(c') == k.Mode(c') {
        MemberMentionsOnlyItsChoice(k, u', s, c, i, c');
      }
      SameMaxEval(k, k', ps, |ps|);
    } else {
      assert PromptsGuarded(k.cfg, s);
      ReadsKnown(k, SymVis(s));
      MaxEvalDefined(k, k', ps, |ps|);
      GuardsBound(k', ps, |ps|, c);
    }
  }

  lemma {:induction false} MemberVisReproduced(k: View, u': Users, s: nat, c: nat)
    requires Setting(k, u') && s < |k.cfg.syms| && k.cfg.S(s).choice == Some(c)
    ensures With(k, u').Visibility(s) == k.Visibility(s)
  {
    MemberPromptsReproduced(k, u', s, c);
    assert BoolOnlySymbol(k.cfg, s) && ChoiceSymbolOk(k.cfg, s);
    SymKnown(k, s);
  }

  lemma {:induction false} ReadsKnown(k: View, q: Quantity)
    requires Evaluable(k.cfg) && Solution(k) && InRange(k.cfg, q)
    ensures AllKnown(k, Reads(k.cfg, q))
  {
    var r :| Ranks(k.cfg, r);
    assert ReadsLower(k.cfg, r, q);
    forall q' | q' in Reads(k.cfg, q) ensures Known(k, q') {
      assert Recomputed(k, q');
    }
  }

  lemma {:induction false} MaxEvalDefined(k: View, k': View, es: seq<Expr>, n: nat)
    requires k'.cfg == k.cfg && k'.env == k.env && n <= |es|
    requires forall q :: q in ExprsRefs(k.cfg, es) ==> Known(k, q)
    ensures k'.MaxEval(es, n).Some?
  {
    MaxEvalLeq(k', k', es, n);
  }

  // ---- symbol values ----

  lemma {:induction false} ActiveReproduced(k: View, u': Users, s: nat, conds: seq<Expr>)
    requires Setting(k, u') && k.cfg.S(s).choice.None? && HasBlock(k.cfg, SymItem(s), conds)
    ensures With(k, u').FirstActive(conds, 0) == k.FirstActive(conds, 0)
  {
    PlainSymbolIsChoiceFree(k, u', s, conds);
    SameFirstActive(k, With(k, u'), conds, 0);
  }

  lemma {:induction false} OneReproduced(k: View, u': Users, s: nat, es: seq<Expr>, i: nat)
    requires Setting(k, u') && k.cfg.S(s).choice.None? && HasBlock(k.cfg, SymItem(s), es) && i < |es|
    ensures With(k, u').Eval(es[i]) == k.Eval(es[i])
  {
    PlainSymbolIsChoiceFree(k, u', s, es);
    SameEval(k, With(k, u'), es[i]);
  }

  lemma {:induction false} DefaultsReproduced(k: View, u': Users, s: nat, write: bool)
    requires Setting(k, u') && k.cfg.S(s).choice.None?
    ensures With(k, u').FromDefaults(s, write) == k.FromDefaults(s, write)
  {
    var ds := k.cfg.S(s).defaults;
    SymbolBlocks(k.cfg, s);
    ActiveReproduced(k, u', s, DefaultConds(ds));
    var first := k.FirstActive(DefaultConds(ds), 0);
    if first.Some? && first.value.Some? {
      OneReproduced(k, u', s, DefaultValues(ds), first.value.value.0);
    }
  }

  lemma {:induction false} DepsReproduced(k: View, u': Users, s: nat)
    requires Setting(k, u') && k.cfg.S(s).choice.None?
    ensures With(k, u').Eval(k.cfg.S(s).revDep) == k.Eval(k.cfg.S(s).revDep)
    ensures With(k, u').Eval(k.cfg.S(s).weakRevDep) == k.Eval(k.cfg.S(s).weakRevDep)
    ensures With(k, u').Eval(k.cfg.S(s).directDep) == k.Eval(k.cfg.S(s).directDep)
  {
    SymbolBlocks(k.cfg, s);
    OneReproduced(k, u', s, [k.cfg.S(s).revDep], 0);
    OneReproduced(k, u', s, [k.cfg.S(s).weakRevDep], 0);
    OneReproduced(k, u', s, [k.cfg.S(s).directDep], 0);
  }

  lemma {:induction false} DefaultStrReproduced(k: View, u': Users, s: nat)
    requires Setting(k, u') && k.cfg.S(s).choice.None?
    ensures With(k, u').DefaultStr(s) == k.DefaultStr(s)
  {
    SymbolBlocks(k.cfg, s);
    ActiveReproduced(k, u', s, DefaultConds(k.cfg.S(s).defaults));
  }

  lemma {:induction false} RangeReproduced(k: View, u': Users, s: nat)
    requires Setting(k, u') && k.cfg.S(s).choice.None?
    ensures With(k, u').ActiveRange(s) == k.ActiveRange(s)
  {
    SymbolBlocks(k.cfg, s);
    ActiveReproduced(k, u', s, RangeConds(k.cfg.S(s).ranges));
  }

  lemma {:induction false} MaxEvalWitness(k: View, es: seq<Expr>, n: nat)
    requires n <= |es| && k.MaxEval(es, n).Some? && k.MaxEval(es, n) != Some(0)
    ensures exists p :: p in es && k.Eval(p).Some? && k.Eval(p) != Some(0)
  {
    if k.Eval(es[n - 1]) == Some(0) {
      MaxEvalWitness(k, es, n - 1);
    } else {
      assert es[n - 1] in es;
    }
  }

  // A visible symbol has its direct dependencies met.
  lemma {:induction false} VisibleNeedsDeps(k: View, s: nat)
    requires BoolOnly(k.cfg) && Solution(k) && s < |k.cfg.syms| && k.env.S(s).vis != Some(0)
    ensures k.Eval(k.cfg.S(s).directDep) != Some(0)
  {
    SymKnown(k, s);
    MaxEvalWitness(k, k.cfg.S(s).prompts, |k.cfg.S(s).prompts|);
    var p :| p in k.cfg.S(s).prompts && k.Eval(p).Some? && k.Eval(p) != Some(0);
    assert PromptNeedsDeps(k.cfg, s);
  }

  lemma {:induction false} UnsetReproduced(k: View, u': Users, s: nat)
    requires Setting(k, u') && s < |k.cfg.syms| && k.cfg.S(s).choice.None? && k.cfg.Boolish(s)
    requires k.env.S(s).vis == Some(0)
    ensures TriRule(With(k, u'), s) == TriRule(k, s)
  {
    SymKnown(k, s);
    assert BoolOnlySymbol(k.cfg, s);
    DefaultsReproduced(k, u', s, false);
    DepsReproduced(k, u', s);
  }

  // An assigned symbol: the user value wins up to selects.
  lemma {:induction false} KeptReproduced(k: View, u': Users, s: nat)
    requires Setting(k, u') && s < |k.cfg.syms| && k.cfg.S(s).choice.None? && k.cfg.Boolish(s)
    requires k.env.S(s).vis != Some(0) && k.env.S(s).str.Some? && u'.val[s] == Parsed(k.cfg, s, Word(k.env.S(s).str.value))
    ensures TriRule(With(k, u'), s) == TriRule(k, s)
  {
    SymKnown(k, s);
    assert BoolOnlySymbol(k.cfg, s);
    DepsReproduced(k, u', s);
  }

  // Everything an omitted symbol's value is compared with is defined.
  lemma {:induction false} OmittedDefaults(k: View, s: nat)
    requires Evaluable(k.cfg) && Solution(k) && s < |k.cfg.syms| && k.cfg.S(s).choice.None? && k.cfg.Boolish(s)
    ensures k.FromDefaults(s, true).Some? && k.Eval(k.cfg.S(s).weakRevDep).Some? && k.Eval(k.cfg.S(s).directDep).Some?
    ensures k.FromDefaults(s, false).Some? && k.FromDefaults(s, false).value.val == k.FromDefaults(s, true).value.val
  {
    ReadsKnown(k, SymTri(s));
    FromDefaultsLeq(k, k, s, true);
    FromDefaultsLeq(k, k, s, false);
    EvalLeq(k, k, k.cfg.S(s).weakRevDep);
    EvalLeq(k, k, k.cfg.S(s).directDep);
  }

  // An omitted symbol: the defaults give what the minimal configuration compared against.
  lemma {:induction false} OmittedReproduced(k: View, u': Users, s: nat)
    requires Setting(k, u') && s < |k.cfg.syms| && k.cfg.S(s).choice.None? && k.cfg.Boolish(s)
    requires k.env.S(s).vis != Some(0) && u'.val[s].None? && Omitted(k, s)
    ensures TriRule(With(k, u'), s) == TriRule(k, s)
  {
    SymKnown(k, s);
    assert BoolOnlySymbol(k.cfg, s);
    VisibleNeedsDeps(k, s);
    DepsReproduced(k, u', s);
    DefaultsReproduced(k, u', s, true);
    OmittedDefaults(k, s);
  }

  lemma {:induction false} PlainTriReproduced(k: View, u': Users, s: nat)
    requires Setting(k, u') && s < |k.cfg.syms| && k.cfg.S(s).choice.None? && k.cfg.Boolish(s)
    ensures TriRule(With(k, u'), s) == TriRule(k, s)
  {
    SymKnown(k, s);
    assert SymbolReproduced(k, u', s);
    if k.env.S(s).vis == Some(0) {
      UnsetReproduced(k, u', s);
    } else if u'.val[s] == Parsed(k.cfg, s, Word(k.env.S(s).str.value)) {
      KeptReproduced(k, u', s);
    } else {
      OmittedReproduced(k, u', s);
    }
  }

  lemma {:induction false} MemberTriReproduced(k: View, u': Users, s: nat, c: nat)
    requires Setting(k, u') && s < |k.cfg.syms| && k.cfg.S(s).choice == Some(c)
    ensures TriRule(With(k, u'), s) == TriRule(k, s)
  {
    assert BoolOnlySymbol(k.cfg, s) && ChoiceSymbolOk(k.cfg, s);
    ChoiceKnown(k, c);
    SymKnown(k, s);
  }

  lemma {:induction false} StrReproduced(k: View, u': Users, s: nat)
    requires Setting(k, u') && s < |k.cfg.syms|
    ensures With(k, u').StrValue(s) == k.StrValue(s)
  {
    assert BoolOnlySymbol(k.cfg, s);
    if !k.cfg.Boolish(s) && k.cfg.S(s).typ != Unknown {
      SymKnown(k, s);
      DefaultStrReproduced(k, u', s);
      RangeReproduced(k, u', s);
      assert SymbolReproduced(k, u', s);
      assert UserOk(k.cfg, k.u, s) && UserOk(k.cfg, u', s);
    }
  }

  // The conditions suffice: the new user choices give every symbol and choice the value it has.
  lemma {:induction false} ReproducedIsEnough(k: View, u': Users)
    requires Setting(k, u')
    ensures Solution(With(k, u')) && Values(k.cfg, u') == k.env
  {
    var k' := With(k, u');
    forall q | InRange(k.cfg, q) ensures Recomputed(k', q) {
      assert Recomputed(k, q);
      match q
      case SymVis(s) =>
        if k.cfg.S(s).choice.Some? { MemberVisReproduced(k, u', s, k.cfg.S(s).choice.value); } else { PlainVisReproduced(k, u', s); }
      case SymTri(s) =>
        if k.cfg.S(s).choice.Some? { MemberTriReproduced(k, u', s, k.cfg.S(s).choice.value); }
        else if k.cfg.Boolish(s) { PlainTriReproduced(k, u', s); }
      case SymStr(s) => StrReproduced(k, u', s);
      case ChoiceVis(c) => ChoiceVisReproduced(k, u', c);
      case ChoiceSel(c) => SelectionReproduced(k, u', c);
    }
    UsersSelectMembers(k.cfg, u');
    ValuesAreTheSolution(k.cfg, u');
  }
}
