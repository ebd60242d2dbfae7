// Two configurations that the loop check accepts and that cannot be evaluated, and what that means:
// values that no sequence of computations ever arrives at.
module MissedLoops {
  import opened Basics
  import opened Model
  import opened Semantics
  import opened Dependencies
  import opened Evaluation
  import opened CacheState
  import opened LoopCheck
  import opened LoopExactness
  import opened LoopFree

  // ---- evaluation as a sequence of computations ----

  // k' knows q in addition to what k knows, as its rule gives it from what k knows.
  ghost predicate Computes(k: View, k': View, q: Quantity) {
    && k'.cfg == k.cfg && k'.u == k.u && RuleDefined(k, q) && EntryFrom(k', k, q)
    && forall q' :: q' != q ==> LeqAt(k, k', q') && LeqAt(k', k, q')
  }

  // Starting from nothing, one value after the other is computed from those before it.
  ghost predicate Evaluates(ks: seq<View>) {
    && ks != [] && (forall q :: !Known(ks[0], q))
    && forall i: nat :: i < |ks| - 1 ==> SomeComputed(ks[i], ks[i + 1])
  }

  ghost predicate SomeComputed(k: View, k': View) { exists q :: Computes(k, k', q) }

  // No evaluation under the user choices u arrives at a value for q.
  ghost predicate NeverComputed(cfg: Config, u: Users, q: Quantity) {
    forall ks: seq<View> :: Evaluates(ks) && ks[0].cfg == cfg && ks[0].u == u ==> !Known(ks[|ks| - 1], q)
  }

  // As long as none of qs is known, none of them can be computed.
  ghost predicate Blocks(cfg: Config, u: Users, qs: set<Quantity>) {
    forall k: View, q :: k.cfg == cfg && k.u == u && Consistent(k) && NoneKnown(k, qs) && q in qs ==> !RuleDefined(k, q)
  }

  predicate NoneKnown(k: View, qs: set<Quantity>) { forall q :: q in qs ==> !Known(k, q) }

  lemma {:induction false} ComputedIsConsistent(k: View, k': View, q: Quantity)
    requires SelectsMembers(k.cfg, k.u) && Consistent(k) && Computes(k, k', q)
    ensures Consistent(k')
  {
    forall q' ensures LeqAt(k, k', q') {
      if q' == q && Known(k, q) {
        assert Recomputed(k, q);
      }
    }
    forall q' | Known(k', q') ensures Recomputed(k', q') {
      RuleLeq(k, k', q');
      if q' == q {
        EntryKnown(k', k, q);
      } else {
        assert LeqAt(k, k', q') && LeqAt(k', k, q');
        assert Recomputed(k, q');
      }
    }
  }

  lemma {:induction false} StillBlocked(cfg: Config, u: Users, qs: set<Quantity>, ks: seq<View>)
    requires SelectsMembers(cfg, u) && Blocks(cfg, u, qs) && Evaluates(ks) && ks[0].cfg == cfg && ks[0].u == u
    ensures
      var k := ks[|ks| - 1];
      k.cfg == cfg && k.u == u && Consistent(k) && NoneKnown(k, qs)
  {
    if |ks| > 1 {
      var n := |ks| - 1;
      var init := ks[..n];
      assert Evaluates(init) by {
        forall i: nat | i < |init| - 1 ensures SomeComputed(init[i], init[i + 1]) {
          assert SomeComputed(ks[i], ks[i + 1]);
        }
      }
      StillBlocked(cfg, u, qs, init);
      assert SomeComputed(ks[n - 1], ks[n - 1 + 1]);
      var q :| Computes(ks[n - 1], ks[n], q);
      ComputedIsConsistent(ks[n - 1], ks[n], q);
      forall q' | q' in qs ensures !Known(ks[n], q') {
        assert LeqAt(ks[n], ks[n - 1], q');
      }
    }
  }

  // What blocks itself is never computed.
  lemma {:induction false} BlockedIsNeverComputed(cfg: Config, u: Users, qs: set<Quantity>, q: Quantity)
    requires SelectsMembers(cfg, u) && Blocks(cfg, u, qs) && q in qs
    ensures NeverComputed(cfg, u, q)
  {
    forall ks: seq<View> | Evaluates(ks) && ks[0].cfg == cfg && ks[0].u == u ensures !Known(ks[|ks| - 1], q) {
      StillBlocked(cfg, u, qs, ks);
    }
  }

  // ---- a symbol of a choice that depends on another one ----

  // A bool choice 'if X' with the symbols A, whose prompt has 'if !B', and B.
  function CrossingConfig(num: Numerals): Config {
    Config([SymDecl("X", Bool, [YES], [], [], NO, NO, YES, None, false),
            SymDecl("A", Bool, [And(Not(Leaf(Sym(2))), InChoice(0))], [], [], NO, NO, InChoice(0), Some(0), false),
            SymDecl("B", Bool, [InChoice(0)], [], [], NO, NO, InChoice(0), Some(0), false)],
           [ChoiceDecl(Bool, [Leaf(Sym(0))], [], [1, 2], false)], Const(0), num)
  }

  // X is set to y.
  const X_IS_Y: Users := Users([Some(UTri(2)), None, None], [None], [None])

  lemma {:induction false} CrossingProperties(num: Numerals)
    ensures Properties(CrossingConfig(num), SymItem(0)) == [YES, NO, NO, YES]
    ensures Properties(CrossingConfig(num), SymItem(1)) == [And(Not(Leaf(Sym(2))), InChoice(0)), NO, NO, InChoice(0)]
    ensures Properties(CrossingConfig(num), SymItem(2)) == [InChoice(0), NO, NO, InChoice(0)]
    ensures Properties(CrossingConfig(num), ChoiceItem(0)) == [Leaf(Sym(0))]
  {
  }

  // The first property mentions whatever one of them mentions.
  lemma {:induction false} FirstMentions(cfg: Config, y: Item, x: Item)
    requires Properties(cfg, y) != [] && forall i :: 0 <= i < |Properties(cfg, y)| ==> ExprItems(Properties(cfg, y)[i]) <= ExprItems(Properties(cfg, y)[0])
    ensures Mentions(cfg, y, x) <==> x in ExprItems(Properties(cfg, y)[0])
  {
  }

  // What the item mentions.
  function CrossingMentioned(y: Item): set<Item> {
    if y == SymItem(0) then {}
    else if y == SymItem(1) then {SymItem(2), ChoiceItem(0)}
    else if y == SymItem(2) then {ChoiceItem(0)}
    else {SymItem(0)}
  }

  lemma {:induction false} CrossingMentions(num: Numerals, x: Item, y: Item)
    requires MISSED.Has(y)
    ensures Mentions(CrossingConfig(num), y, x) <==> x in CrossingMentioned(y)
  {
    CrossingProperties(num);
    assert ExprItems(And(Not(Leaf(Sym(2))), InChoice(0))) == {SymItem(2), ChoiceItem(0)};
    assert ExprItems(NO) == {} && ExprItems(YES) == {} && ExprItems(Leaf(Sym(0))) == {SymItem(0)};
    var ps := Properties(CrossingConfig(num), y);
    assert ps[0] in [YES, And(Not(Leaf(Sym(2))), InChoice(0)), InChoice(0), Leaf(Sym(0))];
    forall i | 0 <= i < |ps| ensures ExprItems(ps[i]) <= ExprItems(ps[0]) {
      assert ps[i] == ps[0] || ps[i] in [NO, YES, InChoice(0)];
    }
    FirstMentions(CrossingConfig(num), y, x);
  }

  lemma {:induction false} CrossingRecorded(x: Item, y: Item)
    requires MISSED.Has(x) && MISSED.Has(y)
    ensures Recorded(MISSED, x, y) <==> x in CrossingMentioned(y)
  {
    var g := MISSED;
    assert g.deps[0] == [ChoiceItem(0)] && g.deps[1] == [] && g.deps[2] == [SymItem(1)] && g.choiceDeps[0] == [SymItem(1), SymItem(2)];
  }

  lemma {:induction false} CrossingGraph(num: Numerals)
    ensures GraphOf(CrossingConfig(num), MISSED)
  {
    var cfg, g := CrossingConfig(num), MISSED;
    forall x, y ensures RecordsMentions(cfg, g, x, y) {
      if g.Has(x) && g.Has(y) {
        CrossingMentions(num, x, y);
        CrossingRecorded(x, y);
      }
    }
  }

  lemma {:induction false} CrossingWellFormed(num: Numerals)
    ensures WellFormed(CrossingConfig(num))
  {
    var cfg := CrossingConfig(num);
    CrossingProperties(num);
    assert ChoiceItem(0) in ExprItems(Properties(cfg, SymItem(1))[0]) && ChoiceItem(0) in ExprItems(Properties(cfg, SymItem(2))[0]);
    forall s: nat ensures ChoiceSymbolOk(cfg, s) && SelectsOk(cfg, s) {
    }
  }

  // While X is y and the choice is consulted, its visibility and mode are y.
  lemma {:induction false} CrossingMode(k: View)
    requires k.cfg == CrossingConfig(k.cfg.num) && k.u == X_IS_Y && Consistent(k) && k.env.C(0).vis.Some?
    ensures k.Mode(0) == Some(2)
  {
    assert Known(k, ChoiceVis(0)) && Recomputed(k, ChoiceVis(0));
    assert k.Eval(Leaf(Sym(0))) == k.env.S(0).tri;
    assert k.ChoiceVisibility(0).Some? ==> k.MaxEval([Leaf(Sym(0))], 1).Some?;
    assert Known(k, SymTri(0)) && Recomputed(k, SymTri(0));
    assert Known(k, SymVis(0)) && Recomputed(k, SymVis(0));
    assert k.Eval(YES) == Some(2) && k.Eval(NO) == Some(0);
    assert k.env.S(0).vis == Some(2) && k.env.S(0).tri == Some(2);
  }

  lemma {:induction false} CrossingBlocksOne(k: View, q: Quantity)
    requires k.cfg == CrossingConfig(k.cfg.num) && k.u == X_IS_Y && Consistent(k)
    requires NoneKnown(k, {SymVis(1), ChoiceSel(0), SymTri(2)}) && q in {SymVis(1), ChoiceSel(0), SymTri(2)}
    ensures !RuleDefined(k, q)
  {
    assert !Known(k, SymVis(1)) && !Known(k, ChoiceSel(0)) && !Known(k, SymTri(2));
    if k.env.C(0).vis.Some? {
      CrossingMode(k);
    }
    match q
    case SymVis(_) =>
      assert k.Eval(Leaf(Sym(2))).None?;
      assert k.Eval(And(Not(Leaf(Sym(2))), InChoice(0))).None?;
      assert k.MaxEval(k.cfg.S(1).prompts, 1).None?;
    case ChoiceSel(_) =>
      assert k.FirstVisible([1, 2], 0).None?;
    case SymTri(_) =>
      if k.env.S(2).vis.Some? {
        assert Known(k, SymVis(2)) && Recomputed(k, SymVis(2));
        assert k.Eval(InChoice(0)) == k.Mode(0);
        assert k.Visibility(2) == k.Mode(0);
      }
  }

  lemma {:induction false} CrossingBlocks(num: Numerals)
    ensures Blocks(CrossingConfig(num), X_IS_Y, {SymVis(1), ChoiceSel(0), SymTri(2)})
  {
    var cfg := CrossingConfig(num);
    var qs := {SymVis(1), ChoiceSel(0), SymTri(2)};
    forall k: View, q | k.cfg == cfg && k.u == X_IS_Y && Consistent(k) && NoneKnown(k, qs) && q in qs ensures !RuleDefined(k, q) {
      CrossingBlocksOne(k, q);
    }
  }

  lemma {:induction false} CrossingUsers(num: Numerals)
    ensures SelectsMembers(CrossingConfig(num), X_IS_Y)
  {
    forall c: nat ensures MemberSelection(View(CrossingConfig(num), X_IS_Y, Env([], [])), c) {
      assert X_IS_Y.UserSel(c).None?;
    }
  }

  // It is accepted. Once X is y, evaluation never arrives at the visibility of A, the selection or the
  // value of B.
  lemma {:induction false} CrossingNeverEnds(num: Numerals)
    ensures WellFormed(CrossingConfig(num)) && GraphOf(CrossingConfig(num), MISSED) && Check(MISSED).NoLoop?
    ensures NeverComputed(CrossingConfig(num), X_IS_Y, SymVis(1))
    ensures NeverComputed(CrossingConfig(num), X_IS_Y, ChoiceSel(0))
    ensures NeverComputed(CrossingConfig(num), X_IS_Y, SymTri(2))
  {
    var cfg := CrossingConfig(num);
    var qs := {SymVis(1), ChoiceSel(0), SymTri(2)};
    CrossingGraph(num);
    CrossingWellFormed(num);
    CrossingBlocks(num);
    CrossingUsers(num);
    MissedLoop();
    BlockedIsNeverComputed(cfg, X_IS_Y, qs, SymVis(1));
    BlockedIsNeverComputed(cfg, X_IS_Y, qs, ChoiceSel(0));
    BlockedIsNeverComputed(cfg, X_IS_Y, qs, SymTri(2));
  }

  // A is selected and B is n; or B is selected, and A therefore invisible.
  function CrossingValues(num: Numerals, b: bool): View {
    View(CrossingConfig(num), X_IS_Y,
         Env([SymEnt(Some(2), Some(2), Some("y")),
              SymEnt(Some(if b then 0 else 2), Some(if b then 0 else 2), Some(if b then "n" else "y")),
              SymEnt(Some(2), Some(if b then 2 else 0), Some(if b then "y" else "n"))],
             [ChoiceEnt(Some(2), Some(Some(if b then 2 else 1)))]))
  }

  lemma {:induction false} OnePrompt(k: View, es: seq<Expr>)
    requires |es| == 1
    ensures k.MaxEval(es, 1) == k.Eval(es[0])
  {
    assert k.MaxEval(es, 0) == Some(0);
  }

  lemma {:induction false} CrossingVisible(k: View, b: bool)
    requires k == CrossingValues(k.cfg.num, b)
    ensures k.Mode(0) == Some(2) && k.ChoiceVisibility(0) == Some(2) && k.Selection(0) == k.env.C(0).sel
    ensures k.Visibility(0) == Some(2) && k.Visibility(1) == k.env.S(1).vis && k.Visibility(2) == Some(2)
  {
    assert k.Eval(YES) == Some(2) && k.Eval(Leaf(Sym(0))) == Some(2) && k.Eval(InChoice(0)) == k.Mode(0);
    assert k.Eval(Leaf(Sym(2))) == k.env.S(2).tri;
    assert k.Eval(Not(Leaf(Sym(2)))) == Some(if b then 0 else 2);
    assert k.Eval(And(Not(Leaf(Sym(2))), InChoice(0))) == Some(if b then 0 else 2);
    OnePrompt(k, k.cfg.C(0).prompts);
    forall s: nat | s < 3 ensures k.MaxEval(k.cfg.S(s).prompts, |k.cfg.S(s).prompts|) == k.Eval(k.cfg.S(s).prompts[0]) {
      OnePrompt(k, k.cfg.S(s).prompts);
    }
    assert k.FirstVisible([1, 2], 1) == Some(Some(2));
    assert k.DefaultSelection(0, 0) == k.FirstVisible([1, 2], 0);
  }

  lemma {:induction false} CrossingTri(k: View, b: bool, s: nat)
    requires k == CrossingValues(k.cfg.num, b) && s < 3
    ensures TriRule(k, s) == k.env.S(s).tri
  {
    assert k.Eval(NO) == Some(0);
    if s == 0 {
      assert k.BeforeSelect(0, 2) == Some(Written(2, true));
      assert k.Selected(0, Written(2, true)) == Some(Written(2, true));
    }
  }

  // At X = y the rules do not even determine the values: there are two different solutions.
  lemma {:induction false} CrossingIsAmbiguous(num: Numerals, b: bool)
    ensures Solution(CrossingValues(num, b)) && CrossingValues(num, true) != CrossingValues(num, false)
  {
    var k := CrossingValues(num, b);
    CrossingVisible(k, b);
    assert CrossingValues(num, true).env.syms[1] != CrossingValues(num, false).env.syms[1];
    forall q | InRange(k.cfg, q) ensures Recomputed(k, q) {
      match q
      case SymTri(s) => CrossingTri(k, b, s);
      case _ =>
    }
  }

  // ---- something inside a choice that the choice depends on ----

  // A bool choice 'if B' with the symbol M, and in it, but in a menu of its own, the symbol B.
  function ReturningConfig(num: Numerals): Config {
    Config([SymDecl("M", Bool, [InChoice(0)], [], [], NO, NO, InChoice(0), Some(0), false),
            SymDecl("B", Bool, [InChoice(0)], [], [], NO, NO, InChoice(0), None, false)],
           [ChoiceDecl(Bool, [Leaf(Sym(1))], [], [0], false)], Const(0), num)
  }

  lemma {:induction false} ReturningProperties(num: Numerals)
    ensures Properties(ReturningConfig(num), SymItem(0)) == [InChoice(0), NO, NO, InChoice(0)]
    ensures Properties(ReturningConfig(num), SymItem(1)) == [InChoice(0), NO, NO, InChoice(0)]
    ensures Properties(ReturningConfig(num), ChoiceItem(0)) == [Leaf(Sym(1))]
  {
  }

  // What the item mentions.
  function ReturningMentioned(y: Item): set<Item> { if y.SymItem? then {ChoiceItem(0)} else {SymItem(1)} }

  lemma {:induction false} ReturningMentions(num: Numerals, x: Item, y: Item)
    requires RETURNING.Has(y)
    ensures Mentions(ReturningConfig(num), y, x) <==> x in ReturningMentioned(y)
  {
    ReturningProperties(num);
    assert ExprItems(NO) == {} && ExprItems(Leaf(Sym(1))) == {SymItem(1)};
    FirstMentions(ReturningConfig(num), y, x);
  }

  lemma {:induction false} ReturningRecorded(x: Item, y: Item)
    requires RETURNING.Has(x) && RETURNING.Has(y)
    ensures Recorded(RETURNING, x, y) <==> x in ReturningMentioned(y)
  {
    var g := RETURNING;
    assert g.deps[0] == [] && g.deps[1] == [ChoiceItem(0)] && g.choiceDeps[0] == [SymItem(0), SymItem(1)];
  }

  lemma {:induction false} ReturningGraph(num: Numerals)
    ensures GraphOf(ReturningConfig(num), RETURNING)
  {
    var cfg, g := ReturningConfig(num), RETURNING;
    forall x, y ensures RecordsMentions(cfg, g, x, y) {
      if g.Has(x) && g.Has(y) {
        ReturningMentions(num, x, y);
        ReturningRecorded(x, y);
      }
    }
  }

  lemma {:induction false} ReturningWellFormed(num: Numerals)
    ensures WellFormed(ReturningConfig(num))
  {
    var cfg := ReturningConfig(num);
    ReturningProperties(num);
    assert ChoiceItem(0) in ExprItems(Properties(cfg, SymItem(0))[0]);
    forall s: nat ensures ChoiceSymbolOk(cfg, s) && SelectsOk(cfg, s) {
    }
  }

  lemma {:induction false} ReturningBlocks(num: Numerals, u: Users)
    ensures Blocks(ReturningConfig(num), u, {SymVis(1), SymTri(1), ChoiceVis(0)})
  {
    var cfg := ReturningConfig(num);
    var qs := {SymVis(1), SymTri(1), ChoiceVis(0)};
    forall k: View, q | k.cfg == cfg && k.u == u && Consistent(k) && NoneKnown(k, qs) && q in qs ensures !RuleDefined(k, q) {
      assert !Known(k, SymVis(1)) && !Known(k, SymTri(1)) && !Known(k, ChoiceVis(0));
      assert k.Eval(InChoice(0)).None? && k.Eval(Leaf(Sym(1))).None?;
      assert k.MaxEval(cfg.S(1).prompts, 1).None? && k.MaxEval(cfg.C(0).prompts, 1).None?;
    }
  }

  // It is accepted, and no symbol of the choice leads to another. Whatever the user choices are,
  // evaluation never arrives at the visibility or the value of B, or the visibility of the choice.
  lemma {:induction false} ReturningNeverEnds(num: Numerals, u: Users)
    requires SelectsMembers(ReturningConfig(num), u)
    ensures WellFormed(ReturningConfig(num)) && GraphOf(ReturningConfig(num), RETURNING)
    ensures Check(RETURNING).NoLoop? && NoCrossing(RETURNING)
    ensures NeverComputed(ReturningConfig(num), u, SymVis(1))
    ensures NeverComputed(ReturningConfig(num), u, SymTri(1))
    ensures NeverComputed(ReturningConfig(num), u, ChoiceVis(0))
  {
    var cfg := ReturningConfig(num);
    var qs := {SymVis(1), SymTri(1), ChoiceVis(0)};
    ReturningGraph(num);
    ReturningWellFormed(num);
    ReturningBlocks(num, u);
    ReturningLoop();
    BlockedIsNeverComputed(cfg, u, qs, SymVis(1));
    BlockedIsNeverComputed(cfg, u, qs, SymTri(1));
    BlockedIsNeverComputed(cfg, u, qs, ChoiceVis(0));
  }
}
