// Accepted configurations evaluate: without dependency loops the mutual recursion of visibility,
// value, selection and type ends on every symbol and choice.
module LoopFree {
  import opened Basics
  import opened Model
  import opened Dependencies
  import opened Evaluation
  import opened CacheState
  import opened LoopCheck
  import opened LoopExactness

  // g holds what _build_dep() records for cfg.
  ghost predicate GraphOf(cfg: Config, g: Graph) {
    && g.Proper() && |g.deps| == |cfg.syms| && |g.members| == |cfg.choices|
    && (forall x, y :: RecordsMentions(cfg, g, x, y))
    && (forall s: nat :: s < |cfg.syms| ==> g.choiceOf[s] == cfg.S(s).choice)
    && (forall c: nat :: c < |cfg.choices| ==> g.members[c] == cfg.C(c).members)
  }

  ghost predicate RecordsMentions(cfg: Config, g: Graph, x: Item, y: Item) {
    g.Has(x) && g.Has(y) ==> (Recorded(g, x, y) <==> Mentions(cfg, y, x))
  }

  // Expressions refer to existing symbols and choices.
  ghost predicate RefsExist(cfg: Config) { forall q {:trigger Reads(cfg, q)} :: InRange(cfg, q) ==> forall q' :: q' in Reads(cfg, q) ==> InRange(cfg, q') }

  predicate TristateItem(cfg: Config, x: Item) {
    match x
    case SymItem(s) => cfg.S(s).typ == Tristate
    case ChoiceItem(c) => cfg.C(c).typ == Tristate
  }

  // MODULES, if it is a symbol, does not depend on anything tristate.
  ghost predicate UnderModules(cfg: Config, g: Graph, x: Item) {
    cfg.modules.Sym? && (Same(g, x, SymItem(cfg.modules.id)) || Reaches(g, x, SymItem(cfg.modules.id)))
  }

  ghost predicate ModulesFirst(cfg: Config, g: Graph) { forall x :: TristateItem(cfg, x) ==> !UnderModules(cfg, g, x) }

  // ---- the layers inside a class ----

  function Layer(q: Quantity): nat {
    match q
    case ChoiceVis(_) => 0
    case SymVis(_) => 1
    case ChoiceSel(_) => 2
    case SymTri(_) => 3
    case SymStr(_) => 4
  }

  // The item that q is ranked with: the selection of a choice goes with the symbols of the choice.
  function Home(g: Graph, q: Quantity): Item {
    if q.ChoiceSel? && q.c < |g.members| && g.members[q.c] != [] then SymItem(g.members[q.c][0]) else Of(q)
  }

  // Why the rule of q may read q': the item of q mentions that of q'; or q' is a lower layer of the
  // same class; or q' is the visibility of a choice that the item of q mentions, or of which q is the
  // selection; or q' is MODULES.
  ghost predicate ReadBecause(cfg: Config, g: Graph, q: Quantity, q': Quantity) {
    || (Of(q').SymItem? && Mentions(cfg, Of(q), Of(q')))
    || (Same(g, Home(g, q), Home(g, q')) && Layer(q') < Layer(q))
    || (q'.ChoiceVis? && (Mentions(cfg, Of(q), Of(q')) || q == ChoiceSel(q'.c)))
    || (IsModules(cfg, Of(q')) && exists z :: TristateItem(cfg, z) && (Of(q) == z || (z.ChoiceItem? && Mentions(cfg, Of(q), z))))
  }

  // What an expression may read: values of symbols in it, the visibility of a choice in it, and
  // MODULES if such a choice is tristate.
  lemma ExprReadBecause(cfg: Config, e: Expr, q': Quantity)
    requires q' in ExprRefs(cfg, e)
    ensures
      || (Of(q').SymItem? && Of(q') in ExprItems(e))
      || (q'.ChoiceVis? && Of(q') in ExprItems(e))
      || (IsModules(cfg, Of(q')) && exists c: nat :: ChoiceItem(c) in ExprItems(e) && cfg.C(c).typ == Tristate)
  {
  }

  lemma {:induction false} ExprsReadBecause(cfg: Config, y: Item, es: seq<Expr>, k: nat, q': Quantity)
    requires q' in ExprsRefs(cfg, es) && Within(cfg, y, es, k)
    ensures
      || (Of(q').SymItem? && Mentions(cfg, y, Of(q')))
      || (q'.ChoiceVis? && Mentions(cfg, y, Of(q')))
      || (IsModules(cfg, Of(q')) && exists c: nat :: Mentions(cfg, y, ChoiceItem(c)) && cfg.C(c).typ == Tristate)
  {
    var n := |es| - 1;
    if q' in ExprRefs(cfg, es[n]) {
      ExprReadBecause(cfg, es[n], q');
      assert Properties(cfg, y)[k..k + |es|][n] == Properties(cfg, y)[k + n];
    } else {
      assert Properties(cfg, y)[k..k + n] == es[..n] by {
        assert Properties(cfg, y)[k..k + |es|][..n] == Properties(cfg, y)[k..k + n];
      }
      ExprsReadBecause(cfg, y, es[..n], k, q');
    }
  }

  lemma {:induction false} BlockReadBecause(cfg: Config, g: Graph, q: Quantity, es: seq<Expr>, q': Quantity)
    requires q' in ExprsRefs(cfg, es) && HasBlock(cfg, Of(q), es)
    ensures ReadBecause(cfg, g, q, q')
  {
    var k: nat :| Within(cfg, Of(q), es, k);
    ExprsReadBecause(cfg, Of(q), es, k, q');
    if IsModules(cfg, Of(q')) && !Mentions(cfg, Of(q), Of(q')) {
      var c: nat :| Mentions(cfg, Of(q), ChoiceItem(c)) && cfg.C(c).typ == Tristate;
      assert TristateItem(cfg, ChoiceItem(c));
    }
  }

  lemma {:induction false} OperandReadBecause(cfg: Config, g: Graph, q: Quantity, os: seq<Operand>, es: seq<Expr>, q': Quantity)
    requires q' in OperandRefs(cfg, os) && |es| == |os| && HasBlock(cfg, Of(q), es)
    requires forall i :: 0 <= i < |os| && os[i].Sym? ==> es[i] == Leaf(os[i])
    ensures ReadBecause(cfg, g, q, q')
  {
    var i :| 0 <= i < |os| && os[i].Sym? && q' == SymStr(os[i].id);
    var k: nat :| Within(cfg, Of(q), es, k);
    assert Properties(cfg, Of(q))[k..k + |es|][i] == Properties(cfg, Of(q))[k + i];
    assert Of(q') in ExprItems(es[i]);
  }

  // The mode of the symbol's own choice, and its type.
  lemma {:induction false} TypeReadBecause(cfg: Config, g: Graph, q: Quantity, s: nat, q': Quantity)
    requires WellFormed(cfg) && s < |cfg.syms| && Of(q) == SymItem(s) && q' in SymTypeRefs(cfg, s) + ModeOfChoiceRefs(cfg, s)
    ensures ReadBecause(cfg, g, q, q')
  {
    assert ChoiceSymbolOk(cfg, s);
    if !q'.ChoiceVis? {
      if cfg.S(s).typ == Tristate {
        assert TristateItem(cfg, SymItem(s));
      } else {
        assert TristateItem(cfg, ChoiceItem(cfg.S(s).choice.value));
      }
    }
  }

  lemma {:induction false} VisReadBecause(cfg: Config, g: Graph, s: nat, q': Quantity)
    requires WellFormed(cfg) && s < |cfg.syms| && q' in Reads(cfg, SymVis(s))
    ensures ReadBecause(cfg, g, SymVis(s), q')
  {
    SymbolBlocks(cfg, s);
    if q' in ExprsRefs(cfg, cfg.S(s).prompts) {
      BlockReadBecause(cfg, g, SymVis(s), cfg.S(s).prompts, q');
    } else {
      TypeReadBecause(cfg, g, SymVis(s), s, q');
    }
  }

  lemma {:induction false} TriReadOfMember(cfg: Config, g: Graph, s: nat, q': Quantity)
    requires GraphOf(cfg, g) && s < |cfg.syms| && cfg.S(s).choice.Some? && q' in Reads(cfg, SymTri(s))
    ensures ReadBecause(cfg, g, SymTri(s), q')
  {
    if q'.ChoiceSel? {
      var c := cfg.S(s).choice.value;
      assert s in g.members[c] && g.choiceOf[g.members[c][0]] == Some(c);
    }
  }

  lemma {:induction false} TriReadBecause(cfg: Config, g: Graph, s: nat, q': Quantity)
    requires GraphOf(cfg, g) && WellFormed(cfg) && s < |cfg.syms| && q' in Reads(cfg, SymTri(s))
    ensures ReadBecause(cfg, g, SymTri(s), q')
  {
    var d := cfg.S(s);
    var q := SymTri(s);
    SymbolBlocks(cfg, s);
    SingleRefs(cfg, d.revDep);
    SingleRefs(cfg, d.weakRevDep);
    SingleRefs(cfg, d.directDep);
    if d.choice.Some? {
      TriReadOfMember(cfg, g, s, q');
    } else if q' == SymVis(s) {
    } else if q' in SymTypeRefs(cfg, s) {
      TypeReadBecause(cfg, g, q, s, q');
    } else if q' in ExprsRefs(cfg, DefaultConds(d.defaults)) {
      BlockReadBecause(cfg, g, q, DefaultConds(d.defaults), q');
    } else if q' in ExprsRefs(cfg, DefaultValues(d.defaults)) {
      BlockReadBecause(cfg, g, q, DefaultValues(d.defaults), q');
    } else if q' in ExprRefs(cfg, d.revDep) {
      BlockReadBecause(cfg, g, q, [d.revDep], q');
    } else if q' in ExprRefs(cfg, d.weakRevDep) {
      BlockReadBecause(cfg, g, q, [d.weakRevDep], q');
    } else {
      BlockReadBecause(cfg, g, q, [d.directDep], q');
    }
  }

  lemma {:induction false} RangeReadBecause(cfg: Config, g: Graph, s: nat, q': Quantity)
    requires q' in ExprsRefs(cfg, RangeConds(cfg.S(s).ranges)) + OperandRefs(cfg, Lows(cfg.S(s).ranges)) + OperandRefs(cfg, Highs(cfg.S(s).ranges))
    ensures ReadBecause(cfg, g, SymStr(s), q')
  {
    var rs := cfg.S(s).ranges;
    var q := SymStr(s);
    SymbolBlocks(cfg, s);
    if q' in ExprsRefs(cfg, RangeConds(rs)) {
      BlockReadBecause(cfg, g, q, RangeConds(rs), q');
    } else if q' in OperandRefs(cfg, Lows(rs)) {
      OperandReadBecause(cfg, g, q, Lows(rs), Leaves(Lows(rs)), q');
    } else {
      OperandReadBecause(cfg, g, q, Highs(rs), Leaves(Highs(rs)), q');
    }
  }

  lemma {:induction false} StrReadBecause(cfg: Config, g: Graph, s: nat, q': Quantity)
    requires s < |cfg.syms| && q' in Reads(cfg, SymStr(s))
    ensures ReadBecause(cfg, g, SymStr(s), q')
  {
    var d := cfg.S(s);
    var q := SymStr(s);
    if q' == SymTri(s) || q' == SymVis(s) {
    } else if q' in ExprsRefs(cfg, DefaultConds(d.defaults)) {
      SymbolBlocks(cfg, s);
      BlockReadBecause(cfg, g, q, DefaultConds(d.defaults), q');
    } else if q' in OperandRefs(cfg, DefaultOperands(d.defaults)) {
      SymbolBlocks(cfg, s);
      OperandReadBecause(cfg, g, q, DefaultOperands(d.defaults), DefaultValues(d.defaults), q');
    } else {
      RangeReadBecause(cfg, g, s, q');
    }
  }

  lemma {:induction false} ChoiceReadBecause(cfg: Config, g: Graph, c: nat, q: Quantity, q': Quantity)
    requires GraphOf(cfg, g) && WellFormed(cfg) && c < |cfg.choices| && (q == ChoiceVis(c) || q == ChoiceSel(c)) && q' in Reads(cfg, q)
    ensures ReadBecause(cfg, g, q, q')
  {
    var d := cfg.C(c);
    assert ChoiceDefaultsOk(cfg, c);
    ChoiceBlocks(cfg, c);
    if q == ChoiceVis(c) && q' in ExprsRefs(cfg, d.prompts) {
      BlockReadBecause(cfg, g, q, d.prompts, q');
    } else if q == ChoiceSel(c) && q' in ExprsRefs(cfg, ChoiceConds(d.defaults)) {
      BlockReadBecause(cfg, g, q, ChoiceConds(d.defaults), q');
    } else if q' in ChoiceTypeRefs(cfg, c) {
      assert TristateItem(cfg, ChoiceItem(c));
    } else if q'.SymVis? {
      var i :| 0 <= i < |d.members| && d.members[i] == q'.s;
      assert g.choiceOf[g.members[c][i]] == Some(c) && g.choiceOf[g.members[c][0]] == Some(c);
    }
  }

  lemma {:induction false} EveryReadBecause(cfg: Config, g: Graph, q: Quantity, q': Quantity)
    requires GraphOf(cfg, g) && WellFormed(cfg) && InRange(cfg, q) && q' in Reads(cfg, q)
    ensures ReadBecause(cfg, g, q, q')
  {
    match q
    case SymVis(s) => VisReadBecause(cfg, g, s, q');
    case SymTri(s) => TriReadBecause(cfg, g, s, q');
    case SymStr(s) => StrReadBecause(cfg, g, s, q');
    case ChoiceVis(c) => ChoiceReadBecause(cfg, g, c, q, q');
    case ChoiceSel(c) => ChoiceReadBecause(cfg, g, c, q, q');
  }

  // ---- the rank ----

  ghost function Before(g: Graph, x: Item): set<Item> { set z | z in g.Items() && Reaches(g, z, x) }

  // How many items come before x, MODULES and what it depends on first.
  ghost function Height(cfg: Config, g: Graph, x: Item): nat {
    |Before(g, x)| + if UnderModules(cfg, g, x) then 0 else |g.Items()| + 1
  }

  ghost function RankOf(cfg: Config, g: Graph, q: Quantity): nat { 5 * Height(cfg, g, Home(g, q)) + Layer(q) }

  lemma {:induction false} SameHeight(cfg: Config, g: Graph, x: Item, y: Item)
    requires Same(g, x, y)
    ensures Height(cfg, g, x) == Height(cfg, g, y)
  {
    forall z ensures Reaches(g, z, x) <==> Reaches(g, z, y) {
      if Reaches(g, z, x) { ReachesSame(g, z, z, x, y); }
      if Reaches(g, z, y) { ReachesSame(g, z, z, y, x); }
    }
    assert Before(g, x) == Before(g, y);
    if cfg.modules.Sym? {
      var m := SymItem(cfg.modules.id);
      if Reaches(g, x, m) { ReachesSame(g, x, y, m, m); }
      if Reaches(g, y, m) { ReachesSame(g, y, x, m, m); }
    }
  }

  lemma {:induction false} MoreBefore(g: Graph, x: Item, y: Item)
    requires Acyclic(g) && g.Has(x) && Reaches(g, x, y)
    ensures |Before(g, x)| < |Before(g, y)|
  {
    forall z | z in Before(g, x) ensures z in Before(g, y) {
      ReachesTrans(g, z, x, y);
    }
    assert x in Before(g, y) && x !in Before(g, x);
    SubsetSize(Before(g, x), Before(g, y) - {x});
  }

  lemma {:induction false} BeforeModules(cfg: Config, g: Graph, x: Item, y: Item)
    requires Reaches(g, x, y) && UnderModules(cfg, g, y)
    ensures UnderModules(cfg, g, x)
  {
    var m := SymItem(cfg.modules.id);
    if Same(g, y, m) { ReachesSame(g, x, x, y, m); } else { ReachesTrans(g, x, y, m); }
  }

  lemma {:induction false} StepIsHigher(cfg: Config, g: Graph, x: Item, y: Item)
    requires Acyclic(g) && g.Has(x) && Reaches(g, x, y)
    ensures Height(cfg, g, x) < Height(cfg, g, y)
  {
    MoreBefore(g, x, y);
    if UnderModules(cfg, g, y) {
      BeforeModules(cfg, g, x, y);
    }
  }

  lemma {:induction false} HeightBound(cfg: Config, g: Graph, x: Item)
    ensures Height(cfg, g, x) <= 2 * |g.Items()| + 1
  {
    SubsetSize(Before(g, x), g.Items());
  }

  // What depends on something tristate is ranked above MODULES.
  lemma {:induction false} ModulesAreLower(cfg: Config, g: Graph, m: Item, z: Item, y: Item)
    requires ModulesFirst(cfg, g) && IsModules(cfg, m) && TristateItem(cfg, z) && (z == y || Reaches(g, z, y))
    ensures Height(cfg, g, m) < Height(cfg, g, y)
  {
    SubsetSize(Before(g, m), g.Items());
    if UnderModules(cfg, g, y) && z != y {
      BeforeModules(cfg, g, z, y);
    }
  }

  // No dependency loops, with everything that the loop check does not look at.
  ghost predicate LoopFreeConfig(cfg: Config, g: Graph) {
    GraphOf(cfg, g) && WellFormed(cfg) && RefsExist(cfg) && ModulesFirst(cfg, g) && Acyclic(g)
  }

  lemma {:induction false} MentionIsHigher(cfg: Config, g: Graph, x: Item, y: Item)
    requires LoopFreeConfig(cfg, g) && g.Has(x) && g.Has(y) && Mentions(cfg, y, x)
    ensures Reaches(g, x, y) && Height(cfg, g, x) < Height(cfg, g, y)
  {
    assert RecordsMentions(cfg, g, x, y);
    StepReaches(g, x, y);
    StepIsHigher(cfg, g, x, y);
  }

  // The selection is ranked above the choice itself.
  lemma {:induction false} HomeIsHigher(cfg: Config, g: Graph, q: Quantity)
    requires LoopFreeConfig(cfg, g) && InRange(cfg, q)
    ensures Home(g, q) == Of(q) || Height(cfg, g, Of(q)) < Height(cfg, g, Home(g, q))
  {
    if Home(g, q) != Of(q) {
      var x, y := Of(q), Home(g, q);
      assert Owner(g, y, x);
      MemberIsRecorded(g, y, x);
      StepReaches(g, x, y);
      StepIsHigher(cfg, g, x, y);
    }
  }

  lemma {:induction false} HasItem(cfg: Config, g: Graph, q: Quantity)
    requires GraphOf(cfg, g) && InRange(cfg, q)
    ensures g.Has(Of(q))
  {
  }

  lemma {:induction false} ModulesReadIsLower(cfg: Config, g: Graph, q: Quantity, q': Quantity, z: Item)
    requires LoopFreeConfig(cfg, g) && InRange(cfg, q) && InRange(cfg, q') && IsModules(cfg, Of(q'))
    requires TristateItem(cfg, z) && (Of(q) == z || (z.ChoiceItem? && z.c < |cfg.choices| && Mentions(cfg, Of(q), z)))
    ensures RankOf(cfg, g, q') < RankOf(cfg, g, q)
  {
    HasItem(cfg, g, q);
    if Of(q) != z {
      MentionIsHigher(cfg, g, z, Of(q));
    }
    ModulesAreLower(cfg, g, Of(q'), z, Of(q));
    HomeIsHigher(cfg, g, q);
  }

  lemma {:induction false} ReadIsLower(cfg: Config, g: Graph, q: Quantity, q': Quantity)
    requires LoopFreeConfig(cfg, g) && InRange(cfg, q) && q' in Reads(cfg, q)
    ensures RankOf(cfg, g, q') < RankOf(cfg, g, q)
  {
    EveryReadBecause(cfg, g, q, q');
    assert InRange(cfg, q');
    HasItem(cfg, g, q);
    HasItem(cfg, g, q');
    HomeIsHigher(cfg, g, q);
    if (Of(q').SymItem? || q'.ChoiceVis?) && Mentions(cfg, Of(q), Of(q')) {
      MentionIsHigher(cfg, g, Of(q'), Of(q));
    } else if Same(g, Home(g, q), Home(g, q')) && Layer(q') < Layer(q) {
      SameHeight(cfg, g, Home(g, q), Home(g, q'));
    } else if IsModules(cfg, Of(q')) {
      var z :| TristateItem(cfg, z) && (Of(q) == z || (z.ChoiceItem? && Mentions(cfg, Of(q), z)));
      ModulesReadIsLower(cfg, g, q, q', z);
    }
  }

  // Without dependency loops every value can be computed.
  lemma {:induction false} LoopFreeEvaluates(cfg: Config, g: Graph)
    requires LoopFreeConfig(cfg, g)
    ensures Evaluable(cfg)
  {
    var r := Ranking(q => RankOf(cfg, g, q), 10 * |g.Items()| + 10);
    forall q ensures ReadsLower(cfg, r, q) {
      HeightBound(cfg, g, Home(g, q));
      if InRange(cfg, q) {
        forall q' | q' in Reads(cfg, q) ensures InRange(cfg, q') && r.of(q') < r.of(q) {
          ReadIsLower(cfg, g, q, q');
        }
      }
    }
    assert Ranks(cfg, r);
  }

  // So a configuration that the loop check accepts evaluates, unless a symbol of a choice leads to
  // another symbol of the same choice, or something else inside a choice leads back to the choice.
  lemma {:induction false} AcceptedEvaluates(cfg: Config, g: Graph)
    requires GraphOf(cfg, g) && WellFormed(cfg) && RefsExist(cfg) && ModulesFirst(cfg, g)
    requires Check(g).NoLoop? && NoCrossing(g) && NoReturn(g)
    ensures Evaluable(cfg)
  {
    AcceptanceIsExact(g);
    LoopFreeEvaluates(cfg, g);
  }
}
