// The caches as a value, what it means for them to be correct, and why clearing the items found by
// the dependency walk keeps them correct.
module CacheState {
  import opened Basics
  import opened Model
  import opened Dependencies
  import opened Evaluation

  // ---- the dependency graph built by _build_dep() and _add_choice_deps() ----

  datatype Item = SymItem(s: nat) | ChoiceItem(c: nat)

  function OperandItems(o: Operand): set<Item> { if o.Sym? then {SymItem(o.id)} else {} }

  function ExprItems(e: Expr): set<Item> {
    match e
    case Leaf(o) => OperandItems(o)
    case InChoice(c) => {ChoiceItem(c)}
    case And(l, r) => ExprItems(l) + ExprItems(r)
    case Or(l, r) => ExprItems(l) + ExprItems(r)
    case Not(x) => ExprItems(x)
    case Compare(_, l, r) => OperandItems(l) + OperandItems(r)
  }

  // Every expression that _build_dep() looks at for an item.
  function Properties(cfg: Config, y: Item): seq<Expr> {
    match y
    case SymItem(s) =>
      var d := cfg.S(s);
      d.prompts + DefaultValues(d.defaults) + DefaultConds(d.defaults) + [d.revDep, d.weakRevDep] +
      Leaves(Lows(d.ranges)) + Leaves(Highs(d.ranges)) + RangeConds(d.ranges) + [d.directDep]
    case ChoiceItem(c) => cfg.C(c).prompts + ChoiceConds(cfg.C(c).defaults)
  }

  function Leaves(os: seq<Operand>): seq<Expr> { seq(|os|, i requires 0 <= i < |os| => Leaf(os[i])) }

  ghost predicate Mentions(cfg: Config, y: Item, x: Item) {
    exists i :: 0 <= i < |Properties(cfg, y)| && x in ExprItems(Properties(cfg, y)[i])
  }

  // y is in x._dependents.
  ghost predicate DependsOn(cfg: Config, y: Item, x: Item) {
    Mentions(cfg, y, x) || (y.ChoiceItem? && x.SymItem? && x.s in cfg.C(y.c).members)
  }

  // A choice symbol mentions its choice (true as soon as one of its prompts lies inside the
  // choice), and the defaults of a choice are among its symbols: the source warns otherwise. The
  // symbols in select and imply conditions exist.
  ghost predicate WellFormed(cfg: Config) {
    && (forall s: nat :: ChoiceSymbolOk(cfg, s) && SelectsOk(cfg, s))
    && (forall c: nat :: ChoiceDefaultsOk(cfg, c) && MembersOk(cfg, c))
  }

  ghost predicate ChoiceSymbolOk(cfg: Config, s: nat) {
    s < |cfg.syms| && cfg.syms[s].choice.Some? ==>
      var c := cfg.syms[s].choice.value;
      c < |cfg.choices| && s in cfg.C(c).members && Mentions(cfg, SymItem(s), ChoiceItem(c))
  }

  ghost predicate SelectsOk(cfg: Config, s: nat) {
    forall q :: q in ExprRefs(cfg, cfg.S(s).revDep) + ExprRefs(cfg, cfg.S(s).weakRevDep) ==> InRange(cfg, q)
  }

  predicate ChoiceDefaultsOk(cfg: Config, c: nat) {
    forall i :: 0 <= i < |cfg.C(c).defaults| ==> cfg.C(c).defaults[i].sym in cfg.C(c).members
  }

  predicate MembersOk(cfg: Config, c: nat) {
    forall i :: 0 <= i < |cfg.C(c).members| ==>
      cfg.C(c).members[i] < |cfg.syms| && cfg.syms[cfg.C(c).members[i]].choice == Some(c)
  }

  function Of(q: Quantity): Item {
    match q
    case SymVis(s) => SymItem(s)
    case SymTri(s) => SymItem(s)
    case SymStr(s) => SymItem(s)
    case ChoiceVis(c) => ChoiceItem(c)
    case ChoiceSel(c) => ChoiceItem(c)
  }

  // ---- every read is a recorded dependency ----

  predicate IsModules(cfg: Config, x: Item) { cfg.modules.Sym? && x == SymItem(cfg.modules.id) }

  lemma ExprReadsMentioned(cfg: Config, e: Expr, q: Quantity)
    requires q in ExprRefs(cfg, e)
    ensures Of(q) in ExprItems(e) || IsModules(cfg, Of(q))
  {
  }

  lemma {:induction false} ExprsReadsMentioned(cfg: Config, es: seq<Expr>, q: Quantity) returns (i: nat)
    requires q in ExprsRefs(cfg, es)
    ensures i < |es| && (Of(q) in ExprItems(es[i]) || IsModules(cfg, Of(q)))
  {
    if q in ExprRefs(cfg, es[|es| - 1]) {
      i := |es| - 1;
      ExprReadsMentioned(cfg, es[i], q);
    } else {
      i := ExprsReadsMentioned(cfg, es[..|es| - 1], q);
    }
  }

  // The properties of y contain es from index k on.
  predicate Within(cfg: Config, y: Item, es: seq<Expr>, k: nat) {
    k + |es| <= |Properties(cfg, y)| && Properties(cfg, y)[k..k + |es|] == es
  }

  lemma {:induction false} WithinMentions(cfg: Config, y: Item, es: seq<Expr>, k: nat, q: Quantity)
    requires Within(cfg, y, es, k) && q in ExprsRefs(cfg, es)
    ensures Mentions(cfg, y, Of(q)) || IsModules(cfg, Of(q))
  {
    var i := ExprsReadsMentioned(cfg, es, q);
    assert Properties(cfg, y)[k..k + |es|][i] == Properties(cfg, y)[k + i];
  }

  ghost predicate HasBlock(cfg: Config, y: Item, es: seq<Expr>) { exists k: nat :: Within(cfg, y, es, k) }

  lemma {:induction false} SymbolProperties(cfg: Config, s: nat)
    ensures
      var d := cfg.S(s);
      var y := SymItem(s);
      var n := |d.defaults|;
      var p := |d.prompts|;
      var m := |d.ranges|;
      && Within(cfg, y, d.prompts, 0)
      && Within(cfg, y, DefaultValues(d.defaults), p)
      && Within(cfg, y, DefaultConds(d.defaults), p + n)
      && Within(cfg, y, [d.revDep], p + n + n)
      && Within(cfg, y, [d.weakRevDep], p + n + n + 1)
      && Within(cfg, y, Leaves(Lows(d.ranges)), p + n + n + 2)
      && Within(cfg, y, Leaves(Highs(d.ranges)), p + n + n + 2 + m)
      && Within(cfg, y, RangeConds(d.ranges), p + n + n + 2 + m + m)
      && Within(cfg, y, [d.directDep], p + n + n + 2 + m + m + m)
  {
  }

  // The blocks of expressions that make up the properties.
  lemma {:induction false} SymbolBlocks(cfg: Config, s: nat)
    ensures
      var d := cfg.S(s);
      && HasBlock(cfg, SymItem(s), d.prompts)
      && HasBlock(cfg, SymItem(s), DefaultValues(d.defaults)) && HasBlock(cfg, SymItem(s), DefaultConds(d.defaults))
      && HasBlock(cfg, SymItem(s), [d.revDep]) && HasBlock(cfg, SymItem(s), [d.weakRevDep]) && HasBlock(cfg, SymItem(s), [d.directDep])
      && HasBlock(cfg, SymItem(s), Leaves(Lows(d.ranges))) && HasBlock(cfg, SymItem(s), Leaves(Highs(d.ranges)))
      && HasBlock(cfg, SymItem(s), RangeConds(d.ranges))
  {
    SymbolProperties(cfg, s);
  }

  lemma {:induction false} ChoiceBlocks(cfg: Config, c: nat)
    ensures HasBlock(cfg, ChoiceItem(c), cfg.C(c).prompts) && HasBlock(cfg, ChoiceItem(c), ChoiceConds(cfg.C(c).defaults))
  {
    assert Within(cfg, ChoiceItem(c), cfg.C(c).prompts, 0);
    assert Within(cfg, ChoiceItem(c), ChoiceConds(cfg.C(c).defaults), |cfg.C(c).prompts|);
  }

  // What Symbol._assignable() may read.
  function AssignableReads(cfg: Config, s: nat): set<Quantity> {
    {SymVis(s)} + ExprRefs(cfg, cfg.S(s).revDep) + ExprRefs(cfg, cfg.S(s).weakRevDep) + SymTypeRefs(cfg, s)
  }

  // x is y itself, or MODULES, or an item that y is recorded to depend on.
  ghost predicate Source(cfg: Config, y: Item, x: Item) { x == y || IsModules(cfg, x) || DependsOn(cfg, y, x) }

  lemma {:induction false} SingleRefs(cfg: Config, e: Expr)
    ensures ExprsRefs(cfg, [e]) == ExprRefs(cfg, e)
  {
    assert [e][..0] == [];
  }

  lemma {:induction false} ModeReadsRecorded(cfg: Config, s: nat, q: Quantity)
    requires WellFormed(cfg) && s < |cfg.syms| && q in ModeOfChoiceRefs(cfg, s)
    ensures Source(cfg, SymItem(s), Of(q))
  {
    assert ChoiceSymbolOk(cfg, s);
  }

  lemma {:induction false} SymbolConditionRecorded(cfg: Config, s: nat, es: seq<Expr>, q: Quantity)
    requires q in ExprsRefs(cfg, es)
    requires
      var d := cfg.S(s);
      es in [d.prompts, DefaultValues(d.defaults), DefaultConds(d.defaults), [d.revDep], [d.weakRevDep],
             Leaves(Lows(d.ranges)), Leaves(Highs(d.ranges)), RangeConds(d.ranges), [d.directDep]]
    ensures Source(cfg, SymItem(s), Of(q))
  {
    SymbolProperties(cfg, s);
    var k: nat :| Within(cfg, SymItem(s), es, k);
    WithinMentions(cfg, SymItem(s), es, k, q);
  }

  lemma {:induction false} OperandReadRecorded(cfg: Config, s: nat, os: seq<Operand>, es: seq<Expr>, q: Quantity)
    requires q in OperandRefs(cfg, os) && |es| == |os|
    requires forall i :: 0 <= i < |os| && os[i].Sym? ==> es[i] == Leaf(os[i])
    requires HasBlock(cfg, SymItem(s), es)
    ensures Source(cfg, SymItem(s), Of(q))
  {
    var i :| 0 <= i < |os| && os[i].Sym? && q == SymStr(os[i].id);
    var k: nat :| Within(cfg, SymItem(s), es, k);
    assert Properties(cfg, SymItem(s))[k..k + |es|][i] == Properties(cfg, SymItem(s))[k + i];
    assert Of(q) in ExprItems(es[i]);
  }

  lemma {:induction false} AssignableReadsRecorded(cfg: Config, s: nat, q: Quantity)
    requires WellFormed(cfg) && s < |cfg.syms| && q in AssignableReads(cfg, s)
    ensures Source(cfg, SymItem(s), Of(q))
  {
    var d := cfg.S(s);
    SingleRefs(cfg, d.revDep);
    SingleRefs(cfg, d.weakRevDep);
    if q in ExprRefs(cfg, d.revDep) {
      SymbolConditionRecorded(cfg, s, [d.revDep], q);
    } else if q in ExprRefs(cfg, d.weakRevDep) {
      SymbolConditionRecorded(cfg, s, [d.weakRevDep], q);
    } else if q in ModeOfChoiceRefs(cfg, s) {
      ModeReadsRecorded(cfg, s, q);
    }
  }

  lemma {:induction false} TriReadsRecorded(cfg: Config, s: nat, q: Quantity)
    requires WellFormed(cfg) && s < |cfg.syms| && q in Reads(cfg, SymTri(s))
    ensures Source(cfg, SymItem(s), Of(q))
  {
    var d := cfg.S(s);
    if d.choice.Some? {
      assert ChoiceSymbolOk(cfg, s);
    } else if q in AssignableReads(cfg, s) {
      AssignableReadsRecorded(cfg, s, q);
    } else if q in ExprsRefs(cfg, DefaultConds(d.defaults)) {
      SymbolConditionRecorded(cfg, s, DefaultConds(d.defaults), q);
    } else if q in ExprsRefs(cfg, DefaultValues(d.defaults)) {
      SymbolConditionRecorded(cfg, s, DefaultValues(d.defaults), q);
    } else {
      SingleRefs(cfg, d.directDep);
      SymbolConditionRecorded(cfg, s, [d.directDep], q);
    }
  }

  lemma {:induction false} RangeReadsRecorded(cfg: Config, s: nat, q: Quantity)
    requires q in OperandRefs(cfg, Lows(cfg.S(s).ranges)) + OperandRefs(cfg, Highs(cfg.S(s).ranges))
    ensures Source(cfg, SymItem(s), Of(q))
  {
    var rs := cfg.S(s).ranges;
    SymbolBlocks(cfg, s);
    if q in OperandRefs(cfg, Lows(rs)) {
      OperandReadRecorded(cfg, s, Lows(rs), Leaves(Lows(rs)), q);
    } else {
      OperandReadRecorded(cfg, s, Highs(rs), Leaves(Highs(rs)), q);
    }
  }

  lemma {:induction false} StrReadsRecorded(cfg: Config, s: nat, q: Quantity)
    requires WellFormed(cfg) && s < |cfg.syms| && q in Reads(cfg, SymStr(s))
    ensures Source(cfg, SymItem(s), Of(q))
  {
    var d := cfg.S(s);
    if Of(q) == SymItem(s) {
    } else if q in ExprsRefs(cfg, DefaultConds(d.defaults)) {
      SymbolConditionRecorded(cfg, s, DefaultConds(d.defaults), q);
    } else if q in OperandRefs(cfg, DefaultOperands(d.defaults)) {
      SymbolBlocks(cfg, s);
      OperandReadRecorded(cfg, s, DefaultOperands(d.defaults), DefaultValues(d.defaults), q);
    } else if q in ExprsRefs(cfg, RangeConds(d.ranges)) {
      SymbolConditionRecorded(cfg, s, RangeConds(d.ranges), q);
    } else {
      RangeReadsRecorded(cfg, s, q);
    }
  }

  lemma {:induction false} ChoiceReadsRecorded(cfg: Config, c: nat, q: Quantity)
    requires WellFormed(cfg) && c < |cfg.choices| && q in Reads(cfg, ChoiceVis(c)) + Reads(cfg, ChoiceSel(c))
    ensures Source(cfg, ChoiceItem(c), Of(q))
  {
    var d := cfg.C(c);
    var y := ChoiceItem(c);
    assert ChoiceDefaultsOk(cfg, c);
    assert Within(cfg, y, d.prompts, 0) && Within(cfg, y, ChoiceConds(d.defaults), |d.prompts|);
    if q in ExprsRefs(cfg, d.prompts) {
      WithinMentions(cfg, y, d.prompts, 0, q);
    } else if q in ExprsRefs(cfg, ChoiceConds(d.defaults)) {
      WithinMentions(cfg, y, ChoiceConds(d.defaults), |d.prompts|, q);
    }
  }

  // The dependency graph covers the evaluator: whatever the rule of q may read belongs to the item
  // of q, to MODULES, or to an item that records the item of q as a dependent.
  lemma {:induction false} ReadsAreRecorded(cfg: Config, q: Quantity, q': Quantity)
    requires WellFormed(cfg) && InRange(cfg, q) && q' in Reads(cfg, q)
    ensures Source(cfg, Of(q), Of(q'))
  {
    match q
    case SymVis(s) =>
      if q' in ExprsRefs(cfg, cfg.S(s).prompts) {
        SymbolConditionRecorded(cfg, s, cfg.S(s).prompts, q');
      } else if q' in ModeOfChoiceRefs(cfg, s) {
        ModeReadsRecorded(cfg, s, q');
      }
    case SymTri(s) => TriReadsRecorded(cfg, s, q');
    case SymStr(s) => StrReadsRecorded(cfg, s, q');
    case ChoiceVis(c) => ChoiceReadsRecorded(cfg, c, q');
    case ChoiceSel(c) => ChoiceReadsRecorded(cfg, c, q');
  }
}
