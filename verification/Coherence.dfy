// Cache coherence as an invariant of a value: what the caches may hold, how storing a freshly
// computed value keeps them correct, and how the invalidation walk does although it stops at the
// first item that has nothing cached.
module Coherence {
  import opened Basics
  import opened Model
  import opened Semantics
  import opened Dependencies
  import opened Evaluation
  import opened CacheState

  // The changeable fields of all symbols and choices that bear on values.
  datatype State = State(u: Users, env: Env, write: seq<bool>,
                         assignable: seq<Option<seq<Tri>>>, modes: seq<Option<seq<Tri>>>)

  function ViewOf(cfg: Config, st: State): View { View(cfg, st.u, st.env) }

  predicate Shaped(cfg: Config, st: State) {
    && |st.u.val| == |st.env.syms| == |st.write| == |st.assignable| == |cfg.syms|
    && |st.u.mode| == |st.u.sel| == |st.env.choices| == |st.modes| == |cfg.choices|
  }

  // _write_to_conf was set by the computation that filled the cache.
  predicate FlagOk(k: View, s: nat, write: bool) {
    && (k.cfg.Boolish(s) && k.env.S(s).tri.Some? ==> k.TriValue(s).Some? && k.TriValue(s).value.write == write)
    && (!k.cfg.Boolish(s) && k.cfg.S(s).typ != Unknown && k.env.S(s).str.Some? ==>
          k.TypedStrValue(s).Some? && k.TypedStrValue(s).value.write == write)
    && (k.cfg.S(s).typ == Unknown ==> !write)
  }

  // The other caches of a symbol and of a choice are right, too.
  predicate SymbolOk(cfg: Config, st: State, s: nat) {
    s < |st.write| == |st.assignable| ==>
      FlagOk(ViewOf(cfg, st), s, st.write[s]) && Refines(st.assignable[s], ViewOf(cfg, st).Assignable(s))
  }

  predicate ChoiceOk(cfg: Config, st: State, c: nat) {
    c < |st.modes| ==> Refines(st.modes[c], ViewOf(cfg, st).ChoiceAssignable(c))
  }

  ghost predicate Coherent(cfg: Config, st: State) {
    var k := ViewOf(cfg, st);
    && Shaped(cfg, st)
    && SelectsMembers(cfg, st.u)
    && Consistent(k)
    && (forall s: nat :: SymbolOk(cfg, st, s))
    && (forall c: nat :: ChoiceOk(cfg, st, c))
  }

  // ---- growing ----

  ghost predicate Grown(k: View, k': View) {
    k.cfg == k'.cfg && k.u == k'.u && forall q :: LeqAt(k, k', q)
  }

  // st' is st with the entry of q filled in.
  predicate Filled(cfg: Config, st: State, st': State, q: Quantity) {
    && Shaped(cfg, st) && Shaped(cfg, st')
    && st'.u == st.u && st'.assignable == st.assignable && st'.modes == st.modes
    && match q
       case SymVis(s) => s < |cfg.syms| && st'.write == st.write && st'.env == st.env.(syms := st.env.syms[s := st.env.syms[s].(vis := st'.env.S(s).vis)])
       case SymTri(s) => s < |cfg.syms| && st'.write == st.write[s := st'.write[s]] && st'.env == st.env.(syms := st.env.syms[s := st.env.syms[s].(tri := st'.env.S(s).tri)])
       case SymStr(s) => s < |cfg.syms| && st'.write == st.write[s := st'.write[s]] && st'.env == st.env.(syms := st.env.syms[s := st.env.syms[s].(str := st'.env.S(s).str)])
       case ChoiceVis(c) => c < |cfg.choices| && st'.write == st.write && st'.env == st.env.(choices := st.env.choices[c := st.env.choices[c].(vis := st'.env.C(c).vis)])
       case ChoiceSel(c) => c < |cfg.choices| && st'.write == st.write && st'.env == st.env.(choices := st.env.choices[c := st.env.choices[c].(sel := st'.env.C(c).sel)])
  }

  // The flag that goes with the filled entry.
  predicate FlagFor(k: View, q: Quantity, write: bool, write': bool) {
    match q
    case SymTri(s) => if k.cfg.Boolish(s) then k.TriValue(s).Some? && write' == k.TriValue(s).value.write else write' == write
    case SymStr(s) =>
      if k.cfg.Boolish(s) || k.cfg.S(s).typ == Unknown then write' == write
      else k.TypedStrValue(s).Some? && write' == k.TypedStrValue(s).value.write
    case _ => true
  }

  predicate FlagsFor(k: View, q: Quantity, write: seq<bool>, write': seq<bool>) {
    match q
    case SymTri(s) => s < |write| == |write'| && FlagFor(k, q, write[s], write'[s])
    case SymStr(s) => s < |write| == |write'| && FlagFor(k, q, write[s], write'[s])
    case _ => true
  }

  lemma {:induction false} FilledGrows(cfg: Config, st: State, st': State, q: Quantity)
    requires Coherent(cfg, st) && Filled(cfg, st, st', q)
    requires RuleDefined(ViewOf(cfg, st), q) && EntryFrom(ViewOf(cfg, st'), ViewOf(cfg, st), q)
    ensures Grown(ViewOf(cfg, st), ViewOf(cfg, st'))
  {
    var k, k' := ViewOf(cfg, st), ViewOf(cfg, st');
    forall q' ensures LeqAt(k, k', q') {
      if q' == q && Known(k, q) {
        assert Recomputed(k, q);
      }
    }
  }

  // Filling a cache with what its rule gives keeps all caches coherent.
  lemma {:induction false} FillingIsCoherent(cfg: Config, st: State, st': State, q: Quantity)
    requires Coherent(cfg, st) && Filled(cfg, st, st', q)
    requires RuleDefined(ViewOf(cfg, st), q) && EntryFrom(ViewOf(cfg, st'), ViewOf(cfg, st), q)
    requires FlagsFor(ViewOf(cfg, st), q, st.write, st'.write)
    ensures Coherent(cfg, st') && Grown(ViewOf(cfg, st), ViewOf(cfg, st'))
  {
    var k, k' := ViewOf(cfg, st), ViewOf(cfg, st');
    FilledGrows(cfg, st, st', q);
    forall q' | Known(k', q') ensures Recomputed(k', q') {
      RuleLeq(k, k', q');
      if q' != q {
        assert Known(k, q') && Recomputed(k, q');
      }
    }
    forall s: nat ensures SymbolOk(cfg, st', s) {
      if s < |cfg.syms| {
        assert SymbolOk(cfg, st, s);
        AssignableLeq(k, k', s);
        FilledFlag(cfg, st, st', q, s);
      }
    }
    forall c: nat ensures ChoiceOk(cfg, st', c) {
      assert ChoiceOk(cfg, st, c);
      ChoiceAssignableLeq(k, k', c);
    }
  }

  lemma {:induction false} FilledFlag(cfg: Config, st: State, st': State, q: Quantity, s: nat)
    requires Shaped(cfg, st) && Filled(cfg, st, st', q) && s < |cfg.syms|
    requires Grown(ViewOf(cfg, st), ViewOf(cfg, st')) && FlagOk(ViewOf(cfg, st), s, st.write[s])
    requires FlagsFor(ViewOf(cfg, st), q, st.write, st'.write)
    ensures FlagOk(ViewOf(cfg, st'), s, st'.write[s])
  {
    var k, k' := ViewOf(cfg, st), ViewOf(cfg, st');
    if k.cfg.Boolish(s) {
      TriValueLeq(k, k', s);
    } else if k.cfg.S(s).typ != Unknown {
      TypedStrValueLeq(k, k', s);
    }
  }

  function WithVis(st: State, s: nat, v: Tri): State
    requires s < |st.env.syms|
  {
    st.(env := st.env.(syms := st.env.syms[s := st.env.syms[s].(vis := Some(v))]))
  }

  function WithTri(st: State, s: nat, v: Tri, write: bool): State
    requires s < |st.env.syms| == |st.write|
  {
    st.(env := st.env.(syms := st.env.syms[s := st.env.syms[s].(tri := Some(v))]), write := st.write[s := write])
  }

  function WithStr(st: State, s: nat, v: string, write: bool): State
    requires s < |st.env.syms| == |st.write|
  {
    st.(env := st.env.(syms := st.env.syms[s := st.env.syms[s].(str := Some(v))]), write := st.write[s := write])
  }

  function WithChoiceVis(st: State, c: nat, v: Tri): State
    requires c < |st.env.choices|
  {
    st.(env := st.env.(choices := st.env.choices[c := st.env.choices[c].(vis := Some(v))]))
  }

  function WithSelection(st: State, c: nat, sel: Option<nat>): State
    requires c < |st.env.choices|
  {
    st.(env := st.env.(choices := st.env.choices[c := st.env.choices[c].(sel := Some(sel))]))
  }

  lemma {:induction false} VisFilled(cfg: Config, st: State, s: nat, v: Tri)
    requires Coherent(cfg, st) && s < |cfg.syms| && ViewOf(cfg, st).Visibility(s) == Some(v)
    ensures Coherent(cfg, WithVis(st, s, v)) && Grown(ViewOf(cfg, st), ViewOf(cfg, WithVis(st, s, v)))
  {
    FillingIsCoherent(cfg, st, WithVis(st, s, v), SymVis(s));
  }

  lemma {:induction false} TriFilled(cfg: Config, st: State, s: nat, v: Tri, write: bool)
    requires Coherent(cfg, st) && s < |cfg.syms| && TriRule(ViewOf(cfg, st), s) == Some(v)
    requires FlagFor(ViewOf(cfg, st), SymTri(s), st.write[s], write)
    ensures Coherent(cfg, WithTri(st, s, v, write)) && Grown(ViewOf(cfg, st), ViewOf(cfg, WithTri(st, s, v, write)))
  {
    FillingIsCoherent(cfg, st, WithTri(st, s, v, write), SymTri(s));
  }

  lemma {:induction false} StrFilled(cfg: Config, st: State, s: nat, v: string, write: bool)
    requires Coherent(cfg, st) && s < |cfg.syms| && ViewOf(cfg, st).StrValue(s) == Some(v)
    requires FlagFor(ViewOf(cfg, st), SymStr(s), st.write[s], write)
    ensures Coherent(cfg, WithStr(st, s, v, write)) && Grown(ViewOf(cfg, st), ViewOf(cfg, WithStr(st, s, v, write)))
  {
    FillingIsCoherent(cfg, st, WithStr(st, s, v, write), SymStr(s));
  }

  lemma {:induction false} ChoiceVisFilled(cfg: Config, st: State, c: nat, v: Tri)
    requires Coherent(cfg, st) && c < |cfg.choices| && ViewOf(cfg, st).ChoiceVisibility(c) == Some(v)
    ensures Coherent(cfg, WithChoiceVis(st, c, v)) && Grown(ViewOf(cfg, st), ViewOf(cfg, WithChoiceVis(st, c, v)))
  {
    FillingIsCoherent(cfg, st, WithChoiceVis(st, c, v), ChoiceVis(c));
  }

  lemma {:induction false} SelectionFilled(cfg: Config, st: State, c: nat, sel: Option<nat>)
    requires Coherent(cfg, st) && c < |cfg.choices| && ViewOf(cfg, st).Selection(c) == Some(sel)
    ensures Coherent(cfg, WithSelection(st, c, sel)) && Grown(ViewOf(cfg, st), ViewOf(cfg, WithSelection(st, c, sel)))
  {
    FillingIsCoherent(cfg, st, WithSelection(st, c, sel), ChoiceSel(c));
  }

  lemma {:induction false} AssignableFilled(cfg: Config, st: State, s: nat, v: seq<Tri>)
    requires Coherent(cfg, st) && s < |cfg.syms| && ViewOf(cfg, st).Assignable(s) == Some(v)
    ensures Coherent(cfg, st.(assignable := st.assignable[s := Some(v)]))
  {
    var st' := st.(assignable := st.assignable[s := Some(v)]);
    forall i: nat ensures SymbolOk(cfg, st', i) {
      assert SymbolOk(cfg, st, i);
    }
    forall c: nat ensures ChoiceOk(cfg, st', c) {
      assert ChoiceOk(cfg, st, c);
    }
  }

  lemma {:induction false} ModesFilled(cfg: Config, st: State, c: nat, v: seq<Tri>)
    requires Coherent(cfg, st) && c < |cfg.choices| && ViewOf(cfg, st).ChoiceAssignable(c) == Some(v)
    ensures Coherent(cfg, st.(modes := st.modes[c := Some(v)]))
  {
    var st' := st.(modes := st.modes[c := Some(v)]);
    forall i: nat ensures SymbolOk(cfg, st', i) {
      assert SymbolOk(cfg, st, i);
    }
    forall i: nat ensures ChoiceOk(cfg, st', i) {
      assert ChoiceOk(cfg, st, i);
    }
  }

  // ---- clearing ----

  predicate Flagged(st: State, x: Item) {
    match x
    case SymItem(s) => st.env.S(s).vis.Some?
    case ChoiceItem(c) => st.env.C(c).vis.Some?
  }

  predicate Untouched(st: State, st': State, x: Item) {
    match x
    case SymItem(s) => st'.env.S(s) == st.env.S(s) && (s < |st.assignable| == |st'.assignable| ==> st'.assignable[s] == st.assignable[s])
    case ChoiceItem(c) => st'.env.C(c) == st.env.C(c) && (c < |st.modes| == |st'.modes| ==> st'.modes[c] == st.modes[c])
  }

  predicate Blank(st: State, x: Item) {
    match x
    case SymItem(s) => st.env.S(s) == SymEnt(None, None, None) && (s < |st.assignable| ==> st.assignable[s].None?)
    case ChoiceItem(c) => st.env.C(c) == ChoiceEnt(None, None) && (c < |st.modes| ==> st.modes[c].None?)
  }

  // x was visited by the walk that started at root.
  predicate Visited(st: State, st': State, root: Item, x: Item) { x == root || (Flagged(st, x) && !Flagged(st', x)) }

  // What _rec_invalidate() does to the caches: it clears some items, the root among them; what it
  // leaves flagged depends on nothing that it visited; and visiting MODULES clears everything.
  ghost predicate Walked(cfg: Config, st: State, st': State, root: Item) {
    && Shaped(cfg, st') && st'.u == st.u && st'.write == st.write
    && (forall x :: Untouched(st, st', x) || Blank(st', x))
    && Blank(st', root)
    && (forall x, y :: Visited(st, st', root, x) && DependsOn(cfg, y, x) ==> !Flagged(st', y))
    && (forall x, y :: Visited(st, st', root, x) && IsModules(cfg, x) ==> Blank(st', y))
  }

  // Entries whose rule reads nothing: the logical value of a string symbol and the string value of
  // an untyped one. They are cached without setting _cached_vis.
  predicate Constant(cfg: Config, q: Quantity) {
    match q
    case SymTri(s) => !cfg.Boolish(s)
    case SymStr(s) => cfg.S(s).typ == Unknown
    case _ => false
  }

  lemma {:induction false} ExprReadsVary(cfg: Config, es: seq<Expr>, q: Quantity)
    requires q in ExprsRefs(cfg, es)
    ensures !Constant(cfg, q)
  {
    if q in ExprRefs(cfg, es[|es| - 1]) {
      ExprReadVaries(cfg, es[|es| - 1], q);
    } else {
      ExprReadsVary(cfg, es[..|es| - 1], q);
    }
  }

  lemma ExprReadVaries(cfg: Config, e: Expr, q: Quantity)
    requires q in ExprRefs(cfg, e)
    ensures !Constant(cfg, q)
  {
  }

  lemma {:induction false} ReadsVary(cfg: Config, q: Quantity, q': Quantity)
    requires q' in Reads(cfg, q)
    ensures !Constant(cfg, q')
  {
    match q
    case ChoiceVis(c) => if q' in ExprsRefs(cfg, cfg.C(c).prompts) { ExprReadsVary(cfg, cfg.C(c).prompts, q'); }
    case ChoiceSel(c) => if q' in ExprsRefs(cfg, ChoiceConds(cfg.C(c).defaults)) { ExprReadsVary(cfg, ChoiceConds(cfg.C(c).defaults), q'); }
    case SymVis(s) => if q' in ExprsRefs(cfg, cfg.S(s).prompts) { ExprReadsVary(cfg, cfg.S(s).prompts, q'); }
    case SymTri(s) => TriReadsVary(cfg, s, q');
    case SymStr(s) =>
      var d := cfg.S(s);
      if q' in ExprsRefs(cfg, DefaultConds(d.defaults)) { ExprReadsVary(cfg, DefaultConds(d.defaults), q'); }
      if q' in ExprsRefs(cfg, RangeConds(d.ranges)) { ExprReadsVary(cfg, RangeConds(d.ranges), q'); }
  }

  lemma {:induction false} TriReadsVary(cfg: Config, s: nat, q': Quantity)
    requires q' in Reads(cfg, SymTri(s))
    ensures !Constant(cfg, q')
  {
    var d := cfg.S(s);
    if q' in ExprsRefs(cfg, DefaultConds(d.defaults)) { ExprReadsVary(cfg, DefaultConds(d.defaults), q'); }
    if q' in ExprsRefs(cfg, DefaultValues(d.defaults)) { ExprReadsVary(cfg, DefaultValues(d.defaults), q'); }
    if q' in ExprRefs(cfg, d.revDep) { ExprReadVaries(cfg, d.revDep, q'); }
    if q' in ExprRefs(cfg, d.weakRevDep) { ExprReadVaries(cfg, d.weakRevDep, q'); }
    if q' in ExprRefs(cfg, d.directDep) { ExprReadVaries(cfg, d.directDep, q'); }
  }

  // _cached_vis doubles as the "has cached values" flag: the claim behind the early stop.
  lemma {:induction false} VisibilityIsAFlag(cfg: Config, st: State, q: Quantity)
    requires Coherent(cfg, st) && Known(ViewOf(cfg, st), q) && !Constant(cfg, q)
    ensures Flagged(st, Of(q))
  {
    var k := ViewOf(cfg, st);
    assert Recomputed(k, q);
    if q.SymStr? && cfg.Boolish(q.s) {
      assert Known(k, SymTri(q.s)) && Recomputed(k, SymTri(q.s));
    }
  }

  lemma {:induction false} AssignableNeedsFlag(cfg: Config, st: State, s: nat)
    requires Coherent(cfg, st) && s < |cfg.syms| && st.assignable[s].Some? && cfg.Boolish(s)
    ensures Flagged(st, SymItem(s))
  {
    assert SymbolOk(cfg, st, s);
  }

  lemma {:induction false} ModesNeedFlag(cfg: Config, st: State, c: nat)
    requires Coherent(cfg, st) && c < |cfg.choices| && st.modes[c].Some?
    ensures Flagged(st, ChoiceItem(c))
  {
    assert ChoiceOk(cfg, st, c);
  }

  // The user's choices changed from st.u to u', and every mode that changed was visited.
  ghost predicate ModesVisited(st: State, u': Users, st': State, root: Item) {
    forall c: nat :: st.u.UserMode(c) != u'.UserMode(c) ==> Visited(st, st', root, ChoiceItem(c))
  }

  // Anything still flagged after the walk reads only what the walk left alone.
  lemma {:induction false} ReadsSurvive(cfg: Config, st: State, u': Users, st': State, root: Item, y: Item, q: Quantity)
    requires Coherent(cfg, st) && Walked(cfg, st.(u := u'), st', root) && ModesVisited(st, u', st', root)
    requires Flagged(st', y) && Source(cfg, y, Of(q)) && !Constant(cfg, q)
    ensures LeqAt(ViewOf(cfg, st), ViewOf(cfg, st'), q)
  {
    var x := Of(q);
    var k := ViewOf(cfg, st);
    assert st.(u := u').env == st.env;
    assert Visited(st, st', root, x) == Visited(st.(u := u'), st', root, x);
    assert Untouched(st.(u := u'), st', y) || Blank(st', y);
    assert !Visited(st.(u := u'), st', root, x) by {
      assert Visited(st.(u := u'), st', root, x) && IsModules(cfg, x) ==> Blank(st', y);
      assert Visited(st.(u := u'), st', root, x) && DependsOn(cfg, y, x) ==> !Flagged(st', y);
    }
    assert Untouched(st.(u := u'), st', x) || Blank(st', x);
    if Known(k, q) {
      VisibilityIsAFlag(cfg, st, q);
      assert Flagged(st', x);
    }
  }

  // The walk keeps the caches coherent with the new user values: the early stop leaves nothing stale.
  lemma {:induction false} WalkIsCoherent(cfg: Config, st: State, u': Users, st': State, root: Item)
    requires WellFormed(cfg) && Coherent(cfg, st) && Walked(cfg, st.(u := u'), st', root) && ModesVisited(st, u', st', root)
    requires SelectsMembers(cfg, u')
    requires forall q :: InRange(cfg, q) && Flagged(st', Of(q)) ==> SameUser(st.u, u', q)
    ensures Coherent(cfg, st')
  {
    var k, k' := ViewOf(cfg, st), ViewOf(cfg, st');
    forall q | Known(k', q) ensures Recomputed(k', q) {
      KnownInRange(k', q);
      assert Untouched(st.(u := u'), st', Of(q)) || Blank(st', Of(q));
      assert Known(k, q) && Recomputed(k, q);
      if !Constant(cfg, q) {
        VisibilityIsAFlag(cfg, st, q);
        WalkLeq(cfg, st, u', st', root, q);
        RuleLeq(k, k', q);
      }
    }
    forall s: nat ensures SymbolOk(cfg, st', s) {
      if s < |cfg.syms| {
        WalkFlagOk(cfg, st, u', st', root, s);
        WalkAssignable(cfg, st, u', st', root, s);
      }
    }
    forall c: nat ensures ChoiceOk(cfg, st', c) {
      if c < |cfg.choices| {
        WalkModes(cfg, st, u', st', root, c);
      }
    }
  }

  lemma {:induction false} WalkLeq(cfg: Config, st: State, u': Users, st': State, root: Item, q: Quantity)
    requires WellFormed(cfg) && Coherent(cfg, st) && Walked(cfg, st.(u := u'), st', root) && ModesVisited(st, u', st', root)
    requires InRange(cfg, q) && Flagged(st', Of(q))
    ensures Leq(ViewOf(cfg, st), ViewOf(cfg, st'), Reads(cfg, q))
  {
    forall q' | q' in Reads(cfg, q) ensures LeqAt(ViewOf(cfg, st), ViewOf(cfg, st'), q') {
      ReadsAreRecorded(cfg, q, q');
      ReadsVary(cfg, q, q');
      ReadsSurvive(cfg, st, u', st', root, Of(q), q');
    }
  }

  lemma {:induction false} WalkFlagOk(cfg: Config, st: State, u': Users, st': State, root: Item, s: nat)
    requires WellFormed(cfg) && Coherent(cfg, st) && Walked(cfg, st.(u := u'), st', root) && ModesVisited(st, u', st', root)
    requires forall q :: InRange(cfg, q) && Flagged(st', Of(q)) ==> SameUser(st.u, u', q)
    requires s < |cfg.syms|
    ensures FlagOk(ViewOf(cfg, st'), s, st'.write[s])
  {
    var k, k' := ViewOf(cfg, st), ViewOf(cfg, st');
    assert SymbolOk(cfg, st, s);
    assert Untouched(st.(u := u'), st', SymItem(s)) || Blank(st', SymItem(s));
    if cfg.Boolish(s) && k'.env.S(s).tri.Some? {
      VisibilityIsAFlag(cfg, st, SymTri(s));
      assert Flagged(st', Of(SymTri(s))) && SameUser(st.u, u', SymTri(s));
      WalkLeq(cfg, st, u', st', root, SymTri(s));
      TriValueLeq(k, k', s);
    }
    if !cfg.Boolish(s) && cfg.S(s).typ != Unknown && k'.env.S(s).str.Some? {
      VisibilityIsAFlag(cfg, st, SymStr(s));
      assert Flagged(st', Of(SymStr(s))) && SameUser(st.u, u', SymStr(s));
      WalkLeq(cfg, st, u', st', root, SymStr(s));
      TypedStrValueLeq(k, k', s);
    }
  }

  lemma {:induction false} WalkAssignable(cfg: Config, st: State, u': Users, st': State, root: Item, s: nat)
    requires WellFormed(cfg) && Coherent(cfg, st) && Walked(cfg, st.(u := u'), st', root) && ModesVisited(st, u', st', root)
    requires s < |cfg.syms|
    ensures Refines(st'.assignable[s], ViewOf(cfg, st').Assignable(s))
  {
    var k, k' := ViewOf(cfg, st), ViewOf(cfg, st');
    assert SymbolOk(cfg, st, s);
    assert Untouched(st.(u := u'), st', SymItem(s)) || Blank(st', SymItem(s));
    if st'.assignable[s].Some? && cfg.Boolish(s) {
      AssignableNeedsFlag(cfg, st, s);
      forall q' | q' in AssignableReads(cfg, s) ensures LeqAt(k, k', q') {
        AssignableReadsRecorded(cfg, s, q');
        AssignableReadsVary(cfg, s, q');
        ReadsSurvive(cfg, st, u', st', root, SymItem(s), q');
      }
      AssignableLeq(k, k', s);
    }
  }

  lemma {:induction false} AssignableReadsVary(cfg: Config, s: nat, q: Quantity)
    requires q in AssignableReads(cfg, s)
    ensures !Constant(cfg, q)
  {
    if q in ExprRefs(cfg, cfg.S(s).revDep) { ExprReadVaries(cfg, cfg.S(s).revDep, q); }
    if q in ExprRefs(cfg, cfg.S(s).weakRevDep) { ExprReadVaries(cfg, cfg.S(s).weakRevDep, q); }
  }

  lemma {:induction false} WalkModes(cfg: Config, st: State, u': Users, st': State, root: Item, c: nat)
    requires WellFormed(cfg) && Coherent(cfg, st) && Walked(cfg, st.(u := u'), st', root) && ModesVisited(st, u', st', root)
    requires c < |cfg.choices|
    ensures Refines(st'.modes[c], ViewOf(cfg, st').ChoiceAssignable(c))
  {
    var k, k' := ViewOf(cfg, st), ViewOf(cfg, st');
    assert ChoiceOk(cfg, st, c);
    assert Untouched(st.(u := u'), st', ChoiceItem(c)) || Blank(st', ChoiceItem(c));
    if st'.modes[c].Some? {
      ModesNeedFlag(cfg, st, c);
      forall q' | q' in ModeRefs(cfg, c) ensures LeqAt(k, k', q') {
        ReadsSurvive(cfg, st, u', st', root, ChoiceItem(c), q');
      }
      ChoiceAssignableLeq(k, k', c);
    }
  }
}
