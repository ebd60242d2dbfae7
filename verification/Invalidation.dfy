// The invalidation walk as a relation on states: one step of the loop over the dependents of an
// item, and what a walk means after each kind of change to the user values.
module Invalidation {
  import opened Basics
  import opened Model
  import opened Semantics
  import opened Dependencies
  import opened Evaluation
  import opened CacheState
  import opened Coherence
  import opened UserValues

  predicate ItemInRange(cfg: Config, x: Item) {
    match x
    case SymItem(s) => s < |cfg.syms|
    case ChoiceItem(c) => c < |cfg.choices|
  }

  lemma {:induction false} DependentsInRange(cfg: Config, y: Item, x: Item)
    requires DependsOn(cfg, y, x)
    ensures ItemInRange(cfg, y)
  {
  }

  function Items(cfg: Config): set<Item> {
    (set s | 0 <= s < |cfg.syms| :: SymItem(s)) + (set c | 0 <= c < |cfg.choices| :: ChoiceItem(c))
  }

  // The items whose _cached_vis is set: the measure of the walk.
  function FlaggedItems(cfg: Config, st: State): set<Item> { set x | x in Items(cfg) && Flagged(st, x) }

  function Cleared(st: State, x: Item): State {
    match x
    case SymItem(s) =>
      if s < |st.env.syms| == |st.assignable| then
        st.(env := st.env.(syms := st.env.syms[s := SymEnt(None, None, None)]), assignable := st.assignable[s := None])
      else st
    case ChoiceItem(c) =>
      if c < |st.env.choices| == |st.modes| then
        st.(env := st.env.(choices := st.env.choices[c := ChoiceEnt(None, None)]), modes := st.modes[c := None])
      else st
  }

  ghost predicate DependsOnVisited(cfg: Config, st0: State, st: State, root: Item, todo: set<Item>, z: Item, y: Item) {
    Visited(st0, st, root, z) && DependsOn(cfg, y, z) && (z == root ==> y !in todo) ==> !Flagged(st, y)
  }

  // The walk from root is under way: the dependents of root in todo have not been looked at yet.
  ghost predicate Walking(cfg: Config, st0: State, st: State, root: Item, todo: set<Item>) {
    && Shaped(cfg, st) && st.u == st0.u && st.write == st0.write
    && (forall x {:trigger Untouched(st0, st, x)} {:trigger Blank(st, x)} :: Untouched(st0, st, x) || Blank(st, x))
    && Blank(st, root)
    && (forall z, y :: DependsOnVisited(cfg, st0, st, root, todo, z, y))
    && (forall z, y :: Visited(st0, st, root, z) && IsModules(cfg, z) ==> Blank(st, y))
  }

  lemma {:induction false} WalkStarts(cfg: Config, st: State, root: Item, todo: set<Item>)
    requires Shaped(cfg, st) && !IsModules(cfg, root) && ItemInRange(cfg, root)
    requires forall y :: DependsOn(cfg, y, root) ==> y in todo
    ensures Walking(cfg, st, Cleared(st, root), root, todo)
  {
  }

  lemma {:induction false} AllClearedIsWalk(cfg: Config, st: State, st': State, root: Item)
    requires Shaped(cfg, st') && st'.u == st.u && st'.write == st.write
    requires forall x :: Blank(st', x)
    ensures Walked(cfg, st, st', root)
  {
    forall y ensures !Flagged(st', y) {
      assert Blank(st', y);
    }
  }

  lemma {:induction false} WalkSkips(cfg: Config, st0: State, st: State, root: Item, todo: set<Item>, y: Item)
    requires Walking(cfg, st0, st, root, todo) && !Flagged(st, y)
    ensures Walking(cfg, st0, st, root, todo - {y})
  {
    forall z, y' ensures DependsOnVisited(cfg, st0, st, root, todo - {y}, z, y') {
      assert DependsOnVisited(cfg, st0, st, root, todo, z, y');
    }
  }

  // A recursive walk from a dependent y takes y off the list.
  lemma {:induction false} WalkDescends(cfg: Config, st0: State, st: State, st': State, root: Item, todo: set<Item>, y: Item)
    requires Walking(cfg, st0, st, root, todo) && Flagged(st, y) && Walked(cfg, st, st', y)
    ensures Walking(cfg, st0, st', root, todo - {y})
  {
    forall x ensures Untouched(st0, st', x) || Blank(st', x) {
      assert (Untouched(st0, st, x) || Blank(st, x)) && (Untouched(st, st', x) || Blank(st', x));
    }
    forall z, y' ensures DependsOnVisited(cfg, st0, st', root, todo - {y}, z, y') {
      assert DependsOnVisited(cfg, st0, st, root, todo, z, y');
      if Visited(st0, st', root, z) {
        VisitedByOne(cfg, st0, st, st', root, y, z);
        assert Untouched(st, st', y') || Blank(st', y');
      }
    }
    forall z, y' | Visited(st0, st', root, z) && IsModules(cfg, z) ensures Blank(st', y') {
      VisitedByOne(cfg, st0, st, st', root, y, z);
      assert Visited(st0, st, root, z) ==> Blank(st, y');
      assert Visited(st, st', y, z) ==> Blank(st', y');
      assert Untouched(st, st', y') || Blank(st', y');
    }
  }

  lemma {:induction false} VisitedByOne(cfg: Config, st0: State, st: State, st': State, root: Item, y: Item, z: Item)
    requires Visited(st0, st', root, z)
    ensures Visited(st0, st, root, z) || Visited(st, st', y, z)
  {
  }

  lemma {:induction false} WalkEnds(cfg: Config, st0: State, st: State, root: Item)
    requires Walking(cfg, st0, st, root, {})
    ensures Walked(cfg, st0, st, root)
  {
    forall x, y | Visited(st0, st, root, x) && DependsOn(cfg, y, x) ensures !Flagged(st, y) {
      assert DependsOnVisited(cfg, st0, st, root, {}, x, y);
    }
  }

  lemma {:induction false} WalkShrinks(cfg: Config, st0: State, st: State, root: Item, todo: set<Item>)
    requires Walking(cfg, st0, st, root, todo) && ItemInRange(cfg, root)
    ensures FlaggedItems(cfg, st) <= FlaggedItems(cfg, st0)
    ensures Flagged(st0, root) ==> FlaggedItems(cfg, st) < FlaggedItems(cfg, st0)
  {
    forall x | x in FlaggedItems(cfg, st) ensures x in FlaggedItems(cfg, st0) {
      assert Untouched(st0, st, x) || Blank(st, x);
    }
    if Flagged(st0, root) {
      assert root in FlaggedItems(cfg, st0) && root !in FlaggedItems(cfg, st);
    }
  }

  // ---- what the walk leaves after each kind of change ----

  lemma {:induction false} UsersSelectMembers(cfg: Config, u: Users)
    requires UsersOk(cfg, u)
    ensures SelectsMembers(cfg, u)
  {
    forall c: nat ensures MemberSelection(View(cfg, u, Env([], [])), c) {
      assert UserOk(cfg, u, c);
    }
  }

  // A changed symbol value, the walk starting at the symbol itself.
  lemma {:induction false} SymbolWalk(cfg: Config, st: State, u': Users, st': State, s: nat)
    requires WellFormed(cfg) && Coherent(cfg, st) && UsersOk(cfg, u') && s < |cfg.syms|
    requires u'.mode == st.u.mode && u'.sel == st.u.sel && |u'.val| == |st.u.val|
    requires forall i :: 0 <= i < |u'.val| && i != s ==> u'.val[i] == st.u.val[i]
    requires Walked(cfg, st.(u := u'), st', SymItem(s))
    ensures Coherent(cfg, st')
  {
    UsersSelectMembers(cfg, u');
    forall q | InRange(cfg, q) && Flagged(st', Of(q)) ensures SameUser(st.u, u', q) {
      assert Blank(st', SymItem(s));
    }
    WalkIsCoherent(cfg, st, u', st', SymItem(s));
  }

  // A changed choice, and possibly one of its symbols, the walk starting at the choice.
  lemma {:induction false} ChoiceWalk(cfg: Config, st: State, u': Users, st': State, c: nat, s: nat)
    requires WellFormed(cfg) && Coherent(cfg, st) && UsersOk(cfg, u') && c < |cfg.choices|
    requires s < |cfg.syms| ==> cfg.syms[s].choice == Some(c)
    requires |u'.mode| == |st.u.mode| && |u'.sel| == |st.u.sel| && |u'.val| == |st.u.val|
    requires forall i :: 0 <= i < |u'.val| && i != s ==> u'.val[i] == st.u.val[i]
    requires forall i :: 0 <= i < |u'.mode| && i != c ==> u'.mode[i] == st.u.mode[i] && u'.sel[i] == st.u.sel[i]
    requires Walked(cfg, st.(u := u'), st', ChoiceItem(c))
    ensures Coherent(cfg, st')
  {
    UsersSelectMembers(cfg, u');
    assert Visited(st.(u := u'), st', ChoiceItem(c), ChoiceItem(c));
    assert s < |cfg.syms| ==> !Flagged(st', SymItem(s)) by {
      assert ChoiceSymbolOk(cfg, s);
      assert s < |cfg.syms| ==> DependsOn(cfg, SymItem(s), ChoiceItem(c));
    }
    forall q | InRange(cfg, q) && Flagged(st', Of(q)) ensures SameUser(st.u, u', q) {
      assert Blank(st', ChoiceItem(c));
    }
    WalkIsCoherent(cfg, st, u', st', ChoiceItem(c));
  }

  // The user value of a symbol without prompts matters to nobody, so no walk is needed.
  lemma {:induction false} PromptlessIsCoherent(cfg: Config, st: State, u': Users, s: nat)
    requires Coherent(cfg, st) && UsersOk(cfg, u') && s < |cfg.syms| && cfg.syms[s].prompts == []
    requires u'.mode == st.u.mode && u'.sel == st.u.sel && |u'.val| == |st.u.val|
    requires forall i :: 0 <= i < |u'.val| && i != s ==> u'.val[i] == st.u.val[i]
    ensures Coherent(cfg, st.(u := u'))
  {
    UsersSelectMembers(cfg, u');
    var k, k' := ViewOf(cfg, st), ViewOf(cfg, st.(u := u'));
    forall q ensures LeqAt(k, k', q) {
    }
    forall q | Known(k', q) ensures Recomputed(k', q) {
      assert Known(k, q) && Recomputed(k, q);
      if SameUser(k.u, k'.u, q) {
        RuleLeq(k, k', q);
      } else {
        PromptlessRule(k, k', s);
      }
    }
    forall i: nat ensures SymbolOk(cfg, st.(u := u'), i) {
      assert SymbolOk(cfg, st, i);
      AssignableLeq(k, k', i);
      if i == s {
        PromptlessRule(k, k', s);
      } else if cfg.Boolish(i) {
        TriValueLeq(k, k', i);
      } else if cfg.S(i).typ != Unknown {
        TypedStrValueLeq(k, k', i);
      }
    }
    forall c: nat ensures ChoiceOk(cfg, st.(u := u'), c) {
      assert ChoiceOk(cfg, st, c);
      ChoiceAssignableLeq(k, k', c);
    }
  }

  lemma {:induction false} PromptlessRule(k: View, k': View, s: nat)
    requires Consistent(k) && k.env == k'.env && k.cfg == k'.cfg
    requires k'.u.mode == k.u.mode && k'.u.sel == k.u.sel && s < |k.cfg.syms| && k.cfg.syms[s].prompts == []
    ensures k.cfg.Boolish(s) ==> Refines(k.TriValue(s), k'.TriValue(s))
    ensures !k.cfg.Boolish(s) && k.cfg.S(s).typ != Unknown ==> Refines(k.TypedStrValue(s), k'.TypedStrValue(s))
    ensures Refines(k.StrValue(s), k'.StrValue(s))
  {
    if Known(k, SymVis(s)) {
      assert Recomputed(k, SymVis(s));
      assert k.MaxEval([], 0) == Some(0);
      assert k.env.S(s).vis == Some(0);
    }
    forall q ensures LeqAt(k, k', q) {
    }
    var d := k.cfg.S(s);
    if k.cfg.Boolish(s) && d.choice.None? {
      FromDefaultsLeq(k, k', s, false);
      EvalLeq(k, k', d.weakRevDep);
      EvalLeq(k, k', d.directDep);
      EvalLeq(k, k', d.revDep);
      SymTypeLeq(k, k', s);
    } else if !k.cfg.Boolish(s) && d.typ != Unknown {
      DefaultStrLeq(k, k', s);
      if d.typ != String {
        ActiveRangeLeq(k, k', s);
      }
    }
  }

  lemma {:induction false} StartIsCoherent(cfg: Config, st: State)
    requires Shaped(cfg, st) && st.u == NoUsers(cfg)
    requires forall x :: Blank(st, x)
    requires forall s :: 0 <= s < |st.write| ==> !st.write[s]
    ensures UsersOk(cfg, st.u) && Coherent(cfg, st)
  {
    forall i: nat ensures UserOk(cfg, st.u, i) {
    }
    UsersSelectMembers(cfg, st.u);
    forall q ensures !Known(ViewOf(cfg, st), q) {
      assert Blank(st, Of(q));
    }
    forall s: nat ensures SymbolOk(cfg, st, s) {
      assert Blank(st, SymItem(s));
    }
    forall c: nat ensures ChoiceOk(cfg, st, c) {
      assert Blank(st, ChoiceItem(c));
    }
  }
}
