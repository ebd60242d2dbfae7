// What an assignment can change: nothing outside the items that transitively depend on it, and not
// the assigned symbol's own visibility.
module Locality {
  import opened Model
  import opened Semantics
  import opened Dependencies
  import opened Evaluation
  import opened CacheState
  import opened UserValues
  import opened Invalidation

  // d contains the dependents of its items; MODULES has every item as a hidden dependent.
  ghost predicate ClosedUnderDependents(cfg: Config, d: iset<Item>) {
    forall x, y :: x in d && (DependsOn(cfg, y, x) || IsModules(cfg, x)) ==> y in d
  }

  // The two records differ only in values of items in d.
  ghost predicate DifferOnlyAt(u: Users, u': Users, d: iset<Item>) {
    && (forall s: nat :: SymItem(s) !in d ==> u.UserTri(s) == u'.UserTri(s) && u.UserStr(s) == u'.UserStr(s))
    && (forall c: nat :: ChoiceItem(c) !in d ==> u.UserSel(c) == u'.UserSel(c) && u.UserMode(c) == u'.UserMode(c))
  }

  lemma {:induction false} OutsideUnchanged(k: View, k': View, d: iset<Item>, r: Ranking, q: Quantity)
    requires k.cfg == k'.cfg && WellFormed(k.cfg) && Ranks(k.cfg, r)
    requires Solution(k) && Solution(k') && SelectsMembers(k.cfg, k.u)
    requires ClosedUnderDependents(k.cfg, d) && DifferOnlyAt(k.u, k'.u, d)
    requires InRange(k.cfg, q) && Of(q) !in d
    ensures LeqAt(k, k', q)
    decreases r.of(q)
  {
    assert ReadsLower(k.cfg, r, q);
    forall q' | q' in Reads(k.cfg, q) ensures LeqAt(k, k', q') {
      ReadsAreRecorded(k.cfg, q, q');
      OutsideUnchanged(k, k', d, r, q');
    }
    RuleLeq(k, k', q);
    assert Recomputed(k, q) && Recomputed(k', q);
  }

  ghost predicate Path(cfg: Config, p: seq<Item>) {
    |p| > 0 && forall i :: 0 < i < |p| ==> DependsOn(cfg, p[i], p[i - 1]) || IsModules(cfg, p[i - 1])
  }

  // y is x or depends on it through a chain of recorded dependencies (or through MODULES).
  ghost predicate Affects(cfg: Config, x: Item, y: Item) {
    exists p :: Path(cfg, p) && p[0] == x && p[|p| - 1] == y
  }

  ghost function AffectedBy(cfg: Config, xs: set<Item>): iset<Item> { iset x, y | x in xs && Affects(cfg, x, y) :: y }

  lemma {:induction false} AffectedIsClosed(cfg: Config, xs: set<Item>)
    ensures ClosedUnderDependents(cfg, AffectedBy(cfg, xs))
    ensures forall x :: x in xs ==> x in AffectedBy(cfg, xs)
  {
    forall y, z | y in AffectedBy(cfg, xs) && (DependsOn(cfg, z, y) || IsModules(cfg, y)) ensures z in AffectedBy(cfg, xs) {
      var x :| x in xs && Affects(cfg, x, y);
      var p :| Path(cfg, p) && p[0] == x && p[|p| - 1] == y;
      assert Path(cfg, p + [z]) && (p + [z])[0] == x && (p + [z])[|p + [z]| - 1] == z;
      assert Affects(cfg, x, z);
    }
    forall x | x in xs ensures x in AffectedBy(cfg, xs) {
      assert Path(cfg, [x]) && [x][0] == x && [x][|[x]| - 1] == x;
      assert Affects(cfg, x, x);
    }
  }

  // What set_value() on s changes directly.
  function Assigned(cfg: Config, s: nat): set<Item> {
    {SymItem(s)} + (if cfg.S(s).choice.Some? then {ChoiceItem(cfg.S(s).choice.value)} else {})
  }

  lemma {:induction false} SetUserDiffers(cfg: Config, u: Users, s: nat, v: UserVal, d: iset<Item>)
    requires forall x :: x in Assigned(cfg, s) ==> x in d
    ensures DifferOnlyAt(u, SetUser(cfg, u, s, v), d)
  {
    assert SymItem(s) in Assigned(cfg, s);
    if cfg.S(s).choice.Some? {
      assert ChoiceItem(cfg.S(s).choice.value) in Assigned(cfg, s);
    }
  }

  lemma {:induction false} ValuesOutside(cfg: Config, u: Users, u': Users, d: iset<Item>, q: Quantity)
    requires WellFormed(cfg) && Evaluable(cfg) && SelectsMembers(cfg, u) && SelectsMembers(cfg, u')
    requires ClosedUnderDependents(cfg, d) && DifferOnlyAt(u, u', d) && InRange(cfg, q) && Of(q) !in d
    ensures Known(Evaluated(cfg, u), q) && LeqAt(Evaluated(cfg, u), Evaluated(cfg, u'), q)
  {
    ValuesAreTheSolution(cfg, u);
    ValuesAreTheSolution(cfg, u');
    var r :| Ranks(cfg, r);
    OutsideUnchanged(Evaluated(cfg, u), Evaluated(cfg, u'), d, r, q);
    assert Recomputed(Evaluated(cfg, u), q);
  }

  // Symbol.set_value() changes the value of nothing but the symbol, its choice, and what
  // transitively depends on them.
  lemma {:induction false} AssignmentIsLocal(cfg: Config, u: Users, s: nat, v: UserVal, q: Quantity)
    requires WellFormed(cfg) && Evaluable(cfg) && UsersOk(cfg, u) && UsersOk(cfg, SetUser(cfg, u, s, v))
    requires InRange(cfg, q) && Of(q) !in AffectedBy(cfg, Assigned(cfg, s))
    ensures Known(Evaluated(cfg, u), q) && LeqAt(Evaluated(cfg, u), Evaluated(cfg, SetUser(cfg, u, s, v)), q)
  {
    AffectedIsClosed(cfg, Assigned(cfg, s));
    SetUserDiffers(cfg, u, s, v, AffectedBy(cfg, Assigned(cfg, s)));
    UsersSelectMembers(cfg, u);
    UsersSelectMembers(cfg, SetUser(cfg, u, s, v));
    ValuesOutside(cfg, u, SetUser(cfg, u, s, v), AffectedBy(cfg, Assigned(cfg, s)), q);
  }

  // Everything ranked below what the assignment changes directly keeps its value.
  lemma {:induction false} BelowUnchanged(k: View, k': View, r: Ranking, b: nat, q: Quantity)
    requires k.cfg == k'.cfg && Ranks(k.cfg, r) && Solution(k) && Solution(k') && SelectsMembers(k.cfg, k.u)
    requires k.u.mode == k'.u.mode
    requires forall q' :: r.of(q') < b && InRange(k.cfg, q') ==> SameUser(k.u, k'.u, q')
    requires InRange(k.cfg, q) && r.of(q) < b
    ensures LeqAt(k, k', q)
    decreases r.of(q)
  {
    assert ReadsLower(k.cfg, r, q);
    forall q' | q' in Reads(k.cfg, q) ensures LeqAt(k, k', q') {
      BelowUnchanged(k, k', r, b, q');
    }
    RuleLeq(k, k', q);
    assert Recomputed(k, q) && Recomputed(k', q);
  }

  // The first value that set_value() on s can change.
  function FirstChanged(cfg: Config, s: nat): Quantity {
    if !cfg.Boolish(s) then SymStr(s)
    else if cfg.S(s).choice.Some? then ChoiceSel(cfg.S(s).choice.value)
    else SymTri(s)
  }

  lemma {:induction false} AcceptedUserOk(cfg: Config, u: Users, s: nat, v: UserVal)
    requires WellFormed(cfg) && UsersOk(cfg, u) && s < |cfg.syms| && Accepts(cfg, s, v)
    ensures UsersOk(cfg, SetUser(cfg, u, s, v))
  {
    assert ChoiceSymbolOk(cfg, s);
    forall i: nat ensures UserOk(cfg, SetUser(cfg, u, s, v), i) {
      assert UserOk(cfg, u, i);
    }
  }

  lemma {:induction false} VisibilityIsInput(cfg: Config, s: nat)
    requires WellFormed(cfg) && s < |cfg.syms| && cfg.S(s).typ != Unknown
    ensures InRange(cfg, FirstChanged(cfg, s)) && SymVis(s) in Reads(cfg, FirstChanged(cfg, s))
  {
    if cfg.Boolish(s) && cfg.S(s).choice.Some? {
      var c := cfg.S(s).choice.value;
      assert ChoiceSymbolOk(cfg, s);
      var i :| 0 <= i < |cfg.C(c).members| && cfg.C(c).members[i] == s;
      assert SymVis(cfg.C(c).members[i]) in Reads(cfg, ChoiceSel(c));
    }
  }

  // What is ranked below that value does not look at the changed user value.
  lemma {:induction false} InputsRankedBelow(cfg: Config, u: Users, s: nat, v: UserVal, r: Ranking, q: Quantity)
    requires WellFormed(cfg) && Ranks(cfg, r) && UsersOk(cfg, u) && s < |cfg.syms| == |u.val| && Accepts(cfg, s, v)
    requires r.of(q) < r.of(FirstChanged(cfg, s)) && InRange(cfg, q)
    ensures SameUser(u, SetUser(cfg, u, s, v), q)
  {
    assert UserOk(cfg, u, s) && ReadsLower(cfg, r, SymTri(s));
    if cfg.Boolish(s) && cfg.S(s).choice.Some? {
      assert FirstChanged(cfg, s) in Reads(cfg, SymTri(s));
    }
  }

  lemma {:induction false} BelowFirstChanged(cfg: Config, u: Users, s: nat, v: UserVal, r: Ranking, q: Quantity)
    requires WellFormed(cfg) && Evaluable(cfg) && UsersOk(cfg, u) && s < |cfg.syms| == |u.val| && Accepts(cfg, s, v)
    requires Ranks(cfg, r) && InRange(cfg, q) && r.of(q) < r.of(FirstChanged(cfg, s))
    ensures Known(Evaluated(cfg, u), q) && LeqAt(Evaluated(cfg, u), Evaluated(cfg, SetUser(cfg, u, s, v)), q)
  {
    var u' := SetUser(cfg, u, s, v);
    AcceptedUserOk(cfg, u, s, v);
    UsersSelectMembers(cfg, u);
    UsersSelectMembers(cfg, u');
    ValuesAreTheSolution(cfg, u);
    ValuesAreTheSolution(cfg, u');
    var b := r.of(FirstChanged(cfg, s));
    forall q' | r.of(q') < b && InRange(cfg, q') ensures SameUser(u, u', q') {
      InputsRankedBelow(cfg, u, s, v, r, q');
    }
    BelowUnchanged(Evaluated(cfg, u), Evaluated(cfg, u'), r, b, q);
    assert Recomputed(Evaluated(cfg, u), q);
  }

  // Assigning any symbol any value of the right form leaves its visibility as it was, what that is
  // computed from, and everything that the value of the symbol is computed from: its conditions,
  // defaults and ranges, or, in a choice, the mode and the visibility of every symbol of the choice.
  lemma {:induction false} OwnInputsUnchanged(cfg: Config, u: Users, s: nat, v: UserVal, q: Quantity)
    requires WellFormed(cfg) && Evaluable(cfg) && UsersOk(cfg, u) && s < |cfg.syms| == |u.val| && Accepts(cfg, s, v)
    requires q == SymVis(s) || q in Reads(cfg, SymVis(s)) || q in Reads(cfg, FirstChanged(cfg, s))
    ensures Known(Evaluated(cfg, u), q) && LeqAt(Evaluated(cfg, u), Evaluated(cfg, SetUser(cfg, u, s, v)), q)
  {
    var r :| Ranks(cfg, r);
    VisibilityIsInput(cfg, s);
    assert ReadsLower(cfg, r, FirstChanged(cfg, s)) && ReadsLower(cfg, r, SymVis(s));
    BelowFirstChanged(cfg, u, s, v, r, q);
  }

  // What selects or implies s does not depend on what is assigned to s. (The source warns about any
  // select or imply of a choice symbol; without one the predicate is true.)
  ghost predicate SelectsOutside(cfg: Config, s: nat) {
    forall q :: q in ExprRefs(cfg, cfg.S(s).revDep) + ExprRefs(cfg, cfg.S(s).weakRevDep) ==> Of(q) !in AffectedBy(cfg, Assigned(cfg, s))
  }

  // So assigning a value never changes what may be assigned.
  lemma {:induction false} AssignableUnchanged(cfg: Config, u: Users, s: nat, v: UserVal)
    requires WellFormed(cfg) && Evaluable(cfg) && UsersOk(cfg, u) && s < |cfg.syms| == |u.val| && Accepts(cfg, s, v)
    requires cfg.S(s).choice.Some? ==> SelectsOutside(cfg, s)
    ensures Evaluated(cfg, u).Assignable(s).Some?
    ensures Evaluated(cfg, SetUser(cfg, u, s, v)).Assignable(s) == Evaluated(cfg, u).Assignable(s)
  {
    var k, k' := Evaluated(cfg, u), Evaluated(cfg, SetUser(cfg, u, s, v));
    if cfg.Boolish(s) {
      AcceptedUserOk(cfg, u, s, v);
      forall q | q in AssignableReads(cfg, s) ensures Known(k, q) && LeqAt(k, k', q) {
        if q == SymVis(s) || q in Reads(cfg, SymVis(s)) || q in Reads(cfg, FirstChanged(cfg, s)) {
          OwnInputsUnchanged(cfg, u, s, v, q);
        } else {
          assert SelectsOk(cfg, s);
          AssignmentIsLocal(cfg, u, s, v, q);
        }
      }
      AssignableLeq(k, k', s);
    }
  }
}
