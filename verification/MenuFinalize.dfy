// What finalising the menu tree gives, as functions on trees: implicit submenus, flattening, removal
// of ifs, and the properties collected on the symbols. p holds the properties of every node after
// dependency propagation.
module MenuFinalize {
  import opened Basics
  import opened Model
  import opened Semantics
  import opened MenuTree
  import opened Propagation
  import ExprSyntax

  // ---- implicit submenus ----

  // 'o = m', 'o = y' or 'o != n'. (As the conditions are grouped in the source, also 'o != y'.)
  predicate NeedsNonN(rel: Relation, other: Operand) {
    (rel == Equal && other == Const(1)) || other == Const(2) || (rel == Unequal && other == Const(0))
  }

  // _expr_depends_on()
  predicate ExprDependsOn(e: Expr, s: nat) {
    match e
    case Leaf(o) => o == Sym(s)
    case Compare(rel, l, r) =>
      if rel != Equal && rel != Unequal then false
      else if r == Sym(s) then NeedsNonN(rel, l)
      else l == Sym(s) && NeedsNonN(rel, r)
    case And(l, r) => ExprDependsOn(l, s) || ExprDependsOn(r, s)
    case _ => false
  }

  // _auto_menu_dep()
  predicate AutoMenuDep(s: nat, p: Props) { ExprDependsOn(if p.prompt.Some? then p.prompt.value.cond else p.dep, s) }

  // 's != y'
  predicate IsNotY(e: Expr, s: nat) {
    e == Compare(Unequal, Sym(s), Const(2)) || e == Compare(Unequal, Const(2), Sym(s))
  }

  lemma {:induction false} OneCondition(k: View, e: Expr, s: nat)
    requires !e.And? && k.cfg.Boolish(s) && k.TriOf(Sym(s)) == Some(0)
    ensures IsNotY(e, s) ==> k.Eval(e) == Some(2)
    ensures ExprDependsOn(e, s) && !IsNotY(e, s) ==> k.Eval(e) == Some(0)
  {
  }

  // While s is n, the conjunct does not keep what it belongs to invisible.
  predicate LetsThrough(k: View, e: Expr, s: nat) { IsNotY(e, s) || (!ExprDependsOn(e, s) && k.Eval(e) != Some(0)) }

  predicate AllLetThrough(k: View, es: seq<Expr>, s: nat) { forall e :: e in es ==> LetsThrough(k, e, s) }

  lemma {:induction false} DependingConjunct(e: Expr, s: nat)
    ensures ExprDependsOn(e, s) <==> exists c :: c in ExprSyntax.SplitAnd(e) && ExprDependsOn(c, s)
  {
    if e.And? {
      DependingConjunct(e.l, s);
      DependingConjunct(e.r, s);
    } else {
      assert e in ExprSyntax.SplitAnd(e);
    }
  }

  lemma {:induction false} ShownWhile(k: View, e: Expr, s: nat)
    requires k.cfg.Boolish(s) && k.TriOf(Sym(s)) == Some(0) && k.Eval(e).Some?
    ensures k.Eval(e) != Some(0) <==> AllLetThrough(k, ExprSyntax.SplitAnd(e), s)
  {
    if e.And? {
      ShownWhile(k, e.l, s);
      if k.Eval(e.l) != Some(0) {
        ShownWhile(k, e.r, s);
      }
    } else {
      OneCondition(k, e, s);
      assert e in ExprSyntax.SplitAnd(e);
    }
  }

  // The documentation promises that what goes into an implicit submenu of a symbol is invisible while
  // the symbol is n. It is visible then if and only if every conjunct of its condition is 's != y', or
  // is met and not one of those that count as a dependency on s.
  lemma {:induction false} SubmenuIsHidden(k: View, e: Expr, s: nat)
    requires ExprDependsOn(e, s)
    requires k.cfg.Boolish(s) && k.TriOf(Sym(s)) == Some(0) && k.Eval(e).Some?
    ensures k.Eval(e) != Some(0) <==> AllLetThrough(k, ExprSyntax.SplitAnd(e), s)
    ensures k.Eval(e) != Some(0) ==> exists c :: c in ExprSyntax.SplitAnd(e) && IsNotY(c, s)
  {
    ShownWhile(k, e, s);
    DependingConjunct(e, s);
    if k.Eval(e) != Some(0) {
      var c :| c in ExprSyntax.SplitAnd(e) && ExprDependsOn(c, s);
      assert LetsThrough(k, c, s);
    }
  }

  // The conjunct that says so makes it visible instead.
  lemma {:induction false} NotYIsShown(k: View, s: nat)
    requires k.cfg.Boolish(s) && k.TriOf(Sym(s)) == Some(0)
    ensures ExprDependsOn(Compare(Unequal, Sym(s), Const(2)), s) && k.Eval(Compare(Unequal, Sym(s), Const(2))) == Some(2)
  {
  }

  // ---- the properties collected on symbols ----

  datatype SymAcc = SymAcc(directDep: Expr, defaults: seq<Default>, ranges: seq<Range>, selects: seq<Target>, implies: seq<Target>,
                           revDep: Expr, weakRevDep: Expr)

  const NEW_SYMBOL: SymAcc := SymAcc(NO, [], [], [], [], NO, NO)

  // The symbols by number; a symbol that is not there yet has no properties.
  type Accs = map<nat, SymAcc>

  function Acc(a: Accs, s: nat): SymAcc { if s in a then a[s] else NEW_SYMBOL }

  // The first n selects of a node of symbol s reach their targets.
  function WithSelects(a: Accs, s: nat, ts: seq<Target>): Accs {
    if ts == [] then a
    else
      var b := WithSelects(a, s, ts[..|ts| - 1]);
      var t := ts[|ts| - 1];
      b[t.sym := Acc(b, t.sym).(revDep := MakeOr(Acc(b, t.sym).revDep, MakeAnd(Leaf(Sym(s)), t.cond)))]
  }

  function WithImplies(a: Accs, s: nat, ts: seq<Target>): Accs {
    if ts == [] then a
    else
      var b := WithImplies(a, s, ts[..|ts| - 1]);
      var t := ts[|ts| - 1];
      b[t.sym := Acc(b, t.sym).(weakRevDep := MakeOr(Acc(b, t.sym).weakRevDep, MakeAnd(Leaf(Sym(s)), t.cond)))]
  }

  function WithNode(a: Accs, s: nat, p: Props): Accs {
    var d := Acc(a, s);
    a[s := d.(directDep := MakeOr(d.directDep, p.dep), defaults := d.defaults + p.defaults, ranges := d.ranges + p.ranges,
              selects := d.selects + p.selects, implies := d.implies + p.implies)]
  }

  // _add_props_to_sym()
  function WithProps(a: Accs, s: nat, p: Props): Accs { WithImplies(WithSelects(WithNode(a, s, p), s, p.selects), s, p.implies) }

  // ---- the finalised tree ----

  datatype Finished = Finished(tree: Tree, rest: seq<Tree>, accs: Accs)

  datatype Level = Level(trees: seq<Tree>, rest: seq<Tree>, accs: Accs)

  ghost function Bare(p: map<MenuNode, Props>): set<MenuNode> { set n | n in p && p[n].prompt.None? }

  ghost function PropsIn(p: map<MenuNode, Props>, n: MenuNode): Props {
    if n in p then p[n] else Props(None, YES, YES, [], [], [], [])
  }

  // The last steps for a level of the tree.
  ghost function Shaped(ts: seq<Tree>, p: map<MenuNode, Props>): seq<Tree> { WithoutIfs(Flattened(ts, Bare(p))) }

  // _finalize_tree() for the first of ts, apart from the propagation; a symbol may absorb some of the
  // following trees as an implicit submenu.
  ghost function Finish(ts: seq<Tree>, p: map<MenuNode, Props>, a: Accs): (f: Finished)
    requires ts != []
    ensures |Nodes(f.rest)| < |Nodes(ts)| && |f.rest| < |ts|
    decreases |Nodes(ts)|, 0
  {
    var t := ts[0];
    if t.kids != [] then
      var l := FinishLevel(t.kids, p, a);
      Finished(Tree(t.node, Shaped(l.trees, p)), ts[1..], l.accs)
    else if t.node.item.SymNode? then
      var l := Absorbed(t.node.item.s, ts[1..], p, WithProps(a, t.node.item.s, PropsIn(p, t.node)));
      Finished(Tree(t.node, Shaped(l.trees, p)), l.rest, l.accs)
    else Finished(t, ts[1..], a)
  }

  // The trees that go into the implicit submenu of symbol s, finalised, and what is left.
  ghost function Absorbed(s: nat, ts: seq<Tree>, p: map<MenuNode, Props>, a: Accs): (l: Level)
    ensures |Nodes(l.rest)| <= |Nodes(ts)| && |l.rest| <= |ts|
    decreases |Nodes(ts)|, 1
  {
    if ts == [] || !AutoMenuDep(s, PropsIn(p, ts[0].node)) then Level([], ts, a)
    else
      var f := Finish(ts, p, a);
      var l := Absorbed(s, f.rest, p, f.accs);
      Level([f.tree] + l.trees, l.rest, l.accs)
  }

  // The loop over the children.
  ghost function FinishLevel(ts: seq<Tree>, p: map<MenuNode, Props>, a: Accs): (l: Level)
    ensures l.rest == []
    decreases |Nodes(ts)|, 1
  {
    if ts == [] then Level([], [], a)
    else
      var f := Finish(ts, p, a);
      var l := FinishLevel(f.rest, p, f.accs);
      Level([f.tree] + l.trees, [], l.accs)
  }

  // ---- order ----

  ghost function NonIf(ns: seq<MenuNode>): seq<MenuNode> {
    if ns == [] then [] else (if ns[0].item.IfNode? then [] else [ns[0]]) + NonIf(ns[1..])
  }

  lemma {:induction false} NonIfConcat(a: seq<MenuNode>, b: seq<MenuNode>)
    ensures NonIf(a + b) == NonIf(a) + NonIf(b)
  {
    if a == [] {
      assert a + b == b;
    } else {
      assert (a + b)[1..] == a[1..] + b;
      NonIfConcat(a[1..], b);
    }
  }

  // Ifs have no prompt.
  ghost predicate IfsBare(ts: seq<Tree>, p: map<MenuNode, Props>) {
    ts == [] || ((ts[0].node.item.IfNode? ==> ts[0].node in Bare(p)) && IfsBare(ts[0].kids, p) && IfsBare(ts[1..], p))
  }

  // The nodes of a first tree and of the rest.
  lemma {:induction false} NodesSplit(ts: seq<Tree>)
    requires ts != []
    ensures NonIf(Nodes(ts)) == (if ts[0].node.item.IfNode? then [] else [ts[0].node]) + NonIf(Nodes(ts[0].kids)) + NonIf(Nodes(ts[1..]))
  {
    NonIfConcat([ts[0].node] + Nodes(ts[0].kids), Nodes(ts[1..]));
    NonIfConcat([ts[0].node], Nodes(ts[0].kids));
    assert NonIf([ts[0].node]) == if ts[0].node.item.IfNode? then [] else [ts[0].node] by {
      assert [ts[0].node][1..] == [];
    }
  }

  lemma {:induction false} IfsBareConcat(a: seq<Tree>, b: seq<Tree>, p: map<MenuNode, Props>)
    requires IfsBare(a, p) && IfsBare(b, p)
    ensures IfsBare(a + b, p)
  {
    if a == [] {
      assert a + b == b;
    } else {
      assert (a + b)[1..] == a[1..] + b;
      IfsBareConcat(a[1..], b, p);
    }
  }

  // After flattening, removing the ifs removes nothing but ifs.
  lemma {:induction false} ShapedKeepsOrder(ts: seq<Tree>, p: map<MenuNode, Props>)
    requires IfsBare(ts, p)
    ensures NonIf(Nodes(Shaped(ts, p))) == NonIf(Nodes(ts)) && IfsBare(Shaped(ts, p), p)
    decreases |Nodes(ts)|
  {
    if ts != [] {
      var t := ts[0];
      NodesSplit(ts);
      if t.kids != [] && t.node in Bare(p) && !t.node.item.ChoiceNode? {
        NodesConcat(t.kids, ts[1..]);
        IfsBareConcat(t.kids, ts[1..], p);
        ShapedKeepsOrder(t.kids + ts[1..], p);
        NonIfConcat(Nodes(t.kids), Nodes(ts[1..]));
        OneBare(Tree(t.node, []), p);
        OneShaped(Tree(t.node, []), Flattened(t.kids + ts[1..], Bare(p)), p);
        Regroup(if t.node.item.IfNode? then [] else [t.node], NonIf(Nodes(t.kids)), NonIf(Nodes(ts[1..])));
      } else {
        ShapedKeepsOrder(ts[1..], p);
        OneBare(t, p);
        OneShaped(t, Flattened(ts[1..], Bare(p)), p);
      }
    }
  }

  lemma {:induction false} OneBare(t: Tree, p: map<MenuNode, Props>)
    ensures IfsBare([t], p) <==> (t.node.item.IfNode? ==> t.node in Bare(p)) && IfsBare(t.kids, p)
  {
    assert [t][1..] == [];
  }

  // Dropping the ifs of a level whose first tree is t.
  lemma {:induction false} OneShaped(t: Tree, more: seq<Tree>, p: map<MenuNode, Props>)
    requires t.node.item.IfNode? ==> t.kids == []
    requires IfsBare([t], p) && IfsBare(WithoutIfs(more), p)
    ensures NonIf(Nodes(WithoutIfs([t] + more))) ==
            (if t.node.item.IfNode? then [] else [t.node]) + NonIf(Nodes(t.kids)) + NonIf(Nodes(WithoutIfs(more)))
    ensures IfsBare(WithoutIfs([t] + more), p)
  {
    assert ([t] + more)[1..] == more;
    if t.node.item.IfNode? {
      assert WithoutIfs([t] + more) == WithoutIfs(more);
    } else {
      var ts := [t] + WithoutIfs(more);
      assert ts[1..] == WithoutIfs(more);
      NodesSplit(ts);
      IfsBareConcat([t], WithoutIfs(more), p);
    }
  }

  lemma {:induction false} OneTree(t: Tree)
    ensures NonIf(Nodes([t])) == (if t.node.item.IfNode? then [] else [t.node]) + NonIf(Nodes(t.kids))
  {
    assert [t][1..] == [];
    NodesSplit([t]);
  }

  lemma {:induction false} FinishKeepsOrder(ts: seq<Tree>, p: map<MenuNode, Props>, a: Accs)
    requires ts != [] && IfsBare(ts, p)
    ensures
      var f := Finish(ts, p, a);
      NonIf(Nodes(ts)) == NonIf(Nodes([f.tree])) + NonIf(Nodes(f.rest)) && IfsBare([f.tree], p) && IfsBare(f.rest, p)
    decreases |Nodes(ts)|, 0
  {
    var t := ts[0];
    if t.kids != [] {
      FinishLevelKeepsOrder(t.kids, p, a);
      ParentKeepsOrder(ts, p, FinishLevel(t.kids, p, a).trees, ts[1..]);
    } else if t.node.item.SymNode? {
      var a' := WithProps(a, t.node.item.s, PropsIn(p, t.node));
      var l := Absorbed(t.node.item.s, ts[1..], p, a');
      AbsorbedKeepsOrder(t.node.item.s, ts[1..], p, a');
      ParentKeepsOrder(ts, p, l.trees, l.rest);
    } else {
      LeafKeepsOrder(ts, p);
    }
  }

  lemma {:induction false} LeafKeepsOrder(ts: seq<Tree>, p: map<MenuNode, Props>)
    requires ts != [] && IfsBare(ts, p)
    ensures NonIf(Nodes(ts)) == NonIf(Nodes([ts[0]])) + NonIf(Nodes(ts[1..])) && IfsBare([ts[0]], p)
  {
    NodesSplit(ts);
    OneTree(ts[0]);
    OneBare(ts[0], p);
  }

  // The node of ts[0] with the given children, which come from its own ones or from the trees after it.
  lemma {:induction false} ParentKeepsOrder(ts: seq<Tree>, p: map<MenuNode, Props>, kids: seq<Tree>, rest: seq<Tree>)
    requires ts != [] && IfsBare(ts, p) && IfsBare(kids, p)
    requires NonIf(Nodes(ts[0].kids)) + NonIf(Nodes(ts[1..])) == NonIf(Nodes(kids)) + NonIf(Nodes(rest))
    ensures
      var t := Tree(ts[0].node, Shaped(kids, p));
      NonIf(Nodes(ts)) == NonIf(Nodes([t])) + NonIf(Nodes(rest)) && IfsBare([t], p)
  {
    var t := Tree(ts[0].node, Shaped(kids, p));
    NodesSplit(ts);
    OneTree(t);
    ShapedKeepsOrder(kids, p);
    assert [t][1..] == [];
    var top := if t.node.item.IfNode? then [] else [t.node];
    Regroup(top, NonIf(Nodes(ts[0].kids)), NonIf(Nodes(ts[1..])));
    Regroup(top, NonIf(Nodes(kids)), NonIf(Nodes(rest)));
  }

  // A finished tree in front of some more.
  lemma {:induction false} OneFinished(t: Tree, more: seq<Tree>, p: map<MenuNode, Props>)
    requires IfsBare([t], p) && IfsBare(more, p)
    ensures NonIf(Nodes([t] + more)) == NonIf(Nodes([t])) + NonIf(Nodes(more)) && IfsBare([t] + more, p)
  {
    NodesConcat([t], more);
    NonIfConcat(Nodes([t]), Nodes(more));
    IfsBareConcat([t], more, p);
  }

  lemma {:induction false} AbsorbedKeepsOrder(s: nat, ts: seq<Tree>, p: map<MenuNode, Props>, a: Accs)
    requires IfsBare(ts, p)
    ensures
      var l := Absorbed(s, ts, p, a);
      NonIf(Nodes(ts)) == NonIf(Nodes(l.trees)) + NonIf(Nodes(l.rest)) && IfsBare(l.trees, p) && IfsBare(l.rest, p)
    decreases |Nodes(ts)|, 1
  {
    if ts != [] && AutoMenuDep(s, PropsIn(p, ts[0].node)) {
      var f := Finish(ts, p, a);
      FinishKeepsOrder(ts, p, a);
      var l := Absorbed(s, f.rest, p, f.accs);
      AbsorbedKeepsOrder(s, f.rest, p, f.accs);
      OneFinished(f.tree, l.trees, p);
      Regroup(NonIf(Nodes([f.tree])), NonIf(Nodes(l.trees)), NonIf(Nodes(l.rest)));
    }
  }

  lemma {:induction false} FinishLevelKeepsOrder(ts: seq<Tree>, p: map<MenuNode, Props>, a: Accs)
    requires IfsBare(ts, p)
    ensures NonIf(Nodes(FinishLevel(ts, p, a).trees)) == NonIf(Nodes(ts)) && IfsBare(FinishLevel(ts, p, a).trees, p)
    decreases |Nodes(ts)|, 1
  {
    if ts != [] {
      var f := Finish(ts, p, a);
      FinishKeepsOrder(ts, p, a);
      FinishLevelKeepsOrder(f.rest, p, f.accs);
      OneFinished(f.tree, FinishLevel(f.rest, p, f.accs).trees, p);
    }
  }

  // ---- no if is left ----

  ghost predicate NoIfs(ts: seq<Tree>) { ts == [] || (!ts[0].node.item.IfNode? && NoIfs(ts[0].kids) && NoIfs(ts[1..])) }

  // There are ifs at most at the top.
  ghost predicate NoIfsBelow(ts: seq<Tree>) { ts == [] || (NoIfs(ts[0].kids) && NoIfsBelow(ts[1..])) }

  lemma {:induction false} NoIfsMeansAll(ts: seq<Tree>)
    requires NoIfs(ts)
    ensures NonIf(Nodes(ts)) == Nodes(ts) && NoIfsBelow(ts)
  {
    if ts != [] {
      NodesSplit(ts);
      NoIfsMeansAll(ts[0].kids);
      NoIfsMeansAll(ts[1..]);
    }
  }

  lemma {:induction false} NoIfsBelowConcat(a: seq<Tree>, b: seq<Tree>)
    requires NoIfsBelow(a) && NoIfsBelow(b)
    ensures NoIfsBelow(a + b)
  {
    if a == [] {
      assert a + b == b;
    } else {
      assert (a + b)[1..] == a[1..] + b;
      NoIfsBelowConcat(a[1..], b);
    }
  }

  lemma {:induction false} ShapedHasNoIfs(ts: seq<Tree>, p: map<MenuNode, Props>)
    requires NoIfsBelow(ts)
    ensures NoIfs(Shaped(ts, p))
    decreases |Nodes(ts)|
  {
    if ts != [] {
      var t := ts[0];
      if t.kids != [] && t.node in Bare(p) && !t.node.item.ChoiceNode? {
        NodesConcat(t.kids, ts[1..]);
        NoIfsMeansAll(t.kids);
        NoIfsBelowConcat(t.kids, ts[1..]);
        ShapedHasNoIfs(t.kids + ts[1..], p);
        OneWithoutIfs(Tree(t.node, []), Flattened(t.kids + ts[1..], Bare(p)));
      } else {
        ShapedHasNoIfs(ts[1..], p);
        OneWithoutIfs(t, Flattened(ts[1..], Bare(p)));
      }
    }
  }

  lemma {:induction false} OneWithoutIfs(t: Tree, more: seq<Tree>)
    requires NoIfs(t.kids) && NoIfs(WithoutIfs(more))
    ensures NoIfs(WithoutIfs([t] + more))
  {
    assert ([t] + more)[1..] == more;
    if t.node.item.IfNode? {
      assert WithoutIfs([t] + more) == WithoutIfs(more);
    } else {
      assert ([t] + WithoutIfs(more))[1..] == WithoutIfs(more);
    }
  }

  lemma {:induction false} FinishedHasNoIfs(ts: seq<Tree>, p: map<MenuNode, Props>, a: Accs)
    requires ts != []
    ensures NoIfs(Finish(ts, p, a).tree.kids)
    decreases |Nodes(ts)|, 0
  {
    var t := ts[0];
    if t.kids != [] {
      FinishedLevelHasNoIfs(t.kids, p, a);
      ShapedHasNoIfs(FinishLevel(t.kids, p, a).trees, p);
    } else if t.node.item.SymNode? {
      var a' := WithProps(a, t.node.item.s, PropsIn(p, t.node));
      AbsorbedHasNoIfs(t.node.item.s, ts[1..], p, a');
      ShapedHasNoIfs(Absorbed(t.node.item.s, ts[1..], p, a').trees, p);
    }
  }

  lemma {:induction false} AbsorbedHasNoIfs(s: nat, ts: seq<Tree>, p: map<MenuNode, Props>, a: Accs)
    ensures NoIfsBelow(Absorbed(s, ts, p, a).trees)
    decreases |Nodes(ts)|, 1
  {
    if ts != [] && AutoMenuDep(s, PropsIn(p, ts[0].node)) {
      var f := Finish(ts, p, a);
      FinishedHasNoIfs(ts, p, a);
      AbsorbedHasNoIfs(s, f.rest, p, f.accs);
    }
  }

  lemma {:induction false} FinishedLevelHasNoIfs(ts: seq<Tree>, p: map<MenuNode, Props>, a: Accs)
    ensures NoIfsBelow(FinishLevel(ts, p, a).trees)
    decreases |Nodes(ts)|, 1
  {
    if ts != [] {
      var f := Finish(ts, p, a);
      FinishedHasNoIfs(ts, p, a);
      FinishedLevelHasNoIfs(f.rest, p, f.accs);
    }
  }

  // Finalising a menu leaves all its nodes but the ifs, in the order in which they were defined.
  lemma {:induction false} FinalisingKeepsOrder(kids: seq<Tree>, p: map<MenuNode, Props>, a: Accs)
    requires IfsBare(kids, p)
    ensures Nodes(Shaped(FinishLevel(kids, p, a).trees, p)) == NonIf(Nodes(kids))
  {
    FinishLevelKeepsOrder(kids, p, a);
    ShapedKeepsOrder(FinishLevel(kids, p, a).trees, p);
    FinishedLevelHasNoIfs(kids, p, a);
    ShapedHasNoIfs(FinishLevel(kids, p, a).trees, p);
    NoIfsMeansAll(Shaped(FinishLevel(kids, p, a).trees, p));
  }

  // ---- collected properties ----

  // Collecting from nodes one after the other.
  ghost function Collected(a: Accs, ns: seq<MenuNode>, p: map<MenuNode, Props>): Accs {
    if ns == [] then a
    else
      var b := Collected(a, ns[..|ns| - 1], p);
      var n := ns[|ns| - 1];
      if n.item.SymNode? then WithProps(b, n.item.s, PropsIn(p, n)) else b
  }

  lemma {:induction false} CollectedConcat(a: Accs, ns: seq<MenuNode>, ms: seq<MenuNode>, p: map<MenuNode, Props>)
    ensures Collected(a, ns + ms, p) == Collected(Collected(a, ns, p), ms, p)
  {
    if ms == [] {
      assert ns + ms == ns;
    } else {
      assert (ns + ms)[..|ns + ms| - 1] == ns + ms[..|ms| - 1];
      CollectedConcat(a, ns, ms[..|ms| - 1], p);
    }
  }

  // Symbols have nothing below them when the tree has just been read.
  ghost predicate SymbolsAreLeaves(ts: seq<Tree>) {
    ts == [] || ((ts[0].node.item.SymNode? ==> ts[0].kids == []) && SymbolsAreLeaves(ts[0].kids) && SymbolsAreLeaves(ts[1..]))
  }

  lemma {:induction false} CollectedSplit(a: Accs, ts: seq<Tree>, p: map<MenuNode, Props>)
    requires ts != []
    ensures Collected(a, Nodes(ts), p) ==
            Collected(Collected(Collected(a, [ts[0].node], p), Nodes(ts[0].kids), p), Nodes(ts[1..]), p)
    ensures Collected(a, [ts[0].node], p) == if ts[0].node.item.SymNode? then WithProps(a, ts[0].node.item.s, PropsIn(p, ts[0].node)) else a
  {
    CollectedConcat(a, [ts[0].node] + Nodes(ts[0].kids), Nodes(ts[1..]), p);
    CollectedConcat(a, [ts[0].node], Nodes(ts[0].kids), p);
    assert [ts[0].node][..0] == [];
  }

  lemma {:induction false} FinishCollects(ts: seq<Tree>, p: map<MenuNode, Props>, a: Accs)
    requires ts != [] && SymbolsAreLeaves(ts)
    ensures
      var f := Finish(ts, p, a);
      SymbolsAreLeaves(f.rest) && Collected(f.accs, Nodes(f.rest), p) == Collected(a, Nodes(ts), p)
    decreases |Nodes(ts)|, 0
  {
    var t := ts[0];
    CollectedSplit(a, ts, p);
    if t.kids != [] {
      FinishLevelCollects(t.kids, p, a);
    } else if t.node.item.SymNode? {
      AbsorbedCollects(t.node.item.s, ts[1..], p, WithProps(a, t.node.item.s, PropsIn(p, t.node)));
    }
  }

  lemma {:induction false} AbsorbedCollects(s: nat, ts: seq<Tree>, p: map<MenuNode, Props>, a: Accs)
    requires SymbolsAreLeaves(ts)
    ensures
      var l := Absorbed(s, ts, p, a);
      SymbolsAreLeaves(l.rest) && Collected(l.accs, Nodes(l.rest), p) == Collected(a, Nodes(ts), p)
    decreases |Nodes(ts)|, 1
  {
    if ts != [] && AutoMenuDep(s, PropsIn(p, ts[0].node)) {
      FinishCollects(ts, p, a);
      AbsorbedCollects(s, Finish(ts, p, a).rest, p, Finish(ts, p, a).accs);
    }
  }

  // Every node adds its properties to its symbol exactly once, in definition order.
  lemma {:induction false} FinishLevelCollects(ts: seq<Tree>, p: map<MenuNode, Props>, a: Accs)
    requires SymbolsAreLeaves(ts)
    ensures FinishLevel(ts, p, a).accs == Collected(a, Nodes(ts), p)
    decreases |Nodes(ts)|, 1
  {
    if ts != [] {
      FinishCollects(ts, p, a);
      FinishLevelCollects(Finish(ts, p, a).rest, p, Finish(ts, p, a).accs);
    }
  }

  // ---- what a symbol ends up with ----

  lemma {:induction false} SelectsTouchOnlyRevDeps(a: Accs, s: nat, ts: seq<Target>, t: nat)
    ensures
      var d, d' := Acc(a, t), Acc(WithSelects(a, s, ts), t);
      d' == d.(revDep := d'.revDep)
  {
    if ts != [] {
      SelectsTouchOnlyRevDeps(a, s, ts[..|ts| - 1], t);
    }
  }

  lemma {:induction false} ImpliesTouchOnlyWeakDeps(a: Accs, s: nat, ts: seq<Target>, t: nat)
    ensures
      var d, d' := Acc(a, t), Acc(WithImplies(a, s, ts), t);
      d' == d.(weakRevDep := d'.weakRevDep)
  {
    if ts != [] {
      ImpliesTouchOnlyWeakDeps(a, s, ts[..|ts| - 1], t);
    }
  }

  // The properties of the nodes of symbol s among ns, joined in order.
  ghost function DefaultsOf(ns: seq<MenuNode>, s: nat, p: map<MenuNode, Props>): seq<Default> {
    if ns == [] then [] else DefaultsOf(ns[..|ns| - 1], s, p) + if ns[|ns| - 1].item == SymNode(s) then PropsIn(p, ns[|ns| - 1]).defaults else []
  }

  ghost function RangesOf(ns: seq<MenuNode>, s: nat, p: map<MenuNode, Props>): seq<Range> {
    if ns == [] then [] else RangesOf(ns[..|ns| - 1], s, p) + if ns[|ns| - 1].item == SymNode(s) then PropsIn(p, ns[|ns| - 1]).ranges else []
  }

  lemma {:induction false} NodeAdds(a: Accs, n: MenuNode, s: nat, p: map<MenuNode, Props>)
    requires n.item.SymNode?
    ensures
      var d, d' := Acc(a, s), Acc(WithProps(a, n.item.s, PropsIn(p, n)), s);
      if n.item == SymNode(s) then
        && d'.defaults == d.defaults + PropsIn(p, n).defaults && d'.ranges == d.ranges + PropsIn(p, n).ranges
        && d'.directDep == MakeOr(d.directDep, PropsIn(p, n).dep)
      else d'.defaults == d.defaults && d'.ranges == d.ranges && d'.directDep == d.directDep
  {
    var props := PropsIn(p, n);
    var b := WithNode(a, n.item.s, props);
    SelectsTouchOnlyRevDeps(b, n.item.s, props.selects, s);
    ImpliesTouchOnlyWeakDeps(WithSelects(b, n.item.s, props.selects), n.item.s, props.implies, s);
  }

  // The defaults and ranges of a symbol are those of its nodes in definition order.
  lemma {:induction false} CollectedInOrder(ns: seq<MenuNode>, s: nat, p: map<MenuNode, Props>)
    ensures Acc(Collected(map[], ns, p), s).defaults == DefaultsOf(ns, s, p)
    ensures Acc(Collected(map[], ns, p), s).ranges == RangesOf(ns, s, p)
  {
    if ns != [] {
      var init, n := ns[..|ns| - 1], ns[|ns| - 1];
      CollectedInOrder(init, s, p);
      if n.item.SymNode? {
        NodeAdds(Collected(map[], init, p), n, s, p);
      }
    }
  }

  lemma {:induction false} MakeOrIsNotLess(k: View, a: Expr, b: Expr)
    ensures k.Eval(MakeOr(a, b)) == Some(0) ==> k.Eval(a) == Some(0) && k.Eval(b) == Some(0)
  {
    ConstantsMean(k);
  }

  // While the direct dependencies of a symbol are n, so are those of each of its nodes.
  lemma {:induction false} DirectDepCoversNodes(k: View, ns: seq<MenuNode>, s: nat, p: map<MenuNode, Props>, i: nat)
    requires i < |ns| && ns[i].item == SymNode(s) && k.Eval(Acc(Collected(map[], ns, p), s).directDep) == Some(0)
    ensures k.Eval(PropsIn(p, ns[i]).dep) == Some(0)
  {
    var init, n := ns[..|ns| - 1], ns[|ns| - 1];
    if n.item.SymNode? {
      NodeAdds(Collected(map[], init, p), n, s, p);
      if n.item == SymNode(s) {
        MakeOrIsNotLess(k, Acc(Collected(map[], init, p), s).directDep, PropsIn(p, n).dep);
      }
    }
    if i < |ns| - 1 {
      DirectDepCoversNodes(k, init, s, p, i);
    }
  }

  // They are the best of those of its nodes, n if it has none.
  lemma {:induction false} DirectDepMeans(k: View, ns: seq<MenuNode>, s: nat, p: map<MenuNode, Props>, best: Tri)
    requires forall n :: n in ns && n.item == SymNode(s) ==> k.Eval(PropsIn(p, n).dep).Some? && k.Eval(PropsIn(p, n).dep).value <= best
    requires best == 0 || exists n :: n in ns && n.item == SymNode(s) && k.Eval(PropsIn(p, n).dep) == Some(best)
    ensures k.Eval(Acc(Collected(map[], ns, p), s).directDep) == Some(best)
  {
    var v := DirectDepValue(k, ns, s, p);
    if best != 0 {
      var n :| n in ns && n.item == SymNode(s) && k.Eval(PropsIn(p, n).dep) == Some(best);
    }
  }

  lemma {:induction false} DirectDepValue(k: View, ns: seq<MenuNode>, s: nat, p: map<MenuNode, Props>) returns (v: Tri)
    requires forall n :: n in ns && n.item == SymNode(s) ==> k.Eval(PropsIn(p, n).dep).Some?
    ensures k.Eval(Acc(Collected(map[], ns, p), s).directDep) == Some(v)
    ensures forall n :: n in ns && n.item == SymNode(s) ==> k.Eval(PropsIn(p, n).dep).value <= v
    ensures v == 0 || exists n :: n in ns && n.item == SymNode(s) && k.Eval(PropsIn(p, n).dep) == Some(v)
  {
    if ns == [] {
      ConstantsMean(k);
      v := 0;
    } else {
      var init, n := ns[..|ns| - 1], ns[|ns| - 1];
      assert ns == init + [n];
      v := DirectDepValue(k, init, s, p);
      if n.item.SymNode? {
        NodeAdds(Collected(map[], init, p), n, s, p);
        if n.item == SymNode(s) {
          MakeOrMeans(k, Acc(Collected(map[], init, p), s).directDep, PropsIn(p, n).dep);
          v := Max(v, k.Eval(PropsIn(p, n).dep).value);
        }
      }
    }
  }

  lemma {:induction false} MakeAndIsNotMore(k: View, a: Expr, b: Expr)
    requires k.Eval(MakeAnd(a, b)).Some? && k.Eval(MakeAnd(a, b)) != Some(0)
    ensures k.Eval(b).Some? && k.Eval(b) != Some(0)
  {
    ConstantsMean(k);
  }

  // So a symbol that has a visible prompt has its direct dependencies met.
  lemma {:induction false} VisibleMeetsDirectDep(k: View, ns: seq<MenuNode>, s: nat, p: map<MenuNode, Props>, i: nat, before: Props, base: Expr, visibleIf: Expr)
    requires i < |ns| && ns[i].item == SymNode(s) && PropsIn(p, ns[i]) == Under(before, SymNode(s), base, visibleIf)
    requires before.prompt.Some?
    requires
      var cond := PropsIn(p, ns[i]).prompt.value.cond;
      k.Eval(cond).Some? && k.Eval(cond) != Some(0)
    ensures k.Eval(Acc(Collected(map[], ns, p), s).directDep) != Some(0)
  {
    var dep := MakeAnd(before.dep, base);
    MakeAndIsNotMore(k, before.prompt.value.cond, MakeAnd(visibleIf, dep));
    MakeAndIsNotMore(k, visibleIf, dep);
    if k.Eval(Acc(Collected(map[], ns, p), s).directDep) == Some(0) {
      DirectDepCoversNodes(k, ns, s, p, i);
    }
  }

  // ---- reverse dependencies ----

  // The largest value that the selects of target t in ts, on a node of symbol s, give it.
  function TargetsValue(k: View, s: nat, ts: seq<Target>, t: nat): Option<Tri> {
    if ts == [] then Some(0)
    else
      var before :- TargetsValue(k, s, ts[..|ts| - 1], t);
      if ts[|ts| - 1].sym != t then Some(before)
      else
        var sym :- k.TriOf(Sym(s));
        var cond :- k.Eval(ts[|ts| - 1].cond);
        Some(Max(before, Min(sym, cond)))
  }

  // ... and over several nodes, for selects or for implies.
  ghost function GivenBy(k: View, ns: seq<MenuNode>, t: nat, p: map<MenuNode, Props>, selects: bool): Option<Tri> {
    if ns == [] then Some(0)
    else
      var before :- GivenBy(k, ns[..|ns| - 1], t, p, selects);
      var n := ns[|ns| - 1];
      if !n.item.SymNode? then Some(before)
      else
        var v :- TargetsValue(k, n.item.s, if selects then PropsIn(p, n).selects else PropsIn(p, n).implies, t);
        Some(Max(before, v))
  }

  // One more select: MakeOr(dep, MakeAnd(s, cond)).
  lemma {:induction false} OneMoreTarget(k: View, dep: Expr, s: nat, cond: Expr)
    requires k.Eval(dep).Some? && k.TriOf(Sym(s)).Some? && k.Eval(cond).Some?
    ensures k.Eval(MakeOr(dep, MakeAnd(Leaf(Sym(s)), cond))) ==
            Some(Max(k.Eval(dep).value, Min(k.TriOf(Sym(s)).value, k.Eval(cond).value)))
  {
    assert k.Eval(Leaf(Sym(s))) == k.TriOf(Sym(s));
    MakeAndMeans(k, Leaf(Sym(s)), cond);
    MakeOrMeans(k, dep, MakeAnd(Leaf(Sym(s)), cond));
  }

  lemma {:induction false} SelectsMean(k: View, a: Accs, s: nat, ts: seq<Target>, t: nat)
    requires k.Eval(Acc(a, t).revDep).Some? && TargetsValue(k, s, ts, t).Some?
    ensures k.Eval(Acc(WithSelects(a, s, ts), t).revDep) == Some(Max(k.Eval(Acc(a, t).revDep).value, TargetsValue(k, s, ts, t).value))
  {
    if ts != [] {
      var init, last := ts[..|ts| - 1], ts[|ts| - 1];
      SelectsMean(k, a, s, init, t);
      if last.sym == t {
        OneMoreTarget(k, Acc(WithSelects(a, s, init), t).revDep, s, last.cond);
      }
    }
  }

  lemma {:induction false} ImpliesMean(k: View, a: Accs, s: nat, ts: seq<Target>, t: nat)
    requires k.Eval(Acc(a, t).weakRevDep).Some? && TargetsValue(k, s, ts, t).Some?
    ensures k.Eval(Acc(WithImplies(a, s, ts), t).weakRevDep) == Some(Max(k.Eval(Acc(a, t).weakRevDep).value, TargetsValue(k, s, ts, t).value))
  {
    if ts != [] {
      var init, last := ts[..|ts| - 1], ts[|ts| - 1];
      ImpliesMean(k, a, s, init, t);
      if last.sym == t {
        OneMoreTarget(k, Acc(WithImplies(a, s, init), t).weakRevDep, s, last.cond);
      }
    }
  }

  // The reverse dependencies of a symbol mean the strongest select of it: the largest, over all nodes,
  // of the smaller of the selecting symbol and the condition. And likewise the weak ones, for implies.
  lemma {:induction false} ReverseDepsMean(k: View, ns: seq<MenuNode>, t: nat, p: map<MenuNode, Props>)
    ensures GivenBy(k, ns, t, p, true).Some? ==> k.Eval(Acc(Collected(map[], ns, p), t).revDep) == GivenBy(k, ns, t, p, true)
    ensures GivenBy(k, ns, t, p, false).Some? ==> k.Eval(Acc(Collected(map[], ns, p), t).weakRevDep) == GivenBy(k, ns, t, p, false)
  {
    if ns == [] {
      ConstantsMean(k);
    } else {
      ReverseDepsMean(k, ns[..|ns| - 1], t, p);
      if ns[|ns| - 1].item.SymNode? {
        NodeMeans(k, Collected(map[], ns[..|ns| - 1], p), ns[|ns| - 1].item.s, PropsIn(p, ns[|ns| - 1]), t);
      }
    }
  }

  lemma {:induction false} NodeMeans(k: View, a: Accs, s: nat, props: Props, t: nat)
    ensures k.Eval(Acc(a, t).revDep).Some? && TargetsValue(k, s, props.selects, t).Some? ==>
              k.Eval(Acc(WithProps(a, s, props), t).revDep) == Some(Max(k.Eval(Acc(a, t).revDep).value, TargetsValue(k, s, props.selects, t).value))
    ensures k.Eval(Acc(a, t).weakRevDep).Some? && TargetsValue(k, s, props.implies, t).Some? ==>
              k.Eval(Acc(WithProps(a, s, props), t).weakRevDep) == Some(Max(k.Eval(Acc(a, t).weakRevDep).value, TargetsValue(k, s, props.implies, t).value))
  {
    var b := WithNode(a, s, props);
    var c := WithSelects(b, s, props.selects);
    assert Acc(b, t).revDep == Acc(a, t).revDep && Acc(b, t).weakRevDep == Acc(a, t).weakRevDep;
    SelectsTouchOnlyRevDeps(b, s, props.selects, t);
    ImpliesTouchOnlyWeakDeps(c, s, props.implies, t);
    if k.Eval(Acc(a, t).revDep).Some? && TargetsValue(k, s, props.selects, t).Some? {
      SelectsMean(k, b, s, props.selects, t);
    }
    if k.Eval(Acc(a, t).weakRevDep).Some? && TargetsValue(k, s, props.implies, t).Some? {
      ImpliesMean(k, c, s, props.implies, t);
    }
  }
}
