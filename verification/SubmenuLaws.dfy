// Which nodes go into the implicit submenu of a symbol, and which nodes are flattened: said of the
// conditions of the nodes and of their order.
module SubmenuLaws {
  import opened Basics
  import opened Model
  import opened MenuTree
  import opened Propagation
  import opened MenuFinalize
  import ExprSyntax

  // ---- what counts as a dependency ----

  // s itself; s = m, s = y, s != n; and s != y; with the operands in either order.
  predicate Counts(c: Expr, s: nat) {
    || c == Leaf(Sym(s))
    || c == Compare(Equal, Sym(s), Const(1)) || c == Compare(Equal, Const(1), Sym(s))
    || c == Compare(Equal, Sym(s), Const(2)) || c == Compare(Equal, Const(2), Sym(s))
    || c == Compare(Unequal, Sym(s), Const(0)) || c == Compare(Unequal, Const(0), Sym(s))
    || c == Compare(Unequal, Sym(s), Const(2)) || c == Compare(Unequal, Const(2), Sym(s))
  }

  // The condition of a node: that of its prompt, if it has one.
  function Condition(p: Props): Expr { if p.prompt.Some? then p.prompt.value.cond else p.dep }

  // Some conjunct of the condition of the node makes it depend on s.
  ghost predicate Wants(s: nat, p: Props) { exists c :: c in ExprSyntax.SplitAnd(Condition(p)) && Counts(c, s) }

  lemma {:induction false} OneConjunctCounts(c: Expr, s: nat)
    requires !c.And?
    ensures ExprDependsOn(c, s) <==> Counts(c, s)
  {
  }

  lemma {:induction false} ConjunctsAreNoAnds(e: Expr, c: Expr)
    requires c in ExprSyntax.SplitAnd(e)
    ensures !c.And?
  {
    if e.And? {
      if c in ExprSyntax.SplitAnd(e.l) {
        ConjunctsAreNoAnds(e.l, c);
      } else {
        ConjunctsAreNoAnds(e.r, c);
      }
    }
  }

  // A node depends on a symbol if and only if one of these is a conjunct of its condition.
  lemma {:induction false} DependenceIsExact(s: nat, p: Props)
    ensures AutoMenuDep(s, p) <==> Wants(s, p)
  {
    var e := Condition(p);
    DependingConjunct(e, s);
    forall c | c in ExprSyntax.SplitAnd(e) ensures ExprDependsOn(c, s) <==> Counts(c, s) {
      ConjunctsAreNoAnds(e, c);
      OneConjunctCounts(c, s);
    }
    assert AutoMenuDep(s, p) == ExprDependsOn(e, s);
    if ExprDependsOn(e, s) {
      var c :| c in ExprSyntax.SplitAnd(e) && ExprDependsOn(c, s);
      assert Counts(c, s);
    }
    if Wants(s, p) {
      var c :| c in ExprSyntax.SplitAnd(e) && Counts(c, s);
      assert exists x :: x in ExprSyntax.SplitAnd(e) && ExprDependsOn(x, s) by {
        assert ExprDependsOn(c, s);
      }
    }
  }

  // ---- the tree does not depend on the properties collected so far ----

  lemma {:induction false} SameFinish(ts: seq<Tree>, p: map<MenuNode, Props>, a: Accs, b: Accs)
    requires ts != []
    ensures Finish(ts, p, a).tree == Finish(ts, p, b).tree && Finish(ts, p, a).rest == Finish(ts, p, b).rest
    decreases |Nodes(ts)|, 0
  {
    var t := ts[0];
    if t.kids != [] {
      SameLevel(t.kids, p, a, b);
    } else if t.node.item.SymNode? {
      var s := t.node.item.s;
      SameAbsorbed(s, ts[1..], p, WithProps(a, s, PropsIn(p, t.node)), WithProps(b, s, PropsIn(p, t.node)));
    }
  }

  lemma {:induction false} SameAbsorbed(s: nat, ts: seq<Tree>, p: map<MenuNode, Props>, a: Accs, b: Accs)
    ensures Absorbed(s, ts, p, a).trees == Absorbed(s, ts, p, b).trees && Absorbed(s, ts, p, a).rest == Absorbed(s, ts, p, b).rest
    decreases |Nodes(ts)|, 1
  {
    if ts != [] && AutoMenuDep(s, PropsIn(p, ts[0].node)) {
      SameFinish(ts, p, a, b);
      SameAbsorbed(s, Finish(ts, p, a).rest, p, Finish(ts, p, a).accs, Finish(ts, p, b).accs);
    }
  }

  lemma {:induction false} SameLevel(ts: seq<Tree>, p: map<MenuNode, Props>, a: Accs, b: Accs)
    ensures FinishLevel(ts, p, a).trees == FinishLevel(ts, p, b).trees
    decreases |Nodes(ts)|, 1
  {
    if ts != [] {
      SameFinish(ts, p, a, b);
      SameLevel(Finish(ts, p, a).rest, p, Finish(ts, p, a).accs, Finish(ts, p, b).accs);
    }
  }

  // ---- extents ----

  // The finalised tree of ts[i], and the position behind all that it has taken in.
  ghost function Done(ts: seq<Tree>, p: map<MenuNode, Props>, i: nat): Tree
    requires i < |ts|
  {
    Finish(ts[i..], p, map[]).tree
  }

  ghost function After(ts: seq<Tree>, p: map<MenuNode, Props>, i: nat): (j: nat)
    requires i < |ts|
    ensures i < j <= |ts|
  {
    |ts| - |Finish(ts[i..], p, map[]).rest|
  }

  predicate IsSuffix(rest: seq<Tree>, ts: seq<Tree>) { |rest| <= |ts| && rest == ts[|ts| - |rest|..] }

  lemma {:induction false} SuffixTrans(a: seq<Tree>, b: seq<Tree>, c: seq<Tree>)
    requires IsSuffix(a, b) && IsSuffix(b, c)
    ensures IsSuffix(a, c)
  {
  }

  lemma {:induction false} RestIsSuffix(ts: seq<Tree>, p: map<MenuNode, Props>, a: Accs)
    requires ts != []
    ensures IsSuffix(Finish(ts, p, a).rest, ts)
    decreases |Nodes(ts)|, 0
  {
    var t := ts[0];
    assert IsSuffix(ts[1..], ts);
    if t.kids == [] && t.node.item.SymNode? {
      var a' := WithProps(a, t.node.item.s, PropsIn(p, t.node));
      AbsorbedIsSuffix(t.node.item.s, ts[1..], p, a');
      SuffixTrans(Absorbed(t.node.item.s, ts[1..], p, a').rest, ts[1..], ts);
    }
  }

  lemma {:induction false} AbsorbedIsSuffix(s: nat, ts: seq<Tree>, p: map<MenuNode, Props>, a: Accs)
    ensures IsSuffix(Absorbed(s, ts, p, a).rest, ts)
    decreases |Nodes(ts)|, 1
  {
    if ts != [] && AutoMenuDep(s, PropsIn(p, ts[0].node)) {
      var f := Finish(ts, p, a);
      RestIsSuffix(ts, p, a);
      AbsorbedIsSuffix(s, f.rest, p, f.accs);
      SuffixTrans(Absorbed(s, f.rest, p, f.accs).rest, f.rest, ts);
    }
  }

  lemma {:induction false} DoneAt(ts: seq<Tree>, p: map<MenuNode, Props>, i: nat, a: Accs)
    requires i < |ts|
    ensures Finish(ts[i..], p, a).tree == Done(ts, p, i) && Finish(ts[i..], p, a).rest == ts[After(ts, p, i)..]
  {
    SameFinish(ts[i..], p, a, map[]);
    RestIsSuffix(ts[i..], p, map[]);
    var n := |Finish(ts[i..], p, map[]).rest|;
    assert ts[i..][|ts| - i - n..] == ts[|ts| - n..];
  }

  // ---- the submenu of a symbol ----

  // Positions one behind the other, from start to end, each behind all that the one before has taken in.
  ghost predicate Chain(ts: seq<Tree>, p: map<MenuNode, Props>, heads: seq<nat>, start: nat, end: nat) {
    if heads == [] then start == end <= |ts|
    else heads[0] == start < |ts| && Chain(ts, p, heads[1..], After(ts, p, start), end)
  }

  predicate InRange(ts: seq<Tree>, heads: seq<nat>) { forall i: nat :: i < |heads| ==> heads[i] < |ts| }

  ghost predicate AllWant(ts: seq<Tree>, p: map<MenuNode, Props>, heads: seq<nat>, s: nat) {
    InRange(ts, heads) && forall i: nat :: i < |heads| ==> Wants(s, PropsIn(p, ts[heads[i]].node))
  }

  // The longest chain from start on whose trees all depend on s, up to end.
  ghost predicate LongestRun(ts: seq<Tree>, p: map<MenuNode, Props>, s: nat, heads: seq<nat>, start: nat, end: nat) {
    && Chain(ts, p, heads, start, end) && end <= |ts| && AllWant(ts, p, heads, s)
    && (end < |ts| ==> !Wants(s, PropsIn(p, ts[end].node)))
  }

  // The finalised trees at the given positions.
  ghost function DoneTrees(ts: seq<Tree>, p: map<MenuNode, Props>, heads: seq<nat>): seq<Tree>
    requires InRange(ts, heads)
  {
    if heads == [] then [] else [Done(ts, p, heads[0])] + DoneTrees(ts, p, heads[1..])
  }

  lemma {:induction false} AbsorbedRun(ts: seq<Tree>, p: map<MenuNode, Props>, s: nat, heads: seq<nat>, start: nat, end: nat, a: Accs)
    requires start <= |ts| && LongestRun(ts, p, s, heads, start, end)
    ensures Absorbed(s, ts[start..], p, a).trees == DoneTrees(ts, p, heads) && Absorbed(s, ts[start..], p, a).rest == ts[end..]
    decreases |heads|
  {
    if start < |ts| {
      DependenceIsExact(s, PropsIn(p, ts[start].node));
    }
    if heads != [] {
      var f := Finish(ts[start..], p, a);
      DoneAt(ts, p, start, a);
      AbsorbedRun(ts, p, s, heads[1..], After(ts, p, start), end, f.accs);
    }
  }

  // A symbol without children takes in exactly the longest run of the trees that follow it and depend on
  // it, each with all that it has taken in itself; then this level of the menu is shaped.
  lemma {:induction false} SubmenuIsExact(ts: seq<Tree>, p: map<MenuNode, Props>, i: nat, heads: seq<nat>, end: nat)
    requires i < |ts| && ts[i].kids == [] && ts[i].node.item.SymNode?
    requires LongestRun(ts, p, ts[i].node.item.s, heads, i + 1, end)
    ensures After(ts, p, i) == end && Done(ts, p, i) == Tree(ts[i].node, Shaped(DoneTrees(ts, p, heads), p))
  {
    var s := ts[i].node.item.s;
    assert ts[i..][0] == ts[i] && ts[i..][1..] == ts[i + 1..];
    AbsorbedRun(ts, p, s, heads, i + 1, end, WithProps(map[], s, PropsIn(p, ts[i].node)));
  }

  // There is exactly one such run.
  lemma {:induction false} RunExists(ts: seq<Tree>, p: map<MenuNode, Props>, s: nat, start: nat) returns (heads: seq<nat>, end: nat)
    requires start <= |ts|
    ensures LongestRun(ts, p, s, heads, start, end)
    decreases |ts| - start
  {
    if start == |ts| || !Wants(s, PropsIn(p, ts[start].node)) {
      heads, end := [], start;
    } else {
      var more;
      more, end := RunExists(ts, p, s, After(ts, p, start));
      heads := [start] + more;
    }
  }

  lemma {:induction false} OneRun(ts: seq<Tree>, p: map<MenuNode, Props>, s: nat, start: nat, heads: seq<nat>, end: nat, heads': seq<nat>, end': nat)
    requires LongestRun(ts, p, s, heads, start, end) && LongestRun(ts, p, s, heads', start, end')
    ensures heads == heads' && end == end'
    decreases |heads|
  {
    if heads != [] && heads' != [] {
      OneRun(ts, p, s, After(ts, p, start), heads[1..], end, heads'[1..], end');
    }
  }

  // A choice, a menu or an if takes in no tree that follows it; its own children are one level.
  lemma {:induction false} ParentTakesNothing(ts: seq<Tree>, p: map<MenuNode, Props>, i: nat) returns (heads: seq<nat>)
    requires i < |ts| && ts[i].kids != []
    ensures After(ts, p, i) == i + 1 && Chain(ts[i].kids, p, heads, 0, |ts[i].kids|) && InRange(ts[i].kids, heads)
    ensures Done(ts, p, i) == Tree(ts[i].node, Shaped(DoneTrees(ts[i].kids, p, heads), p))
  {
    assert ts[i..][0] == ts[i] && ts[i..][1..] == ts[i + 1..];
    heads := LevelExists(ts[i].kids, p, 0);
    LevelRun(ts[i].kids, p, heads, 0, map[]);
    assert ts[i].kids[0..] == ts[i].kids;
  }

  // And what is neither a symbol nor has children stays as it is.
  lemma {:induction false} OthersTakeNothing(ts: seq<Tree>, p: map<MenuNode, Props>, i: nat)
    requires i < |ts| && ts[i].kids == [] && !ts[i].node.item.SymNode?
    ensures After(ts, p, i) == i + 1 && Done(ts, p, i) == ts[i]
  {
    assert ts[i..][0] == ts[i] && ts[i..][1..] == ts[i + 1..];
  }

  lemma {:induction false} LevelExists(ts: seq<Tree>, p: map<MenuNode, Props>, start: nat) returns (heads: seq<nat>)
    requires start <= |ts|
    ensures Chain(ts, p, heads, start, |ts|) && InRange(ts, heads)
    decreases |ts| - start
  {
    if start == |ts| {
      heads := [];
    } else {
      var more := LevelExists(ts, p, After(ts, p, start));
      heads := [start] + more;
    }
  }

  // A level consists of the trees that no other one has taken in.
  lemma {:induction false} LevelRun(ts: seq<Tree>, p: map<MenuNode, Props>, heads: seq<nat>, start: nat, a: Accs)
    requires start <= |ts| && Chain(ts, p, heads, start, |ts|) && InRange(ts, heads)
    ensures FinishLevel(ts[start..], p, a).trees == DoneTrees(ts, p, heads)
    decreases |heads|
  {
    if heads != [] {
      var f := Finish(ts[start..], p, a);
      DoneAt(ts, p, start, a);
      LevelRun(ts, p, heads[1..], After(ts, p, start), f.accs);
    } else {
      assert ts[start..] == [];
    }
  }

  // ---- flattening ----

  // A node without a prompt, other than a choice, that has children.
  predicate IsFlattened(t: Tree, bare: set<MenuNode>) { t.kids != [] && t.node in bare && !t.node.item.ChoiceNode? }

  // All trees in ts, at any depth.
  ghost function Subtrees(ts: seq<Tree>): set<Tree> { if ts == [] then {} else {ts[0]} + Subtrees(ts[0].kids) + Subtrees(ts[1..]) }

  // t is a tree in ts that is left alone, or the node of one that is not, without its children.
  ghost predicate KeptOrEmptied(t: Tree, ts: seq<Tree>, bare: set<MenuNode>) {
    !IsFlattened(t, bare) && (t in Subtrees(ts) || (t.kids == [] && exists u :: u in Subtrees(ts) && u.node == t.node && IsFlattened(u, bare)))
  }

  lemma {:induction false} SubtreesConcat(a: seq<Tree>, b: seq<Tree>)
    ensures Subtrees(a + b) == Subtrees(a) + Subtrees(b)
  {
    if a == [] {
      assert a + b == b;
    } else {
      assert (a + b)[0] == a[0] && (a + b)[1..] == a[1..] + b;
      SubtreesConcat(a[1..], b);
    }
  }

  lemma {:induction false} KeptFurtherOut(t: Tree, us: seq<Tree>, ts: seq<Tree>, bare: set<MenuNode>)
    requires KeptOrEmptied(t, us, bare) && Subtrees(us) <= Subtrees(ts)
    ensures KeptOrEmptied(t, ts, bare)
  {
    if t !in Subtrees(us) {
      var u :| u in Subtrees(us) && u.node == t.node && IsFlattened(u, bare);
      assert u in Subtrees(ts);
    }
  }

  // A flattened level holds the same nodes in the same order, and every tree in it either is one that was
  // there, and not to be flattened, or a node whose children now follow it.
  lemma {:induction false} FlattenedForm(ts: seq<Tree>, bare: set<MenuNode>, t: Tree)
    requires t in Flattened(ts, bare)
    ensures KeptOrEmptied(t, ts, bare)
    decreases |Nodes(ts)|
  {
    var first := ts[0];
    if IsFlattened(first, bare) {
      NodesConcat(first.kids, ts[1..]);
      if t == Tree(first.node, []) {
        assert first in Subtrees(ts);
      } else {
        FlattenedForm(first.kids + ts[1..], bare, t);
        SubtreesConcat(first.kids, ts[1..]);
        KeptFurtherOut(t, first.kids + ts[1..], ts, bare);
      }
    } else if t != first {
      FlattenedForm(ts[1..], bare, t);
      KeptFurtherOut(t, ts[1..], ts, bare);
    }
  }
}
