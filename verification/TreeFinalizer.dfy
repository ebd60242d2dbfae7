// _finalize_tree() on the linked nodes: it leaves the tree, and collects the properties, that Finish()
// describes.
module TreeFinalizer {
  import opened Model
  import opened MenuTree
  import opened Propagation
  import opened MenuFinalize

  // ---- what finishing does to the sets of nodes ----

  ghost predicate Suffix<T>(a: seq<T>, b: seq<T>) { |a| <= |b| && a == b[|b| - |a|..] }

  lemma {:induction false} SuffixOf(a: seq<Tree>, ts: seq<Tree>)
    requires Suffix(a, ts) && Separate(ts)
    ensures Separate(a) && NodeSet(a) <= NodeSet(ts)
  {
    if |a| == |ts| {
      assert ts[0..] == ts;
    } else {
      assert a == ts[1..][|ts[1..]| - |a|..];
      SuffixOf(a, ts[1..]);
    }
  }

  lemma {:induction false} WithoutIfsSeparate(ts: seq<Tree>)
    requires Separate(ts)
    ensures Separate(WithoutIfs(ts)) && NodeSet(WithoutIfs(ts)) <= NodeSet(ts)
  {
    if ts != [] {
      WithoutIfsSeparate(ts[1..]);
      if !ts[0].node.item.IfNode? {
        assert ([ts[0]] + WithoutIfs(ts[1..]))[1..] == WithoutIfs(ts[1..]);
      } else {
        assert WithoutIfs(ts) == WithoutIfs(ts[1..]);
      }
    }
  }

  lemma {:induction false} ShapedSeparate(ts: seq<Tree>, p: map<MenuNode, Props>)
    requires Separate(ts)
    ensures Separate(Shaped(ts, p)) && NodeSet(Shaped(ts, p)) <= NodeSet(ts)
  {
    FlattenedSeparate(ts, Bare(p));
    WithoutIfsSeparate(Flattened(ts, Bare(p)));
  }

  lemma {:induction false} OneMoreTree(t: Tree, more: seq<Tree>)
    ensures NodeSet([t] + more) == {t.node} + NodeSet(t.kids) + NodeSet(more)
    ensures Separate([t] + more) <==>
              t.node !in NodeSet(t.kids) && t.node !in NodeSet(more) && NodeSet(t.kids) !! NodeSet(more) && Separate(t.kids) && Separate(more)
  {
    assert ([t] + more)[1..] == more;
  }

  lemma {:induction false} FinishSeparate(ts: seq<Tree>, p: map<MenuNode, Props>, a: Accs)
    requires ts != [] && Separate(ts)
    ensures
      var f := Finish(ts, p, a);
      Separate([f.tree] + f.rest) && NodeSet([f.tree] + f.rest) <= NodeSet(ts) && f.tree.node == ts[0].node && Suffix(f.rest, ts)
    decreases |Nodes(ts)|, 0
  {
    var t := ts[0];
    var f := Finish(ts, p, a);
    Apart(ts);
    if t.kids != [] {
      FinishLevelSeparate(t.kids, p, a);
      ShapedSeparate(FinishLevel(t.kids, p, a).trees, p);
    } else if t.node.item.SymNode? {
      var a' := WithProps(a, t.node.item.s, PropsIn(p, t.node));
      AbsorbedSeparate(t.node.item.s, ts[1..], p, a');
      ShapedSeparate(Absorbed(t.node.item.s, ts[1..], p, a').trees, p);
    }
    OneMoreTree(f.tree, f.rest);
  }

  lemma {:induction false} AbsorbedSeparate(s: nat, ts: seq<Tree>, p: map<MenuNode, Props>, a: Accs)
    requires Separate(ts)
    ensures
      var l := Absorbed(s, ts, p, a);
      && Separate(l.trees) && Separate(l.rest) && NodeSet(l.trees) !! NodeSet(l.rest)
      && NodeSet(l.trees) <= NodeSet(ts) && NodeSet(l.rest) <= NodeSet(ts) && Suffix(l.rest, ts)
    decreases |Nodes(ts)|, 1
  {
    if ts != [] && AutoMenuDep(s, PropsIn(p, ts[0].node)) {
      var f := Finish(ts, p, a);
      FinishSeparate(ts, p, a);
      OneMoreTree(f.tree, f.rest);
      var l := Absorbed(s, f.rest, p, f.accs);
      AbsorbedSeparate(s, f.rest, p, f.accs);
      OneMoreTree(f.tree, l.trees);
    }
  }

  lemma {:induction false} FinishLevelSeparate(ts: seq<Tree>, p: map<MenuNode, Props>, a: Accs)
    requires Separate(ts)
    ensures Separate(FinishLevel(ts, p, a).trees) && NodeSet(FinishLevel(ts, p, a).trees) <= NodeSet(ts)
    decreases |Nodes(ts)|, 1
  {
    if ts != [] {
      var f := Finish(ts, p, a);
      FinishSeparate(ts, p, a);
      OneMoreTree(f.tree, f.rest);
      var l := FinishLevel(f.rest, p, f.accs);
      FinishLevelSeparate(f.rest, p, f.accs);
      OneMoreTree(f.tree, l.trees);
    }
  }

  // ---- properties of the nodes, collectively ----

  lemma {:induction false} HaveMeans(ts: seq<Tree>, p: map<MenuNode, Props>)
    ensures Have(ts, p) <==> forall n :: n in NodeSet(ts) ==> n in p && PropsOf(n) == p[n]
  {
    if ts != [] {
      HaveMeans(ts[0].kids, p);
      HaveMeans(ts[1..], p);
    }
  }

  lemma {:induction false} HaveFewer(ts: seq<Tree>, us: seq<Tree>, p: map<MenuNode, Props>)
    requires Have(ts, p) && NodeSet(us) <= NodeSet(ts)
    ensures Have(us, p)
  {
    HaveMeans(ts, p);
    HaveMeans(us, p);
  }

  lemma {:induction false} HaveBare(ts: seq<Tree>, p: map<MenuNode, Props>)
    requires Have(ts, p)
    ensures BareNodes(ts, Bare(p))
  {
    HaveMeans(ts, p);
  }

  // The children of every tree of the level are still to receive what comes from above.
  ghost predicate Below(ts: seq<Tree>, visibleIf: Expr, p0: map<MenuNode, Props>, p1: map<MenuNode, Props>) {
    ts == [] ||
    (var n := ts[0].node;
     && n in p1 && Received(ts[0].kids, Passed(n.item, p1[n].dep), VisibleIf(n.item, visibleIf, p1[n].visibility), p0, p1)
     && Below(ts[1..], visibleIf, p0, p1))
  }

  lemma ReceivedIsBelow(ts: seq<Tree>, base: Expr, visibleIf: Expr, p0: map<MenuNode, Props>, p1: map<MenuNode, Props>)
    requires Received(ts, base, visibleIf, p0, p1)
    ensures Below(ts, visibleIf, p0, p1)
  {
  }

  lemma {:induction false} BelowSuffix(a: seq<Tree>, ts: seq<Tree>, visibleIf: Expr, p0: map<MenuNode, Props>, p1: map<MenuNode, Props>)
    requires Suffix(a, ts) && Below(ts, visibleIf, p0, p1)
    ensures Below(a, visibleIf, p0, p1)
  {
    if |a| == |ts| {
      assert ts[0..] == ts;
    } else {
      assert a == ts[1..][|ts[1..]| - |a|..];
      BelowSuffix(a, ts[1..], visibleIf, p0, p1);
    }
  }

  lemma {:induction false} SegmentSplit(head: MenuNode?, a: seq<Tree>, b: seq<Tree>, parent: MenuNode?, end: MenuNode?)
    requires Segment(head, a + b, parent, end) && b != []
    ensures Segment(head, a, parent, b[0].node) && Segment(b[0].node, b, parent, end)
  {
    if a == [] {
      assert a + b == b;
    } else {
      assert (a + b)[1..] == a[1..] + b;
      SegmentSplit(a[0].node.next, a[1..], b, parent, end);
    }
  }

  // The last tree of a list apart from the others
  lemma {:induction false} SplitLast(head: MenuNode?, ts: seq<Tree>, parent: MenuNode?, end: MenuNode?)
    requires ts != [] && Segment(head, ts, parent, end)
    ensures
      var init, last := ts[..|ts| - 1], ts[|ts| - 1];
      && Segment(head, init, parent, last.node) && last.node.parent == parent
      && Segment(last.node.list, last.kids, last.node, null) && last.node.next == end
  {
    var init, last := ts[..|ts| - 1], ts[|ts| - 1];
    assert init + [last] == ts && [last][1..] == [];
    SegmentSplit(head, init, [last], parent, end);
  }

  lemma {:induction false} JoinLast(head: MenuNode?, ts: seq<Tree>, parent: MenuNode?)
    requires ts != []
    requires
      var init, last := ts[..|ts| - 1], ts[|ts| - 1];
      && Segment(head, init, parent, last.node) && last.node.parent == parent
      && Segment(last.node.list, last.kids, last.node, null) && last.node.next == null
    ensures Segment(head, ts, parent, null)
  {
    var init, last := ts[..|ts| - 1], ts[|ts| - 1];
    assert init + [last] == ts && [last][1..] == [];
    SegmentConcat(head, init, last.node, [last], parent, null);
  }

  lemma {:induction false} LastApart(ts: seq<Tree>)
    requires Separate(ts) && ts != []
    ensures
      var init, last := ts[..|ts| - 1], ts[|ts| - 1];
      && last.node !in NodeSet(init) && last.node !in NodeSet(last.kids) && last.node in NodeSet(ts)
      && NodeSet(init) <= NodeSet(ts) && NodeSet(last.kids) <= NodeSet(ts)
  {
    if |ts| > 1 {
      Apart(ts);
      LastApart(ts[1..]);
      assert ts[1..][..|ts| - 2] == ts[..|ts| - 1][1..];
      assert ts[1..][|ts| - 2] == ts[|ts| - 1];
    }
  }

  lemma {:induction false} JoinHave(t: Tree, more: seq<Tree>, p: map<MenuNode, Props>)
    ensures Have([t] + more, p) <==> t.node in p && PropsOf(t.node) == p[t.node] && Have(t.kids, p) && Have(more, p)
  {
    assert ([t] + more)[1..] == more;
  }

  lemma {:induction false} TakeSegment(node: MenuNode, t: Tree, more: seq<Tree>, parent: MenuNode?)
    requires Segment(node, [t] + more, parent, null)
    ensures node == t.node && node.parent == parent && Segment(node.list, t.kids, node, null) && Segment(node.next, more, parent, null)
  {
    assert ([t] + more)[1..] == more;
  }

  lemma {:induction false} AbsorbedUnfolds(s: nat, ts: seq<Tree>, p: map<MenuNode, Props>, a: Accs)
    requires ts != [] && AutoMenuDep(s, PropsIn(p, ts[0].node))
    ensures
      var f := Finish(ts, p, a);
      var l := Absorbed(s, f.rest, p, f.accs);
      Absorbed(s, ts, p, a) == Level([f.tree] + l.trees, l.rest, l.accs)
  {
  }

  class Finalizer {
    var accs: Accs

    constructor ()
      ensures accs == map[]
    {
      accs := map[];
    }

    // _add_props_to_sym()
    method AddPropsToSym(node: MenuNode)
      requires node.item.SymNode?
      modifies this
      ensures accs == WithProps(old(accs), node.item.s, PropsOf(node))
    {
      var s := node.item.s;
      var d := Acc(accs, s);
      accs := accs[s := d.(directDep := MakeOr(d.directDep, node.dep), defaults := d.defaults + node.defaults, ranges := d.ranges + node.ranges,
                           selects := d.selects + node.selects, implies := d.implies + node.implies)];
      ghost var a1 := accs;
      for i := 0 to |node.selects|
        invariant accs == WithSelects(a1, s, node.selects[..i])
      {
        var t := node.selects[i];
        assert node.selects[..i + 1][..i] == node.selects[..i];
        accs := accs[t.sym := Acc(accs, t.sym).(revDep := MakeOr(Acc(accs, t.sym).revDep, MakeAnd(Leaf(Sym(s)), t.cond)))];
      }
      assert node.selects[..|node.selects|] == node.selects;
      ghost var a2 := accs;
      for i := 0 to |node.implies|
        invariant accs == WithImplies(a2, s, node.implies[..i])
      {
        var t := node.implies[i];
        assert node.implies[..i + 1][..i] == node.implies[..i];
        accs := accs[t.sym := Acc(accs, t.sym).(weakRevDep := MakeOr(Acc(accs, t.sym).weakRevDep, MakeAnd(Leaf(Sym(s)), t.cond)))];
      }
      assert node.implies[..|node.implies|] == node.implies;
    }

    // The last two calls for a level.
    method FinishShape(node: MenuNode, ghost kids: seq<Tree>, ghost p1: map<MenuNode, Props>, ghost region: set<MenuNode>)
      requires Segment(node.list, kids, node, null) && Separate(kids) && node !in NodeSet(kids) && NodeSet(kids) <= region
      requires Have(kids, p1)
      modifies node`list, NodeSet(kids)`next, NodeSet(kids)`list, NodeSet(kids)`parent
      ensures Segment(node.list, Shaped(kids, p1), node, null) && Have(Shaped(kids, p1), p1) && accs == old(accs)
    {
      if node.list != null {
        HaveBare(kids, p1);
        Flatten(node.list, kids, Bare(p1), node, region);
        FlattenedSeparate(kids, Bare(p1));
        RemoveIfs(node, Flattened(kids, Bare(p1)), region);
      }
      ShapedSeparate(kids, p1);
      HaveFewer(kids, Shaped(kids, p1), p1);
    }

    // The final steps for a node whose children kids are finalised
    method CloseLevel(node: MenuNode, ghost kids: seq<Tree>, ghost rest: seq<Tree>, ghost parent: MenuNode?,
                      ghost p0: map<MenuNode, Props>, ghost p1: map<MenuNode, Props>, ghost region: set<MenuNode>)
      requires Segment(node.list, kids, node, null) && Segment(node.next, rest, parent, null) && node.parent == parent
      requires Separate(kids) && node !in NodeSet(kids) && node !in NodeSet(rest) && NodeSet(kids) !! NodeSet(rest)
      requires NodeSet(kids) <= region && NodeSet(rest) <= region
      requires Have(kids, p1) && node in p1 && PropsOf(node) == p1[node] && LevelReceived(rest, p0, p1)
      modifies node`list, NodeSet(kids)`next, NodeSet(kids)`list, NodeSet(kids)`parent
      ensures
        var t := Tree(node, Shaped(kids, p1));
        Segment(node, [t] + rest, parent, null) && Have([t], p1) && LevelReceived(rest, p0, p1)
      ensures accs == old(accs)
    {
      ghost var t := Tree(node, Shaped(kids, p1));
      FinishShape(node, kids, p1, region);
      assert Segment(node.next, rest, parent, null);
      JoinSegment(node, t, rest, parent, null);
      JoinHave(t, [], p1);
      assert [t] + [] == [t];
    }

    // The loop over the children, following next from cur on
    method FinalizeChildren(cur: MenuNode?, visibleIf: Expr, ghost ts: seq<Tree>, ghost parent: MenuNode?,
                            ghost p0: map<MenuNode, Props>, ghost p1: map<MenuNode, Props>, ghost region: set<MenuNode>)
      requires Segment(cur, ts, parent, null) && Separate(ts) && NodeSet(ts) <= region
      requires LevelReceived(ts, p0, p1) && Below(ts, visibleIf, p0, p1)
      modifies NodeSet(ts), this
      ensures
        var l := FinishLevel(ts, p1, old(accs));
        Segment(cur, l.trees, parent, null) && accs == l.accs && Have(l.trees, p1)
      decreases |Nodes(ts)|, 1, 0
    {
      if cur != null {
        ghost var f := Finish(ts, p1, accs);
        FinishSeparate(ts, p1, accs);
        OneMoreTree(f.tree, f.rest);
        FinalizeTree(cur, visibleIf, ts, parent, p0, p1, region);
        BelowSuffix(f.rest, ts, visibleIf, p0, p1);
        FinishLevelSeparate(f.rest, p1, f.accs);
        FinalizeChildren(cur.next, visibleIf, f.rest, parent, p0, p1, region);
      }
    }

    // The loop that builds an implicit submenu of node, following next from cur on
    method Absorb(node: MenuNode, cur: MenuNode, visibleIf: Expr, ghost ts: seq<Tree>, ghost parent: MenuNode?,
                  ghost p0: map<MenuNode, Props>, ghost p1: map<MenuNode, Props>, ghost region: set<MenuNode>) returns (last: MenuNode)
      requires node.item.SymNode? && Segment(cur.next, ts, parent, null) && Separate(ts) && NodeSet(ts) <= region && cur !in NodeSet(ts)
      requires LevelReceived(ts, p0, p1) && Below(ts, visibleIf, p0, p1)
      modifies NodeSet(ts), this
      ensures
        var l := Absorbed(node.item.s, ts, p1, old(accs));
        && accs == l.accs && Segment(cur.next, l.trees, node, last.next) && Segment(last.next, l.rest, parent, null)
        && Have(l.trees, p1) && LevelReceived(l.rest, p0, p1)
        && last == if l.trees == [] then cur else l.trees[|l.trees| - 1].node
      decreases |Nodes(ts)|, 1, 1
    {
      if cur.next == null || !DependsOnParent(cur.next, node) {
        return cur;
      }
      AbsorbedUnfolds(node.item.s, ts, p1, accs);
      last := AbsorbChild(node, cur.next, visibleIf, ts, parent, p0, p1, region);
    }

    // ... if child, the first, goes in
    method AbsorbChild(node: MenuNode, child: MenuNode, visibleIf: Expr, ghost ts: seq<Tree>, ghost parent: MenuNode?,
                       ghost p0: map<MenuNode, Props>, ghost p1: map<MenuNode, Props>, ghost region: set<MenuNode>) returns (last: MenuNode)
      requires node.item.SymNode? && ts != [] && Segment(child, ts, parent, null) && Separate(ts) && NodeSet(ts) <= region
      requires LevelReceived(ts, p0, p1) && Below(ts, visibleIf, p0, p1)
      modifies NodeSet(ts), this
      ensures
        var f := Finish(ts, p1, old(accs));
        var l := Absorbed(node.item.s, f.rest, p1, f.accs);
        && accs == l.accs && Segment(child, [f.tree] + l.trees, node, last.next) && Segment(last.next, l.rest, parent, null)
        && Have([f.tree] + l.trees, p1) && LevelReceived(l.rest, p0, p1)
        && last == ([f.tree] + l.trees)[|l.trees|].node
      decreases |Nodes(ts)|, 1, 0
    {
      ghost var f := Finish(ts, p1, accs);
      FinishSeparate(ts, p1, accs);
      FinalizeTree(child, visibleIf, ts, parent, p0, p1, region);
      TakeSegment(child, f.tree, f.rest, parent);
      BelowSuffix(f.rest, ts, visibleIf, p0, p1);
      last := AbsorbMore(node, child, f.tree, visibleIf, f.rest, parent, p0, p1, region);
    }

    // ... once child, the first of them, is finalised
    method AbsorbMore(node: MenuNode, child: MenuNode, ghost t: Tree, visibleIf: Expr, ghost rest: seq<Tree>, ghost parent: MenuNode?,
                      ghost p0: map<MenuNode, Props>, ghost p1: map<MenuNode, Props>, ghost region: set<MenuNode>) returns (last: MenuNode)
      requires node.item.SymNode? && child == t.node && Separate([t] + rest) && NodeSet([t] + rest) <= region
      requires Segment(child.list, t.kids, child, null) && Segment(child.next, rest, parent, null) && Have([t], p1)
      requires LevelReceived(rest, p0, p1) && Below(rest, visibleIf, p0, p1)
      modifies child`parent, NodeSet(rest), this
      ensures
        var l := Absorbed(node.item.s, rest, p1, old(accs));
        && accs == l.accs && Segment(child, [t] + l.trees, node, last.next) && Segment(last.next, l.rest, parent, null)
        && Have([t] + l.trees, p1) && LevelReceived(l.rest, p0, p1)
        && last == ([t] + l.trees)[|l.trees|].node
      decreases |Nodes(rest)|, 2, 0
    {
      OneMoreTree(t, rest);
      child.parent := node;
      ghost var l := Absorbed(node.item.s, rest, p1, accs);
      JoinHave(t, [], p1);
      assert [t] + [] == [t];
      assert Segment(child.list, t.kids, child, null) && Segment(child.next, rest, parent, null);
      last := Absorb(node, child, visibleIf, rest, parent, p0, p1, region);
      assert Segment(child.list, t.kids, child, null) && child.parent == node && PropsOf(child) == p1[child] && Have(t.kids, p1);
      JoinSegment(child, t, l.trees, node, last.next);
      JoinHave(t, l.trees, p1);
    }

    // _finalize_tree()
    method FinalizeTree(node: MenuNode, visibleIf: Expr, ghost ts: seq<Tree>, ghost parent: MenuNode?,
                        ghost p0: map<MenuNode, Props>, ghost p1: map<MenuNode, Props>, ghost region: set<MenuNode>)
      requires ts != [] && Segment(node, ts, parent, null) && Separate(ts) && NodeSet(ts) <= region
      requires LevelReceived(ts, p0, p1) && Below(ts, visibleIf, p0, p1)
      modifies NodeSet(ts), this
      ensures
        var f := Finish(ts, p1, old(accs));
        Segment(node, [f.tree] + f.rest, parent, null) && accs == f.accs && Have([f.tree], p1) && LevelReceived(f.rest, p0, p1)
      decreases |Nodes(ts)|, 0, 1
    {
      Apart(ts);
      if node.list != null {
        FinalizeMenu(node, visibleIf, ts, parent, p0, p1, region);
      } else if node.item.SymNode? {
        AddPropsToSym(node);
        FinalizeSubmenu(node, visibleIf, ts, parent, p0, p1, region);
      } else {
        assert [ts[0]] + ts[1..] == ts && [ts[0]][1..] == [];
      }
    }

    // Dependencies first, then the children
    method FinalizeKids(node: MenuNode, visibleIf: Expr, ghost kids: seq<Tree>,
                        ghost p0: map<MenuNode, Props>, ghost p1: map<MenuNode, Props>, ghost region: set<MenuNode>)
      requires Segment(node.list, kids, node, null) && Separate(kids) && node !in NodeSet(kids) && NodeSet(kids) <= region && Have(kids, p0)
      requires Received(kids, Passed(node.item, node.dep), VisibleIf(node.item, visibleIf, node.visibility), p0, p1)
      modifies NodeSet(kids), this
      ensures
        var l := FinishLevel(kids, p1, old(accs));
        Segment(node.list, l.trees, node, null) && accs == l.accs && Have(l.trees, p1)
      decreases |Nodes(kids)|, 2, 0
    {
      var visibleIf' := if node.item.MenuItem? then MakeAnd(visibleIf, node.visibility) else visibleIf;
      PropagateDeps(node, visibleIf', kids, p0, p1, region);
      ReceivedIsBelow(kids, Passed(node.item, node.dep), visibleIf', p0, p1);
      FinalizeChildren(node.list, visibleIf', kids, node, p0, p1, region);
    }

    // The case of a node with children
    method FinalizeMenu(node: MenuNode, visibleIf: Expr, ghost ts: seq<Tree>, ghost parent: MenuNode?,
                        ghost p0: map<MenuNode, Props>, ghost p1: map<MenuNode, Props>, ghost region: set<MenuNode>)
      requires ts != [] && ts[0].kids != [] && Segment(node, ts, parent, null) && Separate(ts) && NodeSet(ts) <= region
      requires LevelReceived(ts, p0, p1) && Below(ts, visibleIf, p0, p1)
      modifies NodeSet(ts), this
      ensures
        var f := Finish(ts, p1, old(accs));
        Segment(node, [f.tree] + f.rest, parent, null) && accs == f.accs && Have([f.tree], p1) && LevelReceived(f.rest, p0, p1)
      decreases |Nodes(ts)|, 0, 0
    {
      Apart(ts);
      ghost var kids := ts[0].kids;
      ghost var l := FinishLevel(kids, p1, accs);
      FinalizeKids(node, visibleIf, kids, p0, p1, region);
      FinishLevelSeparate(kids, p1, old(accs));
      CloseLevel(node, l.trees, ts[1..], parent, p0, p1, region);
    }

    // The case of a symbol, which may become the parent of what follows
    method FinalizeSubmenu(node: MenuNode, visibleIf: Expr, ghost ts: seq<Tree>, ghost parent: MenuNode?,
                           ghost p0: map<MenuNode, Props>, ghost p1: map<MenuNode, Props>, ghost region: set<MenuNode>)
      requires ts != [] && ts[0].kids == [] && node.item.SymNode? && Segment(node, ts, parent, null) && Separate(ts) && NodeSet(ts) <= region
      requires LevelReceived(ts, p0, p1) && Below(ts, visibleIf, p0, p1)
      modifies NodeSet(ts), this
      ensures
        var l := Absorbed(node.item.s, ts[1..], p1, old(accs));
        && Segment(node, [Tree(node, Shaped(l.trees, p1))] + l.rest, parent, null) && accs == l.accs
        && Have([Tree(node, Shaped(l.trees, p1))], p1) && LevelReceived(l.rest, p0, p1)
      decreases |Nodes(ts)|, 0, 0
    {
      Apart(ts);
      ghost var more := ts[1..];
      ghost var l := Absorbed(node.item.s, more, p1, accs);
      AbsorbedSeparate(node.item.s, more, p1, accs);
      BuildSubmenu(node, visibleIf, more, parent, p0, p1, region);
      assert accs == l.accs && node.parent == parent && PropsOf(node) == p1[node];
      CloseLevel(node, l.trees, l.rest, parent, p0, p1, region);
      assert accs == l.accs;
    }

    // Finalising what goes into the submenu of node, and moving it there
    method BuildSubmenu(node: MenuNode, visibleIf: Expr, ghost ts: seq<Tree>, ghost parent: MenuNode?,
                        ghost p0: map<MenuNode, Props>, ghost p1: map<MenuNode, Props>, ghost region: set<MenuNode>)
      requires node.item.SymNode? && node.list == null && node !in NodeSet(ts)
      requires Segment(node.next, ts, parent, null) && Separate(ts) && NodeSet(ts) <= region
      requires LevelReceived(ts, p0, p1) && Below(ts, visibleIf, p0, p1)
      modifies NodeSet(ts), node`list, node`next, this
      ensures
        var l := Absorbed(node.item.s, ts, p1, old(accs));
        && Segment(node.list, l.trees, node, null) && Segment(node.next, l.rest, parent, null) && accs == l.accs
        && Have(l.trees, p1) && LevelReceived(l.rest, p0, p1)
      ensures node.parent == old(node.parent) && PropsOf(node) == old(PropsOf(node))
      decreases |Nodes(ts)|, 2, 0
    {
      ghost var l := Absorbed(node.item.s, ts, p1, accs);
      AbsorbedSeparate(node.item.s, ts, p1, accs);
      var last := Absorb(node, node, visibleIf, ts, parent, p0, p1, region);
      if last != node {
        LastApart(l.trees);
        Tilt(node, last, l.trees, l.rest, parent, p0, p1, region);
      }
    }

    // Tilting the symbols up to last into a submenu of node
    method Tilt(node: MenuNode, last: MenuNode, ghost kids: seq<Tree>, ghost rest: seq<Tree>, ghost parent: MenuNode?,
                ghost p0: map<MenuNode, Props>, ghost p1: map<MenuNode, Props>, ghost region: set<MenuNode>)
      requires kids != [] && Separate(kids) && NodeSet(kids) !! NodeSet(rest) && node !in NodeSet(kids) && node !in NodeSet(rest)
      requires NodeSet(kids) <= region && NodeSet(rest) <= region
      requires last == kids[|kids| - 1].node && Segment(node.next, kids, node, last.next) && Segment(last.next, rest, parent, null)
      requires Have(kids, p1) && LevelReceived(rest, p0, p1)
      modifies node`list, node`next, last`next
      ensures Segment(node.list, kids, node, null) && Segment(node.next, rest, parent, null)
      ensures Have(kids, p1) && LevelReceived(rest, p0, p1) && accs == old(accs)
    {
      ghost var init := kids[..|kids| - 1];
      LastApart(kids);
      SplitLast(node.next, kids, node, last.next);
      CutAfter(last, node, init, kids[|kids| - 1], rest, parent, region);
      JoinLast(node.list, kids, node);
    }

    // The three assignments: afterwards the list ends with last.
    method CutAfter(last: MenuNode, node: MenuNode, ghost init: seq<Tree>, ghost t: Tree, ghost rest: seq<Tree>, ghost parent: MenuNode?, ghost region: set<MenuNode>)
      requires last == t.node && last !in NodeSet(init) && last !in NodeSet(t.kids) && last !in NodeSet(rest) && last != node
      requires node !in NodeSet(init) && node !in NodeSet(t.kids) && node !in NodeSet(rest)
      requires NodeSet(init) <= region && NodeSet(t.kids) <= region && NodeSet(rest) <= region
      requires Segment(node.next, init, node, last) && Segment(last.list, t.kids, last, null) && Segment(last.next, rest, parent, null)
      modifies node`list, node`next, last`next
      ensures Segment(node.list, init, node, last) && Segment(last.list, t.kids, last, null) && last.next == null && Segment(node.next, rest, parent, null)
      ensures last.parent == old(last.parent) && accs == old(accs)
    {
      node.list := node.next;
      node.next := last.next;
      last.next := null;
    }

    // The call for the top node: afterwards the nodes below it are the ones that were there except for
    // the ifs, in the same order and linked up, they have received the dependencies from above, and
    // every symbol has the properties of its nodes.
    method FinalizeTop(top: MenuNode, ghost kids: seq<Tree>, ghost p0: map<MenuNode, Props>, ghost region: set<MenuNode>)
      requires top.item.MenuItem? && top.parent == null && top.next == null && accs == map[]
      requires Segment(top.list, kids, top, null) && Separate(kids) && top !in NodeSet(kids) && NodeSet(kids) + {top} <= region
      requires Have([Tree(top, kids)], p0) && IfsBare(kids, p0) && SymbolsAreLeaves(kids) && NodeSet(kids) <= p0.Keys
      modifies top, NodeSet(kids), this
      ensures
        var p1 := FromTop(top, kids, p0);
        var final := Shaped(FinishLevel(kids, p1, map[]).trees, p1);
        && Segment(top.list, final, top, null) && Have(final, p1)
        && Nodes(final) == NonIf(Nodes(kids)) && accs == Collected(map[], Nodes(kids), p1)
    {
      ghost var p1 := FromTop(top, kids, p0);
      ghost var ts := [Tree(top, kids)];
      OneTop(top, kids, p1);
      FromTopIsReceived(top, kids, p0);
      FinalizeTree(top, YES, ts, null, p0, p1, region);
      ghost var f := Finish(ts, p1, map[]);
      TakeSegment(top, f.tree, [], null);
      JoinHave(f.tree, [], p1);
      assert [f.tree] + [] == [f.tree];
      TopResult(kids, p1);
    }
  }

  lemma {:induction false} OneTop(top: MenuNode, kids: seq<Tree>, p: map<MenuNode, Props>)
    requires top.item.MenuItem?
    ensures
      var ts := [Tree(top, kids)];
      ts[1..] == [] && NodeSet(ts) == {top} + NodeSet(kids) && Finish(ts, p, map[]).rest == [] && Finish(ts, p, map[]).accs == FinishLevel(kids, p, map[]).accs
      && Finish(ts, p, map[]).tree == Tree(top, Shaped(FinishLevel(kids, p, map[]).trees, p))
  {
  }

  lemma {:induction false} TopResult(kids: seq<Tree>, p: map<MenuNode, Props>)
    requires IfsBare(kids, p) && SymbolsAreLeaves(kids)
    ensures Nodes(Shaped(FinishLevel(kids, p, map[]).trees, p)) == NonIf(Nodes(kids))
    ensures FinishLevel(kids, p, map[]).accs == Collected(map[], Nodes(kids), p)
  {
    FinalisingKeepsOrder(kids, p, map[]);
    FinishLevelCollects(kids, p, map[]);
  }

  // The properties after propagation from the top node.
  ghost function FromTop(top: MenuNode, kids: seq<Tree>, p0: map<MenuNode, Props>): map<MenuNode, Props>
    requires NodeSet(kids) <= p0.Keys && top in p0
  {
    Handed(kids, p0[top].dep, VisibleIf(MenuItem, YES, p0[top].visibility), p0)[top := p0[top]]
  }

  lemma IfsStayBare(ts: seq<Tree>, base: Expr, visibleIf: Expr, p0: map<MenuNode, Props>, p1: map<MenuNode, Props>)
    requires IfsBare(ts, p0) && Received(ts, base, visibleIf, p0, p1)
    ensures IfsBare(ts, p1)
  {
  }

  lemma {:induction false} FromTopIsReceived(top: MenuNode, kids: seq<Tree>, p0: map<MenuNode, Props>)
    requires NodeSet(kids) <= p0.Keys && top in p0 && top !in NodeSet(kids) && Separate(kids) && IfsBare(kids, p0)
    ensures Received(kids, p0[top].dep, VisibleIf(MenuItem, YES, p0[top].visibility), p0, FromTop(top, kids, p0))
    ensures IfsBare(kids, FromTop(top, kids, p0))
  {
    var base, visibleIf := p0[top].dep, VisibleIf(MenuItem, YES, p0[top].visibility);
    var p := Handed(kids, base, visibleIf, p0);
    HandedIsReceived(kids, base, visibleIf, p0);
    ReceivedAgrees(kids, base, visibleIf, p0, p, FromTop(top, kids, p0));
    IfsStayBare(kids, base, visibleIf, p0, FromTop(top, kids, p0));
  }

  // _auto_menu_dep()
  predicate DependsOnParent(child: MenuNode, node: MenuNode)
    requires node.item.SymNode?
    reads child`prompt, child`dep
  {
    ExprDependsOn(if child.prompt.Some? then child.prompt.value.cond else child.dep, node.item.s)
  }
}
