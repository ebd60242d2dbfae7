// The menu tree as linked nodes: list points to the first child, next to the following sibling, and
// parent upwards. A Tree is the shape that a node and what hangs below it stand for.
module MenuTree {
  import opened Basics
  import opened Model

  datatype NodeItem = IfNode | SymNode(s: nat) | ChoiceNode(c: nat) | MenuItem | CommentItem

  datatype Prompt = Prompt(text: string, cond: Expr)

  // A select or imply.
  datatype Target = Target(sym: nat, cond: Expr)

  class MenuNode {
    const item: NodeItem
    var prompt: Option<Prompt>
    var dep: Expr
    var visibility: Expr
    var defaults: seq<Default>
    var ranges: seq<Range>
    var selects: seq<Target>
    var implies: seq<Target>
    var next: MenuNode?
    var list: MenuNode?
    var parent: MenuNode?

    constructor (item: NodeItem, prompt: Option<Prompt>, dep: Expr, visibility: Expr)
      ensures this.item == item && this.prompt == prompt && this.dep == dep && this.visibility == visibility
      ensures defaults == [] && ranges == [] && selects == [] && implies == []
      ensures next == null && list == null && parent == null
    {
      this.item, this.prompt, this.dep, this.visibility := item, prompt, dep, visibility;
      defaults, ranges, selects, implies := [], [], [], [];
      next, list, parent := null, null, null;
    }
  }

  datatype Tree = Tree(node: MenuNode, kids: seq<Tree>)

  // The nodes of some trees, each before its children and its children before the next one.
  ghost function Nodes(ts: seq<Tree>): seq<MenuNode> {
    if ts == [] then [] else [ts[0].node] + Nodes(ts[0].kids) + Nodes(ts[1..])
  }

  ghost function NodeSet(ts: seq<Tree>): set<MenuNode> {
    if ts == [] then {} else {ts[0].node} + NodeSet(ts[0].kids) + NodeSet(ts[1..])
  }

  // No node occurs twice.
  ghost predicate Separate(ts: seq<Tree>) {
    ts == [] ||
    (&& ts[0].node !in NodeSet(ts[0].kids) && ts[0].node !in NodeSet(ts[1..]) && NodeSet(ts[0].kids) !! NodeSet(ts[1..])
     && Separate(ts[0].kids) && Separate(ts[1..]))
  }

  // The list from head up to (not including) end represents ts, with the given parent.
  ghost predicate Segment(head: MenuNode?, ts: seq<Tree>, parent: MenuNode?, end: MenuNode?)
    reads NodeSet(ts)`next, NodeSet(ts)`list, NodeSet(ts)`parent
  {
    if ts == [] then head == end
    else
      && head == ts[0].node && ts[0].node.parent == parent
      && Segment(ts[0].node.list, ts[0].kids, ts[0].node, null)
      && Segment(ts[0].node.next, ts[1..], parent, end)
  }

  lemma {:induction false} NodesConcat(a: seq<Tree>, b: seq<Tree>)
    ensures Nodes(a + b) == Nodes(a) + Nodes(b)
  {
    if a == [] {
      assert a + b == b;
    } else {
      assert (a + b)[1..] == a[1..] + b;
      NodesConcat(a[1..], b);
    }
  }

  lemma {:induction false} NodeSetConcat(a: seq<Tree>, b: seq<Tree>)
    ensures NodeSet(a + b) == NodeSet(a) + NodeSet(b)
  {
    if a == [] {
      assert a + b == b;
    } else {
      assert (a + b)[1..] == a[1..] + b;
      NodeSetConcat(a[1..], b);
    }
  }

  lemma {:induction false} SeparateConcat(a: seq<Tree>, b: seq<Tree>)
    requires Separate(a) && Separate(b) && NodeSet(a) !! NodeSet(b)
    ensures Separate(a + b)
  {
    if a == [] {
      assert a + b == b;
    } else {
      assert (a + b)[1..] == a[1..] + b;
      NodeSetConcat(a[1..], b);
      SeparateConcat(a[1..], b);
    }
  }

  lemma {:induction false} SegmentConcat(head: MenuNode?, a: seq<Tree>, mid: MenuNode?, b: seq<Tree>, parent: MenuNode?, end: MenuNode?)
    requires Segment(head, a, parent, mid) && Segment(mid, b, parent, end)
    ensures Segment(head, a + b, parent, end)
  {
    if a == [] {
      assert a + b == b;
    } else {
      assert (a + b)[1..] == a[1..] + b;
      SegmentConcat(a[0].node.next, a[1..], mid, b, parent, end);
    }
  }

  // A first tree and the list after it.
  lemma {:induction false} JoinSegment(node: MenuNode, t: Tree, more: seq<Tree>, parent: MenuNode?, end: MenuNode?)
    requires node == t.node && node.parent == parent && Segment(node.list, t.kids, node, null) && Segment(node.next, more, parent, end)
    ensures Segment(node, [t] + more, parent, end)
  {
    assert ([t] + more)[1..] == more;
  }

  // ---- _flatten() ----

  // A node without a prompt (bare holds those) that has children and is not a choice is flattened.
  ghost function Flattened(ts: seq<Tree>, bare: set<MenuNode>): (r: seq<Tree>)
    decreases |Nodes(ts)|
  {
    if ts == [] then []
    else if ts[0].kids != [] && ts[0].node in bare && !ts[0].node.item.ChoiceNode? then
      NodesConcat(ts[0].kids, ts[1..]);
      [Tree(ts[0].node, [])] + Flattened(ts[0].kids + ts[1..], bare)
    else [ts[0]] + Flattened(ts[1..], bare)
  }

  // Flattening keeps the nodes and their order.
  lemma {:induction false} FlattenedKeepsOrder(ts: seq<Tree>, bare: set<MenuNode>)
    ensures Nodes(Flattened(ts, bare)) == Nodes(ts)
    decreases |Nodes(ts)|
  {
    if ts != [] {
      if ts[0].kids != [] && ts[0].node in bare && !ts[0].node.item.ChoiceNode? {
        NodesConcat(ts[0].kids, ts[1..]);
        FlattenedKeepsOrder(ts[0].kids + ts[1..], bare);
      } else {
        FlattenedKeepsOrder(ts[1..], bare);
      }
    }
  }

  lemma {:induction false} FlattenedSeparate(ts: seq<Tree>, bare: set<MenuNode>)
    requires Separate(ts)
    ensures Separate(Flattened(ts, bare)) && NodeSet(Flattened(ts, bare)) == NodeSet(ts)
    decreases |Nodes(ts)|
  {
    if ts != [] {
      if ts[0].kids != [] && ts[0].node in bare && !ts[0].node.item.ChoiceNode? {
        NodesConcat(ts[0].kids, ts[1..]);
        NodeSetConcat(ts[0].kids, ts[1..]);
        SeparateConcat(ts[0].kids, ts[1..]);
        FlattenedSeparate(ts[0].kids + ts[1..], bare);
      } else {
        FlattenedSeparate(ts[1..], bare);
      }
    }
  }

  // bare holds the nodes of ts without a prompt.
  ghost predicate BareNodes(ts: seq<Tree>, bare: set<MenuNode>)
    reads NodeSet(ts)`prompt
  {
    forall n :: n in NodeSet(ts) ==> (n in bare <==> n.prompt.None?)
  }

  // The rest of a level is apart from its first tree.
  lemma {:induction false} Apart(ts: seq<Tree>)
    requires Separate(ts) && ts != []
    ensures Separate(ts[1..]) && Separate(ts[0].kids) && ts[0].node !in NodeSet(ts[1..]) && ts[0].node !in NodeSet(ts[0].kids)
    ensures NodeSet(ts[0].kids) !! NodeSet(ts[1..]) && NodeSet(ts) == {ts[0].node} + NodeSet(ts[0].kids) + NodeSet(ts[1..])
  {
  }

  // The inner loop of _flatten(), following next from node on: every node of the list gets the parent
  // p, and the last one is hooked onto the list at end. (region bounds the nodes that are talked
  // about, so that they are known to exist.)
  method Lift(node: MenuNode, p: MenuNode?, end: MenuNode?, ghost ts: seq<Tree>, ghost rest: seq<Tree>, ghost from: MenuNode, ghost region: set<MenuNode>)
    requires ts != [] && Segment(node, ts, from, null) && Segment(end, rest, p, null)
    requires Separate(ts) && NodeSet(ts) !! NodeSet(rest) && NodeSet(ts) + NodeSet(rest) <= region
    modifies NodeSet(ts)`parent, NodeSet(ts)`next
    ensures Segment(node, ts + rest, p, null)
    decreases |ts|
  {
    Apart(ts);
    if node.next == null {
      Hook(node, p, end, ts, rest, from, region);
    } else {
      node.parent := p;
      Lift(node.next, p, end, ts[1..], rest, from, region);
      JoinSegment(node, ts[0], ts[1..] + rest, p, null);
      OneAndMore(ts, rest);
    }
  }

  // The last node of the list
  method Hook(node: MenuNode, p: MenuNode?, end: MenuNode?, ghost ts: seq<Tree>, ghost rest: seq<Tree>, ghost from: MenuNode, ghost region: set<MenuNode>)
    requires ts != [] && node.next == null && Segment(node, ts, from, null) && Segment(end, rest, p, null)
    requires Separate(ts) && NodeSet(ts) !! NodeSet(rest) && NodeSet(ts) + NodeSet(rest) <= region
    modifies node`parent, node`next
    ensures Segment(node, ts + rest, p, null)
  {
    Apart(ts);
    assert ts[1..] == [];
    node.parent := p;
    node.next := end;
    JoinSegment(node, ts[0], rest, p, null);
    OneAndMore(ts, rest);
  }

  lemma {:induction false} OneAndMore(ts: seq<Tree>, rest: seq<Tree>)
    requires ts != []
    ensures [ts[0]] + (ts[1..] + rest) == ts + rest && (ts[1..] == [] ==> ts[1..] + rest == rest)
  {
  }

  // The branch of _flatten() for a node that is flattened.
  method FlattenNode(node: MenuNode, ghost ts: seq<Tree>, ghost parent: MenuNode?, ghost region: set<MenuNode>)
    requires Segment(node, ts, parent, null) && Separate(ts) && NodeSet(ts) <= region && ts != [] && ts[0].kids != []
    modifies node`next, node`list, NodeSet(ts[0].kids)`parent, NodeSet(ts[0].kids)`next
    ensures node.list == null && node.parent == parent
    ensures Segment(node.next, ts[0].kids + ts[1..], parent, null) && Separate(ts[0].kids + ts[1..])
    ensures NodeSet(ts[0].kids + ts[1..]) + {node} == NodeSet(ts) && node !in NodeSet(ts[0].kids + ts[1..])
    ensures |Nodes(ts[0].kids + ts[1..])| < |Nodes(ts)|
  {
    Apart(ts);
    Lift(node.list, node.parent, node.next, ts[0].kids, ts[1..], node, region);
    NodesConcat(ts[0].kids, ts[1..]);
    NodeSetConcat(ts[0].kids, ts[1..]);
    SeparateConcat(ts[0].kids, ts[1..]);
    node.next := node.list;
    node.list := null;
  }

  // _flatten(), following next from node on
  method Flatten(node: MenuNode?, ghost ts: seq<Tree>, ghost bare: set<MenuNode>, ghost parent: MenuNode?, ghost region: set<MenuNode>)
    requires Segment(node, ts, parent, null) && Separate(ts) && NodeSet(ts) <= region && BareNodes(ts, bare)
    modifies NodeSet(ts)`next, NodeSet(ts)`list, NodeSet(ts)`parent
    ensures Segment(node, Flattened(ts, bare), parent, null)
    decreases |Nodes(ts)|
  {
    if node != null {
      Apart(ts);
      if node.list != null && node.prompt.None? && !node.item.ChoiceNode? {
        FlattenNode(node, ts, parent, region);
        Flatten(node.next, ts[0].kids + ts[1..], bare, parent, region);
      } else {
        Flatten(node.next, ts[1..], bare, parent, region);
      }
    }
  }

  // ---- _remove_ifs() ----

  ghost function WithoutIfs(ts: seq<Tree>): seq<Tree> {
    if ts == [] then [] else (if ts[0].node.item.IfNode? then [] else [ts[0]]) + WithoutIfs(ts[1..])
  }

  // The first node of the list that is not an if.
  method SkipIfs(first: MenuNode?, ghost ts: seq<Tree>, ghost parent: MenuNode?) returns (cur: MenuNode?, ghost rest: seq<Tree>)
    requires Segment(first, ts, parent, null) && Separate(ts)
    ensures Segment(cur, rest, parent, null) && Separate(rest) && NodeSet(rest) <= NodeSet(ts) && |rest| <= |ts|
    ensures WithoutIfs(rest) == WithoutIfs(ts) && (cur != null ==> !cur.item.IfNode?)
  {
    cur := first;
    rest := ts;
    while cur != null && cur.item.IfNode?
      invariant Segment(cur, rest, parent, null) && Separate(rest) && NodeSet(rest) <= NodeSet(ts) && |rest| <= |ts|
      invariant WithoutIfs(rest) == WithoutIfs(ts)
      decreases |rest|
    {
      rest := rest[1..];
      cur := cur.next;
    }
  }

  // The body of the second loop of _remove_ifs()
  method LinkNext(cur: MenuNode, ghost ts: seq<Tree>, ghost parent: MenuNode?) returns (next: MenuNode?, ghost rest: seq<Tree>)
    requires ts != [] && Segment(cur, ts, parent, null) && Separate(ts)
    modifies cur`next
    ensures cur.next == next && Segment(next, rest, parent, null) && Separate(rest) && NodeSet(rest) <= NodeSet(ts[1..]) && |rest| < |ts|
    ensures WithoutIfs(rest) == WithoutIfs(ts[1..]) && (next != null ==> !next.item.IfNode?)
  {
    Apart(ts);
    next, rest := SkipIfs(cur.next, ts[1..], parent);
    cur.next := next;
  }

  // The second loop of _remove_ifs(): links every remaining node to the next one that is not an if.
  method LinkWithoutIfs(cur: MenuNode?, ghost ts: seq<Tree>, ghost parent: MenuNode?, ghost region: set<MenuNode>)
    requires Segment(cur, ts, parent, null) && Separate(ts) && NodeSet(ts) <= region
    requires cur != null ==> !cur.item.IfNode?
    modifies NodeSet(ts)`next
    ensures Segment(cur, WithoutIfs(ts), parent, null)
    decreases |ts|
  {
    if cur != null {
      Apart(ts);
      ghost var rest;
      var next;
      next, rest := LinkNext(cur, ts, parent);
      assert Segment(cur.list, ts[0].kids, cur, null);
      LinkWithoutIfs(next, rest, parent, region);
      FirstKept(cur, ts, rest, parent);
    }
  }

  lemma {:induction false} FirstKept(cur: MenuNode, ts: seq<Tree>, rest: seq<Tree>, parent: MenuNode?)
    requires ts != [] && cur == ts[0].node && cur.parent == parent && !cur.item.IfNode? && Segment(cur.list, ts[0].kids, cur, null)
    requires WithoutIfs(rest) == WithoutIfs(ts[1..]) && Segment(cur.next, WithoutIfs(rest), parent, null)
    ensures Segment(cur, WithoutIfs(ts), parent, null)
  {
    assert WithoutIfs(ts) == [ts[0]] + WithoutIfs(rest);
    assert WithoutIfs(ts)[1..] == WithoutIfs(rest);
  }

  // _remove_ifs()
  method RemoveIfs(node: MenuNode, ghost kids: seq<Tree>, ghost region: set<MenuNode>)
    requires Segment(node.list, kids, node, null) && Separate(kids) && node !in NodeSet(kids) && NodeSet(kids) <= region
    modifies node`list, NodeSet(kids)`next
    ensures Segment(node.list, WithoutIfs(kids), node, null)
  {
    ghost var rest;
    var cur;
    cur, rest := SkipIfs(node.list, kids, node);
    node.list := cur;
    LinkWithoutIfs(cur, rest, node, region);
  }
}
