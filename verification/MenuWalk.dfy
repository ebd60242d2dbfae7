// The iterative walk over the menu tree, along list, next and parent.
module MenuWalk {
  import opened Basics
  import opened MenuTree

  // A node is visited; later, if it has children, it is left.
  datatype Event = Visit(node: MenuNode) | Leave(node: MenuNode)

  // The recursive traversal.
  ghost function Events(ts: seq<Tree>): seq<Event>
    decreases ts, 0
  {
    if ts == [] then [] else [Visit(ts[0].node)] + Inside(ts[0].node, ts[0].kids) + Events(ts[1..])
  }

  ghost function Inside(node: MenuNode, kids: seq<Tree>): seq<Event>
    decreases kids, 1
  {
    if kids == [] then [] else Events(kids) + [Leave(node)]
  }

  function Visited(es: seq<Event>): seq<MenuNode> {
    if es == [] then [] else (if es[0].Visit? then [es[0].node] else []) + Visited(es[1..])
  }

  lemma {:induction false} VisitedConcat(a: seq<Event>, b: seq<Event>)
    ensures Visited(a + b) == Visited(a) + Visited(b)
  {
    if a == [] {
      assert a + b == b;
    } else {
      assert (a + b)[0] == a[0] && (a + b)[1..] == a[1..] + b;
      VisitedConcat(a[1..], b);
      Regroup(if a[0].Visit? then [a[0].node] else [], Visited(a[1..]), Visited(b));
    }
  }

  // Every node is visited once, before its children, and its children before the next node.
  lemma {:induction false} VisitsArePreorder(ts: seq<Tree>)
    ensures Visited(Events(ts)) == Nodes(ts)
  {
    if ts != [] {
      var t := ts[0];
      var es := [Visit(t.node)] + Inside(t.node, t.kids);
      VisitsArePreorder(t.kids);
      VisitsArePreorder(ts[1..]);
      VisitedConcat(es, Events(ts[1..]));
      VisitedConcat([Visit(t.node)], Inside(t.node, t.kids));
      VisitedConcat(Events(t.kids), [Leave(t.node)]);
      assert [Visit(t.node)][1..] == [] && [Leave(t.node)][1..] == [];
    }
  }

  // The nodes of ts that have children.
  ghost function ParentNodes(ts: seq<Tree>): (r: set<MenuNode>)
    ensures r <= NodeSet(ts)
  {
    if ts == [] then {} else (if ts[0].kids != [] then {ts[0].node} else {}) + ParentNodes(ts[0].kids) + ParentNodes(ts[1..])
  }

  // Visits and leaves of the nodes in which, as brackets: the nodes that are open after the events, None
  // if one is left that is not the last one opened.
  function Open(es: seq<Event>, open: seq<MenuNode>, which: set<MenuNode>): Option<seq<MenuNode>>
    decreases |es|
  {
    if es == [] then Some(open)
    else if es[0].node !in which then Open(es[1..], open, which)
    else if es[0].Visit? then Open(es[1..], open + [es[0].node], which)
    else if open != [] && open[|open| - 1] == es[0].node then Open(es[1..], open[..|open| - 1], which)
    else None
  }

  lemma {:induction false} OpenConcat(a: seq<Event>, b: seq<Event>, open: seq<MenuNode>, which: set<MenuNode>)
    ensures Open(a + b, open, which) == if Open(a, open, which).None? then None else Open(b, Open(a, open, which).value, which)
    decreases |a|
  {
    if a == [] {
      assert a + b == b;
    } else {
      var e := a[0];
      assert (a + b)[0] == e && (a + b)[1..] == a[1..] + b;
      if e.node !in which {
        OpenConcat(a[1..], b, open, which);
      } else if e.Visit? {
        OpenConcat(a[1..], b, open + [e.node], which);
      } else if open != [] && open[|open| - 1] == e.node {
        OpenConcat(a[1..], b, open[..|open| - 1], which);
      }
    }
  }

  lemma {:induction false} OpenOne(e: Event, open: seq<MenuNode>, which: set<MenuNode>)
    ensures Open([e], open, which) ==
            if e.node !in which then Some(open)
            else if e.Visit? then Some(open + [e.node])
            else if open != [] && open[|open| - 1] == e.node then Some(open[..|open| - 1])
            else None
  {
    assert [e][1..] == [];
  }

  // A node in which has children wherever it occurs.
  ghost predicate OnlyParents(ts: seq<Tree>, which: set<MenuNode>) {
    ts == [] || ((ts[0].node in which ==> ts[0].kids != []) && OnlyParents(ts[0].kids, which) && OnlyParents(ts[1..], which))
  }

  lemma {:induction false} ParentsOnly(ts: seq<Tree>, which: set<MenuNode>)
    requires Separate(ts) && which * NodeSet(ts) <= ParentNodes(ts)
    ensures OnlyParents(ts, which)
  {
    if ts != [] {
      ParentsOnly(ts[0].kids, which);
      ParentsOnly(ts[1..], which);
    }
  }

  // The menu around some trees: what is opened in it is closed in it.
  lemma {:induction false} ParentNests(node: MenuNode, kids: seq<Tree>, open: seq<MenuNode>, which: set<MenuNode>)
    requires node in which ==> kids != []
    requires forall open': seq<MenuNode> :: Open(Events(kids), open', which) == Some(open')
    ensures Open([Visit(node)] + Inside(node, kids), open, which) == Some(open)
  {
    OpenOne(Visit(node), open, which);
    OpenConcat([Visit(node)], Inside(node, kids), open, which);
    if kids != [] {
      var inner := if node in which then open + [node] else open;
      assert node in which ==> inner[..|inner| - 1] == open;
      OpenConcat(Events(kids), [Leave(node)], inner, which);
      OpenOne(Leave(node), inner, which);
    }
  }

  lemma {:induction false} EventsNest(ts: seq<Tree>, open: seq<MenuNode>, which: set<MenuNode>)
    requires OnlyParents(ts, which)
    ensures Open(Events(ts), open, which) == Some(open)
  {
    if ts != [] {
      var t := ts[0];
      forall open': seq<MenuNode> ensures Open(Events(t.kids), open', which) == Some(open') {
        EventsNest(t.kids, open', which);
      }
      ParentNests(t.node, t.kids, open, which);
      EventsNest(ts[1..], open, which);
      OpenConcat([Visit(t.node)] + Inside(t.node, t.kids), Events(ts[1..]), open, which);
    }
  }

  // Whichever nodes with children are looked at: all that is opened is closed again, in the right order.
  lemma {:induction false} WalkNests(ts: seq<Tree>, open: seq<MenuNode>, which: set<MenuNode>)
    requires Separate(ts) && which * NodeSet(ts) <= ParentNodes(ts)
    ensures Open(Events(ts), open, which) == Some(open)
  {
    ParentsOnly(ts, which);
    EventsNest(ts, open, which);
  }

  // ---- where the walk is ----

  // A node on the path from the top, as a tree, and the trees that follow it on its level.
  datatype Frame = Frame(t: Tree, rest: seq<Tree>)

  ghost function PathNodes(path: seq<Frame>): set<MenuNode> {
    if path == [] then {}
    else
      var f := path[|path| - 1];
      {f.t.node} + NodeSet(f.t.kids) + NodeSet(f.rest) + PathNodes(path[..|path| - 1])
  }

  ghost predicate OnPath(path: seq<Frame>)
    reads PathNodes(path)`next, PathNodes(path)`list, PathNodes(path)`parent
  {
    path != [] &&
    var f := path[|path| - 1];
    && Segment(f.t.node.list, f.t.kids, f.t.node, null)
    && if |path| == 1 then f.rest == [] && f.t.node.parent == null && f.t.node.next == null
       else
         var above := path[|path| - 2].t;
         above.kids != [] && f.t.node.parent == above.node && Segment(f.t.node.next, f.rest, above.node, null) && OnPath(path[..|path| - 1])
  }

  // What is still to come once the tree of the last frame is done.
  ghost function Later(path: seq<Frame>): seq<Event>
    requires path != []
  {
    var n := |path| - 1;
    if n == 0 then [] else Events(path[n].rest) + [Leave(path[n - 1].t.node)] + Later(path[..n])
  }

  ghost function ToCome(path: seq<Frame>): seq<Event>
    requires path != []
  {
    var t := path[|path| - 1].t;
    Inside(t.node, t.kids) + Later(path)
  }

  function AllLeft(left: seq<MenuNode>): seq<Event> { seq(|left|, i requires 0 <= i < |left| => Leave(left[i])) }

  // To the first child, to the next node, and to the parent.
  ghost function Down(path: seq<Frame>): seq<Frame>
    requires path != [] && path[|path| - 1].t.kids != []
  {
    path + [Frame(path[|path| - 1].t.kids[0], path[|path| - 1].t.kids[1..])]
  }

  ghost function Across(path: seq<Frame>): seq<Frame>
    requires path != [] && path[|path| - 1].rest != []
  {
    path[..|path| - 1] + [Frame(path[|path| - 1].rest[0], path[|path| - 1].rest[1..])]
  }

  // One frame more on the path.
  lemma {:induction false} LongerPath(path: seq<Frame>, f: Frame)
    requires OnPath(path) && path[|path| - 1].t.kids != []
    requires f.t.node.parent == path[|path| - 1].t.node && Segment(f.t.node.list, f.t.kids, f.t.node, null)
    requires Segment(f.t.node.next, f.rest, path[|path| - 1].t.node, null)
    ensures OnPath(path + [f]) && PathNodes(path + [f]) == {f.t.node} + NodeSet(f.t.kids) + NodeSet(f.rest) + PathNodes(path)
    ensures ToCome(path + [f]) == Inside(f.t.node, f.t.kids) + (Events(f.rest) + [Leave(path[|path| - 1].t.node)] + Later(path))
  {
    assert (path + [f])[..|path|] == path;
  }

  lemma {:induction false} DownOk(path: seq<Frame>)
    requires OnPath(path) && path[|path| - 1].t.kids != []
    ensures OnPath(Down(path)) && path[|path| - 1].t.node.list == path[|path| - 1].t.kids[0].node
    ensures ToCome(path) == [Visit(path[|path| - 1].t.kids[0].node)] + ToCome(Down(path))
    ensures PathNodes(Down(path)) <= PathNodes(path)
  {
    var t := path[|path| - 1].t;
    var k := t.kids[0];
    LongerPath(path, Frame(k, t.kids[1..]));
    Rebracket([Visit(k.node)], Inside(k.node, k.kids), Events(t.kids[1..]), [Leave(t.node)] + Later(path));
    Regroup(Events(t.kids[1..]), [Leave(t.node)], Later(path));
    Regroup(Events(t.kids), [Leave(t.node)], Later(path));
  }

  lemma {:induction false} Rebracket<T>(a: seq<T>, b: seq<T>, c: seq<T>, d: seq<T>)
    ensures (a + b + c) + d == a + (b + (c + d))
  {
  }

  lemma {:induction false} AcrossOk(path: seq<Frame>)
    requires OnPath(path) && path[|path| - 1].rest != []
    ensures OnPath(Across(path)) && path[|path| - 1].t.node.next == path[|path| - 1].rest[0].node
    ensures Later(path) == [Visit(path[|path| - 1].rest[0].node)] + ToCome(Across(path))
    ensures PathNodes(Across(path)) <= PathNodes(path)
  {
    var n := |path| - 1;
    var k, more := path[n].rest[0], Events(path[n].rest[1..]);
    LongerPath(path[..n], Frame(k, path[n].rest[1..]));
    var leave, later := [Leave(path[n - 1].t.node)], Later(path[..n]);
    Rebracket([Visit(k.node)], Inside(k.node, k.kids), more, leave + later);
    Regroup(more, leave, later);
    Regroup(Events(path[n].rest), leave, later);
  }

  lemma {:induction false} UpOk(path: seq<Frame>)
    requires OnPath(path) && |path| > 1 && path[|path| - 1].rest == []
    ensures OnPath(path[..|path| - 1]) && path[|path| - 1].t.node.parent == path[|path| - 2].t.node
    ensures Later(path) == [Leave(path[|path| - 2].t.node)] + Later(path[..|path| - 1])
  {
  }

  // The inner loop: up through the parents until there is a next node. Gives the nodes that are left
  // on the way.
  method Climb(node: MenuNode, ghost path: seq<Frame>) returns (cur: MenuNode, left: seq<MenuNode>, ghost path': seq<Frame>)
    requires OnPath(path) && node == path[|path| - 1].t.node
    ensures OnPath(path') && cur == path'[|path'| - 1].t.node && PathNodes(path') <= PathNodes(path)
    ensures Later(path) == AllLeft(left) + Later(path')
    ensures if cur.next == null then |path'| == 1 else path'[|path'| - 1].rest != []
  {
    left := [];
    path' := path;
    cur := node;
    while cur.next == null && cur.parent != null
      invariant OnPath(path') && cur == path'[|path'| - 1].t.node && PathNodes(path') <= PathNodes(path)
      invariant Later(path) == AllLeft(left) + Later(path')
      decreases |path'|
    {
      UpOk(path');
      path' := path'[..|path'| - 1];
      cur := cur.parent;
      OneMoreLeft(left, cur, Later(path'));
      left := left + [cur];
    }
  }

  lemma {:induction false} OneMoreLeft(left: seq<MenuNode>, node: MenuNode, later: seq<Event>)
    ensures AllLeft(left + [node]) + later == AllLeft(left) + ([Leave(node)] + later)
  {
    assert AllLeft(left + [node]) == AllLeft(left) + [Leave(node)];
  }

  // The part of the loop that moves on to the next node: the nodes that are left on the way, and the
  // node, null when there are no more.
  method Advance(node: MenuNode, ghost path: seq<Frame>) returns (next: MenuNode?, left: seq<MenuNode>, ghost path': seq<Frame>)
    requires OnPath(path) && node == path[|path| - 1].t.node
    ensures next == null ==> ToCome(path) == AllLeft(left)
    ensures next != null ==>
              OnPath(path') && next == path'[|path'| - 1].t.node && ToCome(path) == AllLeft(left) + [Visit(next)] + ToCome(path')
    ensures path' != [] && PathNodes(path') <= PathNodes(path)
  {
    if node.list != null {
      DownOk(path);
      return node.list, [], Down(path);
    }
    var cur;
    cur, left, path' := Climb(node, path);
    next := cur.next;
    if next != null {
      AcrossOk(path');
      Regroup(AllLeft(left), [Visit(next)], ToCome(Across(path')));
      path' := Across(path');
    }
  }

  // The whole loop: every node that is visited or left, in order.
  method Walk(top: MenuNode, ghost kids: seq<Tree>) returns (events: seq<Event>)
    requires top.parent == null && top.next == null && Segment(top.list, kids, top, null)
    ensures events == Inside(top, kids)
  {
    ghost var path := [Frame(Tree(top, kids), [])];
    WalkStart(top, kids);
    var node: MenuNode, left := top, [];
    events := [];
    while true
      invariant OnPath(path) && node == path[|path| - 1].t.node
      invariant Inside(top, kids) == events + ToCome(path)
      decreases |ToCome(path)|
    {
      var next;
      next, left, path := Advance(node, path);
      if next == null {
        events := events + AllLeft(left);
        break;
      }
      Regroup(AllLeft(left), [Visit(next)], ToCome(path));
      Regroup(events, AllLeft(left) + [Visit(next)], ToCome(path));
      events := events + (AllLeft(left) + [Visit(next)]);
      node := next;
    }
  }

  lemma {:induction false} WalkStart(top: MenuNode, kids: seq<Tree>)
    ensures ToCome([Frame(Tree(top, kids), [])]) == Inside(top, kids)
  {
  }

  // node_iter()
  method NodeIter(top: MenuNode, ghost kids: seq<Tree>) returns (nodes: seq<MenuNode>)
    requires top.parent == null && top.next == null && Segment(top.list, kids, top, null)
    ensures nodes == Nodes(kids)
  {
    var events := Walk(top, kids);
    nodes := Visited(events);
    AllVisited(top, kids);
  }

  lemma {:induction false} AllVisited(top: MenuNode, kids: seq<Tree>)
    ensures Visited(Inside(top, kids)) == Nodes(kids)
  {
    if kids != [] {
      VisitsArePreorder(kids);
      VisitedConcat(Events(kids), [Leave(top)]);
      assert [Leave(top)][1..] == [];
    }
  }
}
