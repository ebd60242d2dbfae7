// The propagation of dependencies down the menu tree, and what it means.
module Propagation {
  import opened Basics
  import opened Model
  import opened Semantics
  import opened MenuTree

  // _make_and() and _make_or()
  function MakeAnd(a: Expr, b: Expr): Expr {
    if a == YES then b else if b == YES then a else if a == NO || b == NO then NO else And(a, b)
  }

  function MakeOr(a: Expr, b: Expr): Expr {
    if a == NO then b else if b == NO then a else if a == YES || b == YES then YES else Or(a, b)
  }

  // They mean minimum and maximum in every valuation.
  lemma {:induction false} ConstantsMean(k: View)
    ensures k.Eval(NO) == Some(0) && k.Eval(YES) == Some(2)
  {
  }

  lemma {:induction false} ConnectivesMean(k: View, a: Expr, b: Expr)
    requires k.Eval(a).Some? && k.Eval(b).Some?
    ensures k.Eval(And(a, b)) == Some(Min(k.Eval(a).value, k.Eval(b).value))
    ensures k.Eval(Or(a, b)) == Some(Max(k.Eval(a).value, k.Eval(b).value))
  {
  }

  lemma {:induction false} MakeAndMeans(k: View, a: Expr, b: Expr)
    requires k.Eval(a).Some? && k.Eval(b).Some?
    ensures k.Eval(MakeAnd(a, b)) == Some(Min(k.Eval(a).value, k.Eval(b).value))
  {
    ConstantsMean(k);
    if a != YES && b != YES && a != NO && b != NO {
      ConnectivesMean(k, a, b);
    }
  }

  lemma {:induction false} MakeOrMeans(k: View, a: Expr, b: Expr)
    requires k.Eval(a).Some? && k.Eval(b).Some?
    ensures k.Eval(MakeOr(a, b)) == Some(Max(k.Eval(a).value, k.Eval(b).value))
  {
    ConstantsMean(k);
    if a != YES && b != YES && a != NO && b != NO {
      ConnectivesMean(k, a, b);
    }
  }

  // ---- what propagation does to one node ----

  // The properties of a node.
  datatype Props = Props(prompt: Option<Prompt>, dep: Expr, visibility: Expr, defaults: seq<Default>, ranges: seq<Range>,
                         selects: seq<Target>, implies: seq<Target>)

  function PropsOf(n: MenuNode): Props
    reads n`prompt, n`dep, n`visibility, n`defaults, n`ranges, n`selects, n`implies
  {
    Props(n.prompt, n.dep, n.visibility, n.defaults, n.ranges, n.selects, n.implies)
  }

  function DefaultsUnder(ds: seq<Default>, dep: Expr): seq<Default> {
    seq(|ds|, i requires 0 <= i < |ds| => ds[i].(cond := MakeAnd(ds[i].cond, dep)))
  }

  function RangesUnder(rs: seq<Range>, dep: Expr): seq<Range> {
    seq(|rs|, i requires 0 <= i < |rs| => rs[i].(cond := MakeAnd(rs[i].cond, dep)))
  }

  function TargetsUnder(ts: seq<Target>, dep: Expr): seq<Target> {
    seq(|ts|, i requires 0 <= i < |ts| => ts[i].(cond := MakeAnd(ts[i].cond, dep)))
  }

  predicate HasProperties(item: NodeItem) { item.SymNode? || item.ChoiceNode? }

  // The body of the loop in _propagate_deps().
  function Under(p: Props, item: NodeItem, base: Expr, visibleIf: Expr): Props {
    var dep := MakeAnd(p.dep, base);
    if HasProperties(item) then
      Props(if p.prompt.Some? then Some(p.prompt.value.(cond := MakeAnd(p.prompt.value.cond, MakeAnd(visibleIf, dep)))) else None,
            dep, p.visibility, DefaultsUnder(p.defaults, dep), RangesUnder(p.ranges, dep),
            TargetsUnder(p.selects, dep), TargetsUnder(p.implies, dep))
    else
      p.(dep := dep,
         prompt := if p.prompt.Some? then Some(p.prompt.value.(cond := MakeAnd(p.prompt.value.cond, dep))) else None)
  }

  // What a node passes on to its children: a choice passes itself instead of its dependencies.
  function Passed(item: NodeItem, dep: Expr): Expr { if item.ChoiceNode? then InChoice(item.c) else dep }

  function VisibleIf(item: NodeItem, visibleIf: Expr, visibility: Expr): Expr {
    if item.MenuItem? then MakeAnd(visibleIf, visibility) else visibleIf
  }

  // ---- the whole tree ----

  // p1 is what p0 becomes when everything in ts receives what comes from above.
  ghost predicate Received(ts: seq<Tree>, base: Expr, visibleIf: Expr, p0: map<MenuNode, Props>, p1: map<MenuNode, Props>) {
    ts == [] ||
    (var n := ts[0].node;
     && n in p0 && n in p1 && p1[n] == Under(p0[n], n.item, base, visibleIf)
     && Received(ts[0].kids, Passed(n.item, p1[n].dep), VisibleIf(n.item, visibleIf, p0[n].visibility), p0, p1)
     && Received(ts[1..], base, visibleIf, p0, p1))
  }

  // Such a p1 exists.
  ghost function Handed(ts: seq<Tree>, base: Expr, visibleIf: Expr, p0: map<MenuNode, Props>): (p1: map<MenuNode, Props>)
    requires NodeSet(ts) <= p0.Keys
    ensures p1.Keys == NodeSet(ts)
  {
    if ts == [] then map[]
    else
      var n := ts[0].node;
      var u := Under(p0[n], n.item, base, visibleIf);
      map[n := u] + Handed(ts[0].kids, Passed(n.item, u.dep), VisibleIf(n.item, visibleIf, p0[n].visibility), p0) + Handed(ts[1..], base, visibleIf, p0)
  }

  lemma ReceivedAgrees(ts: seq<Tree>, base: Expr, visibleIf: Expr, p0: map<MenuNode, Props>, p1: map<MenuNode, Props>, q1: map<MenuNode, Props>)
    requires Received(ts, base, visibleIf, p0, p1) && forall n :: n in NodeSet(ts) ==> n in q1 && (n in p1 ==> q1[n] == p1[n])
    ensures Received(ts, base, visibleIf, p0, q1)
  {
  }

  lemma {:induction false} HandedIsReceived(ts: seq<Tree>, base: Expr, visibleIf: Expr, p0: map<MenuNode, Props>)
    requires NodeSet(ts) <= p0.Keys && Separate(ts)
    ensures Received(ts, base, visibleIf, p0, Handed(ts, base, visibleIf, p0))
  {
    if ts != [] {
      var n := ts[0].node;
      var u := Under(p0[n], n.item, base, visibleIf);
      var base', vis' := Passed(n.item, u.dep), VisibleIf(n.item, visibleIf, p0[n].visibility);
      var p1 := Handed(ts, base, visibleIf, p0);
      HandedIsReceived(ts[0].kids, base', vis', p0);
      HandedIsReceived(ts[1..], base, visibleIf, p0);
      ReceivedAgrees(ts[0].kids, base', vis', p0, Handed(ts[0].kids, base', vis', p0), p1);
      ReceivedAgrees(ts[1..], base, visibleIf, p0, Handed(ts[1..], base, visibleIf, p0), p1);
    }
  }

  // Every node of ts has its properties in p.
  ghost predicate Have(ts: seq<Tree>, p: map<MenuNode, Props>)
    reads NodeSet(ts)`prompt, NodeSet(ts)`dep, NodeSet(ts)`visibility, NodeSet(ts)`defaults, NodeSet(ts)`ranges, NodeSet(ts)`selects, NodeSet(ts)`implies
  {
    ts == [] || (ts[0].node in p && PropsOf(ts[0].node) == p[ts[0].node] && Have(ts[0].kids, p) && Have(ts[1..], p))
  }

  // The nodes of the level itself have received theirs, the ones below have not.
  ghost predicate LevelReceived(ts: seq<Tree>, p0: map<MenuNode, Props>, p1: map<MenuNode, Props>)
    reads NodeSet(ts)`prompt, NodeSet(ts)`dep, NodeSet(ts)`visibility, NodeSet(ts)`defaults, NodeSet(ts)`ranges, NodeSet(ts)`selects, NodeSet(ts)`implies
  {
    ts == [] ||
    (ts[0].node in p1 && PropsOf(ts[0].node) == p1[ts[0].node] && Have(ts[0].kids, p0) && LevelReceived(ts[1..], p0, p1))
  }

  // The body of the loop in _propagate_deps().
  method PropagateTo(cur: MenuNode, basedep: Expr, visibleIf: Expr)
    modifies cur`prompt, cur`dep, cur`defaults, cur`ranges, cur`selects, cur`implies
    ensures PropsOf(cur) == Under(old(PropsOf(cur)), cur.item, basedep, visibleIf)
  {
    var dep := MakeAnd(cur.dep, basedep);
    cur.dep := dep;
    if cur.item.SymNode? || cur.item.ChoiceNode? {
      if cur.prompt.Some? {
        cur.prompt := Some(cur.prompt.value.(cond := MakeAnd(cur.prompt.value.cond, MakeAnd(visibleIf, dep))));
      }
      cur.defaults := DefaultsUnder(cur.defaults, dep);
      cur.ranges := RangesUnder(cur.ranges, dep);
      cur.selects := TargetsUnder(cur.selects, dep);
      cur.implies := TargetsUnder(cur.implies, dep);
    } else if cur.prompt.Some? {
      cur.prompt := Some(cur.prompt.value.(cond := MakeAnd(cur.prompt.value.cond, dep)));
    }
  }

  // The loop in _propagate_deps(), following next from cur on
  method PropagateLevel(cur: MenuNode?, basedep: Expr, visibleIf: Expr,
                        ghost ts: seq<Tree>, ghost parent: MenuNode?, ghost p0: map<MenuNode, Props>, ghost p1: map<MenuNode, Props>, ghost region: set<MenuNode>)
    requires Segment(cur, ts, parent, null) && Separate(ts) && NodeSet(ts) <= region
    requires Have(ts, p0) && Received(ts, basedep, visibleIf, p0, p1)
    modifies NodeSet(ts)`prompt, NodeSet(ts)`dep, NodeSet(ts)`defaults, NodeSet(ts)`ranges, NodeSet(ts)`selects, NodeSet(ts)`implies
    ensures LevelReceived(ts, p0, p1)
    decreases |ts|
  {
    if cur != null {
      Apart(ts);
      PropagateTo(cur, basedep, visibleIf);
      assert PropsOf(cur) == p1[cur] && Have(ts[0].kids, p0) && Have(ts[1..], p0) && Segment(cur.next, ts[1..], parent, null);
      PropagateLevel(cur.next, basedep, visibleIf, ts[1..], parent, p0, p1, region);
    }
  }

  // _propagate_deps(): a choice stands for its own dependencies.
  method PropagateDeps(node: MenuNode, visibleIf: Expr,
                       ghost kids: seq<Tree>, ghost p0: map<MenuNode, Props>, ghost p1: map<MenuNode, Props>, ghost region: set<MenuNode>)
    requires Segment(node.list, kids, node, null) && Separate(kids) && NodeSet(kids) <= region
    requires Have(kids, p0) && Received(kids, Passed(node.item, node.dep), visibleIf, p0, p1)
    modifies NodeSet(kids)`prompt, NodeSet(kids)`dep, NodeSet(kids)`defaults, NodeSet(kids)`ranges, NodeSet(kids)`selects, NodeSet(kids)`implies
    ensures LevelReceived(kids, p0, p1)
  {
    var basedep := if node.item.ChoiceNode? then InChoice(node.item.c) else node.dep;
    PropagateLevel(node.list, basedep, visibleIf, kids, node, p0, p1, region);
  }

  // ---- what it means ----

  // The values that the conditions of a node have to have when the enclosing dependencies evaluate to
  // base and the enclosing 'visible if' conditions to vis.
  predicate Means(k: View, before: Props, after: Props, item: NodeItem, base: Tri, vis: Tri) {
    k.Eval(before.dep).Some? ==>
      var dep := Min(k.Eval(before.dep).value, base);
      && k.Eval(after.dep) == Some(dep)
      && (before.prompt.Some? <==> after.prompt.Some?)
      && (before.prompt.Some? ==>
            && after.prompt.value.text == before.prompt.value.text
            && Narrowed(k, before.prompt.value.cond, after.prompt.value.cond, if HasProperties(item) then Min(vis, dep) else dep))
      && (HasProperties(item) ==> ListsNarrowed(k, before, after, dep))
  }

  // Defaults, ranges, selects and implies are the ones there were, in the same order, each limited by
  // the dependency.
  predicate ListsNarrowed(k: View, before: Props, after: Props, dep: Tri) {
    && |after.defaults| == |before.defaults| && |after.ranges| == |before.ranges|
    && |after.selects| == |before.selects| && |after.implies| == |before.implies|
    && (forall i :: 0 <= i < |before.defaults| ==> after.defaults[i].value == before.defaults[i].value && Narrowed(k, before.defaults[i].cond, after.defaults[i].cond, dep))
    && (forall i :: 0 <= i < |before.ranges| ==> after.ranges[i].low == before.ranges[i].low && after.ranges[i].high == before.ranges[i].high && Narrowed(k, before.ranges[i].cond, after.ranges[i].cond, dep))
    && (forall i :: 0 <= i < |before.selects| ==> after.selects[i].sym == before.selects[i].sym && Narrowed(k, before.selects[i].cond, after.selects[i].cond, dep))
    && (forall i :: 0 <= i < |before.implies| ==> after.implies[i].sym == before.implies[i].sym && Narrowed(k, before.implies[i].cond, after.implies[i].cond, dep))
  }

  predicate Narrowed(k: View, before: Expr, after: Expr, dep: Tri) {
    k.Eval(before).Some? ==> k.Eval(after) == Some(Min(k.Eval(before).value, dep))
  }

  // The value passed on to the children.
  function BaseValue(k: View, item: NodeItem, dep: Tri): Option<Tri> { if item.ChoiceNode? then k.Mode(item.c) else Some(dep) }

  function VisValue(k: View, item: NodeItem, vis: Tri, visibility: Expr): Option<Tri> {
    if item.MenuItem? then
      var v :- k.Eval(visibility);
      Some(Min(vis, v))
    else Some(vis)
  }

  // Every node of ts means what it should: its own conditions are limited by its own dependencies and
  // by those of every menu and if around it, up to an enclosing choice, which contributes its mode;
  // prompts of symbols and choices also by every enclosing 'visible if'.
  ghost predicate AllMean(k: View, ts: seq<Tree>, base: Tri, vis: Tri, p0: map<MenuNode, Props>, p1: map<MenuNode, Props>) {
    ts == [] ||
    (var n := ts[0].node;
     && n in p0 && n in p1 && Means(k, p0[n], p1[n], n.item, base, vis)
     && (k.Eval(p0[n].dep).Some? ==>
           var b := BaseValue(k, n.item, Min(k.Eval(p0[n].dep).value, base));
           var v := VisValue(k, n.item, vis, p0[n].visibility);
           b.Some? && v.Some? ==> AllMean(k, ts[0].kids, b.value, v.value, p0, p1))
     && AllMean(k, ts[1..], base, vis, p0, p1))
  }

  lemma {:induction false} AndNarrows(k: View, e: Expr, dep: Expr)
    requires k.Eval(dep).Some?
    ensures Narrowed(k, e, MakeAnd(e, dep), k.Eval(dep).value)
  {
    if k.Eval(e).Some? {
      MakeAndMeans(k, e, dep);
    }
  }

  lemma {:induction false} ListsMean(k: View, p: Props, dep: Expr)
    requires k.Eval(dep).Some?
    ensures ListsNarrowed(k, p, p.(defaults := DefaultsUnder(p.defaults, dep), ranges := RangesUnder(p.ranges, dep),
                                   selects := TargetsUnder(p.selects, dep), implies := TargetsUnder(p.implies, dep)), k.Eval(dep).value)
  {
    forall e {:trigger MakeAnd(e, dep)} ensures Narrowed(k, e, MakeAnd(e, dep), k.Eval(dep).value) {
      AndNarrows(k, e, dep);
    }
  }

  lemma {:induction false} UnderMeans(k: View, p: Props, item: NodeItem, base: Expr, visibleIf: Expr)
    requires k.Eval(base).Some? && k.Eval(visibleIf).Some?
    ensures Means(k, p, Under(p, item, base, visibleIf), item, k.Eval(base).value, k.Eval(visibleIf).value)
  {
    if k.Eval(p.dep).Some? {
      MakeAndMeans(k, p.dep, base);
      var dep := MakeAnd(p.dep, base);
      MakeAndMeans(k, visibleIf, dep);
      if p.prompt.Some? {
        AndNarrows(k, p.prompt.value.cond, dep);
        AndNarrows(k, p.prompt.value.cond, MakeAnd(visibleIf, dep));
      }
      ListsMean(k, p, dep);
    }
  }

  // Propagation preserves meaning, in every valuation.
  lemma {:induction false} PropagationMeans(k: View, ts: seq<Tree>, base: Expr, visibleIf: Expr, p0: map<MenuNode, Props>, p1: map<MenuNode, Props>)
    requires Received(ts, base, visibleIf, p0, p1) && k.Eval(base).Some? && k.Eval(visibleIf).Some?
    ensures AllMean(k, ts, k.Eval(base).value, k.Eval(visibleIf).value, p0, p1)
  {
    if ts != [] {
      var n := ts[0].node;
      UnderMeans(k, p0[n], n.item, base, visibleIf);
      PropagationMeans(k, ts[1..], base, visibleIf, p0, p1);
      if k.Eval(p0[n].dep).Some? {
        MakeAndMeans(k, p0[n].dep, base);
        if k.Eval(p0[n].visibility).Some? {
          MakeAndMeans(k, visibleIf, p0[n].visibility);
        }
        if k.Eval(Passed(n.item, p1[n].dep)).Some? && k.Eval(VisibleIf(n.item, visibleIf, p0[n].visibility)).Some? {
          PropagationMeans(k, ts[0].kids, Passed(n.item, p1[n].dep), VisibleIf(n.item, visibleIf, p0[n].visibility), p0, p1);
        }
      }
    }
  }
}
