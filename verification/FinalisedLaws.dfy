// What tree finalisation guarantees to the evaluator: visible symbols have their direct dependencies
// met, and the prompts of choice symbols are limited by the mode of their choice.
module FinalisedLaws {
  import opened Basics
  import opened Model
  import opened Semantics
  import opened MenuTree
  import opened Propagation
  import opened MenuFinalize
  import opened ChoiceLaws
  import opened RoundTrip

  // The node has received something from above.
  ghost predicate HasReceived(n: MenuNode, p0: map<MenuNode, Props>, p1: map<MenuNode, Props>) {
    n in p0 && n in p1 && exists base, visibleIf :: p1[n] == Under(p0[n], n.item, base, visibleIf)
  }

  lemma {:induction false} AllHaveReceived(ts: seq<Tree>, base: Expr, visibleIf: Expr, p0: map<MenuNode, Props>, p1: map<MenuNode, Props>, n: MenuNode)
    requires Received(ts, base, visibleIf, p0, p1) && n in Nodes(ts)
    ensures HasReceived(n, p0, p1)
  {
    var t := ts[0];
    if n == t.node {
    } else if n in Nodes(t.kids) {
      AllHaveReceived(t.kids, Passed(t.node.item, p1[t.node].dep), VisibleIf(t.node.item, visibleIf, p0[t.node].visibility), p0, p1, n);
    } else {
      AllHaveReceived(ts[1..], base, visibleIf, p0, p1, n);
    }
  }

  // The prompt conditions of symbol s, from its nodes among ns.
  ghost function PromptsOf(ns: seq<MenuNode>, s: nat, p: map<MenuNode, Props>): seq<Expr> {
    if ns == [] then []
    else
      var n := ns[|ns| - 1];
      PromptsOf(ns[..|ns| - 1], s, p) + if n.item == SymNode(s) && PropsIn(p, n).prompt.Some? then [PropsIn(p, n).prompt.value.cond] else []
  }

  lemma {:induction false} PromptHasNode(ns: seq<MenuNode>, s: nat, p: map<MenuNode, Props>, e: Expr) returns (i: nat)
    requires e in PromptsOf(ns, s, p)
    ensures i < |ns| && ns[i].item == SymNode(s) && PropsIn(p, ns[i]).prompt.Some? && e == PropsIn(p, ns[i]).prompt.value.cond
  {
    if e in PromptsOf(ns[..|ns| - 1], s, p) {
      i := PromptHasNode(ns[..|ns| - 1], s, p, e);
    } else {
      i := |ns| - 1;
    }
  }

  // A symbol of the configuration has what its nodes in the finalised tree give it.
  ghost predicate BuiltFrom(cfg: Config, s: nat, ns: seq<MenuNode>, p: map<MenuNode, Props>) {
    && cfg.S(s).prompts == PromptsOf(ns, s, p)
    && cfg.S(s).directDep == Acc(Collected(map[], ns, p), s).directDep
    && cfg.S(s).defaults == Acc(Collected(map[], ns, p), s).defaults
  }

  // In whatever state, while a prompt of a finalised symbol is visible its direct dependencies are met.
  lemma {:induction false} FinalisedPromptsNeedDeps(cfg: Config, s: nat, kids: seq<Tree>, base: Expr, visibleIf: Expr, p0: map<MenuNode, Props>, p1: map<MenuNode, Props>)
    requires Received(kids, base, visibleIf, p0, p1) && BuiltFrom(cfg, s, Nodes(kids), p1)
    ensures PromptNeedsDeps(cfg, s)
  {
    var ns := Nodes(kids);
    forall k: View, e | k.cfg == cfg && e in cfg.S(s).prompts && k.Eval(e).Some? && k.Eval(e) != Some(0)
      ensures k.Eval(cfg.S(s).directDep) != Some(0)
    {
      var i := PromptHasNode(ns, s, p1, e);
      AllHaveReceived(kids, base, visibleIf, p0, p1, ns[i]);
      var b, v :| p1[ns[i]] == Under(p0[ns[i]], ns[i].item, b, v);
      VisibleMeetsDirectDep(k, ns, s, p1, i, p0[ns[i]], b, v);
    }
  }

  lemma {:induction false} AndIsGuarded(e: Expr, dep: Expr, c: nat)
    requires Guarded(dep, c)
    ensures Guarded(MakeAnd(e, dep), c)
  {
  }

  // ---- inside a choice ----

  // The nodes of ts whose innermost choice is c, when ts itself is inside c or not.
  ghost function Enclosed(ts: seq<Tree>, inside: bool, c: nat): (r: set<MenuNode>)
    ensures r <= NodeSet(ts)
  {
    if ts == [] then {}
    else (if inside then {ts[0].node} else {}) + Enclosed(ts[0].kids, InsideOf(ts[0].node.item, inside, c), c) + Enclosed(ts[1..], inside, c)
  }

  predicate InsideOf(item: NodeItem, inside: bool, c: nat) { if item.ChoiceNode? then item.c == c else inside }

  // What receives the choice has it as a conjunct of its prompt, and hands it on.
  lemma {:induction false} UnderIsGuarded(before: Props, item: NodeItem, base: Expr, visibleIf: Expr, c: nat)
    requires Guarded(base, c)
    ensures
      var after := Under(before, item, base, visibleIf);
      Guarded(after.dep, c) && (after.prompt.Some? ==> Guarded(after.prompt.value.cond, c))
  {
    var dep := MakeAnd(before.dep, base);
    AndIsGuarded(before.dep, base, c);
    AndIsGuarded(visibleIf, dep, c);
    if before.prompt.Some? {
      AndIsGuarded(before.prompt.value.cond, MakeAnd(visibleIf, dep), c);
      AndIsGuarded(before.prompt.value.cond, dep, c);
    }
  }

  // Everything in a choice, however deep, has its prompt limited by the mode of the choice.
  lemma {:induction false} ContentsAreGuarded(ts: seq<Tree>, inside: bool, c: nat, base: Expr, visibleIf: Expr, p0: map<MenuNode, Props>, p1: map<MenuNode, Props>, n: MenuNode)
    requires Received(ts, base, visibleIf, p0, p1) && (inside ==> Guarded(base, c)) && n in Enclosed(ts, inside, c)
    ensures n in p1 && Guarded(p1[n].dep, c) && (p1[n].prompt.Some? ==> Guarded(p1[n].prompt.value.cond, c))
  {
    var x := ts[0].node;
    var inner := InsideOf(x.item, inside, c);
    if inside {
      UnderIsGuarded(p0[x], x.item, base, visibleIf, c);
    }
    if n in Enclosed(ts[0].kids, inner, c) {
      ContentsAreGuarded(ts[0].kids, inner, c, Passed(x.item, p1[x].dep), VisibleIf(x.item, visibleIf, p0[x].visibility), p0, p1, n);
    } else if n in Enclosed(ts[1..], inside, c) {
      ContentsAreGuarded(ts[1..], inside, c, base, visibleIf, p0, p1, n);
    }
  }

  // ---- finalisation moves nothing into or out of a choice ----

  lemma {:induction false} EnclosedConcat(a: seq<Tree>, b: seq<Tree>, inside: bool, c: nat)
    ensures Enclosed(a + b, inside, c) == Enclosed(a, inside, c) + Enclosed(b, inside, c)
  {
    if a == [] {
      assert a + b == b;
    } else {
      assert (a + b)[0] == a[0] && (a + b)[1..] == a[1..] + b;
      EnclosedConcat(a[1..], b, inside, c);
    }
  }

  lemma {:induction false} EnclosedFirst(t: Tree, more: seq<Tree>, inside: bool, c: nat)
    ensures Enclosed([t] + more, inside, c) ==
            (if inside then {t.node} else {}) + Enclosed(t.kids, InsideOf(t.node.item, inside, c), c) + Enclosed(more, inside, c)
  {
    assert ([t] + more)[0] == t && ([t] + more)[1..] == more;
  }

  lemma {:induction false} FlatteningKeepsEnclosed(ts: seq<Tree>, bare: set<MenuNode>, inside: bool, c: nat)
    ensures Enclosed(Flattened(ts, bare), inside, c) == Enclosed(ts, inside, c)
    decreases |Nodes(ts)|
  {
    if ts != [] {
      var t := ts[0];
      if t.kids != [] && t.node in bare && !t.node.item.ChoiceNode? {
        NodesConcat(t.kids, ts[1..]);
        FlatteningKeepsEnclosed(t.kids + ts[1..], bare, inside, c);
        EnclosedConcat(t.kids, ts[1..], inside, c);
        EnclosedFirst(Tree(t.node, []), Flattened(t.kids + ts[1..], bare), inside, c);
      } else {
        FlatteningKeepsEnclosed(ts[1..], bare, inside, c);
        EnclosedFirst(t, Flattened(ts[1..], bare), inside, c);
      }
    }
  }

  lemma {:induction false} RemovalKeepsEnclosed(ts: seq<Tree>, inside: bool, c: nat)
    ensures Enclosed(WithoutIfs(ts), inside, c) <= Enclosed(ts, inside, c)
  {
    if ts != [] {
      RemovalKeepsEnclosed(ts[1..], inside, c);
      EnclosedFirst(ts[0], WithoutIfs(ts[1..]), inside, c);
      assert [] + WithoutIfs(ts[1..]) == WithoutIfs(ts[1..]);
    }
  }

  lemma {:induction false} ShapingKeepsEnclosed(ts: seq<Tree>, p: map<MenuNode, Props>, inside: bool, c: nat)
    ensures Enclosed(Shaped(ts, p), inside, c) <= Enclosed(ts, inside, c)
  {
    FlatteningKeepsEnclosed(ts, Bare(p), inside, c);
    RemovalKeepsEnclosed(Flattened(ts, Bare(p)), inside, c);
  }

  lemma {:induction false} FinishKeepsEnclosed(ts: seq<Tree>, p: map<MenuNode, Props>, a: Accs, inside: bool, c: nat)
    requires ts != []
    ensures
      var f := Finish(ts, p, a);
      Enclosed([f.tree], inside, c) + Enclosed(f.rest, inside, c) <= Enclosed(ts, inside, c)
    decreases |Nodes(ts)|, 0
  {
    var t := ts[0];
    var inner := InsideOf(t.node.item, inside, c);
    var f := Finish(ts, p, a);
    assert [f.tree] + [] == [f.tree];
    EnclosedFirst(f.tree, [], inside, c);
    if t.kids != [] {
      var l := FinishLevel(t.kids, p, a);
      LevelKeepsEnclosed(t.kids, p, a, inner, c);
      ShapingKeepsEnclosed(l.trees, p, inner, c);
    } else if t.node.item.SymNode? {
      var a' := WithProps(a, t.node.item.s, PropsIn(p, t.node));
      var l := Absorbed(t.node.item.s, ts[1..], p, a');
      AbsorbingKeepsEnclosed(t.node.item.s, ts[1..], p, a', inside, c);
      ShapingKeepsEnclosed(l.trees, p, inside, c);
    }
  }

  lemma {:induction false} AbsorbingKeepsEnclosed(s: nat, ts: seq<Tree>, p: map<MenuNode, Props>, a: Accs, inside: bool, c: nat)
    ensures
      var l := Absorbed(s, ts, p, a);
      Enclosed(l.trees, inside, c) + Enclosed(l.rest, inside, c) <= Enclosed(ts, inside, c)
    decreases |Nodes(ts)|, 1
  {
    if ts != [] && AutoMenuDep(s, PropsIn(p, ts[0].node)) {
      var f := Finish(ts, p, a);
      FinishKeepsEnclosed(ts, p, a, inside, c);
      AbsorbingKeepsEnclosed(s, f.rest, p, f.accs, inside, c);
      EnclosedConcat([f.tree], Absorbed(s, f.rest, p, f.accs).trees, inside, c);
    }
  }

  lemma {:induction false} LevelKeepsEnclosed(ts: seq<Tree>, p: map<MenuNode, Props>, a: Accs, inside: bool, c: nat)
    ensures Enclosed(FinishLevel(ts, p, a).trees, inside, c) <= Enclosed(ts, inside, c)
    decreases |Nodes(ts)|, 1
  {
    if ts != [] {
      var f := Finish(ts, p, a);
      FinishKeepsEnclosed(ts, p, a, inside, c);
      LevelKeepsEnclosed(f.rest, p, f.accs, inside, c);
      EnclosedConcat([f.tree], FinishLevel(f.rest, p, f.accs).trees, inside, c);
    }
  }

  // ---- choice symbols ----

  // The nodes directly in choice c: in the finalised tree, those of its symbols.
  ghost function ChoiceKids(ts: seq<Tree>, c: nat): set<MenuNode> {
    if ts == [] then {}
    else (if ts[0].node.item == ChoiceNode(c) then set t | t in ts[0].kids :: t.node else {}) + ChoiceKids(ts[0].kids, c) + ChoiceKids(ts[1..], c)
  }

  lemma {:induction false} LevelIsEnclosed(ts: seq<Tree>, c: nat, t: Tree)
    requires t in ts
    ensures t.node in Enclosed(ts, true, c)
  {
    if t != ts[0] {
      LevelIsEnclosed(ts[1..], c, t);
    }
  }

  lemma {:induction false} KidsAreEnclosed(ts: seq<Tree>, inside: bool, c: nat)
    ensures ChoiceKids(ts, c) <= Enclosed(ts, inside, c)
  {
    if ts != [] {
      KidsAreEnclosed(ts[0].kids, InsideOf(ts[0].node.item, inside, c), c);
      KidsAreEnclosed(ts[1..], inside, c);
      if ts[0].node.item == ChoiceNode(c) {
        forall t | t in ts[0].kids ensures t.node in Enclosed(ts[0].kids, true, c) {
          LevelIsEnclosed(ts[0].kids, c, t);
        }
      }
    }
  }

  // The finalised tree below the top.
  ghost function Final(kids: seq<Tree>, p: map<MenuNode, Props>): seq<Tree> { Shaped(FinishLevel(kids, p, map[]).trees, p) }

  // Every prompt of a choice symbol is at a node directly in its choice: the source warns about any other.
  ghost predicate PromptsInChoice(cfg: Config, s: nat, kids: seq<Tree>, p: map<MenuNode, Props>) {
    cfg.S(s).choice.Some? ==>
      forall n :: n in Nodes(kids) && n.item == SymNode(s) && PropsIn(p, n).prompt.Some? ==> n in ChoiceKids(Final(kids, p), cfg.S(s).choice.value)
  }

  lemma {:induction false} SymbolIsGuarded(cfg: Config, s: nat, kids: seq<Tree>, base: Expr, visibleIf: Expr, p0: map<MenuNode, Props>, p1: map<MenuNode, Props>)
    requires Received(kids, base, visibleIf, p0, p1) && cfg.S(s).prompts == PromptsOf(Nodes(kids), s, p1) && PromptsInChoice(cfg, s, kids, p1)
    ensures PromptsGuarded(cfg, s)
  {
    var ns := Nodes(kids);
    if cfg.S(s).choice.Some? {
      var c := cfg.S(s).choice.value;
      KidsAreEnclosed(Final(kids, p1), false, c);
      ShapingKeepsEnclosed(FinishLevel(kids, p1, map[]).trees, p1, false, c);
      LevelKeepsEnclosed(kids, p1, map[], false, c);
      forall e | e in cfg.S(s).prompts ensures Guarded(e, c) {
        var i := PromptHasNode(ns, s, p1, e);
        ContentsAreGuarded(kids, false, c, base, visibleIf, p0, p1, ns[i]);
      }
    }
  }

  // So finalisation gives the laws of choices what they need.
  lemma {:induction false} FinalisedChoicesAreGuarded(cfg: Config, kids: seq<Tree>, base: Expr, visibleIf: Expr, p0: map<MenuNode, Props>, p1: map<MenuNode, Props>)
    requires Received(kids, base, visibleIf, p0, p1)
    requires forall s: nat :: cfg.S(s).prompts == PromptsOf(Nodes(kids), s, p1) && PromptsInChoice(cfg, s, kids, p1)
    ensures ChoicesGuarded(cfg)
  {
    forall s: nat ensures PromptsGuarded(cfg, s) {
      SymbolIsGuarded(cfg, s, kids, base, visibleIf, p0, p1);
    }
  }
}
