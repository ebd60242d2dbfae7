// _config_contents(): the full configuration, written during one walk over the menu tree.
module ConfigWriter {
  import opened Basics
  import opened Model
  import opened Semantics
  import opened Dependencies
  import opened Evaluation
  import opened ConfigFile
  import opened Engine
  import opened ConfigIO
  import opened MenuTree
  import opened Propagation
  import opened MenuFinalize
  import opened MenuWalk

  // ---- what the walk writes ----

  // The parts of the file: the header text, a blank line, the comment above a menu or comment node, the
  // comment at the end of a menu, and the entry of a symbol.
  datatype Mark = Start | Blank | Head(node: MenuNode) | End(node: MenuNode) | Symbol(s: nat)

  // The parts written so far, the symbols seen, and whether an end comment came last.
  datatype Progress = Progress(marks: seq<Mark>, seen: set<nat>, afterEnd: bool)

  const AT_START: Progress := Progress([Start], {}, false)

  predicate Holding(k: View, e: Expr) { k.Eval(e).Some? && k.Eval(e) != Some(0) }

  // The menu is visible.
  ghost predicate ShownMenu(k: View, p: map<MenuNode, Props>, n: MenuNode) {
    n.item.MenuItem? && Holding(k, PropsIn(p, n).dep) && Holding(k, PropsIn(p, n).visibility)
  }

  ghost predicate ShownComment(k: View, p: map<MenuNode, Props>, n: MenuNode) { n.item.CommentItem? && Holding(k, PropsIn(p, n).dep) }

  function Title(p: Props): string { if p.prompt.Some? then p.prompt.value.text else "" }

  function Header(title: string): string { "\n#\n# " + title + "\n#\n" }

  function EndComment(title: string): string { "# end of " + title + "\n" }

  // What a part stands for in the file.
  ghost function PieceOf(p: map<MenuNode, Props>, header: string, m: Mark): Piece {
    match m
    case Start => Note(header)
    case Blank => Note("\n")
    case Head(n) => Note(Header(Title(PropsIn(p, n))))
    case End(n) => Note(EndComment(Title(PropsIn(p, n))))
    case Symbol(s) => Entry(s)
  }

  ghost function Pieces(p: map<MenuNode, Props>, header: string, ms: seq<Mark>): seq<Piece> {
    seq(|ms|, i requires 0 <= i < |ms| => PieceOf(p, header, ms[i]))
  }

  function SymbolSeen(k: View, prefix: string, st: Progress, s: nat): Progress {
    if s in st.seen then st
    else if ConfigString(k, prefix, s) == "" then Progress(st.marks + [Symbol(s)], st.seen + {s}, st.afterEnd)
    else if st.afterEnd then Progress(st.marks + [Blank] + [Symbol(s)], st.seen + {s}, false)
    else Progress(st.marks + [Symbol(s)], st.seen + {s}, false)
  }

  // What visiting or leaving a node adds. The top node is never visited, and leaving it adds nothing.
  ghost function Step(k: View, prefix: string, p: map<MenuNode, Props>, top: MenuNode, st: Progress, e: Event): Progress {
    var n := e.node;
    match e
    case Visit(_) =>
      if n.item.SymNode? then SymbolSeen(k, prefix, st, n.item.s)
      else if ShownMenu(k, p, n) || ShownComment(k, p, n) then Progress(st.marks + [Head(n)], st.seen, false)
      else st
    case Leave(_) =>
      if ShownMenu(k, p, n) && n != top then Progress(st.marks + [End(n)], st.seen, true) else st
  }

  ghost function Steps(k: View, prefix: string, p: map<MenuNode, Props>, top: MenuNode, st: Progress, es: seq<Event>): Progress
    decreases |es|
  {
    if es == [] then st else Steps(k, prefix, p, top, Step(k, prefix, p, top, st, es[0]), es[1..])
  }

  lemma {:induction false} StepsConcat(k: View, prefix: string, p: map<MenuNode, Props>, top: MenuNode, st: Progress, a: seq<Event>, b: seq<Event>)
    ensures Steps(k, prefix, p, top, st, a + b) == Steps(k, prefix, p, top, Steps(k, prefix, p, top, st, a), b)
    decreases |a|
  {
    if a == [] {
      assert a + b == b;
    } else {
      assert (a + b)[1..] == a[1..] + b;
      StepsConcat(k, prefix, p, top, Step(k, prefix, p, top, st, a[0]), a[1..], b);
    }
  }

  // All there is to write for the menu below top.
  ghost function FullProgress(k: View, prefix: string, p: map<MenuNode, Props>, top: MenuNode, kids: seq<Tree>): Progress {
    Steps(k, prefix, p, top, AT_START, Inside(top, kids))
  }

  // The pieces of the configuration file.
  ghost function FullPieces(k: View, prefix: string, p: map<MenuNode, Props>, top: MenuNode, kids: seq<Tree>, header: string): seq<Piece> {
    Pieces(p, header, FullProgress(k, prefix, p, top, kids).marks)
  }

  // ---- writing it ----

  // The properties in p are those of the nodes, and their conditions refer to existing symbols.
  ghost predicate NodesAre(cfg: Config, p: map<MenuNode, Props>)
    reads p.Keys
  {
    forall n :: n in p ==> PropsOf(n) == p[n] && RefsInRange(cfg, p[n].dep) && RefsInRange(cfg, p[n].visibility)
  }

  ghost predicate RefsInRange(cfg: Config, e: Expr) { forall q :: q in ExprRefs(cfg, e) ==> InRange(cfg, q) }

  // expr_value(), for a condition of a menu node
  method ConditionHolds(kc: Kconfig, e: Expr) returns (holds: bool)
    requires kc.Valid() && RefsInRange(kc.cfg, e)
    modifies kc`st, kc.syms, kc.choices
    ensures kc.Valid() && kc.st.u == old(kc.st.u)
    ensures holds == Holding(Now(kc), e)
  {
    forall q | q in ExprRefs(kc.cfg, e) ensures kc.rank.of(q) < kc.rank.top {
      assert ReadsLower(kc.cfg, kc.rank, q);
    }
    var v := kc.ExprValue(e, kc.rank.top);
    CachesAgree(kc);
    EvalLeq(kc.V(), Now(kc), e);
    holds := v != 0;
  }

  // The text written so far and the other local variables.
  datatype Output = Output(text: string, seen: set<nat>, afterEnd: bool)

  ghost predicate Shows(out: Output, k: View, prefix: string, p: map<MenuNode, Props>, header: string, st: Progress) {
    out.text == Contents(k, prefix, Pieces(p, header, st.marks)) && out.seen == st.seen && out.afterEnd == st.afterEnd
  }

  lemma {:induction false} OneMore(k: View, prefix: string, p: map<MenuNode, Props>, header: string, ms: seq<Mark>, m: Mark)
    ensures Contents(k, prefix, Pieces(p, header, ms + [m])) == Contents(k, prefix, Pieces(p, header, ms)) + PieceText(k, prefix, PieceOf(p, header, m))
  {
    var ps := Pieces(p, header, ms + [m]);
    assert ps[..|ms|] == Pieces(p, header, ms) && ps[|ms|] == PieceOf(p, header, m);
  }

  method VisitSymbol(kc: Kconfig, prefix: string, s: nat, out0: Output, ghost st: Progress, ghost p: map<MenuNode, Props>, ghost header: string) returns (out: Output)
    requires kc.Valid() && s < |kc.cfg.syms| && Shows(out0, Now(kc), prefix, p, header, st)
    modifies kc`st, kc.syms, kc.choices
    ensures kc.Valid() && kc.st.u == old(kc.st.u)
    ensures Shows(out, Now(kc), prefix, p, header, SymbolSeen(Now(kc), prefix, st, s))
  {
    if s in out0.seen {
      return out0;
    }
    out := out0.(seen := out0.seen + {s});
    var line := ConfigLine(kc, prefix, s);
    OneMore(Now(kc), prefix, p, header, st.marks, Symbol(s));
    if line == "" {
      return;
    }
    if out.afterEnd {
      OneMore(Now(kc), prefix, p, header, st.marks, Blank);
      OneMore(Now(kc), prefix, p, header, st.marks + [Blank], Symbol(s));
      out := out.(afterEnd := false, text := out.text + "\n");
    }
    out := out.(text := out.text + line);
  }

  method VisitOther(kc: Kconfig, prefix: string, node: MenuNode, out0: Output, ghost st: Progress, ghost p: map<MenuNode, Props>, ghost header: string, ghost top: MenuNode) returns (out: Output)
    requires kc.Valid() && Shows(out0, Now(kc), prefix, p, header, st) && NodesAre(kc.cfg, p) && node in p && !node.item.SymNode?
    modifies kc`st, kc.syms, kc.choices
    ensures kc.Valid() && kc.st.u == old(kc.st.u)
    ensures Shows(out, Now(kc), prefix, p, header, Step(Now(kc), prefix, p, top, st, Visit(node)))
  {
    out := out0;
    var dep, visibility := node.dep, node.visibility;
    var title := if node.prompt.Some? then node.prompt.value.text else "";
    var holds := ConditionHolds(kc, dep);
    if !holds {
      return;
    }
    var shown := node.item.CommentItem?;
    if node.item.MenuItem? {
      shown := ConditionHolds(kc, visibility);
    }
    if shown {
      OneMore(Now(kc), prefix, p, header, st.marks, Head(node));
      out := out.(text := out.text + Header(title), afterEnd := false);
    }
  }

  method LeaveNode(kc: Kconfig, prefix: string, node: MenuNode, top: MenuNode, out0: Output, ghost st: Progress, ghost p: map<MenuNode, Props>, ghost header: string) returns (out: Output)
    requires kc.Valid() && Shows(out0, Now(kc), prefix, p, header, st) && NodesAre(kc.cfg, p) && node in p
    modifies kc`st, kc.syms, kc.choices
    ensures kc.Valid() && kc.st.u == old(kc.st.u)
    ensures Shows(out, Now(kc), prefix, p, header, Step(Now(kc), prefix, p, top, st, Leave(node)))
  {
    out := out0;
    if !node.item.MenuItem? {
      return;
    }
    var dep, visibility := node.dep, node.visibility;
    var title := if node.prompt.Some? then node.prompt.value.text else "";
    var holds := ConditionHolds(kc, dep);
    if !holds {
      return;
    }
    var shown := ConditionHolds(kc, visibility);
    if shown && node != top {
      OneMore(Now(kc), prefix, p, header, st.marks, End(node));
      out := out.(text := out.text + EndComment(title), afterEnd := true);
    }
  }

  method VisitNode(kc: Kconfig, prefix: string, node: MenuNode, out0: Output, ghost st: Progress, ghost p: map<MenuNode, Props>, ghost header: string, ghost top: MenuNode) returns (out: Output)
    requires kc.Valid() && Shows(out0, Now(kc), prefix, p, header, st) && NodesAre(kc.cfg, p) && node in p
    requires node.item.SymNode? ==> node.item.s < |kc.cfg.syms|
    modifies kc`st, kc.syms, kc.choices
    ensures kc.Valid() && kc.st.u == old(kc.st.u)
    ensures Shows(out, Now(kc), prefix, p, header, Step(Now(kc), prefix, p, top, st, Visit(node)))
  {
    if node.item.SymNode? {
      out := VisitSymbol(kc, prefix, node.item.s, out0, st, p, header);
    } else {
      out := VisitOther(kc, prefix, node, out0, st, p, header, top);
    }
  }

  method OneEvent(kc: Kconfig, prefix: string, e: Event, top: MenuNode, out0: Output, ghost st: Progress, ghost p: map<MenuNode, Props>, ghost header: string) returns (out: Output)
    requires kc.Valid() && Shows(out0, Now(kc), prefix, p, header, st) && NodesAre(kc.cfg, p) && e.node in p
    requires e.node.item.SymNode? ==> e.node.item.s < |kc.cfg.syms|
    modifies kc`st, kc.syms, kc.choices
    ensures kc.Valid() && kc.st.u == old(kc.st.u)
    ensures Shows(out, Now(kc), prefix, p, header, Step(Now(kc), prefix, p, top, st, e))
  {
    match e
    case Visit(node) => out := VisitNode(kc, prefix, node, out0, st, p, header, top);
    case Leave(node) => out := LeaveNode(kc, prefix, node, top, out0, st, p, header);
  }

  // What the i-th event adds; the nodes are left alone.
  method NextEvent(kc: Kconfig, prefix: string, events: seq<Event>, i: nat, top: MenuNode, out0: Output, ghost st0: Progress, ghost p: map<MenuNode, Props>, ghost header: string) returns (out: Output)
    requires kc.Valid() && NodesAre(kc.cfg, p) && i < |events| && EventsIn(kc.cfg, events, p)
    requires Shows(out0, Now(kc), prefix, p, header, Steps(Now(kc), prefix, p, top, st0, events[..i]))
    modifies kc`st, kc.syms, kc.choices
    ensures kc.Valid() && kc.st.u == old(kc.st.u) && NodesAre(kc.cfg, p)
    ensures Shows(out, Now(kc), prefix, p, header, Steps(Now(kc), prefix, p, top, st0, events[..i + 1]))
  {
    OneMoreStep(Now(kc), prefix, p, top, st0, events, i);
    out := OneEvent(kc, prefix, events[i], top, out0, Steps(Now(kc), prefix, p, top, st0, events[..i]), p, header);
  }

  // The nodes and symbols that the events are about exist.
  ghost predicate EventsIn(cfg: Config, es: seq<Event>, p: map<MenuNode, Props>) {
    forall i :: 0 <= i < |es| ==> es[i].node in p && (es[i].node.item.SymNode? ==> es[i].node.item.s < |cfg.syms|)
  }

  lemma {:induction false} TreeEventsIn(cfg: Config, ts: seq<Tree>, p: map<MenuNode, Props>)
    requires NodeSet(ts) <= p.Keys && forall n: MenuNode :: n in p && n.item.SymNode? ==> n.item.s < |cfg.syms|
    ensures EventsIn(cfg, Events(ts), p)
  {
    if ts != [] {
      TreeEventsIn(cfg, ts[0].kids, p);
      TreeEventsIn(cfg, ts[1..], p);
    }
  }

  // The finalised tree that is written: linked nodes below top, with the properties in p.
  ghost predicate Linked(cfg: Config, top: MenuNode, kids: seq<Tree>, p: map<MenuNode, Props>)
    reads {top} + NodeSet(kids) + p.Keys
  {
    && top.parent == null && top.next == null && Segment(top.list, kids, top, null)
    && NodesAre(cfg, p) && p.Keys == {top} + NodeSet(kids)
    && (forall n :: n in p && n.item.SymNode? ==> n.item.s < |cfg.syms|)
  }

  // The output for the events of the walk, one after the other.
  method WriteEvents(kc: Kconfig, prefix: string, header: string, top: MenuNode, events: seq<Event>, ghost p: map<MenuNode, Props>) returns (text: string)
    requires kc.Valid() && NodesAre(kc.cfg, p) && EventsIn(kc.cfg, events, p)
    modifies kc`st, kc.syms, kc.choices
    ensures kc.Valid() && kc.st.u == old(kc.st.u)
    ensures text == Contents(Now(kc), prefix, Pieces(p, header, Steps(Now(kc), prefix, p, top, AT_START, events).marks))
  {
    ghost var k := Now(kc);
    var out := Output(header, {}, false);
    HeaderFirst(k, prefix, p, header);
    for i := 0 to |events|
      invariant kc.Valid() && kc.st.u == k.u && NodesAre(kc.cfg, p)
      invariant Shows(out, k, prefix, p, header, Steps(k, prefix, p, top, AT_START, events[..i]))
    {
      out := NextEvent(kc, prefix, events, i, top, out, AT_START, p, header);
    }
    assert events[..|events|] == events;
    text := out.text;
  }

  lemma {:induction false} HeaderFirst(k: View, prefix: string, p: map<MenuNode, Props>, header: string)
    ensures Contents(k, prefix, Pieces(p, header, [Start])) == header
  {
    assert Pieces(p, header, [Start]) == [Note(header)] && [Note(header)][..0] == [];
  }

  lemma {:induction false} OneMoreStep(k: View, prefix: string, p: map<MenuNode, Props>, top: MenuNode, st: Progress, es: seq<Event>, i: nat)
    requires i < |es|
    ensures Steps(k, prefix, p, top, st, es[..i + 1]) == Step(k, prefix, p, top, Steps(k, prefix, p, top, st, es[..i]), es[i])
  {
    assert es[..i + 1] == es[..i] + [es[i]];
    StepsConcat(k, prefix, p, top, st, es[..i], [es[i]]);
    assert [es[i]][1..] == [];
  }

  // _config_contents(): the walk first, then what it writes.
  method ConfigContents(kc: Kconfig, prefix: string, header: string, top: MenuNode, ghost kids: seq<Tree>, ghost p: map<MenuNode, Props>) returns (text: string)
    requires kc.Valid() && Linked(kc.cfg, top, kids, p)
    modifies kc`st, kc.syms, kc.choices
    ensures kc.Valid() && kc.st.u == old(kc.st.u)
    ensures text == Contents(Now(kc), prefix, FullPieces(Now(kc), prefix, p, top, kids, header))
  {
    var events := Walk(top, kids);
    TreeEventsIn(kc.cfg, kids, p);
    text := WriteEvents(kc, prefix, header, top, events, p);
  }
}
