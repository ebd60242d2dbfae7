// The layout of a full configuration: which parts there are, in which order, and how they nest.
module ConfigLayout {
  import opened Basics
  import opened Semantics
  import opened ConfigFile
  import opened MenuTree
  import opened Propagation
  import opened MenuWalk
  import opened ConfigWriter

  // ---- which parts there are ----

  // A symbol part is that of a symbol that has been seen; comments are those of visible menus and
  // comment nodes.
  ghost predicate MarkFrom(k: View, p: map<MenuNode, Props>, top: MenuNode, st: Progress, m: Mark) {
    match m
    case Symbol(s) => s in st.seen
    case Head(n) => n in p && (ShownMenu(k, p, n) || ShownComment(k, p, n))
    case End(n) => n in p && ShownMenu(k, p, n) && n != top
    case _ => true
  }

  // No symbol has two entries, and every symbol seen has one.
  ghost predicate Orderly(k: View, p: map<MenuNode, Props>, top: MenuNode, st: Progress) {
    && (forall i :: 0 <= i < |st.marks| ==> MarkFrom(k, p, top, st, st.marks[i]))
    && (forall i, j :: 0 <= i < j < |st.marks| && st.marks[i].Symbol? ==> st.marks[i] != st.marks[j])
    && (forall s :: s in st.seen ==> Symbol(s) in st.marks)
  }

  lemma {:induction false} SymbolSeenAdds(k: View, prefix: string, st: Progress, s: nat)
    ensures
      var st' := SymbolSeen(k, prefix, st, s);
      && st'.seen == st.seen + {s}
      && (s in st.seen ==> st' == st)
      && (s !in st.seen ==> st'.marks == st.marks + [Symbol(s)] || st'.marks == st.marks + [Blank] + [Symbol(s)])
  {
  }

  lemma {:induction false} StepIsOrderly(k: View, prefix: string, p: map<MenuNode, Props>, top: MenuNode, st: Progress, e: Event)
    requires Orderly(k, p, top, st) && e.node in p
    ensures Orderly(k, p, top, Step(k, prefix, p, top, st, e))
    ensures Step(k, prefix, p, top, st, e).seen == st.seen + if e.Visit? && e.node.item.SymNode? then {e.node.item.s} else {}
  {
    var st' := Step(k, prefix, p, top, st, e);
    if e.Visit? && e.node.item.SymNode? {
      SymbolSeenAdds(k, prefix, st, e.node.item.s);
    }
    forall i | 0 <= i < |st'.marks| ensures MarkFrom(k, p, top, st', st'.marks[i]) {
      if i < |st.marks| {
        assert st'.marks[i] == st.marks[i] && MarkFrom(k, p, top, st, st.marks[i]);
      }
    }
  }

  // The symbols visited by some events.
  ghost function SymsVisited(es: seq<Event>): set<nat> {
    set e | e in es && e.Visit? && e.node.item.SymNode? :: e.node.item.s
  }

  lemma {:induction false} StepsAreOrderly(k: View, prefix: string, p: map<MenuNode, Props>, top: MenuNode, st: Progress, es: seq<Event>)
    requires Orderly(k, p, top, st) && forall e :: e in es ==> e.node in p
    ensures Orderly(k, p, top, Steps(k, prefix, p, top, st, es)) && Steps(k, prefix, p, top, st, es).seen == st.seen + SymsVisited(es)
    decreases |es|
  {
    if es != [] {
      StepIsOrderly(k, prefix, p, top, st, es[0]);
      StepsAreOrderly(k, prefix, p, top, Step(k, prefix, p, top, st, es[0]), es[1..]);
      assert SymsVisited(es) == SymsVisited(es[1..]) + if es[0].Visit? && es[0].node.item.SymNode? then {es[0].node.item.s} else {} by {
        assert es == [es[0]] + es[1..];
      }
    }
  }

  lemma {:induction false} EventNodes(ts: seq<Tree>)
    ensures forall e :: e in Events(ts) ==> e.node in NodeSet(ts)
    ensures forall e :: e in Events(ts) && e.Leave? ==> e.node in ParentNodes(ts)
  {
    if ts != [] {
      EventNodes(ts[0].kids);
      EventNodes(ts[1..]);
    }
  }

  lemma {:induction false} FullIsOrderly(k: View, prefix: string, top: MenuNode, kids: seq<Tree>, p: map<MenuNode, Props>)
    requires p.Keys == {top} + NodeSet(kids)
    ensures
      var st := FullProgress(k, prefix, p, top, kids);
      Orderly(k, p, top, st) && st.seen == SymsVisited(Inside(top, kids))
  {
    EventNodes(kids);
    StepsAreOrderly(k, prefix, p, top, AT_START, Inside(top, kids));
    assert AT_START.seen + SymsVisited(Inside(top, kids)) == SymsVisited(Inside(top, kids));
  }

  // ---- the order of the entries ----

  // The symbols that have an entry, in the order of their entries.
  function Entries(ms: seq<Mark>): seq<nat> {
    if ms == [] then [] else Entries(ms[..|ms| - 1]) + if ms[|ms| - 1].Symbol? then [ms[|ms| - 1].s] else []
  }

  // The symbols of some nodes, each where it occurs for the first time, apart from those seen before.
  ghost function FirstTimes(ns: seq<MenuNode>, seen: set<nat>): seq<nat> {
    if ns == [] then []
    else if ns[0].item.SymNode? && ns[0].item.s !in seen then [ns[0].item.s] + FirstTimes(ns[1..], seen + {ns[0].item.s})
    else FirstTimes(ns[1..], seen)
  }

  lemma {:induction false} EntriesMore(ms: seq<Mark>, m: Mark)
    ensures Entries(ms + [m]) == if m.Symbol? then Entries(ms) + [m.s] else Entries(ms)
  {
    assert (ms + [m])[..|ms|] == ms;
  }

  // The event is the first visit to a symbol.
  predicate IsFirst(e: Event, seen: set<nat>) { e.Visit? && e.node.item.SymNode? && e.node.item.s !in seen }

  lemma {:induction false} SymbolEntries(k: View, prefix: string, st: Progress, s: nat)
    ensures Entries(SymbolSeen(k, prefix, st, s).marks) == if s in st.seen then Entries(st.marks) else Entries(st.marks) + [s]
  {
    EntriesMore(st.marks, Symbol(s));
    EntriesMore(st.marks, Blank);
    EntriesMore(st.marks + [Blank], Symbol(s));
  }

  lemma {:induction false} StepEntries(k: View, prefix: string, p: map<MenuNode, Props>, top: MenuNode, st: Progress, e: Event)
    ensures Entries(Step(k, prefix, p, top, st, e).marks) == if IsFirst(e, st.seen) then Entries(st.marks) + [e.node.item.s] else Entries(st.marks)
  {
    var n := e.node;
    if n.item.SymNode? {
      SymbolEntries(k, prefix, st, n.item.s);
    } else {
      EntriesMore(st.marks, Head(n));
      EntriesMore(st.marks, End(n));
    }
  }

  lemma {:induction false} StepsEntries(k: View, prefix: string, p: map<MenuNode, Props>, top: MenuNode, st: Progress, es: seq<Event>)
    ensures Entries(Steps(k, prefix, p, top, st, es).marks) == Entries(st.marks) + FirstTimes(Visited(es), st.seen)
    decreases |es|
  {
    if es != [] {
      var e := es[0];
      var st' := Step(k, prefix, p, top, st, e);
      StepEntries(k, prefix, p, top, st, e);
      StepsEntries(k, prefix, p, top, st', es[1..]);
      if e.Visit? {
        assert Visited(es)[0] == e.node && Visited(es)[1..] == Visited(es[1..]);
        if e.node.item.SymNode? {
          SymbolSeenAdds(k, prefix, st, e.node.item.s);
        }
        if IsFirst(e, st.seen) {
          Regroup(Entries(st.marks), [e.node.item.s], FirstTimes(Visited(es[1..]), st'.seen));
        }
      } else {
        assert Visited(es) == Visited(es[1..]);
      }
    }
  }

  lemma {:induction false} WalkVisits(top: MenuNode, kids: seq<Tree>)
    ensures Visited(Inside(top, kids)) == Nodes(kids)
  {
    VisitsArePreorder(kids);
    if kids != [] {
      VisitedConcat(Events(kids), [Leave(top)]);
      assert [Leave(top)][1..] == [] && Visited([Leave(top)]) == [];
      assert Nodes(kids) + [] == Nodes(kids);
    }
  }

  // The entries come in the order in which the symbols are first defined in the menu tree.
  lemma {:induction false} EntriesInDefinitionOrder(k: View, prefix: string, top: MenuNode, kids: seq<Tree>, p: map<MenuNode, Props>)
    ensures Entries(FullProgress(k, prefix, p, top, kids).marks) == FirstTimes(Nodes(kids), {})
  {
    StepsEntries(k, prefix, p, top, AT_START, Inside(top, kids));
    assert Entries([Start]) == [] by {
      EntriesMore([], Start);
      assert [] + [Start] == [Start];
    }
    WalkVisits(top, kids);
    assert [] + FirstTimes(Nodes(kids), {}) == FirstTimes(Nodes(kids), {});
  }

  // ---- the order of the comments ----

  // The nodes that have a comment above what they hold, in order.
  function Heads(ms: seq<Mark>): seq<MenuNode> {
    if ms == [] then [] else Heads(ms[..|ms| - 1]) + if ms[|ms| - 1].Head? then [ms[|ms| - 1].node] else []
  }

  // The visible menus and comments among some nodes.
  ghost function ShownNodes(k: View, p: map<MenuNode, Props>, ns: seq<MenuNode>): seq<MenuNode> {
    if ns == [] then [] else (if ShownMenu(k, p, ns[0]) || ShownComment(k, p, ns[0]) then [ns[0]] else []) + ShownNodes(k, p, ns[1..])
  }

  lemma {:induction false} HeadsMore(ms: seq<Mark>, m: Mark)
    ensures Heads(ms + [m]) == if m.Head? then Heads(ms) + [m.node] else Heads(ms)
  {
    assert (ms + [m])[..|ms|] == ms;
  }

  lemma {:induction false} SymbolHeads(k: View, prefix: string, st: Progress, s: nat)
    ensures Heads(SymbolSeen(k, prefix, st, s).marks) == Heads(st.marks)
  {
    HeadsMore(st.marks, Symbol(s));
    HeadsMore(st.marks, Blank);
    HeadsMore(st.marks + [Blank], Symbol(s));
  }

  lemma {:induction false} StepHeads(k: View, prefix: string, p: map<MenuNode, Props>, top: MenuNode, st: Progress, e: Event)
    ensures Heads(Step(k, prefix, p, top, st, e).marks) ==
            if e.Visit? && (ShownMenu(k, p, e.node) || ShownComment(k, p, e.node)) then Heads(st.marks) + [e.node] else Heads(st.marks)
  {
    var n := e.node;
    if n.item.SymNode? {
      SymbolHeads(k, prefix, st, n.item.s);
    } else {
      HeadsMore(st.marks, Head(n));
      HeadsMore(st.marks, End(n));
    }
  }

  lemma {:induction false} StepsHeads(k: View, prefix: string, p: map<MenuNode, Props>, top: MenuNode, st: Progress, es: seq<Event>)
    ensures Heads(Steps(k, prefix, p, top, st, es).marks) == Heads(st.marks) + ShownNodes(k, p, Visited(es))
    decreases |es|
  {
    if es != [] {
      var e := es[0];
      StepHeads(k, prefix, p, top, st, e);
      StepsHeads(k, prefix, p, top, Step(k, prefix, p, top, st, e), es[1..]);
      if e.Visit? {
        assert Visited(es)[0] == e.node && Visited(es)[1..] == Visited(es[1..]);
        Regroup(Heads(st.marks), [e.node], ShownNodes(k, p, Visited(es[1..])));
      } else {
        assert Visited(es) == Visited(es[1..]);
      }
    }
  }

  // Every visible menu and comment has one, and no other node, in the order of the tree.
  lemma {:induction false} HeadsInDefinitionOrder(k: View, prefix: string, top: MenuNode, kids: seq<Tree>, p: map<MenuNode, Props>)
    ensures Heads(FullProgress(k, prefix, p, top, kids).marks) == ShownNodes(k, p, Nodes(kids))
  {
    StepsHeads(k, prefix, p, top, AT_START, Inside(top, kids));
    assert Heads([Start]) == [] by {
      HeadsMore([], Start);
      assert [] + [Start] == [Start];
    }
    WalkVisits(top, kids);
    assert [] + ShownNodes(k, p, Nodes(kids)) == ShownNodes(k, p, Nodes(kids));
  }

  // ---- menus ----

  // The comments of the menus in which, as brackets: the menus that are open after the parts. Every end
  // comment must be that of the last one opened.
  function OpenMenus(ms: seq<Mark>, which: set<MenuNode>): Option<seq<MenuNode>> {
    if ms == [] then Some([])
    else
      var open :- OpenMenus(ms[..|ms| - 1], which);
      match ms[|ms| - 1]
      case Head(n) => Some(if n in which then open + [n] else open)
      case End(n) => if open != [] && open[|open| - 1] == n then Some(open[..|open| - 1]) else None
      case _ => Some(open)
  }

  lemma {:induction false} OpenMenusMore(ms: seq<Mark>, m: Mark, which: set<MenuNode>)
    requires OpenMenus(ms, which).Some?
    ensures
      var open := OpenMenus(ms, which).value;
      OpenMenus(ms + [m], which) ==
        match m
        case Head(n) => Some(if n in which then open + [n] else open)
        case End(n) => if open != [] && open[|open| - 1] == n then Some(open[..|open| - 1]) else None
        case _ => Some(open)
  {
    assert (ms + [m])[..|ms|] == ms;
  }

  // The event concerns a node in which exactly if it writes a comment of a menu in which.
  ghost predicate Fits(k: View, p: map<MenuNode, Props>, top: MenuNode, which: set<MenuNode>, e: Event) {
    && (e.node in which ==> ShownMenu(k, p, e.node) && e.node != top)
    && (e.Leave? && ShownMenu(k, p, e.node) && e.node != top ==> e.node in which)
  }

  lemma {:induction false} StepFollows(k: View, prefix: string, p: map<MenuNode, Props>, top: MenuNode, st: Progress, e: Event, which: set<MenuNode>)
    requires OpenMenus(st.marks, which).Some? && Fits(k, p, top, which, e)
    requires Open([e], OpenMenus(st.marks, which).value, which).Some?
    ensures OpenMenus(Step(k, prefix, p, top, st, e).marks, which) == Open([e], OpenMenus(st.marks, which).value, which)
  {
    var n := e.node;
    OpenOne(e, OpenMenus(st.marks, which).value, which);
    if n.item.SymNode? {
      OpenMenusMore(st.marks, Symbol(n.item.s), which);
      OpenMenusMore(st.marks, Blank, which);
      OpenMenusMore(st.marks + [Blank], Symbol(n.item.s), which);
    } else if e.Visit? {
      OpenMenusMore(st.marks, Head(n), which);
    } else {
      OpenMenusMore(st.marks, End(n), which);
    }
  }

  // At any point the menus open in the output are those open in the walk.
  lemma {:induction false} StepsFollow(k: View, prefix: string, p: map<MenuNode, Props>, top: MenuNode, st: Progress, es: seq<Event>, which: set<MenuNode>)
    requires OpenMenus(st.marks, which).Some? && forall e :: e in es ==> Fits(k, p, top, which, e)
    requires Open(es, OpenMenus(st.marks, which).value, which).Some?
    ensures OpenMenus(Steps(k, prefix, p, top, st, es).marks, which) == Open(es, OpenMenus(st.marks, which).value, which)
    decreases |es|
  {
    if es != [] {
      assert es == [es[0]] + es[1..];
      OpenConcat([es[0]], es[1..], OpenMenus(st.marks, which).value, which);
      StepFollows(k, prefix, p, top, st, es[0], which);
      StepsFollow(k, prefix, p, top, Step(k, prefix, p, top, st, es[0]), es[1..], which);
    }
  }

  // The visible menus with something in them.
  ghost function ShownMenus(k: View, p: map<MenuNode, Props>, kids: seq<Tree>): set<MenuNode> {
    set n | n in ParentNodes(kids) && ShownMenu(k, p, n)
  }

  lemma {:induction false} EventsFit(k: View, p: map<MenuNode, Props>, top: MenuNode, kids: seq<Tree>)
    requires top !in NodeSet(kids)
    ensures forall e :: e in Inside(top, kids) ==> Fits(k, p, top, ShownMenus(k, p, kids), e)
    ensures OpenMenus([Start], ShownMenus(k, p, kids)) == Some([])
  {
    EventNodes(kids);
    assert [Start][..0] == [];
  }

  // The comments above and at the end of the visible menus nest like brackets, and all are closed.
  lemma {:induction false} MenusNest(k: View, prefix: string, top: MenuNode, kids: seq<Tree>, p: map<MenuNode, Props>)
    requires Separate(kids) && top !in NodeSet(kids)
    ensures OpenMenus(FullProgress(k, prefix, p, top, kids).marks, ShownMenus(k, p, kids)) == Some([])
  {
    var which := ShownMenus(k, p, kids);
    EventsFit(k, p, top, kids);
    WalkNests(kids, [], which);
    if kids != [] {
      OpenConcat(Events(kids), [Leave(top)], [], which);
      OpenOne(Leave(top), [], which);
    } else {
      assert Open([], [], which) == Some([]);
    }
    StepsFollow(k, prefix, p, top, AT_START, Inside(top, kids), which);
  }

  // ---- an entry and the menus around it ----

  // The menus in which around the first node of symbol s, from the outside in; None if s has no node.
  ghost function MenusAround(ts: seq<Tree>, s: nat, which: set<MenuNode>): Option<seq<MenuNode>> {
    if ts == [] then None
    else if ts[0].node.item == SymNode(s) then Some([])
    else
      var inside := MenusAround(ts[0].kids, s, which);
      if inside.Some? then Some((if ts[0].node in which then [ts[0].node] else []) + inside.value) else MenusAround(ts[1..], s, which)
  }

  // before holds the events up to the first visit to a node of s, and leaves the menus around it open.
  ghost predicate Reaches(es: seq<Event>, before: seq<Event>, s: nat, open: seq<MenuNode>, around: seq<MenuNode>, which: set<MenuNode>) {
    && |before| < |es| && before == es[..|before|] && es[|before|].Visit? && es[|before|].node.item == SymNode(s)
    && s !in SymsVisited(before) && Open(before, open, which) == Some(open + around)
  }

  lemma {:induction false} NotVisited(ts: seq<Tree>, s: nat, which: set<MenuNode>)
    requires MenusAround(ts, s, which).None?
    ensures s !in SymsVisited(Events(ts))
  {
    if ts != [] {
      NotVisited(ts[0].kids, s, which);
      NotVisited(ts[1..], s, which);
    }
  }

  // The first visit among some events, after others that do not visit s.
  lemma {:induction false} ReachesAfter(a: seq<Event>, es: seq<Event>, before: seq<Event>, s: nat, open: seq<MenuNode>, inner: seq<MenuNode>, around: seq<MenuNode>, which: set<MenuNode>)
    requires Reaches(es, before, s, open + inner, around, which)
    requires s !in SymsVisited(a) && Open(a, open, which) == Some(open + inner)
    ensures Reaches(a + es, a + before, s, open, inner + around, which)
  {
    OpenConcat(a, before, open, which);
    Regroup(open, inner, around);
    assert SymsVisited(a + before) == SymsVisited(a) + SymsVisited(before);
  }

  lemma {:induction false} ReachesWithin(es: seq<Event>, more: seq<Event>, before: seq<Event>, s: nat, open: seq<MenuNode>, around: seq<MenuNode>, which: set<MenuNode>)
    requires Reaches(es, before, s, open, around, which)
    ensures Reaches(es + more, before, s, open, around, which)
  {
  }

  lemma {:induction false} FirstVisit(ts: seq<Tree>, s: nat, open: seq<MenuNode>, which: set<MenuNode>) returns (before: seq<Event>)
    requires OnlyParents(ts, which) && MenusAround(ts, s, which).Some?
    ensures Reaches(Events(ts), before, s, open, MenusAround(ts, s, which).value, which)
  {
    var t := ts[0];
    var first := [Visit(t.node)];
    if t.node.item == SymNode(s) {
      before := [];
      assert open + [] == open;
    } else if MenusAround(t.kids, s, which).Some? {
      var inner := if t.node in which then [t.node] else [];
      var b := FirstVisit(t.kids, s, open + inner, which);
      var around := MenusAround(t.kids, s, which).value;
      OpenOne(first[0], open, which);
      assert open + [] == open;
      ReachesWithin(Events(t.kids), [Leave(t.node)], b, s, open + inner, around, which);
      ReachesAfter(first, Inside(t.node, t.kids), b, s, open, inner, around, which);
      ReachesWithin(first + Inside(t.node, t.kids), Events(ts[1..]), first + b, s, open, inner + around, which);
      before := first + b;
    } else {
      var a := first + Inside(t.node, t.kids);
      var b := FirstVisit(ts[1..], s, open, which);
      var around := MenusAround(ts[1..], s, which).value;
      NotVisited(t.kids, s, which);
      assert s !in SymsVisited(a);
      OneTreeNests(t, open, which);
      assert open + [] == open && [] + around == around;
      ReachesAfter(a, Events(ts[1..]), b, s, open, [], around, which);
      before := a + b;
    }
  }

  lemma {:induction false} OneTreeNests(t: Tree, open: seq<MenuNode>, which: set<MenuNode>)
    requires OnlyParents([t], which)
    ensures Open([Visit(t.node)] + Inside(t.node, t.kids), open, which) == Some(open)
  {
    EventsNest([t], open, which);
    var es := [Visit(t.node)] + Inside(t.node, t.kids);
    assert [t][1..] == [] && es + [] == es && Events([t]) == es;
  }

  lemma {:induction false} MarksGrow(k: View, prefix: string, p: map<MenuNode, Props>, top: MenuNode, st: Progress, es: seq<Event>)
    ensures st.marks <= Steps(k, prefix, p, top, st, es).marks
    decreases |es|
  {
    if es != [] {
      MarksGrow(k, prefix, p, top, Step(k, prefix, p, top, st, es[0]), es[1..]);
    }
  }

  // The entry of a symbol stands inside the comments of exactly those visible menus that are around the
  // first node of the symbol.
  lemma {:induction false} EntryStandsInItsMenus(k: View, prefix: string, top: MenuNode, kids: seq<Tree>, p: map<MenuNode, Props>, s: nat) returns (i: nat)
    requires Separate(kids) && top !in NodeSet(kids) && p.Keys == {top} + NodeSet(kids)
    requires MenusAround(kids, s, ShownMenus(k, p, kids)).Some?
    ensures
      var which := ShownMenus(k, p, kids);
      var ms := FullProgress(k, prefix, p, top, kids).marks;
      i < |ms| && ms[i] == Symbol(s) && OpenMenus(ms[..i], which) == MenusAround(kids, s, which)
  {
    var which := ShownMenus(k, p, kids);
    var es := Inside(top, kids);
    var around := MenusAround(kids, s, which).value;
    ParentsOnly(kids, which);
    var before := FirstVisit(kids, s, [], which);
    ReachesWithin(Events(kids), [Leave(top)], before, s, [], around, which);
    assert [] + around == around;
    EventsFit(k, p, top, kids);
    EventNodes(kids);
    i := EntryAt(k, prefix, top, p, es, before, s, around, which);
  }

  // The parts that the first visit to s adds are the entry of s, and before it at most a blank line.
  lemma {:induction false} EntryAdded(k: View, prefix: string, st: Progress, s: nat, which: set<MenuNode>) returns (i: nat)
    requires s !in st.seen && OpenMenus(st.marks, which).Some?
    ensures
      var ms := SymbolSeen(k, prefix, st, s).marks;
      i < |ms| && ms[i] == Symbol(s) && OpenMenus(ms[..i], which) == OpenMenus(st.marks, which)
  {
    SymbolSeenAdds(k, prefix, st, s);
    OpenMenusMore(st.marks, Blank, which);
    var ms := SymbolSeen(k, prefix, st, s).marks;
    i := |ms| - 1;
    assert ms[..i] == st.marks || ms[..i] == st.marks + [Blank];
  }

  lemma {:induction false} StepsSplit(k: View, prefix: string, p: map<MenuNode, Props>, top: MenuNode, es: seq<Event>, n: nat)
    requires n < |es|
    ensures
      var st := Step(k, prefix, p, top, Steps(k, prefix, p, top, AT_START, es[..n]), es[n]);
      st.marks <= Steps(k, prefix, p, top, AT_START, es).marks
  {
    OneMoreStep(k, prefix, p, top, AT_START, es, n);
    assert es == es[..n + 1] + es[n + 1..];
    StepsConcat(k, prefix, p, top, AT_START, es[..n + 1], es[n + 1..]);
    MarksGrow(k, prefix, p, top, Steps(k, prefix, p, top, AT_START, es[..n + 1]), es[n + 1..]);
  }

  lemma {:induction false} EntryAt(k: View, prefix: string, top: MenuNode, p: map<MenuNode, Props>, es: seq<Event>, before: seq<Event>, s: nat, around: seq<MenuNode>, which: set<MenuNode>) returns (i: nat)
    requires Reaches(es, before, s, [], around, which) && Open(before, [], which) == Some(around) && OpenMenus([Start], which) == Some([])
    requires forall e :: e in es ==> e.node in p && Fits(k, p, top, which, e)
    ensures
      var ms := Steps(k, prefix, p, top, AT_START, es).marks;
      i < |ms| && ms[i] == Symbol(s) && OpenMenus(ms[..i], which) == Some(around)
  {
    var st := Steps(k, prefix, p, top, AT_START, before);
    BeforeEntry(k, prefix, top, p, before, s, around, which);
    i := EntryAdded(k, prefix, st, s, which);
    StepsSplit(k, prefix, p, top, es, |before|);
    SamePrefix(SymbolSeen(k, prefix, st, s).marks, Steps(k, prefix, p, top, AT_START, es).marks, i);
  }

  lemma {:induction false} BeforeEntry(k: View, prefix: string, top: MenuNode, p: map<MenuNode, Props>, before: seq<Event>, s: nat, around: seq<MenuNode>, which: set<MenuNode>)
    requires s !in SymsVisited(before) && Open(before, [], which) == Some(around) && OpenMenus([Start], which) == Some([])
    requires forall e :: e in before ==> e.node in p && Fits(k, p, top, which, e)
    ensures
      var st := Steps(k, prefix, p, top, AT_START, before);
      s !in st.seen && OpenMenus(st.marks, which) == Some(around)
  {
    StepsFollow(k, prefix, p, top, AT_START, before, which);
    StepsAreOrderly(k, prefix, p, top, AT_START, before);
  }

  lemma {:induction false} SamePrefix(a: seq<Mark>, b: seq<Mark>, i: nat)
    requires a <= b && i < |a|
    ensures a[i] == b[i] && a[..i] == b[..i]
  {
  }

  // ---- blank lines ----

  // The last part with any text is an end comment.
  predicate AfterEnd(k: View, prefix: string, ms: seq<Mark>) {
    ms != [] &&
    match ms[|ms| - 1]
    case End(_) => true
    case Symbol(s) => ConfigString(k, prefix, s) == "" && AfterEnd(k, prefix, ms[..|ms| - 1])
    case _ => false
  }

  // There is a blank line exactly where an entry with any text follows an end comment.
  predicate SpacedAt(k: View, prefix: string, ms: seq<Mark>, i: nat)
    requires i < |ms|
  {
    && (ms[i].Symbol? && ConfigString(k, prefix, ms[i].s) != "" ==> !AfterEnd(k, prefix, ms[..i]))
    && (ms[i].Blank? ==> AfterEnd(k, prefix, ms[..i]) && i + 1 < |ms| && ms[i + 1].Symbol? && ConfigString(k, prefix, ms[i + 1].s) != "")
  }

  ghost predicate Spaced(k: View, prefix: string, ms: seq<Mark>) { forall i: nat :: i < |ms| ==> SpacedAt(k, prefix, ms, i) }

  lemma {:induction false} AfterEndMore(k: View, prefix: string, ms: seq<Mark>, m: Mark)
    ensures AfterEnd(k, prefix, ms + [m]) <==> m.End? || (m.Symbol? && ConfigString(k, prefix, m.s) == "" && AfterEnd(k, prefix, ms))
  {
    assert (ms + [m])[..|ms|] == ms;
  }

  lemma {:induction false} SpacedMore(k: View, prefix: string, ms: seq<Mark>, m: Mark)
    requires Spaced(k, prefix, ms) && !m.Blank?
    requires m.Symbol? && ConfigString(k, prefix, m.s) != "" ==> !AfterEnd(k, prefix, ms)
    ensures Spaced(k, prefix, ms + [m])
  {
    forall i: nat | i < |ms + [m]| ensures SpacedAt(k, prefix, ms + [m], i) {
      if i < |ms| {
        assert (ms + [m])[..i] == ms[..i] && SpacedAt(k, prefix, ms, i);
      } else {
        assert (ms + [m])[..i] == ms;
      }
    }
  }

  lemma {:induction false} SpacedAfterBlank(k: View, prefix: string, ms: seq<Mark>, s: nat)
    requires Spaced(k, prefix, ms) && AfterEnd(k, prefix, ms) && ConfigString(k, prefix, s) != ""
    ensures Spaced(k, prefix, ms + [Blank] + [Symbol(s)])
  {
    var ms' := ms + [Blank] + [Symbol(s)];
    AfterEndMore(k, prefix, ms, Blank);
    forall i: nat | i < |ms'| ensures SpacedAt(k, prefix, ms', i) {
      if i < |ms| {
        assert ms'[..i] == ms[..i] && SpacedAt(k, prefix, ms, i);
      } else if i == |ms| {
        assert ms'[..i] == ms;
      } else {
        assert ms'[..i] == ms + [Blank];
      }
    }
  }

  lemma {:induction false} StepIsSpaced(k: View, prefix: string, p: map<MenuNode, Props>, top: MenuNode, st: Progress, e: Event)
    requires Spaced(k, prefix, st.marks) && st.afterEnd == AfterEnd(k, prefix, st.marks)
    ensures
      var st' := Step(k, prefix, p, top, st, e);
      Spaced(k, prefix, st'.marks) && st'.afterEnd == AfterEnd(k, prefix, st'.marks)
  {
    var n := e.node;
    if n.item.SymNode? {
      var s := n.item.s;
      AfterEndMore(k, prefix, st.marks, Symbol(s));
      AfterEndMore(k, prefix, st.marks + [Blank], Symbol(s));
      if ConfigString(k, prefix, s) != "" && st.afterEnd {
        SpacedAfterBlank(k, prefix, st.marks, s);
      } else {
        SpacedMore(k, prefix, st.marks, Symbol(s));
      }
    } else {
      AfterEndMore(k, prefix, st.marks, Head(n));
      AfterEndMore(k, prefix, st.marks, End(n));
      SpacedMore(k, prefix, st.marks, Head(n));
      SpacedMore(k, prefix, st.marks, End(n));
    }
  }

  lemma {:induction false} StepsAreSpaced(k: View, prefix: string, p: map<MenuNode, Props>, top: MenuNode, st: Progress, es: seq<Event>)
    requires Spaced(k, prefix, st.marks) && st.afterEnd == AfterEnd(k, prefix, st.marks)
    ensures Spaced(k, prefix, Steps(k, prefix, p, top, st, es).marks)
    decreases |es|
  {
    if es != [] {
      StepIsSpaced(k, prefix, p, top, st, es[0]);
      StepsAreSpaced(k, prefix, p, top, Step(k, prefix, p, top, st, es[0]), es[1..]);
    }
  }

  // A blank line separates an end comment from the next entry, and there are no other blank lines.
  lemma {:induction false} BlankAfterMenus(k: View, prefix: string, top: MenuNode, kids: seq<Tree>, p: map<MenuNode, Props>)
    ensures Spaced(k, prefix, FullProgress(k, prefix, p, top, kids).marks)
  {
    StepsAreSpaced(k, prefix, p, top, AT_START, Inside(top, kids));
  }
}
