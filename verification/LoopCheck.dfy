// The search for dependency loops: a depth-first search with three marks, run over the dependents
// that _build_dep() recorded, with special rules for choices.
module LoopCheck {
  import opened Basics
  import opened CacheState

  // What _build_dep() recorded: deps[s] lists the _dependents of symbol s and choiceDeps[c] those of
  // choice c, in the order in which the set happens to be enumerated. The search never follows the
  // dependents of choices. A symbol of a choice is among them.
  datatype Graph = Graph(deps: seq<seq<Item>>, choiceDeps: seq<seq<Item>>, choiceOf: seq<Option<nat>>, members: seq<seq<nat>>) {
    predicate Has(x: Item) {
      match x
      case SymItem(s) => s < |deps|
      case ChoiceItem(c) => c < |members|
    }

    ghost predicate Proper() {
      && |deps| == |choiceOf| && |choiceDeps| == |members|
      && (forall s, i :: 0 <= s < |deps| && 0 <= i < |deps[s]| ==> Has(deps[s][i]))
      && (forall c, i :: 0 <= c < |choiceDeps| && 0 <= i < |choiceDeps[c]| ==> Has(choiceDeps[c][i]))
      && (forall s :: 0 <= s < |deps| && choiceOf[s].Some? ==> choiceOf[s].value < |members| && s in members[choiceOf[s].value])
      && (forall c, i :: 0 <= c < |members| && 0 <= i < |members[c]| ==>
            members[c][i] < |deps| && choiceOf[members[c][i]] == Some(c) && SymItem(members[c][i]) in choiceDeps[c])
    }

    function Items(): set<Item> {
      (set s | 0 <= s < |deps| :: SymItem(s)) + (set c | 0 <= c < |members| :: ChoiceItem(c))
    }
  }

  // The _visited fields: 0 (not visited) for items that are absent, 1 while an item is on the call
  // stack, 2 when it is done.
  type Mark = n: nat | n <= 2

  type Marks = map<Item, Mark>

  function At(m: Marks, x: Item): Mark { if x in m then m[x] else 0 }

  datatype Outcome = NoLoop | Partial(loop: seq<Item>) | Raised(loop: seq<Item>)

  datatype Visit = Visit(marks: Marks, out: Outcome)

  // _found_dep_loop()
  function FoundLoop(loop: seq<Item>, cur: Item): Outcome
    requires loop != []
  {
    if cur != loop[0] then Partial(loop + [cur]) else Raised(loop)
  }

  // What every visit does to the marks: nothing is forgotten, and without a loop whatever was newly
  // visited is done.
  ghost predicate Kept(m: Marks, v: Visit) {
    && (forall x :: At(m, x) != 0 ==> At(v.marks, x) != 0)
    && (v.out.NoLoop? ==> forall x :: At(v.marks, x) == At(m, x) || (At(m, x) == 0 && At(v.marks, x) == 2))
    && (v.out.Partial? ==> v.out.loop != [] && At(m, v.out.loop[0]) == 1)
  }

  function Unvisited(g: Graph, m: Marks): set<Item> { set x | x in g.Items() && At(m, x) == 0 }

  lemma {:induction false} UnvisitedShrinks(g: Graph, m: Marks, m': Marks)
    requires forall x :: At(m, x) != 0 ==> At(m', x) != 0
    ensures |Unvisited(g, m')| <= |Unvisited(g, m)|
    ensures forall x :: g.Has(x) && At(m, x) == 0 && At(m', x) != 0 ==> |Unvisited(g, m')| < |Unvisited(g, m)|
  {
    SubsetSize(Unvisited(g, m'), Unvisited(g, m));
    forall x | g.Has(x) && At(m, x) == 0 && At(m', x) != 0 ensures |Unvisited(g, m')| < |Unvisited(g, m)| {
      SubsetSize(Unvisited(g, m'), Unvisited(g, m) - {x});
    }
  }

  lemma {:induction false} SubsetSize<T>(a: set<T>, b: set<T>)
    requires a <= b
    ensures |a| <= |b|
  {
    if a != {} {
      var x :| x in a;
      SubsetSize(a - {x}, b - {x});
    }
  }

  // ---- the search, as functions ----

  lemma {:induction false} KeptDone(m: Marks, x: Item, v: Visit)
    requires Kept(m[x := 1], v) && v.out.NoLoop? && At(m, x) == 0
    ensures Kept(m, Visit(v.marks[x := 2], NoLoop))
  {
    assert forall y :: At(v.marks[x := 2], y) == if y == x then 2 else At(v.marks, y);
    assert forall y :: At(m[x := 1], y) == if y == x then 1 else At(m, y);
  }

  lemma {:induction false} KeptStarted(m: Marks, x: Item, v: Visit)
    requires Kept(m[x := 1], v) && !v.out.NoLoop? && (v.out.Partial? ==> v.out.loop[0] != x)
    ensures Kept(m, v)
  {
    assert forall y :: At(m[x := 1], y) == if y == x then 1 else At(m, y);
  }

  lemma {:induction false} KeptThen(m: Marks, v: Visit, w: Visit)
    requires Kept(m, v) && v.out.NoLoop? && Kept(v.marks, w)
    ensures Kept(m, w)
  {
    forall x ensures At(m, x) != 0 ==> At(w.marks, x) != 0 {
    }
    if w.out.NoLoop? {
      forall x ensures At(w.marks, x) == At(m, x) || (At(m, x) == 0 && At(w.marks, x) == 2) {
        assert At(v.marks, x) == At(m, x) || (At(m, x) == 0 && At(v.marks, x) == 2);
      }
    }
  }

  // The loop that was found so far, seen from cur.
  function Found(v: Visit, cur: Item): (w: Visit)
    requires v.out.Partial? ==> v.out.loop != []
    ensures w.marks == v.marks && (w.out.NoLoop? <==> v.out.NoLoop?)
    ensures w.out.Partial? ==> v.out.Partial? && w.out.loop != [] && w.out.loop[0] == v.out.loop[0] != cur
  {
    if v.out.Partial? then v.(out := FoundLoop(v.out.loop, cur)) else v
  }

  lemma {:induction false} KeptFound(m: Marks, v: Visit, cur: Item)
    requires Kept(m, v)
    ensures Kept(m, Found(v, cur))
  {
  }

  // _check_dep_loop_sym()
  function VisitSym(g: Graph, m: Marks, s: nat, ignoreChoice: bool): (v: Visit)
    requires g.Proper() && s < |g.deps|
    ensures Kept(m, v) && At(v.marks, SymItem(s)) != 0
    decreases |Unvisited(g, m)|, 0, 2
  {
    if At(m, SymItem(s)) == 0 then VisitNewSym(g, m, s, ignoreChoice)
    else if At(m, SymItem(s)) == 2 then Visit(m, NoLoop)
    else Visit(m, Partial([SymItem(s)]))
  }

  // ... when it has not been visited
  function VisitNewSym(g: Graph, m: Marks, s: nat, ignoreChoice: bool): (v: Visit)
    requires g.Proper() && s < |g.deps| && At(m, SymItem(s)) == 0
    ensures Kept(m, v) && At(v.marks, SymItem(s)) != 0
    decreases |Unvisited(g, m)|, 0, 1
  {
    var x := SymItem(s);
    UnvisitedShrinks(g, m, m[x := 1]);
    var v := VisitDeps(g, m[x := 1], s, 0);
    if !v.out.NoLoop? then
      KeptStarted(m, x, v);
      v
    else if g.choiceOf[s].Some? && !ignoreChoice then
      UnvisitedShrinks(g, m, v.marks);
      var w := Found(VisitChoice(g, v.marks, g.choiceOf[s].value, Some(s)), x);
      KeptFound(v.marks, VisitChoice(g, v.marks, g.choiceOf[s].value, Some(s)), x);
      KeptThen(m[x := 1], v, w);
      if w.out.NoLoop? then
        KeptDone(m, x, w);
        Visit(w.marks[x := 2], NoLoop)
      else
        KeptStarted(m, x, w);
        w
    else
      KeptDone(m, x, v);
      Visit(v.marks[x := 2], NoLoop)
  }

  // The loop over the dependents of s, from the i-th on.
  function VisitDeps(g: Graph, m: Marks, s: nat, i: nat): (v: Visit)
    requires g.Proper() && s < |g.deps| && i <= |g.deps[s]| && At(m, SymItem(s)) == 1
    ensures Kept(m, v) && (v.out.Partial? ==> v.out.loop[0] != SymItem(s))
    decreases |Unvisited(g, m)|, 1, |g.deps[s]| - i
  {
    if i == |g.deps[s]| then Visit(m, NoLoop)
    else
      var v := VisitItem(g, m, g.deps[s][i]);
      KeptFound(m, v, SymItem(s));
      if v.out.NoLoop? then
        UnvisitedShrinks(g, m, v.marks);
        KeptThen(m, v, VisitDeps(g, v.marks, s, i + 1));
        VisitDeps(g, v.marks, s, i + 1)
      else Found(v, SymItem(s))
  }

  function VisitItem(g: Graph, m: Marks, x: Item): (v: Visit)
    requires g.Proper() && g.Has(x)
    ensures Kept(m, v) && At(v.marks, x) != 0
    decreases |Unvisited(g, m)|, 0, 3
  {
    match x
    case SymItem(s) => VisitSym(g, m, s, false)
    case ChoiceItem(c) => VisitChoice(g, m, c, None)
  }

  // _check_dep_loop_choice()
  function VisitChoice(g: Graph, m: Marks, c: nat, skip: Option<nat>): (v: Visit)
    requires g.Proper() && c < |g.members|
    ensures Kept(m, v) && At(v.marks, ChoiceItem(c)) != 0
    decreases |Unvisited(g, m)|, 0, 2
  {
    var x := ChoiceItem(c);
    if At(m, x) == 0 then
      UnvisitedShrinks(g, m, m[x := 1]);
      var v := VisitMembers(g, m[x := 1], c, skip, 0);
      if v.out.NoLoop? then
        KeptDone(m, x, v);
        Visit(v.marks[x := 2], NoLoop)
      else
        KeptStarted(m, x, v);
        v
    else if At(m, x) == 2 then Visit(m, NoLoop)
    else Visit(m, Partial([x]))
  }

  // The loop over the symbols of the choice, from the i-th on.
  function VisitMembers(g: Graph, m: Marks, c: nat, skip: Option<nat>, i: nat): (v: Visit)
    requires g.Proper() && c < |g.members| && i <= |g.members[c]| && At(m, ChoiceItem(c)) == 1
    ensures Kept(m, v) && (v.out.Partial? ==> v.out.loop[0] != ChoiceItem(c))
    decreases |Unvisited(g, m)|, 1, |g.members[c]| - i
  {
    if i == |g.members[c]| then Visit(m, NoLoop)
    else if Some(g.members[c][i]) == skip then VisitMembers(g, m, c, skip, i + 1)
    else
      var v := VisitSym(g, m, g.members[c][i], true);
      KeptFound(m, v, ChoiceItem(c));
      if v.out.NoLoop? then
        UnvisitedShrinks(g, m, v.marks);
        KeptThen(m, v, VisitMembers(g, v.marks, c, skip, i + 1));
        VisitMembers(g, v.marks, c, skip, i + 1)
      else Found(v, ChoiceItem(c))
  }

  // The loop over unique_defined_syms, from the s-th on.
  function CheckFrom(g: Graph, m: Marks, s: nat): (v: Visit)
    requires g.Proper() && s <= |g.deps|
    ensures Kept(m, v)
    decreases |g.deps| - s
  {
    if s == |g.deps| then Visit(m, NoLoop)
    else
      var v := VisitSym(g, m, s, false);
      if v.out.NoLoop? then
        KeptThen(m, v, CheckFrom(g, v.marks, s + 1));
        CheckFrom(g, v.marks, s + 1)
      else v
  }

  function Check(g: Graph): Outcome
    requires g.Proper()
  {
    CheckFrom(g, map[], 0).out
  }

  // A top-level call never returns an unfinished loop: nothing is on the call stack before it.
  lemma {:induction false} NeverLeftover(g: Graph)
    requires g.Proper()
    ensures !Check(g).Partial?
  {
  }

  // ---- the search, as it runs ----

  class LoopChecker {
    const g: Graph
    var visited: Marks

    constructor (g: Graph)
      ensures this.g == g && visited == map[]
    {
      this.g := g;
      visited := map[];
    }

    // _check_dep_loop_sym()
    method CheckSym(s: nat, ignoreChoice: bool) returns (out: Outcome)
      requires g.Proper() && s < |g.deps|
      modifies this
      ensures Visit(visited, out) == VisitSym(g, old(visited), s, ignoreChoice)
      decreases |Unvisited(g, visited)|, 0, 0
    {
      if At(visited, SymItem(s)) == 0 {
        UnvisitedShrinks(g, visited, visited[SymItem(s) := 1]);
        visited := visited[SymItem(s) := 1];
        out := CheckDeps(s);
        if !out.NoLoop? {
          return;
        }
        if g.choiceOf[s].Some? && !ignoreChoice {
          UnvisitedShrinks(g, old(visited)[SymItem(s) := 1], visited);
          out := CheckChoice(g.choiceOf[s].value, Some(s));
          if !out.NoLoop? {
            if out.Partial? {
              out := FoundLoop(out.loop, SymItem(s));
            }
            return;
          }
        }
        visited := visited[SymItem(s) := 2];
        out := NoLoop;
      } else if At(visited, SymItem(s)) == 2 {
        out := NoLoop;
      } else {
        out := Partial([SymItem(s)]);
      }
    }

    method CheckDeps(s: nat) returns (out: Outcome)
      requires g.Proper() && s < |g.deps| && At(visited, SymItem(s)) == 1
      modifies this
      ensures Visit(visited, out) == VisitDeps(g, old(visited), s, 0)
      decreases |Unvisited(g, visited)|, 1, 0
    {
      for i := 0 to |g.deps[s]|
        invariant At(visited, SymItem(s)) == 1 && forall x :: At(old(visited), x) != 0 ==> At(visited, x) != 0
        invariant VisitDeps(g, old(visited), s, 0) == VisitDeps(g, visited, s, i)
      {
        UnvisitedShrinks(g, old(visited), visited);
        match g.deps[s][i] {
          case SymItem(t) => out := CheckSym(t, false);
          case ChoiceItem(c) => out := CheckChoice(c, None);
        }
        if !out.NoLoop? {
          if out.Partial? {
            out := FoundLoop(out.loop, SymItem(s));
          }
          return;
        }
      }
      out := NoLoop;
    }

    // _check_dep_loop_choice()
    method CheckChoice(c: nat, skip: Option<nat>) returns (out: Outcome)
      requires g.Proper() && c < |g.members|
      modifies this
      ensures Visit(visited, out) == VisitChoice(g, old(visited), c, skip)
      decreases |Unvisited(g, visited)|, 0, 0
    {
      if At(visited, ChoiceItem(c)) == 0 {
        UnvisitedShrinks(g, visited, visited[ChoiceItem(c) := 1]);
        visited := visited[ChoiceItem(c) := 1];
        out := CheckMembers(c, skip);
        if out.NoLoop? {
          visited := visited[ChoiceItem(c) := 2];
        }
      } else if At(visited, ChoiceItem(c)) == 2 {
        out := NoLoop;
      } else {
        out := Partial([ChoiceItem(c)]);
      }
    }

    method CheckMembers(c: nat, skip: Option<nat>) returns (out: Outcome)
      requires g.Proper() && c < |g.members| && At(visited, ChoiceItem(c)) == 1
      modifies this
      ensures Visit(visited, out) == VisitMembers(g, old(visited), c, skip, 0)
      decreases |Unvisited(g, visited)|, 1, 0
    {
      for i := 0 to |g.members[c]|
        invariant At(visited, ChoiceItem(c)) == 1 && forall x :: At(old(visited), x) != 0 ==> At(visited, x) != 0
        invariant VisitMembers(g, old(visited), c, skip, 0) == VisitMembers(g, visited, c, skip, i)
      {
        if Some(g.members[c][i]) != skip {
          UnvisitedShrinks(g, old(visited), visited);
          out := CheckSym(g.members[c][i], true);
          if !out.NoLoop? {
            if out.Partial? {
              out := FoundLoop(out.loop, ChoiceItem(c));
            }
            return;
          }
        }
      }
      out := NoLoop;
    }

    // The loop over all symbols.
    method CheckAll() returns (out: Outcome)
      requires g.Proper() && visited == map[]
      modifies this
      ensures out == Check(g)
    {
      for s := 0 to |g.deps|
        invariant CheckFrom(g, map[], 0) == CheckFrom(g, visited, s)
      {
        out := CheckSym(s, false);
        if !out.NoLoop? {
          return;
        }
      }
      out := NoLoop;
    }
  }

  // ---- what a loop is ----

  // y is a recorded dependent of the symbol s, and of the item x.
  predicate Dependent(g: Graph, s: nat, y: Item) { s < |g.deps| && y in g.deps[s] }

  predicate Recorded(g: Graph, x: Item, y: Item) {
    match x
    case SymItem(s) => Dependent(g, s, y)
    case ChoiceItem(c) => c < |g.choiceDeps| && y in g.choiceDeps[c]
  }

  // The symbols of a choice depend on each other, so they count as one. The choice itself, of which
  // they read whether it is visible, is apart.
  datatype Class = Alone(x: Item) | SymbolsOf(c: nat)

  function ClassOf(g: Graph, x: Item): Class {
    if x.SymItem? && x.s < |g.choiceOf| && g.choiceOf[x.s].Some? then SymbolsOf(g.choiceOf[x.s].value) else Alone(x)
  }

  predicate Same(g: Graph, x: Item, y: Item) { ClassOf(g, x) == ClassOf(g, y) }

  // x, or another symbol of the same choice, has y as a recorded dependent.
  ghost predicate Step(g: Graph, x: Item, y: Item) { exists x' :: Same(g, x', x) && Recorded(g, x', y) }

  ghost predicate Walk(g: Graph, p: seq<Item>) { forall i :: 0 <= i < |p| - 1 ==> Step(g, p[i], p[i + 1]) }

  ghost predicate WalkTo(g: Graph, x: Item, p: seq<Item>, y: Item) {
    |p| >= 2 && Walk(g, p) && Same(g, p[0], x) && Same(g, p[|p| - 1], y)
  }

  // The value of y depends on that of x, over one or more steps.
  ghost predicate Reaches(g: Graph, x: Item, y: Item) { exists p :: WalkTo(g, x, p, y) }

  ghost predicate Acyclic(g: Graph) { forall x :: !Reaches(g, x, x) }

  lemma {:induction false} StepReaches(g: Graph, x: Item, y: Item)
    requires Recorded(g, x, y)
    ensures Reaches(g, x, y)
  {
    assert Step(g, x, y);
    assert WalkTo(g, x, [x, y], y);
  }

  lemma {:induction false} ReachesTrans(g: Graph, x: Item, y: Item, z: Item)
    requires Reaches(g, x, y) && Reaches(g, y, z)
    ensures Reaches(g, x, z)
  {
    var p :| WalkTo(g, x, p, y);
    var q :| WalkTo(g, y, q, z);
    var r := p + q[1..];
    forall i | 0 <= i < |r| - 1 ensures Step(g, r[i], r[i + 1]) {
      if i < |p| - 1 {
        assert Step(g, p[i], p[i + 1]);
      } else {
        var j := i - (|p| - 1);
        assert Step(g, q[j], q[j + 1]);
        assert r[i + 1] == q[j + 1] && Same(g, r[i], q[j]);
      }
    }
    assert WalkTo(g, x, r, z);
  }

  lemma {:induction false} ReachesSame(g: Graph, x: Item, x': Item, y: Item, y': Item)
    requires Reaches(g, x, y) && Same(g, x, x') && Same(g, y, y')
    ensures Reaches(g, x', y')
  {
    var p :| WalkTo(g, x, p, y);
    assert WalkTo(g, x', p, y');
  }

  // ---- a reported loop is a loop ----

  // y is the choice of the symbol x.
  predicate Owner(g: Graph, x: Item, y: Item) {
    x.SymItem? && x.s < |g.choiceOf| && g.choiceOf[x.s].Some? && y == ChoiceItem(g.choiceOf[x.s].value)
  }

  // The edges that the search follows.
  predicate Edge(g: Graph, x: Item, y: Item) { (x.SymItem? && Dependent(g, x.s, y)) || Owner(g, x, y) || Owner(g, y, x) }

  // Each item leads to the one before it.
  predicate Chain(g: Graph, loop: seq<Item>) { forall i :: 0 <= i < |loop| - 1 ==> Edge(g, loop[i + 1], loop[i]) }

  // The items lead to each other in a circle, and the value of one of them depends on itself.
  ghost predicate Genuine(g: Graph, loop: seq<Item>) {
    loop != [] && Chain(g, loop) && Edge(g, loop[0], loop[|loop| - 1]) && exists x :: x in loop && Reaches(g, x, x)
  }

  // x leads to r, or to a symbol of the choice r.
  ghost predicate Hits(g: Graph, x: Item, r: Item) { exists t :: (t == r || Owner(g, t, r)) && Reaches(g, x, t) }

  predicate Near(g: Graph, x: Item, r: Item) { Same(g, x, r) || Owner(g, x, r) }

  lemma {:induction false} HitsSame(g: Graph, x: Item, x': Item, r: Item)
    requires Hits(g, x, r) && Same(g, x, x')
    ensures Hits(g, x', r)
  {
    var t :| (t == r || Owner(g, t, r)) && Reaches(g, x, t);
    ReachesSame(g, x, x', t, t);
  }

  lemma {:induction false} HitsVia(g: Graph, x: Item, y: Item, r: Item)
    requires Reaches(g, x, y) && (Hits(g, y, r) || Near(g, y, r))
    ensures Hits(g, x, r)
  {
    if Hits(g, y, r) {
      var t :| (t == r || Owner(g, t, r)) && Reaches(g, y, t);
      ReachesTrans(g, x, y, t);
    } else if Same(g, y, r) {
      ReachesSame(g, x, x, y, r);
    }
  }

  // What a symbol of the choice r hits when it hits r is a loop.
  lemma {:induction false} HitsOwner(g: Graph, x: Item, r: Item)
    requires g.Proper() && Owner(g, x, r) && Hits(g, x, r)
    ensures Reaches(g, x, x) || Reaches(g, r, r)
  {
    var t :| (t == r || Owner(g, t, r)) && Reaches(g, x, t);
    if t == r {
      MemberIsRecorded(g, x, r);
      StepReaches(g, r, x);
      ReachesTrans(g, r, x, r);
    } else {
      ReachesSame(g, x, x, t, x);
    }
  }

  lemma {:induction false} MemberIsRecorded(g: Graph, x: Item, r: Item)
    requires g.Proper() && Owner(g, x, r)
    ensures Recorded(g, r, x)
  {
    var i :| 0 <= i < |g.members[r.c]| && g.members[r.c][i] == x.s;
  }

  // The loop ends at x, and what x has to do with its beginning: it hits it, unless it is just next to it.
  ghost predicate Explained(g: Graph, x: Item, out: Outcome, direct: bool) {
    match out
    case NoLoop => true
    case Partial(loop) =>
      loop != [] && Chain(g, loop) && loop[|loop| - 1] == x && (Hits(g, x, loop[0]) || (direct && Near(g, x, loop[0])))
    case Raised(loop) => Genuine(g, loop)
  }

  // A dependent y of s led to the loop: the visit to s passes it on.
  lemma {:induction false} FoundViaDependent(g: Graph, s: nat, y: Item, loop: seq<Item>)
    requires g.Proper() && Dependent(g, s, y) && loop != [] && Chain(g, loop) && loop[|loop| - 1] == y
    requires Hits(g, y, loop[0]) || Near(g, y, loop[0])
    ensures Explained(g, SymItem(s), FoundLoop(loop, SymItem(s)), false)
  {
    var x := SymItem(s);
    StepReaches(g, x, y);
    HitsVia(g, x, y, loop[0]);
    if x == loop[0] {
      assert Reaches(g, x, x) && x in loop;
    }
  }

  // What is known when a visit to a choice finds a loop: it is on the call stack itself, or some symbol
  // of it, other than the skipped one, hits the beginning of the loop or is it.
  ghost predicate ViaMember(g: Graph, c: nat, skip: Option<nat>, r: Item) {
    exists t: nat :: Owner(g, SymItem(t), ChoiceItem(c)) && Some(t) != skip && (Hits(g, SymItem(t), r) || r == SymItem(t))
  }

  ghost predicate ChoiceExplains(g: Graph, c: nat, skip: Option<nat>, out: Outcome) {
    match out
    case NoLoop => true
    case Partial(loop) =>
      loop != [] && Chain(g, loop) && loop[|loop| - 1] == ChoiceItem(c) && (loop[0] == ChoiceItem(c) || ViaMember(g, c, skip, loop[0]))
    case Raised(loop) => Genuine(g, loop)
  }

  // Seen from the choice, the loop is hit.
  lemma {:induction false} ChoiceHits(g: Graph, c: nat, skip: Option<nat>, r: Item)
    requires g.Proper() && ViaMember(g, c, skip, r)
    ensures Hits(g, ChoiceItem(c), r)
  {
    var t: nat :| Owner(g, SymItem(t), ChoiceItem(c)) && Some(t) != skip && (Hits(g, SymItem(t), r) || r == SymItem(t));
    MemberIsRecorded(g, SymItem(t), ChoiceItem(c));
    StepReaches(g, ChoiceItem(c), SymItem(t));
    HitsVia(g, ChoiceItem(c), SymItem(t), r);
  }

  // Leaving a symbol towards its choice.
  lemma {:induction false} FoundViaChoice(g: Graph, s: nat, c: nat, out: Outcome)
    requires g.Proper() && s < |g.deps| && g.choiceOf[s] == Some(c) && ChoiceExplains(g, c, Some(s), out) && out.Partial?
    ensures Explained(g, SymItem(s), FoundLoop(out.loop, SymItem(s)), true)
  {
    var x, r := SymItem(s), out.loop[0];
    if r != ChoiceItem(c) {
      var t: nat :| Owner(g, SymItem(t), ChoiceItem(c)) && Some(t) != Some(s) && (Hits(g, SymItem(t), r) || r == SymItem(t));
      if Hits(g, SymItem(t), r) {
        HitsSame(g, SymItem(t), x, r);
        if r == x {
          assert Reaches(g, x, x) && x in out.loop;
        }
      }
    }
  }

  // A symbol of the choice led to the loop.
  lemma {:induction false} FoundViaMember(g: Graph, s: nat, c: nat, skip: Option<nat>, loop: seq<Item>)
    requires g.Proper() && Owner(g, SymItem(s), ChoiceItem(c)) && Some(s) != skip
    requires loop != [] && Chain(g, loop) && loop[|loop| - 1] == SymItem(s) && (Hits(g, SymItem(s), loop[0]) || loop[0] == SymItem(s))
    ensures ChoiceExplains(g, c, skip, FoundLoop(loop, ChoiceItem(c)))
  {
    if loop[0] == ChoiceItem(c) {
      HitsOwner(g, SymItem(s), ChoiceItem(c));
      assert SymItem(s) in loop && ChoiceItem(c) in loop;
    }
  }

  lemma {:induction false} SymExplained(g: Graph, m: Marks, s: nat, ignoreChoice: bool)
    requires g.Proper() && s < |g.deps|
    ensures
      var v := VisitSym(g, m, s, ignoreChoice);
      && Explained(g, SymItem(s), v.out, true)
      && (v.out.Partial? ==> if At(m, SymItem(s)) == 1 then v.out.loop[0] == SymItem(s)
                             else ignoreChoice ==> Hits(g, SymItem(s), v.out.loop[0]))
    decreases |Unvisited(g, m)|, 0, 2
  {
    if At(m, SymItem(s)) == 0 {
      UnvisitedShrinks(g, m, m[SymItem(s) := 1]);
      DepsExplained(g, m[SymItem(s) := 1], s, 0);
      var v := VisitDeps(g, m[SymItem(s) := 1], s, 0);
      if v.out.NoLoop? && g.choiceOf[s].Some? && !ignoreChoice {
        var c := g.choiceOf[s].value;
        UnvisitedShrinks(g, m, v.marks);
        ChoiceExplained(g, v.marks, c, Some(s));
        if VisitChoice(g, v.marks, c, Some(s)).out.Partial? {
          FoundViaChoice(g, s, c, VisitChoice(g, v.marks, c, Some(s)).out);
        }
      }
    }
  }

  lemma {:induction false} DepsExplained(g: Graph, m: Marks, s: nat, i: nat)
    requires g.Proper() && s < |g.deps| && i <= |g.deps[s]| && At(m, SymItem(s)) == 1
    ensures Explained(g, SymItem(s), VisitDeps(g, m, s, i).out, false)
    decreases |Unvisited(g, m)|, 1, |g.deps[s]| - i
  {
    if i < |g.deps[s]| {
      var y := g.deps[s][i];
      ItemExplained(g, m, y);
      var v := VisitItem(g, m, y);
      if v.out.NoLoop? {
        UnvisitedShrinks(g, m, v.marks);
        DepsExplained(g, v.marks, s, i + 1);
      } else if v.out.Partial? {
        FoundViaDependent(g, s, y, v.out.loop);
      }
    }
  }

  lemma {:induction false} ItemExplained(g: Graph, m: Marks, x: Item)
    requires g.Proper() && g.Has(x)
    ensures Explained(g, x, VisitItem(g, m, x).out, true)
    decreases |Unvisited(g, m)|, 0, 3
  {
    match x
    case SymItem(t) => SymExplained(g, m, t, false);
    case ChoiceItem(c) =>
      ChoiceExplained(g, m, c, None);
      var out := VisitChoice(g, m, c, None).out;
      if out.Partial? && out.loop[0] != x {
        ChoiceHits(g, c, None, out.loop[0]);
      }
  }

  lemma {:induction false} ChoiceExplained(g: Graph, m: Marks, c: nat, skip: Option<nat>)
    requires g.Proper() && c < |g.members|
    ensures ChoiceExplains(g, c, skip, VisitChoice(g, m, c, skip).out)
    decreases |Unvisited(g, m)|, 0, 2
  {
    if At(m, ChoiceItem(c)) == 0 {
      UnvisitedShrinks(g, m, m[ChoiceItem(c) := 1]);
      MembersExplained(g, m[ChoiceItem(c) := 1], c, skip, 0);
    }
  }

  lemma {:induction false} MembersExplained(g: Graph, m: Marks, c: nat, skip: Option<nat>, i: nat)
    requires g.Proper() && c < |g.members| && i <= |g.members[c]| && At(m, ChoiceItem(c)) == 1
    ensures ChoiceExplains(g, c, skip, VisitMembers(g, m, c, skip, i).out)
    decreases |Unvisited(g, m)|, 1, |g.members[c]| - i
  {
    if i < |g.members[c]| {
      var s := g.members[c][i];
      if Some(s) == skip {
        MembersExplained(g, m, c, skip, i + 1);
      } else {
        SymExplained(g, m, s, true);
        var v := VisitSym(g, m, s, true);
        if v.out.NoLoop? {
          UnvisitedShrinks(g, m, v.marks);
          MembersExplained(g, v.marks, c, skip, i + 1);
        } else if v.out.Partial? {
          FoundViaMember(g, s, c, skip, v.out.loop);
        }
      }
    }
  }

  // Whenever the search raises, the items it reports do form a loop, and the value of one of them
  // depends on itself over recorded dependencies: the loop is never made of choice membership alone.
  lemma {:induction false} ReportedLoopIsGenuine(g: Graph, m: Marks, s: nat)
    requires g.Proper() && s <= |g.deps|
    ensures CheckFrom(g, m, s).out.Raised? ==> Genuine(g, CheckFrom(g, m, s).out.loop)
    decreases |g.deps| - s
  {
    if s < |g.deps| {
      SymExplained(g, m, s, false);
      var v := VisitSym(g, m, s, false);
      if v.out.NoLoop? {
        ReportedLoopIsGenuine(g, v.marks, s + 1);
      }
    }
  }
}
