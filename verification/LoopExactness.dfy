// How complete the search for dependency loops is: what its acceptance guarantees, a loop that it
// misses, and the condition under which acceptance means that there is none.
module LoopExactness {
  import opened Basics
  import opened CacheState
  import opened LoopCheck

  // ---- acceptance gives an order ----

  // What comes after x in the search, other than the choice of a symbol.
  predicate Next(g: Graph, x: Item, y: Item) {
    match x
    case SymItem(s) => Dependent(g, s, y)
    case ChoiceItem(c) => c < |g.members| && y.SymItem? && y.s in g.members[c]
  }

  ghost predicate After(g: Graph, order: seq<Item>, i: nat)
    requires i < |order|
  {
    forall y :: Next(g, order[i], y) ==> y in order[..i]
  }

  // order lists the items that are done, each after everything that comes next from it.
  ghost predicate Ordered(g: Graph, m: Marks, order: seq<Item>) {
    && (forall x :: x in order <==> At(m, x) == 2)
    && (forall i: nat :: i < |order| ==> After(g, order, i))
  }

  ghost predicate AllNextDone(g: Graph, m: Marks, x: Item) { forall y :: Next(g, x, y) ==> At(m, y) == 2 }

  lemma {:induction false} OneMoreDone(g: Graph, m: Marks, order: seq<Item>, x: Item)
    requires Ordered(g, m, order) && AllNextDone(g, m, x)
    ensures Ordered(g, m[x := 2], order + [x])
  {
    var order' := order + [x];
    forall i: nat | i < |order'| ensures After(g, order', i) {
      assert order'[..i] == order[..i];
      if i < |order| {
        assert After(g, order, i);
      } else {
        assert order[..i] == order;
      }
    }
  }

  // Starting and abandoning visits does not change what is done.
  lemma {:induction false} SameDone(g: Graph, m: Marks, m': Marks, order: seq<Item>)
    requires Ordered(g, m, order) && forall x :: At(m', x) == 2 <==> At(m, x) == 2
    ensures Ordered(g, m', order)
  {
  }

  lemma {:induction false} SymOrdered(g: Graph, m: Marks, s: nat, ignoreChoice: bool, order: seq<Item>) returns (order': seq<Item>)
    requires g.Proper() && s < |g.deps| && Ordered(g, m, order)
    requires VisitSym(g, m, s, ignoreChoice).out.NoLoop?
    ensures Ordered(g, VisitSym(g, m, s, ignoreChoice).marks, order') && At(VisitSym(g, m, s, ignoreChoice).marks, SymItem(s)) == 2
    decreases |Unvisited(g, m)|, 0, 0
  {
    if At(m, SymItem(s)) == 2 {
      return order;
    }
    var m1 := m[SymItem(s) := 1];
    UnvisitedShrinks(g, m, m1);
    SameDone(g, m, m1, order);
    var order1 := DepsOrdered(g, m1, s, 0, order);
    var v := VisitDeps(g, m1, s, 0);
    assert AllNextDone(g, v.marks, SymItem(s)) by {
      forall y | Next(g, SymItem(s), y) ensures At(v.marks, y) == 2 {
        var i: nat :| i < |g.deps[s]| && g.deps[s][i] == y;
      }
    }
    if g.choiceOf[s].None? || ignoreChoice {
      OneMoreDone(g, v.marks, order1, SymItem(s));
      order' := order1 + [SymItem(s)];
    } else {
      UnvisitedShrinks(g, m, v.marks);
      order' := OwnChoiceOrdered(g, v.marks, s, order1);
    }
  }

  // A symbol whose dependents are done enters its choice and then is done itself: in the order, the
  // choice comes right after it.
  lemma {:induction false} OwnChoiceOrdered(g: Graph, m: Marks, s: nat, order: seq<Item>) returns (order': seq<Item>)
    requires g.Proper() && s < |g.deps| && g.choiceOf[s].Some? && Ordered(g, m, order)
    requires At(m, SymItem(s)) == 1 && AllNextDone(g, m, SymItem(s))
    requires VisitChoice(g, m, g.choiceOf[s].value, Some(s)).out.NoLoop?
    ensures Ordered(g, VisitChoice(g, m, g.choiceOf[s].value, Some(s)).marks[SymItem(s) := 2], order')
    decreases |Unvisited(g, m)|, 0, 0
  {
    var c := g.choiceOf[s].value;
    if At(m, ChoiceItem(c)) == 2 {
      OneMoreDone(g, m, order, SymItem(s));
      return order + [SymItem(s)];
    }
    var m1 := m[ChoiceItem(c) := 1];
    UnvisitedShrinks(g, m, m1);
    SameDone(g, m, m1, order);
    var order1 := MembersOrdered(g, m1, c, Some(s), 0, order);
    var v := VisitMembers(g, m1, c, Some(s), 0);
    OneMoreDone(g, v.marks, order1, SymItem(s));
    assert AllNextDone(g, v.marks[SymItem(s) := 2], ChoiceItem(c)) by {
      forall y | Next(g, ChoiceItem(c), y) && y != SymItem(s) ensures At(v.marks, y) == 2 {
        var i: nat :| i < |g.members[c]| && g.members[c][i] == y.s;
      }
    }
    OneMoreDone(g, v.marks[SymItem(s) := 2], order1 + [SymItem(s)], ChoiceItem(c));
    assert v.marks[ChoiceItem(c) := 2][SymItem(s) := 2] == v.marks[SymItem(s) := 2][ChoiceItem(c) := 2];
    order' := order1 + [SymItem(s)] + [ChoiceItem(c)];
  }

  lemma {:induction false} DepsOrdered(g: Graph, m: Marks, s: nat, i: nat, order: seq<Item>) returns (order': seq<Item>)
    requires g.Proper() && s < |g.deps| && i <= |g.deps[s]| && At(m, SymItem(s)) == 1 && Ordered(g, m, order)
    requires VisitDeps(g, m, s, i).out.NoLoop?
    ensures Ordered(g, VisitDeps(g, m, s, i).marks, order')
    ensures forall j: nat :: i <= j < |g.deps[s]| ==> At(VisitDeps(g, m, s, i).marks, g.deps[s][j]) == 2
    decreases |Unvisited(g, m)|, 1, |g.deps[s]| - i
  {
    if i == |g.deps[s]| {
      return order;
    }
    var v := VisitItem(g, m, g.deps[s][i]);
    var order1 := ItemOrdered(g, m, g.deps[s][i], order);
    UnvisitedShrinks(g, m, v.marks);
    order' := DepsOrdered(g, v.marks, s, i + 1, order1);
  }

  lemma {:induction false} ItemOrdered(g: Graph, m: Marks, x: Item, order: seq<Item>) returns (order': seq<Item>)
    requires g.Proper() && g.Has(x) && Ordered(g, m, order) && VisitItem(g, m, x).out.NoLoop?
    ensures Ordered(g, VisitItem(g, m, x).marks, order') && At(VisitItem(g, m, x).marks, x) == 2
    decreases |Unvisited(g, m)|, 0, 1
  {
    match x
    case SymItem(s) => order' := SymOrdered(g, m, s, false, order);
    case ChoiceItem(c) =>
      if At(m, x) == 2 {
        return order;
      }
      var m1 := m[x := 1];
      UnvisitedShrinks(g, m, m1);
      SameDone(g, m, m1, order);
      var order1 := MembersOrdered(g, m1, c, None, 0, order);
      var v := VisitMembers(g, m1, c, None, 0);
      assert AllNextDone(g, v.marks, x) by {
        forall y | Next(g, x, y) ensures At(v.marks, y) == 2 {
          var i: nat :| i < |g.members[c]| && g.members[c][i] == y.s;
        }
      }
      OneMoreDone(g, v.marks, order1, x);
      order' := order1 + [x];
  }

  lemma {:induction false} MembersOrdered(g: Graph, m: Marks, c: nat, skip: Option<nat>, i: nat, order: seq<Item>) returns (order': seq<Item>)
    requires g.Proper() && c < |g.members| && i <= |g.members[c]| && At(m, ChoiceItem(c)) == 1 && Ordered(g, m, order)
    requires VisitMembers(g, m, c, skip, i).out.NoLoop?
    ensures Ordered(g, VisitMembers(g, m, c, skip, i).marks, order')
    ensures forall j: nat :: i <= j < |g.members[c]| && Some(g.members[c][j]) != skip ==>
              At(VisitMembers(g, m, c, skip, i).marks, SymItem(g.members[c][j])) == 2
    decreases |Unvisited(g, m)|, 1, |g.members[c]| - i
  {
    if i == |g.members[c]| {
      return order;
    }
    if Some(g.members[c][i]) == skip {
      order' := MembersOrdered(g, m, c, skip, i + 1, order);
    } else {
      var v := VisitSym(g, m, g.members[c][i], true);
      var order1 := SymOrdered(g, m, g.members[c][i], true, order);
      UnvisitedShrinks(g, m, v.marks);
      order' := MembersOrdered(g, v.marks, c, skip, i + 1, order1);
    }
  }

  lemma {:induction false} AllOrdered(g: Graph, m: Marks, s: nat, order: seq<Item>) returns (order': seq<Item>)
    requires g.Proper() && s <= |g.deps| && Ordered(g, m, order) && CheckFrom(g, m, s).out.NoLoop?
    requires forall t: nat :: t < s ==> At(m, SymItem(t)) == 2
    ensures Ordered(g, CheckFrom(g, m, s).marks, order')
    ensures forall t: nat :: t < |g.deps| ==> SymItem(t) in order'
    decreases |g.deps| - s
  {
    if s == |g.deps| {
      return order;
    }
    var order1 := SymOrdered(g, m, s, false, order);
    order' := AllOrdered(g, VisitSym(g, m, s, false).marks, s + 1, order1);
  }

  // ---- what acceptance rules out ----

  // y is reached by starting from a dependent of x itself.
  ghost predicate Route(g: Graph, x: Item, p: seq<Item>, y: Item) {
    p != [] && Recorded(g, x, p[0]) && Walk(g, p) && p[|p| - 1] == y
  }

  ghost predicate LeadsTo(g: Graph, x: Item, y: Item) { exists p :: Route(g, x, p, y) }

  predicate Siblings(g: Graph, x: Item, y: Item) { x != y && ClassOf(g, x).SymbolsOf? && Same(g, x, y) }

  // No symbol of a choice leads to another symbol of the same choice.
  ghost predicate NoCrossing(g: Graph) { forall x, y :: Siblings(g, x, y) ==> !LeadsTo(g, x, y) }

  // y is recorded as a dependent of choice c, and is not a symbol of it: something else inside it.
  predicate Outsider(g: Graph, c: nat, y: Item) { Recorded(g, ChoiceItem(c), y) && !Owner(g, y, ChoiceItem(c)) }

  // Nothing inside a choice other than its symbols leads back to the choice.
  ghost predicate NoReturn(g: Graph) { forall c: nat, y :: Outsider(g, c, y) ==> y != ChoiceItem(c) && !Reaches(g, y, ChoiceItem(c)) }

  function First(order: seq<Item>, x: Item): (i: nat)
    requires x in order
    ensures i < |order| && order[i] == x && x !in order[..i]
  {
    if order[0] == x then 0
    else
      assert order[0..][1..] == order[1..];
      var i := First(order[1..], x);
      assert order[..i + 1] == [order[0]] + order[1..][..i];
      i + 1
  }

  lemma {:induction false} FirstIsLeast(order: seq<Item>, x: Item, j: nat)
    requires j < |order| && order[j] == x
    ensures First(order, x) <= j
  {
    if order[0] != x {
      FirstIsLeast(order[1..], x, j - 1);
    }
  }

  lemma {:induction false} NextIsEarlier(g: Graph, m: Marks, order: seq<Item>, x: Item, y: Item)
    requires Ordered(g, m, order) && x in order && Next(g, x, y)
    ensures y in order && First(order, y) < First(order, x)
  {
    var i := First(order, x);
    assert After(g, order, i);
    var j :| 0 <= j < i && order[j] == y;
    FirstIsLeast(order, y, j);
  }

  // The walk p, closed, turned to start at p[i + 1] and end at p[i].
  lemma {:induction false} Turned(g: Graph, p: seq<Item>, i: nat) returns (r: seq<Item>)
    requires Walk(g, p) && |p| >= 2 && p[0] == p[|p| - 1] && i < |p| - 1
    ensures |r| == |p| - 1 && Walk(g, r) && r[0] == p[i + 1] && r[|r| - 1] == p[i]
  {
    r := p[i + 1..] + p[1..i + 1];
    forall j | 0 <= j < |r| - 1 ensures Step(g, r[j], r[j + 1]) {
      if j < |p| - i - 2 {
        assert Step(g, p[i + 1 + j], p[i + 2 + j]);
      } else {
        var k := j - (|p| - i - 2);
        assert Step(g, p[k], p[k + 1]) && r[j] == p[k] && r[j + 1] == p[k + 1];
      }
    }
  }

  lemma {:induction false} OwnedIsNext(g: Graph, x: Item, y: Item)
    requires g.Proper()
    ensures Owner(g, y, x) ==> Next(g, x, y)
  {
  }

  // A step of a closed walk that the search does not follow is a crossing or a return.
  lemma {:induction false} UnfollowedStep(g: Graph, p: seq<Item>, i: nat)
    requires g.Proper() && Walk(g, p) && |p| >= 2 && p[0] == p[|p| - 1] && i < |p| - 1 && !Next(g, p[i], p[i + 1])
    ensures !(NoCrossing(g) && NoReturn(g))
  {
    var x, y := p[i], p[i + 1];
    assert Step(g, x, y);
    var x' :| Same(g, x', x) && Recorded(g, x', y);
    var r := Turned(g, p, i);
    if x' != x {
      assert Route(g, x', r, x);
      assert LeadsTo(g, x', x) && Siblings(g, x', x);
    } else {
      OwnedIsNext(g, x, y);
      assert Outsider(g, x.c, y);
      if y != x {
        assert |r| >= 2;
        assert WalkTo(g, y, r, x);
      }
    }
  }

  // A walk along which the search would follow every step comes to earlier and earlier items.
  lemma {:induction false} FollowedWalkDescends(g: Graph, m: Marks, order: seq<Item>, p: seq<Item>, i: nat)
    requires Ordered(g, m, order) && i < |p| && p[0] in order && forall j: nat :: j < i ==> Next(g, p[j], p[j + 1])
    ensures p[i] in order && (i > 0 ==> First(order, p[i]) < First(order, p[0]))
  {
    if i > 0 {
      FollowedWalkDescends(g, m, order, p, i - 1);
      NextIsEarlier(g, m, order, p[i - 1], p[i]);
    }
  }

  lemma {:induction false} NextOfAnyIsDone(g: Graph, m: Marks, order: seq<Item>, x: Item, y: Item)
    requires g.Proper() && Ordered(g, m, order) && Next(g, x, y) && forall t: nat :: t < |g.deps| ==> SymItem(t) in order
    ensures y in order
  {
    match x
    case SymItem(_) => NextIsEarlier(g, m, order, x, y);
    case ChoiceItem(c) => var i :| 0 <= i < |g.members[c]| && g.members[c][i] == y.s;
  }

  // A loop through x as a closed walk.
  lemma {:induction false} ClosedWalk(g: Graph, x: Item) returns (p: seq<Item>)
    requires Reaches(g, x, x)
    ensures |p| >= 2 && Walk(g, p) && p[0] == p[|p| - 1]
  {
    var q :| WalkTo(g, x, q, x);
    p := q[0 := q[|q| - 1]];
    forall i | 0 <= i < |p| - 1 ensures Step(g, p[i], p[i + 1]) {
      assert Step(g, q[i], q[i + 1]);
    }
  }

  // A closed walk along which the search would follow every step is impossible.
  lemma {:induction false} FollowedWalkIsOpen(g: Graph, m: Marks, order: seq<Item>, p: seq<Item>)
    requires g.Proper() && Ordered(g, m, order) && forall t: nat :: t < |g.deps| ==> SymItem(t) in order
    requires |p| >= 2 && p[0] == p[|p| - 1]
    ensures exists i: nat :: i < |p| - 1 && !Next(g, p[i], p[i + 1])
  {
    if forall i: nat :: i < |p| - 1 ==> Next(g, p[i], p[i + 1]) {
      NextOfAnyIsDone(g, m, order, p[|p| - 2], p[|p| - 1]);
      FollowedWalkDescends(g, m, order, p, |p| - 1);
    }
  }

  // An accepted graph has a dependency loop only if it has a crossing or a return.
  lemma {:induction false} LoopsLeft(g: Graph, x: Item)
    requires g.Proper() && Check(g).NoLoop? && Reaches(g, x, x)
    ensures !(NoCrossing(g) && NoReturn(g))
  {
    assert Ordered(g, map[], []);
    var order := AllOrdered(g, map[], 0, []);
    var p := ClosedWalk(g, x);
    FollowedWalkIsOpen(g, CheckFrom(g, map[], 0).marks, order, p);
    var i: nat :| i < |p| - 1 && !Next(g, p[i], p[i + 1]);
    UnfollowedStep(g, p, i);
  }

  lemma {:induction false} RouteReaches(g: Graph, x: Item, y: Item)
    requires LeadsTo(g, x, y)
    ensures Reaches(g, x, y)
  {
    var p :| Route(g, x, p, y);
    var q := [x] + p;
    forall i | 0 <= i < |q| - 1 ensures Step(g, q[i], q[i + 1]) {
      if i > 0 {
        assert Step(g, p[i - 1], p[i]);
      } else {
        assert Same(g, x, q[0]) && Recorded(g, x, q[1]);
      }
    }
    assert WalkTo(g, x, q, y);
  }

  lemma {:induction false} AcyclicCrossesNothing(g: Graph)
    requires Acyclic(g)
    ensures NoCrossing(g) && NoReturn(g)
  {
    forall x, y ensures !(Siblings(g, x, y) && LeadsTo(g, x, y)) {
      if Siblings(g, x, y) && LeadsTo(g, x, y) {
        RouteReaches(g, x, y);
        ReachesSame(g, x, x, y, x);
      }
    }
    forall c: nat, y ensures Outsider(g, c, y) ==> y != ChoiceItem(c) && !Reaches(g, y, ChoiceItem(c)) {
      if Outsider(g, c, y) {
        StepReaches(g, ChoiceItem(c), y);
        if Reaches(g, y, ChoiceItem(c)) {
          ReachesTrans(g, ChoiceItem(c), y, ChoiceItem(c));
        }
      }
    }
  }

  // Exactly two kinds of dependency loops are missed: those in which a symbol of a choice leads to
  // another symbol of the choice, and those in which something else inside a choice leads back to it.
  // There is no loop at all if and only if the search accepts and there is neither.
  lemma {:induction false} AcceptanceIsExact(g: Graph)
    requires g.Proper()
    ensures Acyclic(g) <==> Check(g).NoLoop? && NoCrossing(g) && NoReturn(g)
  {
    if Acyclic(g) {
      ReportedLoopIsGenuine(g, map[], 0);
      NeverLeftover(g);
      AcyclicCrossesNothing(g);
    } else if Check(g).NoLoop? {
      var x :| Reaches(g, x, x);
      LoopsLeft(g, x);
    }
  }

  // ---- loops that are missed ----

  // Symbol 0 is a condition of the choice of the symbols 1 and 2, and 1 depends on 2.
  const MISSED: Graph := Graph([[ChoiceItem(0)], [], [SymItem(1)]], [[SymItem(1), SymItem(2)]], [None, Some(0), Some(0)], [[1, 2]])

  // The same with the symbols of the choice the other way round.
  const CAUGHT: Graph := Graph([[ChoiceItem(0)], [], [SymItem(1)]], [[SymItem(1), SymItem(2)]], [None, Some(0), Some(0)], [[2, 1]])

  // Symbol 0 belongs to the choice. Symbol 1 is inside it without being a symbol of it, and is a
  // condition of the choice.
  const RETURNING: Graph := Graph([[], [ChoiceItem(0)]], [[SymItem(0), SymItem(1)]], [Some(0), None], [[0]])

  lemma {:induction false} FirstMissedVisit(g: Graph, m0: Marks)
    requires g == MISSED && m0 == map[SymItem(0) := 1, ChoiceItem(0) := 1]
    ensures g.Proper() && VisitSym(g, m0, 1, true) == Visit(m0[SymItem(1) := 2], NoLoop)
  {
    assert VisitDeps(g, m0[SymItem(1) := 1], 1, 0) == Visit(m0[SymItem(1) := 1], NoLoop);
    assert m0[SymItem(1) := 1][SymItem(1) := 2] == m0[SymItem(1) := 2];
  }

  // The visit to the choice: symbol 1 is done before symbol 2, which leads to it, is looked at.
  lemma {:induction false} MissedVisit(g: Graph, m0: Marks)
    requires g == MISSED && m0 == map[SymItem(0) := 1, ChoiceItem(0) := 1]
    ensures g.Proper() && VisitMembers(g, m0, 0, None, 0) == Visit(m0[SymItem(1) := 2][SymItem(2) := 2], NoLoop)
  {
    FirstMissedVisit(g, m0);
    var m1 := m0[SymItem(1) := 2];
    var m1' := m1[SymItem(2) := 1];
    assert VisitItem(g, m1', SymItem(1)) == Visit(m1', NoLoop);
    assert VisitDeps(g, m1', 2, 1) == Visit(m1', NoLoop);
    assert VisitDeps(g, m1', 2, 0) == Visit(m1', NoLoop);
    var m2 := m1[SymItem(2) := 2];
    assert m1'[SymItem(2) := 2] == m2;
    assert VisitSym(g, m1, 2, true) == Visit(m2, NoLoop);
    assert VisitMembers(g, m2, 0, None, 2) == Visit(m2, NoLoop);
    assert VisitMembers(g, m1, 0, None, 1) == Visit(m2, NoLoop);
  }

  lemma {:induction false} MissedStart(g: Graph, m: Marks, m4: Marks)
    requires g == MISSED && m == map[] && m4 == map[SymItem(0) := 2, ChoiceItem(0) := 2, SymItem(1) := 2, SymItem(2) := 2]
    ensures g.Proper() && VisitSym(g, m, 0, false) == Visit(m4, NoLoop)
  {
    var m' := m[SymItem(0) := 1];
    var m0 := m'[ChoiceItem(0) := 1];
    MissedVisit(g, m0);
    var m3 := m4[SymItem(0) := 1];
    assert m0[SymItem(1) := 2][SymItem(2) := 2][ChoiceItem(0) := 2] == m3;
    assert VisitItem(g, m', ChoiceItem(0)) == Visit(m3, NoLoop);
    assert VisitDeps(g, m3, 0, 1) == Visit(m3, NoLoop);
    assert VisitDeps(g, m', 0, 0) == Visit(m3, NoLoop);
    assert m3[SymItem(0) := 2] == m4;
  }

  lemma {:induction false} MissedRest(g: Graph, m: Marks, m4: Marks)
    requires g == MISSED && m == map[] && m4 == map[SymItem(0) := 2, ChoiceItem(0) := 2, SymItem(1) := 2, SymItem(2) := 2]
    ensures g.Proper() && CheckFrom(g, m, 0).out.NoLoop?
  {
    MissedStart(g, m, m4);
    assert CheckFrom(g, m4, 3) == Visit(m4, NoLoop);
    assert CheckFrom(g, m4, 2) == Visit(m4, NoLoop);
    assert CheckFrom(g, m4, 1) == Visit(m4, NoLoop);
  }

  // The loop from symbol 1 back to itself is accepted.
  lemma {:induction false} MissedLoop()
    ensures MISSED.Proper() && Check(MISSED).NoLoop? && Reaches(MISSED, SymItem(1), SymItem(1))
  {
    var g := MISSED;
    MissedRest(g, map[], map[SymItem(0) := 2, ChoiceItem(0) := 2, SymItem(1) := 2, SymItem(2) := 2]);
    assert g.deps[2][0] == SymItem(1);
    StepReaches(g, SymItem(2), SymItem(1));
    ReachesSame(g, SymItem(2), SymItem(1), SymItem(1), SymItem(1));
  }

  lemma {:induction false} ReturningVisits(g: Graph, m: Marks, m2: Marks)
    requires g == RETURNING && m == map[] && m2 == map[SymItem(0) := 2, ChoiceItem(0) := 2]
    ensures g.Proper() && VisitSym(g, m, 0, false) == Visit(m2, NoLoop)
  {
    var m1 := m[SymItem(0) := 1];
    assert VisitDeps(g, m1, 0, 0) == Visit(m1, NoLoop);
    ReturningChoice(g, m1);
    assert m1[ChoiceItem(0) := 2][SymItem(0) := 2] == m2;
  }

  lemma {:induction false} ReturningChoice(g: Graph, m: Marks)
    requires g == RETURNING && m == map[SymItem(0) := 1]
    ensures g.Proper() && VisitChoice(g, m, 0, Some(0)) == Visit(m[ChoiceItem(0) := 2], NoLoop)
  {
    var m' := m[ChoiceItem(0) := 1];
    assert VisitMembers(g, m', 0, Some(0), 1) == Visit(m', NoLoop);
    assert VisitMembers(g, m', 0, Some(0), 0) == Visit(m', NoLoop);
    assert m'[ChoiceItem(0) := 2] == m[ChoiceItem(0) := 2];
  }

  lemma {:induction false} ReturningRest(g: Graph, m: Marks, m2: Marks)
    requires g == RETURNING && m == map[] && m2 == map[SymItem(0) := 2, ChoiceItem(0) := 2]
    ensures g.Proper() && CheckFrom(g, m, 0).out.NoLoop?
  {
    ReturningVisits(g, m, m2);
    var m3 := m2[SymItem(1) := 1];
    assert VisitItem(g, m3, ChoiceItem(0)) == Visit(m3, NoLoop);
    assert VisitDeps(g, m3, 1, 1) == Visit(m3, NoLoop);
    assert VisitDeps(g, m3, 1, 0) == Visit(m3, NoLoop);
    var m4 := m3[SymItem(1) := 2];
    assert VisitSym(g, m2, 1, false) == Visit(m4, NoLoop);
    assert CheckFrom(g, m4, 2) == Visit(m4, NoLoop);
    assert CheckFrom(g, m2, 1) == Visit(m4, NoLoop);
  }

  // The loop from symbol 1 over the choice and back is accepted, without any crossing.
  lemma {:induction false} ReturningLoop()
    ensures RETURNING.Proper() && Check(RETURNING).NoLoop? && NoCrossing(RETURNING) && Reaches(RETURNING, SymItem(1), SymItem(1))
  {
    var g := RETURNING;
    ReturningRest(g, map[], map[SymItem(0) := 2, ChoiceItem(0) := 2]);
    assert g.deps[1][0] == ChoiceItem(0) && g.choiceDeps[0][1] == SymItem(1);
    StepReaches(g, SymItem(1), ChoiceItem(0));
    StepReaches(g, ChoiceItem(0), SymItem(1));
    ReachesTrans(g, SymItem(1), ChoiceItem(0), SymItem(1));
  }

  // The visit to symbol 1 while the choice is being visited.
  lemma {:induction false} CaughtVisit(g: Graph, m1: Marks, m2: Marks)
    requires g == CAUGHT && m1 == map[SymItem(0) := 1, ChoiceItem(0) := 1, SymItem(2) := 1] && m2 == m1[SymItem(1) := 1]
    ensures g.Proper() && VisitSym(g, m1, 1, false) == Visit(m2, Partial([ChoiceItem(0), SymItem(1)]))
  {
    assert VisitDeps(g, m2, 1, 0) == Visit(m2, NoLoop);
    assert VisitChoice(g, m2, 0, Some(1)) == Visit(m2, Partial([ChoiceItem(0)]));
  }

  // With the symbols in the other order it is reported.
  lemma {:induction false} CaughtLoop()
    ensures CAUGHT.Proper() && Check(CAUGHT).Raised?
  {
    var g := CAUGHT;
    var m0 := map[SymItem(0) := 1 as Mark][ChoiceItem(0) := 1];
    var m1 := m0[SymItem(2) := 1];
    var m2 := m1[SymItem(1) := 1];
    var loop := [ChoiceItem(0), SymItem(1), SymItem(2)];
    CaughtVisit(g, m1, m2);
    assert VisitDeps(g, m1, 2, 0) == Visit(m2, Partial(loop));
    assert VisitSym(g, m0, 2, true) == Visit(m2, Partial(loop));
    assert VisitMembers(g, m0, 0, None, 0) == Visit(m2, Raised(loop));
    assert VisitItem(g, map[SymItem(0) := 1 as Mark], ChoiceItem(0)) == Visit(m2, Raised(loop));
    assert VisitDeps(g, map[SymItem(0) := 1 as Mark], 0, 0) == Visit(m2, Raised(loop));
  }
}
