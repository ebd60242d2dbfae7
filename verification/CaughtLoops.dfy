// The loops that the search for dependency loops never misses: those that it can follow all the way,
// and those through two symbols of a choice that it comes to in the right order.
module CaughtLoops {
  import opened Basics
  import opened CacheState
  import opened LoopCheck
  import opened LoopExactness

  // ---- loops that are followed all the way ----

  // The search goes on from every item of p to the next one.
  ghost predicate Followed(g: Graph, p: seq<Item>) { forall i: nat :: i < |p| - 1 ==> Next(g, p[i], p[i + 1]) }

  // A loop that never goes from one symbol of a choice to another over the choice, and never from a
  // choice to anything but its symbols, is reported, in whatever order things are visited.
  lemma {:induction false} FollowedLoopIsCaught(g: Graph, p: seq<Item>)
    requires g.Proper() && |p| >= 2 && p[0] == p[|p| - 1] && Followed(g, p)
    ensures Check(g).Raised?
  {
    NeverLeftover(g);
    if Check(g).NoLoop? {
      assert Ordered(g, map[], []);
      var order := AllOrdered(g, map[], 0, []);
      FollowedWalkIsOpen(g, CheckFrom(g, map[], 0).marks, order, p);
    }
  }

  // ---- a crossing, at the time its first symbol is visited ----

  // s and t are different symbols of choice c.
  predicate Pair(g: Graph, c: nat, s: nat, t: nat) {
    s != t && c < |g.members| && s < |g.choiceOf| == |g.deps| && t < |g.choiceOf| && g.choiceOf[s] == g.choiceOf[t] == Some(c)
  }

  // s is being visited, and neither t nor the choice is done.
  predicate Pending(g: Graph, m: Marks, c: nat, s: nat, t: nat) {
    Pair(g, c, s, t) && At(m, SymItem(s)) == 1 && At(m, ChoiceItem(c)) != 2 && At(m, SymItem(t)) != 2
  }

  // A visit to the choice meets s again.
  lemma {:induction false} MeetsSymbol(g: Graph, m: Marks, c: nat, skip: Option<nat>, i: nat, j: nat)
    requires g.Proper() && c < |g.members| && i <= j < |g.members[c]| && At(m, ChoiceItem(c)) == 1
    requires At(m, SymItem(g.members[c][j])) == 1 && Some(g.members[c][j]) != skip
    ensures !VisitMembers(g, m, c, skip, i).out.NoLoop?
    decreases j - i
  {
    if i < j {
      if Some(g.members[c][i]) == skip {
        MeetsSymbol(g, m, c, skip, i + 1, j);
      } else if VisitSym(g, m, g.members[c][i], true).out.NoLoop? {
        MeetsSymbol(g, VisitSym(g, m, g.members[c][i], true).marks, c, skip, i + 1, j);
      }
    }
  }

  lemma {:induction false} SymKeepsPending(g: Graph, m: Marks, x: nat, ignoreChoice: bool, c: nat, s: nat, t: nat)
    requires g.Proper() && x < |g.deps| && Pending(g, m, c, s, t) && (ignoreChoice ==> x != t)
    requires VisitSym(g, m, x, ignoreChoice).out.NoLoop?
    ensures Pending(g, VisitSym(g, m, x, ignoreChoice).marks, c, s, t)
    decreases |Unvisited(g, m)|, 0, 1
  {
    if At(m, SymItem(x)) == 0 {
      var m1 := m[SymItem(x) := 1];
      UnvisitedShrinks(g, m, m1);
      DepsKeepPending(g, m1, x, 0, c, s, t);
      var v := VisitDeps(g, m1, x, 0);
      if g.choiceOf[x].Some? && !ignoreChoice {
        UnvisitedShrinks(g, m, v.marks);
        ChoiceKeepsPending(g, v.marks, g.choiceOf[x].value, Some(x), c, s, t);
      }
    }
  }

  lemma {:induction false} DepsKeepPending(g: Graph, m: Marks, x: nat, i: nat, c: nat, s: nat, t: nat)
    requires g.Proper() && x < |g.deps| && i <= |g.deps[x]| && At(m, SymItem(x)) == 1 && Pending(g, m, c, s, t)
    requires VisitDeps(g, m, x, i).out.NoLoop?
    ensures Pending(g, VisitDeps(g, m, x, i).marks, c, s, t)
    decreases |Unvisited(g, m)|, 1, |g.deps[x]| - i
  {
    if i < |g.deps[x]| {
      var v := VisitItem(g, m, g.deps[x][i]);
      match g.deps[x][i] {
        case SymItem(y) => SymKeepsPending(g, m, y, false, c, s, t);
        case ChoiceItem(d) => ChoiceKeepsPending(g, m, d, None, c, s, t);
      }
      UnvisitedShrinks(g, m, v.marks);
      DepsKeepPending(g, v.marks, x, i + 1, c, s, t);
    }
  }

  // A visit to the choice itself finds a loop, and any other one is done without.
  lemma {:induction false} ChoiceKeepsPending(g: Graph, m: Marks, d: nat, skip: Option<nat>, c: nat, s: nat, t: nat)
    requires g.Proper() && d < |g.members| && skip != Some(s) && Pending(g, m, c, s, t)
    requires VisitChoice(g, m, d, skip).out.NoLoop?
    ensures Pending(g, VisitChoice(g, m, d, skip).marks, c, s, t) && d != c
    decreases |Unvisited(g, m)|, 0, 1
  {
    if At(m, ChoiceItem(d)) == 0 {
      var m1 := m[ChoiceItem(d) := 1];
      UnvisitedShrinks(g, m, m1);
      if d == c {
        var j :| 0 <= j < |g.members[c]| && g.members[c][j] == s;
        MeetsSymbol(g, m1, c, skip, 0, j);
      } else {
        MembersKeepPending(g, m1, d, skip, 0, c, s, t);
      }
    }
  }

  lemma {:induction false} MembersKeepPending(g: Graph, m: Marks, d: nat, skip: Option<nat>, i: nat, c: nat, s: nat, t: nat)
    requires g.Proper() && d < |g.members| && i <= |g.members[d]| && At(m, ChoiceItem(d)) == 1 && d != c && Pending(g, m, c, s, t)
    requires VisitMembers(g, m, d, skip, i).out.NoLoop?
    ensures Pending(g, VisitMembers(g, m, d, skip, i).marks, c, s, t)
    decreases |Unvisited(g, m)|, 1, |g.members[d]| - i
  {
    if i < |g.members[d]| {
      if Some(g.members[d][i]) == skip {
        MembersKeepPending(g, m, d, skip, i + 1, c, s, t);
      } else {
        var v := VisitSym(g, m, g.members[d][i], true);
        SymKeepsPending(g, m, g.members[d][i], true, c, s, t);
        UnvisitedShrinks(g, m, v.marks);
        MembersKeepPending(g, v.marks, d, skip, i + 1, c, s, t);
      }
    }
  }

  // p leads from a dependent of s to t.
  ghost predicate Crossing(g: Graph, s: nat, p: seq<Item>, t: nat) {
    p != [] && Dependent(g, s, p[0]) && Followed(g, p) && p[|p| - 1] == SymItem(t)
  }

  lemma {:induction false} FollowedIsDone(g: Graph, m: Marks, order: seq<Item>, p: seq<Item>, i: nat)
    requires Ordered(g, m, order) && Followed(g, p) && i < |p| && At(m, p[0]) == 2
    ensures At(m, p[i]) == 2
  {
    if i > 0 {
      FollowedIsDone(g, m, order, p, i - 1);
      NextIsEarlier(g, m, order, p[i - 1], p[i]);
    }
  }

  // When s is first visited, whether as a symbol of its choice or not, and neither t nor the choice is
  // done, then a crossing from s to t is found.
  lemma {:induction false} CrossingIsSeen(g: Graph, m: Marks, order: seq<Item>, ignoreChoice: bool, c: nat, s: nat, t: nat, p: seq<Item>)
    requires g.Proper() && Ordered(g, m, order) && Pair(g, c, s, t) && Crossing(g, s, p, t)
    requires At(m, SymItem(s)) == 0 && At(m, ChoiceItem(c)) != 2 && At(m, SymItem(t)) != 2
    ensures !VisitSym(g, m, s, ignoreChoice).out.NoLoop?
  {
    var m1 := m[SymItem(s) := 1];
    var v := VisitDeps(g, m1, s, 0);
    if v.out.NoLoop? {
      SameDone(g, m, m1, order);
      DepsKeepPending(g, m1, s, 0, c, s, t);
      var order1 := DepsOrdered(g, m1, s, 0, order);
      FollowedIsDone(g, v.marks, order1, p, |p| - 1);
    }
  }

  // ---- what a visit can touch ----

  ghost predicate Trail(g: Graph, p: seq<Item>) { forall i: nat :: i < |p| - 1 ==> Edge(g, p[i], p[i + 1]) }

  // y can be visited in the course of a visit to x.
  ghost predicate Leads(g: Graph, x: Item, y: Item) { exists p :: p != [] && Trail(g, p) && p[0] == x && p[|p| - 1] == y }

  lemma {:induction false} LeadsToItself(g: Graph, x: Item)
    ensures Leads(g, x, x)
  {
    var p := [x];
    assert Trail(g, p) && p[0] == x && p[|p| - 1] == x;
  }

  lemma {:induction false} LeadsTrans(g: Graph, x: Item, y: Item, z: Item)
    requires Leads(g, x, y) && Leads(g, y, z)
    ensures Leads(g, x, z)
  {
    var p :| p != [] && Trail(g, p) && p[0] == x && p[|p| - 1] == y;
    var q :| q != [] && Trail(g, q) && q[0] == y && q[|q| - 1] == z;
    var r := p + q[1..];
    forall i: nat | i < |r| - 1 ensures Edge(g, r[i], r[i + 1]) {
      if i < |p| - 1 {
        assert Edge(g, p[i], p[i + 1]);
      } else {
        assert Edge(g, q[i - (|p| - 1)], q[i - (|p| - 1) + 1]);
      }
    }
    assert Trail(g, r) && r[0] == x && r[|r| - 1] == z;
  }

  lemma {:induction false} EdgeLeads(g: Graph, x: Item, y: Item)
    requires Edge(g, x, y)
    ensures Leads(g, x, y)
  {
    var p := [x, y];
    assert Trail(g, p) && p[0] == x && p[|p| - 1] == y;
  }

  // What a visit marks is what x leads to.
  ghost predicate Touches(g: Graph, m: Marks, m': Marks, x: Item) { forall y :: At(m', y) != At(m, y) ==> Leads(g, x, y) }

  lemma {:induction false} TouchesVia(g: Graph, m: Marks, m': Marks, x: Item, y: Item)
    requires Edge(g, x, y) && Touches(g, m, m', y)
    ensures Touches(g, m, m', x)
  {
    forall z | At(m', z) != At(m, z) ensures Leads(g, x, z) {
      EdgeLeads(g, x, y);
      LeadsTrans(g, x, y, z);
    }
  }

  lemma {:induction false} TouchesThen(g: Graph, m: Marks, m1: Marks, m': Marks, x: Item)
    requires Touches(g, m, m1, x) && Touches(g, m1, m', x)
    ensures Touches(g, m, m', x)
  {
    forall z | At(m', z) != At(m, z) ensures Leads(g, x, z) {
      assert At(m1, z) != At(m, z) || At(m', z) != At(m1, z);
    }
  }

  lemma {:induction false} TouchesItself(g: Graph, m: Marks, x: Item, mark: Mark)
    ensures Touches(g, m, m[x := mark], x)
  {
    LeadsToItself(g, x);
  }

  lemma {:induction false} SymTouches(g: Graph, m: Marks, s: nat, ignoreChoice: bool)
    requires g.Proper() && s < |g.deps|
    ensures Touches(g, m, VisitSym(g, m, s, ignoreChoice).marks, SymItem(s))
    decreases |Unvisited(g, m)|, 0, 1
  {
    var x := SymItem(s);
    if At(m, x) == 0 {
      var m1 := m[x := 1];
      UnvisitedShrinks(g, m, m1);
      TouchesItself(g, m, x, 1);
      DepsTouch(g, m1, s, 0);
      var v := VisitDeps(g, m1, s, 0);
      TouchesThen(g, m, m1, v.marks, x);
      var last := v.marks;
      if v.out.NoLoop? && g.choiceOf[s].Some? && !ignoreChoice {
        var c := g.choiceOf[s].value;
        UnvisitedShrinks(g, m, v.marks);
        ChoiceTouches(g, v.marks, c, Some(s));
        last := VisitChoice(g, v.marks, c, Some(s)).marks;
        TouchesVia(g, v.marks, last, x, ChoiceItem(c));
        TouchesThen(g, m, v.marks, last, x);
      }
      TouchesItself(g, last, x, 2);
      TouchesThen(g, m, last, last[x := 2], x);
    }
  }

  lemma {:induction false} DepsTouch(g: Graph, m: Marks, s: nat, i: nat)
    requires g.Proper() && s < |g.deps| && i <= |g.deps[s]| && At(m, SymItem(s)) == 1
    ensures Touches(g, m, VisitDeps(g, m, s, i).marks, SymItem(s))
    decreases |Unvisited(g, m)|, 1, |g.deps[s]| - i
  {
    if i < |g.deps[s]| {
      var y := g.deps[s][i];
      var v := VisitItem(g, m, y);
      match y {
        case SymItem(z) => SymTouches(g, m, z, false);
        case ChoiceItem(c) => ChoiceTouches(g, m, c, None);
      }
      TouchesVia(g, m, v.marks, SymItem(s), y);
      if v.out.NoLoop? {
        UnvisitedShrinks(g, m, v.marks);
        DepsTouch(g, v.marks, s, i + 1);
        TouchesThen(g, m, v.marks, VisitDeps(g, v.marks, s, i + 1).marks, SymItem(s));
      }
    }
  }

  lemma {:induction false} ChoiceTouches(g: Graph, m: Marks, c: nat, skip: Option<nat>)
    requires g.Proper() && c < |g.members|
    ensures Touches(g, m, VisitChoice(g, m, c, skip).marks, ChoiceItem(c))
    decreases |Unvisited(g, m)|, 0, 1
  {
    var x := ChoiceItem(c);
    if At(m, x) == 0 {
      var m1 := m[x := 1];
      UnvisitedShrinks(g, m, m1);
      TouchesItself(g, m, x, 1);
      MembersTouch(g, m1, c, skip, 0);
      var v := VisitMembers(g, m1, c, skip, 0);
      TouchesThen(g, m, m1, v.marks, x);
      TouchesItself(g, v.marks, x, 2);
      TouchesThen(g, m, v.marks, v.marks[x := 2], x);
    }
  }

  lemma {:induction false} MembersTouch(g: Graph, m: Marks, c: nat, skip: Option<nat>, i: nat)
    requires g.Proper() && c < |g.members| && i <= |g.members[c]| && At(m, ChoiceItem(c)) == 1
    ensures Touches(g, m, VisitMembers(g, m, c, skip, i).marks, ChoiceItem(c))
    decreases |Unvisited(g, m)|, 1, |g.members[c]| - i
  {
    if i < |g.members[c]| {
      if Some(g.members[c][i]) == skip {
        MembersTouch(g, m, c, skip, i + 1);
      } else {
        var y := g.members[c][i];
        var v := VisitSym(g, m, y, true);
        SymTouches(g, m, y, true);
        TouchesVia(g, m, v.marks, ChoiceItem(c), SymItem(y));
        if v.out.NoLoop? {
          UnvisitedShrinks(g, m, v.marks);
          MembersTouch(g, v.marks, c, skip, i + 1);
          TouchesThen(g, m, v.marks, VisitMembers(g, v.marks, c, skip, i + 1).marks, ChoiceItem(c));
        }
      }
    }
  }

  // ---- a crossing, by the order of the symbols ----

  // Only what the first r symbols lead to has been visited.
  ghost predicate OnlyFrom(g: Graph, m: Marks, r: nat) { forall y :: At(m, y) != 0 ==> exists q: nat :: q < r && Leads(g, SymItem(q), y) }

  // None of the first r symbols leads to y.
  ghost predicate NotBefore(g: Graph, r: nat, y: Item) { forall q: nat :: q < r ==> !Leads(g, SymItem(q), y) }

  lemma {:induction false} FollowedLeads(g: Graph, p: seq<Item>)
    requires g.Proper() && p != [] && Followed(g, p)
    ensures Leads(g, p[0], p[|p| - 1])
  {
    forall i: nat | i < |p| - 1 ensures Edge(g, p[i], p[i + 1]) {
      assert Next(g, p[i], p[i + 1]);
    }
    assert Trail(g, p);
  }

  lemma {:induction false} UntouchedBefore(g: Graph, m: Marks, r: nat, x: Item, y: Item)
    requires OnlyFrom(g, m, r) && NotBefore(g, r, y) && Leads(g, x, y)
    ensures At(m, x) == 0
  {
    if At(m, x) != 0 {
      var q: nat :| q < r && Leads(g, SymItem(q), x);
      LeadsTrans(g, SymItem(q), x, y);
    }
  }

  lemma {:induction false} TurnIsHere(g: Graph, m: Marks, order: seq<Item>, c: nat, s: nat, t: nat, p: seq<Item>)
    requires g.Proper() && Pair(g, c, s, t) && Crossing(g, s, p, t) && NotBefore(g, s, SymItem(t))
    requires Ordered(g, m, order) && OnlyFrom(g, m, s)
    ensures !VisitSym(g, m, s, false).out.NoLoop?
  {
    FollowedLeads(g, p);
    EdgeLeads(g, SymItem(s), p[0]);
    LeadsTrans(g, SymItem(s), p[0], SymItem(t));
    EdgeLeads(g, ChoiceItem(c), SymItem(t));
    LeadsToItself(g, SymItem(t));
    UntouchedBefore(g, m, s, SymItem(s), SymItem(t));
    UntouchedBefore(g, m, s, ChoiceItem(c), SymItem(t));
    UntouchedBefore(g, m, s, SymItem(t), SymItem(t));
    CrossingIsSeen(g, m, order, false, c, s, t, p);
  }

  lemma {:induction false} TurnComes(g: Graph, m: Marks, order: seq<Item>, r: nat, c: nat, s: nat, t: nat, p: seq<Item>)
    requires g.Proper() && r <= s && Pair(g, c, s, t) && Crossing(g, s, p, t) && NotBefore(g, s, SymItem(t))
    requires Ordered(g, m, order) && OnlyFrom(g, m, r)
    ensures !CheckFrom(g, m, r).out.NoLoop?
    decreases s - r
  {
    var v := VisitSym(g, m, r, false);
    if r == s {
      TurnIsHere(g, m, order, c, s, t, p);
    } else if v.out.NoLoop? {
      var order1 := SymOrdered(g, m, r, false, order);
      OneMoreFrom(g, m, r);
      TurnComes(g, v.marks, order1, r + 1, c, s, t, p);
    }
  }

  lemma {:induction false} OneMoreFrom(g: Graph, m: Marks, r: nat)
    requires g.Proper() && r < |g.deps| && OnlyFrom(g, m, r)
    ensures OnlyFrom(g, VisitSym(g, m, r, false).marks, r + 1)
  {
    SymTouches(g, m, r, false);
    var m' := VisitSym(g, m, r, false).marks;
    forall y | At(m', y) != 0 ensures exists q: nat :: q < r + 1 && Leads(g, SymItem(q), y) {
      if At(m, y) == 0 {
        assert Leads(g, SymItem(r), y);
      } else {
        var q: nat :| q < r && Leads(g, SymItem(q), y);
      }
    }
  }

  // Symbol s of a choice leads to another symbol t of it, and no symbol before s in the order in which
  // they are defined leads to t: then the search reports a loop, whatever the order of the dependents
  // and of the symbols of the choice.
  lemma {:induction false} CrossingIsCaught(g: Graph, c: nat, s: nat, t: nat, p: seq<Item>)
    requires g.Proper() && Pair(g, c, s, t) && Crossing(g, s, p, t) && NotBefore(g, s, SymItem(t))
    ensures Check(g).Raised?
  {
    NeverLeftover(g);
    assert Ordered(g, map[], []);
    TurnComes(g, map[], [], 0, c, s, t, p);
  }
}
