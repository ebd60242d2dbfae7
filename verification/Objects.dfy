// The Symbol and Choice objects, and _build_dep(): the loops that fill in their _dependents sets.
module Objects {
  import opened Basics
  import opened Model
  import opened CacheState

  class Symbol {
    var cachedVis: Option<Tri>
    var cachedTri: Option<Tri>
    var cachedStr: Option<string>
    var cachedAssignable: Option<seq<Tri>>
    var writeToConf: bool
    var userValue: Option<UserVal>
    var wasSet: bool
    var dependents: set<Item>

    ghost predicate Holds(e: SymEnt, a: Option<seq<Tri>>, write: bool, value: Option<UserVal>, set_: bool, deps: set<Item>)
      reads this
    {
      && e == SymEnt(cachedVis, cachedTri, cachedStr) && a == cachedAssignable && write == writeToConf
      && value == userValue && set_ == wasSet && deps == dependents
    }

    constructor ()
      ensures cachedVis.None? && cachedTri.None? && cachedStr.None? && cachedAssignable.None?
      ensures !writeToConf && userValue.None? && !wasSet && dependents == {}
    {
      cachedVis, cachedTri, cachedStr, cachedAssignable := None, None, None, None;
      writeToConf, userValue, wasSet, dependents := false, None, false, {};
    }
  }

  class Choice {
    var cachedVis: Option<Tri>
    var cachedSelection: Option<Option<nat>>
    var cachedAssignable: Option<seq<Tri>>
    var userValue: Option<Tri>
    var userSelection: Option<nat>
    var wasSet: bool
    var dependents: set<Item>

    ghost predicate Holds(e: ChoiceEnt, a: Option<seq<Tri>>, mode: Option<Tri>, sel: Option<nat>, set_: bool, deps: set<Item>)
      reads this
    {
      && e == ChoiceEnt(cachedVis, cachedSelection) && a == cachedAssignable
      && mode == userValue && sel == userSelection && set_ == wasSet && deps == dependents
    }

    constructor ()
      ensures cachedVis.None? && cachedSelection.None? && cachedAssignable.None?
      ensures userValue.None? && userSelection.None? && !wasSet && dependents == {}
    {
      cachedVis, cachedSelection, cachedAssignable := None, None, None;
      userValue, userSelection, wasSet, dependents := None, None, false, {};
    }
  }

  // Symbols and choices are distinct objects.
  ghost predicate Distinct(syms: seq<Symbol>, choices: seq<Choice>) {
    && (forall i, j :: 0 <= i < j < |syms| ==> syms[i] != syms[j])
    && (forall i, j :: 0 <= i < j < |choices| ==> choices[i] != choices[j])
  }

  ghost predicate InDependents(syms: seq<Symbol>, choices: seq<Choice>, x: Item, y: Item)
    reads syms, choices
  {
    match x
    case SymItem(s) => s < |syms| && y in syms[s].dependents
    case ChoiceItem(c) => c < |choices| && y in choices[c].dependents
  }

  predicate Exists(syms: seq<Symbol>, choices: seq<Choice>, x: Item) {
    match x
    case SymItem(s) => s < |syms|
    case ChoiceItem(c) => c < |choices|
  }

  // x._dependents.add(y)
  method AddDependent(syms: seq<Symbol>, choices: seq<Choice>, x: Item, y: Item)
    requires Distinct(syms, choices)
    modifies syms`dependents, choices`dependents
    ensures forall x', y' :: InDependents(syms, choices, x', y') <==>
              old(InDependents(syms, choices, x', y')) || (x' == x && y' == y && Exists(syms, choices, x))
  {
    match x
    case SymItem(s) => if s < |syms| { syms[s].dependents := syms[s].dependents + {y}; }
    case ChoiceItem(c) => if c < |choices| { choices[c].dependents := choices[c].dependents + {y}; }
  }

  // _make_depend_on(y, e)
  method MakeDependOn(syms: seq<Symbol>, choices: seq<Choice>, y: Item, e: Expr)
    requires Distinct(syms, choices)
    modifies syms`dependents, choices`dependents
    ensures forall x', y' :: InDependents(syms, choices, x', y') <==>
              old(InDependents(syms, choices, x', y')) || (x' in ExprItems(e) && y' == y && Exists(syms, choices, x'))
    decreases e
  {
    match e
    case Leaf(o) => if o.Sym? { AddDependent(syms, choices, SymItem(o.id), y); }
    case InChoice(c) => AddDependent(syms, choices, ChoiceItem(c), y);
    case And(l, r) => MakeDependOn(syms, choices, y, l); MakeDependOn(syms, choices, y, r);
    case Or(l, r) => MakeDependOn(syms, choices, y, l); MakeDependOn(syms, choices, y, r);
    case Not(x) => MakeDependOn(syms, choices, y, x);
    case Compare(_, l, r) =>
      if l.Sym? { AddDependent(syms, choices, SymItem(l.id), y); }
      if r.Sym? { AddDependent(syms, choices, SymItem(r.id), y); }
  }

  // x occurs in one of the first n properties of y.
  ghost predicate MentionedBefore(cfg: Config, y: Item, x: Item, n: nat) {
    exists i :: 0 <= i < n && i < |Properties(cfg, y)| && x in ExprItems(Properties(cfg, y)[i])
  }

  method DependOnProperties(syms: seq<Symbol>, choices: seq<Choice>, cfg: Config, y: Item)
    requires Distinct(syms, choices)
    modifies syms`dependents, choices`dependents
    ensures forall x', y' :: InDependents(syms, choices, x', y') <==>
              old(InDependents(syms, choices, x', y')) || (y' == y && Mentions(cfg, y, x') && Exists(syms, choices, x'))
  {
    var es := Properties(cfg, y);
    for n := 0 to |es|
      invariant forall x', y' :: InDependents(syms, choices, x', y') <==>
                  old(InDependents(syms, choices, x', y')) || (y' == y && MentionedBefore(cfg, y, x', n) && Exists(syms, choices, x'))
    {
      MakeDependOn(syms, choices, y, es[n]);
      forall x' ensures MentionedBefore(cfg, y, x', n + 1) <==> MentionedBefore(cfg, y, x', n) || x' in ExprItems(es[n]) {
        if x' in ExprItems(es[n]) {
          assert 0 <= n < n + 1;
        }
      }
    }
    forall x' ensures MentionedBefore(cfg, y, x', |es|) <==> Mentions(cfg, y, x') {
    }
  }

  // The items looked at when the first i symbols, and then the first j choices, are done.
  predicate Done(y: Item, i: nat, j: nat) {
    match y
    case SymItem(s) => s < i
    case ChoiceItem(c) => c < j
  }

  method BuildDep(syms: seq<Symbol>, choices: seq<Choice>, cfg: Config)
    requires Distinct(syms, choices)
    requires forall x, y :: !InDependents(syms, choices, x, y)
    modifies syms`dependents, choices`dependents
    ensures forall x, y :: InDependents(syms, choices, x, y) <==>
              Done(y, |syms|, |choices|) && Mentions(cfg, y, x) && Exists(syms, choices, x)
  {
    for i := 0 to |syms|
      invariant forall x, y :: InDependents(syms, choices, x, y) <==> Done(y, i, 0) && Mentions(cfg, y, x) && Exists(syms, choices, x)
    {
      DependOnProperties(syms, choices, cfg, SymItem(i));
    }
    for j := 0 to |choices|
      invariant forall x, y :: InDependents(syms, choices, x, y) <==> Done(y, |syms|, j) && Mentions(cfg, y, x) && Exists(syms, choices, x)
    {
      DependOnProperties(syms, choices, cfg, ChoiceItem(j));
    }
  }

  // y is a choice that x belongs to.
  predicate MemberOf(cfg: Config, x: Item, y: Item) {
    y.ChoiceItem? && x.SymItem? && x.s in cfg.C(y.c).members
  }

  method AddChoiceDeps(syms: seq<Symbol>, choices: seq<Choice>, cfg: Config)
    requires Distinct(syms, choices) && |choices| == |cfg.choices|
    modifies syms`dependents, choices`dependents
    ensures forall x, y :: InDependents(syms, choices, x, y) <==>
              old(InDependents(syms, choices, x, y)) || (MemberOf(cfg, x, y) && Exists(syms, choices, x))
  {
    for c := 0 to |choices|
      invariant forall x, y :: InDependents(syms, choices, x, y) <==>
                  old(InDependents(syms, choices, x, y)) || (MemberOf(cfg, x, y) && y.c < c && Exists(syms, choices, x))
    {
      label Before:
      var members := cfg.choices[c].members;
      for m := 0 to |members|
        invariant forall x, y :: InDependents(syms, choices, x, y) <==>
                    old@Before(InDependents(syms, choices, x, y)) || (y == ChoiceItem(c) && x.SymItem? && x.s in members[..m] && Exists(syms, choices, x))
      {
        AddDependent(syms, choices, SymItem(members[m]), ChoiceItem(c));
        assert members[..m + 1] == members[..m] + [members[m]];
      }
      assert members[..|members|] == members;
    }
  }

  ghost predicate BlankSymbol(o: Symbol)
    reads o
  {
    o.Holds(SymEnt(None, None, None), None, false, None, false, o.dependents)
  }

  ghost predicate BlankChoice(o: Choice)
    reads o
  {
    o.Holds(ChoiceEnt(None, None), None, None, None, false, o.dependents)
  }

  method MakeSymbols(n: nat) returns (ss: seq<Symbol>)
    ensures |ss| == n && fresh(ss)
    ensures forall i, j :: 0 <= i < j < |ss| ==> ss[i] != ss[j]
    ensures forall i :: 0 <= i < |ss| ==> BlankSymbol(ss[i]) && ss[i].dependents == {}
  {
    ss := [];
    while |ss| < n
      invariant |ss| <= n && fresh(ss)
      invariant forall i, j :: 0 <= i < j < |ss| ==> ss[i] != ss[j]
      invariant forall i :: 0 <= i < |ss| ==> BlankSymbol(ss[i]) && ss[i].dependents == {}
    {
      var o := new Symbol();
      ss := ss + [o];
    }
  }

  method MakeChoices(n: nat) returns (cs: seq<Choice>)
    ensures |cs| == n && fresh(cs)
    ensures forall i, j :: 0 <= i < j < |cs| ==> cs[i] != cs[j]
    ensures forall i :: 0 <= i < |cs| ==> BlankChoice(cs[i]) && cs[i].dependents == {}
  {
    cs := [];
    while |cs| < n
      invariant |cs| <= n && fresh(cs)
      invariant forall i, j :: 0 <= i < j < |cs| ==> cs[i] != cs[j]
      invariant forall i :: 0 <= i < |cs| ==> BlankChoice(cs[i]) && cs[i].dependents == {}
    {
      var o := new Choice();
      cs := cs + [o];
    }
  }

  // What mentions something exists.
  lemma {:induction false} MentioningExists(cfg: Config, y: Item, x: Item)
    requires Mentions(cfg, y, x)
    ensures Done(y, |cfg.syms|, |cfg.choices|)
  {
    var i :| 0 <= i < |Properties(cfg, y)| && x in ExprItems(Properties(cfg, y)[i]);
    assert ExprItems(NO) == {};
  }

  ghost predicate DependentsMatch(ss: seq<Symbol>, cs: seq<Choice>, cfg: Config, x: Item, y: Item)
    reads ss, cs
  {
    Exists(ss, cs, x) ==> (InDependents(ss, cs, x, y) <==> DependsOn(cfg, y, x))
  }

  method LinkObjects(ss: seq<Symbol>, cs: seq<Choice>, cfg: Config)
    requires Distinct(ss, cs) && |ss| == |cfg.syms| && |cs| == |cfg.choices|
    requires forall x, y :: !InDependents(ss, cs, x, y)
    modifies ss`dependents, cs`dependents
    ensures forall x, y :: DependentsMatch(ss, cs, cfg, x, y)
  {
    BuildDep(ss, cs, cfg);
    AddChoiceDeps(ss, cs, cfg);
    forall x, y ensures DependentsMatch(ss, cs, cfg, x, y) {
      if Mentions(cfg, y, x) {
        MentioningExists(cfg, y, x);
      }
    }
  }

  // The objects of a configuration that has just been read: no values, and in the _dependents of
  // every item exactly the items that depend on it.
  method MakeObjects(cfg: Config) returns (ss: seq<Symbol>, cs: seq<Choice>)
    ensures |ss| == |cfg.syms| && |cs| == |cfg.choices| && fresh(ss) && fresh(cs) && Distinct(ss, cs)
    ensures forall i :: 0 <= i < |ss| ==> BlankSymbol(ss[i])
    ensures forall i :: 0 <= i < |cs| ==> BlankChoice(cs[i])
    ensures forall s: nat, y :: s < |ss| ==> (DependsOn(cfg, y, SymItem(s)) <==> y in ss[s].dependents)
    ensures forall c: nat, y :: c < |cs| ==> (DependsOn(cfg, y, ChoiceItem(c)) <==> y in cs[c].dependents)
  {
    ss := MakeSymbols(|cfg.syms|);
    cs := MakeChoices(|cfg.choices|);
    LinkObjects(ss, cs, cfg);
    forall s: nat, y | s < |ss| ensures DependsOn(cfg, y, SymItem(s)) <==> y in ss[s].dependents {
      assert DependentsMatch(ss, cs, cfg, SymItem(s), y);
    }
    forall c: nat, y | c < |cs| ensures DependsOn(cfg, y, ChoiceItem(c)) <==> y in cs[c].dependents {
      assert DependentsMatch(ss, cs, cfg, ChoiceItem(c), y);
    }
  }
}
