// The lazy evaluator: Symbol and Choice objects whose cached values are computed on demand and
// cleared by a walk over the recorded dependents.
module Engine {
  import opened Basics
  import opened Model
  import opened Semantics
  import opened Dependencies
  import opened Evaluation
  import opened CacheState
  import opened Coherence
  import opened UserValues
  import opened Objects
  import opened Invalidation

  lemma {:induction false} GrownTrans(a: View, b: View, c: View)
    requires Grown(a, b) && Grown(b, c)
    ensures Grown(a, c)
  {
    forall q ensures LeqAt(a, c, q) {
      assert LeqAt(a, b, q) && LeqAt(b, c, q);
    }
  }

  lemma {:induction false} GrownRefl(a: View)
    ensures Grown(a, a)
  {
  }

  // ---- the rules for "first ... that ..." in terms of a searched prefix ----

  predicate NoneActive(k: View, conds: seq<Expr>, i: nat)
    requires i <= |conds|
  {
    forall j :: 0 <= j < i ==> k.Eval(conds[j]) == Some(0)
  }

  lemma {:induction false} NoneActiveGrows(k: View, k': View, conds: seq<Expr>, i: nat)
    requires i <= |conds| && Grown(k, k') && NoneActive(k, conds, i)
    ensures NoneActive(k', conds, i)
  {
    forall j | 0 <= j < i ensures k'.Eval(conds[j]) == Some(0) {
      EvalLeq(k, k', conds[j]);
    }
  }

  lemma {:induction false} FirstActiveFrom(k: View, conds: seq<Expr>, i: nat, n: nat)
    requires i <= n <= |conds| && NoneActive(k, conds, n)
    ensures k.FirstActive(conds, i) == k.FirstActive(conds, n)
    decreases n - i
  {
    if i < n {
      assert k.Eval(conds[i]) == Some(0);
      FirstActiveFrom(k, conds, i + 1, n);
    }
  }

  predicate NoneVisible(k: View, members: seq<nat>, i: nat)
    requires i <= |members|
  {
    forall j :: 0 <= j < i ==> k.env.S(members[j]).vis == Some(0)
  }

  lemma {:induction false} NoneVisibleGrows(k: View, k': View, members: seq<nat>, i: nat)
    requires i <= |members| && Grown(k, k') && NoneVisible(k, members, i)
    ensures NoneVisible(k', members, i)
  {
    forall j | 0 <= j < i ensures k'.env.S(members[j]).vis == Some(0) {
      assert LeqAt(k, k', SymVis(members[j]));
    }
  }

  lemma {:induction false} FirstVisibleFrom(k: View, members: seq<nat>, i: nat, n: nat)
    requires i <= n <= |members| && NoneVisible(k, members, n)
    ensures k.FirstVisible(members, i) == k.FirstVisible(members, n)
    decreases n - i
  {
    if i < n {
      assert k.env.S(members[i]).vis == Some(0);
      FirstVisibleFrom(k, members, i + 1, n);
    }
  }

  predicate Passed(k: View, d: ChoiceDefault) {
    k.Eval(d.cond) == Some(0) || (k.Eval(d.cond).Some? && k.env.S(d.sym).vis == Some(0))
  }

  predicate AllPassed(k: View, ds: seq<ChoiceDefault>, i: nat)
    requires i <= |ds|
  {
    forall j :: 0 <= j < i ==> Passed(k, ds[j])
  }

  lemma {:induction false} AllPassedGrows(k: View, k': View, ds: seq<ChoiceDefault>, i: nat)
    requires i <= |ds| && Grown(k, k') && AllPassed(k, ds, i)
    ensures AllPassed(k', ds, i)
  {
    forall j | 0 <= j < i ensures Passed(k', ds[j]) {
      EvalLeq(k, k', ds[j].cond);
      assert LeqAt(k, k', SymVis(ds[j].sym));
    }
  }

  lemma {:induction false} DefaultSelectionFrom(k: View, c: nat, i: nat, n: nat)
    requires i <= n <= |k.cfg.C(c).defaults| && AllPassed(k, k.cfg.C(c).defaults, n)
    ensures k.DefaultSelection(c, i) == k.DefaultSelection(c, n)
    decreases n - i
  {
    if i < n {
      assert Passed(k, k.cfg.C(c).defaults[i]);
      DefaultSelectionFrom(k, c, i + 1, n);
    }
  }

  class Kconfig {
    const cfg: Config
    ghost const rank: Ranking
    ghost const depsS: seq<set<Item>>
    ghost const depsC: seq<set<Item>>
    const syms: seq<Symbol>
    const choices: seq<Choice>
    ghost var st: State
    ghost var setS: seq<bool>
    ghost var setC: seq<bool>

    // ---- the objects and the value they represent ----

    ghost predicate Sized()
      reads this`st, this`setS, this`setC
    {
      |syms| == |cfg.syms| == |setS| == |depsS| && |choices| == |cfg.choices| == |setC| == |depsC| && Shaped(cfg, st)
    }

    ghost predicate SymLinked(s: nat)
      requires Sized()
      reads this, syms
    {
      s < |syms| ==> syms[s].Holds(st.env.syms[s], st.assignable[s], st.write[s], st.u.val[s], setS[s], depsS[s])
    }

    ghost predicate ChoiceLinked(c: nat)
      requires Sized()
      reads this, choices
    {
      c < |choices| ==> choices[c].Holds(st.env.choices[c], st.modes[c], st.u.mode[c], st.u.sel[c], setC[c], depsC[c])
    }

    predicate DifferentSyms(i: nat, j: nat) { i < j < |syms| ==> syms[i] != syms[j] }

    predicate DifferentChoices(i: nat, j: nat) { i < j < |choices| ==> choices[i] != choices[j] }

    ghost predicate Wired()
      reads this, syms, choices
    {
      && Sized()
      && (forall i: nat, j: nat :: DifferentSyms(i, j))
      && (forall i: nat, j: nat :: DifferentChoices(i, j))
      && (forall s: nat :: SymLinked(s))
      && (forall c: nat :: ChoiceLinked(c))
    }

    // _dependents is what _build_dep() and _add_choice_deps() left.
    ghost predicate DependentsRecorded() {
      && |depsS| == |cfg.syms| && |depsC| == |cfg.choices|
      && (forall s: nat, y :: s < |depsS| ==> (DependsOn(cfg, y, SymItem(s)) <==> y in depsS[s]))
      && (forall c: nat, y :: c < |depsC| ==> (DependsOn(cfg, y, ChoiceItem(c)) <==> y in depsC[c]))
    }

    ghost predicate Valid()
      reads this, syms, choices
    {
      && Wired()
      && Ranks(cfg, rank) && WellFormed(cfg) && DependentsRecorded()
      && UsersOk(cfg, st.u) && Coherent(cfg, st)
    }

    ghost function V(): View
      reads this`st
    {
      ViewOf(cfg, st)
    }

    ghost predicate Below(qs: set<Quantity>, b: nat) {
      forall q :: q in qs ==> InRange(cfg, q) && rank.of(q) < b
    }

    // A freshly read configuration: nothing cached and no user values, with the dependency graph
    // recorded on the objects.
    constructor (cfg: Config)
      requires WellFormed(cfg) && Evaluable(cfg)
      ensures Valid() && this.cfg == cfg
      ensures st.u == NoUsers(cfg)
      ensures fresh(syms) && fresh(choices)
    {
      var ss, cs := MakeObjects(cfg);
      this.cfg := cfg;
      syms, choices := ss, cs;
      depsS := seq(|ss|, s requires 0 <= s < |ss| reads ss => ss[s].dependents);
      depsC := seq(|cs|, c requires 0 <= c < |cs| reads cs => cs[c].dependents);
      ghost var r :| Ranks(cfg, r);
      rank := r;
      setS, setC := seq(|ss|, _ => false), seq(|cs|, _ => false);
      st := State(NoUsers(cfg), Env(seq(|ss|, _ => SymEnt(None, None, None)), seq(|cs|, _ => ChoiceEnt(None, None))),
                  seq(|ss|, _ => false), seq(|ss|, _ => None), seq(|cs|, _ => None));
      new;
      StartIsCoherent(cfg, st);
    }

    // ---- expressions ----

    method OperandTri(o: Operand, ghost b: nat) returns (v: Tri)
      requires Valid() && Below(TriRefs(cfg, o), b)
      modifies this`st, syms, choices
      ensures Valid() && Grown(old(V()), V())
      ensures V().TriOf(o) == Some(v)
      decreases b, 0
    {
      match o
      case Const(t) => v := t;
      case Text(_) => v := 0;
      case Sym(x) =>
        if cfg.Boolish(x) {
          assert SymTri(x) in TriRefs(cfg, o);
          v := SymTriValue(x);
        } else {
          v := 0;
        }
    }

    method OperandStr(o: Operand, ghost b: nat) returns (v: string)
      requires Valid() && Below(StrRefs(cfg, o), b)
      modifies this`st, syms, choices
      ensures Valid() && Grown(old(V()), V())
      ensures V().StrOf(o) == Some(v)
      decreases b, 0
    {
      match o
      case Const(t) => v := TriStr(t);
      case Text(name) => v := name;
      case Sym(x) =>
        if cfg.S(x).typ == Unknown {
          v := cfg.S(x).name;
        } else {
          assert SymStr(x) in StrRefs(cfg, o);
          v := SymStrValue(x);
        }
    }

    method OperandNum(o: Operand, ghost b: nat) returns (v: Option<int>)
      requires Valid() && Below(TriRefs(cfg, o) + StrRefs(cfg, o), b)
      modifies this`st, syms, choices
      ensures Valid() && Grown(old(V()), V())
      ensures V().NumOf(o) == Some(v)
      decreases b, 1
    {
      match o
      case Const(t) => v := Some(t);
      case Text(name) => v := cfg.num.parse(name, 0);
      case Sym(x) =>
        if cfg.Boolish(x) {
          assert SymTri(x) in TriRefs(cfg, o);
          var t := SymTriValue(x);
          v := Some(t);
        } else {
          var str := OperandStr(o, b);
          v := cfg.num.parse(str, Base(cfg.S(x).typ));
        }
    }

    method CompareText(l: Operand, r: Operand, ghost b: nat) returns (comp: int)
      requires Valid() && Below(StrRefs(cfg, l) + StrRefs(cfg, r), b)
      modifies this`st, syms, choices
      ensures Valid() && Grown(old(V()), V())
      ensures V().TextComparison(l, r) == Some(comp)
      decreases b, 1
    {
      var x := OperandStr(l, b);
      ghost var k := V();
      var y := OperandStr(r, b);
      StrOfLeq(k, V(), l);
      GrownTrans(old(V()), k, V());
      comp := StrCmp(x, y);
    }

    method CompareNumbers(l: Operand, r: Operand, ghost b: nat) returns (comp: Option<int>)
      requires Valid() && Below(TriRefs(cfg, l) + StrRefs(cfg, l) + TriRefs(cfg, r) + StrRefs(cfg, r), b)
      modifies this`st, syms, choices
      ensures Valid() && Grown(old(V()), V())
      ensures V().NumComparison(l, r) == Some(comp)
      decreases b, 2
    {
      var x := OperandNum(l, b);
      if x.None? {
        return None;
      }
      ghost var k := V();
      var y := OperandNum(r, b);
      NumOfLeq(k, V(), l);
      GrownTrans(old(V()), k, V());
      comp := if y.None? then None else Some(x.value - y.value);
    }

    method Compare(l: Operand, r: Operand, ghost b: nat) returns (comp: int)
      requires Valid() && Below(TriRefs(cfg, l) + StrRefs(cfg, l) + TriRefs(cfg, r) + StrRefs(cfg, r), b)
      modifies this`st, syms, choices
      ensures Valid() && Grown(old(V()), V())
      ensures V().Comparison(l, r) == Some(comp)
      decreases b, 3
    {
      if l.Sym? && cfg.S(l.id).typ == String && r.Sym? && cfg.S(r.id).typ == String {
        comp := CompareText(l, r, b);
        return;
      }
      var n := CompareNumbers(l, r, b);
      if n.Some? {
        return n.value;
      }
      ghost var k := V();
      comp := CompareText(l, r, b);
      NumOfLeq(k, V(), l);
      NumOfLeq(k, V(), r);
      GrownTrans(old(V()), k, V());
    }

    // expr_value()
    method ExprValue(e: Expr, ghost b: nat) returns (v: Tri)
      requires Valid() && Below(ExprRefs(cfg, e), b)
      modifies this`st, syms, choices
      ensures Valid() && Grown(old(V()), V())
      ensures V().Eval(e) == Some(v)
      decreases b, 4, e
    {
      match e
      case Leaf(o) => v := OperandTri(o, b);
      case InChoice(c) => v := ChoiceMode(c, b);
      case And(l, r) =>
        v := ExprValue(l, b);
        if v != 0 {
          ghost var k := V();
          var w := ExprValue(r, b);
          EvalLeq(k, V(), l);
          GrownTrans(old(V()), k, V());
          v := Min(v, w);
        }
      case Or(l, r) =>
        v := ExprValue(l, b);
        if v != 2 {
          ghost var k := V();
          var w := ExprValue(r, b);
          EvalLeq(k, V(), l);
          GrownTrans(old(V()), k, V());
          v := Max(v, w);
        }
      case Not(x) =>
        v := ExprValue(x, b);
        v := 2 - v;
      case Compare(rel, l, r) =>
        var comp := Compare(l, r, b);
        v := if Holds(rel, comp) then 2 else 0;
    }

    method PromptValue(es: seq<Expr>, ghost b: nat) returns (vis: Tri)
      requires Valid() && Below(ExprsRefs(cfg, es), b)
      modifies this`st, syms, choices
      ensures Valid() && Grown(old(V()), V())
      ensures V().MaxEval(es, |es|) == Some(vis)
      decreases b, 5
    {
      vis := 0;
      for i := 0 to |es|
        invariant Valid() && Grown(old(V()), V())
        invariant V().MaxEval(es, i) == Some(vis)
      {
        ghost var k := V();
        ExprsRefsAt(cfg, es, i);
        var v := ExprValue(es[i], b);
        MaxEvalLeq(k, V(), es, i);
        GrownTrans(old(V()), k, V());
        vis := Max(vis, v);
      }
    }

    method FindActive(conds: seq<Expr>, ghost b: nat) returns (first: Option<(nat, Tri)>)
      requires Valid() && Below(ExprsRefs(cfg, conds), b)
      modifies this`st, syms, choices
      ensures Valid() && Grown(old(V()), V())
      ensures V().FirstActive(conds, 0) == Some(first)
      decreases b, 5
    {
      for i := 0 to |conds|
        invariant Valid() && Grown(old(V()), V())
        invariant NoneActive(V(), conds, i)
      {
        ghost var k := V();
        ExprsRefsAt(cfg, conds, i);
        var v := ExprValue(conds[i], b);
        NoneActiveGrows(k, V(), conds, i);
        GrownTrans(old(V()), k, V());
        if v != 0 {
          FirstActiveFrom(V(), conds, 0, i);
          return Some((i, v));
        }
      }
      FirstActiveFrom(V(), conds, 0, |conds|);
      first := None;
    }

    // ---- choices ----

    method ModulesType(ghost b: nat) returns (t: Type)
      requires Valid() && Below(TriRefs(cfg, cfg.modules), b)
      modifies this`st, syms, choices
      ensures Valid() && Grown(old(V()), V())
      ensures V().ModulesType() == Some(t)
      decreases b, 1
    {
      var v := OperandTri(cfg.modules, b);
      t := if v == 0 then Bool else Tristate;
    }

    method ChoiceType(c: nat, ghost b: nat) returns (t: Type)
      requires Valid() && Below(ChoiceTypeRefs(cfg, c), b)
      modifies this`st, syms, choices
      ensures Valid() && Grown(old(V()), V())
      ensures V().ChoiceType(c) == Some(t)
      decreases b, 2
    {
      if cfg.C(c).typ == Tristate {
        t := ModulesType(b);
      } else {
        t := cfg.C(c).typ;
      }
    }

    // Choice.tri_value
    method ChoiceMode(c: nat, ghost b: nat) returns (v: Tri)
      requires Valid() && Below(ModeRefs(cfg, c), b)
      modifies this`st, syms, choices
      ensures Valid() && Grown(old(V()), V())
      ensures V().Mode(c) == Some(v)
      decreases b, 3
    {
      assert ChoiceLinked(c);
      assert ChoiceVis(c) in ModeRefs(cfg, c);
      v := if cfg.C(c).optional then 0 else 1;
      if choices[c].userValue.Some? {
        v := Max(v, choices[c].userValue.value);
      }
      var vis := ChoiceVisibility(c);
      v := Min(v, vis);
      if v == 1 {
        ghost var k := V();
        var t := ChoiceType(c, b);
        assert LeqAt(k, V(), ChoiceVis(c));
        GrownTrans(old(V()), k, V());
        v := if t == Bool then 2 else 1;
      }
    }

    // Choice.visibility
    method ChoiceVisibility(c: nat) returns (v: Tri)
      requires Valid() && c < |cfg.choices|
      modifies this`st, syms, choices
      ensures Valid() && Grown(old(V()), V())
      ensures V().env.C(c).vis == Some(v)
      decreases rank.of(ChoiceVis(c)), 9
    {
      assert ChoiceLinked(c);
      if choices[c].cachedVis.Some? {
        return choices[c].cachedVis.value;
      }
      ghost var b := rank.of(ChoiceVis(c));
      assert ReadsLower(cfg, rank, ChoiceVis(c));
      assert Below(Reads(cfg, ChoiceVis(c)), b);
      v := PromptValue(cfg.C(c).prompts, b);
      if v == 1 {
        ghost var k := V();
        var t := ChoiceType(c, b);
        MaxEvalLeq(k, V(), cfg.C(c).prompts, |cfg.C(c).prompts|);
        GrownTrans(old(V()), k, V());
        v := if t == Tristate then 1 else 2;
      }
      ghost var k2 := V();
      StoreChoiceVis(c, v);
      GrownTrans(old(V()), k2, V());
    }

    // ---- filling caches ----

    method StoreChoiceVis(c: nat, v: Tri)
      requires Valid() && c < |cfg.choices| && V().ChoiceVisibility(c) == Some(v)
      modifies this`st, syms, choices
      ensures Valid() && Grown(old(V()), V())
      ensures V().env.C(c).vis == Some(v)
    {
      ChoiceVisFilled(cfg, st, c, v);
      choices[c].cachedVis := Some(v);
      st := WithChoiceVis(st, c, v);
      forall i: nat ensures ChoiceLinked(i) {
        assert old(ChoiceLinked(i)) && DifferentChoices(i, c) && DifferentChoices(c, i);
      }
      forall i: nat ensures SymLinked(i) {
        assert old(SymLinked(i));
      }
    }

    method StoreSelection(c: nat, sel: Option<nat>)
      requires Valid() && c < |cfg.choices| && V().Selection(c) == Some(sel)
      modifies this`st, syms, choices
      ensures Valid() && Grown(old(V()), V())
      ensures V().env.C(c).sel == Some(sel)
    {
      SelectionFilled(cfg, st, c, sel);
      choices[c].cachedSelection := Some(sel);
      st := WithSelection(st, c, sel);
      forall i: nat ensures ChoiceLinked(i) {
        assert old(ChoiceLinked(i)) && DifferentChoices(i, c) && DifferentChoices(c, i);
      }
      forall i: nat ensures SymLinked(i) {
        assert old(SymLinked(i));
      }
    }

    method StoreVis(s: nat, v: Tri)
      requires Valid() && s < |cfg.syms| && V().Visibility(s) == Some(v)
      modifies this`st, syms, choices
      ensures Valid() && Grown(old(V()), V())
      ensures V().env.S(s).vis == Some(v)
    {
      VisFilled(cfg, st, s, v);
      syms[s].cachedVis := Some(v);
      st := WithVis(st, s, v);
      forall i: nat ensures SymLinked(i) {
        assert old(SymLinked(i)) && DifferentSyms(i, s) && DifferentSyms(s, i);
      }
      forall i: nat ensures ChoiceLinked(i) {
        assert old(ChoiceLinked(i));
      }
    }

    method StoreTri(s: nat, v: Tri, write: bool)
      requires Valid() && s < |cfg.syms| && TriRule(V(), s) == Some(v)
      requires FlagFor(V(), SymTri(s), st.write[s], write)
      modifies this`st, syms, choices
      ensures Valid() && Grown(old(V()), V())
      ensures V().env.S(s).tri == Some(v) && st.write[s] == write
    {
      TriFilled(cfg, st, s, v, write);
      syms[s].cachedTri := Some(v);
      syms[s].writeToConf := write;
      st := WithTri(st, s, v, write);
      forall i: nat ensures SymLinked(i) {
        assert old(SymLinked(i)) && DifferentSyms(i, s) && DifferentSyms(s, i);
      }
      forall i: nat ensures ChoiceLinked(i) {
        assert old(ChoiceLinked(i));
      }
    }

    method StoreStr(s: nat, v: string, write: bool)
      requires Valid() && s < |cfg.syms| && V().StrValue(s) == Some(v)
      requires FlagFor(V(), SymStr(s), st.write[s], write)
      modifies this`st, syms, choices
      ensures Valid() && Grown(old(V()), V())
      ensures V().env.S(s).str == Some(v) && st.write[s] == write
    {
      StrFilled(cfg, st, s, v, write);
      syms[s].cachedStr := Some(v);
      syms[s].writeToConf := write;
      st := WithStr(st, s, v, write);
      forall i: nat ensures SymLinked(i) {
        assert old(SymLinked(i)) && DifferentSyms(i, s) && DifferentSyms(s, i);
      }
      forall i: nat ensures ChoiceLinked(i) {
        assert old(ChoiceLinked(i));
      }
    }

    // ---- symbols ----

    // Symbol.type
    method SymType(s: nat, ghost b: nat) returns (t: Type)
      requires Valid() && s < |cfg.syms| && Below(SymTypeRefs(cfg, s), b)
      modifies this`st, syms, choices
      ensures Valid() && Grown(old(V()), V())
      ensures V().SymType(s) == Some(t)
      decreases b, 4
    {
      var d := cfg.S(s);
      if d.typ != Tristate {
        return d.typ;
      }
      if d.choice.Some? {
        var mode := ChoiceMode(d.choice.value, b);
        if mode == 2 {
          return Bool;
        }
        ghost var k := V();
        t := ModulesType(b);
        ModeLeq(k, V(), d.choice.value);
        GrownTrans(old(V()), k, V());
      } else {
        t := ModulesType(b);
      }
    }

    // Symbol.visibility, with _visibility() inlined
    method SymVisibility(s: nat) returns (v: Tri)
      requires Valid() && s < |cfg.syms|
      modifies this`st, syms, choices
      ensures Valid() && Grown(old(V()), V())
      ensures V().env.S(s).vis == Some(v)
      decreases rank.of(SymVis(s)), 9
    {
      assert SymLinked(s);
      if syms[s].cachedVis.Some? {
        return syms[s].cachedVis.value;
      }
      var d := cfg.S(s);
      ghost var b := rank.of(SymVis(s));
      assert ReadsLower(cfg, rank, SymVis(s));
      assert Below(Reads(cfg, SymVis(s)), b);
      v := PromptValue(d.prompts, b);
      ghost var k := V();
      if d.choice.Some? && cfg.C(d.choice.value).typ == Tristate && d.typ != Tristate {
        var mode := ChoiceMode(d.choice.value, b);
        ghost var k' := V();
        MaxEvalLeq(k, k', d.prompts, |d.prompts|);
        v := if mode != 2 then 0 else if v == 1 then 2 else v;
        GrownTrans(old(V()), k, k');
      } else if d.choice.Some? && d.typ == Tristate && v == 1 {
        var mode := ChoiceMode(d.choice.value, b);
        ghost var k' := V();
        GrownTrans(old(V()), k, k');
        if mode == 2 {
          v := 0;
        } else {
          v := PromoteVisibility(s, v, b);
          GrownTrans(old(V()), k', V());
          GrownTrans(k, k', V());
          ModeLeq(k', V(), d.choice.value);
        }
        MaxEvalLeq(k, V(), d.prompts, |d.prompts|);
      } else {
        v := PromoteVisibility(s, v, b);
        MaxEvalLeq(k, V(), d.prompts, |d.prompts|);
        GrownTrans(old(V()), k, V());
      }
      ghost var k2 := V();
      StoreVis(s, v);
      GrownTrans(old(V()), k2, V());
    }

    method PromoteVisibility(s: nat, vis: Tri, ghost b: nat) returns (v: Tri)
      requires Valid() && s < |cfg.syms| && Below(SymTypeRefs(cfg, s), b)
      modifies this`st, syms, choices
      ensures Valid() && Grown(old(V()), V())
      ensures V().Promoted(s, vis) == Some(v)
      decreases b, 5
    {
      v := vis;
      if vis == 1 {
        var t := SymType(s, b);
        v := if t == Tristate then 1 else 2;
      }
    }

    method DefaultsValue(s: nat, write: bool, ghost b: nat) returns (w: Written<Tri>)
      requires Valid() && s < |cfg.syms|
      requires Below(ExprsRefs(cfg, DefaultConds(cfg.S(s).defaults)) + ExprsRefs(cfg, DefaultValues(cfg.S(s).defaults)), b)
      modifies this`st, syms, choices
      ensures Valid() && Grown(old(V()), V())
      ensures V().FromDefaults(s, write) == Some(w)
      decreases b, 6
    {
      var d := cfg.S(s);
      var first := FindActive(DefaultConds(d.defaults), b);
      match first
      case None => w := Written(0, write);
      case Some((i, cond)) =>
        ghost var k := V();
        ExprsRefsAt(cfg, DefaultValues(d.defaults), i);
        var v := ExprValue(d.defaults[i].value, b);
        FirstActiveLeq(k, V(), DefaultConds(d.defaults), 0);
        GrownTrans(old(V()), k, V());
        w := Written(Min(v, cond), write || Min(v, cond) != 0);
    }

    method ImpliesValue(s: nat, w0: Written<Tri>, ghost b: nat) returns (w: Written<Tri>)
      requires Valid() && s < |cfg.syms|
      requires Below(ExprRefs(cfg, cfg.S(s).weakRevDep) + ExprRefs(cfg, cfg.S(s).directDep), b)
      modifies this`st, syms, choices
      ensures Valid() && Grown(old(V()), V())
      ensures V().FromImplies(s, w0) == Some(w)
      decreases b, 6
    {
      w := w0;
      var weak := ExprValue(cfg.S(s).weakRevDep, b);
      if weak != 0 {
        ghost var k := V();
        var dep := ExprValue(cfg.S(s).directDep, b);
        EvalLeq(k, V(), cfg.S(s).weakRevDep);
        GrownTrans(old(V()), k, V());
        if dep != 0 {
          w := Written(Max(weak, w0.val), true);
        }
      }
    }

    method ValueBeforeSelect(s: nat, vis: Tri, ghost b: nat) returns (w: Written<Tri>)
      requires Valid() && s < |cfg.syms| && cfg.Boolish(s) && cfg.S(s).choice.None?
      requires Below(Reads(cfg, SymTri(s)), b)
      modifies this`st, syms, choices
      ensures Valid() && Grown(old(V()), V())
      ensures V().BeforeSelect(s, vis) == Some(w)
      decreases b, 7
    {
      assert SymLinked(s);
      if vis != 0 && syms[s].userValue.Some? && syms[s].userValue.value.UTri? {
        w := Written(Min(syms[s].userValue.value.t, vis), true);
      } else {
        var w0 := DefaultsValue(s, vis != 0, b);
        ghost var k := V();
        w := ImpliesValue(s, w0, b);
        FromDefaultsLeq(k, V(), s, vis != 0);
        GrownTrans(old(V()), k, V());
      }
    }

    method PromoteValue(s: nat, w0: Written<Tri>, ghost b: nat) returns (w: Written<Tri>)
      requires Valid() && s < |cfg.syms| && Below(SymTypeRefs(cfg, s) + ExprRefs(cfg, cfg.S(s).weakRevDep), b)
      modifies this`st, syms, choices
      ensures Valid() && Grown(old(V()), V())
      ensures V().RoundUp(s, w0) == Some(w)
      decreases b, 6
    {
      w := w0;
      if w.val == 1 {
        var t := SymType(s, b);
        if t == Bool {
          w := w.(val := 2);
        } else {
          ghost var k := V();
          var weak := ExprValue(cfg.S(s).weakRevDep, b);
          SymTypeLeq(k, V(), s);
          GrownTrans(old(V()), k, V());
          if weak == 2 {
            w := w.(val := 2);
          }
        }
      }
    }

    method ChoiceSymbolTri(s: nat, vis: Tri, ghost b: nat) returns (w: Written<Tri>)
      requires Valid() && s < |cfg.syms| && cfg.Boolish(s) && cfg.S(s).choice.Some?
      requires Below(Reads(cfg, SymTri(s)), b) && V().env.S(s).vis == Some(vis)
      modifies this`st, syms, choices
      ensures Valid() && Grown(old(V()), V())
      ensures V().TriValue(s) == Some(w)
      decreases b, 8
    {
      assert SymLinked(s);
      if vis == 2 {
        ghost var k := V();
        assert ChoiceSel(cfg.S(s).choice.value) in Reads(cfg, SymTri(s));
        var sel := Selection(cfg.S(s).choice.value);
        assert LeqAt(k, V(), SymVis(s));
        w := Written(if sel == Some(s) then 2 else 0, true);
      } else if vis != 0 && syms[s].userValue.Some? && syms[s].userValue.value.UTri? && syms[s].userValue.value.t != 0 {
        w := Written(1, true);
      } else {
        w := Written(0, vis != 0);
      }
    }

    method PlainSymbolTri(s: nat, vis: Tri, ghost b: nat) returns (w: Written<Tri>)
      requires Valid() && s < |cfg.syms| && cfg.Boolish(s) && cfg.S(s).choice.None?
      requires Below(Reads(cfg, SymTri(s)), b) && V().env.S(s).vis == Some(vis)
      modifies this`st, syms, choices
      ensures Valid() && Grown(old(V()), V())
      ensures V().TriValue(s) == Some(w)
      decreases b, 8
    {
      ghost var k0 := V();
      var w0 := ValueBeforeSelect(s, vis, b);
      ghost var k1 := V();
      var rev := ExprValue(cfg.S(s).revDep, b);
      var w1 := if rev != 0 then Written(Max(rev, w0.val), true) else w0;
      ghost var k2 := V();
      w := PromoteValue(s, w1, b);
      GrownTrans(k0, k1, k2);
      GrownTrans(k1, k2, V());
      GrownTrans(k0, k2, V());
      PlainTriParts(k0, k1, k2, V(), s, vis);
    }

    lemma {:induction false} PlainTriParts(k0: View, k1: View, k2: View, k3: View, s: nat, vis: Tri)
      requires k0.cfg.Boolish(s) && k0.cfg.S(s).choice.None? && k0.env.S(s).vis == Some(vis)
      requires Grown(k0, k3) && Grown(k1, k3) && Grown(k2, k3)
      ensures k1.BeforeSelect(s, vis).Some? && k2.Eval(k2.cfg.S(s).revDep).Some? ==>
                var rev := k2.Eval(k2.cfg.S(s).revDep).value;
                var w := k1.BeforeSelect(s, vis).value;
                k3.TriValue(s) == k3.RoundUp(s, if rev == 0 then w else Written(Max(rev, w.val), true))
    {
      assert LeqAt(k0, k3, SymVis(s));
      BeforeSelectLeq(k1, k3, s, vis);
      EvalLeq(k2, k3, k2.cfg.S(s).revDep);
    }

    // Symbol.tri_value
    method SymTriValue(s: nat) returns (v: Tri)
      requires Valid() && s < |cfg.syms|
      modifies this`st, syms, choices
      ensures Valid() && Grown(old(V()), V())
      ensures V().env.S(s).tri == Some(v)
      decreases rank.of(SymTri(s)), 10
    {
      assert SymLinked(s);
      if syms[s].cachedTri.Some? {
        return syms[s].cachedTri.value;
      }
      if !cfg.Boolish(s) {
        StoreTri(s, 0, syms[s].writeToConf);
        return 0;
      }
      var w := ComputeTri(s);
      ghost var k := V();
      StoreTri(s, w.val, w.write);
      GrownTrans(old(V()), k, V());
      v := w.val;
    }

    method ComputeTri(s: nat) returns (w: Written<Tri>)
      requires Valid() && s < |cfg.syms| && cfg.Boolish(s)
      modifies this`st, syms, choices
      ensures Valid() && Grown(old(V()), V())
      ensures V().TriValue(s) == Some(w)
      decreases rank.of(SymTri(s)), 9
    {
      ghost var b := rank.of(SymTri(s));
      assert ReadsLower(cfg, rank, SymTri(s));
      assert Below(Reads(cfg, SymTri(s)), b);
      assert SymVis(s) in Reads(cfg, SymTri(s));
      var vis := SymVisibility(s);
      ghost var k := V();
      if cfg.S(s).choice.Some? {
        w := ChoiceSymbolTri(s, vis, b);
      } else {
        w := PlainSymbolTri(s, vis, b);
      }
      GrownTrans(old(V()), k, V());
    }

    // Looks at one more member of a choice.
    method NextVisible(members: seq<nat>, i: nat, ghost b: nat, ghost k0: View) returns (vis: Tri)
      requires Valid() && i < |members| && members[i] < |cfg.syms| && rank.of(SymVis(members[i])) < b
      requires NoneVisible(V(), members, i) && Grown(k0, V())
      modifies this`st, syms, choices
      ensures Valid() && Grown(k0, V())
      ensures NoneVisible(V(), members, i) && V().env.S(members[i]).vis == Some(vis)
      decreases b, 4, 0
    {
      vis := SymVisibility(members[i]);
      NoneVisibleGrows(old(V()), V(), members, i);
      GrownTrans(k0, old(V()), V());
    }

    method FirstVisible(members: seq<nat>, ghost b: nat) returns (sel: Option<nat>)
      requires Valid() && forall i :: 0 <= i < |members| ==> members[i] < |cfg.syms| && rank.of(SymVis(members[i])) < b
      modifies this`st, syms, choices
      ensures Valid() && Grown(old(V()), V())
      ensures V().FirstVisible(members, 0) == Some(sel)
      decreases b, 4, 1
    {
      ghost var k0 := V();
      GrownRefl(k0);
      for i := 0 to |members|
        invariant Valid() && Grown(k0, V())
        invariant NoneVisible(V(), members, i)
      {
        var vis := NextVisible(members, i, b, k0);
        if vis != 0 {
          FirstVisibleFrom(V(), members, 0, i);
          return Some(members[i]);
        }
      }
      FirstVisibleFrom(V(), members, 0, |members|);
      sel := None;
    }

    // Is the i-th default of the choice active, and its symbol visible?
    method DefaultApplies(c: nat, i: nat, ghost b: nat, ghost k0: View) returns (applies: bool)
      requires Valid() && c < |cfg.choices| && i < |cfg.C(c).defaults| && Below(Reads(cfg, ChoiceSel(c)), b)
      requires AllPassed(V(), cfg.C(c).defaults, i) && Grown(k0, V())
      modifies this`st, syms, choices
      ensures Valid() && Grown(k0, V())
      ensures !applies ==> AllPassed(V(), cfg.C(c).defaults, i + 1)
      ensures applies ==> V().DefaultSelection(c, 0) == Some(Some(cfg.C(c).defaults[i].sym))
      decreases b, 5
    {
      var d := cfg.C(c).defaults[i];
      ExprsRefsAt(cfg, ChoiceConds(cfg.C(c).defaults), i);
      var v := ExprValue(d.cond, b);
      ghost var k := V();
      GrownTrans(k0, old(V()), k);
      AllPassedGrows(old(V()), k, cfg.C(c).defaults, i);
      if v == 0 {
        return false;
      }
      assert SymVis(d.sym) in Reads(cfg, ChoiceSel(c));
      var vis := SymVisibility(d.sym);
      GrownTrans(k0, k, V());
      DefaultLookedAt(k, V(), c, i);
      applies := vis != 0;
    }

    lemma {:induction false} DefaultLookedAt(k: View, k': View, c: nat, i: nat)
      requires Grown(k, k') && i < |k.cfg.C(c).defaults| && AllPassed(k, k.cfg.C(c).defaults, i)
      requires k.Eval(k.cfg.C(c).defaults[i].cond).Some? && k.Eval(k.cfg.C(c).defaults[i].cond) != Some(0)
      requires k'.env.S(k.cfg.C(c).defaults[i].sym).vis.Some?
      ensures k'.env.S(k.cfg.C(c).defaults[i].sym).vis == Some(0) ==> AllPassed(k', k.cfg.C(c).defaults, i + 1)
      ensures k'.env.S(k.cfg.C(c).defaults[i].sym).vis != Some(0) ==> k'.DefaultSelection(c, 0) == Some(Some(k.cfg.C(c).defaults[i].sym))
    {
      EvalLeq(k, k', k.cfg.C(c).defaults[i].cond);
      AllPassedGrows(k, k', k.cfg.C(c).defaults, i);
      DefaultSelectionFrom(k', c, 0, i);
    }

    // Choice._get_selection_from_defaults()
    method SelectionFromDefaults(c: nat, ghost b: nat) returns (sel: Option<nat>)
      requires Valid() && c < |cfg.choices| && Below(Reads(cfg, ChoiceSel(c)), b)
      modifies this`st, syms, choices
      ensures Valid() && Grown(old(V()), V())
      ensures V().DefaultSelection(c, 0) == Some(sel)
      decreases b, 6
    {
      var ds := cfg.C(c).defaults;
      ghost var k0 := V();
      GrownRefl(k0);
      for i := 0 to |ds|
        invariant Valid() && Grown(k0, V())
        invariant AllPassed(V(), ds, i)
      {
        var applies := DefaultApplies(c, i, b, k0);
        if applies {
          return Some(ds[i].sym);
        }
      }
      ghost var k := V();
      sel := FirstMember(c, b);
      GrownTrans(k0, k, V());
    }

    method FirstMember(c: nat, ghost b: nat) returns (sel: Option<nat>)
      requires Valid() && c < |cfg.choices| && Below(Reads(cfg, ChoiceSel(c)), b)
      requires AllPassed(V(), cfg.C(c).defaults, |cfg.C(c).defaults|)
      modifies this`st, syms, choices
      ensures Valid() && Grown(old(V()), V())
      ensures V().DefaultSelection(c, 0) == Some(sel)
      decreases b, 5, 0
    {
      forall i | 0 <= i < |cfg.C(c).members| ensures SymVis(cfg.C(c).members[i]) in Reads(cfg, ChoiceSel(c)) {
      }
      sel := FirstVisible(cfg.C(c).members, b);
      AllPassedGrows(old(V()), V(), cfg.C(c).defaults, |cfg.C(c).defaults|);
      DefaultSelectionFrom(V(), c, 0, |cfg.C(c).defaults|);
    }

    method ComputeSelection(c: nat) returns (sel: Option<nat>)
      requires Valid() && c < |cfg.choices|
      modifies this`st, syms, choices
      ensures Valid() && Grown(old(V()), V())
      ensures V().Selection(c) == Some(sel)
      decreases rank.of(ChoiceSel(c)), 8
    {
      assert ChoiceLinked(c);
      ghost var b := rank.of(ChoiceSel(c));
      assert ReadsLower(cfg, rank, ChoiceSel(c));
      assert Below(Reads(cfg, ChoiceSel(c)), b);
      var mode := ChoiceMode(c, b);
      if mode != 2 {
        return None;
      }
      ghost var k := V();
      assert ChoiceLinked(c);
      if choices[c].userSelection.Some? {
        var x := choices[c].userSelection.value;
        UserSelectionRead(x, c);
        var vis := SymVisibility(x);
        ModeLeq(k, V(), c);
        GrownTrans(old(V()), k, V());
        if vis != 0 {
          return Some(x);
        }
      }
      ghost var k' := V();
      sel := SelectionFromDefaults(c, b);
      GrownTrans(old(V()), k', V());
      ModeLeq(k', V(), c);
      if st.u.UserSel(c).Some? {
        assert LeqAt(k', V(), SymVis(st.u.UserSel(c).value));
      }
    }

    lemma {:induction false} UserSelectionRead(x: nat, c: nat)
      requires Valid() && c < |cfg.choices| && choices[c].userSelection == Some(x)
      ensures SymVis(x) in Reads(cfg, ChoiceSel(c))
    {
      assert ChoiceLinked(c);
      assert MemberSelection(View(cfg, st.u, Env([], [])), c);
      var i :| 0 <= i < |cfg.C(c).members| && cfg.C(c).members[i] == x;
    }

    // Choice.selection
    method Selection(c: nat) returns (v: Option<nat>)
      requires Valid() && c < |cfg.choices|
      modifies this`st, syms, choices
      ensures Valid() && Grown(old(V()), V())
      ensures V().env.C(c).sel == Some(v)
      decreases rank.of(ChoiceSel(c)), 9
    {
      assert ChoiceLinked(c);
      if choices[c].cachedSelection.Some? {
        return choices[c].cachedSelection.value;
      }
      v := ComputeSelection(c);
      ghost var k := V();
      StoreSelection(c, v);
      GrownTrans(old(V()), k, V());
    }

    // ---- string, int and hex symbols ----

    method ActiveRange(s: nat, ghost b: nat) returns (range: Option<(int, int)>)
      requires Valid() && s < |cfg.syms| && !cfg.Boolish(s) && cfg.S(s).typ != Unknown && cfg.S(s).typ != String
      requires Below(Reads(cfg, SymStr(s)), b)
      modifies this`st, syms, choices
      ensures Valid() && Grown(old(V()), V())
      ensures V().ActiveRange(s) == Some(range)
      decreases b, 6
    {
      var rs := cfg.S(s).ranges;
      var first := FindActive(RangeConds(rs), b);
      if first.None? {
        return None;
      }
      var i := first.value.0;
      ghost var k := V();
      RangeOperandsRead(s, i);
      var low := OperandStr(rs[i].low, b);
      ghost var k' := V();
      var high := OperandStr(rs[i].high, b);
      GrownTrans(k, k', V());
      GrownTrans(old(V()), k, V());
      StrOfLeq(k', V(), rs[i].low);
      FirstActiveLeq(k, V(), RangeConds(rs), 0);
      range := Some((cfg.NumOrZero(low, Base(cfg.S(s).typ)), cfg.NumOrZero(high, Base(cfg.S(s).typ))));
    }

    lemma {:induction false} RangeOperandsRead(s: nat, i: nat)
      requires !cfg.Boolish(s) && cfg.S(s).typ != Unknown && cfg.S(s).typ != String && i < |cfg.S(s).ranges|
      ensures StrRefs(cfg, cfg.S(s).ranges[i].low) <= Reads(cfg, SymStr(s))
      ensures StrRefs(cfg, cfg.S(s).ranges[i].high) <= Reads(cfg, SymStr(s))
    {
      OperandRefsAt(cfg, Lows(cfg.S(s).ranges), i);
      OperandRefsAt(cfg, Highs(cfg.S(s).ranges), i);
    }

    method DefaultStr(s: nat, ghost b: nat) returns (v: Option<string>)
      requires Valid() && s < |cfg.syms| && !cfg.Boolish(s) && cfg.S(s).typ != Unknown
      requires Below(Reads(cfg, SymStr(s)), b)
      modifies this`st, syms, choices
      ensures Valid() && Grown(old(V()), V())
      ensures V().DefaultStr(s) == Some(v)
      decreases b, 6
    {
      var ds := cfg.S(s).defaults;
      var first := FindActive(DefaultConds(ds), b);
      if first.None? {
        return None;
      }
      var i := first.value.0;
      if !ds[i].value.Leaf? {
        return Some("");
      }
      ghost var k := V();
      OperandRefsAt(cfg, DefaultOperands(ds), i);
      var str := OperandStr(ds[i].value.o, b);
      FirstActiveLeq(k, V(), DefaultConds(ds), 0);
      GrownTrans(old(V()), k, V());
      v := Some(str);
    }

    // The user value, if it is in effect.
    method UserNumber(s: nat, vis: Tri, range: Option<(int, int)>) returns (v: Option<string>)
      requires Valid() && s < |cfg.syms|
      ensures v == V().AcceptedNumber(s, vis, range)
    {
      assert SymLinked(s);
      v := None;
      if vis != 0 && syms[s].userValue.Some? && syms[s].userValue.value.UStr? && syms[s].userValue.value.s != "" {
        var n := cfg.NumOrZero(syms[s].userValue.value.s, Base(cfg.S(s).typ));
        if range.None? || (range.value.0 <= n <= range.value.1) {
          v := Some(syms[s].userValue.value.s);
        }
      }
    }

    // Otherwise the default, forced into the range.
    method DefaultNumber(s: nat, range: Option<(int, int)>, ghost b: nat) returns (text: string, found: bool)
      requires Valid() && s < |cfg.syms| && !cfg.Boolish(s) && cfg.S(s).typ != Unknown && cfg.S(s).typ != String
      requires Below(Reads(cfg, SymStr(s)), b) && V().ActiveRange(s) == Some(range)
      modifies this`st, syms, choices
      ensures Valid() && Grown(old(V()), V()) && V().ActiveRange(s) == Some(range)
      ensures V().DefaultStr(s).Some? && found == V().DefaultStr(s).value.Some? && text == V().Clamped(s, V().DefaultStr(s).value, range)
      decreases b, 7
    {
      var base := Base(cfg.S(s).typ);
      var d := DefaultStr(s, b);
      ActiveRangeLeq(old(V()), V(), s);
      found := d.Some?;
      var n := if found then cfg.NumOrZero(d.value, base) else 0;
      text := if found then d.value else "";
      if range.Some? && n < range.value.0 {
        text := cfg.num.show(range.value.0, base);
      } else if range.Some? && n > range.value.1 {
        text := cfg.num.show(range.value.1, base);
      }
    }

    method NumberValue(s: nat, vis: Tri, ghost b: nat) returns (w: Written<string>)
      requires Valid() && s < |cfg.syms| && !cfg.Boolish(s) && cfg.S(s).typ != Unknown && cfg.S(s).typ != String
      requires Below(Reads(cfg, SymStr(s)), b)
      modifies this`st, syms, choices
      ensures Valid() && Grown(old(V()), V())
      ensures V().NumberValue(s, vis) == Some(w)
      decreases b, 8
    {
      var range := ActiveRange(s, b);
      var v := UserNumber(s, vis, range);
      if v.Some? {
        return Written(v.value, vis != 0);
      }
      ghost var k := V();
      var text, found := DefaultNumber(s, range, b);
      GrownTrans(old(V()), k, V());
      w := Written(text, vis != 0 || found);
    }

    method TextValue(s: nat, vis: Tri, ghost b: nat) returns (w: Written<string>)
      requires Valid() && s < |cfg.syms| && cfg.S(s).typ == String && Below(Reads(cfg, SymStr(s)), b)
      modifies this`st, syms, choices
      ensures Valid() && Grown(old(V()), V())
      ensures V().TextValue(s, vis) == Some(w)
      decreases b, 7
    {
      assert SymLinked(s);
      if vis != 0 && syms[s].userValue.Some? && syms[s].userValue.value.UStr? {
        return Written(syms[s].userValue.value.s, true);
      }
      var d := DefaultStr(s, b);
      w := Written(if d.Some? then d.value else "", vis != 0 || d.Some?);
    }

    method ComputeStr(s: nat) returns (w: Written<string>)
      requires Valid() && s < |cfg.syms| && !cfg.Boolish(s) && cfg.S(s).typ != Unknown
      modifies this`st, syms, choices
      ensures Valid() && Grown(old(V()), V())
      ensures V().TypedStrValue(s) == Some(w)
      decreases rank.of(SymStr(s)), 9
    {
      ghost var b := rank.of(SymStr(s));
      assert ReadsLower(cfg, rank, SymStr(s));
      assert Below(Reads(cfg, SymStr(s)), b);
      assert SymVis(s) in Reads(cfg, SymStr(s));
      var vis := SymVisibility(s);
      ghost var k := V();
      if cfg.S(s).typ == String {
        w := TextValue(s, vis, b);
      } else {
        w := NumberValue(s, vis, b);
      }
      assert LeqAt(k, V(), SymVis(s));
      GrownTrans(old(V()), k, V());
      w := w.(write := w.write && !cfg.S(s).auto);
    }

    // Symbol.str_value
    method SymStrValue(s: nat) returns (v: string)
      requires Valid() && s < |cfg.syms|
      modifies this`st, syms, choices
      ensures Valid() && Grown(old(V()), V())
      ensures V().env.S(s).str == Some(v)
      decreases rank.of(SymStr(s)), 10
    {
      assert SymLinked(s);
      if syms[s].cachedStr.Some? {
        return syms[s].cachedStr.value;
      }
      var write := syms[s].writeToConf;
      if cfg.Boolish(s) {
        assert ReadsLower(cfg, rank, SymStr(s)) && SymTri(s) in Reads(cfg, SymStr(s));
        var t := SymTriValue(s);
        assert SymLinked(s);
        v := TriStr(t);
        write := syms[s].writeToConf;
      } else if cfg.S(s).typ == Unknown {
        v := cfg.S(s).name;
      } else {
        var w := ComputeStr(s);
        v := w.val;
        write := w.write;
      }
      ghost var k := V();
      StoreStr(s, v, write);
      GrownTrans(old(V()), k, V());
    }

    // ---- assignable values ----

    method StoreAssignable(s: nat, v: seq<Tri>)
      requires Valid() && s < |cfg.syms| && V().Assignable(s) == Some(v)
      modifies this`st, syms, choices
      ensures Valid() && V() == old(V()) && st.assignable[s] == Some(v)
    {
      syms[s].cachedAssignable := Some(v);
      AssignableFilled(cfg, st, s, v);
      st := st.(assignable := st.assignable[s := Some(v)]);
      forall i: nat ensures SymLinked(i) {
        assert old(SymLinked(i)) && DifferentSyms(i, s) && DifferentSyms(s, i);
      }
      forall i: nat ensures ChoiceLinked(i) {
        assert old(ChoiceLinked(i));
      }
    }

    // The part of _assignable() after visibility and rev_dep are known and do not settle it.
    method AssignableFrom(s: nat, vis: Tri, rev: Tri) returns (v: seq<Tri>)
      requires Valid() && s < |cfg.syms| && cfg.Boolish(s) && V().env.S(s).vis == Some(vis) && V().Eval(cfg.S(s).revDep) == Some(rev)
      requires vis != 0 && rev != 2 && (vis == 2 ==> cfg.S(s).choice.None?) && !(vis == 1 && rev == 1)
      requires Below(AssignableReads(cfg, s), rank.top)
      modifies this`st, syms, choices
      ensures Valid() && Grown(old(V()), V())
      ensures V().Assignable(s) == Some(v)
    {
      ghost var k := V();
      GrownRefl(k);
      var skipM := false;
      if vis == 2 {
        var t := SymType(s, rank.top);
        skipM := t == Bool;
      }
      ghost var k1 := V();
      if !skipM {
        var weak := ExprValue(cfg.S(s).weakRevDep, rank.top);
        skipM := weak == 2;
      } else {
        GrownRefl(k1);
      }
      SymTypeLeq(k1, V(), s);
      GrownTrans(k, k1, V());
      assert LeqAt(k, V(), SymVis(s));
      EvalLeq(k, V(), cfg.S(s).revDep);
      if rev == 1 {
        v := if skipM then [2] else [1, 2];
      } else if vis == 2 {
        v := if skipM then [0, 2] else [0, 1, 2];
      } else {
        v := if skipM then [0, 2] else [0, 1];
      }
    }

    method ComputeAssignable(s: nat) returns (v: seq<Tri>)
      requires Valid() && s < |cfg.syms| && cfg.Boolish(s) && Below(AssignableReads(cfg, s), rank.top)
      modifies this`st, syms, choices
      ensures Valid() && Grown(old(V()), V())
      ensures V().Assignable(s) == Some(v)
    {
      var vis := SymVisibility(s);
      if vis == 0 {
        return [];
      }
      ghost var k := V();
      var rev := ExprValue(cfg.S(s).revDep, rank.top);
      assert LeqAt(k, V(), SymVis(s));
      GrownTrans(old(V()), k, V());
      if (vis == 2 && cfg.S(s).choice.Some?) || rev == 2 {
        return [2];
      }
      if vis == 1 && rev == 1 {
        return [1];
      }
      ghost var k' := V();
      v := AssignableFrom(s, vis, rev);
      GrownTrans(old(V()), k', V());
    }

    lemma {:induction false} AssignableBelowTop(s: nat)
      requires Ranks(cfg, rank) && WellFormed(cfg) && s < |cfg.syms|
      ensures Below(AssignableReads(cfg, s), rank.top)
    {
      assert ReadsLower(cfg, rank, SymVis(s)) && SelectsOk(cfg, s);
      assert SymTypeRefs(cfg, s) <= Reads(cfg, SymVis(s));
      forall q | q in AssignableReads(cfg, s) ensures rank.of(q) < rank.top {
        assert ReadsLower(cfg, rank, q);
      }
    }

    // Symbol.assignable
    method SymAssignable(s: nat) returns (v: seq<Tri>)
      requires Valid() && s < |cfg.syms|
      modifies this`st, syms, choices
      ensures Valid() && Grown(old(V()), V())
      ensures V().Assignable(s) == Some(v)
    {
      assert SymLinked(s);
      if syms[s].cachedAssignable.Some? {
        assert SymbolOk(cfg, st, s);
        return syms[s].cachedAssignable.value;
      }
      v := [];
      if cfg.Boolish(s) {
        AssignableBelowTop(s);
        v := ComputeAssignable(s);
      }
      StoreAssignable(s, v);
    }

    // Choice.assignable
    method ChoiceAssignable(c: nat) returns (v: seq<Tri>)
      requires Valid() && c < |cfg.choices|
      modifies this`st, syms, choices
      ensures Valid() && Grown(old(V()), V())
      ensures V().ChoiceAssignable(c) == Some(v)
    {
      assert ChoiceLinked(c);
      if choices[c].cachedAssignable.Some? {
        assert ChoiceOk(cfg, st, c);
        return choices[c].cachedAssignable.value;
      }
      var vis := ChoiceVisibility(c);
      if vis == 0 {
        v := [];
      } else if vis == 2 {
        ghost var k := V();
        ChoiceTypeBelowTop(c);
        var t := ChoiceType(c, rank.top);
        assert LeqAt(k, V(), ChoiceVis(c));
        GrownTrans(old(V()), k, V());
        v := (if cfg.C(c).optional then [0] else []) + (if t == Bool then [2] else [1, 2]);
      } else {
        v := if cfg.C(c).optional then [0, 1] else [1];
      }
      StoreChoiceAssignable(c, v);
    }

    lemma {:induction false} ChoiceTypeBelowTop(c: nat)
      requires Ranks(cfg, rank) && c < |cfg.choices|
      ensures Below(ChoiceTypeRefs(cfg, c), rank.top)
    {
      assert ReadsLower(cfg, rank, ChoiceVis(c));
      forall q | q in ChoiceTypeRefs(cfg, c) ensures rank.of(q) < rank.top {
        assert ReadsLower(cfg, rank, q);
      }
    }

    method StoreChoiceAssignable(c: nat, v: seq<Tri>)
      requires Valid() && c < |cfg.choices| && V().ChoiceAssignable(c) == Some(v)
      modifies this`st, syms, choices
      ensures Valid() && V() == old(V()) && st.modes[c] == Some(v)
    {
      choices[c].cachedAssignable := Some(v);
      ModesFilled(cfg, st, c, v);
      st := st.(modes := st.modes[c := Some(v)]);
      forall i: nat ensures ChoiceLinked(i) {
        assert old(ChoiceLinked(i)) && DifferentChoices(i, c) && DifferentChoices(c, i);
      }
      forall i: nat ensures SymLinked(i) {
        assert old(SymLinked(i));
      }
    }

    // ---- invalidation ----

    // _invalidate()
    method Invalidate(x: Item)
      requires Wired() && ItemInRange(cfg, x)
      modifies this`st, syms, choices
      ensures Wired() && st == Cleared(old(st), x)
    {
      match x
      case SymItem(s) =>
        assert SymLinked(s);
        syms[s].cachedStr, syms[s].cachedTri, syms[s].cachedVis, syms[s].cachedAssignable := None, None, None, None;
        st := Cleared(st, x);
        forall i: nat ensures SymLinked(i) {
          assert old(SymLinked(i)) && DifferentSyms(i, s) && DifferentSyms(s, i);
        }
        forall i: nat ensures ChoiceLinked(i) {
          assert old(ChoiceLinked(i));
        }
      case ChoiceItem(c) =>
        assert ChoiceLinked(c);
        choices[c].cachedVis, choices[c].cachedAssignable, choices[c].cachedSelection := None, None, None;
        st := Cleared(st, x);
        forall i: nat ensures ChoiceLinked(i) {
          assert old(ChoiceLinked(i)) && DifferentChoices(i, c) && DifferentChoices(c, i);
        }
        forall i: nat ensures SymLinked(i) {
          assert old(SymLinked(i));
        }
    }

    // _invalidate_all()
    method InvalidateAll()
      requires Wired()
      modifies this`st, syms, choices
      ensures Wired() && Shaped(cfg, st) && st.u == old(st).u && st.write == old(st).write
      ensures forall x :: Blank(st, x)
    {
      for s := 0 to |syms|
        invariant Wired() && Shaped(cfg, st) && st.u == old(st).u && st.write == old(st).write
        invariant forall i: nat :: i < s ==> Blank(st, SymItem(i))
      {
        Invalidate(SymItem(s));
      }
      for c := 0 to |choices|
        invariant Wired() && Shaped(cfg, st) && st.u == old(st).u && st.write == old(st).write
        invariant forall i: nat :: i < |syms| ==> Blank(st, SymItem(i))
        invariant forall i: nat :: i < c ==> Blank(st, ChoiceItem(i))
      {
        Invalidate(ChoiceItem(c));
      }
    }

    // item._cached_vis is not None
    method HasCached(x: Item) returns (flag: bool)
      requires Wired() && ItemInRange(cfg, x)
      ensures flag == Flagged(st, x)
    {
      match x
      case SymItem(s) =>
        assert SymLinked(s);
        flag := syms[s].cachedVis.Some?;
      case ChoiceItem(c) =>
        assert ChoiceLinked(c);
        flag := choices[c].cachedVis.Some?;
    }

    method DependentsOf(x: Item) returns (ys: set<Item>)
      requires Wired() && DependentsRecorded() && ItemInRange(cfg, x)
      ensures forall y :: y in ys <==> DependsOn(cfg, y, x)
    {
      match x
      case SymItem(s) =>
        assert SymLinked(s);
        ys := syms[s].dependents;
      case ChoiceItem(c) =>
        assert ChoiceLinked(c);
        ys := choices[c].dependents;
    }

    // _rec_invalidate(): clears x and everything that may depend on it, stopping at items with
    // nothing cached. The dependents are visited in any order.
    method RecInvalidate(x: Item)
      requires Wired() && DependentsRecorded() && ItemInRange(cfg, x)
      modifies this`st, syms, choices
      ensures Wired() && Walked(cfg, old(st), st, x)
      decreases FlaggedItems(cfg, st), !Flagged(st, x), 1
    {
      if cfg.modules.Sym? && x == SymItem(cfg.modules.id) {
        InvalidateAll();
        AllClearedIsWalk(cfg, old(st), st, x);
        return;
      }
      var todo := DependentsOf(x);
      WalkStarts(cfg, st, x, todo);
      ghost var st0 := st;
      Invalidate(x);
      while todo != {}
        invariant Wired() && Walking(cfg, st0, st, x, todo)
        invariant forall y :: y in todo ==> DependsOn(cfg, y, x)
        decreases todo
      {
        var y :| y in todo;
        InvalidateDependent(x, y, st0, todo);
        todo := todo - {y};
      }
      WalkEnds(cfg, st0, st, x);
    }

    // The body of the loop: st0 is the state at the start of the walk from x, and the dependents in
    // todo are still to come.
    method InvalidateDependent(x: Item, y: Item, ghost st0: State, ghost todo: set<Item>)
      requires Wired() && DependentsRecorded() && ItemInRange(cfg, x)
      requires Walking(cfg, st0, st, x, todo) && y in todo && DependsOn(cfg, y, x)
      modifies this`st, syms, choices
      ensures Wired() && Walking(cfg, st0, st, x, todo - {y})
      decreases FlaggedItems(cfg, st0), !Flagged(st0, x), 0
    {
      DependentsInRange(cfg, y, x);
      var flagged := HasCached(y);
      if flagged {
        ghost var before := st;
        WalkShrinks(cfg, st0, st, x, todo);
        RecInvalidate(y);
        WalkDescends(cfg, st0, before, st, x, todo, y);
      } else {
        WalkSkips(cfg, st0, st, x, todo, y);
      }
    }

    // ---- user values ----

    // Assigns user_value, leaving every other field of every object alone.
    method AssignUserValue(s: nat, v: Option<UserVal>)
      requires Wired() && s < |cfg.syms|
      modifies this`st, syms
      ensures Wired() && st == old(st).(u := old(st).u.(val := old(st).u.val[s := v]))
    {
      assert SymLinked(s);
      syms[s].userValue := v;
      st := st.(u := st.u.(val := st.u.val[s := v]));
      forall i: nat ensures SymLinked(i) {
        assert old(SymLinked(i)) && DifferentSyms(i, s) && DifferentSyms(s, i);
      }
      forall i: nat ensures ChoiceLinked(i) {
        assert old(ChoiceLinked(i));
      }
    }

    method AssignChoice(c: nat, mode: Option<Tri>, sel: Option<nat>)
      requires Wired() && c < |cfg.choices|
      modifies this`st, choices
      ensures Wired() && st == old(st).(u := old(st).u.(mode := old(st).u.mode[c := mode], sel := old(st).u.sel[c := sel]))
    {
      assert ChoiceLinked(c);
      choices[c].userValue := mode;
      choices[c].userSelection := sel;
      st := st.(u := st.u.(mode := st.u.mode[c := mode], sel := st.u.sel[c := sel]));
      forall i: nat ensures ChoiceLinked(i) {
        assert old(ChoiceLinked(i)) && DifferentChoices(i, c) && DifferentChoices(c, i);
      }
      forall i: nat ensures SymLinked(i) {
        assert old(SymLinked(i));
      }
    }

    method MarkSymSet(s: nat, flag: bool)
      requires Wired() && s < |cfg.syms|
      modifies this`setS, syms
      ensures Wired() && setS == old(setS)[s := flag]
    {
      assert SymLinked(s);
      syms[s].wasSet := flag;
      setS := setS[s := flag];
      forall i: nat ensures SymLinked(i) {
        assert old(SymLinked(i)) && DifferentSyms(i, s) && DifferentSyms(s, i);
      }
      forall i: nat ensures ChoiceLinked(i) {
        assert old(ChoiceLinked(i));
      }
    }

    method MarkChoiceSet(c: nat, flag: bool)
      requires Wired() && c < |cfg.choices|
      modifies this`setC, choices
      ensures Wired() && setC == old(setC)[c := flag]
    {
      assert ChoiceLinked(c);
      choices[c].wasSet := flag;
      setC := setC[c := flag];
      forall i: nat ensures ChoiceLinked(i) {
        assert old(ChoiceLinked(i)) && DifferentChoices(i, c) && DifferentChoices(c, i);
      }
      forall i: nat ensures SymLinked(i) {
        assert old(SymLinked(i));
      }
    }

    // _rec_invalidate_if_has_prompt(), after user_value changed from its value in st0.
    method InvalidateIfHasPrompt(s: nat, ghost st0: State)
      requires Wired() && Ranks(cfg, rank) && WellFormed(cfg) && DependentsRecorded() && s < |cfg.syms|
      requires Coherent(cfg, st0) && UsersOk(cfg, st.u)
      requires st == st0.(u := st0.u.(val := st0.u.val[s := st.u.val[s]]))
      modifies this`st, syms, choices
      ensures Valid() && st.u == old(st).u
    {
      ghost var u' := st.u;
      if cfg.S(s).prompts != [] {
        RecInvalidate(SymItem(s));
        SymbolWalk(cfg, st0, u', st, s);
      } else {
        PromptlessIsCoherent(cfg, st0, u', s);
      }
    }

    // Symbol.set_value()
    method SetValue(s: nat, v: Input) returns (ok: bool)
      requires Valid() && s < |cfg.syms|
      modifies this`st, this`setS, this`setC, syms, choices
      ensures Valid()
      ensures ok == Parsed(cfg, s, v).Some?
      ensures st.u == if ok then SetUser(cfg, old(st).u, s, Parsed(cfg, s, v).value) else old(st).u
      ensures setS == if ok then Marked(old(setS), s) else old(setS)
      ensures setC == if ok then MarkedChoices(cfg, old(setC), s, Parsed(cfg, s, v).value) else old(setC)
    {
      assert SymLinked(s);
      if Equals(v, syms[s].userValue) && cfg.S(s).choice.None? {
        MarkSymSet(s, true);
        EqualIsParsed(cfg, st.u, s, v);
        return true;
      }
      var p := Parsed(cfg, s, v);
      if p.None? {
        return false;
      }
      assert ChoiceSymbolOk(cfg, s);
      SetUserOk(cfg, st.u, s, v);
      MarkSymSet(s, true);
      StoreUserValue(s, p.value);
      ok := true;
    }

    // The part of set_value() that changes values.
    method StoreUserValue(s: nat, v: UserVal)
      requires Valid() && s < |cfg.syms| && UsersOk(cfg, SetUser(cfg, st.u, s, v))
      modifies this`st, this`setC, syms, choices
      ensures Valid() && st.u == SetUser(cfg, old(st).u, s, v)
      ensures setC == MarkedChoices(cfg, old(setC), s, v)
    {
      ghost var st0 := st;
      assert ChoiceSymbolOk(cfg, s);
      AssignUserValue(s, Some(v));
      if cfg.S(s).choice.Some? && v == UTri(2) {
        var c := cfg.S(s).choice.value;
        assert ChoiceLinked(c);
        AssignChoice(c, choices[c].userValue, Some(s));
        MarkChoiceSet(c, true);
        ghost var u' := st.u;
        assert u'.mode == st0.u.mode;
        assert u' == SetUser(cfg, st0.u, s, v);
        RecInvalidate(ChoiceItem(c));
        ChoiceWalk(cfg, st0, u', st, c, s);
      } else {
        InvalidateIfHasPrompt(s, st0);
      }
    }

    // Symbol.unset_value()
    method UnsetValue(s: nat)
      requires Valid() && s < |cfg.syms|
      modifies this`st, syms, choices
      ensures Valid() && st.u == UnsetUser(old(st).u, s)
    {
      assert SymLinked(s);
      if syms[s].userValue.Some? {
        ghost var st0 := st;
        AssignUserValue(s, None);
        UnsetUserOk(cfg, st0.u, s);
        InvalidateIfHasPrompt(s, st0);
      }
    }

    // Choice.set_value()
    method SetMode(c: nat, v: Input) returns (ok: bool)
      requires Valid() && c < |cfg.choices|
      modifies this`st, this`setC, syms, choices
      ensures Valid()
      ensures ok == ParsedMode(cfg, c, v).Some?
      ensures st.u == if ok then UserValues.SetMode(old(st).u, c, ParsedMode(cfg, c, v).value) else old(st).u
      ensures setC == if ok then Marked(old(setC), c) else old(setC)
    {
      assert ChoiceLinked(c);
      if choices[c].userValue.Some? && v == Number(choices[c].userValue.value) {
        MarkChoiceSet(c, true);
        assert UserOk(cfg, st.u, c);
        return true;
      }
      var p := ParsedMode(cfg, c, v);
      if p.None? {
        return false;
      }
      SetModeOk(cfg, st.u, c, p.value);
      ghost var st0 := st;
      AssignChoice(c, p, choices[c].userSelection);
      MarkChoiceSet(c, true);
      ghost var u' := st.u;
      assert u'.sel == st0.u.sel;
      assert u' == UserValues.SetMode(st0.u, c, p.value);
      RecInvalidate(ChoiceItem(c));
      ChoiceWalk(cfg, st0, u', st, c, |cfg.syms|);
      ok := true;
    }

    // Choice.unset_value()
    method UnsetMode(c: nat)
      requires Valid() && c < |cfg.choices|
      modifies this`st, syms, choices
      ensures Valid() && st.u == UnsetChoice(old(st).u, c)
    {
      assert ChoiceLinked(c);
      if choices[c].userValue.Some? || choices[c].userSelection.Some? {
        ghost var st0 := st;
        AssignChoice(c, None, None);
        UnsetChoiceOk(cfg, st0.u, c);
        ghost var u' := st.u;
        RecInvalidate(ChoiceItem(c));
        ChoiceWalk(cfg, st0, u', st, c, |cfg.syms|);
      }
    }
  }
}
