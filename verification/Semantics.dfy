// The evaluation rules for symbols, choices and expressions, written once over a View: a
// configuration, the user's choices, and a record of already known values. A rule returns None
// exactly when it needs a value that the record lacks, so the same rules serve as the equations of
// the cache-free evaluator and as the test that a cache can be recomputed from other caches.
module Semantics {
  import opened Basics
  import opened Model

  // strcmp(): -1, 0 or 1.
  function StrCmp(a: string, b: string): int {
    if a == b then 0
    else if a == "" then -1
    else if b == "" then 1
    else if a[0] < b[0] then -1
    else if b[0] < a[0] then 1
    else StrCmp(a[1..], b[1..])
  }

  predicate Holds(rel: Relation, comp: int) {
    match rel
    case Equal => comp == 0
    case Unequal => comp != 0
    case Less => comp < 0
    case LessEqual => comp <= 0
    case Greater => comp > 0
    case GreaterEqual => comp >= 0
  }

  // The value of a bool or tristate symbol together with its _write_to_conf flag.
  datatype Written<T> = Written(val: T, write: bool)

  datatype View = View(cfg: Config, u: Users, env: Env) {

    // ---- operands and expressions ----

    function TriOf(o: Operand): Option<Tri> {
      match o
      case Const(t) => Some(t)
      case Text(_) => Some(0)
      case Sym(x) => if cfg.Boolish(x) then env.S(x).tri else Some(0)
    }

    function StrOf(o: Operand): Option<string> {
      match o
      case Const(t) => Some(TriStr(t))
      case Text(name) => Some(name)
      case Sym(x) => if cfg.S(x).typ == Unknown then Some(cfg.S(x).name) else env.S(x).str
    }

    // _sym_to_num(): Some(None) when it raises ValueError.
    function NumOf(o: Operand): Option<Option<int>> {
      match o
      case Const(t) => Some(Some(t))
      case Text(name) => Some(cfg.num.parse(name, 0))
      case Sym(x) =>
        if cfg.Boolish(x) then
          var t :- env.S(x).tri;
          Some(Some(t))
        else
          var str :- StrOf(o);
          Some(cfg.num.parse(str, Base(cfg.S(x).typ)))
    }

    predicate IsString(o: Operand) { o.Sym? && cfg.S(o.id).typ == String }

    function TextComparison(l: Operand, r: Operand): Option<int> {
      var a :- StrOf(l);
      var b :- StrOf(r);
      Some(StrCmp(a, b))
    }

    // The difference of the operands as numbers; Some(None) when one of them is not a number.
    function NumComparison(l: Operand, r: Operand): Option<Option<int>> {
      var a :- NumOf(l);
      if a.None? then Some(None)
      else
        var b :- NumOf(r);
        Some(if b.None? then None else Some(a.value - b.value))
    }

    function Comparison(l: Operand, r: Operand): Option<int> {
      if IsString(l) && IsString(r) then TextComparison(l, r)
      else
        var n :- NumComparison(l, r);
        if n.Some? then n else TextComparison(l, r)
    }

    function Eval(e: Expr): Option<Tri> {
      match e
      case Leaf(o) => TriOf(o)
      case InChoice(c) => Mode(c)
      case And(l, r) =>
        var a :- Eval(l);
        if a == 0 then Some(0) else var b :- Eval(r); Some(Min(a, b))
      case Or(l, r) =>
        var a :- Eval(l);
        if a == 2 then Some(2) else var b :- Eval(r); Some(Max(a, b))
      case Not(x) =>
        var a :- Eval(x);
        Some(2 - a)
      case Compare(rel, l, r) =>
        var comp :- Comparison(l, r);
        Some(if Holds(rel, comp) then 2 else 0)
    }

    // The largest value of the first n expressions.
    function MaxEval(es: seq<Expr>, n: nat): Option<Tri>
      requires n <= |es|
    {
      if n == 0 then Some(0)
      else
        var a :- MaxEval(es, n - 1);
        var b :- Eval(es[n - 1]);
        Some(Max(a, b))
    }

    // The first condition from i on that is not n, with its index, if there is one.
    function FirstActive(conds: seq<Expr>, i: nat): (r: Option<Option<(nat, Tri)>>)
      requires i <= |conds|
      ensures r.Some? && r.value.Some? ==> i <= r.value.value.0 < |conds| && r.value.value.1 != 0
      decreases |conds| - i
    {
      if i == |conds| then Some(None)
      else
        var v :- Eval(conds[i]);
        if v != 0 then Some(Some((i, v))) else FirstActive(conds, i + 1)
    }

    // ---- choices ----

    function ChoiceType(c: nat): Option<Type> {
      if cfg.C(c).typ == Tristate then
        var m :- TriOf(cfg.modules);
        Some(if m == 0 then Bool else Tristate)
      else Some(cfg.C(c).typ)
    }

    // Choice.tri_value
    function Mode(c: nat): Option<Tri> {
      var low := if cfg.C(c).optional then 0 else 1;
      var asked := if u.UserMode(c).Some? then Max(low, u.UserMode(c).value) else low;
      var vis :- env.C(c).vis;
      var val := Min(asked, vis);
      if val == 1 then
        var t :- ChoiceType(c);
        Some(if t == Bool then 2 else 1)
      else Some(val)
    }

    function ChoiceVisibility(c: nat): Option<Tri> {
      var vis :- MaxEval(cfg.C(c).prompts, |cfg.C(c).prompts|);
      if vis == 1 then
        var t :- ChoiceType(c);
        Some(if t == Tristate then 1 else 2)
      else Some(vis)
    }

    function ChoiceAssignable(c: nat): Option<seq<Tri>> {
      var vis :- env.C(c).vis;
      if vis == 0 then Some([])
      else if vis == 2 then
        var t :- ChoiceType(c);
        Some((if cfg.C(c).optional then [0] else []) + (if t == Bool then [2] else [1, 2]))
      else Some(if cfg.C(c).optional then [0, 1] else [1])
    }

    function FirstVisible(members: seq<nat>, i: nat): Option<Option<nat>>
      requires i <= |members|
      decreases |members| - i
    {
      if i == |members| then Some(None)
      else
        var v :- env.S(members[i]).vis;
        if v != 0 then Some(Some(members[i])) else FirstVisible(members, i + 1)
    }

    // Choice._get_selection_from_defaults(), from the i-th default on.
    function DefaultSelection(c: nat, i: nat): Option<Option<nat>>
      requires i <= |cfg.C(c).defaults|
      decreases |cfg.C(c).defaults| - i
    {
      if i == |cfg.C(c).defaults| then FirstVisible(cfg.C(c).members, 0)
      else
        var d := cfg.C(c).defaults[i];
        var v :- Eval(d.cond);
        if v == 0 then DefaultSelection(c, i + 1)
        else
          var vis :- env.S(d.sym).vis;
          if vis != 0 then Some(Some(d.sym)) else DefaultSelection(c, i + 1)
    }

    function Selection(c: nat): Option<Option<nat>> {
      var mode :- Mode(c);
      if mode != 2 then Some(None)
      else if u.UserSel(c).Some? then
        var vis :- env.S(u.UserSel(c).value).vis;
        if vis != 0 then Some(u.UserSel(c)) else DefaultSelection(c, 0)
      else DefaultSelection(c, 0)
    }

    // ---- symbols ----

    // Symbol.type
    function SymType(s: nat): Option<Type> {
      var d := cfg.S(s);
      if d.typ != Tristate then Some(d.typ)
      else if d.choice.Some? then
        var mode :- Mode(d.choice.value);
        if mode == 2 then Some(Bool) else ModulesType()
      else ModulesType()
    }

    function ModulesType(): Option<Type> {
      var m :- TriOf(cfg.modules);
      Some(if m == 0 then Bool else Tristate)
    }

    function Promoted(s: nat, vis: Tri): Option<Tri> {
      if vis == 1 then
        var t :- SymType(s);
        Some(if t == Tristate then 1 else 2)
      else Some(vis)
    }

    // _visibility()
    function Visibility(s: nat): Option<Tri> {
      var d := cfg.S(s);
      var vis :- MaxEval(d.prompts, |d.prompts|);
      if d.choice.Some? && cfg.C(d.choice.value).typ == Tristate && d.typ != Tristate then
        var mode :- Mode(d.choice.value);
        if mode != 2 then Some(0) else Promoted(s, vis)
      else if d.choice.Some? && d.typ == Tristate && vis == 1 then
        var mode :- Mode(d.choice.value);
        if mode == 2 then Some(0) else Promoted(s, vis)
      else Promoted(s, vis)
    }

    // The value a non-choice bool or tristate symbol takes from its defaults, with the write flag.
    function FromDefaults(s: nat, write: bool): Option<Written<Tri>> {
      var d := cfg.S(s);
      var first :- FirstActive(DefaultConds(d.defaults), 0);
      match first
      case None => Some(Written(0, write))
      case Some((i, cond)) =>
        var v :- Eval(d.defaults[i].value);
        Some(Written(Min(v, cond), write || Min(v, cond) != 0))
    }

    // ... and then from imply.
    function FromImplies(s: nat, w: Written<Tri>): Option<Written<Tri>> {
      var weak :- Eval(cfg.S(s).weakRevDep);
      if weak == 0 then Some(w)
      else
        var dep :- Eval(cfg.S(s).directDep);
        Some(if dep == 0 then w else Written(Max(weak, w.val), true))
    }

    // select
    function Selected(s: nat, w: Written<Tri>): Option<Written<Tri>> {
      var rev :- Eval(cfg.S(s).revDep);
      Some(if rev == 0 then w else Written(Max(rev, w.val), true))
    }

    // m becomes y for bool symbols and under imply y.
    function RoundUp(s: nat, w: Written<Tri>): Option<Written<Tri>> {
      if w.val != 1 then Some(w)
      else
        var t :- SymType(s);
        if t == Bool then Some(w.(val := 2))
        else
          var weak :- Eval(cfg.S(s).weakRevDep);
          Some(if weak == 2 then w.(val := 2) else w)
    }

    function BeforeSelect(s: nat, vis: Tri): Option<Written<Tri>> {
      if vis != 0 && u.UserTri(s).Some? then Some(Written(Min(u.UserTri(s).value, vis), true))
      else
        var w :- FromDefaults(s, vis != 0);
        FromImplies(s, w)
    }

    function ChoiceSymbolValue(s: nat, c: nat, vis: Tri): Option<Written<Tri>> {
      if vis == 2 then
        var sel :- env.C(c).sel;
        Some(Written(if sel == Some(s) then 2 else 0, true))
      else if vis != 0 && u.UserTri(s).Some? && u.UserTri(s).value != 0 then Some(Written(1, true))
      else Some(Written(0, vis != 0))
    }

    // Symbol.tri_value of a bool or tristate symbol, and the _write_to_conf flag it leaves.
    function TriValue(s: nat): Option<Written<Tri>> {
      var vis :- env.S(s).vis;
      match cfg.S(s).choice
      case Some(c) => ChoiceSymbolValue(s, c, vis)
      case None =>
        var w :- BeforeSelect(s, vis);
        var w' :- Selected(s, w);
        RoundUp(s, w')
    }

    // The numeric bounds of the active range, if any.
    function ActiveRange(s: nat): Option<Option<(int, int)>> {
      var d := cfg.S(s);
      var first :- FirstActive(RangeConds(d.ranges), 0);
      match first
      case None => Some(None)
      case Some((i, _)) =>
        var low :- StrOf(d.ranges[i].low);
        var high :- StrOf(d.ranges[i].high);
        Some(Some((cfg.NumOrZero(low, Base(d.typ)), cfg.NumOrZero(high, Base(d.typ)))))
    }

    // The string of the first active default, if any. (A default of a string, int or hex symbol
    // that is not a single symbol is rejected when the configuration is read.)
    function DefaultStr(s: nat): Option<Option<string>> {
      var d := cfg.S(s);
      var first :- FirstActive(DefaultConds(d.defaults), 0);
      match first
      case None => Some(None)
      case Some((i, _)) =>
        if d.defaults[i].value.Leaf? then
          var v :- StrOf(d.defaults[i].value.o);
          Some(Some(v))
        else Some(Some(""))
    }

    // The user value of a visible int or hex symbol, if there is one and it is inside the range.
    function AcceptedNumber(s: nat, vis: Tri, range: Option<(int, int)>): Option<string> {
      match u.UserStr(s)
      case None => None
      case Some(v) =>
        if vis == 0 || v == "" then None
        else if range.Some? && !(range.value.0 <= cfg.NumOrZero(v, Base(cfg.S(s).typ)) <= range.value.1) then None
        else Some(v)
    }

    // The text of the default (None: no default), or the bound of the range it lies beyond.
    function Clamped(s: nat, default: Option<string>, range: Option<(int, int)>): string {
      var base := Base(cfg.S(s).typ);
      var n := if default.Some? then cfg.NumOrZero(default.value, base) else 0;
      if range.Some? && n < range.value.0 then cfg.num.show(range.value.0, base)
      else if range.Some? && n > range.value.1 then cfg.num.show(range.value.1, base)
      else if default.Some? then default.value
      else ""
    }

    function NumberValue(s: nat, vis: Tri): Option<Written<string>> {
      var range :- ActiveRange(s);
      match AcceptedNumber(s, vis, range)
      case Some(v) => Some(Written(v, vis != 0))
      case None =>
        var d :- DefaultStr(s);
        Some(Written(Clamped(s, d, range), vis != 0 || d.Some?))
    }

    function TextValue(s: nat, vis: Tri): Option<Written<string>> {
      if vis != 0 && u.UserStr(s).Some? then Some(Written(u.UserStr(s).value, true))
      else
        var d :- DefaultStr(s);
        Some(Written(if d.Some? then d.value else "", vis != 0 || d.Some?))
    }

    // Symbol.str_value of a string, int or hex symbol, and the _write_to_conf flag it leaves.
    function TypedStrValue(s: nat): Option<Written<string>> {
      var vis :- env.S(s).vis;
      var w :- if cfg.S(s).typ == String then TextValue(s, vis) else NumberValue(s, vis);
      Some(w.(write := w.write && !cfg.S(s).auto))
    }

    // Symbol.str_value
    function StrValue(s: nat): Option<string> {
      if cfg.Boolish(s) then
        var t :- env.S(s).tri;
        Some(TriStr(t))
      else if cfg.S(s).typ == Unknown then Some(cfg.S(s).name)
      else
        var w :- TypedStrValue(s);
        Some(w.val)
    }

    // Symbol._assignable()
    function Assignable(s: nat): Option<seq<Tri>> {
      if !cfg.Boolish(s) then Some([])
      else
        var vis :- env.S(s).vis;
        if vis == 0 then Some([])
        else
          var rev :- Eval(cfg.S(s).revDep);
          if vis == 2 && cfg.S(s).choice.Some? then Some([2])
          else if rev == 2 then Some([2])
          else if vis == 1 && rev == 1 then Some([1])
          else
            var skipM :- if vis == 2 then NoM(s) else WeakY(s);
            if rev == 1 then Some(if skipM then [2] else [1, 2])
            else if vis == 2 then Some(if skipM then [0, 2] else [0, 1, 2])
            else Some(if skipM then [0, 2] else [0, 1])
    }

    function WeakY(s: nat): Option<bool> {
      var weak :- Eval(cfg.S(s).weakRevDep);
      Some(weak == 2)
    }

    // self.type is BOOL or expr_value(self.weak_rev_dep) == 2
    function NoM(s: nat): Option<bool> {
      var t :- SymType(s);
      if t == Bool then Some(true) else WeakY(s)
    }
  }
}
