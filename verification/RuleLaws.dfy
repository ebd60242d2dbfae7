// What the evaluation rules come to, said of the declared properties: visibilities, values, comparisons,
// ranges, selections, and which symbols are written.
module RuleLaws {
  import opened Basics
  import opened Model
  import opened Semantics
  import opened Dependencies
  import opened Evaluation
  import opened CacheState
  import opened UserValues
  import opened ChoiceLaws
  import opened ConfigText
  import opened ConfigFile

  // ---- the first condition that is met ----

  predicate Met(k: View, e: Expr) { k.Eval(e).Some? && k.Eval(e) != Some(0) }

  // The conditions before the i-th are n, and that one is not.
  ghost predicate First(k: View, conds: seq<Expr>, i: nat) {
    i < |conds| && Met(k, conds[i]) && forall j: nat :: j < i ==> k.Eval(conds[j]) == Some(0)
  }

  ghost predicate NoneMet(k: View, conds: seq<Expr>) { forall j: nat :: j < |conds| ==> k.Eval(conds[j]) == Some(0) }

  lemma {:induction false} FirstFound(k: View, conds: seq<Expr>, i: nat)
    requires i <= |conds| && k.FirstActive(conds, i).Some? && forall j: nat :: j < i ==> k.Eval(conds[j]) == Some(0)
    ensures
      match k.FirstActive(conds, i).value
      case None => NoneMet(k, conds)
      case Some((j, v)) => First(k, conds, j) && k.Eval(conds[j]) == Some(v)
    decreases |conds| - i
  {
    if i < |conds| && k.Eval(conds[i]) == Some(0) {
      FirstFound(k, conds, i + 1);
    }
  }

  // ---- visibilities ----

  // v is the largest value among es, n if there are none.
  ghost predicate LargestIs(k: View, es: seq<Expr>, v: Tri) {
    && (forall e :: e in es ==> k.Eval(e).Some? && k.Eval(e).value <= v)
    && (v == 0 || exists e :: e in es && k.Eval(e) == Some(v))
  }

  lemma {:induction false} LargestFound(k: View, es: seq<Expr>, n: nat)
    requires n <= |es| && k.MaxEval(es, n).Some?
    ensures LargestIs(k, es[..n], k.MaxEval(es, n).value)
  {
    if n > 0 {
      LargestFound(k, es, n - 1);
      assert es[..n] == es[..n - 1] + [es[n - 1]];
    }
  }

  // A tristate symbol counts as one only while MODULES is not n and its choice, if any, is not in y mode.
  predicate IsTristate(k: View, s: nat) {
    k.cfg.S(s).typ == Tristate && k.TriOf(k.cfg.modules) != Some(0) && (k.cfg.S(s).choice.Some? ==> k.Mode(k.cfg.S(s).choice.value) != Some(2))
  }

  // The mode of the choice hides a symbol: one that is no tristate, in a tristate choice not in y mode; or
  // a tristate whose prompts are only m, in y mode.
  predicate HiddenByMode(k: View, s: nat, v: Tri) {
    k.cfg.S(s).choice.Some? &&
    var c := k.cfg.S(s).choice.value;
    || (k.cfg.C(c).typ == Tristate && k.cfg.S(s).typ != Tristate && k.Mode(c) != Some(2))
    || (k.cfg.S(s).typ == Tristate && v == 1 && k.Mode(c) == Some(2))
  }

  // A symbol is as visible as the best of its prompts, m counting as y unless it is a tristate, and n in
  // the wrong mode of its choice.
  lemma {:induction false} VisibilityMeans(k: View, s: nat, v: Tri)
    requires Solution(k) && s < |k.cfg.syms| && LargestIs(k, k.cfg.S(s).prompts, v)
    ensures k.env.S(s).vis == Some(if HiddenByMode(k, s, v) then 0 else if v == 1 && !IsTristate(k, s) then 2 else v)
  {
    SymKnown(k, s);
    var es := k.cfg.S(s).prompts;
    LargestFound(k, es, |es|);
    assert es[..|es|] == es;
    ModulesKnown(k);
  }

  // There is such a v.
  lemma {:induction false} OneVisibility(k: View, s: nat) returns (v: Tri)
    requires Solution(k) && s < |k.cfg.syms|
    ensures LargestIs(k, k.cfg.S(s).prompts, v) && forall v': Tri :: LargestIs(k, k.cfg.S(s).prompts, v') ==> v' == v
  {
    SymKnown(k, s);
    var es := k.cfg.S(s).prompts;
    LargestFound(k, es, |es|);
    assert es[..|es|] == es;
    v := k.MaxEval(es, |es|).value;
  }

  lemma {:induction false} ChoiceVisibilityMeans(k: View, c: nat, v: Tri)
    requires Solution(k) && c < |k.cfg.choices| && LargestIs(k, k.cfg.C(c).prompts, v)
    ensures k.env.C(c).vis == Some(if v == 1 && !(k.cfg.C(c).typ == Tristate && k.TriOf(k.cfg.modules) != Some(0)) then 2 else v)
  {
    ChoiceKnown(k, c);
    var es := k.cfg.C(c).prompts;
    LargestFound(k, es, |es|);
    assert es[..|es|] == es;
    ModulesKnown(k);
  }

  // ---- comparisons ----

  predicate Relates(rel: Relation, a: int, b: int) {
    match rel
    case Equal => a == b
    case Unequal => a != b
    case Less => a < b
    case LessEqual => a <= b
    case Greater => b < a
    case GreaterEqual => b <= a
  }

  // The texts differ first where b has a larger character or a ends.
  ghost predicate ComesBefore(a: string, b: string) {
    exists i: nat :: i <= |a| && i < |b| && a[..i] == b[..i] && (i == |a| || a[i] < b[i])
  }

  ghost predicate RelatesTexts(rel: Relation, a: string, b: string) {
    match rel
    case Equal => a == b
    case Unequal => a != b
    case Less => ComesBefore(a, b)
    case LessEqual => !ComesBefore(b, a)
    case Greater => ComesBefore(b, a)
    case GreaterEqual => !ComesBefore(a, b)
  }

  lemma {:induction false} BeforeRest(a: string, b: string)
    requires a != "" && b != "" && a[0] == b[0]
    ensures ComesBefore(a, b) <==> ComesBefore(a[1..], b[1..])
  {
    if i: nat :| i <= |a| && i < |b| && a[..i] == b[..i] && (i == |a| || a[i] < b[i]) {
      assert i > 0 && a[1..][..i - 1] == a[..i][1..] && b[1..][..i - 1] == b[..i][1..];
    }
    if i: nat :| i <= |a[1..]| && i < |b[1..]| && a[1..][..i] == b[1..][..i] && (i == |a[1..]| || a[1..][i] < b[1..][i]) {
      assert a[..i + 1] == [a[0]] + a[1..][..i] && b[..i + 1] == [b[0]] + b[1..][..i];
    }
  }

  lemma {:induction false} BeforeMeans(a: string, b: string)
    requires ComesBefore(a, b)
    ensures a != b && b != "" && (a == "" || a[0] <= b[0])
  {
    var i: nat :| i <= |a| && i < |b| && a[..i] == b[..i] && (i == |a| || a[i] < b[i]);
    if i > 0 {
      assert a[..i][0] == b[..i][0];
    }
  }

  lemma {:induction false} BeforeAtStart(a: string, b: string)
    requires b != "" && (a == "" || a[0] < b[0])
    ensures ComesBefore(a, b) && !ComesBefore(b, a) && a != b
  {
    assert a[..0] == b[..0];
    if ComesBefore(b, a) {
      BeforeMeans(b, a);
    }
  }

  lemma {:induction false} StrCmpMeans(a: string, b: string)
    ensures StrCmp(a, b) == 0 <==> a == b
    ensures StrCmp(a, b) < 0 <==> ComesBefore(a, b)
    ensures StrCmp(a, b) > 0 <==> ComesBefore(b, a)
  {
    if a == b {
      if ComesBefore(a, b) {
        BeforeMeans(a, b);
      }
    } else if b != "" && (a == "" || a[0] < b[0]) {
      BeforeAtStart(a, b);
    } else if a != "" && (b == "" || b[0] < a[0]) {
      BeforeAtStart(b, a);
    } else {
      BeforeRest(a, b);
      BeforeRest(b, a);
      StrCmpMeans(a[1..], b[1..]);
      assert a == [a[0]] + a[1..] && b == [b[0]] + b[1..];
    }
  }

  // What an operand is as text: the name of an undefined symbol or constant stands for itself, and so does
  // that of a symbol without a type.
  predicate TextIs(k: View, o: Operand, text: string) {
    match o
    case Const(t) => text == TriStr(t)
    case Text(name) => text == name
    case Sym(x) => if k.cfg.S(x).typ == Unknown then text == k.cfg.S(x).name else k.env.S(x).str == Some(text)
  }

  // ... and as a number: n, m and y are 0, 1 and 2, int and hex symbols are read in their base, other text
  // as its form says.
  predicate NumberIs(k: View, o: Operand, n: int) {
    match o
    case Const(t) => n == t
    case Text(name) => k.cfg.num.parse(name, 0) == Some(n)
    case Sym(x) =>
      match k.cfg.S(x).typ
      case Bool => k.env.S(x).tri.Some? && n == k.env.S(x).tri.value
      case Tristate => k.env.S(x).tri.Some? && n == k.env.S(x).tri.value
      case Int => k.env.S(x).str.Some? && k.cfg.num.parse(k.env.S(x).str.value, 10) == Some(n)
      case Hex => k.env.S(x).str.Some? && k.cfg.num.parse(k.env.S(x).str.value, 16) == Some(n)
      case String => k.env.S(x).str.Some? && k.cfg.num.parse(k.env.S(x).str.value, 0) == Some(n)
      case Unknown => k.cfg.num.parse(k.cfg.S(x).name, 0) == Some(n)
  }

  predicate BothStrings(k: View, l: Operand, r: Operand) {
    l.Sym? && r.Sym? && k.cfg.S(l.id).typ == String && k.cfg.S(r.id).typ == String
  }

  lemma {:induction false} OperandMeans(k: View, o: Operand)
    ensures forall text: string :: TextIs(k, o, text) <==> k.StrOf(o) == Some(text)
    ensures forall n: int :: NumberIs(k, o, n) <==> k.NumOf(o) == Some(Some(n))
  {
    assert Base(Int) == 10 && Base(Hex) == 16 && Base(String) == 0 && Base(Unknown) == 0;
  }

  // A comparison is y or n. Two numbers are compared as numbers, unless both are string symbols.
  lemma {:induction false} NumbersCompare(k: View, rel: Relation, l: Operand, r: Operand, a: int, b: int)
    requires NumberIs(k, l, a) && NumberIs(k, r, b) && !BothStrings(k, l, r)
    ensures k.Eval(Compare(rel, l, r)) == Some(if Relates(rel, a, b) then 2 else 0)
  {
    OperandMeans(k, l);
    OperandMeans(k, r);
  }

  // Everything else is compared as text.
  lemma {:induction false} TextsCompare(k: View, rel: Relation, l: Operand, r: Operand, a: string, b: string)
    requires k.Eval(Compare(rel, l, r)).Some? && TextIs(k, l, a) && TextIs(k, r, b)
    requires BothStrings(k, l, r) || (forall n: int :: !NumberIs(k, l, n)) || (forall n: int :: !NumberIs(k, r, n))
    ensures k.Eval(Compare(rel, l, r)) == Some(2) <==> RelatesTexts(rel, a, b)
    ensures k.Eval(Compare(rel, l, r)) == Some(0) <==> !RelatesTexts(rel, a, b)
  {
    OperandMeans(k, l);
    OperandMeans(k, r);
    StrCmpMeans(a, b);
  }

  // ---- bool and tristate symbols ----

  // The first default whose condition is met gives d, the smaller of its value and its condition; without
  // one d is n.
  ghost predicate DefaultIs(k: View, s: nat, d: Tri) {
    var ds := k.cfg.S(s).defaults;
    || (NoneMet(k, DefaultConds(ds)) && d == 0)
    || exists i: nat :: First(k, DefaultConds(ds), i) && k.Eval(ds[i].value).Some? && d == Min(k.Eval(ds[i].value).value, k.Eval(ds[i].cond).value)
  }

  // The value that implies give: none unless the direct dependencies are met.
  function Implied(k: View, s: nat): Tri {
    if k.Eval(k.cfg.S(s).directDep) == Some(0) || k.Eval(k.cfg.S(s).weakRevDep).None? then 0 else k.Eval(k.cfg.S(s).weakRevDep).value
  }

  // m becomes y for a symbol that is bool now, and under an imply of y.
  function Rounded(k: View, s: nat, v: Tri): Tri {
    if v == 1 && (k.SymType(s) == Some(Bool) || k.Eval(k.cfg.S(s).weakRevDep) == Some(2)) then 2 else v
  }

  predicate UserInEffect(k: View, s: nat) { k.env.S(s).vis != Some(0) && k.u.UserTri(s).Some? }

  lemma {:induction false} DefaultFound(k: View, s: nat, write: bool)
    requires k.FromDefaults(s, write).Some?
    ensures
      var w := k.FromDefaults(s, write).value;
      DefaultIs(k, s, w.val) && w.write == (write || w.val != 0) && forall d: Tri :: DefaultIs(k, s, d) ==> d == w.val
  {
    FirstFound(k, DefaultConds(k.cfg.S(s).defaults), 0);
  }

  // There is exactly one such d.
  lemma {:induction false} OneDefault(k: View, s: nat) returns (d: Tri)
    requires Solution(k) && s < |k.cfg.syms| && k.cfg.Boolish(s) && k.cfg.S(s).choice.None? && !UserInEffect(k, s)
    ensures DefaultIs(k, s, d) && forall d': Tri :: DefaultIs(k, s, d') ==> d' == d
  {
    SymKnown(k, s);
    DefaultFound(k, s, k.env.S(s).vis != Some(0));
    d := k.FromDefaults(s, k.env.S(s).vis != Some(0)).value.val;
  }

  // Without a user value in effect: the largest of what selects, implies and defaults give, m being
  // rounded up. Implies count only while the direct dependencies are met.
  lemma {:induction false} ValueWithoutUser(k: View, s: nat, d: Tri)
    requires Solution(k) && s < |k.cfg.syms| && k.cfg.Boolish(s) && k.cfg.S(s).choice.None? && !UserInEffect(k, s) && DefaultIs(k, s, d)
    ensures k.Eval(k.cfg.S(s).revDep).Some? && k.Eval(k.cfg.S(s).weakRevDep).Some?
    ensures k.env.S(s).tri == Some(Rounded(k, s, Max(k.Eval(k.cfg.S(s).revDep).value, Max(Implied(k, s), d))))
  {
    SymKnown(k, s);
    DefaultFound(k, s, k.env.S(s).vis != Some(0));
  }

  // With one: the smaller of the user value and the visibility, unless a select gives more.
  lemma {:induction false} ValueWithUser(k: View, s: nat)
    requires Solution(k) && s < |k.cfg.syms| && k.cfg.Boolish(s) && k.cfg.S(s).choice.None? && UserInEffect(k, s)
    ensures k.Eval(k.cfg.S(s).revDep).Some? && k.env.S(s).vis.Some?
    ensures k.env.S(s).tri == Some(Rounded(k, s, Max(k.Eval(k.cfg.S(s).revDep).value, Min(k.u.UserTri(s).value, k.env.S(s).vis.value))))
  {
    SymKnown(k, s);
  }

  // In two states that agree on all else, it makes no difference which value below y an imply has while
  // the direct dependencies are not met.
  lemma {:induction false} UnmetImplyIsIdle(k: View, k': View, s: nat, d: Tri)
    requires Solution(k) && s < |k.cfg.syms| && k.cfg.Boolish(s) && k.cfg.S(s).choice.None? && !UserInEffect(k, s) && DefaultIs(k, s, d)
    requires Solution(k') && s < |k'.cfg.syms| && k'.cfg.Boolish(s) && k'.cfg.S(s).choice.None? && !UserInEffect(k', s) && DefaultIs(k', s, d)
    requires k.SymType(s) == k'.SymType(s) && k.Eval(k.cfg.S(s).revDep) == k'.Eval(k'.cfg.S(s).revDep)
    requires k.Eval(k.cfg.S(s).directDep) == Some(0) && k'.Eval(k'.cfg.S(s).directDep) == Some(0)
    requires k.Eval(k.cfg.S(s).weakRevDep) != Some(2) && k'.Eval(k'.cfg.S(s).weakRevDep) != Some(2)
    ensures k.env.S(s).tri == k'.env.S(s).tri
  {
    ValueWithoutUser(k, s, d);
    ValueWithoutUser(k', s, d);
  }

  // A choice symbol is y if it is selected, m in m mode if the user has set it, and otherwise n.
  lemma {:induction false} ChoiceSymbolMeans(k: View, s: nat, c: nat)
    requires Solution(k) && s < |k.cfg.syms| && k.cfg.Boolish(s) && k.cfg.S(s).choice == Some(c)
    ensures k.env.S(s).tri == Some(2) <==> k.env.S(s).vis == Some(2) && k.env.C(c).sel == Some(Some(s))
    ensures k.env.S(s).tri == Some(1) <==> k.env.S(s).vis == Some(1) && k.u.UserTri(s).Some? && k.u.UserTri(s) != Some(0)
  {
    SymKnown(k, s);
  }

  // ---- which symbols are written ----

  ghost predicate ToBeWritten(k: View, s: nat) {
    var d := k.cfg.S(s);
    if k.cfg.Boolish(s) then
      || k.env.S(s).vis != Some(0)
      || (d.choice.None? && (Met(k, d.revDep) || Implied(k, s) != 0 || exists v: Tri :: v != 0 && DefaultIs(k, s, v)))
    else d.typ != Unknown && !d.auto && (k.env.S(s).vis != Some(0) || exists i: nat :: First(k, DefaultConds(d.defaults), i))
  }

  lemma {:induction false} TriWritten(k: View, s: nat)
    requires Solution(k) && s < |k.cfg.syms| && k.cfg.Boolish(s)
    ensures Writes(k, s) <==> ToBeWritten(k, s)
  {
    SymKnown(k, s);
    if k.cfg.S(s).choice.None? && !UserInEffect(k, s) {
      DefaultFound(k, s, k.env.S(s).vis != Some(0));
    }
  }

  lemma {:induction false} TextWritten(k: View, s: nat)
    requires Solution(k) && s < |k.cfg.syms| && !k.cfg.Boolish(s)
    ensures Writes(k, s) <==> ToBeWritten(k, s)
  {
    SymKnown(k, s);
    if k.cfg.S(s).typ != Unknown && k.env.S(s).vis == Some(0) {
      FirstFound(k, DefaultConds(k.cfg.S(s).defaults), 0);
    }
  }

  // A symbol has a line if and only if it is visible, or something other than the user gives it a value:
  // a default, a select or an imply for bool and tristate symbols, a default for the others.
  lemma {:induction false} WrittenExactly(k: View, prefix: string, s: nat)
    requires Solution(k) && s < |k.cfg.syms|
    ensures ConfigString(k, prefix, s) != "" <==> ToBeWritten(k, s)
  {
    SymKnown(k, s);
    if k.cfg.Boolish(s) {
      TriWritten(k, s);
    } else {
      TextWritten(k, s);
    }
  }

  // In particular a bool or tristate symbol that is not n always has the line that says so.
  lemma {:induction false} NotNHasLine(k: View, prefix: string, s: nat)
    requires Solution(k) && s < |k.cfg.syms| && k.cfg.Boolish(s) && k.env.S(s).tri != Some(0)
    ensures k.env.S(s).tri.Some? && ConfigString(k, prefix, s) == SetLine(prefix, k.cfg.S(s).name, TriStr(k.env.S(s).tri.value)) + "\n"
  {
    SymKnown(k, s);
    if k.cfg.S(s).choice.None? && !UserInEffect(k, s) {
      DefaultFound(k, s, k.env.S(s).vis != Some(0));
    }
  }

  // ---- selections ----

  // The i-th default of the choice applies: its condition is met and its symbol is visible.
  predicate Applies(k: View, c: nat, i: nat) {
    i < |k.cfg.C(c).defaults| && Met(k, k.cfg.C(c).defaults[i].cond) && Shown(k, k.cfg.C(c).defaults[i].sym)
  }

  predicate Shown(k: View, s: nat) { k.env.S(s).vis.Some? && k.env.S(s).vis != Some(0) }

  ghost predicate FirstDefault(k: View, c: nat, i: nat) { Applies(k, c, i) && forall j: nat :: j < i ==> !Applies(k, c, j) }

  ghost predicate FirstMember(k: View, c: nat, i: nat) {
    var ms := k.cfg.C(c).members;
    i < |ms| && Shown(k, ms[i]) && forall j: nat :: j < i ==> !Shown(k, ms[j])
  }

  // The symbol of the first default that applies; or else the first visible symbol.
  ghost predicate DefaultPick(k: View, c: nat, sel: Option<nat>) {
    || (exists i: nat :: FirstDefault(k, c, i) && sel == Some(k.cfg.C(c).defaults[i].sym))
    || ((forall i: nat :: !Applies(k, c, i)) && exists i: nat :: FirstMember(k, c, i) && sel == Some(k.cfg.C(c).members[i]))
    || ((forall i: nat :: !Applies(k, c, i)) && (forall s :: s in k.cfg.C(c).members ==> !Shown(k, s)) && sel == None)
  }

  // In y mode: what the user selected, if it is visible; or else what is picked by default.
  ghost predicate SelectionIs(k: View, c: nat, sel: Option<nat>) {
    if k.Mode(c) != Some(2) then sel == None
    else if k.u.UserSel(c).Some? && Shown(k, k.u.UserSel(c).value) then sel == k.u.UserSel(c)
    else DefaultPick(k, c, sel)
  }

  lemma {:induction false} FirstMemberFound(k: View, c: nat, i: nat)
    requires i <= |k.cfg.C(c).members| && k.FirstVisible(k.cfg.C(c).members, i).Some?
    requires forall j: nat :: j < i ==> !Shown(k, k.cfg.C(c).members[j])
    ensures
      match k.FirstVisible(k.cfg.C(c).members, i).value
      case None => forall s :: s in k.cfg.C(c).members ==> !Shown(k, s)
      case Some(s) => exists j: nat :: FirstMember(k, c, j) && s == k.cfg.C(c).members[j]
    decreases |k.cfg.C(c).members| - i
  {
    var ms := k.cfg.C(c).members;
    if i < |ms| {
      if Shown(k, ms[i]) {
        assert FirstMember(k, c, i);
      } else {
        FirstMemberFound(k, c, i + 1);
      }
    }
  }

  lemma {:induction false} FirstDefaultFound(k: View, c: nat, i: nat)
    requires i <= |k.cfg.C(c).defaults| && k.DefaultSelection(c, i).Some? && forall j: nat :: j < i ==> !Applies(k, c, j)
    ensures DefaultPick(k, c, k.DefaultSelection(c, i).value)
    decreases |k.cfg.C(c).defaults| - i
  {
    var ds := k.cfg.C(c).defaults;
    if i == |ds| {
      FirstMemberFound(k, c, 0);
    } else if Applies(k, c, i) {
      assert FirstDefault(k, c, i);
    } else {
      FirstDefaultFound(k, c, i + 1);
    }
  }

  lemma {:induction false} SelectionExactly(k: View, c: nat, sel: Option<nat>)
    requires Solution(k) && c < |k.cfg.choices|
    ensures k.env.C(c).sel == Some(sel) <==> SelectionIs(k, c, sel)
  {
    ChoiceKnown(k, c);
    if k.Mode(c) == Some(2) && !(k.u.UserSel(c).Some? && Shown(k, k.u.UserSel(c).value)) {
      FirstDefaultFound(k, c, 0);
    }
    if SelectionIs(k, c, sel) {
      OneSelection(k, c, sel, k.env.C(c).sel.value);
    }
  }

  lemma {:induction false} OnePick(k: View, c: nat, a: Option<nat>, b: Option<nat>)
    requires DefaultPick(k, c, a) && DefaultPick(k, c, b)
    ensures a == b
  {
  }

  lemma {:induction false} OneSelection(k: View, c: nat, a: Option<nat>, b: Option<nat>)
    requires SelectionIs(k, c, a) && SelectionIs(k, c, b)
    ensures a == b
  {
    if DefaultPick(k, c, a) && DefaultPick(k, c, b) {
      OnePick(k, c, a, b);
    }
  }

  // ---- string, int and hex symbols ----

  // The text of the first default whose condition is met, None if there is none. (A default that is
  // not a single symbol is rejected when the configuration is read.)
  ghost predicate DefaultTextIs(k: View, s: nat, text: Option<string>) {
    var ds := k.cfg.S(s).defaults;
    || (NoneMet(k, DefaultConds(ds)) && text == None)
    || exists i: nat :: First(k, DefaultConds(ds), i) && text == if ds[i].value.Leaf? then k.StrOf(ds[i].value.o) else Some("")
  }

  // The bounds of the first range whose condition is met, None if there is none.
  ghost predicate RangeIs(k: View, s: nat, range: Option<(int, int)>) {
    var rs := k.cfg.S(s).ranges;
    || (NoneMet(k, RangeConds(rs)) && range == None)
    || exists i: nat ::
         && First(k, RangeConds(rs), i) && k.StrOf(rs[i].low).Some? && k.StrOf(rs[i].high).Some?
         && range == Some((Num(k, s, k.StrOf(rs[i].low).value), Num(k, s, k.StrOf(rs[i].high).value)))
  }

  // The number that a text stands for in the base of s.
  function Num(k: View, s: nat, text: string): int { k.cfg.NumOrZero(text, Base(k.cfg.S(s).typ)) }

  predicate Within(range: Option<(int, int)>, n: int) { range.None? || range.value.0 <= n <= range.value.1 }

  lemma {:induction false} DefaultTextFound(k: View, s: nat)
    requires k.DefaultStr(s).Some?
    ensures DefaultTextIs(k, s, k.DefaultStr(s).value) && forall text :: DefaultTextIs(k, s, text) ==> text == k.DefaultStr(s).value
  {
    FirstFound(k, DefaultConds(k.cfg.S(s).defaults), 0);
  }

  lemma {:induction false} RangeFound(k: View, s: nat)
    requires k.ActiveRange(s).Some?
    ensures RangeIs(k, s, k.ActiveRange(s).value) && forall range :: RangeIs(k, s, range) ==> range == k.ActiveRange(s).value
  {
    FirstFound(k, RangeConds(k.cfg.S(s).ranges), 0);
  }

  // The user value, of a visible symbol, if it is not empty and lies in the range.
  predicate NumberInEffect(k: View, s: nat, range: Option<(int, int)>) {
    k.env.S(s).vis != Some(0) && k.u.UserStr(s).Some? && k.u.UserStr(s) != Some("") && Within(range, Num(k, s, k.u.UserStr(s).value))
  }

  // The value of an int or hex symbol is the user value if that is in effect. Otherwise it is the text of
  // the default if its number lies in the range, and else the bound that it is beyond, printed.
  lemma {:induction false} NumberMeans(k: View, s: nat, range: Option<(int, int)>, default: Option<string>)
    requires Solution(k) && s < |k.cfg.syms| && (k.cfg.S(s).typ == Int || k.cfg.S(s).typ == Hex) && RangeIs(k, s, range)
    requires !NumberInEffect(k, s, range) ==> DefaultTextIs(k, s, default)
    ensures
      var n := if default.Some? then Num(k, s, default.value) else 0;
      var base := Base(k.cfg.S(s).typ);
      k.env.S(s).str == Some(
        if NumberInEffect(k, s, range) then k.u.UserStr(s).value
        else if range.Some? && n < range.value.0 then k.cfg.num.show(range.value.0, base)
        else if range.Some? && n > range.value.1 then k.cfg.num.show(range.value.1, base)
        else if default.Some? then default.value
        else "")
  {
    SymKnown(k, s);
    RangeFound(k, s);
    if !NumberInEffect(k, s, range) {
      DefaultTextFound(k, s);
    }
  }

  // There is exactly one range, and one default where it matters.
  lemma {:induction false} OneRange(k: View, s: nat) returns (range: Option<(int, int)>, default: Option<string>)
    requires Solution(k) && s < |k.cfg.syms| && (k.cfg.S(s).typ == Int || k.cfg.S(s).typ == Hex)
    ensures RangeIs(k, s, range) && forall r :: RangeIs(k, s, r) ==> r == range
    ensures !NumberInEffect(k, s, range) ==> DefaultTextIs(k, s, default) && forall t :: DefaultTextIs(k, s, t) ==> t == default
  {
    SymKnown(k, s);
    RangeFound(k, s);
    range, default := k.ActiveRange(s).value, None;
    if !NumberInEffect(k, s, range) {
      DefaultTextFound(k, s);
      default := k.DefaultStr(s).value;
    }
  }

  // Printed bounds are read back, and the empty text is no number.
  predicate NumeralsOk(k: View, s: nat, range: (int, int)) {
    var base := Base(k.cfg.S(s).typ);
    && k.cfg.num.parse("", base).None?
    && k.cfg.num.parse(k.cfg.num.show(range.0, base), base) == Some(range.0)
    && k.cfg.num.parse(k.cfg.num.show(range.1, base), base) == Some(range.1)
  }

  // So the number that the value stands for lies in the range.
  lemma {:induction false} ValueIsInRange(k: View, s: nat, range: (int, int))
    requires Solution(k) && s < |k.cfg.syms| && (k.cfg.S(s).typ == Int || k.cfg.S(s).typ == Hex)
    requires RangeIs(k, s, Some(range)) && range.0 <= range.1 && NumeralsOk(k, s, range)
    ensures k.env.S(s).str.Some? && range.0 <= Num(k, s, k.env.S(s).str.value) <= range.1
  {
    var r, default := OneRange(k, s);
    NumberMeans(k, s, r, default);
  }

  // The value of a string symbol: the user value while it is visible, or else the text of the default.
  lemma {:induction false} TextMeans(k: View, s: nat)
    requires Solution(k) && s < |k.cfg.syms| && k.cfg.S(s).typ == String
    ensures k.env.S(s).vis != Some(0) && k.u.UserStr(s).Some? ==> k.env.S(s).str == k.u.UserStr(s)
    ensures !(k.env.S(s).vis != Some(0) && k.u.UserStr(s).Some?) ==>
              exists text: Option<string> :: DefaultTextIs(k, s, text) && k.env.S(s).str == Some(if text.Some? then text.value else "")
  {
    SymKnown(k, s);
    if !(k.env.S(s).vis != Some(0) && k.u.UserStr(s).Some?) {
      DefaultTextFound(k, s);
    }
  }
}
