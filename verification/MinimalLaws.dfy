// Which symbols a minimal configuration leaves out, said of the declared properties.
module MinimalLaws {
  import opened Basics
  import opened Model
  import opened Semantics
  import opened Evaluation
  import opened ChoiceLaws
  import opened RoundTrip
  import opened ConfigFile
  import opened ConfigIO
  import opened RuleLaws

  lemma {:induction false} FirstIsActive(k: View, conds: seq<Expr>, j: nat, i: nat)
    requires j <= i && First(k, conds, i)
    ensures k.FirstActive(conds, j) == Some(Some((i, k.Eval(conds[i]).value)))
    decreases i - j
  {
    if j < i {
      FirstIsActive(k, conds, j + 1, i);
    }
  }

  lemma {:induction false} NoneIsActive(k: View, conds: seq<Expr>, j: nat)
    requires j <= |conds| && NoneMet(k, conds)
    ensures k.FirstActive(conds, j) == Some(None)
    decreases |conds| - j
  {
    if j < |conds| {
      NoneIsActive(k, conds, j + 1);
    }
  }

  lemma {:induction false} DefaultIsTaken(k: View, s: nat, d: Tri)
    requires DefaultIs(k, s, d)
    ensures BoolDefault(k, s) == Some(d)
  {
    var ds := k.cfg.S(s).defaults;
    if NoneMet(k, DefaultConds(ds)) {
      NoneIsActive(k, DefaultConds(ds), 0);
    } else {
      var i: nat :| First(k, DefaultConds(ds), i) && k.Eval(ds[i].value).Some? && d == Min(k.Eval(ds[i].value).value, k.Eval(ds[i].cond).value);
      FirstIsActive(k, DefaultConds(ds), 0, i);
    }
  }

  lemma {:induction false} DefaultTextIsTaken(k: View, s: nat, text: Option<string>)
    requires DefaultTextIs(k, s, text) && (forall i: nat :: First(k, DefaultConds(k.cfg.S(s).defaults), i) ==> text.Some?)
    ensures k.DefaultStr(s) == Some(text)
  {
    var ds := k.cfg.S(s).defaults;
    if NoneMet(k, DefaultConds(ds)) {
      NoneIsActive(k, DefaultConds(ds), 0);
    } else {
      var i: nat :| First(k, DefaultConds(ds), i);
      FirstIsActive(k, DefaultConds(ds), 0, i);
    }
  }

  // A bool or tristate symbol outside choices is left out if a select is at least as large as its
  // visibility, or if its value is the largest of the selects, the implies (met or not) and the default.
  lemma {:induction false} OmittedTri(k: View, s: nat, d: Tri)
    requires Solution(k) && s < |k.cfg.syms| && k.cfg.Boolish(s) && k.cfg.S(s).choice.None?
    requires DefaultIs(k, s, d) && k.Eval(k.cfg.S(s).revDep).Some? && k.Eval(k.cfg.S(s).weakRevDep).Some? && k.SymType(s).Some?
    ensures k.env.S(s).vis.Some?
    ensures
      var rev, weak := k.Eval(k.cfg.S(s).revDep).value, k.Eval(k.cfg.S(s).weakRevDep).value;
      var best := Max(Max(rev, weak), d);
      Omitted(k, s) <==> k.env.S(s).vis.value <= rev || k.env.S(s).tri == Some(if best == 1 && k.SymType(s) == Some(Bool) then 2 else best)
  {
    SymKnown(k, s);
    DefaultIsTaken(k, s, d);
  }

  // Another symbol is left out if a select covers it, or its value is the text of its default.
  lemma {:induction false} OmittedText(k: View, s: nat, text: Option<string>)
    requires Solution(k) && s < |k.cfg.syms| && !k.cfg.Boolish(s) && k.cfg.S(s).typ != Unknown && k.cfg.S(s).choice.None?
    requires k.Eval(k.cfg.S(s).revDep).Some?
    requires DefaultTextIs(k, s, text) && (forall i: nat :: First(k, DefaultConds(k.cfg.S(s).defaults), i) ==> text.Some?)
    ensures k.env.S(s).vis.Some?
    ensures Omitted(k, s) <==>
            k.env.S(s).vis.value <= k.Eval(k.cfg.S(s).revDep).value || k.env.S(s).str == Some(if text.Some? then text.value else "")
  {
    SymKnown(k, s);
    DefaultTextIsTaken(k, s, text);
  }

  // A choice symbol is left out if it is n, or if it is a bool symbol that is y, and the choice is not
  // optional and would pick it by default.
  lemma {:induction false} OmittedChoiceSymbol(k: View, s: nat, c: nat, pick: Option<nat>)
    requires Solution(k) && s < |k.cfg.syms| && k.cfg.Boolish(s) && k.cfg.S(s).choice == Some(c)
    requires k.DefaultSelection(c, 0).Some? && DefaultPick(k, c, pick)
    ensures Omitted(k, s) <==>
            || k.env.S(s).tri == Some(0)
            || (k.env.S(s).tri == Some(2) && k.cfg.S(s).typ == Bool && !k.cfg.C(c).optional && pick == Some(s))
  {
    SymKnown(k, s);
    FirstDefaultFound(k, c, 0);
    OnePick(k, c, pick, k.DefaultSelection(c, 0).value);
  }

  // A minimal configuration has entries for exactly the symbols that are not left out, in order.
  lemma {:induction false} MinimalHasTheRest(k: View, n: nat)
    ensures forall p :: p in MinPieces(k, n) <==> p.Entry? && p.s < n && !Omitted(k, p.s)
    ensures forall i, j :: 0 <= i < j < |MinPieces(k, n)| && MinPieces(k, n)[i].Entry? && MinPieces(k, n)[j].Entry? ==> MinPieces(k, n)[i].s < MinPieces(k, n)[j].s
  {
    if n > 0 {
      MinimalHasTheRest(k, n - 1);
      var ps, more := MinPieces(k, n - 1), MinPiece(k, n - 1);
      assert forall i :: 0 <= i < |ps| ==> ps[i] in ps;
    }
  }
}
