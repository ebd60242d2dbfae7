// Whole runs: any interleaving of reads, assignments and loads answers every read as if nothing had
// ever been cached.
module Runs {
  import opened Basics
  import opened Model
  import opened Semantics
  import opened Dependencies
  import opened Evaluation
  import opened CacheState
  import opened UserValues
  import opened Invalidation
  import opened ChoiceLaws
  import opened ConfigFile
  import opened Engine
  import opened ConfigIO

  datatype Request =
    | AskVisibility(s: nat)
    | AskTri(s: nat)
    | AskStr(s: nat)
    | AskAssignable(s: nat)
    | AskConfigString(s: nat)
    | AskChoiceVisibility(c: nat)
    | AskMode(c: nat)
    | AskSelection(c: nat)
    | AskChoiceAssignable(c: nat)
    | DoSet(s: nat, v: Input)
    | DoUnset(s: nat)
    | DoSetMode(c: nat, v: Input)
    | DoUnsetChoice(c: nat)
    | DoLoad(lines: seq<string>, replace: bool)

  datatype Answer = Level(t: Tri) | Words(str: string) | Levels(ts: seq<Tri>) | Member(sel: Option<nat>) | Outcome(ok: bool) | Done

  predicate Valid(cfg: Config, r: Request) {
    match r
    case AskChoiceVisibility(c) => c < |cfg.choices|
    case AskMode(c) => c < |cfg.choices|
    case AskSelection(c) => c < |cfg.choices|
    case AskChoiceAssignable(c) => c < |cfg.choices|
    case DoSetMode(c, _) => c < |cfg.choices|
    case DoUnsetChoice(c) => c < |cfg.choices|
    case DoLoad(_, _) => true
    case _ => r.s < |cfg.syms|
  }

  // What a request does to the user choices.
  function After(cfg: Config, prefix: string, w: Loaded, r: Request): Loaded {
    match r
    case DoSet(s, v) => ApplySet(cfg, w, s, v)
    case DoUnset(s) => w.(u := UnsetUser(w.u, s))
    case DoSetMode(c, v) => ApplyMode(cfg, w, c, v)
    case DoUnsetChoice(c) => w.(u := UnsetChoice(w.u, c))
    case DoLoad(lines, replace) => if LoadedShaped(cfg, w) then AfterLoad(cfg, prefix, w, lines, replace) else w
    case _ => w
  }

  function AfterAll(cfg: Config, prefix: string, w: Loaded, rs: seq<Request>): Loaded {
    if rs == [] then w else After(cfg, prefix, AfterAll(cfg, prefix, w, rs[..|rs| - 1]), rs[|rs| - 1])
  }

  // The right answer, according to values that know of no cache.
  predicate Right(k: View, prefix: string, r: Request, a: Answer) {
    match r
    case AskVisibility(s) => a.Level? && k.env.S(s).vis == Some(a.t)
    case AskTri(s) => a.Level? && k.env.S(s).tri == Some(a.t)
    case AskStr(s) => a.Words? && k.env.S(s).str == Some(a.str)
    case AskAssignable(s) => a.Levels? && k.Assignable(s) == Some(a.ts)
    case AskConfigString(s) => a.Words? && a.str == ConfigString(k, prefix, s)
    case AskChoiceVisibility(c) => a.Level? && k.env.C(c).vis == Some(a.t)
    case AskMode(c) => a.Level? && k.Mode(c) == Some(a.t)
    case AskSelection(c) => a.Member? && k.env.C(c).sel == Some(a.sel)
    case AskChoiceAssignable(c) => a.Levels? && k.ChoiceAssignable(c) == Some(a.ts)
    case DoSet(s, v) => a == Outcome(Parsed(k.cfg, s, v).Some?)
    case DoSetMode(c, v) => a == Outcome(ParsedMode(k.cfg, c, v).Some?)
    case _ => a == Done
  }

  method ServeValue(kc: Kconfig, prefix: string, r: Request) returns (a: Answer)
    requires kc.Valid() && Valid(kc.cfg, r) && (r.AskVisibility? || r.AskTri? || r.AskStr? || r.AskConfigString?)
    modifies kc`st, kc.syms, kc.choices
    ensures kc.Valid() && kc.st.u == old(kc.st.u)
    ensures Right(Now(kc), prefix, r, a)
  {
    match r
    case AskVisibility(s) =>
      var t := kc.SymVisibility(s);
      CachesAgree(kc);
      assert LeqAt(kc.V(), Now(kc), SymVis(s));
      a := Level(t);
    case AskTri(s) =>
      var t := kc.SymTriValue(s);
      CachesAgree(kc);
      assert LeqAt(kc.V(), Now(kc), SymTri(s));
      a := Level(t);
    case AskStr(s) =>
      var str := kc.SymStrValue(s);
      CachesAgree(kc);
      assert LeqAt(kc.V(), Now(kc), SymStr(s));
      a := Words(str);
    case AskConfigString(s) =>
      var str := ConfigLine(kc, prefix, s);
      a := Words(str);
  }

  method ServeAssignable(kc: Kconfig, s: nat) returns (ts: seq<Tri>)
    requires kc.Valid() && s < |kc.cfg.syms|
    modifies kc`st, kc.syms, kc.choices
    ensures kc.Valid() && kc.st.u == old(kc.st.u)
    ensures Now(kc).Assignable(s) == Some(ts)
  {
    ts := kc.SymAssignable(s);
    CachesAgree(kc);
    AssignableLeq(kc.V(), Now(kc), s);
  }

  method ServeMode(kc: Kconfig, c: nat) returns (t: Tri)
    requires kc.Valid() && c < |kc.cfg.choices|
    modifies kc`st, kc.syms, kc.choices
    ensures kc.Valid() && kc.st.u == old(kc.st.u)
    ensures Now(kc).Mode(c) == Some(t)
  {
    ReadsBelowTop(kc, ChoiceSel(c));
    t := kc.ChoiceMode(c, kc.rank.top);
    CachesAgree(kc);
    ModeLeq(kc.V(), Now(kc), c);
  }

  method ServeChoice(kc: Kconfig, prefix: string, r: Request) returns (a: Answer)
    requires kc.Valid() && Valid(kc.cfg, r) && (r.AskChoiceVisibility? || r.AskMode? || r.AskSelection? || r.AskChoiceAssignable?)
    modifies kc`st, kc.syms, kc.choices
    ensures kc.Valid() && kc.st.u == old(kc.st.u)
    ensures Right(Now(kc), prefix, r, a)
  {
    match r
    case AskChoiceVisibility(c) =>
      var t := kc.ChoiceVisibility(c);
      CachesAgree(kc);
      assert LeqAt(kc.V(), Now(kc), ChoiceVis(c));
      a := Level(t);
    case AskMode(c) =>
      var t := ServeMode(kc, c);
      a := Level(t);
    case AskSelection(c) =>
      var sel := kc.Selection(c);
      CachesAgree(kc);
      assert LeqAt(kc.V(), Now(kc), ChoiceSel(c));
      a := Member(sel);
    case AskChoiceAssignable(c) =>
      var ts := kc.ChoiceAssignable(c);
      CachesAgree(kc);
      ChoiceAssignableLeq(kc.V(), Now(kc), c);
      a := Levels(ts);
  }

  predicate Changes(r: Request) { r.DoSet? || r.DoUnset? || r.DoSetMode? || r.DoUnsetChoice? || r.DoLoad? }

  predicate AsksChoice(r: Request) { r.AskChoiceVisibility? || r.AskMode? || r.AskSelection? || r.AskChoiceAssignable? }

  method ServeRead(kc: Kconfig, prefix: string, r: Request) returns (a: Answer)
    requires kc.Valid() && Valid(kc.cfg, r) && !Changes(r)
    modifies kc`st, kc.syms, kc.choices
    ensures kc.Valid() && kc.st.u == old(kc.st.u)
    ensures Right(Now(kc), prefix, r, a)
  {
    if AsksChoice(r) {
      a := ServeChoice(kc, prefix, r);
    } else if r.AskAssignable? {
      var ts := ServeAssignable(kc, r.s);
      a := Levels(ts);
    } else {
      a := ServeValue(kc, prefix, r);
    }
  }

  method ServeChange(kc: Kconfig, prefix: string, r: Request) returns (a: Answer)
    requires kc.Valid() && Valid(kc.cfg, r) && Changes(r)
    modifies kc`st, kc`setS, kc`setC, kc.syms, kc.choices
    ensures kc.Valid() && SoFar(kc) == After(kc.cfg, prefix, old(SoFar(kc)), r)
    ensures forall k: View :: k.cfg == kc.cfg ==> Right(k, prefix, r, a)
  {
    a := Done;
    match r
    case DoSet(s, v) =>
      var ok := kc.SetValue(s, v);
      a := Outcome(ok);
    case DoUnset(s) => kc.UnsetValue(s);
    case DoSetMode(c, v) =>
      var ok := kc.SetMode(c, v);
      a := Outcome(ok);
    case DoUnsetChoice(c) => kc.UnsetMode(c);
    case DoLoad(lines, replace) => LoadConfig(kc, prefix, lines, replace);
  }

  // Serves one request. Reads are answered from the caches and change no user choice.
  method Serve(kc: Kconfig, prefix: string, r: Request) returns (a: Answer)
    requires kc.Valid() && Valid(kc.cfg, r)
    modifies kc`st, kc`setS, kc`setC, kc.syms, kc.choices
    ensures kc.Valid() && SoFar(kc) == After(kc.cfg, prefix, old(SoFar(kc)), r)
    ensures Right(old(Now(kc)), prefix, r, a)
  {
    if Changes(r) {
      a := ServeChange(kc, prefix, r);
    } else {
      a := ServeRead(kc, prefix, r);
    }
  }

  // Any run from any valid state: every answer is right for the user choices at that point.
  method Run(kc: Kconfig, prefix: string, rs: seq<Request>) returns (answers: seq<Answer>)
    requires kc.Valid() && forall i :: 0 <= i < |rs| ==> Valid(kc.cfg, rs[i])
    modifies kc`st, kc`setS, kc`setC, kc.syms, kc.choices
    ensures kc.Valid() && SoFar(kc) == AfterAll(kc.cfg, prefix, old(SoFar(kc)), rs)
    ensures |answers| == |rs|
    ensures forall i :: 0 <= i < |rs| ==> RightAt(kc.cfg, prefix, old(SoFar(kc)), rs, i, answers[i])
  {
    ghost var w := SoFar(kc);
    answers := [];
    for i := 0 to |rs|
      invariant kc.Valid() && SoFar(kc) == AfterAll(kc.cfg, prefix, w, rs[..i])
      invariant |answers| == i
      invariant forall j :: 0 <= j < i ==> RightAt(kc.cfg, prefix, w, rs, j, answers[j])
    {
      assert rs[..i + 1][..i] == rs[..i];
      var a := Serve(kc, prefix, rs[i]);
      answers := answers + [a];
    }
    assert rs[..|rs|] == rs;
  }

  ghost predicate RightAt(cfg: Config, prefix: string, w: Loaded, rs: seq<Request>, i: nat, a: Answer)
    requires Evaluable(cfg) && i < |rs|
  {
    Right(Evaluated(cfg, AfterAll(cfg, prefix, w, rs[..i]).u), prefix, rs[i], a)
  }

  // ---- reachable states ----

  ghost predicate Proper(cfg: Config, w: Loaded) { LoadedShaped(cfg, w) && UsersOk(cfg, w.u) }

  lemma {:induction false} LoadLinesOk(cfg: Config, prefix: string, w: Loaded, lines: seq<string>)
    requires WellFormed(cfg) && Proper(cfg, w)
    ensures Proper(cfg, LoadLines(cfg, prefix, w, lines))
    decreases |lines|
  {
    if lines != [] {
      var a := Assignment(cfg, prefix, lines[0]);
      if a.Some? {
        AssignmentInRange(cfg, prefix, lines[0]);
        AssignOk(cfg, w, a.value.0, a.value.1);
      }
      LoadLinesOk(cfg, prefix, LoadLine(cfg, prefix, w, lines[0]), lines[1..]);
    }
  }

  lemma {:induction false} KeepSetOk(cfg: Config, w: Loaded)
    requires Proper(cfg, w)
    ensures Proper(cfg, w.(u := KeepSet(w)))
  {
    forall i: nat ensures UserOk(cfg, KeepSet(w), i) {
      assert UserOk(cfg, w.u, i);
    }
  }

  lemma {:induction false} AfterOk(cfg: Config, prefix: string, w: Loaded, r: Request)
    requires WellFormed(cfg) && Proper(cfg, w) && Valid(cfg, r)
    ensures Proper(cfg, After(cfg, prefix, w, r))
  {
    match r
    case DoSet(s, v) =>
      assert ChoiceSymbolOk(cfg, s);
      if Parsed(cfg, s, v).Some? {
        SetUserOk(cfg, w.u, s, v);
      }
    case DoUnset(s) => UnsetUserOk(cfg, w.u, s);
    case DoSetMode(c, v) =>
      if ParsedMode(cfg, c, v).Some? {
        SetModeOk(cfg, w.u, c, ParsedMode(cfg, c, v).value);
      }
    case DoUnsetChoice(c) => UnsetChoiceOk(cfg, w.u, c);
    case DoLoad(lines, replace) =>
      LoadLinesOk(cfg, prefix, w, lines);
      LoadLinesOk(cfg, prefix, Unmarked(w.u), lines);
      KeepSetOk(cfg, LoadLines(cfg, prefix, Unmarked(w.u), lines));
    case _ =>
  }

  // In every reachable state the laws about choices and assignable values apply.
  lemma {:induction false} ReachableIsInState(cfg: Config, prefix: string, rs: seq<Request>)
    requires WellFormed(cfg) && ChoicesGuarded(cfg) && Evaluable(cfg)
    requires forall i :: 0 <= i < |rs| ==> Valid(cfg, rs[i])
    ensures Proper(cfg, AfterAll(cfg, prefix, Unmarked(NoUsers(cfg)), rs))
    ensures InState(Evaluated(cfg, AfterAll(cfg, prefix, Unmarked(NoUsers(cfg)), rs).u))
  {
    if rs == [] {
      assert forall i: nat :: UserOk(cfg, NoUsers(cfg), i);
    } else {
      ReachableIsInState(cfg, prefix, rs[..|rs| - 1]);
      AfterOk(cfg, prefix, AfterAll(cfg, prefix, Unmarked(NoUsers(cfg)), rs[..|rs| - 1]), rs[|rs| - 1]);
    }
    var u := AfterAll(cfg, prefix, Unmarked(NoUsers(cfg)), rs).u;
    UsersSelectMembers(cfg, u);
    ValuesAreTheSolution(cfg, u);
  }

  predicate Off(k: View, members: seq<nat>) { forall i :: 0 <= i < |members| ==> k.env.S(members[i]).tri == Some(0) }

  // In y mode exactly one symbol is y if any is visible, and otherwise none; in m mode none is y; in
  // n mode all are n. A visible choice is in a mode that it could be assigned.
  ghost predicate Exclusive(k: View, c: nat) {
    var members := k.cfg.C(c).members;
    && k.Mode(c).Some?
    && (k.Mode(c) == Some(2) ==>
          if forall i :: 0 <= i < |members| ==> k.env.S(members[i]).vis == Some(0) then Off(k, members)
          else exists s :: s in members && k.env.S(s).vis != Some(0) && OnlyY(k, members, s))
    && (k.Mode(c) == Some(1) ==> forall s :: s in members ==> k.env.S(s).tri == Some(0) || k.env.S(s).tri == Some(1))
    && (k.Mode(c) == Some(0) ==> Off(k, members))
    && (k.env.C(c).vis != Some(0) ==> k.ChoiceAssignable(c).Some? && k.Mode(c).value in k.ChoiceAssignable(c).value)
  }

  predicate OnlyY(k: View, members: seq<nat>, s: nat) {
    k.env.S(s).tri == Some(2) && forall i :: 0 <= i < |members| && members[i] != s ==> k.env.S(members[i]).tri == Some(0)
  }

  ghost predicate BoolishMembers(cfg: Config, c: nat) { BoolishChoice(cfg, c) && forall s :: s in cfg.C(c).members ==> cfg.Boolish(s) }

  lemma {:induction false} StateIsExclusive(k: View, c: nat)
    requires InState(k) && c < |k.cfg.choices| && BoolishMembers(k.cfg, c)
    ensures Exclusive(k, c)
  {
    var members := k.cfg.C(c).members;
    ChoiceKnown(k, c);
    SelectionIsVisibleMember(k, c);
    if k.env.C(c).vis != Some(0) {
      ModeIsAssignable(k, c);
    }
    forall i | 0 <= i < |members|
      ensures k.Mode(c) == Some(2) ==> k.env.S(members[i]).tri == Some(if k.env.C(c).sel == Some(Some(members[i])) then 2 else 0)
      ensures k.Mode(c) != Some(2) ==> k.env.S(members[i]).tri.Some? && k.env.S(members[i]).tri.value <= k.Mode(c).value
    {
      if k.Mode(c) == Some(2) {
        YModeSetsExactlyTheSelection(k, c, members[i]);
      } else {
        LowModesBoundTheSymbols(k, c, members[i]);
      }
    }
    if k.Mode(c) == Some(2) && k.env.C(c).sel.value.Some? {
      assert OnlyY(k, members, k.env.C(c).sel.value.value);
    }
  }

  // Choice exclusivity in every reachable state.
  lemma {:induction false} ChoicesAreExclusive(cfg: Config, prefix: string, rs: seq<Request>, c: nat)
    requires WellFormed(cfg) && ChoicesGuarded(cfg) && Evaluable(cfg)
    requires forall i :: 0 <= i < |rs| ==> Valid(cfg, rs[i])
    requires c < |cfg.choices| && BoolishMembers(cfg, c)
    ensures Exclusive(Evaluated(cfg, AfterAll(cfg, prefix, Unmarked(NoUsers(cfg)), rs).u), c)
  {
    ReachableIsInState(cfg, prefix, rs);
    StateIsExclusive(Evaluated(cfg, AfterAll(cfg, prefix, Unmarked(NoUsers(cfg)), rs).u), c);
  }
}
