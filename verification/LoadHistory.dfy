// A replacing load compared with a load into an untouched configuration.
module LoadHistory {
  import opened Basics
  import opened Model
  import opened UserValues
  import opened ConfigText
  import opened ConfigFile

  // The choice to one of whose symbols the line assigns the given value.
  function AssignsIn(cfg: Config, prefix: string, line: string, value: string): set<nat> {
    match Assignment(cfg, prefix, line)
    case Some((s, text)) => if text == value then ChoiceOf(cfg, s) else {}
    case None => {}
  }

  // The choices with a symbol that the file sets to y.
  function YChoices(cfg: Config, prefix: string, lines: seq<string>): set<nat> {
    if lines == [] then {} else AssignsIn(cfg, prefix, lines[0], "y") + YChoices(cfg, prefix, lines[1..])
  }

  // The tristate choices with a symbol that the file sets to m.
  function MChoices(cfg: Config, prefix: string, lines: seq<string>): set<nat> {
    if lines == [] then {}
    else TristateOnly(cfg, AssignsIn(cfg, prefix, lines[0], "m")) + MChoices(cfg, prefix, lines[1..])
  }

  // Two loads of the same lines, one started from u and one from no user values: ys and ms are the
  // choices with a symbol set to y or m so far.
  predicate TwinSymbol(w: Loaded, w0: Loaded, s: nat) {
    s < |w.setS| == |w0.setS| == |w.u.val| == |w0.u.val| ==> w.setS[s] == w0.setS[s] && (w.setS[s] ==> w.u.val[s] == w0.u.val[s])
  }

  predicate TwinChoice(u: Users, w: Loaded, w0: Loaded, ys: set<nat>, ms: set<nat>, c: nat) {
    c < |w.setC| == |w0.setC| == |w.u.mode| == |w0.u.mode| == |w.u.sel| == |w0.u.sel| == |u.sel| ==>
      && w.setC[c] == w0.setC[c] == (c in ys || c in ms)
      && (w.setC[c] ==> w.u.mode[c] == w0.u.mode[c])
      && (if c in ys then w.u.sel[c] == w0.u.sel[c] else w.u.sel[c] == u.sel[c] && w0.u.sel[c].None?)
  }

  ghost predicate Twins(cfg: Config, u: Users, w: Loaded, w0: Loaded, ys: set<nat>, ms: set<nat>) {
    && UsersShaped(cfg, u) && LoadedShaped(cfg, w) && LoadedShaped(cfg, w0)
    && (forall c: nat :: cfg.C(c).typ != Bool && cfg.C(c).typ != Tristate ==> w.u.UserMode(c).None? && w0.u.UserMode(c).None?)
    && (forall s: nat :: TwinSymbol(w, w0, s))
    && (forall c: nat :: TwinChoice(u, w, w0, ys, ms, c))
  }

  lemma {:induction false} TwinSymbolAssign(cfg: Config, w: Loaded, w0: Loaded, s: nat, text: string, i: nat)
    requires LoadedShaped(cfg, w) && LoadedShaped(cfg, w0) && TwinSymbol(w, w0, i)
    ensures TwinSymbol(Assign(cfg, w, s, text), Assign(cfg, w0, s, text), i)
  {
  }

  // The choice of a bool or tristate symbol.
  function ChoiceOf(cfg: Config, s: nat): set<nat> {
    if cfg.Boolish(s) && cfg.S(s).choice.Some? then {cfg.S(s).choice.value} else {}
  }

  function TristateOnly(cfg: Config, cs: set<nat>): set<nat> { set c | c in cs && cfg.C(c).typ == Tristate }

  // First the mode is set, then the symbol; between the two nothing is compared.
  lemma {:induction false} TwinChoiceAssign(cfg: Config, u: Users, w: Loaded, w0: Loaded, ys: set<nat>, ms: set<nat>, s: nat, text: string, i: nat)
    requires Twins(cfg, u, w, w0, ys, ms)
    ensures TwinChoice(u, Assign(cfg, w, s, text), Assign(cfg, w0, s, text),
                       ys + (if text == "y" then ChoiceOf(cfg, s) else {}), ms + (if text == "m" then TristateOnly(cfg, ChoiceOf(cfg, s)) else {}), i)
  {
    assert TwinChoice(u, w, w0, ys, ms, i);
    if i !in ChoiceOf(cfg, s) {
      OtherChoice(cfg, w, s, text, i);
      OtherChoice(cfg, w0, s, text, i);
    } else if i < |cfg.choices| {
      OwnChoice(cfg, w, s, text, i);
      OwnChoice(cfg, w0, s, text, i);
    }
  }

  lemma {:induction false} OtherChoice(cfg: Config, w: Loaded, s: nat, text: string, i: nat)
    requires LoadedShaped(cfg, w) && i !in ChoiceOf(cfg, s)
    ensures
      var v := Assign(cfg, w, s, text);
      LoadedShaped(cfg, v) && (i < |cfg.choices| ==> v.setC[i] == w.setC[i] && v.u.mode[i] == w.u.mode[i] && v.u.sel[i] == w.u.sel[i])
  {
  }

  lemma {:induction false} OwnChoice(cfg: Config, w: Loaded, s: nat, text: string, i: nat)
    requires LoadedShaped(cfg, w) && i in ChoiceOf(cfg, s) && i < |cfg.choices|
    ensures
      var v := Assign(cfg, w, s, text);
      && LoadedShaped(cfg, v)
      && v.setC[i] == (w.setC[i] || text == "y" || (text == "m" && cfg.C(i).typ == Tristate))
      && v.u.sel[i] == (if text == "y" && s < |cfg.syms| then Some(s) else w.u.sel[i])
      && v.u.mode[i] == (if text == "y" && (cfg.C(i).typ == Bool || cfg.C(i).typ == Tristate) then Some(2)
                         else if text == "m" && cfg.C(i).typ == Tristate then Some(1) else w.u.mode[i])
  {
  }

  lemma {:induction false} TwinAssign(cfg: Config, u: Users, w: Loaded, w0: Loaded, ys: set<nat>, ms: set<nat>, s: nat, text: string)
    requires Twins(cfg, u, w, w0, ys, ms)
    ensures Twins(cfg, u, Assign(cfg, w, s, text), Assign(cfg, w0, s, text),
                  ys + (if text == "y" then ChoiceOf(cfg, s) else {}), ms + (if text == "m" then TristateOnly(cfg, ChoiceOf(cfg, s)) else {}))
  {
    forall i: nat ensures TwinSymbol(Assign(cfg, w, s, text), Assign(cfg, w0, s, text), i) {
      TwinSymbolAssign(cfg, w, w0, s, text, i);
    }
    var v, v0 := Assign(cfg, w, s, text), Assign(cfg, w0, s, text);
    var ys' := ys + (if text == "y" then ChoiceOf(cfg, s) else {});
    var ms' := ms + (if text == "m" then TristateOnly(cfg, ChoiceOf(cfg, s)) else {});
    forall i: nat ensures TwinChoice(u, v, v0, ys', ms', i) {
      TwinChoiceAssign(cfg, u, w, w0, ys, ms, s, text, i);
    }
    UntypedModes(cfg, w, s, text);
    UntypedModes(cfg, w0, s, text);
  }

  lemma {:induction false} UntypedModes(cfg: Config, w: Loaded, s: nat, text: string)
    requires LoadedShaped(cfg, w)
    requires forall c: nat :: cfg.C(c).typ != Bool && cfg.C(c).typ != Tristate ==> w.u.UserMode(c).None?
    ensures LoadedShaped(cfg, Assign(cfg, w, s, text))
    ensures forall c: nat :: cfg.C(c).typ != Bool && cfg.C(c).typ != Tristate ==> Assign(cfg, w, s, text).u.UserMode(c).None?
  {
    forall c: nat | cfg.C(c).typ != Bool && cfg.C(c).typ != Tristate && c < |cfg.choices| ensures Assign(cfg, w, s, text).u.UserMode(c).None? {
      assert w.u.UserMode(c).None?;
      if c in ChoiceOf(cfg, s) {
        OwnChoice(cfg, w, s, text, c);
      } else {
        OtherChoice(cfg, w, s, text, c);
      }
    }
  }

  lemma {:induction false} TwinLines(cfg: Config, prefix: string, u: Users, w: Loaded, w0: Loaded, ys: set<nat>, ms: set<nat>, lines: seq<string>)
    requires Twins(cfg, u, w, w0, ys, ms)
    ensures Twins(cfg, u, LoadLines(cfg, prefix, w, lines), LoadLines(cfg, prefix, w0, lines),
                  ys + YChoices(cfg, prefix, lines), ms + MChoices(cfg, prefix, lines))
    decreases |lines|
  {
    if lines == [] {
      assert ys + YChoices(cfg, prefix, lines) == ys && ms + MChoices(cfg, prefix, lines) == ms;
    } else {
      var y := AssignsIn(cfg, prefix, lines[0], "y");
      var m := TristateOnly(cfg, AssignsIn(cfg, prefix, lines[0], "m"));
      var a := Assignment(cfg, prefix, lines[0]);
      assert Twins(cfg, u, LoadLine(cfg, prefix, w, lines[0]), LoadLine(cfg, prefix, w0, lines[0]), ys + y, ms + m) by {
        if a.Some? {
          TwinAssign(cfg, u, w, w0, ys, ms, a.value.0, a.value.1);
          assert y == if a.value.1 == "y" then ChoiceOf(cfg, a.value.0) else {};
          assert m == if a.value.1 == "m" then TristateOnly(cfg, ChoiceOf(cfg, a.value.0)) else {};
        } else {
          assert ys + y == ys && ms + m == ms;
        }
      }
      TwinLines(cfg, prefix, u, LoadLine(cfg, prefix, w, lines[0]), LoadLine(cfg, prefix, w0, lines[0]), ys + y, ms + m, lines[1..]);
      assert ys + y + YChoices(cfg, prefix, lines[1..]) == ys + YChoices(cfg, prefix, lines);
      assert ms + m + MChoices(cfg, prefix, lines[1..]) == ms + MChoices(cfg, prefix, lines);
    }
  }

  // Loading with replace forgets the past, except for the user selection of a choice whose symbols
  // the file sets to m but never to y: the outcome is that of loading into an untouched configuration
  // if and only if no such choice had a user selection.
  lemma {:induction false} ReplacingForgets(cfg: Config, prefix: string, u: Users, lines: seq<string>)
    requires UsersShaped(cfg, u) && UsersOk(cfg, u)
    ensures LoadReplacing(cfg, prefix, u, lines) == LoadReplacing(cfg, prefix, NoUsers(cfg), lines)
            <==> forall c :: 0 <= c < |cfg.choices| && c in MChoices(cfg, prefix, lines) && c !in YChoices(cfg, prefix, lines) ==> u.sel[c].None?
  {
    var ys, ms := YChoices(cfg, prefix, lines), MChoices(cfg, prefix, lines);
    var w, w0 := Unmarked(u), Unmarked(NoUsers(cfg));
    forall c: nat ensures cfg.C(c).typ != Bool && cfg.C(c).typ != Tristate ==> u.UserMode(c).None? {
      assert UserOk(cfg, u, c);
    }
    TwinLines(cfg, prefix, u, w, w0, {}, {}, lines);
    assert {} + ys == ys && {} + ms == ms;
    var v, v0 := LoadLines(cfg, prefix, w, lines), LoadLines(cfg, prefix, w0, lines);
    forall s: nat | s < |cfg.syms| ensures KeepSet(v).val[s] == KeepSet(v0).val[s] {
      assert TwinSymbol(v, v0, s);
    }
    forall c: nat | c < |cfg.choices|
      ensures KeepSet(v).mode[c] == KeepSet(v0).mode[c]
      ensures KeepSet(v).sel[c] == KeepSet(v0).sel[c] <==> (c in ms && c !in ys ==> u.sel[c].None?)
    {
      assert TwinChoice(u, v, v0, ys, ms, c);
    }
    assert KeepSet(v).val == KeepSet(v0).val && KeepSet(v).mode == KeepSet(v0).mode;
  }

  // In particular the past never matters in configurations without tristate choices.
  lemma {:induction false} NoTristateNoMChoices(cfg: Config, prefix: string, lines: seq<string>)
    requires forall c: nat :: cfg.C(c).typ != Tristate
    ensures MChoices(cfg, prefix, lines) == {}
  {
    if lines != [] {
      NoTristateNoMChoices(cfg, prefix, lines[1..]);
    }
  }

  lemma {:induction false} BoolLoadForgets(cfg: Config, prefix: string, u: Users, lines: seq<string>)
    requires UsersShaped(cfg, u) && UsersOk(cfg, u) && forall c: nat :: cfg.C(c).typ != Tristate
    ensures LoadReplacing(cfg, prefix, u, lines) == LoadReplacing(cfg, prefix, NoUsers(cfg), lines)
  {
    ReplacingForgets(cfg, prefix, u, lines);
    NoTristateNoMChoices(cfg, prefix, lines);
  }

  // ---- the past survives ----

  // A tristate choice with the symbols A and B.
  function RememberingConfig(num: Numerals): Config {
    Config([SymDecl("A", Tristate, [InChoice(0)], [], [], NO, NO, InChoice(0), Some(0), false),
            SymDecl("B", Tristate, [InChoice(0)], [], [], NO, NO, InChoice(0), Some(0), false)],
           [ChoiceDecl(Tristate, [YES], [], [0, 1], false)], Const(2), num)
  }

  // B has been selected.
  const B_IS_SELECTED: Users := Users([None, Some(UTri(2))], [Some(2)], [Some(1)])

  lemma {:induction false} AssignsM(num: Numerals)
    ensures Assignment(RememberingConfig(num), "CONFIG_", "CONFIG_A=m") == Some((0, "m"))
  {
    var cfg := RememberingConfig(num);
    assert cfg.syms[0].name == "A" && cfg.syms[1].name == "B";
    assert IsName("A") && IsName("B") && NamesOk(cfg, "CONFIG_");
    assert SetLine("CONFIG_", "A", "m") == "CONFIG_A=m";
    SetReadBack(cfg, "CONFIG_", 0, "m");
  }

  // Loading a file that says only that A is m leaves B selected, which loading it into an untouched
  // configuration does not.
  lemma {:induction false} SelectionSurvives(num: Numerals)
    ensures
      var cfg := RememberingConfig(num);
      && UsersShaped(cfg, B_IS_SELECTED) && UsersOk(cfg, B_IS_SELECTED)
      && LoadReplacing(cfg, "CONFIG_", B_IS_SELECTED, ["CONFIG_A=m"]) == Users([Some(UTri(1)), None], [Some(1)], [Some(1)])
      && LoadReplacing(cfg, "CONFIG_", NoUsers(cfg), ["CONFIG_A=m"]) == Users([Some(UTri(1)), None], [Some(1)], [None])
  {
    var cfg := RememberingConfig(num);
    AssignsM(num);
    forall i: nat ensures UserOk(cfg, B_IS_SELECTED, i) {
    }
    forall w: Loaded ensures LoadLines(cfg, "CONFIG_", w, ["CONFIG_A=m"]) == Assign(cfg, w, 0, "m") {
      OneLineEffect(cfg, "CONFIG_", w, "CONFIG_A=m");
    }
    assert WordTri("m") == Some(1) && Parsed(cfg, 0, Word("m")) == Some(UTri(1)) && ParsedMode(cfg, 0, Word("m")) == Some(1);
  }
}
