// Saving and loading on the objects: what the caches lead to is what the cache-free values say.
module ConfigIO {
  import opened Basics
  import opened Model
  import opened Semantics
  import opened Dependencies
  import opened Evaluation
  import opened CacheState
  import opened Coherence
  import opened UserValues
  import opened RoundTrip
  import opened ConfigText
  import opened ConfigFile
  import opened Engine

  // The cache-free view of the current user choices.
  ghost function Now(kc: Kconfig): View
    requires kc.Valid()
    reads kc, kc.syms, kc.choices
  {
    Evaluated(kc.cfg, kc.st.u)
  }

  // Whatever is cached is what the cache-free evaluator gives.
  lemma {:induction false} CachesAgree(kc: Kconfig)
    requires kc.Valid()
    ensures Grown(kc.V(), Now(kc)) && Solution(Now(kc))
  {
    var k := kc.V();
    forall q ensures LeqAt(k, Now(kc), q) {
      if Known(k, q) {
        KnownInRange(k, q);
        CacheIsCorrect(k, q);
      }
    }
    ValuesAreTheSolution(kc.cfg, kc.st.u);
  }

  lemma {:induction false} ReadsBelowTop(kc: Kconfig, q: Quantity)
    requires kc.Valid() && InRange(kc.cfg, q)
    ensures kc.Below(Reads(kc.cfg, q), kc.rank.top)
  {
    assert ReadsLower(kc.cfg, kc.rank, q);
    forall q' | q' in Reads(kc.cfg, q) ensures kc.rank.of(q') < kc.rank.top {
      assert ReadsLower(kc.cfg, kc.rank, q');
    }
  }

  // ---- writing ----

  // Symbol.config_string
  method ConfigLine(kc: Kconfig, prefix: string, s: nat) returns (text: string)
    requires kc.Valid() && s < |kc.cfg.syms|
    modifies kc`st, kc.syms, kc.choices
    ensures kc.Valid() && kc.st.u == old(kc.st.u)
    ensures text == ConfigString(Now(kc), prefix, s)
  {
    var val := kc.SymStrValue(s);
    CachesAgree(kc);
    WriteFlagIsRight(kc, s);
    assert kc.SymLinked(s) && LeqAt(kc.V(), Now(kc), SymStr(s));
    if !kc.syms[s].writeToConf {
      return "";
    }
    text := EntryLine(kc.cfg, prefix, s, val) + "\n";
  }

  // Once the value of a symbol is cached, its _write_to_conf says whether it is written.
  lemma {:induction false} WriteFlagIsRight(kc: Kconfig, s: nat)
    requires kc.Valid() && s < |kc.cfg.syms| && kc.V().env.S(s).str.Some?
    ensures kc.st.write[s] == Writes(Now(kc), s)
  {
    CachesAgree(kc);
    assert SymbolOk(kc.cfg, kc.st, s) && Known(kc.V(), SymStr(s)) && Recomputed(kc.V(), SymStr(s));
    if kc.cfg.Boolish(s) {
      TriValueLeq(kc.V(), Now(kc), s);
    } else if kc.cfg.S(s).typ != Unknown {
      TypedStrValueLeq(kc.V(), Now(kc), s);
    }
  }

  method PlainDefault(kc: Kconfig, s: nat) returns (text: string)
    requires kc.Valid() && s < |kc.cfg.syms| && kc.cfg.Boolish(s) && kc.cfg.S(s).choice.None?
    modifies kc`st, kc.syms, kc.choices
    ensures kc.Valid() && kc.st.u == old(kc.st.u)
    ensures StrDefault(Now(kc), s) == Some(text)
  {
    ReadsBelowTop(kc, SymTri(s));
    var w := kc.DefaultsValue(s, false, kc.rank.top);
    CachesAgree(kc);
    FromDefaultsLeq(kc.V(), Now(kc), s, false);
    var rev := kc.ExprValue(kc.cfg.S(s).revDep, kc.rank.top);
    CachesAgree(kc);
    EvalLeq(kc.V(), Now(kc), kc.cfg.S(s).revDep);
    var weak := kc.ExprValue(kc.cfg.S(s).weakRevDep, kc.rank.top);
    CachesAgree(kc);
    EvalLeq(kc.V(), Now(kc), kc.cfg.S(s).weakRevDep);
    var val := Max(Max(rev, weak), w.val);
    if val == 1 {
      var t := kc.SymType(s, kc.rank.top);
      CachesAgree(kc);
      SymTypeLeq(kc.V(), Now(kc), s);
      val := if t == Bool then 2 else 1;
    }
    text := TriStr(val);
  }

  // Symbol._str_default()
  method DefaultText(kc: Kconfig, s: nat) returns (text: string)
    requires kc.Valid() && s < |kc.cfg.syms|
    modifies kc`st, kc.syms, kc.choices
    ensures kc.Valid() && kc.st.u == old(kc.st.u)
    ensures StrDefault(Now(kc), s) == Some(text)
  {
    if kc.cfg.Boolish(s) {
      if kc.cfg.S(s).choice.Some? {
        return "n";
      }
      text := PlainDefault(kc, s);
    } else if kc.cfg.S(s).typ == Unknown {
      text := "";
    } else {
      ReadsBelowTop(kc, SymStr(s));
      var d := kc.DefaultStr(s, kc.rank.top);
      CachesAgree(kc);
      DefaultStrLeq(kc.V(), Now(kc), s);
      text := if d.Some? then d.value else "";
    }
  }

  // sym.visibility <= expr_value(sym.rev_dep)
  method IsForced(kc: Kconfig, s: nat) returns (forced: bool)
    requires kc.Valid() && s < |kc.cfg.syms|
    modifies kc`st, kc.syms, kc.choices
    ensures kc.Valid() && kc.st.u == old(kc.st.u)
    ensures forced == Forced(Now(kc), s)
  {
    if kc.cfg.S(s).choice.Some? {
      return false;
    }
    var vis := kc.SymVisibility(s);
    CachesAgree(kc);
    assert LeqAt(kc.V(), Now(kc), SymVis(s));
    SelectsBelowTop(kc, s);
    var rev := kc.ExprValue(kc.cfg.S(s).revDep, kc.rank.top);
    CachesAgree(kc);
    EvalLeq(kc.V(), Now(kc), kc.cfg.S(s).revDep);
    forced := vis <= rev;
  }

  lemma {:induction false} SelectsBelowTop(kc: Kconfig, s: nat)
    requires kc.Valid() && s < |kc.cfg.syms| && kc.cfg.S(s).choice.None?
    ensures kc.Below(ExprRefs(kc.cfg, kc.cfg.S(s).revDep), kc.rank.top)
  {
    assert SelectsOk(kc.cfg, s);
    forall q | q in ExprRefs(kc.cfg, kc.cfg.S(s).revDep) ensures kc.rank.of(q) < kc.rank.top {
      assert ReadsLower(kc.cfg, kc.rank, q);
    }
  }

  // Whether the choice would select the symbol anyway.
  method IsSelectedAnyway(kc: Kconfig, s: nat) returns (anyway: bool)
    requires kc.Valid() && s < |kc.cfg.syms|
    modifies kc`st, kc.syms, kc.choices
    ensures kc.Valid() && kc.st.u == old(kc.st.u)
    ensures anyway == SelectedAnyway(Now(kc), s)
  {
    if kc.cfg.S(s).choice.None? || kc.cfg.S(s).typ != Bool {
      return false;
    }
    var c := kc.cfg.S(s).choice.value;
    assert ChoiceSymbolOk(kc.cfg, s);
    if kc.cfg.C(c).optional {
      return false;
    }
    ReadsBelowTop(kc, ChoiceSel(c));
    var sel := kc.SelectionFromDefaults(c, kc.rank.top);
    CachesAgree(kc);
    DefaultSelectionAgrees(kc, c);
    if sel != Some(s) {
      return false;
    }
    var t := kc.SymTriValue(s);
    CachesAgree(kc);
    assert LeqAt(kc.V(), Now(kc), SymTri(s));
    anyway := t == 2;
  }

  lemma {:induction false} DefaultSelectionAgrees(kc: Kconfig, c: nat)
    requires kc.Valid() && kc.V().DefaultSelection(c, 0).Some?
    ensures Now(kc).DefaultSelection(c, 0) == kc.V().DefaultSelection(c, 0)
  {
    CachesAgree(kc);
    DefaultSelectionLeq(kc.V(), Now(kc), c, 0);
  }

  method IsOmitted(kc: Kconfig, s: nat) returns (omitted: bool)
    requires kc.Valid() && s < |kc.cfg.syms|
    modifies kc`st, kc.syms, kc.choices
    ensures kc.Valid() && kc.st.u == old(kc.st.u)
    ensures omitted == Omitted(Now(kc), s)
  {
    var forced := IsForced(kc, s);
    if forced {
      return true;
    }
    var str := kc.SymStrValue(s);
    CachesAgree(kc);
    assert LeqAt(kc.V(), Now(kc), SymStr(s));
    var default := DefaultText(kc, s);
    if str == default {
      return true;
    }
    omitted := IsSelectedAnyway(kc, s);
  }

  // The entry of a symbol in the minimal configuration, if it has one.
  function MinPiece(k: View, s: nat): seq<Piece> { if Omitted(k, s) then [] else [Entry(s)] }

  // The entries among the first n symbols.
  function MinPieces(k: View, n: nat): seq<Piece> { if n == 0 then [] else MinPieces(k, n - 1) + MinPiece(k, n - 1) }

  function MinLine(k: View, prefix: string, s: nat): string { Contents(k, prefix, MinPiece(k, s)) }

  // The text for the first n symbols.
  function MinText(k: View, prefix: string, header: string, n: nat): string {
    if n == 0 then header else MinText(k, prefix, header, n - 1) + MinLine(k, prefix, n - 1)
  }

  lemma {:induction false} ContentsConcat(k: View, prefix: string, a: seq<Piece>, b: seq<Piece>)
    ensures Contents(k, prefix, a + b) == Contents(k, prefix, a) + Contents(k, prefix, b)
  {
    if b == [] {
      assert a + b == a;
    } else {
      var init, last := b[..|b| - 1], b[|b| - 1];
      assert (a + b)[..|a + b| - 1] == a + init && (a + b)[|a + b| - 1] == last;
      ContentsConcat(k, prefix, a, init);
      Regroup(Contents(k, prefix, a), Contents(k, prefix, init), PieceText(k, prefix, last));
    }
  }

  lemma {:induction false} OneMorePiece(k: View, header: string, n: nat)
    ensures [Note(header)] + MinPieces(k, n + 1) == [Note(header)] + MinPieces(k, n) + MinPiece(k, n)
  {
    Regroup([Note(header)], MinPieces(k, n), MinPiece(k, n));
  }

  lemma {:induction false} MinTextIsContents(k: View, prefix: string, header: string, n: nat, ps: seq<Piece>)
    requires ps == [Note(header)] + MinPieces(k, n)
    ensures MinText(k, prefix, header, n) == Contents(k, prefix, ps)
    decreases n
  {
    if n == 0 {
      HeaderOnly(k, prefix, header);
    } else {
      var init := [Note(header)] + MinPieces(k, n - 1);
      MinTextIsContents(k, prefix, header, n - 1, init);
      OneMorePiece(k, header, n - 1);
      ContentsConcat(k, prefix, init, MinPiece(k, n - 1));
    }
  }

  lemma {:induction false} MinLineIs(k: View, prefix: string, s: nat)
    ensures MinLine(k, prefix, s) == if Omitted(k, s) then "" else ConfigString(k, prefix, s)
  {
    if !Omitted(k, s) {
      assert [Entry(s)][..0] == [];
      assert Contents(k, prefix, []) == "";
    }
  }

  // One round of _min_config_contents()
  method AddMinimal(kc: Kconfig, prefix: string, s: nat, text: string, ghost k: View) returns (longer: string)
    requires kc.Valid() && s < |kc.cfg.syms| && k == Now(kc)
    modifies kc`st, kc.syms, kc.choices
    ensures kc.Valid() && k == Now(kc)
    ensures longer == text + MinLine(k, prefix, s)
  {
    var omitted := IsOmitted(kc, s);
    var line := "";
    if !omitted {
      line := ConfigLine(kc, prefix, s);
    }
    MinLineIs(k, prefix, s);
    longer := text + line;
  }

  // The loop of _min_config_contents()
  method MinimalEntries(kc: Kconfig, prefix: string, header: string) returns (text: string)
    requires kc.Valid()
    modifies kc`st, kc.syms, kc.choices
    ensures kc.Valid() && kc.st.u == old(kc.st.u)
    ensures text == MinText(Now(kc), prefix, header, |kc.cfg.syms|)
  {
    text := header;
    ghost var k := Now(kc);
    for s := 0 to |kc.cfg.syms|
      invariant kc.Valid() && k == Now(kc)
      invariant text == MinText(k, prefix, header, s)
    {
      text := AddMinimal(kc, prefix, s, text, k);
    }
  }

  // _min_config_contents()
  method MinConfigContents(kc: Kconfig, prefix: string, header: string) returns (text: string)
    requires kc.Valid()
    modifies kc`st, kc.syms, kc.choices
    ensures kc.Valid() && kc.st.u == old(kc.st.u)
    ensures text == Contents(Now(kc), prefix, [Note(header)] + MinPieces(Now(kc), |kc.cfg.syms|))
  {
    text := MinimalEntries(kc, prefix, header);
    MinTextIsContents(Now(kc), prefix, header, |kc.cfg.syms|, [Note(header)] + MinPieces(Now(kc), |kc.cfg.syms|));
  }

  lemma {:induction false} HeaderOnly(k: View, prefix: string, header: string)
    ensures Contents(k, prefix, [Note(header)] + MinPieces(k, 0)) == header
  {
    assert [Note(header)] + MinPieces(k, 0) == [Note(header)] && [Note(header)][..0] == [];
  }

  lemma MinPiecesOmitOnlyDefaults(k: View, prefix: string, n: nat)
    requires n <= |k.cfg.syms|
    ensures PiecesOk(k, prefix, MinPieces(k, n))
    ensures forall s: nat :: s < n ==> Entry(s) in MinPieces(k, n) || Omitted(k, s)
  {
  }

  // Loading a minimal configuration with replace, whatever the user values are by then, gives back the
  // value of every symbol and the selection of every choice.
  lemma {:induction false} MinConfigSuffices(cfg: Config, prefix: string, header: string, u: Users, u': Users)
    requires Evaluable(cfg) && Writable(Evaluated(cfg, u), prefix) && Inert(cfg, prefix, header)
    requires UsersShaped(cfg, u') && UsersOk(cfg, u')
    ensures
      var k := Evaluated(cfg, u);
      var text := Contents(k, prefix, [Note(header)] + MinPieces(k, |cfg.syms|));
      Values(cfg, LoadReplacing(cfg, prefix, u', Lines(text))) == Values(cfg, u)
  {
    var k := Evaluated(cfg, u);
    MinPiecesOmitOnlyDefaults(k, prefix, |cfg.syms|);
    LoadingReproduces(k, prefix, u', [Note(header)] + MinPieces(k, |cfg.syms|));
  }

  // ---- loading ----

  ghost function SoFar(kc: Kconfig): Loaded
    reads kc
  {
    Loaded(kc.st.u, kc.setS, kc.setC)
  }

  // The body of the loop in _load_config(), for one line of the file.
  method LoadOneLine(kc: Kconfig, prefix: string, line: string)
    requires kc.Valid()
    modifies kc`st, kc`setS, kc`setC, kc.syms, kc.choices
    ensures kc.Valid() && SoFar(kc) == LoadLine(kc.cfg, prefix, old(SoFar(kc)), line)
  {
    var a := Assignment(kc.cfg, prefix, line);
    if a.Some? {
      var s, text := a.value.0, a.value.1;
      AssignmentInRange(kc.cfg, prefix, line);
      assert ChoiceSymbolOk(kc.cfg, s);
      if kc.cfg.Boolish(s) && kc.cfg.S(s).choice.Some? && text != "n" {
        var _ := kc.SetMode(kc.cfg.S(s).choice.value, Word(text));
      }
      var _ := kc.SetValue(s, Word(text));
    }
  }

  lemma FindInRange(cfg: Config, name: string, i: nat)
    requires i <= |cfg.syms|
    ensures Find(cfg, name, i).Some? ==> Find(cfg, name, i).value < |cfg.syms|
    decreases |cfg.syms| - i
  {
  }

  lemma {:induction false} AssignmentInRange(cfg: Config, prefix: string, line: string)
    requires Assignment(cfg, prefix, line).Some?
    ensures Assignment(cfg, prefix, line).value.0 < |cfg.syms|
  {
    match ReadLine(prefix, RStrip(line))
    case Set(name, _) => FindInRange(cfg, name, 0);
    case Unset(name) => FindInRange(cfg, name, 0);
    case Other =>
  }

  // The loops that clear _was_set.
  method ForgetSet(kc: Kconfig)
    requires kc.Valid()
    modifies kc`setS, kc`setC, kc.syms, kc.choices
    ensures kc.Valid() && kc.st == old(kc.st) && SoFar(kc) == Unmarked(kc.st.u)
  {
    for s := 0 to |kc.syms|
      invariant kc.Valid()
      invariant forall i :: 0 <= i < s ==> !kc.setS[i]
    {
      kc.MarkSymSet(s, false);
    }
    for c := 0 to |kc.choices|
      invariant kc.Valid()
      invariant forall i :: 0 <= i < |kc.setS| ==> !kc.setS[i]
      invariant forall i :: 0 <= i < c ==> !kc.setC[i]
    {
      kc.MarkChoiceSet(c, false);
    }
  }

  // The user choices when the first n symbols that are not set have been unset.
  predicate SymsKept(u: Users, w: Loaded, n: nat) {
    && |u.val| == |w.u.val| == |w.setS| && u.mode == w.u.mode && u.sel == w.u.sel && n <= |u.val|
    && forall i :: 0 <= i < |u.val| ==> u.val[i] == if i < n && !w.setS[i] then None else w.u.val[i]
  }

  predicate ChoicesKept(u: Users, w: Loaded, n: nat) {
    && |u.val| == |w.u.val| == |w.setS| && |u.mode| == |w.u.mode| == |u.sel| == |w.u.sel| == |w.setC| && n <= |u.mode|
    && (forall i :: 0 <= i < |u.val| ==> u.val[i] == if !w.setS[i] then None else w.u.val[i])
    && (forall i :: 0 <= i < |u.mode| ==>
          u.mode[i] == (if i < n && !w.setC[i] then None else w.u.mode[i]) &&
          u.sel[i] == (if i < n && !w.setC[i] then None else w.u.sel[i]))
  }

  lemma {:induction false} AllKept(u: Users, w: Loaded)
    requires ChoicesKept(u, w, |u.mode|)
    ensures u == KeepSet(w)
  {
    assert u.val == KeepSet(w).val && u.mode == KeepSet(w).mode && u.sel == KeepSet(w).sel;
  }

  // The loops that unset what was not set.
  method UnsetRest(kc: Kconfig)
    requires kc.Valid() && LoadedShaped(kc.cfg, SoFar(kc))
    modifies kc`st, kc.syms, kc.choices
    ensures kc.Valid() && kc.st.u == KeepSet(old(SoFar(kc)))
  {
    ghost var w := SoFar(kc);
    UnsetSyms(kc, w);
    UnsetChoices(kc, w);
    AllKept(kc.st.u, w);
  }

  method UnsetSyms(kc: Kconfig, ghost w: Loaded)
    requires kc.Valid() && LoadedShaped(kc.cfg, w) && SoFar(kc) == w
    modifies kc`st, kc.syms, kc.choices
    ensures kc.Valid() && SymsKept(kc.st.u, w, |kc.st.u.val|)
  {
    for s := 0 to |kc.syms|
      invariant kc.Valid() && SymsKept(kc.st.u, w, s)
    {
      assert kc.SymLinked(s);
      if !kc.syms[s].wasSet {
        kc.UnsetValue(s);
      }
    }
  }

  method UnsetChoices(kc: Kconfig, ghost w: Loaded)
    requires kc.Valid() && LoadedShaped(kc.cfg, w) && SymsKept(kc.st.u, w, |kc.st.u.val|) && kc.setC == w.setC
    modifies kc`st, kc.syms, kc.choices
    ensures kc.Valid() && ChoicesKept(kc.st.u, w, |kc.st.u.mode|)
  {
    for c := 0 to |kc.choices|
      invariant kc.Valid() && ChoicesKept(kc.st.u, w, c)
    {
      assert kc.ChoiceLinked(c);
      if !kc.choices[c].wasSet {
        kc.UnsetMode(c);
      }
    }
  }

  // The user choices and set flags after _load_config().
  function AfterLoad(cfg: Config, prefix: string, w: Loaded, lines: seq<string>, replace: bool): (w': Loaded)
    requires LoadedShaped(cfg, w)
    ensures LoadedShaped(cfg, w')
    ensures replace ==> w'.u == LoadReplacing(cfg, prefix, w.u, lines)
  {
    LoadLinesShaped(cfg, prefix, w, lines);
    LoadLinesShaped(cfg, prefix, Unmarked(w.u), lines);
    if replace then
      var v := LoadLines(cfg, prefix, Unmarked(w.u), lines);
      v.(u := KeepSet(v))
    else LoadLines(cfg, prefix, w, lines)
  }

  method LoadAllLines(kc: Kconfig, prefix: string, lines: seq<string>)
    requires kc.Valid()
    modifies kc`st, kc`setS, kc`setC, kc.syms, kc.choices
    ensures kc.Valid() && SoFar(kc) == LoadLines(kc.cfg, prefix, old(SoFar(kc)), lines)
  {
    ghost var w := SoFar(kc);
    for i := 0 to |lines|
      invariant kc.Valid() && SoFar(kc) == LoadLines(kc.cfg, prefix, w, lines[..i])
    {
      LoadOneLine(kc, prefix, lines[i]);
      OneMoreLine(kc.cfg, prefix, w, lines, i);
    }
    assert lines[..|lines|] == lines;
  }

  lemma {:induction false} OneMoreLine(cfg: Config, prefix: string, w: Loaded, lines: seq<string>, i: nat)
    requires i < |lines|
    ensures LoadLines(cfg, prefix, w, lines[..i + 1]) == LoadLine(cfg, prefix, LoadLines(cfg, prefix, w, lines[..i]), lines[i])
  {
    assert lines[..i + 1] == lines[..i] + [lines[i]];
    LoadLinesConcat(cfg, prefix, w, lines[..i], [lines[i]]);
    OneLineEffect(cfg, prefix, LoadLines(cfg, prefix, w, lines[..i]), lines[i]);
  }

  // _load_config(), given the lines of the file
  method LoadConfig(kc: Kconfig, prefix: string, lines: seq<string>, replace: bool)
    requires kc.Valid()
    modifies kc`st, kc`setS, kc`setC, kc.syms, kc.choices
    ensures kc.Valid() && SoFar(kc) == AfterLoad(kc.cfg, prefix, old(SoFar(kc)), lines, replace)
  {
    if replace {
      ForgetSet(kc);
    }
    LoadAllLines(kc, prefix, lines);
    if replace {
      UnsetRest(kc);
    }
  }
}
