// Writing and loading configuration files, as functions on the user values and the state's values,
// and the laws that connect the two.
module ConfigFile {
  import opened Basics
  import opened Model
  import opened Semantics
  import opened Evaluation
  import opened CacheState
  import opened UserValues
  import opened ChoiceLaws
  import opened RoundTrip
  import opened ConfigText

  // ---- loading ----

  // The user choices and the _was_set flags.
  datatype Loaded = Loaded(u: Users, setS: seq<bool>, setC: seq<bool>)

  function Find(cfg: Config, name: string, i: nat): Option<nat>
    requires i <= |cfg.syms|
    decreases |cfg.syms| - i
  {
    if i == |cfg.syms| then None
    else if cfg.syms[i].name == name then Some(i)
    else Find(cfg, name, i + 1)
  }

  // The symbol and value that a line assigns, if the line is an acceptable assignment.
  function Assignment(cfg: Config, prefix: string, line: string): Option<(nat, string)> {
    match ReadLine(prefix, RStrip(line))
    case Set(name, text) =>
      var s :- Find(cfg, name, 0);
      if cfg.Boolish(s) then
        if text != "" && (text[0] == 'y' || text[0] == 'n' || (text[0] == 'm' && cfg.S(s).typ == Tristate))
        then Some((s, [text[0]])) else None
      else if cfg.S(s).typ == String then
        var body :- ConfString(text);
        Some((s, Unescape(body)))
      else Some((s, text))
    case Unset(name) =>
      var s :- Find(cfg, name, 0);
      if cfg.Boolish(s) then Some((s, "n")) else None
    case Other => None
  }

  function ApplySet(cfg: Config, w: Loaded, s: nat, v: Input): Loaded {
    match Parsed(cfg, s, v)
    case None => w
    case Some(p) => Loaded(SetUser(cfg, w.u, s, p), Marked(w.setS, s), MarkedChoices(cfg, w.setC, s, p))
  }

  function ApplyMode(cfg: Config, w: Loaded, c: nat, v: Input): Loaded {
    match ParsedMode(cfg, c, v)
    case None => w
    case Some(t) => w.(u := SetMode(w.u, c, t), setC := Marked(w.setC, c))
  }

  // An assignment of m or y to a choice symbol sets the mode of the choice first.
  function Assign(cfg: Config, w: Loaded, s: nat, text: string): Loaded {
    var w' := if cfg.Boolish(s) && cfg.S(s).choice.Some? && text != "n" then ApplyMode(cfg, w, cfg.S(s).choice.value, Word(text)) else w;
    ApplySet(cfg, w', s, Word(text))
  }

  function LoadLine(cfg: Config, prefix: string, w: Loaded, line: string): Loaded {
    match Assignment(cfg, prefix, line)
    case None => w
    case Some((s, text)) => Assign(cfg, w, s, text)
  }

  function LoadLines(cfg: Config, prefix: string, w: Loaded, lines: seq<string>): Loaded
    decreases |lines|
  {
    if lines == [] then w else LoadLines(cfg, prefix, LoadLine(cfg, prefix, w, lines[0]), lines[1..])
  }

  // Replacing the configuration: whatever was not set by the file is unset.
  function KeepSet(w: Loaded): Users
    requires |w.setS| == |w.u.val| && |w.setC| == |w.u.mode| == |w.u.sel|
  {
    Users(seq(|w.u.val|, s requires 0 <= s < |w.u.val| => if w.setS[s] then w.u.val[s] else None),
          seq(|w.u.mode|, c requires 0 <= c < |w.u.mode| => if w.setC[c] then w.u.mode[c] else None),
          seq(|w.u.sel|, c requires 0 <= c < |w.u.sel| => if w.setC[c] then w.u.sel[c] else None))
  }

  function Unmarked(u: Users): Loaded { Loaded(u, seq(|u.val|, _ => false), seq(|u.mode|, _ => false)) }

  predicate UsersShaped(cfg: Config, u: Users) { |u.val| == |cfg.syms| && |u.mode| == |u.sel| == |cfg.choices| }

  predicate LoadedShaped(cfg: Config, w: Loaded) {
    UsersShaped(cfg, w.u) && |w.setS| == |cfg.syms| && |w.setC| == |cfg.choices|
  }

  lemma {:induction false} LoadLineShaped(cfg: Config, prefix: string, w: Loaded, line: string)
    requires LoadedShaped(cfg, w)
    ensures LoadedShaped(cfg, LoadLine(cfg, prefix, w, line))
  {
  }

  lemma {:induction false} LoadLinesShaped(cfg: Config, prefix: string, w: Loaded, lines: seq<string>)
    requires LoadedShaped(cfg, w)
    ensures LoadedShaped(cfg, LoadLines(cfg, prefix, w, lines))
    decreases |lines|
  {
    if lines != [] {
      LoadLineShaped(cfg, prefix, w, lines[0]);
      LoadLinesShaped(cfg, prefix, LoadLine(cfg, prefix, w, lines[0]), lines[1..]);
    }
  }

  lemma {:induction false} LoadLinesConcat(cfg: Config, prefix: string, w: Loaded, a: seq<string>, b: seq<string>)
    ensures LoadLines(cfg, prefix, w, a + b) == LoadLines(cfg, prefix, LoadLines(cfg, prefix, w, a), b)
    decreases |a|
  {
    if a == [] {
      assert a + b == b;
    } else {
      LoadLinesConcat(cfg, prefix, LoadLine(cfg, prefix, w, a[0]), a[1..], b);
      assert (a + b)[1..] == a[1..] + b;
    }
  }

  // load_config(replace=True)
  function LoadReplacing(cfg: Config, prefix: string, u: Users, lines: seq<string>): (u': Users)
    requires UsersShaped(cfg, u)
    ensures UsersShaped(cfg, u')
  {
    LoadLinesShaped(cfg, prefix, Unmarked(u), lines);
    KeepSet(LoadLines(cfg, prefix, Unmarked(u), lines))
  }

  // ---- writing ----

  predicate Writes(k: View, s: nat) {
    if k.cfg.Boolish(s) then k.TriValue(s).Some? && k.TriValue(s).value.write
    else k.cfg.S(s).typ != Unknown && k.TypedStrValue(s).Some? && k.TypedStrValue(s).value.write
  }

  // The line for a symbol, without its line end.
  function EntryLine(cfg: Config, prefix: string, s: nat, str: string): string {
    var d := cfg.S(s);
    if cfg.Boolish(s) then if str != "n" then SetLine(prefix, d.name, str) else UnsetLine(prefix, d.name)
    else if d.typ == String then SetLine(prefix, d.name, "\"" + Escape(str) + "\"")
    else SetLine(prefix, d.name, str)
  }

  // Symbol.config_string
  function ConfigString(k: View, prefix: string, s: nat): string {
    if Writes(k, s) && k.env.S(s).str.Some? then EntryLine(k.cfg, prefix, s, k.env.S(s).str.value) + "\n" else ""
  }

  // A configuration file is made of symbol entries and of text that says nothing to the loader.
  datatype Piece = Note(text: string) | Entry(s: nat)

  function PieceText(k: View, prefix: string, p: Piece): string {
    match p
    case Note(text) => text
    case Entry(s) => ConfigString(k, prefix, s)
  }

  function Contents(k: View, prefix: string, ps: seq<Piece>): string {
    if ps == [] then "" else Contents(k, prefix, ps[..|ps| - 1]) + PieceText(k, prefix, ps[|ps| - 1])
  }

  // ---- what can be written safely ----

  // Names are distinct and fit the format; int and hex values do not end in white space, and no
  // value contains a line break.
  predicate NamesOk(cfg: Config, prefix: string) {
    && prefix != "" && prefix[0] != '#' && OneLine(prefix)
    && (forall s :: 0 <= s < |cfg.syms| ==> IsName(cfg.syms[s].name))
    && (forall s, t :: 0 <= s < t < |cfg.syms| ==> cfg.syms[s].name != cfg.syms[t].name)
  }

  predicate Printable(k: View, s: nat) {
    k.env.S(s).str.Some? && !k.cfg.Boolish(s) ==>
      var str := k.env.S(s).str.value;
      OneLine(str) && (k.cfg.S(s).typ != String && str != "" ==> !IsSpace(str[|str| - 1]))
  }

  // No line of the text reads as an assignment.
  predicate Inert(cfg: Config, prefix: string, text: string) {
    Terminated(text) && forall i :: 0 <= i < |Lines(text)| ==> Assignment(cfg, prefix, Lines(text)[i]).None?
  }

  // ---- one entry, written and read back ----

  lemma FindByName(cfg: Config, prefix: string, s: nat, i: nat)
    requires NamesOk(cfg, prefix) && i <= s < |cfg.syms|
    ensures Find(cfg, cfg.syms[s].name, i) == Some(s)
    decreases s - i
  {
  }

  lemma {:induction false} EscapeOneLine(s: string)
    requires OneLine(s)
    ensures OneLine(Escape(s))
  {
    if s != "" {
      EscapeStep(s);
      EscapeOneLine(s[1..]);
    } else {
      assert Escape("") == "";
    }
  }

  // The line ends in a character that rstrip() keeps, and contains no line break.
  lemma {:induction false} EntryLineIsClean(k: View, prefix: string, s: nat)
    requires NamesOk(k.cfg, prefix) && s < |k.cfg.syms| && k.env.S(s).str.Some? && Printable(k, s)
    requires k.cfg.Boolish(s) ==> k.env.S(s).str.value in ["n", "m", "y"]
    ensures
      var line := EntryLine(k.cfg, prefix, s, k.env.S(s).str.value);
      line != "" && OneLine(line) && !IsSpace(line[|line| - 1])
  {
    var str := k.env.S(s).str.value;
    var line := EntryLine(k.cfg, prefix, s, str);
    if !k.cfg.Boolish(s) && k.cfg.S(s).typ == String {
      EscapeOneLine(str);
      assert line[|line| - 1] == '\"';
    } else if !k.cfg.Boolish(s) && str == "" {
      assert line[|line| - 1] == '=';
    } else if k.cfg.Boolish(s) && str == "n" {
      assert line[|line| - 1] == 't';
    } else {
      assert line[|line| - 1] == str[|str| - 1];
    }
  }

  lemma {:induction false} UnsetReadBack(cfg: Config, prefix: string, s: nat)
    requires NamesOk(cfg, prefix) && s < |cfg.syms| && cfg.Boolish(s)
    ensures Assignment(cfg, prefix, UnsetLine(prefix, cfg.S(s).name)) == Some((s, "n"))
  {
    RStripLast(UnsetLine(prefix, cfg.S(s).name));
    FindByName(cfg, prefix, s, 0);
    ReadUnsetLine(prefix, cfg.S(s).name);
  }

  // The text after '=' when the line for symbol s says so.
  lemma {:induction false} SetReadBack(cfg: Config, prefix: string, s: nat, text: string)
    requires NamesOk(cfg, prefix) && s < |cfg.syms| && OneLine(text)
    requires
      var line := SetLine(prefix, cfg.S(s).name, text);
      line != "" && !IsSpace(line[|line| - 1])
    ensures
      var line := SetLine(prefix, cfg.S(s).name, text);
      ReadLine(prefix, RStrip(line)) == Set(cfg.S(s).name, text) && Find(cfg, cfg.S(s).name, 0) == Some(s)
  {
    RStripLast(SetLine(prefix, cfg.S(s).name, text));
    FindByName(cfg, prefix, s, 0);
    ReadSetLine(prefix, cfg.S(s).name, text);
  }

  lemma {:induction false} QuotedReadBack(str: string)
    ensures ConfString("\"" + Escape(str) + "\"") == Some(Escape(str)) && Unescape(Escape(str)) == str
  {
    EscapeRoundTrip(str);
    assert ("\"" + Escape(str) + "\"")[1..] == Escape(str) + "\"" + "";
  }

  // Reading back the entry of a symbol assigns exactly its value.
  lemma {:induction false} EntryReadBack(k: View, prefix: string, s: nat)
    requires NamesOk(k.cfg, prefix) && s < |k.cfg.syms| && k.env.S(s).str.Some? && Printable(k, s) && k.cfg.S(s).typ != Unknown
    requires k.cfg.Boolish(s) ==> k.env.S(s).str.value in ["n", "y"] || (k.cfg.S(s).typ == Tristate && k.env.S(s).str.value == "m")
    ensures Assignment(k.cfg, prefix, EntryLine(k.cfg, prefix, s, k.env.S(s).str.value)) == Some((s, k.env.S(s).str.value))
  {
    var str := k.env.S(s).str.value;
    EntryLineIsClean(k, prefix, s);
    if k.cfg.Boolish(s) && str == "n" {
      UnsetReadBack(k.cfg, prefix, s);
    } else if !k.cfg.Boolish(s) && k.cfg.S(s).typ == String {
      EscapeOneLine(str);
      SetReadBack(k.cfg, prefix, s, "\"" + Escape(str) + "\"");
      QuotedReadBack(str);
    } else {
      SetReadBack(k.cfg, prefix, s, str);
    }
  }

  // ---- a whole file, written and read back ----

  ghost predicate Writable(k: View, prefix: string) {
    && Evaluable(k.cfg) && BoolOnly(k.cfg) && InState(k) && UsersShaped(k.cfg, k.u) && NamesOk(k.cfg, prefix)
    && forall s: nat :: s < |k.cfg.syms| ==> Printable(k, s)
  }

  ghost predicate PieceOk(k: View, prefix: string, p: Piece) {
    match p
    case Note(text) => Inert(k.cfg, prefix, text)
    case Entry(s) => s < |k.cfg.syms|
  }

  ghost predicate PiecesOk(k: View, prefix: string, ps: seq<Piece>) { forall p :: p in ps ==> PieceOk(k, prefix, p) }

  function PieceEffect(k: View, prefix: string, w: Loaded, p: Piece): Loaded {
    match p
    case Note(_) => w
    case Entry(s) => if Writes(k, s) && k.env.S(s).str.Some? then Assign(k.cfg, w, s, k.env.S(s).str.value) else w
  }

  function LoadPieces(k: View, prefix: string, w: Loaded, ps: seq<Piece>): Loaded {
    if ps == [] then w else PieceEffect(k, prefix, LoadPieces(k, prefix, w, ps[..|ps| - 1]), ps[|ps| - 1])
  }

  lemma {:induction false} InertHasNoEffect(cfg: Config, prefix: string, w: Loaded, lines: seq<string>)
    requires forall i :: 0 <= i < |lines| ==> Assignment(cfg, prefix, lines[i]).None?
    ensures LoadLines(cfg, prefix, w, lines) == w
    decreases |lines|
  {
    if lines != [] {
      assert LoadLine(cfg, prefix, w, lines[0]) == w;
      InertHasNoEffect(cfg, prefix, w, lines[1..]);
    }
  }

  lemma {:induction false} BoolStr(k: View, s: nat)
    requires Solution(k) && s < |k.cfg.syms| && k.cfg.S(s).typ == Bool
    ensures k.env.S(s).tri.Some? && k.env.S(s).str == Some(TriStr(k.env.S(s).tri.value))
  {
    SymKnown(k, s);
  }

  // A bool symbol is n or y.
  lemma {:induction false} BoolIsNotM(k: View, s: nat)
    requires Solution(k) && s < |k.cfg.syms| && k.cfg.S(s).typ == Bool && (k.cfg.S(s).choice.Some? ==> BoolOnly(k.cfg) && InState(k))
    ensures k.env.S(s).tri == Some(0) || k.env.S(s).tri == Some(2)
  {
    SymKnown(k, s);
    if k.cfg.S(s).choice.Some? {
      var c := k.cfg.S(s).choice.value;
      assert ChoiceSymbolOk(k.cfg, s);
      ChoiceKnown(k, c);
      MemberVisibility(k, c, s);
    }
  }

  lemma {:induction false} PieceReadBack(k: View, prefix: string, w: Loaded, p: Piece)
    requires Writable(k, prefix) && PieceOk(k, prefix, p)
    ensures Terminated(PieceText(k, prefix, p))
    ensures LoadLines(k.cfg, prefix, w, Lines(PieceText(k, prefix, p))) == PieceEffect(k, prefix, w, p)
  {
    match p
    case Note(text) => InertHasNoEffect(k.cfg, prefix, w, Lines(text));
    case Entry(s) =>
      SymKnown(k, s);
      assert BoolOnlySymbol(k.cfg, s);
      if k.cfg.Boolish(s) {
        BoolIsNotM(k, s);
        BoolStr(k, s);
      }
      if Writes(k, s) {
        var line := EntryLine(k.cfg, prefix, s, k.env.S(s).str.value);
        EntryLineIsClean(k, prefix, s);
        EntryReadBack(k, prefix, s);
        LinesOne(line);
        OneLineEffect(k.cfg, prefix, w, line);
      }
  }

  lemma {:induction false} OneLineEffect(cfg: Config, prefix: string, w: Loaded, line: string)
    ensures LoadLines(cfg, prefix, w, [line]) == LoadLine(cfg, prefix, w, line)
  {
    assert [line][1..] == [];
  }

  lemma {:induction false} TextAppended(cfg: Config, prefix: string, w: Loaded, a: string, b: string)
    requires Terminated(a) && Terminated(b)
    ensures Terminated(a + b)
    ensures LoadLines(cfg, prefix, w, Lines(a + b)) == LoadLines(cfg, prefix, LoadLines(cfg, prefix, w, Lines(a)), Lines(b))
  {
    LinesConcat(a, b);
    LoadLinesConcat(cfg, prefix, w, Lines(a), Lines(b));
  }

  lemma {:induction false} ContentsReadBack(k: View, prefix: string, w: Loaded, ps: seq<Piece>)
    requires Writable(k, prefix) && PiecesOk(k, prefix, ps)
    ensures Terminated(Contents(k, prefix, ps))
    ensures LoadLines(k.cfg, prefix, w, Lines(Contents(k, prefix, ps))) == LoadPieces(k, prefix, w, ps)
  {
    if ps != [] {
      var init, last := ps[..|ps| - 1], ps[|ps| - 1];
      ContentsReadBack(k, prefix, w, init);
      PieceReadBack(k, prefix, LoadPieces(k, prefix, w, init), last);
      TextAppended(k.cfg, prefix, w, Contents(k, prefix, init), PieceText(k, prefix, last));
    }
  }

  // What has been set when the entries of ps are loaded.
  predicate SymbolLoaded(k: View, w: Loaded, ps: seq<Piece>, s: nat) {
    s < |w.setS| == |w.u.val| && k.env.S(s).str.Some? ==>
      var p := Parsed(k.cfg, s, Word(k.env.S(s).str.value));
      && w.setS[s] == (Entry(s) in ps && Writes(k, s) && p.Some?)
      && (w.setS[s] ==> w.u.val[s] == p)
  }

  predicate ChoiceLoaded(k: View, w: Loaded, ps: seq<Piece>, c: nat) {
    c < |w.setC| == |w.u.mode| == |w.u.sel| ==>
      match k.env.C(c).sel
      case Some(Some(s)) => w.setC[c] == (Entry(s) in ps) && (w.setC[c] ==> w.u.mode[c] == Some(2) && w.u.sel[c] == Some(s))
      case _ => !w.setC[c]
  }

  ghost predicate PiecesLoaded(k: View, w: Loaded, ps: seq<Piece>) {
    && LoadedShaped(k.cfg, w) && UsersOk(k.cfg, w.u)
    && (forall s: nat :: SymbolLoaded(k, w, ps, s))
    && (forall c: nat :: ChoiceLoaded(k, w, ps, c))
  }

  lemma {:induction false} AssignOk(cfg: Config, w: Loaded, s: nat, text: string)
    requires WellFormed(cfg) && LoadedShaped(cfg, w) && UsersOk(cfg, w.u) && s < |cfg.syms|
    ensures LoadedShaped(cfg, Assign(cfg, w, s, text)) && UsersOk(cfg, Assign(cfg, w, s, text).u)
  {
    assert ChoiceSymbolOk(cfg, s);
    var w' := if cfg.Boolish(s) && cfg.S(s).choice.Some? && text != "n" then ApplyMode(cfg, w, cfg.S(s).choice.value, Word(text)) else w;
    if cfg.S(s).choice.Some? && ParsedMode(cfg, cfg.S(s).choice.value, Word(text)).Some? {
      SetModeOk(cfg, w.u, cfg.S(s).choice.value, ParsedMode(cfg, cfg.S(s).choice.value, Word(text)).value);
    }
    if Parsed(cfg, s, Word(text)).Some? {
      SetUserOk(cfg, w'.u, s, Word(text));
    }
  }

  // A selected symbol is written, and written as y; no other symbol of its choice is.
  lemma {:induction false} SelectedIsWritten(k: View, prefix: string, c: nat, s: nat)
    requires Writable(k, prefix) && c < |k.cfg.choices| && s < |k.cfg.syms| && k.cfg.S(s).choice == Some(c)
    ensures k.env.C(c).sel == Some(Some(s)) <==> k.env.S(s).str == Some("y")
    ensures k.env.C(c).sel == Some(Some(s)) ==> Writes(k, s)
    ensures k.env.S(s).str == Some("y") || k.env.S(s).str == Some("n")
  {
    assert ChoiceSymbolOk(k.cfg, s) && BoolOnlySymbol(k.cfg, s);
    ChoiceKnown(k, c);
    SymKnown(k, s);
    if k.Mode(c) == Some(2) {
      YModeSetsExactlyTheSelection(k, c, s);
    } else {
      LowModesBoundTheSymbols(k, c, s);
      BoolIsNotM(k, s);
    }
  }

  lemma {:induction false} EntryLoaded(k: View, prefix: string, w: Loaded, ps: seq<Piece>, s: nat)
    requires Writable(k, prefix) && PiecesLoaded(k, w, ps) && s < |k.cfg.syms| && Writes(k, s) && k.env.S(s).str.Some?
    ensures PiecesLoaded(k, Assign(k.cfg, w, s, k.env.S(s).str.value), ps + [Entry(s)])
  {
    var w' := Assign(k.cfg, w, s, k.env.S(s).str.value);
    AssignOk(k.cfg, w, s, k.env.S(s).str.value);
    assert BoolOnlySymbol(k.cfg, s) && ChoiceSymbolOk(k.cfg, s);
    if k.cfg.S(s).choice.Some? {
      SelectedIsWritten(k, prefix, k.cfg.S(s).choice.value, s);
    }
    forall t: nat ensures SymbolLoaded(k, w', ps + [Entry(s)], t) {
      assert SymbolLoaded(k, w, ps, t);
    }
    forall c: nat ensures ChoiceLoaded(k, w', ps + [Entry(s)], c) {
      assert ChoiceLoaded(k, w, ps, c);
      if k.cfg.S(s).choice != Some(c) && k.env.C(c).sel == Some(Some(s)) && c < |k.cfg.choices| {
        SelectionIsVisibleMember(k, c);
        MemberVisibility(k, c, s);
      }
    }
  }

  lemma {:induction false} PieceLoaded(k: View, prefix: string, w: Loaded, ps: seq<Piece>, p: Piece)
    requires Writable(k, prefix) && PiecesLoaded(k, w, ps) && PieceOk(k, prefix, p)
    ensures PiecesLoaded(k, PieceEffect(k, prefix, w, p), ps + [p])
  {
    if p.Entry? && Writes(k, p.s) && k.env.S(p.s).str.Some? {
      EntryLoaded(k, prefix, w, ps, p.s);
    } else {
      forall t: nat ensures SymbolLoaded(k, w, ps + [p], t) {
        assert SymbolLoaded(k, w, ps, t);
      }
      forall c: nat ensures ChoiceLoaded(k, w, ps + [p], c) {
        assert ChoiceLoaded(k, w, ps, c);
        if p.Entry? && k.env.C(c).sel == Some(Some(p.s)) && c < |k.cfg.choices| {
          SymKnown(k, p.s);
          SelectionIsVisibleMember(k, c);
          MemberVisibility(k, c, p.s);
          SelectedIsWritten(k, prefix, c, p.s);
        }
      }
    }
  }

  lemma {:induction false} AllPiecesLoaded(k: View, prefix: string, u: Users, ps: seq<Piece>)
    requires Writable(k, prefix) && UsersShaped(k.cfg, u) && UsersOk(k.cfg, u) && PiecesOk(k, prefix, ps)
    ensures PiecesLoaded(k, LoadPieces(k, prefix, Unmarked(u), ps), ps)
  {
    if ps == [] {
      forall s: nat ensures SymbolLoaded(k, Unmarked(u), ps, s) {
      }
      forall c: nat ensures ChoiceLoaded(k, Unmarked(u), ps, c) {
      }
    } else {
      AllPiecesLoaded(k, prefix, u, ps[..|ps| - 1]);
      PieceLoaded(k, prefix, LoadPieces(k, prefix, Unmarked(u), ps[..|ps| - 1]), ps[..|ps| - 1], ps[|ps| - 1]);
      assert ps == ps[..|ps| - 1] + [ps[|ps| - 1]];
    }
  }

  // Every symbol that has no entry may be omitted.
  ghost predicate OmitsOnlyDefaults(k: View, ps: seq<Piece>) {
    forall s: nat :: s < |k.cfg.syms| ==> Entry(s) in ps || Omitted(k, s)
  }

  lemma {:induction false} KeptSymbol(k: View, prefix: string, w: Loaded, ps: seq<Piece>, s: nat)
    requires Writable(k, prefix) && PiecesLoaded(k, w, ps) && OmitsOnlyDefaults(k, ps)
    ensures SymbolReproduced(k, KeepSet(w), s)
  {
    if s < |k.cfg.syms| {
      SymKnown(k, s);
      assert SymbolLoaded(k, w, ps, s) && BoolOnlySymbol(k.cfg, s);
    }
  }

  lemma {:induction false} KeptChoice(k: View, prefix: string, w: Loaded, ps: seq<Piece>, c: nat)
    requires Writable(k, prefix) && PiecesLoaded(k, w, ps) && OmitsOnlyDefaults(k, ps)
    ensures ChoiceReproduced(k, KeepSet(w), c)
  {
    assert ChoiceLoaded(k, w, ps, c);
    if c < |k.cfg.choices| {
      SelectionIsVisibleMember(k, c);
      if k.env.C(c).sel.value.Some? {
        var s := k.env.C(c).sel.value.value;
        MemberVisibility(k, c, s);
        SelectedIsWritten(k, prefix, c, s);
        assert StrDefault(k, s) == Some("n") by {
          assert BoolOnlySymbol(k.cfg, s);
        }
        assert Entry(s) in ps || Omitted(k, s);
      }
    }
  }

  lemma {:induction false} KeptUsersReproduce(k: View, prefix: string, w: Loaded, ps: seq<Piece>)
    requires Writable(k, prefix) && PiecesLoaded(k, w, ps) && OmitsOnlyDefaults(k, ps)
    ensures Reproduced(k, KeepSet(w))
  {
    forall i: nat ensures UserOk(k.cfg, KeepSet(w), i) {
      assert UserOk(k.cfg, w.u, i);
    }
    forall s: nat ensures SymbolReproduced(k, KeepSet(w), s) {
      KeptSymbol(k, prefix, w, ps, s);
    }
    forall c: nat ensures ChoiceReproduced(k, KeepSet(w), c) {
      KeptChoice(k, prefix, w, ps, c);
    }
  }

  // Loading a file with replace, from any previous state, gives every symbol and choice the value it
  // had when the file was written, as long as the file leaves out only symbols that may be omitted.
  lemma {:induction false} LoadingReproduces(k: View, prefix: string, u: Users, ps: seq<Piece>)
    requires Writable(k, prefix) && UsersShaped(k.cfg, u) && UsersOk(k.cfg, u)
    requires PiecesOk(k, prefix, ps) && OmitsOnlyDefaults(k, ps)
    ensures Values(k.cfg, LoadReplacing(k.cfg, prefix, u, Lines(Contents(k, prefix, ps)))) == k.env
  {
    ContentsReadBack(k, prefix, Unmarked(u), ps);
    AllPiecesLoaded(k, prefix, u, ps);
    KeptUsersReproduce(k, prefix, LoadPieces(k, prefix, Unmarked(u), ps), ps);
    ReproducedIsEnough(k, LoadReplacing(k.cfg, prefix, u, Lines(Contents(k, prefix, ps))));
  }
}
