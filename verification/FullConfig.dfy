// The full configuration, saved and loaded: what its comments are for the loader, and that nothing is
// lost.
module FullConfig {
  import opened Basics
  import opened Model
  import opened Semantics
  import opened Dependencies
  import opened Evaluation
  import opened CacheState
  import opened UserValues
  import opened Invalidation
  import opened ChoiceLaws
  import opened RoundTrip
  import opened ConfigText
  import opened ConfigFile
  import opened MenuTree
  import opened Propagation
  import opened MenuFinalize
  import opened MenuWalk
  import opened ConfigWriter
  import opened ConfigLayout

  // ---- titles in comments ----

  // As a comment, and after "end of", the title does not read as an assignment.
  predicate TitleOk(cfg: Config, prefix: string, title: string) {
    OneLine(title) && Assignment(cfg, prefix, "# " + title).None? && Assignment(cfg, prefix, "# end of " + title).None?
  }

  lemma {:induction false} PlainLinesAreInert(cfg: Config, prefix: string)
    requires NamesOk(cfg, prefix)
    ensures Assignment(cfg, prefix, "").None? && Assignment(cfg, prefix, "#").None?
    ensures Inert(cfg, prefix, "\n")
  {
    RStripLast("");
    RStripLast("#");
    LinesOne("");
    assert "" + "\n" == "\n";
  }

  lemma {:induction false} AddLine(text: string, line: string)
    requires Terminated(text) && '\n' !in line
    ensures Terminated(text + (line + "\n")) && Lines(text + (line + "\n")) == Lines(text) + [line]
  {
    LinesOne(line);
    LinesConcat(text, line + "\n");
  }

  lemma {:induction false} TwoLines(text: string, a: string, b: string)
    requires Terminated(text) && '\n' !in a && '\n' !in b
    ensures
      var longer := text + (a + "\n") + (b + "\n");
      Lines(longer) == Lines(text) + [a, b] && Terminated(longer)
  {
    AddLine(text, a);
    AddLine(text + (a + "\n"), b);
  }

  lemma {:induction false} FourLines(a: string, b: string, c: string, d: string)
    requires '\n' !in a && '\n' !in b && '\n' !in c && '\n' !in d
    ensures
      var text := "" + (a + "\n") + (b + "\n") + (c + "\n") + (d + "\n");
      Lines(text) == [a, b, c, d] && Terminated(text)
  {
    TwoLines("", a, b);
    var half := "" + (a + "\n") + (b + "\n");
    TwoLines(half, c, d);
    assert Lines("") == [];
  }

  lemma {:induction false} HeaderLines(title: string)
    requires OneLine(title)
    ensures Lines(Header(title)) == ["", "#", "# " + title, "#"] && Terminated(Header(title))
  {
    var empty, mark, line := "", "#", "# " + title;
    FourLines(empty, mark, line, mark);
    assert Header(title) == "" + (empty + "\n") + (mark + "\n") + (line + "\n") + (mark + "\n");
  }

  lemma {:induction false} EndCommentLines(title: string)
    requires OneLine(title)
    ensures Lines(EndComment(title)) == ["# end of " + title] && Terminated(EndComment(title))
  {
    LinesOne("# end of " + title);
  }

  // A text of four lines of which the others say nothing says nothing exactly when the third does not.
  lemma {:induction false} ThirdLineDecides(cfg: Config, prefix: string, text: string, line: string)
    requires NamesOk(cfg, prefix) && Lines(text) == ["", "#", line, "#"] && Terminated(text)
    ensures Inert(cfg, prefix, text) <==> Assignment(cfg, prefix, line).None?
  {
    PlainLinesAreInert(cfg, prefix);
    var ls := Lines(text);
    assert ls[0] == "" && ls[1] == "#" && ls[2] == line && ls[3] == "#";
  }

  // The comment of a menu says nothing to the loader exactly when its title line does not.
  lemma {:induction false} HeaderIsInert(cfg: Config, prefix: string, title: string)
    requires NamesOk(cfg, prefix) && OneLine(title)
    ensures Inert(cfg, prefix, Header(title)) <==> Assignment(cfg, prefix, "# " + title).None?
  {
    HeaderLines(title);
    ThirdLineDecides(cfg, prefix, Header(title), "# " + title);
  }

  lemma {:induction false} EndCommentIsInert(cfg: Config, prefix: string, title: string)
    requires OneLine(title)
    ensures Inert(cfg, prefix, EndComment(title)) <==> Assignment(cfg, prefix, "# end of " + title).None?
  {
    EndCommentLines(title);
    var ls := Lines(EndComment(title));
    assert ls[0] == "# end of " + title;
  }

  // A menu called "CONFIG_FOO is not set" sets FOO to n when the file is loaded.
  lemma {:induction false} TitleReadAsAssignment(cfg: Config, prefix: string, s: nat)
    requires NamesOk(cfg, prefix) && s < |cfg.syms| && cfg.Boolish(s)
    ensures Assignment(cfg, prefix, "# " + (prefix + cfg.S(s).name + NOT_SET)) == Some((s, "n"))
    ensures OneLine(prefix + cfg.S(s).name + NOT_SET) ==> !Inert(cfg, prefix, Header(prefix + cfg.S(s).name + NOT_SET))
  {
    var title := prefix + cfg.S(s).name + NOT_SET;
    assert "# " + title == UnsetLine(prefix, cfg.S(s).name);
    RStripLast(UnsetLine(prefix, cfg.S(s).name));
    ReadUnsetLine(prefix, cfg.S(s).name);
    FindByName(cfg, prefix, s, 0);
    if OneLine(title) {
      HeaderIsInert(cfg, prefix, title);
    }
  }

  // ---- saving and loading ----

  // Every symbol has a node in the tree, and the titles of menus and comments are harmless.
  ghost predicate Complete(cfg: Config, prefix: string, kids: seq<Tree>, p: map<MenuNode, Props>) {
    && (forall n: MenuNode :: n in p && (n.item.MenuItem? || n.item.CommentItem?) ==> TitleOk(cfg, prefix, Title(PropsIn(p, n))))
    && (forall n: MenuNode :: n in p && n.item.SymNode? ==> n.item.s < |cfg.syms|)
    && (forall s: nat :: s < |cfg.syms| ==> exists n :: n in Nodes(kids) && n.item == SymNode(s))
  }

  lemma {:induction false} NodesAreVisited(ts: seq<Tree>, n: MenuNode)
    requires n in Nodes(ts)
    ensures Visit(n) in Events(ts)
  {
    if n in Nodes(ts[0].kids) {
      NodesAreVisited(ts[0].kids, n);
    } else if n in Nodes(ts[1..]) {
      NodesAreVisited(ts[1..], n);
    }
  }

  lemma {:induction false} MarkIsOk(k: View, prefix: string, header: string, top: MenuNode, kids: seq<Tree>, p: map<MenuNode, Props>, st: Progress, m: Mark)
    requires NamesOk(k.cfg, prefix) && Inert(k.cfg, prefix, header) && Complete(k.cfg, prefix, kids, p)
    requires MarkFrom(k, p, top, st, m) && forall s :: s in st.seen ==> s < |k.cfg.syms|
    ensures PieceOk(k, prefix, PieceOf(p, header, m))
  {
    PlainLinesAreInert(k.cfg, prefix);
    match m
    case Head(n) => HeaderIsInert(k.cfg, prefix, Title(PropsIn(p, n)));
    case End(n) => EndCommentIsInert(k.cfg, prefix, Title(PropsIn(p, n)));
    case _ =>
  }

  lemma {:induction false} FullPiecesOk(k: View, prefix: string, header: string, top: MenuNode, kids: seq<Tree>, p: map<MenuNode, Props>)
    requires NamesOk(k.cfg, prefix) && Inert(k.cfg, prefix, header) && Complete(k.cfg, prefix, kids, p) && p.Keys == {top} + NodeSet(kids)
    ensures PiecesOk(k, prefix, FullPieces(k, prefix, p, top, kids, header))
  {
    var st := FullProgress(k, prefix, p, top, kids);
    FullIsOrderly(k, prefix, top, kids, p);
    EventNodes(kids);
    forall piece | piece in FullPieces(k, prefix, p, top, kids, header) ensures PieceOk(k, prefix, piece) {
      var i :| 0 <= i < |st.marks| && PieceOf(p, header, st.marks[i]) == piece;
      assert MarkFrom(k, p, top, st, st.marks[i]);
      MarkIsOk(k, prefix, header, top, kids, p, st, st.marks[i]);
    }
  }

  // Every symbol has an entry.
  lemma {:induction false} FullOmitsNothing(k: View, prefix: string, header: string, top: MenuNode, kids: seq<Tree>, p: map<MenuNode, Props>, s: nat)
    requires Complete(k.cfg, prefix, kids, p) && p.Keys == {top} + NodeSet(kids) && s < |k.cfg.syms|
    ensures Entry(s) in FullPieces(k, prefix, p, top, kids, header)
  {
    var ms := FullProgress(k, prefix, p, top, kids).marks;
    FullIsOrderly(k, prefix, top, kids, p);
    var n :| n in Nodes(kids) && n.item == SymNode(s);
    NodesAreVisited(kids, n);
    assert Visit(n) in Inside(top, kids);
    assert s in SymsVisited(Inside(top, kids));
    assert Symbol(s) in ms;
    var i :| 0 <= i < |ms| && ms[i] == Symbol(s);
    assert FullPieces(k, prefix, p, top, kids, header)[i] == Entry(s);
  }

  // Loading a full configuration with replace, whatever the user values are by then, gives every symbol
  // the value, and every choice the selection, that it had when the configuration was written.
  lemma {:induction false} FullConfigReproduces(cfg: Config, prefix: string, header: string, top: MenuNode, kids: seq<Tree>, p: map<MenuNode, Props>, u: Users, u': Users)
    requires Evaluable(cfg) && Writable(Evaluated(cfg, u), prefix) && Inert(cfg, prefix, header)
    requires Complete(cfg, prefix, kids, p) && p.Keys == {top} + NodeSet(kids)
    requires UsersShaped(cfg, u') && UsersOk(cfg, u')
    ensures
      var k := Evaluated(cfg, u);
      Values(cfg, LoadReplacing(cfg, prefix, u', Lines(Contents(k, prefix, FullPieces(k, prefix, p, top, kids, header))))) == Values(cfg, u)
  {
    var k := Evaluated(cfg, u);
    FullPiecesOk(k, prefix, header, top, kids, p);
    forall s: nat | s < |cfg.syms| ensures Entry(s) in FullPieces(k, prefix, p, top, kids, header) {
      FullOmitsNothing(k, prefix, header, top, kids, p, s);
    }
    LoadingReproduces(k, prefix, u', FullPieces(k, prefix, p, top, kids, header));
  }

  // ---- a title that changes a value ----

  // The bool symbol FOO with a prompt and the default y.
  function FooConfig(num: Numerals): Config {
    Config([SymDecl("FOO", Bool, [YES], [Default(YES, YES)], [], NO, NO, YES, None, false)], [], Const(0), num)
  }

  function FooRank(q: Quantity): nat {
    match q
    case SymTri(_) => 1
    case SymStr(_) => 2
    case _ => 0
  }

  lemma {:induction false} FooReads(cfg: Config, q: Quantity)
    requires cfg == FooConfig(cfg.num)
    ensures ReadsLower(cfg, Ranking(FooRank, 3), q)
  {
    SingleRefs(cfg, YES);
    assert DefaultConds(cfg.S(0).defaults) == [YES] && DefaultValues(cfg.S(0).defaults) == [YES];
  }

  lemma {:induction false} FooEvaluates(num: Numerals)
    ensures Evaluable(FooConfig(num)) && BoolOnly(FooConfig(num))
  {
    var cfg := FooConfig(num);
    forall q ensures ReadsLower(cfg, Ranking(FooRank, 3), q) {
      FooReads(cfg, q);
    }
    assert Ranks(cfg, Ranking(FooRank, 3));
    forall s: nat ensures ChoiceSymbolOk(cfg, s) && SelectsOk(cfg, s) && BoolOnlySymbol(cfg, s) && PromptsGuarded(cfg, s) && PromptNeedsDeps(cfg, s) {
    }
    forall y, c: nat ensures OnlyMembersMention(cfg, y, c) {
    }
  }

  // FOO has the value t.
  function FooEnv(t: Tri): Env { Env([SymEnt(Some(2), Some(t), Some(TriStr(t)))], []) }

  // Its user value, or the default y.
  lemma {:induction false} FooValue(num: Numerals, user: Option<UserVal>)
    requires user == None || user == Some(UTri(0)) || user == Some(UTri(2))
    ensures
      var cfg, u := FooConfig(num), Users([user], [], []);
      Evaluable(cfg) && UsersOk(cfg, u) && SelectsMembers(cfg, u) && Values(cfg, u) == FooEnv(if user == Some(UTri(0)) then 0 else 2)
  {
    var cfg, u := FooConfig(num), Users([user], [], []);
    FooEvaluates(num);
    forall i: nat ensures UserOk(cfg, u, i) {
    }
    UsersSelectMembers(cfg, u);
    FooSolution(num, user);
    ValuesAreTheSolution(cfg, u);
  }

  lemma {:induction false} FooSolution(num: Numerals, user: Option<UserVal>)
    requires user == None || user == Some(UTri(0)) || user == Some(UTri(2))
    ensures Solution(View(FooConfig(num), Users([user], [], []), FooEnv(if user == Some(UTri(0)) then 0 else 2)))
  {
    var k := View(FooConfig(num), Users([user], [], []), FooEnv(if user == Some(UTri(0)) then 0 else 2));
    assert k.Eval(YES) == Some(2) && k.Eval(NO) == Some(0);
    assert k.MaxEval([YES], 0) == Some(0) && k.MaxEval([YES], 1) == Some(2);
    assert DefaultConds(k.cfg.S(0).defaults) == [YES] && k.FirstActive([YES], 0) == Some(Some((0, 2)));
    forall q | InRange(k.cfg, q) ensures Recomputed(k, q) {
    }
  }

  const FOO_TITLE: string := "CONFIG_" + "FOO" + NOT_SET

  // A node for FOO and then a comment with that title.
  ghost function TitleProps(top: MenuNode, foo: MenuNode, comment: MenuNode): map<MenuNode, Props> {
    var plain := Props(None, YES, YES, [], [], [], []);
    map[top := plain, foo := plain, comment := plain.(prompt := Some(Prompt(FOO_TITLE, YES)))]
  }

  ghost predicate TitleNodes(top: MenuNode, foo: MenuNode, comment: MenuNode) {
    top.item.MenuItem? && foo.item == SymNode(0) && comment.item == CommentItem
  }

  lemma {:induction false} TitleMarks(k: View, prefix: string, top: MenuNode, foo: MenuNode, comment: MenuNode)
    requires TitleNodes(top, foo, comment) && k.Eval(YES) == Some(2)
    ensures FullProgress(k, prefix, TitleProps(top, foo, comment), top, [Tree(foo, []), Tree(comment, [])]).marks == [Start, Symbol(0), Head(comment)]
  {
    var kids := [Tree(foo, []), Tree(comment, [])];
    var p := TitleProps(top, foo, comment);
    var es := [Visit(foo), Visit(comment), Leave(top)];
    assert kids[1..] == [Tree(comment, [])] && kids[1..][1..] == [];
    assert Inside(foo, []) == [] && Inside(comment, []) == [] && Events([]) == [];
    assert Events(kids[1..]) == [Visit(comment)] && Events(kids) == [Visit(foo), Visit(comment)];
    assert Inside(top, kids) == es;
    var st1 := Step(k, prefix, p, top, AT_START, es[0]);
    assert st1.marks == [Start, Symbol(0)] && !st1.afterEnd;
    var st2 := Step(k, prefix, p, top, st1, es[1]);
    assert st2.marks == [Start, Symbol(0), Head(comment)];
    assert Step(k, prefix, p, top, st2, es[2]) == st2;
    OneMoreStep(k, prefix, p, top, AT_START, es, 0);
    OneMoreStep(k, prefix, p, top, AT_START, es, 1);
    OneMoreStep(k, prefix, p, top, AT_START, es, 2);
    assert es[..0] == [] && es[..3] == es;
  }

  // Reading the comment above assigns n.
  lemma {:induction false} TitleLoads(cfg: Config, w: Loaded)
    requires NamesOk(cfg, "CONFIG_") && |cfg.syms| == 1 && cfg.Boolish(0) && cfg.S(0).name == "FOO"
    ensures Terminated(Header(FOO_TITLE))
    ensures LoadLines(cfg, "CONFIG_", w, Lines(Header(FOO_TITLE))) == Assign(cfg, w, 0, "n")
  {
    assert OneLine(FOO_TITLE);
    HeaderLines(FOO_TITLE);
    PlainLinesAreInert(cfg, "CONFIG_");
    TitleReadAsAssignment(cfg, "CONFIG_", 0);
    ThirdLineLoads(cfg, "CONFIG_", w, "# " + FOO_TITLE);
  }

  lemma {:induction false} ThirdLineLoads(cfg: Config, prefix: string, w: Loaded, line: string)
    requires Assignment(cfg, prefix, "").None? && Assignment(cfg, prefix, "#").None?
    ensures LoadLines(cfg, prefix, w, ["", "#", line, "#"]) == LoadLine(cfg, prefix, w, line)
  {
    var w', lines := LoadLine(cfg, prefix, w, line), ["", "#", line, "#"];
    OneLineEffect(cfg, prefix, w', "#");
    assert lines[1..] == ["#", line, "#"] && ["#", line, "#"][1..] == [line, "#"] && [line, "#"][1..] == ["#"];
    assert LoadLines(cfg, prefix, w, [line, "#"]) == w';
    assert LoadLines(cfg, prefix, w, ["#", line, "#"]) == w';
  }

  lemma {:induction false} ThreeParts(k: View, prefix: string, p: map<MenuNode, Props>, m: Mark, entry: string)
    requires entry == PieceText(k, prefix, Entry(0))
    ensures Contents(k, prefix, Pieces(p, "", [Start, Symbol(0), m])) == entry + PieceText(k, prefix, PieceOf(p, "", m))
  {
    HeaderFirst(k, prefix, p, "");
    OneMore(k, prefix, p, "", [Start], Symbol(0));
    OneMore(k, prefix, p, "", [Start] + [Symbol(0)], m);
    assert [Start] + [Symbol(0)] + [m] == [Start, Symbol(0), m];
    assert "" + entry == entry;
  }

  lemma {:induction false} TitleContents(k: View, p: map<MenuNode, Props>, comment: MenuNode, w: Loaded, text: string)
    requires Writable(k, "CONFIG_") && |k.cfg.syms| == 1 && k.cfg.Boolish(0) && k.cfg.S(0).name == "FOO" && Title(PropsIn(p, comment)) == FOO_TITLE
    requires text == Contents(k, "CONFIG_", Pieces(p, "", [Start, Symbol(0), Head(comment)]))
    ensures LoadLines(k.cfg, "CONFIG_", w, Lines(text)) == Assign(k.cfg, PieceEffect(k, "CONFIG_", w, Entry(0)), 0, "n")
  {
    var entry, w' := PieceText(k, "CONFIG_", Entry(0)), PieceEffect(k, "CONFIG_", w, Entry(0));
    ThreeParts(k, "CONFIG_", p, Head(comment), entry);
    PieceReadBack(k, "CONFIG_", w, Entry(0));
    TitleLoads(k.cfg, w');
    TextAppended(k.cfg, "CONFIG_", w, entry, Header(FOO_TITLE));
  }

  // FOO is y and everything but the title is harmless; after saving and loading FOO is n.
  lemma {:induction false} TitleChangesValue(num: Numerals, top: MenuNode, foo: MenuNode, comment: MenuNode)
    requires TitleNodes(top, foo, comment)
    ensures
      var cfg, u := FooConfig(num), NoUsers(FooConfig(num));
      && Evaluable(cfg) && Writable(Evaluated(cfg, u), "CONFIG_") && Values(cfg, u).S(0).tri == Some(2)
      && var text := Contents(Evaluated(cfg, u), "CONFIG_", FullPieces(Evaluated(cfg, u), "CONFIG_", TitleProps(top, foo, comment), top, [Tree(foo, []), Tree(comment, [])], ""));
         Values(cfg, LoadReplacing(cfg, "CONFIG_", u, Lines(text))).S(0).tri == Some(0)
  {
    var cfg, u := FooConfig(num), NoUsers(FooConfig(num));
    assert u == Users([None], [], []);
    FooValue(num, None);
    FooValue(num, Some(UTri(0)));
    FooEvaluates(num);
    ValuesAreTheSolution(cfg, u);
    var k := Evaluated(cfg, u);
    FooWritable(k);
    TitleMarks(k, "CONFIG_", top, foo, comment);
    var p := TitleProps(top, foo, comment);
    TitleContents(k, p, comment, Unmarked(u), Contents(k, "CONFIG_", Pieces(p, "", [Start, Symbol(0), Head(comment)])));
    FooLoaded(k);
  }

  lemma {:induction false} FooWritable(k: View)
    requires k.cfg == FooConfig(k.cfg.num) && k.u == Users([None], [], []) && Solution(k) && BoolOnly(k.cfg) && Evaluable(k.cfg) && UsersOk(k.cfg, k.u)
    ensures Writable(k, "CONFIG_") && k.Eval(YES) == Some(2)
  {
    assert k.cfg.syms[0].name == "FOO" && IsName("FOO");
    assert NamesOk(k.cfg, "CONFIG_");
  }

  lemma {:induction false} FooLoaded(k: View)
    requires k.cfg == FooConfig(k.cfg.num) && k.u == Users([None], [], []) && k.env == FooEnv(2)
    ensures
      var w := Assign(k.cfg, PieceEffect(k, "CONFIG_", Unmarked(k.u), Entry(0)), 0, "n");
      LoadedShaped(k.cfg, w) && KeepSet(w) == Users([Some(UTri(0))], [], [])
  {
    assert WordTri("n") == Some(0) && WordTri("y") == Some(2);
  }
}
