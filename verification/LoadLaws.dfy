// What loading a configuration comes to: which lines assign something, and which of them count.
module LoadLaws {
  import opened Basics
  import opened Model
  import opened UserValues
  import opened ConfigText
  import opened ConfigFile
  import opened LoadHistory

  // ---- lines ----

  // NAME=text behind the prefix, up to a line break.
  ghost predicate SaysSet(prefix: string, line: string, name: string, text: string) {
    && name != "" && '=' !in name && '\n' !in text
    && exists more: string :: line == prefix + (name + "=" + (text + more)) && (more == "" || more[0] == '\n')
  }

  // "# NAME is not set" behind the prefix, with anything after it.
  ghost predicate SaysUnset(prefix: string, line: string, name: string) {
    name != "" && ' ' !in name && exists more: string :: line == "# " + prefix + (name + (NOT_SET + more))
  }

  lemma {:induction false} SetRest(name: string, text: string, more: string)
    requires name != "" && '=' !in name && '\n' !in text && (more == "" || more[0] == '\n')
    ensures ReadSet(name + "=" + (text + more)) == Set(name, text)
  {
    var rest := name + "=" + (text + more);
    IndexOfFirst(name, '=', text + more);
    assert rest == name + ['='] + (text + more);
    assert rest[..|name|] == name && rest[|name| + 1..] == text + more;
    if more == "" {
      assert text + more == text;
      IndexOfNone(text, '\n');
    } else {
      IndexOfFirst(text, '\n', more[1..]);
      assert text + more == text + ['\n'] + more[1..];
    }
    assert (text + more)[..|text|] == text;
  }

  lemma {:induction false} CutAt(s: string, i: nat)
    requires i < |s|
    ensures s == s[..i] + ([s[i]] + s[i + 1..])
  {
  }

  lemma {:induction false} SetParts(rest: string) returns (more: string)
    requires ReadSet(rest).Set?
    ensures
      var Set(name, text) := ReadSet(rest);
      name != "" && '=' !in name && '\n' !in text && rest == name + "=" + (text + more) && (more == "" || more[0] == '\n')
  {
    var i := IndexOf(rest, '=');
    var value := rest[i + 1..];
    var j := IndexOf(value, '\n');
    more := value[j..];
    assert value == value[..j] + more;
    CutAt(rest, i);
    Regroup(rest[..i], "=", value);
  }

  // A line reads as an assignment if and only if it says so.
  lemma {:induction false} SetIsRead(prefix: string, line: string, name: string, text: string)
    ensures ReadLine(prefix, line) == Set(name, text) <==> SaysSet(prefix, line, name, text)
  {
    if SaysSet(prefix, line, name, text) {
      var more: string :| line == prefix + (name + "=" + (text + more)) && (more == "" || more[0] == '\n');
      SetRest(name, text, more);
      assert line[|prefix|..] == name + "=" + (text + more);
    }
    if ReadLine(prefix, line) == Set(name, text) {
      var more := SetParts(line[|prefix|..]);
      assert line == prefix + line[|prefix|..];
    }
  }

  lemma {:induction false} UnsetRest(name: string, more: string)
    requires name != "" && ' ' !in name
    ensures ReadUnset(name + (NOT_SET + more)) == Unset(name)
  {
    var rest := name + (NOT_SET + more);
    IndexOfFirst(name, ' ', "is not set" + more);
    assert NOT_SET + more == [' '] + ("is not set" + more);
    Regroup(name, [' '], "is not set" + more);
    assert rest[..|name|] == name && rest[|name|..] == NOT_SET + more;
  }

  lemma {:induction false} UnsetParts(rest: string) returns (more: string)
    requires ReadUnset(rest).Unset?
    ensures ReadUnset(rest).name != "" && ' ' !in ReadUnset(rest).name && rest == ReadUnset(rest).name + (NOT_SET + more)
  {
    var i := IndexOf(rest, ' ');
    more := rest[i..][|NOT_SET|..];
    assert rest[i..] == NOT_SET + more;
    assert rest == rest[..i] + rest[i..];
  }

  lemma {:induction false} UnsetIsRead(prefix: string, line: string, name: string)
    requires prefix != "" && prefix[0] != '#'
    ensures ReadLine(prefix, line) == Unset(name) <==> SaysUnset(prefix, line, name)
  {
    var start := "# " + prefix;
    if SaysUnset(prefix, line, name) {
      var more: string :| line == start + (name + (NOT_SET + more));
      UnsetRest(name, more);
      assert line[|start|..] == name + (NOT_SET + more) && line[0] == '#' && line[..|start|] == start;
    }
    if ReadLine(prefix, line) == Unset(name) {
      var more := UnsetParts(line[|start|..]);
      assert line == start + line[|start|..];
    }
  }

  // Text in which every quote and backslash is escaped, and every backslash escapes something.
  predicate Escaped(b: string) {
    b == "" || (b[0] != '\"' && b[0] != '\\' && Escaped(b[1..])) || (b[0] == '\\' && |b| > 1 && b[1] != '\n' && Escaped(b[2..]))
  }

  lemma {:induction false} EscapedIsMatched(b: string, rest: string)
    requires Escaped(b)
    ensures QuotedBody(b + ("\"" + rest)) == Some(b)
  {
    var s := b + ("\"" + rest);
    if b == "" {
      assert s == "\"" + rest;
    } else if b[0] == '\\' {
      EscapedIsMatched(b[2..], rest);
      assert s[2..] == b[2..] + ("\"" + rest) && s[..2] == b[..2] && b == b[..2] + b[2..];
    } else {
      EscapedIsMatched(b[1..], rest);
      assert s[1..] == b[1..] + ("\"" + rest) && b == [b[0]] + b[1..];
    }
  }

  lemma {:induction false} MatchedIsEscaped(s: string) returns (rest: string)
    requires QuotedBody(s).Some?
    ensures Escaped(QuotedBody(s).value) && s == QuotedBody(s).value + ("\"" + rest)
  {
    var b := QuotedBody(s).value;
    if s[0] == '\"' {
      rest := s[1..];
    } else if s[0] == '\\' {
      rest := MatchedIsEscaped(s[2..]);
      assert b == s[..2] + QuotedBody(s[2..]).value && b[2..] == QuotedBody(s[2..]).value;
      assert s == s[..2] + s[2..];
    } else {
      rest := MatchedIsEscaped(s[1..]);
      assert b == [s[0]] + QuotedBody(s[1..]).value && b[1..] == QuotedBody(s[1..]).value;
      assert s == [s[0]] + s[1..];
    }
  }

  // A string is read up to the first quote that is not escaped: b, if the text is b, with all in it
  // escaped, in quotes, whatever follows.
  lemma {:induction false} StringIsRead(s: string, b: string)
    ensures ConfString(s) == Some(b) <==> Escaped(b) && exists rest: string :: s == "\"" + (b + ("\"" + rest))
  {
    if ConfString(s) == Some(b) {
      var rest := MatchedIsEscaped(s[1..]);
      assert s == "\"" + s[1..];
    }
    if rest: string :| Escaped(b) && s == "\"" + (b + ("\"" + rest)) {
      EscapedIsMatched(b, rest);
      assert s[1..] == b + ("\"" + rest);
    }
  }

  // What a text assigns to a symbol of a type: its first character, y, n or (for tristates) m; what is in the
  // quotes at its front; or the text itself.
  predicate TextAssigns(typ: Type, text: string, v: string) {
    match typ
    case Bool => text != "" && text[0] in "yn" && v == [text[0]]
    case Tristate => text != "" && text[0] in "ymn" && v == [text[0]]
    case String => ConfString(text).Some? && v == Unescape(ConfString(text).value)
    case _ => v == text
  }

  // A line assigns v to s if and only if, apart from white space at its end, it is an assignment to the
  // name of s of a text that means v, or says that s is not set, s is bool or tristate and v is n.
  lemma {:induction false} AssignmentIsExact(cfg: Config, prefix: string, line: string, s: nat, v: string)
    requires NamesOk(cfg, prefix) && s < |cfg.syms|
    ensures Assignment(cfg, prefix, line) == Some((s, v)) <==>
            || (exists text: string :: SaysSet(prefix, RStrip(line), cfg.S(s).name, text) && TextAssigns(cfg.S(s).typ, text, v))
            || (SaysUnset(prefix, RStrip(line), cfg.S(s).name) && cfg.Boolish(s) && v == "n")
  {
    var r := RStrip(line);
    UnsetIsRead(prefix, r, cfg.S(s).name);
    FindByName(cfg, prefix, s, 0);
    if ReadLine(prefix, r).Set? {
      SetAssigns(cfg, prefix, line, s, v);
    } else {
      NothingSet(prefix, r, cfg.S(s).name);
      match ReadLine(prefix, r)
      case Unset(n) => FindName(cfg, n, 0);
      case Other =>
    }
  }

  lemma {:induction false} SetAssigns(cfg: Config, prefix: string, line: string, s: nat, v: string)
    requires NamesOk(cfg, prefix) && s < |cfg.syms| && ReadLine(prefix, RStrip(line)).Set?
    ensures Assignment(cfg, prefix, line) == Some((s, v)) <==>
            exists text: string :: SaysSet(prefix, RStrip(line), cfg.S(s).name, text) && TextAssigns(cfg.S(s).typ, text, v)
  {
    var r, name := RStrip(line), cfg.S(s).name;
    var Set(n, text) := ReadLine(prefix, r);
    FindByName(cfg, prefix, s, 0);
    FindName(cfg, n, 0);
    TextIsTaken(cfg, s, text, v);
    OnlyText(prefix, r, name, cfg.S(s).typ, v);
  }

  // A line says at most one thing.
  lemma {:induction false} OnlyText(prefix: string, line: string, name: string, typ: Type, v: string)
    requires ReadLine(prefix, line).Set?
    ensures
      var Set(n, text) := ReadLine(prefix, line);
      (exists t: string :: SaysSet(prefix, line, name, t) && TextAssigns(typ, t, v)) <==> n == name && TextAssigns(typ, text, v)
  {
    var Set(n, text) := ReadLine(prefix, line);
    if n == name && TextAssigns(typ, text, v) {
      SetIsRead(prefix, line, name, text);
    }
    if t: string :| SaysSet(prefix, line, name, t) && TextAssigns(typ, t, v) {
      SetIsRead(prefix, line, name, t);
    }
  }

  lemma {:induction false} TextIsTaken(cfg: Config, s: nat, text: string, v: string)
    ensures TextAssigns(cfg.S(s).typ, text, v) <==>
            if cfg.Boolish(s) then text != "" && (text[0] == 'y' || text[0] == 'n' || (text[0] == 'm' && cfg.S(s).typ == Tristate)) && v == [text[0]]
            else if cfg.S(s).typ == String then ConfString(text).Some? && v == Unescape(ConfString(text).value)
            else v == text
  {
  }

  lemma {:induction false} NothingSet(prefix: string, line: string, name: string)
    requires !ReadLine(prefix, line).Set?
    ensures forall text: string :: !SaysSet(prefix, line, name, text)
  {
    forall text: string ensures !SaysSet(prefix, line, name, text) {
      SetIsRead(prefix, line, name, text);
    }
  }

  lemma {:induction false} FindName(cfg: Config, name: string, i: nat)
    requires i <= |cfg.syms|
    ensures Find(cfg, name, i).Some? ==> Find(cfg, name, i).value < |cfg.syms| && cfg.S(Find(cfg, name, i).value).name == name
    decreases |cfg.syms| - i
  {
    if i < |cfg.syms| && cfg.syms[i].name != name {
      FindName(cfg, name, i + 1);
    }
  }

  // ---- the last line counts ----

  // What the line sets: the user value of s, the mode of choice c, and its user selection.
  function ValueSet(cfg: Config, prefix: string, line: string, s: nat): Option<UserVal> {
    match Assignment(cfg, prefix, line)
    case Some((t, text)) => if t == s then Parsed(cfg, s, Word(text)) else None
    case None => None
  }

  // An assignment of m or y to a symbol of the choice sets its mode, if the choice takes it.
  function ModeSet(cfg: Config, prefix: string, line: string, c: nat): Option<Tri> {
    match Assignment(cfg, prefix, line)
    case Some((t, text)) => if c in ChoiceOf(cfg, t) && text != "n" then ParsedMode(cfg, c, Word(text)) else None
    case None => None
  }

  // An assignment of y to a symbol of the choice selects it.
  function SelectionSet(cfg: Config, prefix: string, line: string, c: nat): Option<nat> {
    match Assignment(cfg, prefix, line)
    case Some((t, text)) => if c in ChoiceOf(cfg, t) && text == "y" then Some(t) else None
    case None => None
  }

  // The last thing that f finds in the lines.
  function Last<T>(lines: seq<string>, f: string -> Option<T>): Option<T> {
    if lines == [] then None
    else if f(lines[|lines| - 1]).Some? then f(lines[|lines| - 1])
    else Last(lines[..|lines| - 1], f)
  }

  function LastOr<T>(a: Option<T>, b: Option<T>): Option<T> { if a.Some? then a else b }

  lemma {:induction false} FindInRange(cfg: Config, prefix: string, line: string)
    ensures Assignment(cfg, prefix, line).Some? ==> Assignment(cfg, prefix, line).value.0 < |cfg.syms|
  {
    match ReadLine(prefix, RStrip(line))
    case Set(name, _) => FindName(cfg, name, 0);
    case Unset(name) => FindName(cfg, name, 0);
    case Other =>
  }

  // What one line does to a symbol and to a choice.
  lemma {:induction false} LineSets(cfg: Config, prefix: string, w: Loaded, line: string, s: nat)
    requires LoadedShaped(cfg, w) && s < |cfg.syms|
    ensures
      var v := LoadLine(cfg, prefix, w, line);
      && LoadedShaped(cfg, v)
      && v.u.val[s] == LastOr(ValueSet(cfg, prefix, line, s), w.u.val[s])
      && v.setS[s] == (w.setS[s] || ValueSet(cfg, prefix, line, s).Some?)
  {
    LoadLineShaped(cfg, prefix, w, line);
  }

  lemma {:induction false} LineSetsChoice(cfg: Config, prefix: string, w: Loaded, line: string, c: nat)
    requires LoadedShaped(cfg, w) && c < |cfg.choices| && (cfg.C(c).typ == Bool || cfg.C(c).typ == Tristate)
    ensures
      var v := LoadLine(cfg, prefix, w, line);
      && LoadedShaped(cfg, v)
      && v.u.mode[c] == LastOr(ModeSet(cfg, prefix, line, c), w.u.mode[c])
      && v.u.sel[c] == LastOr(SelectionSet(cfg, prefix, line, c), w.u.sel[c])
      && v.setC[c] == (w.setC[c] || ModeSet(cfg, prefix, line, c).Some?)
  {
    LoadLineShaped(cfg, prefix, w, line);
    FindInRange(cfg, prefix, line);
    match Assignment(cfg, prefix, line)
    case None =>
    case Some((t, text)) =>
      assert WordTri("y") == Some(2) && WordTri("m") == Some(1);
      if c in ChoiceOf(cfg, t) {
        OwnChoice(cfg, w, t, text, c);
      } else {
        OtherChoice(cfg, w, t, text, c);
      }
  }

  lemma {:induction false} LinesSet(cfg: Config, prefix: string, w: Loaded, lines: seq<string>, s: nat)
    requires LoadedShaped(cfg, w) && s < |cfg.syms|
    ensures
      var v := LoadLines(cfg, prefix, w, lines);
      var last := Last(lines, line => ValueSet(cfg, prefix, line, s));
      LoadedShaped(cfg, v) && v.u.val[s] == LastOr(last, w.u.val[s]) && v.setS[s] == (w.setS[s] || last.Some?)
  {
    if lines != [] {
      var init, line := lines[..|lines| - 1], lines[|lines| - 1];
      assert lines == init + [line];
      LoadLinesConcat(cfg, prefix, w, init, [line]);
      OneLineEffect(cfg, prefix, LoadLines(cfg, prefix, w, init), line);
      LinesSet(cfg, prefix, w, init, s);
      LineSets(cfg, prefix, LoadLines(cfg, prefix, w, init), line, s);
    }
  }

  lemma {:induction false} LinesSetChoice(cfg: Config, prefix: string, w: Loaded, lines: seq<string>, c: nat)
    requires LoadedShaped(cfg, w) && c < |cfg.choices| && (cfg.C(c).typ == Bool || cfg.C(c).typ == Tristate)
    ensures
      var v := LoadLines(cfg, prefix, w, lines);
      var mode := Last(lines, line => ModeSet(cfg, prefix, line, c));
      var sel := Last(lines, line => SelectionSet(cfg, prefix, line, c));
      && LoadedShaped(cfg, v) && v.u.mode[c] == LastOr(mode, w.u.mode[c]) && v.u.sel[c] == LastOr(sel, w.u.sel[c])
      && v.setC[c] == (w.setC[c] || mode.Some?)
  {
    if lines != [] {
      var init, line := lines[..|lines| - 1], lines[|lines| - 1];
      assert lines == init + [line];
      LoadLinesConcat(cfg, prefix, w, init, [line]);
      OneLineEffect(cfg, prefix, LoadLines(cfg, prefix, w, init), line);
      LinesSetChoice(cfg, prefix, w, init, c);
      LineSetsChoice(cfg, prefix, LoadLines(cfg, prefix, w, init), line, c);
    }
  }

  // After a replacing load the user value of every symbol is the last acceptable one that the file assigns
  // to it, and there is none if there is no such line.
  lemma {:induction false} LastValueCounts(cfg: Config, prefix: string, u: Users, lines: seq<string>, s: nat)
    requires UsersShaped(cfg, u) && s < |cfg.syms|
    ensures LoadReplacing(cfg, prefix, u, lines).val[s] == Last(lines, line => ValueSet(cfg, prefix, line, s))
  {
    LinesSet(cfg, prefix, Unmarked(u), lines, s);
  }

  // The mode of a choice is the last acceptable one assigned to any of its symbols. It selects the last of
  // them that was set to y; without one, an old selection stays if the mode has been set.
  lemma {:induction false} LastModeCounts(cfg: Config, prefix: string, u: Users, lines: seq<string>, c: nat)
    requires UsersShaped(cfg, u) && c < |cfg.choices| && (cfg.C(c).typ == Bool || cfg.C(c).typ == Tristate)
    ensures
      var v := LoadReplacing(cfg, prefix, u, lines);
      var mode := Last(lines, line => ModeSet(cfg, prefix, line, c));
      var sel := Last(lines, line => SelectionSet(cfg, prefix, line, c));
      v.mode[c] == mode && v.sel[c] == if mode.None? then None else LastOr(sel, u.sel[c])
  {
    LinesSetChoice(cfg, prefix, Unmarked(u), lines, c);
  }
}
