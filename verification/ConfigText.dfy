// The .config format: how one symbol is written, and how one line is read.
module ConfigText {
  import opened Basics

  // ---- strings ----

  // Replaces every occurrence of the character c.
  function Replace(s: string, c: char, with: string): string {
    if s == "" then "" else (if s[0] == c then with else [s[0]]) + Replace(s[1..], c, with)
  }

  // escape()
  function Escape(s: string): string { Replace(Replace(s, '\\', "\\\\"), '\"', "\\\"") }

  // unescape(): a backslash followed by a character other than a newline stands for that character.
  function Unescape(s: string): string {
    if s == "" then ""
    else if s[0] == '\\' && |s| > 1 && s[1] != '\n' then [s[1]] + Unescape(s[2..])
    else [s[0]] + Unescape(s[1..])
  }

  // What is left of s after an opening quote, up to the first quote that is not escaped: the group
  // of the regular expression behind _conf_string_match.
  function QuotedBody(s: string): Option<string> {
    if s == "" then None
    else if s[0] == '\"' then Some("")
    else if s[0] == '\\' then
      if |s| > 1 && s[1] != '\n' then
        var rest :- QuotedBody(s[2..]);
        Some(s[..2] + rest)
      else None
    else
      var rest :- QuotedBody(s[1..]);
      Some([s[0]] + rest)
  }

  function ConfString(s: string): Option<string> {
    if s != "" && s[0] == '\"' then QuotedBody(s[1..]) else None
  }

  lemma {:induction false} ReplaceConcat(a: string, b: string, c: char, with: string)
    ensures Replace(a + b, c, with) == Replace(a, c, with) + Replace(b, c, with)
  {
    if a == "" {
      assert a + b == b;
    } else {
      ReplaceConcat(a[1..], b, c, with);
      assert (a + b)[0] == a[0] && (a + b)[1..] == a[1..] + b;
      Regroup(if a[0] == c then with else [a[0]], Replace(a[1..], c, with), Replace(b, c, with));
    }
  }

  lemma {:induction false} ReplaceOne(c: char, d: char, with: string)
    ensures Replace([c], d, with) == if c == d then with else [c]
  {
    assert Replace([c][1..], d, with) == "";
  }

  // The two passes of escape(), one character at a time.
  lemma {:induction false} EscapeStep(s: string)
    requires s != ""
    ensures Escape(s) == (if s[0] == '\\' then "\\\\" else if s[0] == '\"' then "\\\"" else [s[0]]) + Escape(s[1..])
  {
    var first := if s[0] == '\\' then "\\\\" else [s[0]];
    ReplaceConcat(first, Replace(s[1..], '\\', "\\\\"), '\"', "\\\"");
    ReplaceOne(s[0], '\"', "\\\"");
    if s[0] == '\\' {
      assert "\\\\" == ['\\'] + ['\\'];
      ReplaceOne('\\', '\"', "\\\"");
      ReplaceConcat(['\\'], ['\\'], '\"', "\\\"");
    }
  }

  // One character of the original, escaped.
  function EscapeChar(c: char): string { if c == '\\' then "\\\\" else if c == '\"' then "\\\"" else [c] }

  lemma {:induction false} UnescapeChar(c: char, e: string)
    ensures Unescape(EscapeChar(c) + e) == [c] + Unescape(e)
  {
    var s := EscapeChar(c) + e;
    if c == '\\' || c == '\"' {
      assert s == ['\\', c] + e && s[2..] == e;
    } else {
      assert s[1..] == e;
    }
  }

  lemma {:induction false} QuotedChar(c: char, e: string, tail: string)
    requires QuotedBody(e + "\"" + tail) == Some(e)
    ensures QuotedBody(EscapeChar(c) + (e + "\"" + tail)) == Some(EscapeChar(c) + e)
  {
    var s := EscapeChar(c) + (e + "\"" + tail);
    if c == '\\' || c == '\"' {
      assert s == ['\\', c] + (e + "\"" + tail) && s[2..] == e + "\"" + tail && s[..2] == ['\\', c];
    } else {
      assert s[1..] == e + "\"" + tail;
    }
  }

  lemma {:induction false} EscapeFirst(s: string)
    requires s != ""
    ensures Escape(s) == EscapeChar(s[0]) + Escape(s[1..])
  {
    EscapeStep(s);
  }

  lemma {:induction false} EscapedUnescapes(s: string, e: string)
    requires e == Escape(s)
    ensures Unescape(e) == s
  {
    if s != "" {
      EscapeFirst(s);
      EscapedUnescapes(s[1..], Escape(s[1..]));
      UnescapeChar(s[0], Escape(s[1..]));
    } else {
      assert e == "";
    }
  }

  lemma {:induction false} EscapedIsQuoted(s: string, e: string, tail: string)
    requires e == Escape(s)
    ensures QuotedBody(e + "\"" + tail) == Some(e)
  {
    if s != "" {
      var e' := Escape(s[1..]);
      EscapeFirst(s);
      EscapedIsQuoted(s[1..], e', tail);
      QuotedChar(s[0], e', tail);
      assert e + "\"" + tail == EscapeChar(s[0]) + (e' + "\"" + tail);
    } else {
      assert e == "" && e + "\"" + tail == "\"" + tail;
    }
  }

  // Escaped text, closed by a quote, is read back as itself and unescapes to the original.
  lemma {:induction false} EscapeRoundTrip(s: string)
    ensures Unescape(Escape(s)) == s
    ensures forall tail :: QuotedBody(Escape(s) + "\"" + tail) == Some(Escape(s))
  {
    EscapedUnescapes(s, Escape(s));
    forall tail ensures QuotedBody(Escape(s) + "\"" + tail) == Some(Escape(s)) {
      EscapedIsQuoted(s, Escape(s), tail);
    }
  }

  // ---- lines ----

  // str.isspace()
  predicate IsSpace(c: char) {
    var n := c as int;
    || 0x9 <= n <= 0xd || 0x1c <= n <= 0x20 || n == 0x85 || n == 0xa0 || n == 0x1680
    || 0x2000 <= n <= 0x200a || n == 0x2028 || n == 0x2029 || n == 0x202f || n == 0x205f || n == 0x3000
  }

  function RStrip(s: string): string
    decreases |s|
  {
    if s != "" && IsSpace(s[|s| - 1]) then RStrip(s[..|s| - 1]) else s
  }

  // The index of the first c in s, |s| if there is none.
  function IndexOf(s: string, c: char): (i: nat)
    ensures i <= |s| && c !in s[..i] && (i < |s| ==> s[i] == c)
  {
    if s == "" then 0
    else if s[0] == c then 0
    else
      var i := IndexOf(s[1..], c);
      assert s[..i + 1] == [s[0]] + s[1..][..i];
      i + 1
  }

  // What a line of a configuration file says: NAME=text, "NAME is not set", or neither.
  datatype Line = Set(name: string, text: string) | Unset(name: string) | Other

  const NOT_SET: string := " is not set"

  function ReadSet(rest: string): Line {
    var i := IndexOf(rest, '=');
    if 0 < i < |rest| then Set(rest[..i], rest[i + 1..][..IndexOf(rest[i + 1..], '\n')]) else Other
  }

  function ReadUnset(rest: string): Line {
    var i := IndexOf(rest, ' ');
    if 0 < i && NOT_SET <= rest[i..] then Unset(rest[..i]) else Other
  }

  function ReadLine(prefix: string, s: string): Line {
    if prefix <= s && ReadSet(s[|prefix|..]).Set? then ReadSet(s[|prefix|..])
    else if "# " + prefix <= s then ReadUnset(s[2 + |prefix|..])
    else Other
  }

  // Symbol names never contain '=' or a space.
  predicate IsName(name: string) { name != "" && '=' !in name && ' ' !in name && '\n' !in name && '\r' !in name }

  predicate OneLine(s: string) { '\n' !in s && '\r' !in s }

  function SetLine(prefix: string, name: string, text: string): string { prefix + name + "=" + text }

  function UnsetLine(prefix: string, name: string): string { "# " + prefix + name + NOT_SET }

  lemma {:induction false} IndexOfFirst(a: string, c: char, b: string)
    requires c !in a
    ensures IndexOf(a + [c] + b, c) == |a|
  {
    if a == "" {
      assert a + [c] + b == [c] + b;
    } else {
      IndexOfFirst(a[1..], c, b);
      assert (a + [c] + b)[1..] == a[1..] + [c] + b;
    }
  }

  lemma {:induction false} IndexOfNone(s: string, c: char)
    requires c !in s
    ensures IndexOf(s, c) == |s|
  {
  }

  lemma {:induction false} ReadSetRest(name: string, text: string)
    requires IsName(name) && OneLine(text)
    ensures ReadSet(name + "=" + text) == Set(name, text)
  {
    var rest := name + "=" + text;
    assert rest == name + ['='] + text;
    IndexOfFirst(name, '=', text);
    assert rest[..|name|] == name && rest[|name| + 1..] == text;
    IndexOfNone(text, '\n');
  }

  lemma {:induction false} ReadUnsetRest(name: string)
    requires IsName(name)
    ensures ReadUnset(name + NOT_SET) == Unset(name)
  {
    var rest := name + NOT_SET;
    assert rest == name + [' '] + "is not set";
    IndexOfFirst(name, ' ', "is not set");
    assert rest[..|name|] == name && rest[|name|..] == NOT_SET;
  }

  lemma {:induction false} ReadSetLine(prefix: string, name: string, text: string)
    requires IsName(name) && OneLine(text)
    ensures ReadLine(prefix, SetLine(prefix, name, text)) == Set(name, text)
  {
    ReadSetRest(name, text);
    assert SetLine(prefix, name, text) == prefix + (name + "=" + text);
    assert SetLine(prefix, name, text)[|prefix|..] == name + "=" + text;
  }

  lemma {:induction false} ReadUnsetLine(prefix: string, name: string)
    requires IsName(name) && prefix != "" && prefix[0] != '#'
    ensures ReadLine(prefix, UnsetLine(prefix, name)) == Unset(name)
  {
    ReadUnsetRest(name);
    var s := UnsetLine(prefix, name);
    assert s[0] == '#';
    assert s == ("# " + prefix) + (name + NOT_SET);
    assert s[2 + |prefix|..] == name + NOT_SET;
  }

  lemma {:induction false} RStripLast(s: string)
    requires s == "" || !IsSpace(s[|s| - 1])
    ensures RStrip(s) == s && RStrip(s + "\n") == s
  {
    assert (s + "\n")[..|s|] == s;
  }

  // ---- files ----

  // The lines of a file, without their line ends.
  function Lines(s: string): seq<string>
    decreases |s|
  {
    if s == "" then []
    else
      var i := IndexOf(s, '\n');
      if i == |s| then [s] else [s[..i]] + Lines(s[i + 1..])
  }

  predicate Terminated(s: string) { s == "" || s[|s| - 1] == '\n' }

  lemma {:induction false} FirstLine(line: string, rest: string)
    requires '\n' !in line
    ensures Lines(line + ['\n'] + rest) == [line] + Lines(rest)
  {
    var s := line + ['\n'] + rest;
    IndexOfFirst(line, '\n', rest);
    assert s[..|line|] == line && s[|line| + 1..] == rest;
  }

  lemma {:induction false} LinesConcat(a: string, b: string)
    requires Terminated(a)
    ensures Lines(a + b) == Lines(a) + Lines(b)
    decreases |a|
  {
    if a == "" {
      assert a + b == b;
    } else {
      var i := IndexOf(a, '\n');
      var line, rest := a[..i], a[i + 1..];
      assert a == line + ['\n'] + rest;
      Regroup(line + ['\n'], rest, b);
      LinesConcat(rest, b);
      FirstLine(line, rest);
      FirstLine(line, rest + b);
      Regroup([line], Lines(rest), Lines(b));
    }
  }

  lemma {:induction false} LinesOne(s: string)
    requires '\n' !in s
    ensures Lines(s + "\n") == [s]
  {
    IndexOfFirst(s, '\n', "");
    assert s + "\n" == s + ['\n'] + "";
    assert (s + "\n")[..|s|] == s && (s + "\n")[|s| + 1..] == "";
  }
}
