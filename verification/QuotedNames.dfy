// Constant symbols are printed in quotes, with escape(); reading them goes through the macro
// preprocessor.
module QuotedNames {
  import opened Basics
  import opened ConfigText
  import opened Macro
  import opened MacroLaws

  predicate HasMacro(s: string) { exists i :: 0 <= i < |s| && OpensAt(s, i) }

  // Escaping opens no macro: what follows a '$' is what followed it before.
  lemma {:induction false} EscapedOpens(s: string, tail: string)
    requires s != "" && !OpensAt(s, 0) && tail != "" && tail[0] == '\"'
    ensures !OpensAt(EscapeChar(s[0]) + (Escape(s[1..]) + tail), 0)
  {
    var e := Escape(s[1..]) + tail;
    if |s| > 1 {
      EscapeFirst(s[1..]);
      assert e[0] == EscapeChar(s[1])[0];
    } else {
      assert s[1..] == "" && e == tail;
    }
    assert (EscapeChar(s[0]) + e)[0] == EscapeChar(s[0])[0];
  }

  lemma {:induction false} NoMacroInRest(s: string)
    requires s != "" && !HasMacro(s)
    ensures !HasMacro(s[1..])
  {
    forall i | 0 <= i < |s[1..]| ensures !OpensAt(s[1..], i) {
      assert !OpensAt(s, i + 1);
    }
  }

  lemma {:induction false} OneMoreCharacter(call: Caller, c: char, more: string, t: string, rest: string)
    requires Quoted(call, '\"', more) == Some(Expansion(t, rest)) && !OpensAt(EscapeChar(c) + more, 0)
    ensures Quoted(call, '\"', EscapeChar(c) + more) == Some(Expansion([c] + t, rest))
  {
    OneCharacter(call, c, more);
  }

  // A quoted constant without "$(" in it is read back as itself, up to its closing quote.
  lemma {:induction false} QuotedNameReadBack(call: Caller, s: string, tail: string, rest: string)
    requires !HasMacro(s) && tail == "\"" + rest
    ensures Quoted(call, '\"', Escape(s) + tail) == Some(Expansion(s, rest))
  {
    if s == "" {
      assert Escape(s) + tail == tail && tail[1..] == rest;
    } else {
      EscapeFirst(s);
      NoMacroInRest(s);
      QuotedNameReadBack(call, s[1..], tail, rest);
      assert !OpensAt(s, 0);
      EscapedOpens(s, tail);
      OneMoreCharacter(call, s[0], Escape(s[1..]) + tail, s[1..], rest);
      Regroup(EscapeChar(s[0]), Escape(s[1..]), tail);
      assert [s[0]] + s[1..] == s;
    }
  }

  lemma {:induction false} OneCharacter(call: Caller, c: char, more: string)
    requires !OpensAt(EscapeChar(c) + more, 0)
    ensures Quoted(call, '\"', EscapeChar(c) + more) == Prepend([c], Quoted(call, '\"', more))
  {
    var s := EscapeChar(c) + more;
    if c == '\"' || c == '\\' {
      assert s == ['\\', c] + more && s[2..] == more;
    } else {
      assert s == [c] + more && s[1..] == more;
    }
  }

  // j is where the first macro in s starts.
  predicate FirstMacro(s: string, j: nat) { OpensAt(s, j) && forall i :: 0 <= i < j ==> !OpensAt(s, i) }

  lemma {:induction false} MacroHasStart(s: string) returns (j: nat)
    requires HasMacro(s)
    ensures FirstMacro(s, j)
  {
    if OpensAt(s, 0) {
      j := 0;
    } else {
      var i :| 0 <= i < |s| && OpensAt(s, i);
      assert OpensAt(s[1..], i - 1);
      j := MacroHasStart(s[1..]);
      j := j + 1;
      forall i | 0 < i < j ensures !OpensAt(s, i) {
        assert !OpensAt(s[1..], i - 1);
      }
    }
  }

  // What a macro expands to, and then the rest of the string.
  function Expanded(call: Caller, m: Option<Expansion>): Option<Expansion> {
    if m.None? then None else Prepend(m.value.value, Quoted(call, '\"', m.value.rest))
  }

  lemma {:induction false} EscapedStart(s: string)
    requires OpensAt(s, 0)
    ensures Escape(s) == "$(" + Escape(s[2..])
  {
    EscapeFirst(s);
    EscapeFirst(s[1..]);
    assert s[1..][1..] == s[2..];
  }

  lemma {:induction false} QuotedMacro(call: Caller, more: string)
    ensures Quoted(call, '\"', "$(" + more) == Expanded(call, OneMacro(call, more, "", []))
  {
    var text := "$(" + more;
    assert text[2..] == more && OpensAt(text, 0);
  }

  lemma {:induction false} MacroAtStart(call: Caller, s: string, tail: string)
    requires OpensAt(s, 0)
    ensures Quoted(call, '\"', Escape(s) + tail) == Expanded(call, OneMacro(call, Escape(s[2..]) + tail, "", []))
  {
    EscapedStart(s);
    Regroup("$(", Escape(s[2..]), tail);
    QuotedMacro(call, Escape(s[2..]) + tail);
  }

  // A constant with a macro in it is read as the text before the macro and then what the macro expands
  // to, whatever its arguments are. One that is not closed goes on in the text behind the constant.
  lemma {:induction false} MacroNameIsExpanded(call: Caller, s: string, j: nat, tail: string)
    requires FirstMacro(s, j) && tail != "" && tail[0] == '\"'
    ensures Quoted(call, '\"', Escape(s) + tail) == Prepend(s[..j], Expanded(call, OneMacro(call, Escape(s[j + 2..]) + tail, "", [])))
    decreases j
  {
    var e := Expanded(call, OneMacro(call, Escape(s[j + 2..]) + tail, "", []));
    if j == 0 {
      MacroAtStart(call, s, tail);
      if e.Some? {
        assert s[..0] + e.value.value == e.value.value;
      }
    } else {
      forall i | 0 <= i < j - 1 ensures !OpensAt(s[1..], i) {
        assert !OpensAt(s, i + 1);
      }
      assert OpensAt(s[1..], j - 1) && s[1..][j - 1 + 2..] == s[j + 2..];
      MacroNameIsExpanded(call, s[1..], j - 1, tail);
      EscapeFirst(s);
      EscapedOpens(s, tail);
      OneCharacter(call, s[0], Escape(s[1..]) + tail);
      Regroup(EscapeChar(s[0]), Escape(s[1..]), tail);
      PrependTwice([s[0]], s[1..][..j - 1], e);
      assert [s[0]] + s[1..][..j - 1] == s[..j];
    }
  }

  // When every call raises, so does every macro.
  lemma {:induction false} MacroRaises(call: Caller, s: string, cur: string, parts: seq<string>)
    requires forall args :: call(args).None?
    ensures OneMacro(call, s, cur, parts).None?
    decreases |s|
  {
    var j := NextSpecial(s, 0);
    if j < |s| && s[j] == ',' {
      MacroRaises(call, s[j + 1..], "", parts + [cur + s[..j]]);
    } else if j < |s| && s[j] != ')' {
      MacroRaises(call, s[j + 2..], "", []);
    }
  }

  // The constant s is read back as itself, whatever macros expand to.
  ghost predicate AlwaysReadBack(s: string, rest: string) {
    forall call: Caller :: Quoted(call, '\"', Escape(s) + ("\"" + rest)) == Some(Expansion(s, rest))
  }

  // That is so if and only if it has no macro in it.
  lemma {:induction false} ReadBackUnlessMacro(s: string, rest: string)
    ensures AlwaysReadBack(s, rest) <==> !HasMacro(s)
  {
    if HasMacro(s) {
      var call: Caller := _ => None;
      var j := MacroHasStart(s);
      MacroNameIsExpanded(call, s, j, "\"" + rest);
      MacroRaises(call, Escape(s[j + 2..]) + ("\"" + rest), "", []);
      assert Quoted(call, '\"', Escape(s) + ("\"" + rest)).None?;
    } else {
      forall call: Caller ensures Quoted(call, '\"', Escape(s) + ("\"" + rest)) == Some(Expansion(s, rest)) {
        QuotedNameReadBack(call, s, "\"" + rest, rest);
      }
    }
  }

  // In particular a constant called "$(X)" is read back as the value of X.
  lemma {:induction false} VariableNameIsExpanded(call: Caller, name: string, rest: string)
    requires forall i :: 0 <= i < |name| ==> !SpecialAt(name + ")" + ("\"" + rest), i)
    ensures Quoted(call, '\"', "$(" + (name + ")" + ("\"" + rest))) == Closed(call, [name], rest)
  {
    var inner := name + ")" + ("\"" + rest);
    var s := "$(" + inner;
    SimpleMacro(call, name, "\"" + rest);
    assert OpensAt(s, 0) && s[2..] == inner && ("\"" + rest)[1..] == rest;
    var value := call([name]);
    if value.Some? {
      assert Quoted(call, '\"', "\"" + rest) == Some(Expansion("", rest));
      assert value.value + "" == value.value;
    }
  }

  // Without '$' and backslashes a string ends at the first quote: the fast path of the tokenizer.
  lemma {:induction false} FastPath(call: Caller, quote: char, s: string)
    requires '$' !in s && '\\' !in s
    ensures
      var i := IndexOf(s, quote);
      Quoted(call, quote, s) == if i == |s| then None else Some(Expansion(s[..i], s[i + 1..]))
  {
    if s != "" && s[0] != quote {
      FastPath(call, quote, s[1..]);
      var i := IndexOf(s[1..], quote);
      assert IndexOf(s, quote) == i + 1 && !OpensAt(s, 0);
      if i < |s[1..]| {
        assert [s[0]] + s[1..][..i] == s[..i + 1] && s[1..][i + 1..] == s[i + 2..];
      }
    }
  }
}
