// What the macro preprocessor does not do: look at the value of a macro again, or look behind a macro
// for its value; and what happens to a variable that refers to itself.
module MacroLaws {
  import opened Basics
  import opened Macro

  lemma {:induction false} SpecialAfter(s: string, k: nat, i: nat)
    requires i <= k < |s| && SpecialAt(s, k) && forall j :: i <= j < k ==> !SpecialAt(s, j)
    ensures NextSpecial(s, i) == k
    decreases k - i
  {
    if i < k {
      SpecialAfter(s, k, i + 1);
    }
  }

  lemma {:induction false} SimpleMacro(call: Caller, name: string, rest: string)
    requires forall i :: 0 <= i < |name| ==> !SpecialAt(name + ")" + rest, i)
    ensures OneMacro(call, name + ")" + rest, "", []) == Closed(call, [name], rest)
  {
    var inner := name + ")" + rest;
    SpecialAfter(inner, |name|, 0);
    assert "" + inner[..|name|] == name && [] + [name] == [name] && inner[|name| + 1..] == rest;
    MacroCloses(call, inner, "", [], |name|);
  }

  lemma {:induction false} LeadingMacro(call: Caller, inner: string, e: Option<Expansion>)
    requires e == OneMacro(call, inner, "", [])
    ensures Whole(call, "$(" + inner) == if e.None? then None else Before(e.value.value, Whole(call, e.value.rest))
  {
    var s := "$(" + inner;
    assert OpensAt(s, 0) && NextOpen(s, 0) == 0 && s[2..] == inner;
    WholeUnfolds(call, s, 0, e);
    if e.Some? {
      assert s[..0] + e.value.value == e.value.value;
    }
  }

  // A macro without nested macros is replaced by its value, and expansion goes on behind it.
  lemma {:induction false} SimpleMacroExpands(call: Caller, name: string, rest: string)
    requires forall i :: 0 <= i < |name| ==> !SpecialAt(name + ")" + rest, i)
    ensures
      var value := call([name]);
      Whole(call, "$(" + (name + ")" + rest)) == if value.None? then None else Before(value.value, Whole(call, rest))
  {
    SimpleMacro(call, name, rest);
    LeadingMacro(call, name + ")" + rest, OneMacro(call, name + ")" + rest, "", []));
  }

  lemma {:induction false} NoneBefore(s: string, i: nat, k: nat)
    requires i <= |s| && i <= k < NextSpecial(s, i)
    ensures !SpecialAt(s, k)
    decreases k - i
  {
    if i < k {
      NoneBefore(s, i + 1, k);
    }
  }

  // The first special text of a stays the first one whatever follows a.
  lemma {:induction false} FirstSpecialStays(a: string, j: nat, t: string)
    requires j == NextSpecial(a, 0) && j < |a|
    ensures NextSpecial(a + t, 0) == j && (a + t)[j] == a[j] && (OpensAt(a, j) ==> OpensAt(a + t, j))
  {
    var s := a + t;
    assert forall k :: 0 <= k < |a| ==> s[k] == a[k];
    forall k | 0 <= k < j ensures !SpecialAt(s, k) {
      NoneBefore(a, 0, k);
    }
    SpecialAfter(s, j, 0);
  }

  lemma {:induction false} FirstOpenStays(a: string, t: string, i: nat)
    requires i <= |a| && NextOpen(a, i) < |a|
    ensures NextOpen(a + t, i) == NextOpen(a, i)
    decreases |a| - i
  {
    var s := a + t;
    assert forall k :: 0 <= k < |a| ==> s[k] == a[k];
    if !OpensAt(a, i) {
      FirstOpenStays(a, t, i + 1);
    }
  }

  // m is all of a macro from behind '$(' or behind an argument, and has the value v whatever follows it.
  ghost predicate StandsAlone(call: Caller, m: string, cur: string, parts: seq<string>, v: string) {
    forall t :: OneMacro(call, m + t, cur, parts) == Some(Expansion(v, t))
  }

  lemma {:induction false} LastArgument(call: Caller, text: string, cur: string, parts: seq<string>, v: string)
    requires NextSpecial(text + ")", 0) == |text| && call(parts + [cur + text]) == Some(v)
    ensures StandsAlone(call, text + ")", cur, parts, v)
  {
    forall t ensures OneMacro(call, text + ")" + t, cur, parts) == Some(Expansion(v, t)) {
      var s := text + ")" + t;
      FirstSpecialStays(text + ")", |text|, t);
      assert s[..|text|] == text && s[|text| + 1..] == t;
      MacroCloses(call, s, cur, parts, |text|);
    }
  }

  lemma {:induction false} NextArgument(call: Caller, text: string, m: string, cur: string, parts: seq<string>, v: string)
    requires NextSpecial(text + ",", 0) == |text| && StandsAlone(call, m, "", parts + [cur + text], v)
    ensures StandsAlone(call, text + "," + m, cur, parts, v)
  {
    forall t ensures OneMacro(call, text + "," + m + t, cur, parts) == Some(Expansion(v, t)) {
      var s := text + "," + (m + t);
      Regroup(text + ",", m, t);
      FirstSpecialStays(text + ",", |text|, m + t);
      assert s[..|text|] == text && s[|text| + 1..] == m + t;
      MacroGoesOn(call, s, cur, parts, |text|);
    }
  }

  lemma {:induction false} InnerMacro(call: Caller, text: string, m1: string, v1: string, m2: string, cur: string, parts: seq<string>, v: string)
    requires NextSpecial(text + "$(", 0) == |text|
    requires StandsAlone(call, m1, "", [], v1) && StandsAlone(call, m2, cur + text + v1, parts, v)
    ensures StandsAlone(call, text + "$(" + (m1 + m2), cur, parts, v)
  {
    forall t ensures OneMacro(call, text + "$(" + (m1 + m2) + t, cur, parts) == Some(Expansion(v, t)) {
      var s := text + "$(" + (m1 + (m2 + t));
      Regroup(m1, m2, t);
      Regroup(text + "$(", m1 + m2, t);
      FirstSpecialStays(text + "$(", |text|, m1 + (m2 + t));
      assert s[..|text|] == text && s[|text| + 2..] == m1 + (m2 + t);
      MacroNests(call, s, cur, parts, |text|, Some(Expansion(v1, m2 + t)));
    }
  }

  // The first special text of s is also that of s[..n].
  lemma {:induction false} FirstSpecialOf(s: string, j: nat, n: nat)
    requires j == NextSpecial(s, 0) && j < n <= |s| && (OpensAt(s, j) ==> j + 1 < n)
    ensures NextSpecial(s[..n], 0) == j
  {
    forall k | 0 <= k < j ensures !SpecialAt(s[..n], k) {
      NoneBefore(s, 0, k);
    }
    SpecialAfter(s[..n], j, 0);
  }

  // m is the beginning of s, and stands alone.
  ghost predicate Begins(call: Caller, s: string, m: string, cur: string, parts: seq<string>, e: Expansion) {
    s == m + e.rest && StandsAlone(call, m, cur, parts, e.value)
  }

  lemma {:induction false} BeginsAtClose(call: Caller, s: string, cur: string, parts: seq<string>, e: Expansion, j: nat)
    requires j == NextSpecial(s, 0) && j < |s| && s[j] == ')' && OneMacro(call, s, cur, parts) == Some(e)
    ensures Begins(call, s, s[..j] + ")", cur, parts, e)
  {
    FirstSpecialOf(s, j, j + 1);
    assert s[..j + 1] == s[..j] + ")" && s == s[..j] + ")" + s[j + 1..];
    MacroCloses(call, s, cur, parts, j);
    LastArgument(call, s[..j], cur, parts, e.value);
  }

  lemma {:induction false} BeginsAtComma(call: Caller, s: string, m: string, cur: string, parts: seq<string>, e: Expansion, j: nat)
    requires j == NextSpecial(s, 0) && j < |s| && s[j] == ',' && Begins(call, s[j + 1..], m, "", parts + [cur + s[..j]], e)
    ensures Begins(call, s, s[..j] + "," + m, cur, parts, e)
  {
    FirstSpecialOf(s, j, j + 1);
    assert s[..j + 1] == s[..j] + "," && s == s[..j] + "," + s[j + 1..];
    NextArgument(call, s[..j], m, cur, parts, e.value);
    Regroup(s[..j] + ",", m, e.rest);
  }

  lemma {:induction false} BeginsAtOpen(call: Caller, s: string, m1: string, inner: Expansion, m2: string, cur: string, parts: seq<string>, e: Expansion, j: nat)
    requires j == NextSpecial(s, 0) && j < |s| && OpensAt(s, j) && Begins(call, s[j + 2..], m1, "", [], inner)
    requires Begins(call, inner.rest, m2, cur + s[..j] + inner.value, parts, e)
    ensures Begins(call, s, s[..j] + "$(" + (m1 + m2), cur, parts, e)
  {
    FirstSpecialOf(s, j, j + 2);
    assert s[..j + 2] == s[..j] + "$(" && s == s[..j] + "$(" + s[j + 2..];
    InnerMacro(call, s[..j], m1, inner.value, m2, cur, parts, e.value);
    Regroup(m1, m2, e.rest);
    Regroup(s[..j] + "$(", m1 + m2, e.rest);
  }

  // Where a macro ends and what its value is does not depend on what follows.
  lemma {:induction false} MacroStandsAlone(call: Caller, s: string, cur: string, parts: seq<string>, e: Expansion) returns (m: string)
    requires OneMacro(call, s, cur, parts) == Some(e)
    ensures Begins(call, s, m, cur, parts, e)
    decreases |s|
  {
    var j := NextSpecial(s, 0);
    if s[j] == ')' {
      BeginsAtClose(call, s, cur, parts, e, j);
      m := s[..j] + ")";
    } else if s[j] == ',' {
      MacroGoesOn(call, s, cur, parts, j);
      var m' := MacroStandsAlone(call, s[j + 1..], "", parts + [cur + s[..j]], e);
      BeginsAtComma(call, s, m', cur, parts, e, j);
      m := s[..j] + "," + m';
    } else {
      var inner := OneMacro(call, s[j + 2..], "", []);
      MacroNests(call, s, cur, parts, j, inner);
      var m1 := MacroStandsAlone(call, s[j + 2..], "", [], inner.value);
      var m2 := MacroStandsAlone(call, inner.value.rest, cur + s[..j] + inner.value.value, parts, e);
      BeginsAtOpen(call, s, m1, inner.value, m2, cur, parts, e, j);
      m := s[..j] + "$(" + (m1 + m2);
    }
  }

  // The first macro of any text, with whatever is nested in it, ends somewhere in the text and is
  // replaced by its value, and expansion goes on behind it, with any text t there: the value is not
  // looked at again.
  lemma {:induction false} ValueIsKept(call: Caller, s: string, j: nat, e: Expansion) returns (m: string)
    requires j == NextOpen(s, 0) && j < |s| && OneMacro(call, s[j + 2..], "", []) == Some(e)
    ensures s == s[..j] + "$(" + m + e.rest
    ensures forall t :: Whole(call, s[..j] + "$(" + m + t) == Before(s[..j] + e.value, Whole(call, t))
  {
    var a := s[..j] + "$(";
    m := MacroStandsAlone(call, s[j + 2..], "", [], e);
    assert s == a + s[j + 2..];
    Regroup(a, m, e.rest);
    FirstOpenOf(s, j, 0);
    forall t ensures Whole(call, a + m + t) == Before(s[..j] + e.value, Whole(call, t)) {
      ValueIsKeptBefore(call, s[..j], m, e.value, t);
    }
  }

  lemma {:induction false} ValueIsKeptBefore(call: Caller, a: string, m: string, v: string, t: string)
    requires NextOpen(a + "$(", 0) == |a| && StandsAlone(call, m, "", [], v)
    ensures Whole(call, a + "$(" + m + t) == Before(a + v, Whole(call, t))
  {
    Regroup(a + "$(", m, t);
    FirstOpenStays(a + "$(", m + t, 0);
    var s := a + "$(" + (m + t);
    assert s[..|a|] == a && s[|a| + 2..] == m + t;
    WholeUnfolds(call, s, |a|, Some(Expansion(v, t)));
  }

  lemma {:induction false} FirstOpenOf(s: string, j: nat, i: nat)
    requires i <= |s| && j == NextOpen(s, i) && j < |s|
    ensures i <= j && NextOpen(s[..j] + "$(", i) == j
    decreases |s| - i
  {
    var a := s[..j] + "$(";
    assert forall k :: 0 <= k < |a| ==> a[k] == s[k];
    if !OpensAt(s, i) {
      FirstOpenOf(s, j, i + 1);
    }
  }

  lemma {:induction false} StuckHasNoValue(t: Tables, n: Counts, v: string, args: seq<string>)
    requires v in t.vars && Count(n, v) > 0 && Argument(t, v, args).None?
    ensures Calls(t, n, args)([v]).None?
  {
    assert Stuck(n, [v]);
    assert FnVal(t, n, [v]).None?;
    assert MacroValue(t, n, args, [v]).None?;
  }

  lemma {:induction false} NoValueRaises(call: Caller, name: string, rest: string)
    requires call([name]).None? && forall i :: 0 <= i < |name| ==> !SpecialAt(name + ")" + rest, i)
    ensures Whole(call, "$(" + (name + ")" + rest)).None?
  {
    SimpleMacroExpands(call, name, rest);
  }

  // A plain variable that is being expanded cannot be expanded again inside, whatever is around it.
  lemma {:induction false} NoSelfReference(t: Tables, n: Counts, v: string, args: seq<string>, rest: string)
    requires v in t.vars && Count(n, v) > 0 && Argument(t, v, args).None?
    requires forall i :: 0 <= i < |v| ==> !SpecialAt(v + ")" + rest, i)
    ensures Whole(Calls(t, n, args), "$(" + (v + ")" + rest)).None?
  {
    StuckHasNoValue(t, n, v, args);
    NoValueRaises(Calls(t, n, args), v, rest);
  }

  // So a variable defined as a reference to itself always raises.
  lemma {:induction false} SelfReferenceRaises(t: Tables, n: Counts, v: string)
    requires v in t.vars && t.vars[v] == "$(" + v + ")" && t.parse(v).None?
    requires forall i :: 0 <= i < |v| ==> !SpecialAt(v + ")", i)
    ensures FnVal(t, n, [v]).None?
  {
    if Count(n, v) == 0 {
      assert v + ")" + "" == v + ")" && t.vars[v] == "$(" + (v + ")" + "");
      NoSelfReference(t, n[v := 1], v, [v], "");
    }
  }

  // ---- arguments and names ----

  // Text with nothing special in it.
  predicate Plain(s: string) { '$' !in s && ',' !in s && ')' !in s }

  function Joined(parts: seq<string>): string
    requires parts != []
  {
    if |parts| == 1 then parts[0] else parts[0] + ("," + Joined(parts[1..]))
  }

  lemma {:induction false} SpecialBehind(a: string, more: string)
    requires Plain(a) && more != "" && (more[0] == ',' || more[0] == ')')
    ensures NextSpecial(a + more, 0) == |a| && (a + more)[|a|] == more[0] && (a + more)[..|a|] == a && (a + more)[|a| + 1..] == more[1..]
  {
    var s := a + more;
    forall i | 0 <= i < |a| ensures !SpecialAt(s, i) {
      assert s[i] == a[i] && a[i] in a;
    }
    SpecialAfter(s, |a|, 0);
  }

  // A macro is called with its name and arguments, split at the commas.
  lemma {:induction false} ArgumentsAreSplit(call: Caller, before: seq<string>, parts: seq<string>, rest: string)
    requires parts != [] && forall p :: p in parts ==> Plain(p)
    ensures OneMacro(call, Joined(parts) + (")" + rest), "", before) == Closed(call, before + parts, rest)
    decreases |parts|
  {
    var a := parts[0];
    assert "" + a == a;
    if |parts| == 1 {
      var s := a + (")" + rest);
      SpecialBehind(a, ")" + rest);
      MacroCloses(call, s, "", before, |a|);
      assert [a] == parts;
    } else {
      var more := "," + (Joined(parts[1..]) + (")" + rest));
      SpecialBehind(a, more);
      MacroGoesOn(call, a + more, "", before, |a|);
      ArgumentsAreSplit(call, before + [a], parts[1..], rest);
      assert before + [a] + parts[1..] == before + parts;
      Regroup(",", Joined(parts[1..]), ")" + rest);
      Regroup(a, "," + Joined(parts[1..]), ")" + rest);
    }
  }

  // A number in the value of a variable stands for the argument of that number, counted from the end if
  // it is negative; 0 is the name of the variable.
  lemma {:induction false} ParameterIsArgument(t: Tables, n: Counts, args: seq<string>, name: string, k: int)
    requires args != [] && args[0] in t.vars && !Stuck(n, args) && Plain(name)
    requires t.vars[args[0]] == "$(" + name + ")" && t.parse(name) == Some(k) && -|args| <= k < |args|
    ensures FnVal(t, n, args) == Some(args[if k < 0 then |args| + k else k])
  {
    var fn := args[0];
    var n' := n[fn := Count(n, fn) + 1];
    var call := Calls(t, n', args);
    var value := Argument(t, name, args);
    assert name + ")" + "" == name + ")" && t.vars[fn] == "$(" + (name + ")" + "");
    forall i | 0 <= i < |name| ensures !SpecialAt(name + ")" + "", i) {
      assert (name + ")" + "")[i] == name[i] && name[i] in name;
    }
    assert MacroValue(t, n', args, [name]) == value;
    assert call([name]) == value;
    SimpleMacroExpands(call, name, "");
    assert NextOpen("", 0) == 0 && Whole(call, "") == Some("");
    assert value.value + "" == value.value;
  }

  // Without a macro in it, the value of a variable is its text, and it hides a function and an environment
  // variable of its name. It raises if it is being expanded already, or, when it has arguments, too deep.
  // A function raises for a number of arguments that it does not take.
  lemma {:induction false} NamesInOrder(t: Tables, n: Counts, args: seq<string>)
    requires args != []
    ensures
      var fn := args[0];
      && (fn in t.vars && '$' !in t.vars[fn] && |args| == 1 ==> FnVal(t, n, args) == if Count(n, fn) == 0 then Some(t.vars[fn]) else None)
      && (fn in t.vars && '$' !in t.vars[fn] && |args| > 1 ==> FnVal(t, n, args) == if Count(n, fn) <= LIMIT then Some(t.vars[fn]) else None)
      && (fn !in t.vars && fn in t.functions ==>
            var f := t.functions[fn];
            FnVal(t, n, args) == if f.least <= |args| - 1 && (f.most.Some? ==> |args| - 1 <= f.most.value) then f.call(args) else None)
      && (fn !in t.vars && fn !in t.functions ==> FnVal(t, n, args) == Some(if fn in t.env then t.env[fn] else ""))
  {
    var fn := args[0];
    if fn in t.vars && '$' !in t.vars[fn] {
      NothingOpens(t.vars[fn], 0);
      WholeUnfolds(Calls(t, n[fn := Count(n, fn) + 1], args), t.vars[fn], |t.vars[fn]|, None);
    }
  }

  lemma {:induction false} NothingOpens(s: string, i: nat)
    requires '$' !in s && i <= |s|
    ensures NextOpen(s, i) == |s|
    decreases |s| - i
  {
    if i < |s| {
      assert s[i] in s;
      NothingOpens(s, i + 1);
    }
  }
}
