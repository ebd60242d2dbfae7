// The macro preprocessor. It rewrites the string that it is scanning; the specification expands text
// piece by piece, and puts the value of a macro in its place without looking at it again.
module Macro {
  import opened Basics

  // A built-in or user-defined function: how many arguments it takes, and its result (None: it raises).
  datatype Function = Function(least: nat, most: Option<nat>, call: seq<string> -> Option<string>)

  // Variables by name, functions, the environment, and Python's int() on a macro name.
  datatype Tables = Tables(vars: map<string, string>, functions: map<string, Function>, env: map<string, string>, parse: string -> Option<int>)

  // The _n_expansions counters.
  type Counts = map<string, nat>

  function Count(n: Counts, fn: string): nat { if fn in n then n[fn] else 0 }

  const LIMIT: nat := 100

  // ---- how often variables may still be expanded ----

  function Left(n: Counts, fn: string): nat { if Count(n, fn) <= LIMIT then LIMIT + 1 - Count(n, fn) else 0 }

  ghost function Budget(vs: set<string>, n: Counts): nat {
    if vs == {} then 0
    else
      var v :| v in vs;
      Left(n, v) + Budget(vs - {v}, n)
  }

  lemma {:induction false} BudgetOf(vs: set<string>, n: Counts, v: string)
    requires v in vs
    ensures Budget(vs, n) == Left(n, v) + Budget(vs - {v}, n)
  {
    var w :| w in vs && Budget(vs, n) == Left(n, w) + Budget(vs - {w}, n);
    if w != v {
      BudgetOf(vs - {w}, n, v);
      BudgetOf(vs - {v}, n, w);
      assert vs - {w} - {v} == vs - {v} - {w};
    }
  }

  lemma {:induction false} BudgetElsewhere(vs: set<string>, n: Counts, v: string, k: nat)
    requires v !in vs
    ensures Budget(vs, n[v := k]) == Budget(vs, n)
  {
    if vs != {} {
      var w :| w in vs;
      BudgetOf(vs, n, w);
      BudgetOf(vs, n[v := k], w);
      BudgetElsewhere(vs - {w}, n, v, k);
    }
  }

  lemma {:induction false} OneMoreExpansion(vs: set<string>, n: Counts, v: string)
    requires v in vs && Count(n, v) <= LIMIT
    ensures Budget(vs, n[v := Count(n, v) + 1]) < Budget(vs, n)
  {
    BudgetOf(vs, n, v);
    BudgetOf(vs, n[v := Count(n, v) + 1], v);
    BudgetElsewhere(vs - {v}, n, v, Count(n, v) + 1);
  }

  // ---- searching ----

  predicate OpensAt(s: string, i: nat) { i + 1 < |s| && s[i] == '$' && s[i + 1] == '(' }

  predicate SpecialAt(s: string, i: nat) { i < |s| && (s[i] == ')' || s[i] == ',' || OpensAt(s, i)) }

  // The first special text from i on, |s| if there is none.
  function NextSpecial(s: string, i: nat): (j: nat)
    requires i <= |s|
    ensures i <= j <= |s| && (j < |s| ==> SpecialAt(s, j))
    decreases |s| - i
  {
    if i == |s| || SpecialAt(s, i) then i else NextSpecial(s, i + 1)
  }

  function NextOpen(s: string, i: nat): (j: nat)
    requires i <= |s|
    ensures i <= j <= |s| && (j < |s| ==> OpensAt(s, j))
    decreases |s| - i
  {
    if i == |s| || OpensAt(s, i) then i else NextOpen(s, i + 1)
  }

  lemma {:induction false} SpecialInSuffix(s: string, i: nat, k: nat)
    requires i + k <= |s|
    ensures NextSpecial(s, i + k) == i + NextSpecial(s[i..], k)
    decreases |s| - i - k
  {
    if i + k < |s| && !SpecialAt(s, i + k) {
      assert !SpecialAt(s[i..], k);
      SpecialInSuffix(s, i, k + 1);
    }
  }

  lemma {:induction false} OpenInSuffix(s: string, i: nat, k: nat)
    requires i + k <= |s|
    ensures NextOpen(s, i + k) == i + NextOpen(s[i..], k)
    decreases |s| - i - k
  {
    if i + k < |s| && !OpensAt(s, i + k) {
      assert !OpensAt(s[i..], k);
      OpenInSuffix(s, i, k + 1);
    }
  }

  // ---- what text expands to, given the value of every macro call ----

  // The value of a macro and the text after it.
  datatype Expansion = Expansion(value: string, rest: string)

  // The value of a macro, by its name and arguments (None: it raises).
  type Caller = seq<string> -> Option<string>

  // _expand_whole()
  function Whole(call: Caller, s: string): Option<string>
    decreases |s|
  {
    var j := NextOpen(s, 0);
    if j == |s| then Some(s)
    else
      var e :- OneMacro(call, s[j + 2..], "", []);
      var more :- Whole(call, e.rest);
      Some(s[..j] + e.value + more)
  }

  // _expand_macro(), for the text s that is left: cur is the text of the current argument so far, parts
  // holds the arguments before it.
  function OneMacro(call: Caller, s: string, cur: string, parts: seq<string>): (e: Option<Expansion>)
    ensures e.Some? ==> |e.value.rest| < |s|
    decreases |s|
  {
    var j := NextSpecial(s, 0);
    if j == |s| then None
    else if s[j] == ')' then
      var value :- call(parts + [cur + s[..j]]);
      Some(Expansion(value, s[j + 1..]))
    else if s[j] == ',' then OneMacro(call, s[j + 1..], "", parts + [cur + s[..j]])
    else
      var e :- OneMacro(call, s[j + 2..], "", []);
      OneMacro(call, e.rest, cur + s[..j] + e.value, parts)
  }

  // A text put in front of an expansion.
  function Prepend(text: string, e: Option<Expansion>): Option<Expansion> {
    if e.None? then None else Some(Expansion(text + e.value.value, e.value.rest))
  }

  // _expand_str(), from behind the opening quote: a backslash cancels what follows, a macro is replaced
  // by its value, and the rest is what comes behind the closing quote.
  function Quoted(call: Caller, quote: char, s: string): (e: Option<Expansion>)
    ensures e.Some? ==> |e.value.rest| < |s|
    decreases |s|
  {
    if s == "" then None
    else if s[0] == quote then Some(Expansion("", s[1..]))
    else if s[0] == '\\' then if |s| == 1 then None else Prepend([s[1]], Quoted(call, quote, s[2..]))
    else if OpensAt(s, 0) then
      var m :- OneMacro(call, s[2..], "", []);
      Prepend(m.value, Quoted(call, quote, m.rest))
    else Prepend([s[0]], Quoted(call, quote, s[1..]))
  }

  // ---- the value of a macro call ----

  // $(k) for an argument that was passed; negative numbers count from the end.
  function Argument(t: Tables, name: string, args: seq<string>): Option<string> {
    var k :- t.parse(name);
    if 0 <= k < |args| then Some(args[k])
    else if -|args| <= k < 0 then Some(args[|args| + k])
    else None
  }

  // An argument of the enclosing function, or the value of a function or variable.
  function MacroValue(t: Tables, n: Counts, args: seq<string>, parts: seq<string>): Option<string>
    requires parts != []
    decreases Budget(t.vars.Keys, n), 1
  {
    if Argument(t, parts[0], args).Some? then Argument(t, parts[0], args) else FnVal(t, n, parts)
  }

  function Calls(t: Tables, n: Counts, args: seq<string>): Caller
    decreases Budget(t.vars.Keys, n), 2
  {
    parts => if parts == [] then None else MacroValue(t, n, args, parts)
  }

  predicate Stuck(n: Counts, args: seq<string>)
    requires args != []
  {
    if |args| == 1 then Count(n, args[0]) != 0 else Count(n, args[0]) > LIMIT
  }

  // _fn_val()
  function FnVal(t: Tables, n: Counts, args: seq<string>): Option<string>
    requires args != []
    decreases Budget(t.vars.Keys, n), 0
  {
    var fn := args[0];
    if fn in t.vars then
      if Stuck(n, args) then None
      else
        OneMoreExpansion(t.vars.Keys, n, fn);
        Whole(Calls(t, n[fn := Count(n, fn) + 1], args), t.vars[fn])
    else if fn in t.functions then
      var f := t.functions[fn];
      if |args| - 1 < f.least || (f.most.Some? && |args| - 1 > f.most.value) then None else f.call(args)
    else if fn in t.env then Some(t.env[fn])
    else Some("")
  }

  // ---- the expander, as it runs ----

  function Before(text: string, r: Option<string>): Option<string> { if r.None? then None else Some(text + r.value) }

  lemma {:induction false} BeforeNothing(r: Option<string>)
    ensures Before("", r) == r
  {
    if r.Some? {
      assert "" + r.value == r.value;
    }
  }

  // What _expand_macro() returns for the macro at s[i..]: everything up to it unchanged, its value and
  // the rest of s, with the index between the two.
  function Spliced(s: string, i: nat, e: Option<Expansion>): Option<(string, nat)>
    requires i <= |s|
  {
    if e.None? then None else Some((s[..i] + e.value.value + e.value.rest, i + |e.value.value|))
  }

  lemma {:induction false} SamePrefix(s: string, s0: string, start: nat, e: Option<Expansion>)
    requires start <= |s| && start <= |s0| && s[..start] == s0[..start]
    ensures Spliced(s, start, e) == Spliced(s0, start, e)
  {
  }

  // The value of a macro takes its place, and the index moves behind it.
  lemma {:induction false} SplicedParts(s: string, j: nat, e: Expansion)
    requires j <= |s|
    ensures
      var (s', i') := Spliced(s, j, Some(e)).value;
      s'[..i'] == s[..j] + e.value && s'[i'..] == e.rest && i' <= |s'|
  {
  }

  // The end of a macro with the given name and arguments.
  function Closed(call: Caller, parts: seq<string>, rest: string): Option<Expansion> {
    var value :- call(parts);
    Some(Expansion(value, rest))
  }

  // One round of expanding a whole string, from the front.
  function WholeRound(call: Caller, s: string, j: nat, e: Option<Expansion>): Option<string>
    requires j <= |s|
  {
    if j == |s| then Some(s) else if e.None? then None else Before(s[..j] + e.value.value, Whole(call, e.value.rest))
  }

  lemma {:induction false} WholeUnfolds(call: Caller, s: string, j: nat, e: Option<Expansion>)
    requires j == NextOpen(s, 0) && (j < |s| ==> e == OneMacro(call, s[j + 2..], "", []))
    ensures Whole(call, s) == WholeRound(call, s, j, e)
  {
    if j < |s| && e.Some? {
      var more := Whole(call, e.value.rest);
      if more.Some? {
        assert Whole(call, s) == Some(s[..j] + e.value.value + more.value);
      }
    }
  }

  // The same round with s[..i] already done.
  lemma {:induction false} RoundAfter(call: Caller, s: string, i: nat, j: nat, e: Option<Expansion>)
    requires i <= j < |s|
    ensures
      var m := Spliced(s, j, e);
      Before(s[..i], WholeRound(call, s[i..], j - i, e)) ==
        if m.None? then None else Before(m.value.0[..m.value.1], Whole(call, m.value.0[m.value.1..]))
  {
    if e.Some? {
      SplicedParts(s, j, e.value);
      var more := Whole(call, e.value.rest);
      if more.Some? {
        assert s[..i] + s[i..][..j - i] == s[..j];
        assert s[..i] + (s[i..][..j - i] + e.value.value + more.value) == s[..j] + e.value.value + more.value;
      }
    }
  }

  // Expanding the next macro of s, found at j.
  lemma {:induction false} WholeStep(call: Caller, s: string, i: nat, j: nat, e: Option<Expansion>)
    requires i <= |s| && j == NextOpen(s, i) && (j < |s| ==> e == OneMacro(call, s[j + 2..], "", []))
    ensures
      if j == |s| then Before(s[..i], Whole(call, s[i..])) == Some(s)
      else
        var m := Spliced(s, j, e);
        Before(s[..i], Whole(call, s[i..])) == if m.None? then None else Before(m.value.0[..m.value.1], Whole(call, m.value.0[m.value.1..]))
  {
    OpenInSuffix(s, i, 0);
    if j == |s| {
      WholeUnfolds(call, s[i..], j - i, e);
      assert s[..i] + s[i..] == s;
    } else {
      assert s[i..][j - i + 2..] == s[j + 2..];
      WholeUnfolds(call, s[i..], j - i, e);
      RoundAfter(call, s, i, j, e);
    }
  }

  // What is left to do inside a macro whose arguments so far are parts and s[start..i].
  function Inside(call: Caller, s: string, start: nat, i: nat, parts: seq<string>): Option<Expansion>
    requires start <= i <= |s|
  {
    OneMacro(call, s[i..], s[start..i], parts)
  }

  // The suffix that is left when the text at j has been passed.
  lemma {:induction false} SuffixParts(s: string, start: nat, i: nat, j: nat)
    requires start <= i <= j < |s|
    ensures s[start..i] + s[i..][..j - i] == s[start..j]
    ensures s[i..][j - i + 1..] == s[j + 1..] && (j + 1 < |s| ==> s[i..][j - i + 2..] == s[j + 2..])
  {
  }

  lemma {:induction false} MacroCloses(call: Caller, s: string, cur: string, parts: seq<string>, j: nat)
    requires j == NextSpecial(s, 0) && j < |s| && s[j] == ')'
    ensures OneMacro(call, s, cur, parts) == Closed(call, parts + [cur + s[..j]], s[j + 1..])
  {
  }

  lemma {:induction false} MacroGoesOn(call: Caller, s: string, cur: string, parts: seq<string>, j: nat)
    requires j == NextSpecial(s, 0) && j < |s| && s[j] == ','
    ensures OneMacro(call, s, cur, parts) == OneMacro(call, s[j + 1..], "", parts + [cur + s[..j]])
  {
  }

  lemma {:induction false} MacroNests(call: Caller, s: string, cur: string, parts: seq<string>, j: nat, e: Option<Expansion>)
    requires j == NextSpecial(s, 0) && j < |s| && s[j] == '$' && j + 1 < |s| && e == OneMacro(call, s[j + 2..], "", [])
    ensures OneMacro(call, s, cur, parts) == if e.None? then None else OneMacro(call, e.value.rest, cur + s[..j] + e.value.value, parts)
  {
  }

  lemma {:induction false} EndStep(call: Caller, s: string, start: nat, i: nat, parts: seq<string>)
    requires start <= i <= |s| && NextSpecial(s, i) == |s|
    ensures Inside(call, s, start, i, parts).None?
  {
    SpecialInSuffix(s, i, 0);
  }

  lemma {:induction false} CloseStep(call: Caller, s: string, start: nat, i: nat, j: nat, parts: seq<string>)
    requires start <= i <= |s| && j == NextSpecial(s, i) && j < |s| && s[j] == ')'
    ensures Inside(call, s, start, i, parts) == Closed(call, parts + [s[start..j]], s[j + 1..])
  {
    SpecialInSuffix(s, i, 0);
    SuffixParts(s, start, i, j);
    MacroCloses(call, s[i..], s[start..i], parts, j - i);
  }

  lemma {:induction false} CommaStep(call: Caller, s: string, start: nat, i: nat, j: nat, parts: seq<string>)
    requires start <= i <= |s| && j == NextSpecial(s, i) && j < |s| && s[j] == ','
    ensures Inside(call, s, start, i, parts) == Inside(call, s, j + 1, j + 1, parts + [s[start..j]])
  {
    SpecialInSuffix(s, i, 0);
    SuffixParts(s, start, i, j);
    var rest, cur := s[i..], s[start..i];
    assert cur + rest[..j - i] == s[start..j] && rest[j - i + 1..] == s[j + 1..];
    MacroGoesOn(call, rest, cur, parts, j - i);
    assert s[j + 1..j + 1] == "";
  }

  lemma {:induction false} NestStep(call: Caller, s: string, start: nat, i: nat, j: nat, parts: seq<string>, e: Option<Expansion>)
    requires start <= i <= |s| && j == NextSpecial(s, i) && j < |s| && s[j] == '$' && OpensAt(s, j)
    requires e == OneMacro(call, s[j + 2..], "", [])
    ensures
      var m := Spliced(s, j, e);
      if m.None? then Inside(call, s, start, i, parts).None?
      else
        && start <= m.value.1 <= |m.value.0| && m.value.0[..start] == s[..start] && |m.value.0| - m.value.1 < |s| - j - 2
        && Inside(call, s, start, i, parts) == Inside(call, m.value.0, start, m.value.1, parts)
  {
    SpecialInSuffix(s, i, 0);
    SuffixParts(s, start, i, j);
    MacroNests(call, s[i..], s[start..i], parts, j - i, e);
    NestedStep(s, start, j, e);
    if e.Some? {
      var (s', i') := Spliced(s, j, e).value;
      var cur := s[start..i] + s[i..][..j - i] + e.value.value;
      assert cur == s'[start..i'];
      assert Inside(call, s', start, i', parts) == OneMacro(call, e.value.rest, cur, parts);
    }
  }

  lemma {:induction false} NestedStep(s: string, start: nat, j: nat, e: Option<Expansion>)
    requires start <= j <= |s|
    ensures e.Some? ==>
      var (s', i') := Spliced(s, j, e).value;
      start <= i' <= |s'| && s'[start..i'] == s[start..j] + e.value.value && s'[i'..] == e.value.rest && s'[..start] == s[..start]
  {
    if e.Some? {
      var (s', i') := Spliced(s, j, e).value;
      assert s'[start..i'] == s[start..j] + e.value.value;
    }
  }

  predicate StringSpecialAt(s: string, i: nat) { i < |s| && (s[i] == '\"' || s[i] == '\'' || s[i] == '\\' || OpensAt(s, i)) }

  function NextStringSpecial(s: string, i: nat): (j: nat)
    requires i <= |s|
    ensures i <= j <= |s| && (j < |s| ==> StringSpecialAt(s, j))
    decreases |s| - i
  {
    if i == |s| || StringSpecialAt(s, i) then i else NextStringSpecial(s, i + 1)
  }

  lemma {:induction false} PrependTwice(a: string, b: string, e: Option<Expansion>)
    ensures Prepend(a, Prepend(b, e)) == Prepend(a + b, e)
  {
    if e.Some? {
      Regroup(a, b, e.value.value);
    }
  }

  // What has been read of a string, from start to i, and what is to come.
  ghost predicate ReadUpTo(call: Caller, quote: char, all: Option<Expansion>, s: string, start: nat, i: nat)
    requires start <= i <= |s|
  {
    all == Prepend(s[start..i], Quoted(call, quote, s[i..]))
  }

  // The same after another round, which has made s into s' and moved the index on.
  ghost predicate Continued(call: Caller, quote: char, all: Option<Expansion>, s: string, start: nat, i: nat, s': string, i': nat) {
    start <= i' <= |s'| && start <= |s| && s'[..start] == s[..start] && |s'| - i' < |s| - i && ReadUpTo(call, quote, all, s', start, i')
  }

  // Nothing special up to j: it stands for itself.
  lemma {:induction false} PlainText(call: Caller, quote: char, s: string, i: nat, j: nat)
    requires i <= j <= |s| && (quote == '\"' || quote == '\'') && forall k :: i <= k < j ==> !StringSpecialAt(s, k)
    ensures Quoted(call, quote, s[i..]) == Prepend(s[i..j], Quoted(call, quote, s[j..]))
    decreases j - i
  {
    var rest := Quoted(call, quote, s[j..]);
    if i == j {
      if rest.Some? {
        assert s[i..j] + rest.value.value == rest.value.value;
      }
    } else {
      PlainText(call, quote, s, i + 1, j);
      assert !StringSpecialAt(s, i) && s[i..][1..] == s[i + 1..] && !OpensAt(s[i..], 0);
      PrependTwice([s[i]], s[i + 1..j], rest);
      assert [s[i]] + s[i + 1..j] == s[i..j];
    }
  }

  lemma {:induction false} NoStringSpecial(s: string, i: nat, k: nat)
    requires i <= |s| && i <= k < NextStringSpecial(s, i)
    ensures !StringSpecialAt(s, k)
    decreases k - i
  {
    if i < k {
      NoStringSpecial(s, i + 1, k);
    }
  }

  // Up to the next special text.
  lemma {:induction false} ReadPlain(call: Caller, quote: char, all: Option<Expansion>, s: string, start: nat, i: nat, j: nat)
    requires start <= i <= j <= |s| && (quote == '\"' || quote == '\'') && ReadUpTo(call, quote, all, s, start, i)
    requires j <= NextStringSpecial(s, i)
    ensures ReadUpTo(call, quote, all, s, start, j)
  {
    forall k | i <= k < j ensures !StringSpecialAt(s, k) {
      NoStringSpecial(s, i, k);
    }
    PlainText(call, quote, s, i, j);
    PrependTwice(s[start..i], s[i..j], Quoted(call, quote, s[j..]));
    assert s[start..i] + s[i..j] == s[start..j];
  }

  // A quote of the other kind stands for itself.
  lemma {:induction false} ReadOther(call: Caller, quote: char, all: Option<Expansion>, s: string, start: nat, i: nat)
    requires start <= i < |s| && ReadUpTo(call, quote, all, s, start, i)
    requires s[i] != quote && s[i] != '\\' && !OpensAt(s, i)
    ensures ReadUpTo(call, quote, all, s, start, i + 1)
  {
    var rest := Quoted(call, quote, s[i + 1..]);
    assert s[i..][1..] == s[i + 1..] && !OpensAt(s[i..], 0);
    assert Quoted(call, quote, s[i..]) == Prepend([s[i]], rest);
    PrependTwice(s[start..i], [s[i]], rest);
    assert s[start..i] + [s[i]] == s[start..i + 1];
  }

  // The special text at j is a quote of the other kind.
  predicate StringOther(s: string, j: nat, quote: char) { j < |s| && s[j] != quote && s[j] != '\\' && s[j] != '$' }

  // Before such a quote the index moves on by one.
  lemma {:induction false} ReadOneOn(call: Caller, quote: char, all: Option<Expansion>, s: string, start: nat, i: nat, j: nat)
    requires start <= i <= j < |s| && (quote == '\"' || quote == '\'') && ReadUpTo(call, quote, all, s, start, i)
    requires j == NextStringSpecial(s, i) && StringOther(s, j, quote)
    ensures Continued(call, quote, all, s, start, i, s, i + 1)
  {
    if i == j {
      ReadOther(call, quote, all, s, start, i);
    } else {
      ReadPlain(call, quote, all, s, start, i, i + 1);
    }
  }

  lemma {:induction false} ReadToEnd(call: Caller, quote: char, all: Option<Expansion>, s: string, start: nat, i: nat)
    requires start <= i <= |s| && (quote == '\"' || quote == '\'') && ReadUpTo(call, quote, all, s, start, i)
    requires NextStringSpecial(s, i) == |s|
    ensures all.None?
  {
    ReadPlain(call, quote, all, s, start, i, |s|);
    assert s[|s|..] == "";
  }

  // A backslash is taken out, and the character behind it stands for itself.
  lemma {:induction false} ReadBackslash(call: Caller, quote: char, all: Option<Expansion>, s: string, start: nat, i: nat, j: nat)
    requires start <= i <= j < |s| - 1 && (quote == '\"' || quote == '\'') && ReadUpTo(call, quote, all, s, start, i)
    requires j == NextStringSpecial(s, i) && s[j] == '\\'
    ensures Continued(call, quote, all, s, start, i, s[..j] + s[j + 1..], j + 1)
  {
    ReadPlain(call, quote, all, s, start, i, j);
    TakeBackslash(call, quote, all, s, start, j);
  }

  lemma {:induction false} TakeBackslash(call: Caller, quote: char, all: Option<Expansion>, s: string, start: nat, i: nat)
    requires start <= i < |s| - 1 && ReadUpTo(call, quote, all, s, start, i) && s[i] == '\\' && quote != '\\'
    ensures
      var s' := s[..i] + s[i + 1..];
      ReadUpTo(call, quote, all, s', start, i + 1) && s'[..start] == s[..start]
  {
    var s' := s[..i] + s[i + 1..];
    var rest := Quoted(call, quote, s[i + 2..]);
    assert s[i..][2..] == s[i + 2..] && s'[i + 1..] == s[i + 2..];
    assert Quoted(call, quote, s[i..]) == Prepend([s[i + 1]], rest);
    PrependTwice(s[start..i], [s[i + 1]], rest);
    assert s[start..i] + [s[i + 1]] == s'[start..i + 1];
  }

  // Nothing follows the backslash.
  lemma {:induction false} ReadDangling(call: Caller, quote: char, all: Option<Expansion>, s: string, start: nat, i: nat, j: nat)
    requires start <= i <= j < |s| && (quote == '\"' || quote == '\'') && ReadUpTo(call, quote, all, s, start, i)
    requires j == NextStringSpecial(s, i) && s[j] == '\\' && j + 1 == |s|
    ensures all.None?
  {
    ReadPlain(call, quote, all, s, start, i, j);
    assert s[j..] == "\\";
  }

  // A macro is replaced by its value.
  lemma {:induction false} ReadMacro(call: Caller, quote: char, all: Option<Expansion>, s: string, start: nat, i: nat, e: Option<Expansion>)
    requires start <= i <= |s| && ReadUpTo(call, quote, all, s, start, i) && OpensAt(s, i) && quote != '$'
    requires e == OneMacro(call, s[i + 2..], "", [])
    ensures
      var m := Spliced(s, i, e);
      if m.None? then all.None?
      else start <= m.value.1 <= |m.value.0| && ReadUpTo(call, quote, all, m.value.0, start, m.value.1) && m.value.0[..start] == s[..start]
  {
    assert s[i..][2..] == s[i + 2..] && OpensAt(s[i..], 0);
    if e.Some? {
      var (s', i') := Spliced(s, i, e).value;
      SplicedParts(s, i, e.value);
      assert Quoted(call, quote, s[i..]) == Prepend(e.value.value, Quoted(call, quote, e.value.rest));
      PrependTwice(s[start..i], e.value.value, Quoted(call, quote, e.value.rest));
      assert s[start..i] + e.value.value == s'[start..i'];
    }
  }

  // The closing quote.
  lemma {:induction false} ReadQuote(call: Caller, quote: char, all: Option<Expansion>, s: string, start: nat, i: nat)
    requires start <= i < |s| && ReadUpTo(call, quote, all, s, start, i) && s[i] == quote
    ensures all == Some(Expansion(s[start..i], s[i + 1..]))
  {
    assert s[i..][1..] == s[i + 1..];
    assert s[start..i] + "" == s[start..i];
  }

  lemma {:induction false} StartReading(call: Caller, quote: char, s: string, start: nat)
    requires start <= |s|
    ensures ReadUpTo(call, quote, Quoted(call, quote, s[start..]), s, start, start)
  {
    var e := Quoted(call, quote, s[start..]);
    if e.Some? {
      assert s[start..start] + e.value.value == e.value.value;
    }
  }

  // What _expand_str() returns for the string that starts behind s[..start].
  function Unquoted(s: string, start: nat, quote: char, e: Option<Expansion>): Option<(string, nat)>
    requires start <= |s|
  {
    if e.None? then None else Some((s[..start] + e.value.value + [quote] + e.value.rest, start + |e.value.value| + 1))
  }

  // The closing quote ends it.
  lemma {:induction false} ReadWhole(call: Caller, quote: char, all: Option<Expansion>, s: string, start: nat, i: nat, j: nat)
    requires start <= i <= j < |s| && s[j] == quote && (quote == '\"' || quote == '\'')
    requires j == NextStringSpecial(s, i) && ReadUpTo(call, quote, all, s, start, i)
    ensures Unquoted(s, start, quote, all) == Some((s, j + 1))
  {
    ReadPlain(call, quote, all, s, start, i, j);
    ReadQuote(call, quote, all, s, start, j);
    assert s == s[..start] + s[start..j] + [s[j]] + s[j + 1..];
  }

  lemma {:induction false} SameStart(s: string, s0: string, quote: char, start: nat, all: Option<Expansion>)
    requires start <= |s| && start <= |s0| && s[..start] == s0[..start]
    ensures Unquoted(s, start, quote, all) == Unquoted(s0, start, quote, all)
  {
  }

  // What a round of _expand_str() comes to: an error, the end of the string, or a new string and index.
  datatype StringStep = Broken | Closes(i: nat) | Continues(s: string, i: nat)

  class Expander {
    const t: Tables
    var n: Counts

    // Every variable has a counter.
    ghost predicate Valid()
      reads this
    {
      n.Keys == t.vars.Keys
    }

    constructor (t: Tables)
      ensures Valid() && this.t == t && forall v :: v in n ==> n[v] == 0
    {
      this.t := t;
      n := map v | v in t.vars :: 0;
    }

    // _expand_whole(); None when it raises
    method ExpandWhole(s0: string, args: seq<string>) returns (r: Option<string>)
      requires Valid()
      modifies this
      ensures r == Whole(Calls(t, old(n), args), s0)
      ensures r.Some? ==> n == old(n)
      decreases Budget(t.vars.Keys, n), |s0|, 4
    {
      ghost var call := Calls(t, n, args);
      var s: string, i: nat := s0, 0;
      assert s[0..] == s0;
      BeforeNothing(Whole(call, s0));
      while true
        invariant i <= |s| && |s| - i <= |s0| && n == old(n)
        invariant Whole(call, s0) == Before(s[..i], Whole(call, s[i..]))
        decreases |s| - i
      {
        var j := NextOpen(s, i);
        WholeStep(call, s, i, j, if j < |s| then OneMacro(call, s[j + 2..], "", []) else None);
        if j == |s| {
          return Some(s);
        }
        var m := ExpandMacro(s, j, args);
        if m.None? {
          return None;
        }
        s, i := m.value.0, m.value.1;
      }
    }

    // The loop of _expand_macro(), up to the end of the macro at start: the string by then, the index of
    // the closing parenthesis, and the name and arguments of the macro
    method ScanArguments(s0: string, start: nat, args: seq<string>) returns (r: Option<(string, nat, seq<string>)>)
      requires Valid() && OpensAt(s0, start)
      modifies this
      ensures r.None? ==> OneMacro(Calls(t, old(n), args), s0[start + 2..], "", []).None?
      ensures r.Some? ==>
                var (s, j, parts) := r.value;
                && n == old(n) && start <= j < |s| && s[..start] == s0[..start] && parts != []
                && OneMacro(Calls(t, n, args), s0[start + 2..], "", []) == Closed(Calls(t, n, args), parts, s[j + 1..])
      decreases Budget(t.vars.Keys, n), |s0| - start, 1
    {
      ghost var call := Calls(t, n, args);
      ghost var all := OneMacro(call, s0[start + 2..], "", []);
      var s, i := s0, start + 2;
      var argStart, newArgs: seq<string> := i, [];
      assert s[argStart..i] == "";
      while true
        invariant start + 2 <= argStart <= i <= |s| && |s| - i <= |s0| - start - 2 && n == old(n) && s[..start] == s0[..start]
        invariant all == Inside(call, s, argStart, i, newArgs)
        decreases |s| - i
      {
        var j := NextSpecial(s, i);
        if j == |s| {
          EndStep(call, s, argStart, i, newArgs);
          return None;
        }
        if s[j] == ')' {
          CloseStep(call, s, argStart, i, j, newArgs);
          return Some((s, j, newArgs + [s[argStart..j]]));
        } else if s[j] == ',' {
          CommaStep(call, s, argStart, i, j, newArgs);
          newArgs := newArgs + [s[argStart..j]];
          i := j + 1;
          argStart := i;
        } else {
          var m := ScanNested(s, start, argStart, i, j, args, newArgs);
          if m.None? {
            return None;
          }
          s, i := m.value.0, m.value.1;
        }
      }
    }

    // The branch for a nested macro at j
    method ScanNested(s: string, ghost start: nat, ghost argStart: nat, ghost i: nat, j: nat, args: seq<string>, ghost parts: seq<string>) returns (m: Option<(string, nat)>)
      requires Valid() && start <= argStart <= i <= |s| && j == NextSpecial(s, i) && j < |s| && s[j] == '$' && OpensAt(s, j)
      modifies this
      ensures m.None? ==> Inside(Calls(t, old(n), args), s, argStart, i, parts).None?
      ensures m.Some? ==>
                var (s', i') := m.value;
                && n == old(n) && argStart <= i' <= |s'| && s'[..start] == s[..start] && |s'| - i' < |s| - j - 2
                && Inside(Calls(t, n, args), s, argStart, i, parts) == Inside(Calls(t, n, args), s', argStart, i', parts)
      decreases Budget(t.vars.Keys, n), |s| - j, 3
    {
      ghost var call := Calls(t, n, args);
      NestStep(call, s, argStart, i, j, parts, OneMacro(call, s[j + 2..], "", []));
      m := ExpandMacro(s, j, args);
      if m.Some? {
        assert m.value.0[..start] == m.value.0[..argStart][..start] == s[..argStart][..start] == s[..start];
      }
    }

    // _expand_macro(): the string with the macro at start replaced, and the index after its value
    method ExpandMacro(s0: string, start: nat, args: seq<string>) returns (r: Option<(string, nat)>)
      requires Valid() && OpensAt(s0, start)
      modifies this
      ensures r == Spliced(s0, start, OneMacro(Calls(t, old(n), args), s0[start + 2..], "", []))
      ensures r.Some? ==> n == old(n)
      decreases Budget(t.vars.Keys, n), |s0| - start, 2
    {
      var m := ScanArguments(s0, start, args);
      if m.None? {
        return None;
      }
      var s, j := m.value.0, m.value.1;
      SamePrefix(s, s0, start, Closed(Calls(t, n, args), m.value.2, s[j + 1..]));
      r := CloseMacro(s, start, j, args, m.value.2);
    }

    // The branch for the end of a macro
    method CloseMacro(s: string, start: nat, j: nat, args: seq<string>, parts: seq<string>) returns (r: Option<(string, nat)>)
      requires Valid() && start <= j < |s| && parts != []
      modifies this
      ensures r == Spliced(s, start, Closed(Calls(t, old(n), args), parts, s[j + 1..]))
      ensures r.Some? ==> n == old(n)
      decreases Budget(t.vars.Keys, n), 0, 3
    {
      var value := ValueOf(args, parts);
      if value.None? {
        return None;
      }
      var prefix := s[..start] + value.value;
      r := Some((prefix + s[j + 1..], |prefix|));
    }

    // _expand_str(): the string at s0[i0], expanded in place, and the index behind it
    method ExpandStr(s0: string, i0: nat) returns (r: Option<(string, nat)>)
      requires Valid() && i0 < |s0| && (s0[i0] == '\"' || s0[i0] == '\'')
      modifies this
      ensures r == Unquoted(s0, i0 + 1, s0[i0], Quoted(Calls(t, old(n), []), s0[i0], s0[i0 + 1..]))
      ensures r.Some? ==> n == old(n)
    {
      ghost var call := Calls(t, n, []);
      StartReading(call, s0[i0], s0, i0 + 1);
      r := ReadString(s0, s0[i0], i0 + 1, call, Quoted(call, s0[i0], s0[i0 + 1..]));
    }

    // The loop of _expand_str(), from behind the opening quote; all is what is to be read.
    method ReadString(s0: string, quote: char, start: nat, ghost call: Caller, ghost all: Option<Expansion>) returns (r: Option<(string, nat)>)
      requires Valid() && start <= |s0| && (quote == '\"' || quote == '\'')
      requires call == Calls(t, n, []) && ReadUpTo(call, quote, all, s0, start, start)
      modifies this
      ensures r == Unquoted(s0, start, quote, all)
      ensures r.Some? ==> n == old(n)
    {
      var s, i := s0, start;
      while true
        invariant start <= i <= |s| && s[..start] == s0[..start] && n == old(n)
        invariant ReadUpTo(call, quote, all, s, start, i)
        decreases |s| - i
      {
        var step := ReadPart(s, quote, start, i, call, all);
        match step
        case Broken => return None;
        case Closes(j) =>
          SameStart(s, s0, quote, start, all);
          return Some((s, j));
        case Continues(s', i') => s, i := s', i';
      }
    }

    // One round of the loop
    method ReadPart(s: string, quote: char, ghost start: nat, i: nat, ghost call: Caller, ghost all: Option<Expansion>) returns (step: StringStep)
      requires Valid() && start <= i <= |s| && (quote == '\"' || quote == '\'')
      requires call == Calls(t, n, []) && ReadUpTo(call, quote, all, s, start, i)
      modifies this
      ensures step.Broken? ==> all.None?
      ensures step.Closes? ==> n == old(n) && Unquoted(s, start, quote, all) == Some((s, step.i))
      ensures step.Continues? ==> n == old(n) && Continued(call, quote, all, s, start, i, step.s, step.i)
    {
      var j := NextStringSpecial(s, i);
      if j == |s| {
        ReadToEnd(call, quote, all, s, start, i);
        return Broken;
      }
      if s[j] == quote {
        ReadWhole(call, quote, all, s, start, i, j);
        return Closes(j + 1);
      } else if s[j] == '\\' {
        if j + 1 == |s| {
          ReadDangling(call, quote, all, s, start, i, j);
          return Broken;
        }
        ReadBackslash(call, quote, all, s, start, i, j);
        return Continues(s[..j] + s[j + 1..], j + 1);
      } else if s[j] == '$' {
        step := StrMacro(s, i, j, quote, start, all, call);
      } else {
        ReadOneOn(call, quote, all, s, start, i, j);
        return Continues(s, i + 1);
      }
    }

    // The branch for a macro in a string
    method StrMacro(s: string, ghost i: nat, j: nat, quote: char, ghost start: nat, ghost all: Option<Expansion>, ghost call: Caller) returns (step: StringStep)
      requires Valid() && start <= i <= j < |s| && s[j] == '$' && (quote == '\"' || quote == '\'')
      requires j == NextStringSpecial(s, i) && call == Calls(t, n, []) && ReadUpTo(call, quote, all, s, start, i)
      modifies this
      ensures (step.Broken? && all.None?) || (step.Continues? && n == old(n) && Continued(call, quote, all, s, start, i, step.s, step.i))
    {
      ghost var e := OneMacro(call, s[j + 2..], "", []);
      ReadPlain(call, quote, all, s, start, i, j);
      ReadMacro(call, quote, all, s, start, j, e);
      var m := ExpandMacro(s, j, []);
      if m.None? {
        return Broken;
      }
      SplicedParts(s, j, e.value);
      step := Continues(m.value.0, m.value.1);
    }

    method ValueOf(args: seq<string>, parts: seq<string>) returns (value: Option<string>)
      requires Valid() && parts != []
      modifies this
      ensures value == MacroValue(t, old(n), args, parts)
      ensures value.Some? ==> n == old(n)
      decreases Budget(t.vars.Keys, n), 0, 2
    {
      value := Argument(t, parts[0], args);
      if value.None? {
        value := FunctionValue(parts);
      }
    }

    // The expansion of a variable, counted while it goes on
    method ExpandVariable(fn: string, args: seq<string>) returns (value: Option<string>)
      requires Valid() && args != [] && fn in t.vars && Count(n, fn) <= LIMIT
      modifies this
      ensures value == Whole(Calls(t, old(n)[fn := Count(old(n), fn) + 1], args), t.vars[fn])
      ensures value.Some? ==> n == old(n)
      decreases Budget(t.vars.Keys, n), 0, 0
    {
      OneMoreExpansion(t.vars.Keys, n, fn);
      n := n[fn := n[fn] + 1];
      value := ExpandWhole(t.vars[fn], args);
      if value.Some? {
        n := n[fn := n[fn] - 1];
      }
    }

    // _fn_val()
    method FunctionValue(args: seq<string>) returns (value: Option<string>)
      requires Valid() && args != []
      modifies this
      ensures value == FnVal(t, old(n), args)
      ensures value.Some? ==> n == old(n)
      decreases Budget(t.vars.Keys, n), 0, 1
    {
      var fn := args[0];
      if fn in t.vars {
        if |args| == 1 {
          if n[fn] != 0 {
            return None;
          }
        } else if n[fn] > LIMIT {
          return None;
        }
        value := ExpandVariable(fn, args);
      } else if fn in t.functions {
        var f := t.functions[fn];
        if |args| - 1 < f.least || (f.most.Some? && |args| - 1 > f.most.value) {
          return None;
        }
        value := f.call(args);
      } else if fn in t.env {
        value := Some(t.env[fn]);
      } else {
        value := Some("");
      }
    }
  }
}
