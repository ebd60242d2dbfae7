// auto.conf, written in one run and read in the next, possibly after the configuration has changed,
// and which symbols sync_deps() flags as changed.
module SyncDeps {
  import opened Basics
  import opened Model
  import opened Semantics
  import opened Evaluation
  import opened ChoiceLaws
  import opened ConfigText
  import opened ConfigFile

  // The entry of a symbol in auto.conf: as in .config, but n is left out.
  function AutoEntry(k: View, prefix: string, s: nat): string {
    if k.cfg.Boolish(s) && k.env.S(s).tri == Some(0) then "" else ConfigString(k, prefix, s)
  }

  // _old_vals_contents(), for the first n symbols
  function AutoConf(k: View, prefix: string, n: nat): string {
    if n == 0 then "" else AutoConf(k, prefix, n - 1) + AutoEntry(k, prefix, n - 1)
  }

  // The whole file
  function AutoFile(k: View, prefix: string): string { AutoConf(k, prefix, |k.cfg.syms|) }

  // ---- reading it ----

  // The old value of s, given the text behind '='. Unlike in load_config() it is only unquoted.
  function ReadAs(cfg: Config, s: nat, text: string): Option<string> {
    if cfg.S(s).typ == String then
      var body :- ConfString(text);
      Some(Unescape(body))
    else Some(text)
  }

  // The symbol and value that a line of auto.conf records.
  function OldValue(cfg: Config, prefix: string, line: string): Option<(nat, string)> {
    match ReadLine(prefix, line)
    case Set(name, text) =>
      var s :- Find(cfg, name, 0);
      var val :- ReadAs(cfg, s, text);
      Some((s, val))
    case _ => None
  }

  function OldVals(cfg: Config, prefix: string, past: map<nat, string>, lines: seq<string>): map<nat, string>
    decreases |lines|
  {
    if lines == [] then past else OldVals(cfg, prefix, Remember(cfg, prefix, past, lines[0]), lines[1..])
  }

  // What one line adds.
  function Remember(cfg: Config, prefix: string, past: map<nat, string>, line: string): map<nat, string> {
    match OldValue(cfg, prefix, line)
    case Some((s, text)) => past[s := text]
    case None => past
  }

  // The name that a line records, if no symbol has it: it is neither defined nor among the others,
  // those that expressions refer to.
  function GoneLine(cfg: Config, others: set<string>, prefix: string, line: string): set<string> {
    match ReadLine(prefix, line)
    case Set(name, _) => if Find(cfg, name, 0).None? && name !in others then {name} else {}
    case _ => {}
  }

  function Gone(cfg: Config, others: set<string>, prefix: string, lines: seq<string>): set<string> {
    if lines == [] then {} else GoneLine(cfg, others, prefix, lines[0]) + Gone(cfg, others, prefix, lines[1..])
  }

  function At(past: map<nat, string>, s: nat): Option<string> { if s in past then Some(past[s]) else None }

  // The branches of sync_deps() for one symbol: is its file touched?
  predicate Flagged(cfg: Config, s: nat, write: bool, val: string, past: map<nat, string>) {
    if write then
      if s !in past && cfg.Boolish(s) && val == "n" then false
      else !(s in past && past[s] == val)
    else s in past
  }

  // ---- what auto.conf records ----

  // The value that a non-empty entry stands for.
  function Recorded(k: View, s: nat): Option<string> {
    if Writes(k, s) && k.env.S(s).str.Some? && !(k.cfg.Boolish(s) && k.env.S(s).tri == Some(0)) then k.env.S(s).str else None
  }

  // The text after '=' in the entry.
  function EntryText(k: View, s: nat): string
    requires k.env.S(s).str.Some?
  {
    if !k.cfg.Boolish(s) && k.cfg.S(s).typ == String then "\"" + Escape(k.env.S(s).str.value) + "\"" else k.env.S(s).str.value
  }

  // What a run with configuration cfg makes of the entry of its symbol s among the first n that
  // were written in k.
  function Old(k: View, cfg: Config, s: nat, n: nat): Option<string> {
    var t :- Find(k.cfg, cfg.S(s).name, 0);
    if t < n && Recorded(k, t).Some? then ReadAs(cfg, s, EntryText(k, t)) else None
  }

  ghost predicate AutoWritable(k: View, prefix: string) {
    && Solution(k) && NamesOk(k.cfg, prefix)
    && forall s: nat :: s < |k.cfg.syms| ==> Printable(k, s)
  }

  lemma {:induction false} FindIsExact(cfg: Config, name: string, i: nat)
    requires i <= |cfg.syms|
    ensures Find(cfg, name, i).Some? ==> i <= Find(cfg, name, i).value < |cfg.syms| && cfg.syms[Find(cfg, name, i).value].name == name
    ensures Find(cfg, name, i).None? ==> forall s :: i <= s < |cfg.syms| ==> cfg.syms[s].name != name
    decreases |cfg.syms| - i
  {
    if i < |cfg.syms| && cfg.syms[i].name != name {
      FindIsExact(cfg, name, i + 1);
    }
  }

  lemma {:induction false} OldValsConcat(cfg: Config, prefix: string, past: map<nat, string>, a: seq<string>, b: seq<string>)
    ensures OldVals(cfg, prefix, past, a + b) == OldVals(cfg, prefix, OldVals(cfg, prefix, past, a), b)
    decreases |a|
  {
    if a == [] {
      assert a + b == b;
    } else {
      OldValsConcat(cfg, prefix, Remember(cfg, prefix, past, a[0]), a[1..], b);
      assert (a + b)[0] == a[0];
      assert (a + b)[1..] == a[1..] + b;
    }
  }

  lemma {:induction false} GoneConcat(cfg: Config, others: set<string>, prefix: string, a: seq<string>, b: seq<string>)
    ensures Gone(cfg, others, prefix, a + b) == Gone(cfg, others, prefix, a) + Gone(cfg, others, prefix, b)
    decreases |a|
  {
    if a == [] {
      assert a + b == b;
    } else {
      GoneConcat(cfg, others, prefix, a[1..], b);
      assert (a + b)[0] == a[0];
      assert (a + b)[1..] == a[1..] + b;
    }
  }

  lemma {:induction false} AutoEntryIsLine(k: View, prefix: string, s: nat)
    requires AutoWritable(k, prefix) && s < |k.cfg.syms| && Recorded(k, s).Some?
    ensures AutoEntry(k, prefix, s) == EntryLine(k.cfg, prefix, s, k.env.S(s).str.value) + "\n"
    ensures Lines(AutoEntry(k, prefix, s)) == [EntryLine(k.cfg, prefix, s, k.env.S(s).str.value)]
  {
    SymKnown(k, s);
    EntryLineIsClean(k, prefix, s);
    LinesOne(EntryLine(k.cfg, prefix, s, k.env.S(s).str.value));
  }

  lemma {:induction false} EntryTextIsOneLine(k: View, prefix: string, s: nat)
    requires AutoWritable(k, prefix) && s < |k.cfg.syms| && Recorded(k, s).Some?
    ensures OneLine(EntryText(k, s)) && (k.cfg.Boolish(s) ==> k.env.S(s).str != Some("n"))
  {
    SymKnown(k, s);
    assert Printable(k, s);
    if k.cfg.Boolish(s) {
      assert OneLine("m") && OneLine("y");
    } else {
      EscapeOneLine(k.env.S(s).str.value);
    }
  }

  lemma {:induction false} AutoLineReadBack(k: View, prefix: string, s: nat)
    requires AutoWritable(k, prefix) && s < |k.cfg.syms| && Recorded(k, s).Some?
    ensures ReadLine(prefix, EntryLine(k.cfg, prefix, s, k.env.S(s).str.value)) == Set(k.cfg.S(s).name, EntryText(k, s))
    ensures k.cfg.S(s).typ == String ==> ConfString(EntryText(k, s)) == Some(Escape(k.env.S(s).str.value)) && Unescape(Escape(k.env.S(s).str.value)) == k.env.S(s).str.value
  {
    EntryTextIsOneLine(k, prefix, s);
    ReadSetLine(prefix, k.cfg.S(s).name, EntryText(k, s));
    QuotedReadBack(k.env.S(s).str.value);
  }

  // What the entry of symbol t of k adds to the old values.
  function Learnt(k: View, cfg: Config, past: map<nat, string>, t: nat): map<nat, string> {
    if Recorded(k, t).None? then past
    else
      match Find(cfg, k.cfg.S(t).name, 0)
      case None => past
      case Some(s) => if ReadAs(cfg, s, EntryText(k, t)).Some? then past[s := ReadAs(cfg, s, EntryText(k, t)).value] else past
  }

  // ... and to the vanished names.
  function Lost(k: View, cfg: Config, others: set<string>, t: nat): set<string> {
    if Recorded(k, t).Some? && Find(cfg, k.cfg.S(t).name, 0).None? && k.cfg.S(t).name !in others then {k.cfg.S(t).name} else {}
  }

  lemma {:induction false} OneOldLine(cfg: Config, others: set<string>, prefix: string, past: map<nat, string>, line: string)
    ensures OldVals(cfg, prefix, past, [line]) == Remember(cfg, prefix, past, line)
    ensures Gone(cfg, others, prefix, [line]) == GoneLine(cfg, others, prefix, line)
  {
    assert [line][1..] == [];
  }

  lemma {:induction false} AutoEntryRemembered(k: View, cfg: Config, others: set<string>, prefix: string, past: map<nat, string>, t: nat)
    requires AutoWritable(k, prefix) && t < |k.cfg.syms|
    ensures Terminated(AutoEntry(k, prefix, t))
    ensures OldVals(cfg, prefix, past, Lines(AutoEntry(k, prefix, t))) == Learnt(k, cfg, past, t)
    ensures Gone(cfg, others, prefix, Lines(AutoEntry(k, prefix, t))) == Lost(k, cfg, others, t)
  {
    if Recorded(k, t).Some? {
      AutoEntryIsLine(k, prefix, t);
      AutoLineReadBack(k, prefix, t);
      OneOldLine(cfg, others, prefix, past, EntryLine(k.cfg, prefix, t, k.env.S(t).str.value));
    } else {
      SymKnown(k, t);
      assert AutoEntry(k, prefix, t) == "";
    }
  }

  lemma {:induction false} EntryAppended(cfg: Config, others: set<string>, prefix: string, before: string, entry: string)
    requires Terminated(before) && Terminated(entry)
    ensures Terminated(before + entry)
    ensures OldVals(cfg, prefix, map[], Lines(before + entry)) == OldVals(cfg, prefix, OldVals(cfg, prefix, map[], Lines(before)), Lines(entry))
    ensures Gone(cfg, others, prefix, Lines(before + entry)) == Gone(cfg, others, prefix, Lines(before)) + Gone(cfg, others, prefix, Lines(entry))
  {
    LinesConcat(before, entry);
    OldValsConcat(cfg, prefix, map[], Lines(before), Lines(entry));
    GoneConcat(cfg, others, prefix, Lines(before), Lines(entry));
  }

  // past holds the old values of the symbols of cfg from the first n entries, and nothing else.
  predicate Remembers(k: View, cfg: Config, past: map<nat, string>, n: nat) {
    && (forall s :: s in past ==> s < |cfg.syms|)
    && (forall s: nat :: s < |cfg.syms| ==> At(past, s) == Old(k, cfg, s, n))
  }

  lemma {:induction false} RemembersOneMore(k: View, cfg: Config, prefix: string, past: map<nat, string>, n: nat)
    requires NamesOk(k.cfg, prefix) && NamesOk(cfg, prefix) && n < |k.cfg.syms| && Remembers(k, cfg, past, n)
    ensures Remembers(k, cfg, Learnt(k, cfg, past, n), n + 1)
  {
    var past' := Learnt(k, cfg, past, n);
    var name := k.cfg.S(n).name;
    FindIsExact(cfg, name, 0);
    forall s: nat | s < |cfg.syms| ensures At(past', s) == Old(k, cfg, s, n + 1) {
      assert At(past, s) == Old(k, cfg, s, n);
      FindIsExact(k.cfg, cfg.S(s).name, 0);
      if cfg.S(s).name == name {
        FindByName(cfg, prefix, s, 0);
        FindByName(k.cfg, prefix, n, 0);
      }
    }
  }

  // The names of the first n symbols of k that are recorded, and that no symbol has any more.
  function LostNames(k: View, cfg: Config, others: set<string>, n: nat): set<string> {
    if n == 0 then {} else LostNames(k, cfg, others, n - 1) + Lost(k, cfg, others, n - 1)
  }

  lemma {:induction false} LostNamesAre(k: View, cfg: Config, others: set<string>, n: nat, name: string)
    ensures name in LostNames(k, cfg, others, n) <==> exists t: nat :: t < n && name in Lost(k, cfg, others, t)
  {
    if n > 0 {
      LostNamesAre(k, cfg, others, n - 1, name);
    }
  }

  // The text of the first n entries gives the old values and the vanished names that they stand for.
  ghost predicate ReadsBack(k: View, cfg: Config, others: set<string>, prefix: string, text: string, n: nat) {
    && Terminated(text) && Remembers(k, cfg, OldVals(cfg, prefix, map[], Lines(text)), n)
    && Gone(cfg, others, prefix, Lines(text)) == LostNames(k, cfg, others, n)
  }

  lemma {:induction false} OneMoreReadBack(k: View, cfg: Config, others: set<string>, prefix: string, n: nat, before: string)
    requires AutoWritable(k, prefix) && NamesOk(cfg, prefix) && n < |k.cfg.syms| && ReadsBack(k, cfg, others, prefix, before, n)
    ensures ReadsBack(k, cfg, others, prefix, before + AutoEntry(k, prefix, n), n + 1)
  {
    var past := OldVals(cfg, prefix, map[], Lines(before));
    AutoEntryRemembered(k, cfg, others, prefix, past, n);
    RemembersOneMore(k, cfg, prefix, past, n);
    EntryAppended(cfg, others, prefix, before, AutoEntry(k, prefix, n));
  }

  lemma {:induction false} NothingReadBack(k: View, cfg: Config, others: set<string>, prefix: string)
    ensures ReadsBack(k, cfg, others, prefix, "", 0)
  {
    assert Lines("") == [];
  }

  lemma {:induction false} EntriesReadBack(k: View, cfg: Config, others: set<string>, prefix: string, text: string, n: nat)
    requires AutoWritable(k, prefix) && NamesOk(cfg, prefix) && n <= |k.cfg.syms| && text == AutoConf(k, prefix, n)
    ensures ReadsBack(k, cfg, others, prefix, text, n)
    decreases n
  {
    if n == 0 {
      NothingReadBack(k, cfg, others, prefix);
    } else {
      var before := AutoConf(k, prefix, n - 1);
      EntriesReadBack(k, cfg, others, prefix, before, n - 1);
      OneMoreReadBack(k, cfg, others, prefix, n - 1, before);
    }
  }

  // auto.conf, written in state k and read by a run whose configuration is cfg, gives a symbol of cfg
  // the text recorded under its name, unquoted if it is a string symbol, and no other symbol an old value.
  // The vanished names are exactly the recorded names that are neither defined nor referred to in cfg.
  lemma {:induction false} AutoConfReadBack(k: View, cfg: Config, others: set<string>, prefix: string)
    requires AutoWritable(k, prefix) && NamesOk(cfg, prefix)
    ensures Remembers(k, cfg, OldVals(cfg, prefix, map[], Lines(AutoFile(k, prefix))), |k.cfg.syms|)
    ensures forall name :: name in Gone(cfg, others, prefix, Lines(AutoFile(k, prefix))) <==>
              name !in others && Find(cfg, name, 0).None? && Find(k.cfg, name, 0).Some? && Recorded(k, Find(k.cfg, name, 0).value).Some?
  {
    EntriesReadBack(k, cfg, others, prefix, AutoFile(k, prefix), |k.cfg.syms|);
    forall name
      ensures name in LostNames(k, cfg, others, |k.cfg.syms|) <==>
              name !in others && Find(cfg, name, 0).None? && Find(k.cfg, name, 0).Some? && Recorded(k, Find(k.cfg, name, 0).value).Some?
    {
      LostNamesAre(k, cfg, others, |k.cfg.syms|, name);
      FindIsExact(k.cfg, name, 0);
      if t: nat :| t < |k.cfg.syms| && name in Lost(k, cfg, others, t) {
        FindByName(k.cfg, prefix, t, 0);
      } else if Find(k.cfg, name, 0).Some? {
        assert name !in Lost(k, cfg, others, Find(k.cfg, name, 0).value);
      }
    }
  }

  // ---- what is flagged ----

  // The old value is the text n, and now n is the written value of a bool or tristate symbol, which has no
  // entry.
  predicate NowJustN(k: View, s: nat, past: Option<string>) {
    past == Some("n") && k.cfg.Boolish(s) && Writes(k, s) && k.env.S(s).str == Some("n")
  }

  // A symbol is flagged when what is recorded for it differs from its old value.
  lemma {:induction false} FlagsDifferentRecords(k: View, past: map<nat, string>, s: nat)
    requires Solution(k) && s < |k.cfg.syms|
    ensures k.env.S(s).str.Some?
    ensures Flagged(k.cfg, s, Writes(k, s), k.env.S(s).str.value, past) <==> Recorded(k, s) != At(past, s) && !NowJustN(k, s, At(past, s))
  {
    SymKnown(k, s);
  }

  // Is the symbol s of k' flagged by a run that finds the auto.conf written in k?
  ghost predicate Touched(k: View, k': View, prefix: string, s: nat)
    requires k'.env.S(s).str.Some?
  {
    Flagged(k'.cfg, s, Writes(k', s), k'.env.S(s).str.value, OldVals(k'.cfg, prefix, map[], Lines(AutoFile(k, prefix))))
  }

  // For two runs with any configurations, and whatever has become of the type of the symbol.
  lemma {:induction false} FlagsWhatReadsDifferently(k: View, k': View, prefix: string, s: nat)
    requires AutoWritable(k, prefix) && AutoWritable(k', prefix) && s < |k'.cfg.syms|
    ensures k'.env.S(s).str.Some?
    ensures
      var past := Old(k, k'.cfg, s, |k.cfg.syms|);
      Touched(k, k', prefix, s) <==> Recorded(k', s) != past && !NowJustN(k', s, past)
  {
    AutoConfReadBack(k, k'.cfg, {}, prefix);
    FlagsDifferentRecords(k', OldVals(k'.cfg, prefix, map[], Lines(AutoFile(k, prefix))), s);
  }

  // The entry under the name of symbol s of cfg.
  function EntryOf(k: View, prefix: string, cfg: Config, s: nat): string {
    match Find(k.cfg, cfg.S(s).name, 0)
    case None => ""
    case Some(t) => AutoEntry(k, prefix, t)
  }

  // The symbol of the name of s, if there was one, had the type that s has.
  predicate SameType(cfg: Config, cfg': Config, s: nat) {
    match Find(cfg, cfg'.S(s).name, 0)
    case None => true
    case Some(t) => cfg.S(t).typ == cfg'.S(s).typ
  }

  // Entries under one name are the same exactly when the texts in them are.
  lemma {:induction false} EntriesDiffer(k: View, k': View, prefix: string, t: nat, s: nat)
    requires AutoWritable(k, prefix) && AutoWritable(k', prefix) && t < |k.cfg.syms| && s < |k'.cfg.syms|
    requires k.cfg.S(t).name == k'.cfg.S(s).name && Recorded(k, t).Some? && Recorded(k', s).Some?
    ensures AutoEntry(k, prefix, t) == AutoEntry(k', prefix, s) <==> EntryText(k, t) == EntryText(k', s)
  {
    EntryIsText(k, prefix, t);
    EntryIsText(k', prefix, s);
  }

  lemma {:induction false} EntryIsText(k: View, prefix: string, s: nat)
    requires AutoWritable(k, prefix) && s < |k.cfg.syms| && Recorded(k, s).Some?
    ensures AutoEntry(k, prefix, s) == SetLine(prefix, k.cfg.S(s).name, EntryText(k, s)) + "\n"
    ensures Lines(AutoEntry(k, prefix, s)) == [SetLine(prefix, k.cfg.S(s).name, EntryText(k, s))]
    ensures ReadLine(prefix, SetLine(prefix, k.cfg.S(s).name, EntryText(k, s))) == Set(k.cfg.S(s).name, EntryText(k, s))
  {
    AutoEntryIsLine(k, prefix, s);
    AutoLineReadBack(k, prefix, s);
    EntryTextIsOneLine(k, prefix, s);
  }

  lemma {:induction false} EntryIsRecorded(k: View, prefix: string, s: nat)
    requires AutoWritable(k, prefix) && s < |k.cfg.syms|
    ensures AutoEntry(k, prefix, s) == "" <==> Recorded(k, s).None?
    ensures k.cfg.Boolish(s) ==> Recorded(k, s) != Some("n")
  {
    SymKnown(k, s);
  }

  // The old text is not in quotes, as that of a symbol that was not a string may be; now the symbol is a
  // string, and nothing is recorded for it.
  predicate NeverRead(k: View, t: nat, k': View, s: nat)
    requires k.env.S(t).str.Some?
  {
    k'.cfg.S(s).typ == String && ConfString(EntryText(k, t)).None? && Recorded(k', s).None?
  }

  // The old text is in quotes, and unquotes to the value of what is now a string symbol, but is not what
  // is written for that value: something follows the quotes, or a character is escaped without need.
  predicate QuotedOddly(k: View, t: nat, k': View, s: nat)
    requires k.env.S(t).str.Some?
  {
    var body := ConfString(EntryText(k, t));
    && k'.cfg.S(s).typ == String && body.Some? && Recorded(k', s) == Some(Unescape(body.value))
    && EntryText(k, t) != "\"" + Escape(Unescape(body.value)) + "\""
  }

  // The cases in which a changed entry is not noticed.
  predicate Missed(k: View, k': View, s: nat) {
    match Find(k.cfg, k'.cfg.S(s).name, 0)
    case None => false
    case Some(t) => Recorded(k, t).Some? && (NowJustN(k', s, Some(EntryText(k, t))) || NeverRead(k, t, k', s) || QuotedOddly(k, t, k', s))
  }

  // The symbol is a string now.
  lemma {:induction false} StringFlag(k: View, k': View, prefix: string, t: nat, s: nat)
    requires AutoWritable(k, prefix) && AutoWritable(k', prefix) && t < |k.cfg.syms| && s < |k'.cfg.syms|
    requires k.cfg.S(t).name == k'.cfg.S(s).name && Recorded(k, t).Some? && k'.cfg.S(s).typ == String
    ensures
      (Recorded(k', s) != ReadAs(k'.cfg, s, EntryText(k, t)))
      <==> (AutoEntry(k, prefix, t) != AutoEntry(k', prefix, s) && !NeverRead(k, t, k', s) && !QuotedOddly(k, t, k', s))
  {
    EntryIsRecorded(k, prefix, t);
    EntryIsRecorded(k', prefix, s);
    if Recorded(k', s).Some? {
      EntriesDiffer(k, k', prefix, t, s);
      QuotedReadBack(Recorded(k', s).value);
    }
  }

  // It is not.
  lemma {:induction false} PlainFlag(k: View, k': View, prefix: string, t: nat, s: nat)
    requires AutoWritable(k, prefix) && AutoWritable(k', prefix) && t < |k.cfg.syms| && s < |k'.cfg.syms|
    requires k.cfg.S(t).name == k'.cfg.S(s).name && Recorded(k, t).Some? && k'.cfg.S(s).typ != String
    ensures Recorded(k', s) != Some(EntryText(k, t)) <==> AutoEntry(k, prefix, t) != AutoEntry(k', prefix, s)
  {
    EntryIsRecorded(k, prefix, t);
    EntryIsRecorded(k', prefix, s);
    if Recorded(k', s).Some? {
      EntriesDiffer(k, k', prefix, t, s);
    }
  }

  // sync_deps() with the auto.conf written in state k flags a symbol in state k' if and only if the
  // entry under its name differs between the two and this is none of the cases that are missed, whatever
  // has become of the type of the symbol, and whatever other symbols have been added, removed or changed.
  // A symbol that is new is flagged if it has an entry.
  lemma {:induction false} FlagsExactlyTheChanges(k: View, k': View, prefix: string, s: nat)
    requires AutoWritable(k, prefix) && AutoWritable(k', prefix) && s < |k'.cfg.syms|
    ensures k'.env.S(s).str.Some?
    ensures Touched(k, k', prefix, s) <==> EntryOf(k, prefix, k'.cfg, s) != AutoEntry(k', prefix, s) && !Missed(k, k', s)
  {
    FlagsWhatReadsDifferently(k, k', prefix, s);
    EntryIsRecorded(k', prefix, s);
    FindIsExact(k.cfg, k'.cfg.S(s).name, 0);
    match Find(k.cfg, k'.cfg.S(s).name, 0)
    case None =>
    case Some(t) =>
      EntryIsRecorded(k, prefix, t);
      if Recorded(k, t).Some? && k'.cfg.S(s).typ == String {
        StringFlag(k, k', prefix, t, s);
      } else if Recorded(k, t).Some? {
        PlainFlag(k, k', prefix, t, s);
      }
  }

  // While a symbol keeps its type no change is missed.
  lemma {:induction false} SameTypeMissesNothing(k: View, k': View, prefix: string, s: nat)
    requires AutoWritable(k, prefix) && AutoWritable(k', prefix) && s < |k'.cfg.syms| && SameType(k.cfg, k'.cfg, s)
    ensures k'.env.S(s).str.Some? && !Missed(k, k', s)
    ensures Touched(k, k', prefix, s) <==> EntryOf(k, prefix, k'.cfg, s) != AutoEntry(k', prefix, s)
  {
    FlagsExactlyTheChanges(k, k', prefix, s);
    FindIsExact(k.cfg, k'.cfg.S(s).name, 0);
    match Find(k.cfg, k'.cfg.S(s).name, 0)
    case None =>
    case Some(t) =>
      EntryIsRecorded(k, prefix, t);
      if Recorded(k, t).Some? {
        AutoLineReadBack(k, prefix, t);
      }
  }

  // So running it again without a change flags nothing, and no name has vanished.
  lemma {:induction false} SecondRunFlagsNothing(k: View, others: set<string>, prefix: string, s: nat)
    requires AutoWritable(k, prefix) && s < |k.cfg.syms|
    ensures k.env.S(s).str.Some? && !Touched(k, k, prefix, s)
    ensures Gone(k.cfg, others, prefix, Lines(AutoFile(k, prefix))) == {}
  {
    FindByName(k.cfg, prefix, s, 0);
    SameTypeMissesNothing(k, k, prefix, s);
    AutoConfReadBack(k, k.cfg, others, prefix);
  }

  // ---- changes that are not noticed ----

  // FOO with a prompt and the default o.
  function FooConfig(num: Numerals, typ: Type, o: Operand): Config {
    Config([SymDecl("FOO", typ, [YES], [Default(Leaf(o), YES)], [], NO, NO, YES, None, false)], [], Const(0), num)
  }

  function FooValues(num: Numerals, typ: Type, o: Operand, str: string): View {
    View(FooConfig(num, typ, o), Users([None], [], []), Env([SymEnt(Some(2), Some(0), Some(str))], []))
  }

  // A bool symbol that is n, or another symbol with the given text.
  predicate FooOk(typ: Type, o: Operand, str: string) {
    if typ == Bool then o == Const(0) && str == "n"
    else (typ == Int || typ == String) && OneLine(str) && str != "" && !IsSpace(str[|str| - 1]) && (o == Text(str) || (o == Const(0) && str == "n"))
  }

  lemma {:induction false} FooIs(num: Numerals, typ: Type, o: Operand, str: string)
    requires FooOk(typ, o, str)
    ensures AutoWritable(FooValues(num, typ, o, str), "CONFIG_") && Writes(FooValues(num, typ, o, str), 0)
  {
    var k := FooValues(num, typ, o, str);
    assert k.Eval(YES) == Some(2) && k.Eval(NO) == Some(0);
    assert k.MaxEval([YES], 0) == Some(0) && k.MaxEval([YES], 1) == Some(2);
    assert DefaultConds(k.cfg.S(0).defaults) == [YES] && k.FirstActive([YES], 0) == Some(Some((0, 2)));
    assert k.FirstActive(RangeConds(k.cfg.S(0).ranges), 0) == Some(None);
    assert k.StrOf(o) == Some(str);
    forall q | InRange(k.cfg, q) ensures Recomputed(k, q) {
    }
    assert IsName("FOO");
  }

  lemma {:induction false} OneSymbolFile(k: View, prefix: string, entry: string)
    requires |k.cfg.syms| == 1 && entry == AutoEntry(k, prefix, 0)
    ensures AutoFile(k, prefix) == entry
  {
    assert AutoConf(k, prefix, 0) == "" && "" + entry == entry;
  }

  // The int symbol n has an entry; the bool symbol n has none, and is not flagged.
  lemma {:induction false} TypeChangeIsMissed(num: Numerals)
    ensures
      var k, k' := FooValues(num, Int, Const(0), "n"), FooValues(num, Bool, Const(0), "n");
      && AutoWritable(k, "CONFIG_") && AutoWritable(k', "CONFIG_") && !Touched(k, k', "CONFIG_", 0)
      && AutoFile(k, "CONFIG_") == SetLine("CONFIG_", "FOO", "n") + "\n" && AutoFile(k', "CONFIG_") == ""
  {
    var k, k' := FooValues(num, Int, Const(0), "n"), FooValues(num, Bool, Const(0), "n");
    FooIs(num, Int, Const(0), "n");
    FooIs(num, Bool, Const(0), "n");
    FindByName(k.cfg, "CONFIG_", 0, 0);
    FlagsWhatReadsDifferently(k, k', "CONFIG_", 0);
    OneSymbolFile(k, "CONFIG_", AutoEntry(k, "CONFIG_", 0));
    OneSymbolFile(k', "CONFIG_", AutoEntry(k', "CONFIG_", 0));
  }

  // FOO as a string symbol without a prompt or default.
  function BareConfig(num: Numerals): Config {
    Config([SymDecl("FOO", String, [], [], [], NO, NO, YES, None, false)], [], Const(0), num)
  }

  function BareValues(num: Numerals): View {
    View(BareConfig(num), Users([None], [], []), Env([SymEnt(Some(0), Some(0), Some(""))], []))
  }

  lemma {:induction false} BareIsEmpty(num: Numerals)
    ensures AutoWritable(BareValues(num), "CONFIG_") && !Writes(BareValues(num), 0)
  {
    var k := BareValues(num);
    assert k.MaxEval([], 0) == Some(0);
    assert k.FirstActive(DefaultConds(k.cfg.S(0).defaults), 0) == Some(None);
    forall q | InRange(k.cfg, q) ensures Recomputed(k, q) {
    }
    assert IsName("FOO");
  }

  // Its entry as an int symbol was 'CONFIG_FOO=n'. Now it has none, and is not flagged.
  lemma {:induction false} StringChangeIsMissed(num: Numerals)
    ensures
      var k, k' := FooValues(num, Int, Const(0), "n"), BareValues(num);
      && AutoWritable(k, "CONFIG_") && AutoWritable(k', "CONFIG_") && !Touched(k, k', "CONFIG_", 0)
      && AutoFile(k, "CONFIG_") == SetLine("CONFIG_", "FOO", "n") + "\n" && AutoFile(k', "CONFIG_") == ""
  {
    var k, k' := FooValues(num, Int, Const(0), "n"), BareValues(num);
    FooIs(num, Int, Const(0), "n");
    BareIsEmpty(num);
    FindByName(k.cfg, "CONFIG_", 0, 0);
    FlagsWhatReadsDifferently(k, k', "CONFIG_", 0);
    OneSymbolFile(k, "CONFIG_", AutoEntry(k, "CONFIG_", 0));
    OneSymbolFile(k', "CONFIG_", AutoEntry(k', "CONFIG_", 0));
  }

  // The int symbol had a default in quotes with something behind them; the string symbol has what was in
  // the quotes, and is not flagged.
  lemma {:induction false} OddQuotesAreMissed(num: Numerals)
    ensures
      var k, k' := FooValues(num, Int, Text("\"x\"y"), "\"x\"y"), FooValues(num, String, Text("x"), "x");
      && AutoWritable(k, "CONFIG_") && AutoWritable(k', "CONFIG_") && !Touched(k, k', "CONFIG_", 0)
      && AutoFile(k, "CONFIG_") != AutoFile(k', "CONFIG_")
  {
    var odd := "\"x\"y";
    var k, k' := FooValues(num, Int, Text(odd), odd), FooValues(num, String, Text("x"), "x");
    FooIs(num, Int, Text(odd), odd);
    FooIs(num, String, Text("x"), "x");
    FindByName(k.cfg, "CONFIG_", 0, 0);
    FlagsWhatReadsDifferently(k, k', "CONFIG_", 0);
    OneSymbolFile(k, "CONFIG_", AutoEntry(k, "CONFIG_", 0));
    OneSymbolFile(k', "CONFIG_", AutoEntry(k', "CONFIG_", 0));
    OddText(odd);
    EntriesDiffer(k, k', "CONFIG_", 0, 0);
  }

  lemma {:induction false} OddText(odd: string)
    requires odd == "\"x\"y"
    ensures ConfString(odd) == Some("x") && Unescape("x") == "x" && "\"" + Escape("x") + "\"" != odd
  {
    EscapeFirst("x");
    assert "x"[1..] == "" && Escape("") == "" && Escape("x") == "x";
    assert odd[1..] == "x\"y" && odd[1..][1..] == "\"y";
    assert QuotedBody(odd[1..][1..]) == Some("");
    assert Unescape("") == "";
  }

  // FOO is recorded, and afterwards it is not defined, but other symbols still refer to it: it is not
  // among the vanished names, although its entry is gone.
  lemma {:induction false} ReferencesHideVanishing(k: View, cfg: Config, others: set<string>, prefix: string, t: nat)
    requires AutoWritable(k, prefix) && NamesOk(cfg, prefix) && t < |k.cfg.syms|
    requires Recorded(k, t).Some? && Find(cfg, k.cfg.S(t).name, 0).None?
    ensures AutoEntry(k, prefix, t) != ""
    ensures k.cfg.S(t).name in Gone(cfg, others, prefix, Lines(AutoFile(k, prefix))) <==> k.cfg.S(t).name !in others
  {
    FindByName(k.cfg, prefix, t, 0);
    EntryIsRecorded(k, prefix, t);
    AutoConfReadBack(k, cfg, others, prefix);
  }
}
