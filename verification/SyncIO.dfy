// sync_deps() on the objects: which dependency files are touched, and what auto.conf becomes.
module SyncIO {
  import opened Model
  import opened Semantics
  import opened Dependencies
  import opened ConfigText
  import opened ConfigFile
  import opened Engine
  import opened ConfigIO
  import SyncDeps

  // _load_old_vals(), given the lines of auto.conf; others are the names of the symbols that are
  // referred to but not defined.
  method LoadOldVals(cfg: Config, others: set<string>, prefix: string, lines: seq<string>) returns (past: map<nat, string>, touched: set<string>)
    ensures past == SyncDeps.OldVals(cfg, prefix, map[], lines) && touched == SyncDeps.Gone(cfg, others, prefix, lines)
  {
    past, touched := map[], {};
    for i := 0 to |lines|
      invariant SyncDeps.OldVals(cfg, prefix, map[], lines) == SyncDeps.OldVals(cfg, prefix, past, lines[i..])
      invariant SyncDeps.Gone(cfg, others, prefix, lines) == touched + SyncDeps.Gone(cfg, others, prefix, lines[i..])
    {
      assert lines[i..][0] == lines[i] && lines[i..][1..] == lines[i + 1..];
      ghost var before := past;
      match ReadLine(prefix, lines[i])
      case Set(name, text) =>
        var s := Find(cfg, name, 0);
        if s.Some? {
          var val := SyncDeps.ReadAs(cfg, s.value, text);
          if val.Some? {
            past := past[s.value := val.value];
          }
        } else if name !in others {
          touched := touched + {name};
        }
      case _ =>
      assert past == SyncDeps.Remember(cfg, prefix, before, lines[i]);
    }
  }

  // One round of _old_vals_contents()
  method AutoConfLine(kc: Kconfig, prefix: string, s: nat) returns (text: string)
    requires kc.Valid() && s < |kc.cfg.syms|
    modifies kc`st, kc.syms, kc.choices
    ensures kc.Valid() && kc.st.u == old(kc.st.u)
    ensures text == SyncDeps.AutoEntry(Now(kc), prefix, s)
  {
    if kc.cfg.Boolish(s) {
      var t := kc.SymTriValue(s);
      CachesAgree(kc);
      assert LeqAt(kc.V(), Now(kc), SymTri(s));
      if t == 0 {
        return "";
      }
    }
    text := ConfigLine(kc, prefix, s);
  }

  method AddAutoLine(kc: Kconfig, prefix: string, s: nat, text: string, ghost k: View) returns (longer: string)
    requires kc.Valid() && s < |kc.cfg.syms| && k == Now(kc)
    modifies kc`st, kc.syms, kc.choices
    ensures kc.Valid() && k == Now(kc)
    ensures longer == text + SyncDeps.AutoEntry(k, prefix, s)
  {
    var line := AutoConfLine(kc, prefix, s);
    longer := text + line;
  }

  // _old_vals_contents()
  method AutoConfText(kc: Kconfig, prefix: string) returns (text: string)
    requires kc.Valid()
    modifies kc`st, kc.syms, kc.choices
    ensures kc.Valid() && kc.st.u == old(kc.st.u)
    ensures text == SyncDeps.AutoConf(Now(kc), prefix, |kc.cfg.syms|)
  {
    ghost var k := Now(kc);
    text := "";
    for s := 0 to |kc.cfg.syms|
      invariant kc.Valid() && k == Now(kc)
      invariant text == SyncDeps.AutoConf(k, prefix, s)
    {
      text := AddAutoLine(kc, prefix, s, text, k);
    }
  }

  ghost predicate Changed(k: View, past: map<nat, string>, s: nat)
    requires s < |k.cfg.syms|
  {
    k.env.S(s).str.Some? && SyncDeps.Flagged(k.cfg, s, Writes(k, s), k.env.S(s).str.value, past)
  }

  // One round of the loop in sync_deps()
  method IsChanged(kc: Kconfig, past: map<nat, string>, s: nat) returns (changed: bool)
    requires kc.Valid() && s < |kc.cfg.syms|
    modifies kc`st, kc.syms, kc.choices
    ensures kc.Valid() && kc.st.u == old(kc.st.u)
    ensures changed == Changed(Now(kc), past, s)
  {
    var val := kc.SymStrValue(s);
    CachesAgree(kc);
    WriteFlagIsRight(kc, s);
    assert kc.SymLinked(s) && LeqAt(kc.V(), Now(kc), SymStr(s));
    if kc.syms[s].writeToConf {
      if s !in past && kc.cfg.Boolish(s) && val == "n" {
        return false;
      }
      if s in past && val == past[s] {
        return false;
      }
    } else if s !in past {
      return false;
    }
    changed := true;
  }

  // sync_deps() without the file handling: the symbols and vanished names whose files are touched,
  // and the new auto.conf.
  method SyncDependencies(kc: Kconfig, others: set<string>, prefix: string, lines: seq<string>) returns (flagged: set<nat>, gone: set<string>, text: string)
    requires kc.Valid()
    modifies kc`st, kc.syms, kc.choices
    ensures kc.Valid() && kc.st.u == old(kc.st.u)
    ensures forall s: nat :: s in flagged <==> s < |kc.cfg.syms| && Changed(Now(kc), SyncDeps.OldVals(kc.cfg, prefix, map[], lines), s)
    ensures gone == SyncDeps.Gone(kc.cfg, others, prefix, lines)
    ensures text == SyncDeps.AutoFile(Now(kc), prefix)
  {
    var past;
    past, gone := LoadOldVals(kc.cfg, others, prefix, lines);
    flagged := ChangedSymbols(kc, past);
    text := AutoConfText(kc, prefix);
  }

  method ChangedSymbols(kc: Kconfig, past: map<nat, string>) returns (flagged: set<nat>)
    requires kc.Valid()
    modifies kc`st, kc.syms, kc.choices
    ensures kc.Valid() && kc.st.u == old(kc.st.u)
    ensures forall s: nat :: s in flagged <==> s < |kc.cfg.syms| && Changed(Now(kc), past, s)
  {
    ghost var k := Now(kc);
    flagged := {};
    for s := 0 to |kc.cfg.syms|
      invariant kc.Valid() && kc.st.u == k.u
      invariant forall i: nat :: i in flagged <==> i < s && Changed(k, past, i)
    {
      var changed := IsChanged(kc, past, s);
      if changed {
        flagged := flagged + {s};
      }
    }
  }
}
