// User values: which inputs set_value() takes, and what they do to the record of user choices.
module UserValues {
  import opened Basics
  import opened Model

  // What a caller may pass: an integer or a string.
  datatype Input = Number(n: int) | Word(s: string)

  function WordTri(s: string): Option<Tri> {
    if s == "n" then Some(0) else if s == "m" then Some(1) else if s == "y" then Some(2) else None
  }

  function InputTri(v: Input): Option<Tri> {
    match v
    case Number(n) => if 0 <= n <= 2 then Some(n) else None
    case Word(s) => WordTri(s)
  }

  predicate TypeTakes(typ: Type, t: Tri) { typ == Tristate || (typ == Bool && t != 1) }

  predicate Accepts(cfg: Config, s: nat, v: UserVal) {
    var typ := cfg.S(s).typ;
    match v
    case UTri(t) => TypeTakes(typ, t)
    case UStr(str) =>
      || typ == String
      || (typ == Int && cfg.IsNum(str, 10))
      || (typ == Hex && cfg.IsNum(str, 16) && cfg.NumOrZero(str, 16) >= 0)
  }

  // The user value that set_value(v) stores, None if it rejects v.
  function Parsed(cfg: Config, s: nat, v: Input): Option<UserVal> {
    if cfg.Boolish(s) then
      if InputTri(v).Some? && TypeTakes(cfg.S(s).typ, InputTri(v).value) then Some(UTri(InputTri(v).value)) else None
    else if v.Word? && Accepts(cfg, s, UStr(v.s)) then Some(UStr(v.s))
    else None
  }

  function ParsedMode(cfg: Config, c: nat, v: Input): Option<Tri> {
    if InputTri(v).Some? && TypeTakes(cfg.C(c).typ, InputTri(v).value) then InputTri(v) else None
  }

  // value == self.user_value
  predicate Equals(v: Input, u: Option<UserVal>) {
    match u
    case None => false
    case Some(UTri(t)) => v == Number(t)
    case Some(UStr(s)) => v == Word(s)
  }

  ghost predicate UsersOk(cfg: Config, u: Users) { forall i: nat :: UserOk(cfg, u, i) }

  predicate UserOk(cfg: Config, u: Users, i: nat) {
    && (i < |u.val| && u.val[i].Some? ==> Accepts(cfg, i, u.val[i].value))
    && (i < |u.mode| && u.mode[i].Some? ==> TypeTakes(cfg.C(i).typ, u.mode[i].value))
    && (i < |u.sel| && u.sel[i].Some? ==> u.sel[i].value in cfg.C(i).members)
  }

  // Symbol.set_value() with a value of the right form. Setting a choice symbol to y also makes it
  // the user selection of its choice.
  function SetUser(cfg: Config, u: Users, s: nat, v: UserVal): Users {
    if s >= |u.val| then u
    else
      var u' := u.(val := u.val[s := Some(v)]);
      if cfg.S(s).choice.Some? && cfg.S(s).choice.value < |u.sel| && v == UTri(2)
      then u'.(sel := u.sel[cfg.S(s).choice.value := Some(s)]) else u'
  }

  function UnsetUser(u: Users, s: nat): Users { if s < |u.val| then u.(val := u.val[s := None]) else u }

  function SetMode(u: Users, c: nat, t: Tri): Users { if c < |u.mode| then u.(mode := u.mode[c := Some(t)]) else u }

  function UnsetChoice(u: Users, c: nat): Users {
    if c < |u.mode| == |u.sel| then u.(mode := u.mode[c := None], sel := u.sel[c := None]) else u
  }

  function Marked(flags: seq<bool>, i: nat): seq<bool> { if i < |flags| then flags[i := true] else flags }

  // Which choice set_value() marks as set, if any.
  function MarkedChoices(cfg: Config, flags: seq<bool>, s: nat, v: UserVal): seq<bool> {
    if cfg.S(s).choice.Some? && v == UTri(2) then Marked(flags, cfg.S(s).choice.value) else flags
  }

  function NoUsers(cfg: Config): Users {
    Users(seq(|cfg.syms|, _ => None), seq(|cfg.choices|, _ => None), seq(|cfg.choices|, _ => None))
  }

  // ---- user values stay of the right form ----

  lemma {:induction false} EqualIsParsed(cfg: Config, u: Users, s: nat, v: Input)
    requires UsersOk(cfg, u) && s < |u.val| && Equals(v, u.val[s])
    ensures Parsed(cfg, s, v) == u.val[s]
  {
    assert UserOk(cfg, u, s);
  }

  lemma {:induction false} SetUserOk(cfg: Config, u: Users, s: nat, v: Input)
    requires UsersOk(cfg, u) && Parsed(cfg, s, v).Some?
    requires cfg.S(s).choice.Some? ==> s in cfg.C(cfg.S(s).choice.value).members
    ensures UsersOk(cfg, SetUser(cfg, u, s, Parsed(cfg, s, v).value))
  {
    forall i: nat ensures UserOk(cfg, SetUser(cfg, u, s, Parsed(cfg, s, v).value), i) {
      assert UserOk(cfg, u, i);
    }
  }

  lemma {:induction false} UnsetUserOk(cfg: Config, u: Users, s: nat)
    requires UsersOk(cfg, u)
    ensures UsersOk(cfg, UnsetUser(u, s))
  {
    forall i: nat ensures UserOk(cfg, UnsetUser(u, s), i) {
      assert UserOk(cfg, u, i);
    }
  }

  lemma {:induction false} SetModeOk(cfg: Config, u: Users, c: nat, t: Tri)
    requires UsersOk(cfg, u) && TypeTakes(cfg.C(c).typ, t)
    ensures UsersOk(cfg, SetMode(u, c, t))
  {
    forall i: nat ensures UserOk(cfg, SetMode(u, c, t), i) {
      assert UserOk(cfg, u, i);
    }
  }

  lemma {:induction false} UnsetChoiceOk(cfg: Config, u: Users, c: nat)
    requires UsersOk(cfg, u)
    ensures UsersOk(cfg, UnsetChoice(u, c))
  {
    forall i: nat ensures UserOk(cfg, UnsetChoice(u, c), i) {
      assert UserOk(cfg, u, i);
    }
  }
}
