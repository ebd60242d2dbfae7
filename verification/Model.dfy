// The finalised Kconfig configuration: what the menu tree post-processing leaves on Symbol and
// Choice objects, before any user value is known. Symbols and choices are named by index.
module Model {
  import opened Basics

  datatype Type = Unknown | Bool | Tristate | String | Int | Hex

  // A symbol occurring in an expression: one of the constants n/m/y, another constant or an
  // undefined symbol (whose string value is its own name), or a defined symbol.
  datatype Operand = Const(val: Tri) | Text(name: string) | Sym(id: nat)

  datatype Relation = Equal | Unequal | Less | LessEqual | Greater | GreaterEqual

  datatype Expr =
    | Leaf(o: Operand)
    | InChoice(c: nat)
    | And(l: Expr, r: Expr)
    | Or(l: Expr, r: Expr)
    | Not(e: Expr)
    | Compare(rel: Relation, lhs: Operand, rhs: Operand)

  datatype Default = Default(value: Expr, cond: Expr)

  datatype Range = Range(low: Operand, high: Operand, cond: Expr)

  datatype ChoiceDefault = ChoiceDefault(sym: nat, cond: Expr)

  // prompts holds the condition of every menu node of the symbol that has a prompt. auto is set
  // for 'option env' symbols and for the defconfig_list symbol.
  datatype SymDecl = SymDecl(name: string, typ: Type, prompts: seq<Expr>, defaults: seq<Default>,
                             ranges: seq<Range>, revDep: Expr, weakRevDep: Expr, directDep: Expr,
                             choice: Option<nat>, auto: bool)

  datatype ChoiceDecl = ChoiceDecl(typ: Type, prompts: seq<Expr>, defaults: seq<ChoiceDefault>,
                                   members: seq<nat>, optional: bool)

  // Python's int(s, base) (None when it raises) and its inverse str()/hex(). Nothing is assumed
  // about them unless a lemma asks for it.
  datatype Numerals = Numerals(parse: (string, nat) -> Option<int>, show: (int, nat) -> string)

  const NO: Expr := Leaf(Const(0))

  const YES: Expr := Leaf(Const(2))

  const NO_SYMBOL: SymDecl := SymDecl("", Unknown, [], [], [], NO, NO, NO, None, false)

  const NO_CHOICE: ChoiceDecl := ChoiceDecl(Unknown, [], [], [], false)

  function Base(t: Type): nat { if t == Int then 10 else if t == Hex then 16 else 0 }

  datatype Config = Config(syms: seq<SymDecl>, choices: seq<ChoiceDecl>, modules: Operand, num: Numerals) {
    function S(s: nat): SymDecl { if s < |syms| then syms[s] else NO_SYMBOL }

    function C(c: nat): ChoiceDecl { if c < |choices| then choices[c] else NO_CHOICE }

    predicate Boolish(s: nat) { S(s).typ == Bool || S(s).typ == Tristate }

    predicate IsNum(t: string, base: nat) { num.parse(t, base).Some? }

    // int(t, base) if that parses, else 0 (strtoll() on junk in the C tools).
    function NumOrZero(t: string, base: nat): int { if num.parse(t, base).Some? then num.parse(t, base).value else 0 }
  }

  function DefaultConds(ds: seq<Default>): seq<Expr> { seq(|ds|, i requires 0 <= i < |ds| => ds[i].cond) }

  function RangeConds(rs: seq<Range>): seq<Expr> { seq(|rs|, i requires 0 <= i < |rs| => rs[i].cond) }

  // The user's choices: Symbol.user_value, Choice.user_value (the mode) and Choice.user_selection.
  datatype UserVal = UTri(t: Tri) | UStr(s: string)

  datatype Users = Users(val: seq<Option<UserVal>>, mode: seq<Option<Tri>>, sel: seq<Option<nat>>) {
    function UserTri(s: nat): Option<Tri> {
      if s < |val| && val[s].Some? && val[s].value.UTri? then Some(val[s].value.t) else None
    }

    function UserStr(s: nat): Option<string> {
      if s < |val| && val[s].Some? && val[s].value.UStr? then Some(val[s].value.s) else None
    }

    function UserMode(c: nat): Option<Tri> { if c < |mode| then mode[c] else None }

    function UserSel(c: nat): Option<nat> { if c < |sel| then sel[c] else None }
  }

  // The values of symbols and choices that are known: every one of them when the record comes
  // from the cache-free evaluator, some of them when it is a picture of the caches.
  datatype SymEnt = SymEnt(vis: Option<Tri>, tri: Option<Tri>, str: Option<string>)

  datatype ChoiceEnt = ChoiceEnt(vis: Option<Tri>, sel: Option<Option<nat>>)

  datatype Env = Env(syms: seq<SymEnt>, choices: seq<ChoiceEnt>) {
    function S(s: nat): SymEnt { if s < |syms| then syms[s] else SymEnt(None, None, None) }

    function C(c: nat): ChoiceEnt { if c < |choices| then choices[c] else ChoiceEnt(None, None) }
  }
}
