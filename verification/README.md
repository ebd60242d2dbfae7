# Kconfig engine, modelled and proved in Dafny

This project models the configuration engine in `libs/menu/kconfiglib.py` and proves what it is for:
that cached values are always the values a cache-free evaluator gives, that configuration files load back
what was saved, that choices stay exclusive, that the menu tree keeps its meaning and order when it is
finalised, and how far the dependency-loop check can be trusted. Verify it with
`dafny verify dfyconfig.toml`.

## How it is built

* `Basics`, `Model`, `Semantics`: symbols, choices, expressions and user values, and the evaluation rules,
  written once over a *view*: a configuration, the user's choices and a partial record of known values. A
  rule gives `None` exactly when it needs a value that the record lacks, so the same rules are the equations
  of the cache-free evaluator and the test that a cache can be recomputed from other caches.
* `Dependencies`, `Evaluation`: what every rule may read; existence and uniqueness of the values. `RuleLaws`: what the
  values are, said of the declared properties without the rules.
* `CacheState`, `Coherence`, `Invalidation`, `Objects`, `UserValues`, `Engine`: the dependency graph, the
  `Symbol` and `Choice` objects with their caches, the class `Kconfig` with its lazy properties, the recursive
  invalidation that stops early, and the operations that set and clear user values.
* `Runs`: any interleaving of reads, assignments and loads. `ChoiceLaws`, `AssignableLaws`, `ChoiceAssignable`,
  `Locality`: laws about reachable states.
* `ConfigText`, `ConfigFile`, `ConfigIO`, `ConfigWriter`, `ConfigLayout`, `FullConfig`, `MinimalLaws`, `RoundTrip`,
  `LoadHistory`, `LoadLaws`: the `.config` format, saving (full and minimal) and loading, on values and on the objects. `SyncDeps`, `SyncIO`:
  `auto.conf`.
* `MenuTree`, `Propagation`, `MenuFinalize`, `SubmenuLaws`, `TreeFinalizer`, `FinalisedLaws`: finalisation of the linked menu
  tree. `MenuWalk`: the iterative walk over it.
* `LoopCheck`, `LoopExactness`, `CaughtLoops`, `LoopFree`, `MissedLoops`: the three-colour search for dependency loops,
  which loops it never misses, what its acceptance means for evaluation, and what happens in the loops that it misses.
* `ExprSyntax`: printing and parsing of expressions. `Macro`, `MacroLaws`: the macro preprocessor. `QuotedNames`:
  constant symbols in quotes.

## What turned out not to hold

* The loop check misses two kinds of loops, and no others (`LoopExactness.AcceptanceIsExact`).
  - One symbol of a choice leads to another symbol of the same choice: a symbol that was visited as a member of the
    choice is marked as done before the rest of the choice has been looked at. `MissedLoops.CrossingConfig` has three
    symbols, X, A and B, and is accepted. Once X is y, evaluation never arrives at the selection of the choice
    (`MissedLoops.CrossingNeverEnds`), and the rules have two different solutions (`MissedLoops.CrossingIsAmbiguous`).
    With the symbols of such a choice in the other order the loop is reported (`LoopExactness.CaughtLoop`); it always is
    if nothing that is defined before the first of the two symbols leads to the second (`CaughtLoops.CrossingIsCaught`).
  - Something that mentions a choice without being one of its symbols, such as a symbol in a menu in the choice, leads
    back to the choice: the search looks at the symbols of a choice, never at its other dependents. With
    `MissedLoops.ReturningConfig`, two symbols and a choice, evaluation never arrives at the visibility of the choice,
    whatever the user choices are (`MissedLoops.ReturningNeverEnds`).
* `assignable` is wrong in exactly one situation, visibility m together with an m select and a y imply: m is
  offered and y is what any assignment gives (`AssignableLaws.AssignableIsExact`, `AssignableLaws.ExceptionOccurs`).
* A replacing load keeps an old user selection of a tristate choice when the file sets symbols of that choice to
  m and none to y (`LoadHistory.ReplacingForgets` gives the exact condition, `LoadHistory.SelectionSurvives` a case).
* `sync_deps()` does not notice every changed `auto.conf` entry of a symbol whose type has changed. A symbol is touched if
  and only if its entry differs (`SyncDeps.FlagsExactlyTheChanges`), except in three cases: the recorded text is n, and the
  symbol is now a bool or tristate that is n (`SyncDeps.TypeChangeIsMissed`); it is not in quotes, and the symbol is now a
  string that is not written (`SyncDeps.StringChangeIsMissed`); or it is in quotes that stand for the value of what is now
  a string symbol, but something follows them or is escaped without need (`SyncDeps.OddQuotesAreMissed`). The name of a
  symbol that is no longer defined is touched only if no expression refers to it any more
  (`SyncDeps.ReferencesHideVanishing`), although in either case it is no longer in `auto.conf` and source files may depend
  on it.
* A menu or comment whose title reads `CONFIG_FOO is not set` is written as a comment that the loader takes for
  an assignment (`FullConfig.TitleReadAsAssignment`), which can change a value (`FullConfig.TitleChangesValue`); the full
  round trip asks for titles that do not.
* A constant symbol is printed with `escape()`, which leaves `$(` alone: it is read back as itself, whatever macros expand
  to, if and only if it contains no `$(` (`QuotedNames.ReadBackUnlessMacro`). With one, the macro is expanded when it is
  read back, and one that is not closed goes on behind the closing quote (`QuotedNames.MacroNameIsExpanded`).
* The documentation says that an implicit submenu is created for `sym = m/y` and `sym != n`. As the conditions are
  grouped in the code, `sym != y` counts as well (`MenuFinalize.NotYIsShown`). So not everything in a submenu is hidden
  while its symbol is n: a condition is met then if and only if each of its conjuncts is `sym != y`, or is met and does
  not count as a dependency on the symbol (`MenuFinalize.SubmenuIsHidden`).

## Conditions that the theorems carry

* `CacheState.WellFormed`: a choice symbol mentions its choice, and choice defaults are symbols of the choice; the
  source warns otherwise and does not record every read. `ChoiceLaws.ChoicesGuarded`: all prompts of a choice symbol
  have the choice as a conjunct. Finalised trees give that if every node of a choice symbol with a prompt lies directly in
  its choice (`FinalisedLaws.FinalisedChoicesAreGuarded`); the source warns otherwise.
* `Evaluation.Evaluable`: the read relation is well-founded. `LoopFree.AcceptedEvaluates` derives it from acceptance
  by the loop check when neither kind of missed loop is there (`NoCrossing`, `NoReturn`) and MODULES depends on nothing
  tristate (its read by `type` is not in the graph).
* `RoundTrip.BoolOnly`: no tristates, no `option env` symbols, selects and implies only of bool symbols, and
  everything nested in a choice is a symbol of it. With tristates `default y` under m visibility is written as y and
  read back as m. `ConfigFile.Writable` adds that values contain no line break and that numbers do not end in white space.

## Model

| member | source | states |
|---|---|---|
| Engine.Kconfig.constructor | libs/menu/kconfiglib.py:1062-1076 | A configuration that has just been read: nothing cached, no user values, every recorded dependency in place, and the object invariant (all caches coherent) holds |
| Engine.Kconfig.ExprValue | libs/menu/kconfiglib.py:5790-5844 | Lazy evaluation of an expression gives what the rules give, keeps every cached value and the invariant |
| Engine.Kconfig.SymVisibility | libs/menu/kconfiglib.py:4380-4388 | The cached or freshly computed visibility is the one the rule gives; the caches it fills along the way are right |
| Engine.Kconfig.SymTriValue | libs/menu/kconfiglib.py:4290-4368 | The same for the tristate value, with the write flag |
| Engine.Kconfig.SymStrValue | libs/menu/kconfiglib.py:4149-4288 | The same for the string value: user value, range, default and clamping |
| Engine.Kconfig.SymAssignable | libs/menu/kconfiglib.py:4370-4377 | The same for the assignable values |
| Engine.Kconfig.Selection | libs/menu/kconfiglib.py:5043-5050 | The same for the selection of a choice |
| Engine.Kconfig.ChoiceAssignable | libs/menu/kconfiglib.py:5023-5030 | The same for the assignable modes |
| Engine.Kconfig.RecInvalidate | libs/menu/kconfiglib.py:4694-4723 | The walk that stops at items without a cached visibility terminates, and nothing that it leaves flagged depends on anything it visited |
| Engine.Kconfig.SetValue | libs/menu/kconfiglib.py:4458-4498 | Accepts exactly the values of the right form; the user choices and set flags afterwards are those of the specification, and no cache is stale |
| Engine.Kconfig.UnsetValue | libs/menu/kconfiglib.py:4500-4507 | Clears the user value and leaves no stale cache |
| Engine.Kconfig.SetMode | libs/menu/kconfiglib.py:5052-5092 | The same for the mode of a choice |
| Engine.Kconfig.UnsetMode | libs/menu/kconfiglib.py:5094-5101 | Clears mode and user selection and leaves no stale cache |
| Objects.BuildDep | libs/menu/kconfiglib.py:3346-3405 | Afterwards an item is among the dependents of another exactly if one of its properties mentions it |
| Objects.AddChoiceDeps | libs/menu/kconfiglib.py:3407-3419 | Adds exactly the choices to the dependents of their symbols |
| CacheState.ReadsAreRecorded | libs/menu/kconfiglib.py:3346-3419 | Everything a rule may read belongs to the item itself, to MODULES or to an item that records it as a dependent |
| Evaluation.ValuesAreTheSolution | libs/menu/kconfiglib.py:4136-4387 | Under a well-founded read relation the mutually recursive properties have exactly one solution |
| Evaluation.EvaluationTerminates | libs/menu/kconfiglib.py:4136-4387 | The recursive evaluator never meets an undefined value |
| Evaluation.CacheIsCorrect | libs/menu/kconfiglib.py:4149-4387 | Any consistent set of cached values agrees with the cache-free values |
| RuleLaws.VisibilityMeans | libs/menu/kconfiglib.py:6093-6120 | A symbol is as visible as the best of its prompts, m counting as y unless it is a tristate just now, and n in the wrong mode of its choice |
| RuleLaws.ChoiceVisibilityMeans | libs/menu/kconfiglib.py:6093-6120 | The same for a choice |
| RuleLaws.NumbersCompare | libs/menu/kconfiglib.py:5818-5844 | Two operands that are numbers compare as numbers, unless both are string symbols |
| RuleLaws.TextsCompare | libs/menu/kconfiglib.py:5818-5844 | All others compare as text: equality, or which comes first at the first difference |
| RuleLaws.ValueWithoutUser | libs/menu/kconfiglib.py:4326-4354 | Without a user value in effect: the largest of the selects, the implies if the direct dependencies are met, and the smaller of value and condition of the first default whose condition is met; m then becomes y for a bool or under an imply of y |
| RuleLaws.ValueWithUser | libs/menu/kconfiglib.py:4320-4324 | With one: the smaller of it and the visibility, unless a select gives more, with the same rounding |
| RuleLaws.UnmetImplyIsIdle | libs/menu/kconfiglib.py:4334-4339 | While the direct dependencies are not met, it makes no difference which value below y an imply has |
| RuleLaws.ChoiceSymbolMeans | libs/menu/kconfiglib.py:4356-4364 | A choice symbol is y exactly if it is visible as y and selected, and m exactly if it is visible as m and set by the user |
| RuleLaws.WrittenExactly | libs/menu/kconfiglib.py:4149-4368 | A symbol has a line if and only if it is visible, or a default, a select or a met imply gives it a value that is not n; a string, int or hex symbol if and only if it is visible or has a default whose condition is met |
| RuleLaws.NotNHasLine | libs/menu/kconfiglib.py:4390-4413 | A bool or tristate symbol that is not n always has the line that says so |
| RuleLaws.SelectionExactly | libs/menu/kconfiglib.py:5225-5254 | In y mode: the user selection if it is visible, else the symbol of the first default whose condition is met and whose symbol is visible, else the first visible symbol, else none; no selection in any other mode |
| RuleLaws.NumberMeans | libs/menu/kconfiglib.py:4165-4251 | An int or hex symbol has its user value if it is visible and the value lies in the first range whose condition is met; else the text of its default if that lies in the range, and else the printed bound that it is beyond |
| RuleLaws.ValueIsInRange | libs/menu/kconfiglib.py:4230-4251 | So the number of the value lies in the range, if the range is not empty and printed numbers are read back |
| RuleLaws.TextMeans | libs/menu/kconfiglib.py:4253-4263 | A string symbol has its user value while it is visible, and else the text of its default |
| Coherence.VisibilityIsAFlag | libs/menu/kconfiglib.py:4703-4723 | A cached value that depends on anything changeable implies a cached visibility: the claim behind the early stop |
| Coherence.WalkIsCoherent | libs/menu/kconfiglib.py:4694-4723 | After a walk that stops early, through choice and choice-symbol cycles, all remaining caches are right for the changed user values |
| Coherence.FillingIsCoherent | libs/menu/kconfiglib.py:4380-4388 | Storing what a rule gives keeps every other cache right |
| Runs.Run | libs/menu/kconfiglib.py:4149-4507 | In every interleaving of reads, assignments and loads every answer is the cache-free one for the user choices at that point |
| Runs.ReachableIsInState | libs/menu/kconfiglib.py:1197-1338 | Every reachable state has user values of the right form and satisfies the premises of the state laws |
| Runs.ChoicesAreExclusive | libs/menu/kconfiglib.py:5003-5020 | In every reachable state: y mode sets exactly one symbol to y if any is visible and none otherwise, m mode sets none to y, n mode sets all to n, and a visible choice is in a mode it could be assigned |
| ChoiceLaws.ModeIsAssignable | libs/menu/kconfiglib.py:5206-5223 | The mode of a visible choice is one of its assignable modes |
| ChoiceLaws.MemberVisibility | libs/menu/kconfiglib.py:6093-6120 | The visibility that a choice symbol can have in each mode |
| ChoiceLaws.SelectionIsVisibleMember | libs/menu/kconfiglib.py:5225-5254 | A selection exists only in y mode, is a visible symbol of the choice, and is missing only if none is visible |
| ChoiceLaws.YModeSetsExactlyTheSelection | libs/menu/kconfiglib.py:4356-4364 | In y mode a symbol is y exactly if it is the selection, else n |
| AssignableLaws.AssignableIsExact | libs/menu/kconfiglib.py:4642-4686 | The assignable values are exactly the values a valid assignment can give, if and only if it is not the case that visibility is m, a select m and an imply y |
| AssignableLaws.ExceptionOccurs | libs/menu/kconfiglib.py:4642-4686 | A configuration in which that case occurs |
| ChoiceAssignable.ChoiceAssignableIsExact | libs/menu/kconfiglib.py:5206-5223 | The assignable modes of a visible choice are exactly those that a valid assignment can put it in |
| ChoiceAssignable.ModeWithoutUser | libs/menu/kconfiglib.py:5003-5020 | Left alone, a choice is n if it is optional, and otherwise as low as its visibility and type allow |
| ChoiceAssignable.AssigningYSelects | libs/menu/kconfiglib.py:4488-4494 | Assigning y to a visible symbol of a choice in y mode selects it and makes it y |
| ChoiceAssignable.LowModeIsExact | libs/menu/kconfiglib.py:4642-4686 | In m mode the assignable values of a choice symbol, n and m, are exactly those it can be given |
| ChoiceAssignable.AcceptedExactly | libs/menu/kconfiglib.py:4466-4486 | Exactly these values are accepted for each type, and stored in this form |
| Locality.AssignmentIsLocal | libs/menu/kconfiglib.py:4694-4723 | An assignment changes nothing outside the transitive dependents of the symbol or its choice |
| Locality.OwnInputsUnchanged | libs/menu/kconfiglib.py:4415-4498 | Assigning any symbol any value of the right form changes neither its visibility nor anything its value is computed from; in a choice, neither the mode nor the visibility of any symbol of the choice |
| Locality.AssignableUnchanged | libs/menu/kconfiglib.py:4642-4686 | Nor its assignable values, for a choice symbol as long as what selects or implies it (which the source warns about) does not depend on the assignment |
| ConfigText.EscapeRoundTrip | libs/menu/kconfiglib.py:5978-5996 | An escaped string in quotes is matched up to the closing quote, whatever follows, and unescapes to the original |
| ConfigFile.EntryReadBack | libs/menu/kconfiglib.py:4390-4413 | Reading the line written for a symbol assigns exactly its value |
| ConfigFile.LoadingReproduces | libs/menu/kconfiglib.py:1197-1338 | Loading a file made of symbol entries and harmless text with replace, from any user values, reproduces every value and selection if only symbols at their defaults are left out |
| RoundTrip.ReproducedIsEnough | libs/menu/kconfiglib.py:4290-4368 | By induction along the read relation: user choices that keep the visible values and selections give the same values everywhere |
| ConfigIO.ConfigLine | libs/menu/kconfiglib.py:4390-4413 | The line for a symbol, computed through the caches, is the one for its cache-free value and write flag |
| ConfigIO.DefaultText | libs/menu/kconfiglib.py:4747-4780 | The default value used for minimal configurations is that of the specification |
| ConfigIO.MinConfigContents | libs/menu/kconfiglib.py:1591-1623 | Writes the header and exactly the entries that may not be omitted |
| ConfigIO.MinConfigSuffices | libs/menu/kconfiglib.py:1564-1566 | Loading a minimal configuration with replace reproduces the value of every symbol and the selection of every choice |
| MinimalLaws.MinimalHasTheRest | libs/menu/kconfiglib.py:1591-1623 | A minimal configuration has entries for exactly the symbols that are not left out, in order |
| MinimalLaws.OmittedTri | libs/menu/kconfiglib.py:1598-1607 | A bool or tristate symbol is left out if a select covers its visibility or its value is the largest of selects, implies and the first default |
| MinimalLaws.OmittedText | libs/menu/kconfiglib.py:1598-1607 | Another symbol if its value is the text of its first default |
| MinimalLaws.OmittedChoiceSymbol | libs/menu/kconfiglib.py:1609-1618 | A choice symbol if it is n, or bool, y, and what a choice that is not optional picks by default |
| ConfigIO.LoadConfig | libs/menu/kconfiglib.py:1197-1338 | Loading leaves exactly the user choices of the specification: line by line, then everything not set by the file is unset |
| LoadLaws.AssignmentIsExact | libs/menu/kconfiglib.py:1228-1299 | A line assigns a value to a symbol if and only if it has the form of an assignment to its name with a text that means that value for its type, or says that a bool or tristate symbol is not set |
| LoadLaws.StringIsRead | libs/menu/kconfiglib.py:1265-1275 | A string value is what stands in quotes at the front of the text, with every quote and backslash in it escaped |
| LoadLaws.LastValueCounts | libs/menu/kconfiglib.py:1197-1338 | After a replacing load a symbol has the last acceptable value that the file assigns to it, or none |
| LoadLaws.LastModeCounts | libs/menu/kconfiglib.py:1301-1338 | A choice has the mode of the last acceptable m or y assigned to a symbol of it, and the last y as its selection |
| LoadHistory.ReplacingForgets | libs/menu/kconfiglib.py:1197-1338 | A replacing load gives what loading into an untouched configuration gives, if and only if no choice with a user selection has symbols that the file sets to m but never to y |
| LoadHistory.BoolLoadForgets | libs/menu/kconfiglib.py:1197-1338 | So without tristate choices the past never matters |
| LoadHistory.SelectionSurvives | libs/menu/kconfiglib.py:1323-1338 | A tristate choice, a user selection and a one-line file after which the selection is still there |
| ConfigWriter.ConfigContents | libs/menu/kconfiglib.py:1484-1555 | The text written while walking the linked tree is that of the events of the recursive traversal: entries once per symbol, headers and end comments of visible menus, blank lines |
| ConfigLayout.FullIsOrderly | libs/menu/kconfiglib.py:1533-1555 | Every symbol in the tree has exactly one entry, and everything else is the header, a blank line, the comment above a visible menu or comment, or the one at the end of a visible menu |
| ConfigLayout.EntriesInDefinitionOrder | libs/menu/kconfiglib.py:1533-1549 | The entries come in the order in which the symbols are first defined |
| ConfigLayout.HeadsInDefinitionOrder | libs/menu/kconfiglib.py:1551-1555 | Exactly the visible menus and comments have a comment above what they hold, in the order of the tree |
| ConfigLayout.MenusNest | libs/menu/kconfiglib.py:1519-1526 | The comments above and at the end of the visible menus nest like brackets, and every menu that is opened is closed |
| ConfigLayout.EntryStandsInItsMenus | libs/menu/kconfiglib.py:1509-1555 | The menus whose comments are open around an entry are exactly the visible menus around the first definition of the symbol |
| ConfigLayout.BlankAfterMenus | libs/menu/kconfiglib.py:1541-1549 | There is a blank line exactly where an entry with any text follows an end comment |
| FullConfig.HeaderIsInert | libs/menu/kconfiglib.py:1551-1555 | A menu comment says nothing to the loader exactly if its title line does not |
| FullConfig.TitleReadAsAssignment | libs/menu/kconfiglib.py:1551-1555 | The title that reads as "not set" is taken for an assignment |
| FullConfig.TitleChangesValue | libs/menu/kconfiglib.py:1551-1555 | A configuration with such a title in which a bool symbol is y, and n after saving and loading |
| FullConfig.FullConfigReproduces | libs/menu/kconfiglib.py:1484-1555 | Loading a full configuration with replace reproduces the value of every symbol and the selection of every choice |
| SyncDeps.AutoConfReadBack | libs/menu/kconfiglib.py:1727-1791 | auto.conf, read by a run with any other configuration, gives each symbol exactly what is recorded under its name; the vanished names are exactly the recorded ones that are neither defined nor referred to any more |
| SyncDeps.FlagsExactlyTheChanges | libs/menu/kconfiglib.py:1684-1725 | Over two runs, between which symbols may come, go and change in type and value, a symbol is touched if and only if its auto.conf entry differs and this is none of three cases of a changed type |
| SyncDeps.SameTypeMissesNothing | libs/menu/kconfiglib.py:1684-1725 | While a symbol keeps its type, and when it is new, none of the cases applies: touched if and only if the entry differs |
| SyncDeps.FlagsWhatReadsDifferently | libs/menu/kconfiglib.py:1684-1725 | For any types: touched if and only if what is recorded now differs from what is read back, and it is not a recorded n that is now the value of a bool or tristate symbol |
| SyncDeps.TypeChangeIsMissed | libs/menu/kconfiglib.py:1690-1697 | Two runs in which the entry of an int symbol is gone as it is a bool that is n, and the symbol is not touched |
| SyncDeps.StringChangeIsMissed | libs/menu/kconfiglib.py:1752-1757 | Two runs in which the entry of an int symbol is gone as it is a string that is not written, and the symbol is not touched |
| SyncDeps.OddQuotesAreMissed | libs/menu/kconfiglib.py:1752-1757 | Two runs in which the entry of a symbol differs, but unquotes to its new value, and the symbol is not touched |
| SyncDeps.ReferencesHideVanishing | libs/menu/kconfiglib.py:1749-1762 | The name of a recorded symbol that has vanished is touched if and only if nothing refers to it |
| SyncDeps.SecondRunFlagsNothing | libs/menu/kconfiglib.py:1684-1725 | A second run without a change touches no symbol and no name |
| SyncIO.SyncDependencies | libs/menu/kconfiglib.py:1684-1725 | On the objects: the symbols and vanished names whose files are touched, and the new auto.conf |
| MenuTree.Flatten | libs/menu/kconfiglib.py:6287-6313 | On the linked nodes: afterwards they represent the flattened tree, with correct parent links |
| MenuTree.FlattenedKeepsOrder | libs/menu/kconfiglib.py:6287-6313 | Flattening keeps the preorder sequence of the nodes |
| MenuTree.RemoveIfs | libs/menu/kconfiglib.py:6316-6339 | Afterwards the children are those that are not ifs, linked in order |
| Propagation.MakeAndMeans | libs/menu/kconfiglib.py:2739-2751 | The simplifying conjunction means the minimum in every valuation |
| Propagation.MakeOrMeans | libs/menu/kconfiglib.py:2753-2765 | The simplifying disjunction means the maximum in every valuation |
| Propagation.PropagateDeps | libs/menu/kconfiglib.py:3514-3564 | Every child has received the dependencies, and nothing below them has changed |
| Propagation.PropagationMeans | libs/menu/kconfiglib.py:3514-3564 | In every valuation, every prompt means the minimum of its own condition, the node's dependencies, every enclosing dependency (a choice counting by its mode) and every enclosing "visible if"; defaults, ranges, selects and implies the same without "visible if", in the same order |
| MenuFinalize.SubmenuIsHidden | libs/menu/kconfiglib.py:6250-6284 | While the symbol is n, a condition that puts something into its implicit submenu is met if and only if each conjunct is sym != y, or is met and does not count as a dependency; so it is not, unless some conjunct is sym != y |
| MenuFinalize.NotYIsShown | libs/menu/kconfiglib.py:6269-6271 | The condition "not y" counts as a dependency and holds while the symbol is n |
| SubmenuLaws.DependenceIsExact | libs/menu/kconfiglib.py:6250-6284 | A node depends on a symbol if and only if one of nine forms is a conjunct of its condition: the symbol, = m, = y, != n and != y in either order |
| SubmenuLaws.SubmenuIsExact | libs/menu/kconfiglib.py:3474-3490 | A symbol without children takes in exactly the longest run of the following trees that depend on it, each behind all that the one before has taken in |
| SubmenuLaws.ParentTakesNothing | libs/menu/kconfiglib.py:3450-3472 | A node with children takes in nothing that follows it; its children form one level of such runs |
| SubmenuLaws.FlattenedForm | libs/menu/kconfiglib.py:6287-6313 | After flattening, every tree on a level is one that was there and is not to be flattened, or a node without a prompt whose children now follow it |
| MenuFinalize.FinalisingKeepsOrder | libs/menu/kconfiglib.py:3436-3512 | Finalisation with implicit submenus, flattening and removal of ifs leaves every node that is not an if, in definition order, and no if |
| MenuFinalize.FinishLevelCollects | libs/menu/kconfiglib.py:3566-3597 | Every node adds its properties to its symbol exactly once, in definition order, whatever submenu it ends up in |
| MenuFinalize.CollectedInOrder | libs/menu/kconfiglib.py:3566-3587 | The defaults and ranges of a symbol are those of its nodes joined in definition order |
| MenuFinalize.DirectDepCoversNodes | libs/menu/kconfiglib.py:3580-3581 | The direct dependencies of a symbol are n only while those of all its nodes are |
| MenuFinalize.DirectDepMeans | libs/menu/kconfiglib.py:3580-3581 | They are the best of the dependencies of the nodes |
| MenuFinalize.VisibleMeetsDirectDep | libs/menu/kconfiglib.py:3566-3581 | A visible prompt implies that the direct dependencies are met |
| MenuFinalize.ReverseDepsMean | libs/menu/kconfiglib.py:3588-3597 | The reverse dependencies of a symbol mean the strongest select of it: the largest, over all nodes, of the smaller of the selecting symbol and the condition; the weak ones likewise for implies |
| TreeFinalizer.Finalizer.FinalizeTree | libs/menu/kconfiglib.py:3436-3512 | On the linked nodes: the tree, the parent links, the properties and the collected symbol properties are those of the specification |
| TreeFinalizer.Finalizer.AddPropsToSym | libs/menu/kconfiglib.py:3566-3597 | One node's properties reach its symbol, and its selects and implies their targets |
| TreeFinalizer.Finalizer.FinalizeTop | libs/menu/kconfiglib.py:1051-1052 | The whole tree: order kept, ifs gone, dependencies handed down, properties collected |
| FinalisedLaws.FinalisedPromptsNeedDeps | libs/menu/kconfiglib.py:3528-3538 | A finalised symbol satisfies the premise of the round trips: visible prompts imply its direct dependencies |
| FinalisedLaws.ContentsAreGuarded | libs/menu/kconfiglib.py:3517-3538 | The prompts of everything inside a choice, under ifs and menus too, are limited by the mode of the choice |
| FinalisedLaws.FinalisedChoicesAreGuarded | libs/menu/kconfiglib.py:6342-6354 | So the premise of the choice laws holds for a finalised tree in which the prompts of every choice symbol lie directly in its choice |
| MenuWalk.Walk | libs/menu/kconfiglib.py:1509-1531 | The walk along list, next and parent visits and leaves the nodes in the order of the recursive traversal, and ends |
| MenuWalk.NodeIter | libs/menu/kconfiglib.py:1816-1842 | Gives every node exactly once, in preorder |
| MenuWalk.WalkNests | libs/menu/kconfiglib.py:1509-1531 | Visits and leaves of any set of nodes with children nest like brackets |
| LoopCheck.LoopChecker.CheckAll | libs/menu/kconfiglib.py:1069-1072 | The search over all symbols gives the outcome of the specification, and terminates |
| LoopCheck.LoopChecker.CheckSym | libs/menu/kconfiglib.py:6370-6442 | One visit to a symbol does to the marks, and returns, what the specification says |
| LoopCheck.NeverLeftover | libs/menu/kconfiglib.py:1069-1072 | A top-level call never returns a partial loop |
| LoopCheck.ReportedLoopIsGenuine | libs/menu/kconfiglib.py:6479-6525 | The reported items form a loop along the edges of the search, and one of them leads back to itself through recorded dependencies, where the symbols of a choice count as one |
| LoopExactness.AcceptanceIsExact | libs/menu/kconfiglib.py:6370-6476 | No item leads back to itself through recorded dependencies, those of the choices included, if and only if the search accepts, no symbol of a choice leads to another symbol of it, and nothing else that mentions a choice leads back to it |
| CaughtLoops.FollowedLoopIsCaught | libs/menu/kconfiglib.py:6370-6476 | A loop that goes from symbols to their dependents and from choices to their symbols only is always reported |
| CaughtLoops.CrossingIsSeen | libs/menu/kconfiglib.py:6370-6476 | A symbol that leads to another symbol of its choice is reported when it is visited before the other one and the choice are done |
| CaughtLoops.CrossingIsCaught | libs/menu/kconfiglib.py:1069-1072 | So it is whenever no symbol defined before it leads to the other one |
| LoopExactness.MissedLoop | libs/menu/kconfiglib.py:6445-6466 | A loop through two symbols of a choice that is accepted |
| LoopExactness.CaughtLoop | libs/menu/kconfiglib.py:6445-6466 | The same with the symbols of the choice in the other order is reported |
| LoopExactness.ReturningLoop | libs/menu/kconfiglib.py:6445-6476 | A loop through a dependent of a choice that is not one of its symbols, also accepted |
| LoopFree.AcceptedEvaluates | libs/menu/kconfiglib.py:1054-1072 | An accepted configuration with neither kind of missed loop evaluates: visibility, value, selection and type of everything, under a rank by number of predecessors and, in a choice, choice visibility, symbol visibility, selection, value |
| MissedLoops.BlockedIsNeverComputed | libs/menu/kconfiglib.py:4136-4387 | Values each of which needs another one of them are reached by no sequence of computations |
| MissedLoops.CrossingNeverEnds | libs/menu/kconfiglib.py:1069-1072 | An accepted configuration and user choices under which no evaluation arrives at the selection of the choice |
| MissedLoops.CrossingIsAmbiguous | libs/menu/kconfiglib.py:5225-5254 | In that state the rules have two different solutions |
| MissedLoops.ReturningNeverEnds | libs/menu/kconfiglib.py:1069-1072 | An accepted configuration in which no evaluation arrives at the visibility of the choice, in any state |
| ExprSyntax.Parser.ParseExpr | libs/menu/kconfiglib.py:3254-3294 | The parser that advances an index gives what the grammar on token sequences gives, and stops behind it |
| ExprSyntax.PrintedIsReadBack | libs/menu/kconfiglib.py:5863-5904 | Parsing a printed choice-free expression succeeds, uses up all tokens, and gives the same lists of operands and the same value in every state |
| ExprSyntax.PrintedAlike | libs/menu/kconfiglib.py:5863-5904 | Expressions that print alike mean the same |
| ExprSyntax.SplitAndKept | libs/menu/kconfiglib.py:5933-5975 | The operand list of a conjunction survives printing and parsing, operand by operand |
| ExprSyntax.ConditionsAreRewritten | libs/menu/kconfiglib.py:3306-3340 | Parsing a condition is parsing and then replacing every single m by m && MODULES |
| ExprSyntax.ShortCircuitIsHarmless | libs/menu/kconfiglib.py:5802-5817 | Short-circuit evaluation gives minimum, maximum and 2 - x |
| Macro.Expander.ExpandWhole | libs/menu/kconfiglib.py:2543-2556 | Rewriting the string while scanning it gives the piecewise expansion, or raises when that does; the counters are restored; it terminates |
| Macro.Expander.ExpandMacro | libs/menu/kconfiglib.py:2626-2678 | The text before the macro is unchanged, its value follows, then the rest; the index is behind the value |
| Macro.Expander.FunctionValue | libs/menu/kconfiglib.py:2680-2733 | The value of a function, variable or environment variable, or an error for recursion and wrong numbers of arguments |
| Macro.Expander.ExpandStr | libs/menu/kconfiglib.py:2593-2624 | Expanding a quoted string in place gives its unescaped and expanded text between the text before it and what follows, and the index behind the closing quote |
| MacroLaws.MacroStandsAlone | libs/menu/kconfiglib.py:2626-2678 | Where a macro ends and what its value is does not depend on what follows it, with any nesting |
| MacroLaws.ValueIsKept | libs/menu/kconfiglib.py:2543-2556 | The first macro of any text is replaced by its value and expansion goes on behind it, with any text there: the value is not expanded again |
| MacroLaws.ArgumentsAreSplit | libs/menu/kconfiglib.py:2626-2678 | A macro is called with its name and arguments as split at the commas |
| MacroLaws.ParameterIsArgument | libs/menu/kconfiglib.py:2658-2668 | A number in the value of a variable stands for the argument of that number, from the end if negative |
| MacroLaws.NamesInOrder | libs/menu/kconfiglib.py:2680-2733 | A variable hides a function and an environment variable of its name and may be nested only so deep; a function raises for a wrong number of arguments; an unknown name is empty |
| MacroLaws.SelfReferenceRaises | libs/menu/kconfiglib.py:2689-2699 | A variable defined as a reference to itself always raises |
| QuotedNames.QuotedNameReadBack | libs/menu/kconfiglib.py:5854-5858 | A constant symbol printed in quotes is read back as itself if it has no macro in it |
| QuotedNames.MacroNameIsExpanded | libs/menu/kconfiglib.py:2618-2620 | A constant with a macro anywhere in it, of whatever form, is read back as the text before the first macro and then what that and the rest expand to |
| QuotedNames.ReadBackUnlessMacro | libs/menu/kconfiglib.py:5854-5858 | A constant printed in quotes is read back as itself whatever macros expand to, if and only if it has no macro in it |
| QuotedNames.FastPath | libs/menu/kconfiglib.py:2324-2331 | Without dollar signs and backslashes the slow path gives what the search for the closing quote gives |

## Left out

* Warnings, messages and the values that are read only to print them; `__repr__`, `__str__` and `custom_str`.
* Files, `srctree`, `source` statements, encodings, `_save_old`, `_write_if_changed`: a file is its text or its
  lines, and touched files are a set of names.
* The tokenizer and the parser of blocks and properties: expressions start from tokens, menus from a parsed tree.
  Printing an expression gives tokens, not the string.
* Python's `int()`: number parsing and printing are parameters about which nothing is assumed. Reading a number
  in the macro preprocessor is a parameter, too.
* `os.path.expandvars` and `$UNAME_RELEASE` in quoted strings.
* `$(shell,...)`, environment variables and user functions: a table of functions whose results are given.
* `allnoconfig`, `defconfig_list`, `option env` and the tools around the engine (`menuconfig`, `blfs.py`, the XML
  helpers, the scripts): the symbols concerned are only known not to be written.
* `_finalize_choice`, the `defaults` and `direct_dep` of choices, and `_check_sym_sanity`: that choices and their
  symbols refer to each other, and that choice defaults are symbols of the choice, are premises.
* The order in which a set of dependents is enumerated: invalidation is proved for any order, and the loop check
  takes the order as part of the graph.
* Symbols that are referred to but not defined: texts in expressions, and for `sync_deps()` a set of names that is a
  parameter.
* Choice symbols none of whose prompts mentions the choice (all outside it, or all with a condition that simplifies
  to n): `WellFormed` excludes them.
* MenuTree.Flatten: the loops of `_flatten`, `_propagate_deps`, `_finalize_tree` and the outer loop of `_remove_ifs`
  follow `next` by recursion instead; the nodes, fields and assignments are those of the source.
* ConfigWriter.ConfigContents: the walk gathers the nodes it visits and leaves first, and the text is written from
  them afterwards; the source does both in one loop.
* LoopFree.AcceptedEvaluates: the converse does not hold, as the recorded dependencies are more than the reads.
* CaughtLoops.CrossingIsCaught: the condition on the order is sufficient. Whether any other loop through two symbols of a
  choice is found depends on the order in which everything is visited.
* Locality.AssignableUnchanged: for a choice symbol that is selected or implied by something that depends on its own
  value nothing is stated; the source warns that select and imply have no effect on choice symbols.
* Macro.Expander.ExpandStr: the body of the loop is a method of its own.
* Macro.Expander.FunctionValue: what the counters are after an error is not stated; the source leaves them as they are.
