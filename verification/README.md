# Solaya: verified models

Solaya is a RISC-V kernel with its own configuration engine (kconfiglib) and test
harness. This project models the parts of it where correctness depends on several
functions working together, and proves what they promise, for all inputs and all runs.

- **Configuration engine.** `KconfigModel` is the configuration and its evaluation,
  written once as a step that also reports which cached attributes it looked at.
  `KconfigReference` is evaluation from scratch, `KconfigLaws`, `KconfigValues`,
  `KconfigExpr` and `KconfigAssignable` what it promises, `KconfigInvalidation` why pruned invalidation is sound,
  `KconfigCache` the engine with its caches, `KconfigChoice` and
  `KconfigHistory` what choices guarantee, `KconfigRoundTrip`, `KconfigFiles`,
  `KconfigLoaded`, `KconfigMinimal` and `KconfigStranded` writing and loading
  configurations, `DepLoop` and `DepLoopChoice` loop detection,
  `KconfigOrder`, `KconfigLoops`, `KconfigApart` and `KconfigMissed` what a passed loop
  check means for evaluation, `KconfigSyntax` and `KconfigGrammar` expressions as text,
  `KconfigPropagation` and `KconfigAssembled` dependency propagation, `MenuTree`,
  `MenuPlaces` and `MenuLinks` the menu tree as a value and as links rewired in place.
- **Memory.** `PageAllocator` and `PageInit` are the page status array, `Heap` (module
  `KernelHeap`) the free-list heap on top of it.
- **Network driver.** `DmaMemory` is memory with a write-back cache in front of it,
  `DwmacTx`, `DwmacTxCall`, `DwmacRx`, `DwmacRxCall`, `DwmacRxStale` and `DwmacSetup` the
  descriptor rings against the device, at the granularity of single accesses and cache
  line movements.
- **Kernel.** `Spinlock`, `SpinlockProgress` and `KernelPanic` are state machines over atomic steps.
- **Test harness.** `ReadAsserter` waits for output.

## Where the code differs from what one would expect

- Writing and loading a bool configuration does not always restore it: an optional
  choice in y mode whose members are all invisible leaves no line. `RoundTrip` gives the
  exact condition, `SymbolValueLost` an example.
- The ring setup flushes descriptors only. Buffers zeroed through the cache can still be
  dirty then, and a late write-back makes the driver return a frame that never arrived.
  `ReturnedIffClean` gives the exact condition, by a run from every such start.
- Loop detection misses loops of three kinds: through the selection of a choice, however
  the choice is entered (`LoopMissed`, `LoopMissedInside`), through MODULES as the decider
  of a type (`ModulesLoopUnseen`), and through the mode of a choice as seen by something
  inside it that is not one of its symbols (`ModeLoopUnseen`). `PassedCheckExact` shows
  that these are all, and when a configuration that passes can be evaluated.
- `assignable` is wrong for a symbol with visibility m that is selected to m and implied
  to y: it lists m, and every assignment comes out as y (`AssignableExact`,
  `AssignableWrong`).
- The forced unlock of the panic path is safe exactly while no running CPU holds the lock
  (`ForceUnlockKeeps`, `ForcedOnLiveHolder`).
- The double-panic counter has 8 bits and wraps (`BacktraceOnce`, `SecondBacktrace`).
- A timeout that strikes between reading a piece and appending it loses that piece.
  `ReadUntil` says when, and `LosingCall` is such a call.
- Page allocator set-up fails on some regions that are not page-aligned and not on others
  (`InitAssertsExact`).
- Freeing anything but the start of a run breaks the page status array
  (`FreeKeepsEncoding`).

## Model

| member | source | states |
|---|---|---|
| `KconfigReference.StepCong` | tools/kconfiglib/kconfiglib.py:4287-4523 | Evaluating one attribute depends on nothing but the attributes it really looks at (short-circuits included) and the user data of its own object: two states that agree there give the same value and look at the same attributes |
| `KconfigReference.StepStatic` | tools/kconfiglib/kconfiglib.py:4287-4523 | Whatever the values are, evaluation never looks outside the attributes that the configuration text mentions for that object |
| `KconfigReference.ReferenceSolves` | tools/kconfiglib/kconfiglib.py:4428-4523 | On a loop-free configuration, evaluation from scratch is well defined: there is a valuation in which every attribute equals its own evaluation step |
| `KconfigReference.SolutionUnique` | tools/kconfiglib/kconfiglib.py:4428-4523 | That valuation is the only one: any consistent assignment of attribute values equals it |
| `KconfigInvalidation.ReadsAreRegistered` | tools/kconfiglib/kconfiglib.py:3466-3539 | Every attribute another object's evaluation may read belongs to an object that has the reader among its `_dependents` (or is MODULES, whose change drops everything) |
| `KconfigInvalidation.SoundExtend` | tools/kconfiglib/kconfiglib.py:4428-4523 | Caching a freshly computed attribute keeps the cache sound: every cached value is the from-scratch value, everything it was computed from is cached, and so is its object's visibility |
| `KconfigInvalidation.SurvivorReadsSurvivors` | tools/kconfiglib/kconfiglib.py:4865-4894 | Although invalidation stops at objects without a cached visibility, what stays cached was computed only from attributes that stay cached |
| `KconfigInvalidation.SurvivorUnchanged` | tools/kconfiglib/kconfiglib.py:4865-4894 | What stays cached has the same from-scratch value before and after the assignment |
| `KconfigInvalidation.InvalidationSound` | tools/kconfiglib/kconfiglib.py:4859-4894 | After an assignment and the pruned invalidation, the remaining cache is sound for the new user values |
| `KconfigCache.Kconfig.Store` | tools/kconfiglib/kconfiglib.py:4428-4523 | A computed attribute is added to the cache and the object stays valid |
| `KconfigCache.Kconfig.ExprValue` | tools/kconfiglib/kconfiglib.py:5988-6042 | Evaluating an expression through the cache returns the from-scratch value and only adds sound entries |
| `KconfigCache.Kconfig.Visibility` | tools/kconfiglib/kconfiglib.py:6286-6313 | Cached visibility of a symbol or choice equals evaluation from scratch |
| `KconfigCache.Kconfig.TriValue` | tools/kconfiglib/kconfiglib.py:4428-4505 | Cached tristate value equals evaluation from scratch; the recursion through other symbols terminates on loop-free configurations |
| `KconfigCache.Kconfig.StrValue` | tools/kconfiglib/kconfiglib.py:4287-4425 | Cached string value, with ranges and defaults, equals evaluation from scratch |
| `KconfigCache.Kconfig.SelectionValue` | tools/kconfiglib/kconfiglib.py:5424-5453 | Cached choice selection equals evaluation from scratch |
| `KconfigCache.Kconfig.RecInvalidate` | tools/kconfiglib/kconfiglib.py:4865-4894 | Recursive invalidation terminates, also through the cycles between choices and their symbols, and drops a set of objects closed under cached dependents |
| `KconfigCache.Kconfig.InvalidateIfPrompted` | tools/kconfiglib/kconfiglib.py:4896-4916 | Skipping the invalidation of a symbol without a prompt is sound, because its user value cannot be visible |
| `KconfigCache.Kconfig.InvalidateChoice` | tools/kconfiglib/kconfiglib.py:5455-5466 | Invalidating a choice keeps the cache sound for the new mode |
| `KconfigCache.Kconfig.SetValue` | tools/kconfiglib/kconfiglib.py:4558-4645 | Rejects exactly the values the type does not allow; otherwise the user values become the new ones (a y on a choice symbol selects it) and the cache is sound for them |
| `KconfigCache.Kconfig.UnsetValue` | tools/kconfiglib/kconfiglib.py:4647-4654 | Removes the user value and leaves a cache that is sound without it |
| `KconfigCache.Kconfig.SetMode` | tools/kconfiglib/kconfiglib.py:5244-5283 | Choice mode assignment, with its acceptance test, leaves a sound cache |
| `KconfigCache.Kconfig.UnsetMode` | tools/kconfiglib/kconfiglib.py:5285-5292 | Removing mode and selection leaves a sound cache |
| `KconfigCache.Kconfig.Do` | tools/kconfiglib/kconfiglib.py:4558-4654 | Any one public operation answers what evaluation from scratch answers and leaves the object valid |
| `KconfigCache.Kconfig.Run` | tools/kconfiglib/kconfiglib.py:4859-4894 | Over any sequence of assignments and reads, every single answer equals evaluation from scratch on the user values at that moment |
| `KconfigLaws.VisibilityLaw` | tools/kconfiglib/kconfiglib.py:6286-6313 | Outside choices, visibility is the largest prompt condition, m counting as y for what is not a tristate; it is not n exactly if some prompt condition is not n |
| `KconfigAssignable.EvaluatedAlike` | tools/kconfiglib/kconfiglib.py:4428-4523 | If two users agree on all that is evaluated before a point, everything up to that point evaluates alike: an assignment only reaches what depends on it |
| `KconfigAssignable.AssignableExact` | tools/kconfiglib/kconfiglib.py:4813-4853 | For a visible bool or tristate symbol outside choices, `assignable` lists exactly the values that an assignment followed by evaluation from scratch gives back, if and only if the symbol is not selected to m and implied to y with visibility m; what is listed is always valid for the type |
| `KconfigAssignable.AssignableWrong` | tools/kconfiglib/kconfiglib.py:4813-4853 | A concrete configuration in that state: `assignable` is m alone, and the symbol is y whatever it has been assigned |
| `KconfigAssignable.MemberAssignable` | tools/kconfiglib/kconfiglib.py:4813-4853 | A y-visible choice symbol can be assigned y, and is then the selection of its choice and y |
| `KconfigAssignable.ModeAssignableExact` | tools/kconfiglib/kconfiglib.py:5405-5422 | For a visible choice, `assignable` lists exactly the modes that setting the mode and evaluating from scratch gives back |
| `KconfigAssembled.UnmetIsN` | tools/kconfiglib/kconfiglib.py:3637-3720 | In every configuration that propagation produces, a symbol outside choices whose direct dependencies are n is n unless it is selected, whatever the user, its defaults and its implies say |
| `KconfigLaws.SelectsHold` | tools/kconfiglib/kconfiglib.py:4478-4492 | In every consistent valuation a symbol is at least what selects it, and what is not a tristate is never m |
| `KconfigLaws.InvisibleIgnoresUser` | tools/kconfiglib/kconfiglib.py:4428-4470 | Assignments to a symbol that is not visible make no difference to its values |
| `KconfigLaws.RangeRespected` | tools/kconfiglib/kconfiglib.py:4311-4400 | The value of an int or hex symbol is inside its active range, whether it comes from the user, a default or nowhere |
| `KconfigLaws.ModeLaw` | tools/kconfiglib/kconfiglib.py:5190-5207 | A choice leaves n mode exactly if it is visible and either not optional or set, never exceeds its visibility unless it is bool, and then is never in m mode |
| `KconfigValues.DefaultLaw` | tools/kconfiglib/kconfiglib.py:4456-4492 | By position: without a visible user value a symbol outside choices has the value of the first default whose condition is not n, limited by it, raised by implies if its direct dependencies are met and by selects; it is written exactly if it is visible, or has such a value, or is implied or selected |
| `KconfigValues.StringLaw` | tools/kconfiglib/kconfiglib.py:4396-4425 | By position: a string symbol has the user's string if it is visible and has one, otherwise the text of the first default whose condition is not n, otherwise nothing, and is written exactly in the first two cases or if visible |
| `KconfigValues.NumberLaw` | tools/kconfiglib/kconfiglib.py:4311-4394 | By position: an int or hex symbol has the user's string if it is visible and that is not empty and inside the first range that applies, otherwise the text of its first applicable default if that is inside, and otherwise the bound that is exceeded |
| `KconfigValues.ShownText` | tools/kconfiglib/kconfiglib.py:4287-4310 | Bool and tristate symbols read as n, m or y and are written with their tristate value, symbols without a type read as their name, and what is not bool or tristate has the tristate value n |
| `KconfigValues.MemberVisibilityLaw` | tools/kconfiglib/kconfiglib.py:6286-6313 | The visibility of a choice symbol is its largest prompt condition, except that a non-tristate symbol shows in a tristate choice only in y mode, and that m becomes n in y mode and y for what is not a tristate |
| `KconfigValues.ChoiceVisibilityLaw` | tools/kconfiglib/kconfiglib.py:6286-6313 | The visibility of a choice is its largest prompt condition, m counting as y unless it is a tristate choice at the moment |
| `KconfigValues.SelectionLaw` | tools/kconfiglib/kconfiglib.py:5424-5453 | By position: in y mode a choice selects the user's selection if visible, else the symbol of the first default whose condition is not n and whose symbol is visible, else its first visible symbol, else nothing; in other modes nothing |
| `KconfigExpr.Connectives` | tools/kconfiglib/kconfiglib.py:5988-6016 | Short-circuits make no difference: conjunction is the minimum and disjunction the maximum of both operands; negation reverses the order, is its own inverse and obeys De Morgan's law |
| `KconfigExpr.StringOrder` | tools/kconfiglib/kconfiglib.py:6361-6365 | The comparison of strings is the lexicographic total order: decided by the first difference, a prefix first, 0 exactly for equal strings |
| `KconfigExpr.RelationLaw` | tools/kconfiglib/kconfiglib.py:6018-6042 | All six relations hold by number if both sides are numbers and not both string symbols, and otherwise by text |
| `KconfigExpr.Turned` | tools/kconfiglib/kconfiglib.py:6018-6042 | Less and greater are each other's converse, equality is symmetric and reflexive |
| `DepLoop.ReportedIsLoop` | tools/kconfiglib/kconfiglib.py:6559-6714 | With choices or without, every reported tuple is a cycle of the searched graph: each element depends on the next and the last on the first, and at least one of these dependencies is a registered one and not that of a choice and its symbols on each other |
| `DepLoop.CleanIsRanked` | tools/kconfiglib/kconfiglib.py:6559-6665 | On every graph, choices included, a clean search yields a ranking in which what depends on a symbol, or is a symbol of a choice, ranks strictly lower than it |
| `DepLoop.CleanHasNoLoop` | tools/kconfiglib/kconfiglib.py:6559-6665 | So a clean search leaves no cycle made of `_dependents` and of steps from a choice to its symbols |
| `DepLoop.RankedHasNoLoop` | tools/kconfiglib/kconfiglib.py:6559-6631 | A ranked graph has no such cycle of any length |
| `DepLoop.RaisesIffLoop` | tools/kconfiglib/kconfiglib.py:6559-6665 | On every graph: an error means there is a cycle, and every cycle left by a clean search goes from some symbol to its choice; without choices the search raises if and only if there is a cycle |
| `DepLoopChoice.ChoiceEntered` | tools/kconfiglib/kconfiglib.py:6559-6665 | A clean visit of a symbol has visited its dependents, its choice, and through it every other symbol of the choice |
| `DepLoopChoice.SiblingFound` | tools/kconfiglib/kconfiglib.py:6602-6665 | Visiting a symbol of a choice that has not been entered raises if another symbol of the choice depends on it, over any chain of unvisited symbols |
| `DepLoopChoice.FirstSiblingFound` | tools/kconfiglib/kconfiglib.py:6559-6665 | If the first symbol is in a choice and another symbol of it depends on it over any chain of `_dependents`, the whole search raises, with a real cycle |
| `DepLoopChoice.LoopFound` | tools/kconfiglib/kconfiglib.py:6559-6665 | A concrete graph on which only the step into the choice finds the loop |
| `DepLoop.LoopChecker.CheckSym` | tools/kconfiglib/kconfiglib.py:6559-6631 | The recursive method that colours in place terminates and does what the search is specified to do, choices and their flags included |
| `DepLoop.LoopChecker.CheckChoice` | tools/kconfiglib/kconfiglib.py:6634-6665 | The same for entering a choice, skipping the symbol it was entered from |
| `DepLoop.LoopChecker.CheckAll` | tools/kconfiglib/kconfiglib.py:1117-1120 | Ends with a real cycle or clean, and clean rules out every cycle of dependents and steps from a choice to its symbols, and without choices every cycle |
| `KconfigOrder.OrderIffNoCircle` | tools/kconfiglib/kconfiglib.py:4287-4523 | A configuration can be evaluated in some order if and only if no attribute reads itself through others |
| `KconfigLoops.ReadKinds` | tools/kconfiglib/kconfiglib.py:3466-3539 | Every read is one of four kinds: of the object's own attributes, of what is registered when the check runs, of a choice symbol's visibility for the selection, or of MODULES for a type |
| `KconfigLoops.SearchedDescends` | tools/kconfiglib/kconfiglib.py:6559-6665 | After a clean search every read that the search follows goes down in the order of finishing |
| `KconfigLoops.PassedCheckExact` | tools/kconfiglib/kconfiglib.py:1117-1120 | A configuration that passes, choices and tristates included, can be evaluated if and only if no choice symbol is visible because of the value that the selection gives to one of them, MODULES does not depend on what looks at MODULES for a type, and no choice depends on what looks at its mode from outside: these three are exactly the loops that are missed |
| `KconfigLoops.PassedCheckWithoutChoices` | tools/kconfiglib/kconfiglib.py:1117-1120 | Without choices a configuration that passes can be evaluated if and only if MODULES does not depend on what looks at MODULES for a type |
| `KconfigApart.PassedCheckEvaluates` | tools/kconfiglib/kconfiglib.py:1117-1120 | Read off the written dependencies: a configuration that passes, in which symbols of a choice do not depend on one another, a choice not on itself and MODULES not on itself even for a type, has one consistent valuation for every user |
| `KconfigApart.PassedCheckWithModules` | tools/kconfiglib/kconfiglib.py:1117-1120 | Without choices it is enough that MODULES does not depend on itself once every tristate counts as depending on MODULES, so tristate symbols beside a bool MODULES are fine |
| `KconfigMissed.LoopMissed` | tools/kconfiglib/kconfiglib.py:6634-6665 | A loop through a selection that the search misses, entered from outside the choice: the configuration passes and has no order of evaluation, and once the user sets SWITCH to y three values are each looked up to compute the next |
| `KconfigMissed.LoopMissedInside` | tools/kconfiglib/kconfiglib.py:6634-6665 | The same loop missed when it is entered from a symbol of the choice, with no choice among any dependents |
| `KconfigMissed.ModeLoopUnseen` | tools/kconfiglib/kconfiglib.py:6634-6665 | A loop through the mode of a choice that the search misses: a symbol in a menu inside the choice decides the visibility of the choice |
| `KconfigMissed.ModulesLoopUnseen` | tools/kconfiglib/kconfiglib.py:4274-4284 | A loop through a type that the search misses: a tristate MODULES defaulting to m passes the check, and computing its value looks up its own value |
| `KconfigChoice.MemberVisibility` | tools/kconfiglib/kconfiglib.py:6286-6313 | Choice symbols are visible to at most the mode of the choice and never half visible in y mode |
| `KconfigChoice.SelectionVisible` | tools/kconfiglib/kconfiglib.py:5424-5453 | In y mode the selection is a visible member if there is one, and none otherwise |
| `KconfigChoice.ChoiceModes` | tools/kconfiglib/kconfiglib.py:4494-4505 | In n mode all members are n, in m mode none is y, in y mode exactly one is y and the rest n, unless no member is visible |
| `KconfigHistory.ChoiceModesAlways` | tools/kconfiglib/kconfiglib.py:5190-5207 | The same after every history of assignments, starting from nothing set |
| `KconfigFiles.ConfigString` | tools/kconfiglib/kconfiglib.py:4526-4549 | The line a symbol gets, or none, is the one determined by its from-scratch value |
| `KconfigFiles.WriteConfig` | tools/kconfiglib/kconfiglib.py:1583-1656 | The written configuration is exactly the lines of the written symbols, in order, whatever is cached |
| `KconfigFiles.NotDefaultValue` | tools/kconfiglib/kconfiglib.py:1695-1730 | Decides whether a value differs from the one its defaults alone would give |
| `KconfigFiles.WriteMinConfig` | tools/kconfiglib/kconfiglib.py:1695-1730 | The minimal configuration is exactly the lines of the symbols that differ from their defaults |
| `KconfigFiles.LoadOneLine` | tools/kconfiglib/kconfiglib.py:1247-1366 | Loading one assignment has exactly the effect of the corresponding operation on the user values |
| `KconfigFiles.LoadConfig` | tools/kconfiglib/kconfiglib.py:1247-1366 | Loading a file assigns its lines and unsets every symbol and choice it does not mention |
| `KconfigRoundTrip.LoadedMatches` | tools/kconfiglib/kconfiglib.py:1247-1366 | After loading what was written, the user values are exactly those the lines carry, whatever was set before |
| `KconfigRoundTrip.CellRestored` | tools/kconfiglib/kconfiglib.py:4428-4505 | With no stranded choice, every attribute of a bool configuration is back to its value before writing |
| `KconfigRoundTrip.StrandedLost` | tools/kconfiglib/kconfiglib.py:5190-5207 | An optional choice in y mode without a visible member leaves no line behind and comes back in n mode |
| `KconfigRoundTrip.RoundTrip` | tools/kconfiglib/kconfiglib.py:1583-1730 | For every bool configuration, user assignment, previous state, and either file form: loading restores all symbol values and choice modes if and only if no choice is stranded |
| `KconfigStranded.SymbolValueLost` | tools/kconfiglib/kconfiglib.py:1583-1730 | A concrete configuration, as propagation leaves it, where a symbol is y when written and n when loaded again |
| `KconfigFiles.SaveAndRestore` | tools/kconfiglib/kconfiglib.py:1247-1366 | On one engine: write, do anything at all, load; every symbol reads as it did when it was written |
| `KconfigLoaded.LoadedByPosition` | tools/kconfiglib/kconfiglib.py:1247-1366 | After loading, a symbol has the value of the last line that its type accepts, and no user value if there is none, whatever was set before |
| `KconfigLoaded.ChoiceLoadedByPosition` | tools/kconfiglib/kconfiglib.py:1290-1366 | After loading, a choice has the symbol of the last y line as its selection, the value of the last line that is not n as its mode if its type allows that, and neither if none of its symbols has such a line |
| `KconfigMinimal.MinimalLine` | tools/kconfiglib/kconfiglib.py:1695-1730 | Outside choices the minimal configuration leaves out exactly the symbols that are not written, are held by selects, or have the value that selects, implies and the first applicable default give |
| `KconfigMinimal.MinimalMemberLine` | tools/kconfiglib/kconfiglib.py:1695-1730 | Of the choice symbols it leaves out exactly those that are not written, are n, or are y bools that a choice which is not optional would select by its defaults |
| `KconfigSyntax.SameMeaning` | tools/kconfiglib/kconfiglib.py:5988-6042 | Re-associating && and || chains to the right changes neither the value nor which attributes evaluation looks at, under every valuation |
| `KconfigSyntax.SamePrint` | tools/kconfiglib/kconfiglib.py:6060-6101 | The right-associated form prints as the same tokens |
| `KconfigSyntax.ExprBack` | tools/kconfiglib/kconfiglib.py:3376-3460 | Parsing the tokens of a printed expression gives its right-associated form and consumes exactly those tokens |
| `KconfigSyntax.PrintParse` | tools/kconfiglib/kconfiglib.py:6060-6101 | Print then parse: same value under every valuation, and printing again gives the same tokens |
| `KconfigSyntax.ExprKeeps` | tools/kconfiglib/kconfiglib.py:3376-3460 | On every token list that parses, not only printed ones, the expression reads like the consumed tokens with the parentheses taken out |
| `KconfigGrammar.AndBindsTighter` | tools/kconfiglib/kconfiglib.py:3376-3460 | Any list of factors joined by && and || without parentheses parses to the disjunction of its conjunctions, both nested to the right |
| `KconfigGrammar.OrOfAnd` | tools/kconfiglib/kconfiglib.py:3376-3460 | For instance a || b && c |
| `KconfigGrammar.ExprMatches` | tools/kconfiglib/kconfiglib.py:3376-3460 | Whatever parses has matching parentheses |
| `KconfigSyntax.TransformAfterwards` | tools/kconfiglib/kconfiglib.py:3426-3448 | Rewriting m to m && MODULES while parsing equals rewriting afterwards, and never changes what is accepted |
| `KconfigSyntax.TransformedValue` | tools/kconfiglib/kconfiglib.py:3426-3448 | A rewritten m is n while MODULES is n and m otherwise |
| `KconfigSyntax.Parser.Expression` | tools/kconfiglib/kconfiglib.py:3376-3415 | The method that advances the shared token index does what the grammar says, or reports the error |
| `KconfigSyntax.Parser.AndExpr` | tools/kconfiglib/kconfiglib.py:3417-3424 | The same for && chains |
| `KconfigSyntax.Parser.Factor` | tools/kconfiglib/kconfiglib.py:3426-3460 | The same for symbols, relations, negations and parentheses |
| `KconfigPropagation.MakeValues` | tools/kconfiglib/kconfiglib.py:2863-2889 | The simplifying constructors of && and || keep the value under every valuation |
| `KconfigPropagation.BaseValue` | tools/kconfiglib/kconfiglib.py:3637-3650 | What a node hands down evaluates to the minimum of all enclosing dependencies, cut off at a choice, whose mode stands in |
| `KconfigPropagation.PropagationMeans` | tools/kconfiglib/kconfiglib.py:3637-3687 | Under every valuation each default, range, select and imply condition becomes the minimum of itself and all enclosing dependencies, and prompts also of every enclosing `visible if`; nothing else about the property changes |
| `KconfigPropagation.ReverseDepIsMax` | tools/kconfiglib/kconfiglib.py:3689-3720 | (Weak) reverse dependencies evaluate to the largest selector value limited by its condition, over all selecting (implying) nodes, and to n if there is none |
| `KconfigPropagation.DirectDepIsMax` | tools/kconfiglib/kconfiglib.py:3689-3720 | The direct dependencies of a symbol evaluate to the largest of those of its nodes, and to n if it has none |
| `KconfigPropagation.CollectedMeans` | tools/kconfiglib/kconfiglib.py:3689-3720 | What is collected on a symbol, field by field: direct dependencies from its nodes, reverse ones from selects, weak ones from implies |
| `KconfigPropagation.PropertiesByPosition` | tools/kconfiglib/kconfiglib.py:3689-3720 | Defaults and ranges are collected in the order of the nodes |
| `KconfigPropagation.EnclosingByPosition` | tools/kconfiglib/kconfiglib.py:3637-3665 | What is handed down is the smallest of the dependencies inside the innermost choice and of the mode of that choice |
| `KconfigPropagation.VisibleByPosition` | tools/kconfiglib/kconfiglib.py:3556-3665 | Prompts are limited by the smallest `visible if` of all menus around |
| `KconfigPropagation.Finalizer.PropagateDeps` | tools/kconfiglib/kconfiglib.py:3637-3687 | One level is limited in place, the levels below and all other nodes stay as they were |
| `KconfigPropagation.Finalizer.AddPropsToSym` | tools/kconfiglib/kconfiglib.py:3689-3720 | Adding a node leaves every symbol with exactly the properties of the nodes added so far, in order, self-selects and repeated targets included |
| `KconfigPropagation.Finalizer.FinalizeNode` | tools/kconfiglib/kconfiglib.py:3556-3635 | After the recursion every node below is in its final form, and the symbol nodes were added in the order of the files |
| `KconfigPropagation.Finalizer.FinalizeLevel` | tools/kconfiglib/kconfiglib.py:3614-3618 | The same for a whole level |
| `KconfigAssembled.PromptsImplyDirectDep` | tools/kconfiglib/kconfiglib.py:3637-3720 | In every configuration that propagation produces, no prompt is visible while the symbol's direct dependencies are n |
| `KconfigAssembled.PromptNamesChoice` | tools/kconfiglib/kconfiglib.py:3637-3665 | Every prompt inside a choice, also under ifs, ends up with the choice as a conjunct |
| `MenuTree.FlattenedKeeps` | tools/kconfiglib/kconfiglib.py:6476-6502 | Flattening keeps the order of all nodes and leaves every `if` without children |
| `MenuTree.FinalizedKeeps` | tools/kconfiglib/kconfiglib.py:3556-3621 | Finalising a node, with implicit submenus at any depth, keeps the order of all nodes that are not `if`s and leaves none of those below it |
| `MenuTree.FinalisationKeepsOrder` | tools/kconfiglib/kconfiglib.py:3556-3635 | From the top node down, exactly the `if` nodes disappear and all others keep their order |
| `MenuPlaces.FinalisationPlaces` | tools/kconfiglib/kconfiglib.py:3556-3635 | The parent of every node in the finished tree is the one that a single walk in file order predicts: the innermost symbol with a prompt whose implicit menu is still open, or else the menu or choice around, `if` nodes handing on what is below them |
| `MenuLinks.MenuNodes.Lift` | tools/kconfiglib/kconfiglib.py:6491-6500 | Moves the children of a node up behind it: parent links, the link behind the last child and the list link all come out right |
| `MenuLinks.MenuNodes.Flatten` | tools/kconfiglib/kconfiglib.py:6476-6502 | The in-place rewiring spells out exactly the flattened level, touching no other node |
| `MenuLinks.MenuNodes.RemoveIfs` | tools/kconfiglib/kconfiglib.py:6505-6528 | The in-place rewiring drops exactly the `if` nodes of a level |
| `MenuLinks.MenuNodes.TakeDependents` | tools/kconfiglib/kconfiglib.py:3587-3593 | The look-ahead loop takes in exactly the following nodes that depend on the symbol, finalising each first |
| `MenuLinks.MenuNodes.MakeSubmenu` | tools/kconfiglib/kconfiglib.py:3585-3600 | The nodes taken in are moved below the symbol, and the ones behind follow it |
| `MenuLinks.MenuNodes.FinalizeNode` | tools/kconfiglib/kconfiglib.py:3556-3621 | The recursive in-place finalisation terminates and spells out exactly the finalised tree, with right parent links, touching no node outside |
| `MenuLinks.MenuNodes.NodeIter` | tools/kconfiglib/kconfiglib.py:1907-1956 | The iterative walk over list, next and parent terminates and yields the preorder of the tree |
| `MenuLinks.MenuNodes.FinalizeAndIterate` | tools/kconfiglib/kconfiglib.py:1907-1956 | Finalise, then walk: every node but the `if`s in file order, and so the symbols in the order of `defined_syms` |
| `PageAllocator.DecodesUniquely` | crates/mm/src/page_allocator.rs:144-172 | A status array decodes in one way only: each used page lies in exactly one `Used* Last` run |
| `PageAllocator.RunsDisjoint` | crates/mm/src/page_allocator.rs:144-172 | Two runs are equal or do not overlap |
| `PageAllocator.MarkAddsRun` | crates/mm/src/page_allocator.rs:148-172 | Marking a free stretch adds exactly that run, and keeps and separates all others |
| `PageAllocator.FreeKeepsEncoding` | crates/mm/src/page_allocator.rs:198-216 | Freeing from a page keeps the array decodable if and only if the page is the start of a run |
| `PageAllocator.FreeRemovesRun` | crates/mm/src/page_allocator.rs:198-216 | Freeing a run start removes exactly that run |
| `PageAllocator.MarkThenFree` | crates/mm/src/page_allocator.rs:125-216 | Allocating and then freeing gives back the very same array |
| `PageAllocator.MetadataPageAllocator.IsRangeFree` | crates/mm/src/page_allocator.rs:144-146 | True exactly when every page of the range is free |
| `PageAllocator.MetadataPageAllocator.MarkRangeAsUsed` | crates/mm/src/page_allocator.rs:148-172 | Overwrites exactly the range, and zeroes exactly its pages if asked to |
| `PageAllocator.MetadataPageAllocator.Alloc` | crates/mm/src/page_allocator.rs:125-142 | None if and only if no free stretch of that length exists; otherwise the lowest one, zeroed, with all other pages and words untouched |
| `PageAllocator.MetadataPageAllocator.Dealloc` | crates/mm/src/page_allocator.rs:198-216 | Terminates, frees from the page up to its Last and returns the count; the array stays decodable exactly when a run start was given |
| `PageInit.InitAssertsHold` | crates/mm/src/page_allocator.rs:58-93 | The metadata/heap split satisfies every assertion of init for every page-aligned region of at least one page |
| `PageInit.InitAssertsExact` | crates/mm/src/page_allocator.rs:58-80 | On any region the assertions hold if and only if the bytes skipped to align the heap fit into what the division of the region by 4097 leaves over, or, for a region of at most a page, if it is one whole page after alignment |
| `PageInit.InitAssertsFail` | crates/mm/src/page_allocator.rs:58-80 | So a page and one byte fail them, two pages and one byte do not |
| `PageInit.ReservedPagesCover` | crates/mm/src/page_allocator.rs:174-187 | The pages computed for a byte range are exactly the pages that overlap it |
| `PageInit.MarkReserved` | crates/mm/src/page_allocator.rs:189-196 | Succeeds exactly when the range starts inside the heap and its pages are free, and then marks exactly those |
| `PageInit.Init` | crates/mm/src/page_allocator.rs:58-93 | Gets through without a panic if and only if the assertions on the split hold, every reserved range begins in the heap and has metadata for its pages, and no two of them touch the same page; then exactly the pages that some range touches are in use |
| `PageInit.ReservedNeverReturned` | crates/mm/src/page_allocator.rs:125-216 | Over any run of allocations and of deallocations of allocated run starts, pages kept aside are never handed out or freed; every call of alloc and dealloc is such a step |
| `PageInit.ReservedAreasSafe` | crates/mm/src/page_allocator.rs:58-216 | From the state that init leaves, over every such run, no page that a reserved byte range touches is ever free or part of an allocation |
| `KernelHeap.Rounded` | crates/mm/src/heap.rs:25-32 | Sizes up to 24 become 24, larger ones the next multiple of 8 |
| `KernelHeap.AlignmentMet` | crates/mm/src/heap.rs:153-155 | An address is a multiple of every alignment that divides a page, provided that whatever asks for more than 8 starts a page |
| `KernelHeap.TakenSane` | crates/mm/src/heap.rs:221-236 | Taking a block, split or whole, keeps free and live blocks disjoint, aligned, large enough and inside their pages |
| `KernelHeap.TakenBalanced` | crates/mm/src/heap.rs:221-236 | Taking a block conserves bytes: free, live and split slack still add up to the small pages |
| `KernelHeap.GivenSane` | crates/mm/src/heap.rs:189-211 | Giving a block back keeps the blocks disjoint |
| `KernelHeap.GivenBalanced` | crates/mm/src/heap.rs:189-211 | Giving a block back conserves bytes and never underflows the count |
| `KernelHeap.ListAcyclic` | crates/mm/src/heap.rs:238-256 | The free list visits each header once and ends |
| `KernelHeap.EveryRun` | crates/mm/src/heap.rs:157-211 | Over every run of allocations and frees, blocks stay disjoint and in their pages, bytes are conserved, and the slack only grows |
| `KernelHeap.FreedComesBack` | crates/mm/src/heap.rs:189-220 | A request of the size just given back gets the same block again, and everything is as before the block was given back |
| `KernelHeap.RestComesNext` | crates/mm/src/heap.rs:221-236 | The rest of a block that was split serves the next request that fits, right behind it |
| `KernelHeap.Heap.Initialize` | crates/mm/src/heap.rs:77-94 | Writes the header and nothing else |
| `KernelHeap.Heap.Split` | crates/mm/src/heap.rs:96-125 | The two headers describe the two parts of the block, and no other word changes |
| `KernelHeap.Heap.Insert` | crates/mm/src/heap.rs:213-219 | Pushes the block; the metadata corruption assertion cannot fail |
| `KernelHeap.Heap.FindAndRemove` | crates/mm/src/heap.rs:238-256 | Unlinks the first block that is large enough by one write, or changes nothing if there is none |
| `KernelHeap.Heap.SplitIfNecessary` | crates/mm/src/heap.rs:221-236 | Puts the rest back exactly if it can hold a header, and writes only inside the block |
| `KernelHeap.Heap.AllocSmall` | crates/mm/src/heap.rs:165-186 | First fit, else one fresh page, else null exactly if no page is free; keeps every invariant and every word of every live allocation |
| `KernelHeap.Heap.AllocPages` | crates/mm/src/heap.rs:157-165 | Null exactly if no stretch of pages is free; otherwise zeroed pages that no one else has |
| `KernelHeap.Heap.Alloc` | crates/mm/src/heap.rs:153-187 | Both paths together: requests of at least 4096 bytes or an alignment above 8 get zeroed pages of their own, all others a rounded block by first fit and no page run; null exactly if neither a block nor enough pages are left; the address is a multiple of every alignment that divides a page; `allocated_memory` stays the live rounded sizes and no live word changes |
| `KernelHeap.Heap.Dealloc` | crates/mm/src/heap.rs:189-211 | Removes exactly that allocation, keeps all invariants and every word of the remaining ones |
| `KernelHeap.Heap.OwnerWrites` | crates/mm/src/heap.rs:157-211 | Owners may write anything into their allocations without disturbing the allocator |
| `DmaMemory.SlotsApart` | crates/drivers/src/dwmac/mod.rs:272-296 | Packet buffers of different slots never share a cache line |
| `DwmacSetup.Ring.Setup` | crates/drivers/src/dwmac/mod.rs:601-630 | Whatever the cache evicts or fetches meanwhile, after the flush RAM holds every descriptor and no line of the ring is dirty |
| `DwmacSetup.SetupDescriptorRings` | crates/drivers/src/dwmac/mod.rs:601-630 | The rings are handed over in the states that the receive and transmit results start from |
| `DwmacTx.StepKeeps` | crates/drivers/src/dwmac/mod.rs:743-787 | Every step of the driver, the device or the cache keeps the transmit invariant |
| `DwmacTx.OwnedIsComplete` | crates/drivers/src/dwmac/mod.rs:765-786 | Whenever RAM shows a transmit descriptor as owned by the device, RAM already holds its address, its length and the whole frame, and its line is not dirty |
| `DwmacTx.TransmitsInOrder` | crates/drivers/src/dwmac/mod.rs:743-787 | Over every interleaving, transmitted frames are a prefix of the sent ones, at most one ring behind |
| `DwmacTx.TransmitsTheCalls` | crates/drivers/src/dwmac/mod.rs:743-787 | Over every interleaving, what has been transmitted is a prefix of the frames send_packet was called with, each cut to 1600 bytes, in call order; between calls every one of them has been handed over, during a call all but that one, and after a time-out all but the last |
| `DwmacTxCall.FreeSlotUsed` | crates/drivers/src/dwmac/mod.rs:743-763 | If the next descriptor is the driver's when a call begins, no interleaving takes the call to the time-out, and its look leads to the copy |
| `DwmacTxCall.TimeoutAfterMillionLooks` | crates/drivers/src/dwmac/mod.rs:749-763 | A call times out only after 1,000,000 looks of its own, each of which saw OWN |
| `DwmacTxCall.DriverWorks` | crates/drivers/src/dwmac/mod.rs:743-787 | Every step of the driver, and no other, brings a call nearer to its end, which is at most 2,002,004 steps away |
| `DwmacTxCall.DeviceTransmits` | crates/drivers/src/dwmac/mod.rs:771-786 | What has been handed over is owned by the device, whose next step transmits the first frame not yet transmitted |
| `DwmacRx.StepKeeps` | crates/drivers/src/dwmac/mod.rs:691-741 | Every step keeps the receive invariant, the flush of a descriptor never overwriting a device write |
| `DwmacRx.ReceivesInOrder` | crates/drivers/src/dwmac/mod.rs:691-741 | Over every interleaving that starts without dirty buffer lines: the frames returned are exactly the completed ones of length 1 to 1600, in order, none lost or repeated; CPU-owned slots form one cyclic segment from rx_idx, except that a slot being handed back counts from its write-back on; device-owned descriptors are never dirty |
| `DwmacRxCall.CallReturnsAll` | crates/drivers/src/dwmac/mod.rs:691-741 | When a call of receive_packets is over, every frame of acceptable length that was complete when it began has been returned |
| `DwmacRxCall.CallEnds` | crates/drivers/src/dwmac/mod.rs:691-741 | A call ends after at most 80003 steps of its own unless more frames arrive, and has then handled all that is complete |
| `DwmacRxCall.FramesByPosition` | crates/drivers/src/dwmac/mod.rs:704-716 | The frames returned are those of length 1 to 1600, each at its place |
| `DwmacRxCall.DeviceStores` | crates/drivers/src/dwmac/mod.rs:722-735 | Unless the ring is full or a slot is just being handed back, the next frame that arrives is stored |
| `DwmacRxStale.ReturnedIffClean` | crates/drivers/src/dwmac/mod.rs:601-741 | receive_packets returns exactly the completed frames over every run if and only if no buffer line was dirty at hand-over, which setup does not see to, and the same of frames surviving in memory |
| `DwmacRxStale.ReturnsStale` | crates/drivers/src/dwmac/mod.rs:691-741 | From the state where a dirty line has been written back over a received frame, the driver goes on to return a frame that never arrived |
| `Spinlock.StepKeeps` | crates/hal/src/spinlock.rs:31-93 | Every step of any CPU but the two forced stores keeps the invariant |
| `Spinlock.EveryState` | crates/hal/src/spinlock.rs:31-132 | In every state of every run: at most one CPU in the critical section, the owner field names a CPU only while it holds the lock, the detector has fired only on a holder, and outside panic mode no holder spins |
| `Spinlock.DetectorExact` | crates/hal/src/spinlock.rs:64-77 | Each load of the detector leads a CPU that holds the lock to the failing assertion, and no other CPU |
| `Spinlock.ForceOwnerKeeps` | crates/hal/src/spinlock.rs:95-101 | The forced clearing of the owner keeps the invariant if and only if no running CPU is recorded there |
| `Spinlock.ForceUnlockKeeps` | crates/hal/src/spinlock.rs:95-101 | The forced clearing of the lock keeps it if and only if no running CPU holds the lock and the owner is already cleared |
| `Spinlock.ForcedUnlockRestores` | crates/hal/src/spinlock.rs:95-109 | If the holder has halted, the two forced stores free the lock and keep the invariant whatever other CPUs do in between |
| `Spinlock.ForcedOnLiveHolder` | crates/hal/src/spinlock.rs:95-109 | Otherwise two CPUs can be in the critical section: from every state with a running holder, the panicking CPU gets in beside it |
| `SpinlockProgress.TakesFreeLock` | crates/hal/src/spinlock.rs:31-61 | A compare-exchange takes the lock exactly if nobody has it; otherwise lock() spins on, try_with_lock() gives up, and nothing changes |
| `SpinlockProgress.NeverStandsStill` | crates/hal/src/spinlock.rs:31-93 | Every CPU that is neither halted nor stopped by the assertion has a next step |
| `SpinlockProgress.LockLeadsIn` | crates/hal/src/spinlock.rs:47-61 | lock() on a free lock leads into the critical section with the CPU as owner |
| `SpinlockProgress.TryLeadsIn` | crates/hal/src/spinlock.rs:31-45 | The same for try_with_lock() |
| `SpinlockProgress.DropFrees` | crates/hal/src/spinlock.rs:127-132 | Dropping the guard leaves the lock free and without owner |
| `KernelPanic.StepKeeps` | crates/kernel/src/panic.rs:20-81 | Every step keeps: only the recorded CPU is beyond the gate, and the 8-bit counter and the backtraces agree with the number of counted panics |
| `KernelPanic.OneCpuPasses` | crates/kernel/src/panic.rs:32-41 | In every run, whoever is beyond the gate at any two moments is the one CPU that won the exchange, nested panics included |
| `KernelPanic.BacktraceOnce` | crates/kernel/src/panic.rs:66-81 | The backtrace is entered at most once if and only if the double-panic check is reached at most 256 times |
| `KernelPanic.SecondBacktrace` | crates/kernel/src/panic.rs:66-81 | Beyond that the counter wraps: a run that prints the backtrace twice |
| `KernelPanic.WinnerGoesThrough` | crates/kernel/src/panic.rs:20-65 | The first CPU to panic unlocks the console, reports, counts itself, prints one backtrace and the last messages, in this order, and ends polling |
| `KernelPanic.OthersStop` | crates/kernel/src/panic.rs:32-41 | Any other CPU that panics is suspended for good; the first one is let through again |
| `ReadAsserter.FindEnd` | qemu-infra/src/searchable_buffer.rs:30-36 | The end of the first occurrence of the needle, or none if there is no occurrence |
| `ReadAsserter.FirstEndOfPrefix` | qemu-infra/src/searchable_buffer.rs:30-36 | A match in what has arrived is the first match of the whole stream |
| `ReadAsserter.FlatFiltered` | qemu-infra/src/read_asserter.rs:101-104 | Dropping carriage returns piece by piece equals dropping them from the whole |
| `ReadAsserter.SearchableBuffer.ShiftToFront` | qemu-infra/src/searchable_buffer.rs:38-42 | Cuts the buffer in two without losing a byte |
| `ReadAsserter.SearchableBuffer.FindAndRemove` | qemu-infra/src/searchable_buffer.rs:10-16 | Removes the shortest prefix that ends in the needle, or nothing if there is none |
| `ReadAsserter.ReadAsserter.ReadUntil` | qemu-infra/src/read_asserter.rs:83-106 | Found: the shortest prefix of the remaining stream that ends in the needle. End of file: the needle occurs nowhere in it. Timeout: everything is kept but the piece in hand, and nothing is lost if and only if the call was waiting for a piece or the piece held carriage returns only |
| `ReadAsserter.LosingCall` | qemu-infra/src/read_asserter.rs:68-106 | A call that loses what it has read: one piece arrives, and the timer fires before it is appended |
| `ReadAsserter.ReadAsserter.Session` | qemu-infra/src/read_asserter.rs:83-106 | A sequence of calls gets answers that depend on the stream alone, not on how it was cut into pieces, and results plus buffer stay the filtered input |
| `ReadAsserter.ReadAsserter.ReadAvailable` | qemu-infra/src/read_asserter.rs:108-123 | Hands out the buffer and all that arrives, and leaves nothing behind |
| `ReadAsserter.Retain` | qemu-infra/src/read_asserter.rs:101-104 | Keeps exactly the bytes that are not carriage returns, in order |
| `KconfigCache.Kconfig.ModulesValue` | tools/kconfiglib/kconfiglib.py:4274-4284 | MODULES, through the cache, equals evaluation from scratch and only adds sound entries |
| `KconfigCache.Kconfig.ChoiceIsBoolValue` | tools/kconfiglib/kconfiglib.py:5174-5180 | Whether a choice counts as bool, through the cache, equals evaluation from scratch and only adds sound entries |
| `KconfigCache.Kconfig.ModeValue` | tools/kconfiglib/kconfiglib.py:5190-5207 | The mode of a choice, through the cache, equals evaluation from scratch and only adds sound entries |
| `KconfigCache.Kconfig.IsTristateValue` | tools/kconfiglib/kconfiglib.py:4274-4284 | Whether a symbol counts as tristate, through the cache, equals evaluation from scratch and only adds sound entries |
| `KconfigCache.Kconfig.ItemTriValue` | tools/kconfiglib/kconfiglib.py:5988-6000 | The tristate value of an operand, through the cache, equals evaluation from scratch and only adds sound entries |
| `KconfigCache.Kconfig.ItemStrValue` | tools/kconfiglib/kconfiglib.py:6013-6030 | The string value of an operand, through the cache, equals evaluation from scratch and only adds sound entries |
| `KconfigCache.Kconfig.ItemNumValue` | tools/kconfiglib/kconfiglib.py:6367-6375 | The number an operand stands for, through the cache, equals evaluation from scratch and only adds sound entries |
| `KconfigCache.Kconfig.CompareStringsValue` | tools/kconfiglib/kconfiglib.py:6361-6365 | String comparison of two operands, through the cache, equals evaluation from scratch and only adds sound entries |
| `KconfigCache.Kconfig.CompareValue` | tools/kconfiglib/kconfiglib.py:6013-6042 | Comparison of two operands, as strings or numbers, through the cache, equals evaluation from scratch and only adds sound entries |
| `KconfigCache.Kconfig.PromptVisValue` | tools/kconfiglib/kconfiglib.py:6286-6296 | The largest prompt condition, through the cache, equals evaluation from scratch and only adds sound entries |
| `KconfigCache.Kconfig.SymVisValue` | tools/kconfiglib/kconfiglib.py:6286-6313 | The visibility of a symbol, through the cache, equals evaluation from scratch and only adds sound entries |
| `KconfigCache.Kconfig.ChoiceVisValue` | tools/kconfiglib/kconfiglib.py:6286-6313 | The visibility of a choice, through the cache, equals evaluation from scratch and only adds sound entries |
| `KconfigCache.Kconfig.FirstDefaultValue` | tools/kconfiglib/kconfiglib.py:4462-4469 | The first default that applies, through the cache, equals evaluation from scratch and only adds sound entries |
| `KconfigCache.Kconfig.FromDefaultsValue` | tools/kconfiglib/kconfiglib.py:4459-4477 | The value from defaults and implies, through the cache, equals evaluation from scratch and only adds sound entries |
| `KconfigCache.Kconfig.PlainTriValue` | tools/kconfiglib/kconfiglib.py:4452-4492 | The value of a symbol outside choices, through the cache, equals evaluation from scratch and only adds sound entries |
| `KconfigCache.Kconfig.MemberTriValue` | tools/kconfiglib/kconfiglib.py:4494-4502 | The value of a choice symbol, through the cache, equals evaluation from scratch and only adds sound entries |
| `KconfigCache.Kconfig.ActiveRangeValue` | tools/kconfiglib/kconfiglib.py:4319-4336 | The range in effect, through the cache, equals evaluation from scratch and only adds sound entries |
| `KconfigCache.Kconfig.StrDefaultValue` | tools/kconfiglib/kconfiglib.py:4365-4378 | The string from the defaults, through the cache, equals evaluation from scratch and only adds sound entries |
| `KconfigCache.Kconfig.NumberStrValue` | tools/kconfiglib/kconfiglib.py:4311-4403 | The value of an int or hex symbol, through the cache, equals evaluation from scratch and only adds sound entries |
| `KconfigCache.Kconfig.TextStrValue` | tools/kconfiglib/kconfiglib.py:4405-4416 | The value of a string symbol, through the cache, equals evaluation from scratch and only adds sound entries |
| `KconfigCache.Kconfig.DefaultPickValue` | tools/kconfiglib/kconfiglib.py:5440-5446 | The choice default that applies and is visible, through the cache, equals evaluation from scratch and only adds sound entries |
| `KconfigCache.Kconfig.FirstVisibleValue` | tools/kconfiglib/kconfiglib.py:5448-5451 | The first visible member, through the cache, equals evaluation from scratch and only adds sound entries |
| `KconfigCache.Kconfig.SelectionFromDefaultsValue` | tools/kconfiglib/kconfiglib.py:5440-5453 | The selection without the user's, through the cache, equals evaluation from scratch and only adds sound entries |
| `KconfigCache.Kconfig.InvalidateChoiceOf` | tools/kconfiglib/kconfiglib.py:4625-4642 | Selecting a choice symbol drops what depends on its choice |
| `KconfigFiles.DefaultTriValue` | tools/kconfiglib/kconfiglib.py:4918-4951 | The value the defaults alone would give, equal to evaluation from scratch |
| `KconfigFiles.UnsetSyms` | tools/kconfiglib/kconfiglib.py:1350-1366 | Unsets exactly the symbols that were not assigned |
| `KconfigFiles.UnsetChoices` | tools/kconfiglib/kconfiglib.py:1350-1366 | Unsets exactly the choices that were not assigned |
| `KconfigSyntax.Parser.CheckToken` | tools/kconfiglib/kconfiglib.py:2587-2594 | Steps over the token exactly if it is the expected one |
| `MenuLinks.MenuNodes.Adopt` | tools/kconfiglib/kconfiglib.py:6491-6496 | Gives each child the new parent and finds the last one |
| `MenuLinks.MenuNodes.FinalizeChildren` | tools/kconfiglib/kconfiglib.py:3614-3618 | Each child is finalised in turn, those taken in by an earlier one no more |
| `MenuLinks.MenuNodes.FinishLevel` | tools/kconfiglib/kconfiglib.py:3620-3624 | The children end up flattened and without `if`s, and the nodes behind are untouched |
| `MenuLinks.MenuNodes.Climb` | tools/kconfiglib/kconfiglib.py:1941-1949 | Climbing ends at the first enclosing node with something behind it, or at the top with nothing left to yield |
| `PageAllocator.ToLast` | crates/mm/src/page_allocator.rs:198-216 | From a used page there is always a Last within the array, with only Used pages before it |
| `PageAllocator.MetadataPageAllocator.ZeroPage` | crates/mm/src/page_allocator.rs:148-172 | Zeroes exactly the words of one page |
| `PageInit.MinimumPages` | crates/mm/src/util.rs:8-10 | The least number of pages that holds the bytes |
| `PageInit.AlignUp` | crates/klib/src/util.rs:29-36 | The least multiple of the alignment that is at or above the value |
| `KernelHeap.FirstFit` | crates/mm/src/heap.rs:238-256 | The first free block that is large enough, or none if all are smaller |
| `KernelHeap.Heap.FromList` | crates/mm/src/heap.rs:166-168 | Takes the first fit out of the list, or leaves everything as it was |
| `KernelHeap.Heap.FromNewPage` | crates/mm/src/heap.rs:168-178 | Makes the lowest free page one block, or leaves everything as it was because no page is free |
| `KernelHeap.Heap.Serve` | crates/mm/src/heap.rs:180-186 | Splitting and counting restore the invariant with exactly one more live allocation |
| `KernelHeap.Heap.DeallocSmall` | crates/mm/src/heap.rs:199-211 | The block is back in front of the list, the count is lower by its size, other live words are untouched |
| `KernelHeap.Heap.DeallocPages` | crates/mm/src/heap.rs:189-198 | Exactly the pages of the allocation are free again |
| `DwmacSetup.MovesDisturbNothing` | crates/hal/src/riscv64/cache.rs:18-33 | No sequence of evictions and fetches changes what the CPU reads, or makes a clean line dirty |
| `DwmacSetup.Ring.FlushLine` | crates/hal/src/riscv64/cache.rs:18-33 | After a flush RAM has what the CPU saw, whatever the cache does next |
| `DwmacSetup.Ring.Store` | crates/drivers/src/dwmac/mod.rs:603-618 | A store is seen by the CPU from then on, and no other descriptor changes |
| `DwmacTx.Cut` | crates/drivers/src/dwmac/mod.rs:743-752 | The first 1600 bytes of the data, or all of it if it is no longer |
| `ReadAsserter.FirstEndUnique` | qemu-infra/src/searchable_buffer.rs:30-36 | The search finds the first end if there is one |
| `ReadAsserter.SearchableBuffer.Append` | qemu-infra/src/searchable_buffer.rs:18-20 | Adds the bytes behind those that are there |
| `ReadAsserter.SearchableBuffer.Drain` | qemu-infra/src/searchable_buffer.rs:26-28 | Hands out everything and leaves nothing |
| `ReadAsserter.ReadAsserter.TakeFront` | qemu-infra/src/read_asserter.rs:83-87 | Takes the shortest prefix of the remaining stream that ends in the needle if it has arrived, and otherwise changes nothing |
| `ReadAsserter.ReadAsserter.NextInput` | qemu-infra/src/read_asserter.rs:88-104 | One piece is read and filtered; buffer, piece and what is still to come make up the same stream as before |
| `ReadAsserter.WhenLost` | qemu-infra/src/read_asserter.rs:68-80 | A cancelled call loses nothing if and only if an even number of awaits had completed or the piece in hand filters to nothing |
| `ReadAsserter.ReadAsserter.Read` | qemu-infra/src/read_asserter.rs:88-100 | A piece moves from the reader to what has been read; an empty one means there is nothing left |

## Left out

- Kconfig tokenising, macro expansion, `source`, help texts, warnings and messages: text and file handling. Expressions and configuration files are modelled as tokens and lines.
- Python's int(), str() and hex() are uninterpreted functions of the configuration.
- KconfigAssignable.MemberAssignable: y-visible choice symbols only. For m-visible ones `assignable` looks at selects and implies, which the value of a choice symbol ignores.
- KconfigRoundTrip.RoundTrip: bool configurations only, because a default of y under an m-visible prompt is written as y and reloads as m; `option env` and defconfig_list symbols are not part of the model either.
- KconfigCache.Kconfig.Run: assumes that choice symbols have their choice among their dependencies and that choice defaults are members, as the engine's sanity check and propagation leave them.
- KconfigApart.PassedCheckEvaluates: sufficient only, because the written dependencies also count what is mentioned and never read; `PassedCheckExact` is exact on what is read.
- KconfigFiles.ConfigString: bool and tristate symbols only; strings and numbers would add quoting and parsing.
- KconfigFiles.WriteConfig: bool and tristate symbols only, for the same reason.
- KconfigFiles.NotDefaultValue: bool and tristate symbols only, for the same reason.
- KconfigFiles.WriteMinConfig: bool and tristate symbols only, for the same reason.
- KconfigFiles.LoadOneLine: bool and tristate symbols only, for the same reason.
- KconfigFiles.LoadConfig: bool and tristate symbols only, for the same reason.
- MenuLinks.MenuNodes.FinalizeNode: whether a node has an automatic menu dependency is any function of the two nodes; what the expression test behind it accepts is not modelled. Nodes are numbers and their links are maps from numbers, so that no two fields can be the same storage.
- KconfigPropagation.Finalizer.FinalizeNode: works on the tree as parsed, whose nodes are finalised in the same order as in the relinked one; the properties of choices themselves and their types are not collected.
- KconfigSyntax.PrintParse: expressions without choices, which can be printed but not written.
- `node_iter` with `unique_syms`, and all other consumers of the menu tree.
- Integers are unbounded: no address, size or count overflows a machine word. The panic counter is the exception.
- KernelHeap.Heap.Alloc: alignments above a page are not promised, as in the code, which returns a page-aligned address for them.
- Raw pointers and uninitialised memory: the heap lives in an array of words, addresses are word numbers.
- DwmacTx.TransmitsInOrder: the device transmits a frame and hands the descriptor back in one step.
- DwmacRxCall.CallReturnsAll: runs that start without dirty buffer lines, since otherwise the frames themselves can be wrong (`ReturnedIffClean`).
- DwmacRx.ReceivesInOrder: the device stores a frame and hands the descriptor back in one step.
- DWMAC registers, tail pointers, interrupts and link set-up: device behaviour that the repository does not define.
- Spinlock.EveryState: interleavings of atomic steps, without the reorderings that relaxed atomics allow; interrupts are off while a guard lives.
- KernelPanic.OneCpuPasses: messages are steps that may panic again; what they print is not modelled.
- ReadAsserter.SearchableBuffer.FindAndRemove: an empty needle is not allowed, since the code panics on it.
- ReadAsserter.ReadAsserter.ReadUntil: the clock is a number of awaits that complete before the call is cancelled, and reads that fail are not modelled.
- Processes, file systems, networking above the driver, user space, and the graphical and menu front ends.
