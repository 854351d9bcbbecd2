# Parenteral-nutrition optimiser: a verified model

This project models the decision logic of a parenteral-nutrition cost optimiser. A
clinician selects commercial formulas from a catalog and states bounds on energy,
protein, volume and the number of bags. A linear-programming solver then chooses
how much of each formula to use at minimum cost. Six parts of the application are
modelled, each in its own module:

- `Optimizer` (`optimizer.dfy`) is the optimisation engine. It covers:
  - the engine's own bound validation;
  - the candidate filter over selected ids, emulsion type and route;
  - the LP variables and constraints;
  - dispatch on the solver's outcome;
  - turning a feasible solution into a result: bags, rounded totals, the
    satisfaction flags, and bags sorted by descending cost.

  The engine keeps the last model's variables in an instance field, so it is a
  class (`Engine`). The solver is a parameter `solve: LpModel -> SolverOutcome`:
  an oracle that reports infeasibility, throws, or returns an objective and a
  quantity per formula. `OptimizerProperties` (`optimizer_properties.dfy`) holds
  the lemmas about the engine's answers.
- `OptimizerHook` (`hook.dfy`) is the caller-side wrapper. It runs its own
  field-by-field validation, which differs from the engine's. When that
  validation fails, it answers Error early. Otherwise it rewrites an Infeasible
  answer's message from the unmet bounds. Its state (`isOptimizing`, the last
  validation errors) is a class.
- `History` (`history.dfy`) is the persisted optimisation history. New entries go
  first, at most fifty are kept, and the history can be cleared or have one id
  deleted. The stored list is a class whose methods replace it.
- `FormulasPage` (`formulas.dfy`) is the catalog page. It covers:
  - generation of `PN###` ids;
  - id assignment for imported rows;
  - the mapping of an Excel or JSON row to a formula;
  - the listing filter;
  - delete with undo, bulk delete, delete all, save, and selection toggles.
- `CalculatorPage` (`calculator.dfy`) is the calculator page. It covers:
  - formula selection: toggle, select all, select none;
  - the catalog search;
  - the formulas handed to the optimiser;
  - the "optimise" button's guard and its history record.
- `ConventionRoutes` (`routes.dfy`) is the build plugin that derives routes from
  page files. It covers:
  - `normalizePath`, `fileToRoutePath` and `isInvisibleFolder`;
  - the ignore list;
  - the loop that inserts every page file into a nested tree of groups and routes.

Shared modules: `Domain` (the records), `Numeric` (rounding and `toFixed` on
reals), `Text` (strings, digits, padding, joining), `Seqs` (order-preserving
filters and sub-sequences) and `Options`.

JavaScript numbers are exact reals here. `parseFloat(x.toFixed(d))` is
`Numeric.Round(x, d)`: the nearest multiple of 10^-d, with halves rounded away
from zero. Its error bound is proved (`Numeric.RoundError`).

Where the catalog page generates an id, the model follows the code, not the
obvious intent. `newId` is computed before the scan that raises the counter.
So the result is `PN001` whenever `PN001` is free, even when higher ids exist.
When `PN001` is taken, the result is two past the largest suffix, not one.
`FormulasPage.UniqueIdCases` states both cases.

## Model

| member | source | states |
|---|---|---|
| Domain.EmptyOutcome | src/lib/optimizer.ts:232-279 | a no-solution answer carries the given status and message, a null cost, zero totals, no bags and no bound met |
| Optimizer.AvailableFormulas | src/lib/optimizer.ts:24-44 | the candidates are an order-preserving sub-sequence of the catalog that holds exactly the catalog formulas passing the id filter (when any id is selected), the emulsion filter and the route filter (unless "All") |
| Optimizer.AvailableIsOneFilter | src/lib/optimizer.ts:29-43 | the chain of three optional filters equals one filter by the combined candidate test |
| Optimizer.MassPerBag | src/lib/optimizer.ts:104-118 | grams per bag are non-negative for non-negative inputs, and equal the concentration for a one-litre bag |
| Optimizer.CoefficientsOf | src/lib/optimizer.ts:105-117 | a variable's cost is the custom cost when one is given and the base cost otherwise; protein, nitrogen, glucose and fat are grams per bag; kcal and volume are copied; each bag counts once |
| Optimizer.ModelVariables | src/lib/optimizer.ts:104-118 | every candidate id has a variable |
| Optimizer.ModelVariablesSource | src/lib/optimizer.ts:104-118 | every variable comes from a candidate with that id |
| Optimizer.ModelVariablesLast | src/lib/optimizer.ts:104-118 | for a repeated id, the last candidate's coefficients win, as a later write to the same key does |
| Optimizer.BuildConstraints | src/lib/optimizer.ts:85-101 | the kcal range exists iff a kcal bound is positive; the protein range likewise; volume max iff it is positive; total bags always has minimum 0.1 and has maximum `max_bags` iff that is given and positive |
| Optimizer.CheckConstraints | src/lib/optimizer.ts:213-227 | each flag holds iff the total is within 0.1 of its bound, with a zero bound meaning no bound |
| Optimizer.ModelFeasibleMeetsAll | src/lib/optimizer.ts:85-101 | totals that satisfy the registered model constraints of valid bounds pass all five satisfaction checks |
| Optimizer.ContributionOf | src/lib/optimizer.ts:171-173 | a reported bag contribution is within half a unit of its last decimal of quantity times coefficient |
| Optimizer.MakeBag | src/lib/optimizer.ts:161-176 | a bag carries its formula's id, name, manufacturer, route and emulsion, the unit cost, the quantity rounded to 3 decimals, the cost rounded to 2, and the rounded contributions |
| Optimizer.BagsOfIncluded | src/lib/optimizer.ts:159-186 | at most one bag per candidate; every bag comes from a candidate whose quantity exceeds 0.001; every such candidate gives a bag |
| Optimizer.ExtendPrefix | src/lib/optimizer.ts:159-186 | one loop step appends the candidate's bag and adds its quantity times coefficients to the running totals exactly when its quantity exceeds 0.001 |
| Optimizer.InsertByCostPermutes | src/lib/optimizer.ts:204 | inserting a bag into the sorted list yields the list plus that bag, as a multiset |
| Optimizer.InsertByCostSorted | src/lib/optimizer.ts:204 | inserting into a list sorted by descending total cost keeps it sorted |
| Optimizer.SortByCostDescSorted | src/lib/optimizer.ts:204 | the bag sort yields a list sorted by descending total cost that is a permutation of its input |
| Optimizer.RoundedTotal | src/lib/optimizer.ts:197-203 | each reported total is within half a unit of its last decimal of the exact running sum |
| Optimizer.ErrorResult | src/lib/optimizer.ts:232-253 | an error answer has status Error, the given message and the empty shape |
| Optimizer.InfeasibleResult | src/lib/optimizer.ts:258-279 | the infeasible answer has status Infeasible, its fixed message and the empty shape |
| Optimizer.Engine.constructor | src/lib/optimizer.ts:17-19 | the engine holds the catalog and no variables |
| Optimizer.Engine.Optimize | src/lib/optimizer.ts:65-141 | the answer is the engine's specification of validation, filtering, model building and outcome dispatch; the variables field is rebuilt exactly when a model is built and is otherwise left as it was |
| Optimizer.Engine.ExtractResults | src/lib/optimizer.ts:146-208 | the loop over candidates produces the specified bags, totals, satisfaction flags and cost-sorted bag list |
| OptimizerProperties.InvalidBoundsIffError | src/lib/optimizer.ts:49-60 | the answer is the "invalid constraints" error exactly when a kcal or protein bound is negative or inverted, or the volume bound is not positive |
| OptimizerProperties.NoCandidatesNoSolve | src/lib/optimizer.ts:78-82 | with valid bounds and no candidate, the answer is the "no formula available" error, whatever the solver would do |
| OptimizerProperties.NonFeasibleOutcomes | src/lib/optimizer.ts:128-140 | a solver reporting infeasibility gives the fixed Infeasible answer; a throwing solver gives Error with the prefixed message; both have the empty shape; the answer is Optimal iff the solver returns a solution |
| OptimizerProperties.OptimalIsExtract | src/lib/optimizer.ts:128-136 | an Optimal answer is the extraction of the solver's solution for the candidates' model |
| OptimizerProperties.ExtractShape | src/lib/optimizer.ts:195-207 | an extracted answer is Optimal with no message and the objective rounded to 2 decimals; its bag count is the number of bags; its bags are sorted by descending cost and are a permutation of the included candidates' bags |
| OptimizerProperties.ExtractBagsIncluded | src/lib/optimizer.ts:159-186 | every listed bag comes from a candidate with quantity above 0.001, and each such candidate's bag is listed |
| OptimizerProperties.ExtractBagsFrom | src/lib/optimizer.ts:159-176 | every listed bag carries the id, name, route, emulsion and unit cost of some candidate |
| OptimizerProperties.OptimalResultShape | src/lib/optimizer.ts:128-207 | an Optimal answer comes from a solution; it has no message, the rounded objective as its cost, a bag count equal to its bag list, and bags sorted by descending cost |
| OptimizerProperties.OptimalBagsFiltered | src/lib/optimizer.ts:24-44 | every bag of an Optimal answer comes from a catalog formula that passes the id, emulsion and route filters |
| OptimizerProperties.OptimalBagsIncluded | src/lib/optimizer.ts:159-186 | the bags of an Optimal answer are exactly those of the candidates the solution uses above 0.001 |
| OptimizerProperties.SumOfSorted | src/lib/optimizer.ts:204 | sorting the bags does not change the sum of their contributions |
| OptimizerProperties.ContributionsNearTotals | src/lib/optimizer.ts:179-184 | the sum of rounded bag contributions is within n half-units of the exact total, for n bags |
| OptimizerProperties.ExtractReportedTotal | src/lib/optimizer.ts:198-203 | a reported total is the rounded exact running sum |
| OptimizerProperties.SortedContributionsSum | src/lib/optimizer.ts:179-204 | the sorted bags' contributions sum to within n+1 half-units of the reported total |
| OptimizerProperties.OptimalContributionsSum | src/lib/optimizer.ts:165-204 | in every Optimal answer, the listed bags' kcal, protein and volume contributions add up to the reported totals up to rounding: n+1 half-units for n bags |
| OptimizerHook.FieldAt | src/hooks/useOptimizer.ts:20-41 | the k-th check concerns the field of rank k |
| OptimizerHook.ValidateConstraints | src/hooks/useOptimizer.ts:17-42 | the pushed errors are the specified list of failed checks |
| OptimizerHook.ErrorsUpToSpec | src/hooks/useOptimizer.ts:20-41 | after the first n checks, a field's error is present iff its check failed and it is among those n, and errors are in check order |
| OptimizerHook.ErrorsOfSpec | src/hooks/useOptimizer.ts:22-39 | a field is reported iff its check fails (kcal_min < 0, kcal_max < kcal_min, protein_min < 0, protein_max < protein_min, volume_max <= 0, max_bags non-zero and <= 0), in the order kcal_min, kcal_max, protein_min, protein_max, volume_max, max_bags |
| OptimizerHook.WrapperValidation | src/hooks/useOptimizer.ts:22-39 | the wrapper accepts exactly the bounds the engine accepts with no negative `max_bags`; every engine rejection is a wrapper rejection; an absent or zero `max_bags` is never reported |
| OptimizerHook.Messages | src/hooks/useOptimizer.ts:61 | one message per error, in order, each the message of its field |
| OptimizerHook.UnmetClausesCount | src/hooks/useOptimizer.ts:92-107 | there is one clause per unmet bound, so none exactly when every bound is met |
| OptimizerHook.Explain | src/hooks/useOptimizer.ts:91-112 | the clause-building steps compute the specified explained answer |
| OptimizerHook.ExplainedChangesOnlyMessage | src/hooks/useOptimizer.ts:91-114 | explaining changes only the message, only of an Infeasible answer with an unmet bound; any other answer is returned unchanged |
| OptimizerHook.ZeroText | src/hooks/useOptimizer.ts:94-106 | a zero total prints as "0" with no decimals and "0.0" with one |
| OptimizerHook.InfeasibleExplained | src/hooks/useOptimizer.ts:91-111 | the engine's Infeasible answer reaches the caller with all five bounds listed in order, each against a zero total |
| OptimizerHook.HookOutcomes | src/hooks/useOptimizer.ts:56-114 | a failed validation gives an Error listing the failed checks' messages with the empty shape; otherwise the engine's own validation passes and the answer is the engine's, explained |
| OptimizerHook.Hook.constructor | src/hooks/useOptimizer.ts:15 | a fresh engine over the catalog, not optimising, no errors |
| OptimizerHook.Hook.Optimize | src/hooks/useOptimizer.ts:44-118 | the answer is the wrapper's specification; `isOptimizing` is false on every exit; the stored errors are the validation result; a failed validation leaves the engine untouched |
| History.Stamp | src/store/optimizationHistory.ts:24-28 | an entry stores the record's constraints, result and selection verbatim, plus the given id and time |
| History.AddedShape | src/store/optimizationHistory.ts:30 | after adding, the new entry is first and the old entries follow in order; the length is min(old + 1, 50); a full history drops only its oldest entry |
| History.AddedDistinct | src/store/optimizationHistory.ts:26-30 | adding under a fresh id keeps ids pairwise distinct |
| History.AddedNewestFirst | src/store/optimizationHistory.ts:27-30 | adding an entry stamped no earlier than the newest keeps the history newest first |
| History.DeletedShape | src/store/optimizationHistory.ts:48 | deleting removes every entry with that id and keeps every other entry, in order and with its multiplicity |
| History.DeletedAbsent | src/store/optimizationHistory.ts:48 | deleting an absent id leaves the history unchanged |
| History.DeletedKeepsInvariants | src/store/optimizationHistory.ts:44-50 | deleting keeps ids distinct and the history newest first |
| History.SubsequenceKeepsOrder | src/store/optimizationHistory.ts:48 | any sub-sequence of a history with distinct ids that is newest first has distinct ids and is newest first |
| History.HistoryStore.constructor | src/store/optimizationHistory.ts:14-17 | the history starts empty |
| History.HistoryStore.Add | src/store/optimizationHistory.ts:20-33 | the stored list becomes the added history with the stamped entry |
| History.HistoryStore.Clear | src/store/optimizationHistory.ts:36-41 | the stored list becomes empty |
| History.HistoryStore.Delete | src/store/optimizationHistory.ts:44-50 | the stored list becomes the old list without that id's entries |
| FormulasPage.PnIdFormat | src/pages/Formulas.tsx:79 | a generated id is "PN" then digits, is five characters for counters below 1000, and its numeric suffix parses back to the counter |
| FormulasPage.FirstId | src/pages/Formulas.tsx:63-64 | counter 1 gives "PN001" |
| FormulasPage.SuffixesMembers | src/pages/Formulas.tsx:67-69 | a number is among the scanned suffixes iff some existing id starts with "PN" and parses to it |
| FormulasPage.ScanStepResult | src/pages/Formulas.tsx:67-73 | each scan step keeps the counter equal to one more than the largest suffix seen, or 1 |
| FormulasPage.ScanResultUnique | src/pages/Formulas.tsx:66-74 | the scan's result does not depend on the order ids are visited |
| FormulasPage.ScanCounter | src/pages/Formulas.tsx:66-74 | the scan leaves the counter at max(1, largest suffix + 1) |
| FormulasPage.UniqueId | src/pages/Formulas.tsx:76-82 | the generated id is never an existing id |
| FormulasPage.UniqueIdCases | src/pages/Formulas.tsx:63-80 | with "PN001" free the result is "PN001"; otherwise it is "PN" and the largest suffix plus two |
| FormulasPage.UniqueIdFromScan | src/pages/Formulas.tsx:66-80 | the id after the scanned counter is free, so the while loop runs at most once past the initial id |
| FormulasPage.GenerateUniqueId | src/pages/Formulas.tsx:62-83 | the scan and while loop compute the specified id, which is not an existing id |
| FormulasPage.AssignedIdsSpec | src/pages/Formulas.tsx:257-264 | each row keeps its id when it is non-empty and unused, and otherwise gets a generated id; assigned ids avoid the catalog's ids and are pairwise distinct |
| FormulasPage.AssignIds | src/pages/Formulas.tsx:313-320 | the per-row loop over a growing used-id set computes the specified ids |
| FormulasPage.SheetToRow | src/pages/Formulas.tsx:259-279 | the id is the `ID` cell alone, with no field-name fallback; each of the other twelve fields is the Portuguese column's value when that is truthy (non-empty text, non-zero number) and the field name's value otherwise |
| FormulasPage.ToFormula | src/pages/Formulas.tsx:322-335 | an imported formula has the assigned id; each truthy text field (name, manufacturer, emulsion, route) is kept and a falsy one becomes "", "", "LCT" and "Central"; each present number is kept and a missing one is 0; osmolarity is kept when truthy and absent exactly when it is missing or zero |
| FormulasPage.SheetDefaults | src/pages/Formulas.tsx:276-277 | an Excel row whose two emulsion cells are both falsy imports as "LCT", one whose two route cells are both falsy as "Central", and a truthy Portuguese cell is imported as is |
| FormulasPage.ImportedCarriesIds | src/pages/Formulas.tsx:257-281 | the imported formulas carry the assigned ids, in row order |
| FormulasPage.ImportedIds | src/pages/Formulas.tsx:313-320 | one imported formula per row; their ids avoid the catalog's ids, are pairwise distinct, and keep every row id that was usable |
| FormulasPage.ImportRows | src/pages/Formulas.tsx:313-339 | the catalog becomes the old catalog followed by the imported rows |
| FormulasPage.ImportSheet | src/pages/Formulas.tsx:257-283 | an Excel import appends the mapped sheet rows |
| FormulasPage.PayloadRows | src/pages/Formulas.tsx:306-311 | an array payload is the rows; an object contributes its `formulas` array when present; anything else has no rows |
| FormulasPage.ImportJson | src/pages/Formulas.tsx:306-339 | a payload without an array of rows is refused and the catalog is unchanged; otherwise its rows are appended |
| FormulasPage.Listing | src/pages/Formulas.tsx:85-92 | the listing is an order-preserving sub-sequence holding exactly the formulas whose lower-cased name or manufacturer contains the lower-cased search text, under the case mapping `lower` that stands for `toLowerCase`, and which pass the route and manufacturer filters |
| FormulasPage.ListingUnfiltered | src/pages/Formulas.tsx:85-92 | an empty search with both filters at "all" lists the whole catalog, for any case mapping that maps the empty text to itself |
| FormulasPage.Find | src/pages/Formulas.tsx:102 | the lookup finds a formula iff one has the id, and returns the first such |
| FormulasPage.DeleteConfirmShape | src/pages/Formulas.tsx:99-121 | deleting keeps, in order, exactly the formulas with other ids; the selection is kept; undo is offered iff the id existed and re-appends the removed formula at the end |
| FormulasPage.DeleteUndoRestores | src/pages/Formulas.tsx:113-120 | with distinct ids, undoing a delete restores the same formulas, as a multiset |
| FormulasPage.DeleteSelectedShape | src/pages/Formulas.tsx:147-163 | bulk delete keeps, in order, exactly the unselected formulas, clears the selection, and its undo restores the same formulas |
| FormulasPage.DeleteAll | src/pages/Formulas.tsx:169-184 | delete all empties the catalog and the selection, and its undo restores the old catalog |
| FormulasPage.SaveExisting | src/pages/Formulas.tsx:196-201 | saving with an id replaces exactly the entries with that id and keeps the length; an unknown id changes nothing |
| FormulasPage.SaveNew | src/pages/Formulas.tsx:202-212 | saving without an id appends the data under a fresh id and keeps ids distinct |
| FormulasPage.Toggled | src/pages/Formulas.tsx:124-132 | toggling flips the membership of that id only |
| FormulasPage.ToggleTwice | src/pages/Formulas.tsx:124-132 | toggling twice restores the selection |
| FormulasPage.IdsOfSize | src/pages/Formulas.tsx:138 | the listed id set is at most as large as the listing, and exactly as large iff the listed ids are distinct |
| FormulasPage.ToggleAllTwice | src/pages/Formulas.tsx:134-140 | an incomplete selection becomes the listed ids; with distinct listed ids the box then counts as full and a second click clears it; a same-size selection is cleared even when disjoint from the listing; with a repeated listed id the second click selects the listed ids again instead of clearing |
| CalculatorPage.ToggledShape | src/pages/Calculator.tsx:80-84 | toggling removes a selected id and keeps the rest in order, and appends an unselected id |
| CalculatorPage.ToggleTwice | src/pages/Calculator.tsx:80-84 | toggling an unselected id twice restores the selection |
| CalculatorPage.SelectAll | src/pages/Calculator.tsx:86-88 | select all yields every catalog id in catalog order |
| CalculatorPage.SearchShape | src/pages/Calculator.tsx:63-73 | a blank search lists the catalog; any other keeps, in order, exactly the formulas whose lower-cased name, manufacturer, id or route contains the lower-cased term, under the case mapping `lower` that stands for `toLowerCase` |
| CalculatorPage.Available | src/pages/Calculator.tsx:75-78 | the offered formulas are the order-preserving sub-sequence of the catalog with selected ids |
| CalculatorPage.AvailableIgnoresOrder | src/pages/Calculator.tsx:75-78 | selections with the same ids offer the same formulas |
| CalculatorPage.SelectAllOffersCatalog | src/pages/Calculator.tsx:75-92 | select all offers the whole catalog and select none offers nothing |
| CalculatorPage.HandleOptimize | src/pages/Calculator.tsx:94-118 | with no selection, nothing runs and nothing is recorded; otherwise the shown answer is the wrapper's on the selection, and the history gains that request and answer |
| ConventionRoutes.NormalizePathShape | plugins/vite-plugin-convention-routes.ts:285-287 | normalising keeps the length, turns each backslash into "/", keeps every other character, and leaves no backslash |
| ConventionRoutes.NormalizePathIdempotent | plugins/vite-plugin-convention-routes.ts:285-287 | normalising twice is normalising once |
| ConventionRoutes.RewriteParamsPlain | plugins/vite-plugin-convention-routes.ts:273 | a path without "[" is not rewritten |
| ConventionRoutes.RewriteParamsParam | plugins/vite-plugin-convention-routes.ts:273 | "[name]" of word characters becomes ":name", and the rest is rewritten in turn |
| ConventionRoutes.RewriteParamsAppend | plugins/vite-plugin-convention-routes.ts:273 | rewriting distributes over a concatenation whose second part does not start with a word character or "]" |
| ConventionRoutes.IndexPageRoute | plugins/vite-plugin-convention-routes.ts:269-274 | "dir/index.tsx" and the other separator and extension combinations route to the rewritten directory |
| ConventionRoutes.TopIndexPageRoute | plugins/vite-plugin-convention-routes.ts:269-274 | a top-level "index.tsx" or "index.jsx" routes to "index" |
| ConventionRoutes.PageRoute | plugins/vite-plugin-convention-routes.ts:269-274 | a page file not ending in "/index" or "\index" routes to its rewritten stem |
| ConventionRoutes.InvisibleFolderShape | plugins/vite-plugin-convention-routes.ts:72-73 | a folder is invisible iff its name starts with "(" and ends with ")" |
| ConventionRoutes.SplitJoin | plugins/vite-plugin-convention-routes.ts:85 | splitting a path on the separator and joining it back gives the path; no piece holds the separator |
| ConventionRoutes.SplitInjective | plugins/vite-plugin-convention-routes.ts:85 | distinct paths split into distinct segment lists |
| ConventionRoutes.RewriteJoin | plugins/vite-plugin-convention-routes.ts:95-105 | rewriting a "/"-joined path equals rewriting each segment and joining |
| ConventionRoutes.RewritePath | plugins/vite-plugin-convention-routes.ts:269-274 | the whole-path rewrite agrees with the per-segment rewrite the tree applies |
| ConventionRoutes.IgnoreListShape | plugins/vite-plugin-convention-routes.ts:53-57 | the ignore list is the five defaults followed by the non-empty user patterns, and has no empty entry |
| ConventionRoutes.IgnoreListLone | plugins/vite-plugin-convention-routes.ts:53-57 | a lone pattern is wrapped in a list, dropped when empty; no patterns gives the defaults |
| ConventionRoutes.FindSet | plugins/vite-plugin-convention-routes.ts:96-116 | a level lookup after setting a key finds the new node, and other keys are unaffected |
| ConventionRoutes.SetKeys | plugins/vite-plugin-convention-routes.ts:96-116 | setting a present key keeps the key order; a new key is appended |
| ConventionRoutes.SetDistinct | plugins/vite-plugin-convention-routes.ts:96-116 | a level's keys stay distinct |
| ConventionRoutes.NewGroup | plugins/vite-plugin-convention-routes.ts:103-115 | a new group has the folder's name and no children; it is invisible iff the folder is; an invisible group's segment is "" and any other's is the rewritten name |
| ConventionRoutes.LeafRoutePath | plugins/vite-plugin-convention-routes.ts:86-102 | an index leaf has path ""; any other leaf's path is its file name routed; the leaf keeps its file and component |
| ConventionRoutes.InsertFinds | plugins/vite-plugin-convention-routes.ts:88-119 | after a successful insertion the leaf is found at its segment path |
| ConventionRoutes.InsertKeeps | plugins/vite-plugin-convention-routes.ts:107-117 | an insertion keeps every node found at a path that is neither the inserted path nor below it, with its kind, name and segment unchanged |
| ConventionRoutes.InsertCreatesGroups | plugins/vite-plugin-convention-routes.ts:103-117 | after insertion every folder on the path is a group, and a folder that was missing is a new group for that name |
| ConventionRoutes.BuildRouteTree | plugins/vite-plugin-convention-routes.ts:76-120 | the file loop computes the specified tree, stopping when a folder segment meets a route |
| ConventionRoutes.RouteTreeFails | plugins/vite-plugin-convention-routes.ts:76-120 | once a prefix of the files fails, the whole loop fails |
| ConventionRoutes.EveryPageRouted | plugins/vite-plugin-convention-routes.ts:76-120 | for distinct files where no file's segments lie under another's, every file's leaf is found at its segment path in the finished tree |
| Numeric.RoundError | src/lib/optimizer.ts:168-203 | rounding to d decimals moves a number by at most half a unit in the last place and keeps its sign |
| Numeric.ScaledUnitsRound | src/hooks/useOptimizer.ts:94-106 | the digits `toFixed` prints are those of the rounded magnitude |
| Numeric.ToFixed | src/hooks/useOptimizer.ts:94-106 | `toFixed` never yields an empty text |
| Text.NatTextRoundTrip | src/pages/Formulas.tsx:64 | the decimal text of a counter reads back as that counter |
| Text.ParsePadded | src/pages/Formulas.tsx:69-79 | `parseInt` of a zero-padded counter gives the counter |
| Text.ParseAllDigits | src/pages/Formulas.tsx:69 | `parseInt` of a non-empty digit string gives its decimal value |
| Text.PadStart | src/pages/Formulas.tsx:64 | padding reaches the width, ends with the original text, and fills only with the pad character |

## Left out

- The LP solver's internals. The solver is the parameter `solve`; nothing is claimed about optimality or feasibility of its quantities.
- Unicode case mapping. `toLowerCase` is the parameter `lower` of `CalculatorPage.Search` and `FormulasPage.Listing`, so nothing is assumed about it. In particular, lower-casing may change a text's length.
- IEEE floating point. Numbers are exact reals, and `toFixed`/`parseFloat` are `Numeric.Round` and `Numeric.ToFixed` with proved error bounds.
- Numeric.ToFixed: stated only as non-empty text. Its digits are tied to `Round` by `Numeric.ScaledUnitsRound`. JavaScript's exponent notation for magnitudes of 10^21 and above is not modelled.
- `String(x)` of a non-integer bound in the infeasibility clauses is printed with six decimals. JavaScript's shortest round-trip text is not modelled.
- Rendering, toasts, dialogs, analytics and Firebase calls: they have no effect on the modelled state.
- File and browser I/O is left out: XLSX and JSON parsing, FileReader, downloads, and the plugin's `fs` and `glob` calls. Parsed sheet rows and JSON payloads enter the model as typed records with optional fields; a missing or falsy value is `None`.
- `Number()` conversion of imported text cells and `NaN`.
- An imported id that is a number and not a text: an Excel `ID` cell (src/pages/Formulas.tsx:259) or a JSON `item.id` (src/pages/Formulas.tsx:315). Ids are text here. In the source a numeric id enters `existingIds`, and a later row that needs a generated id makes `id.startsWith` throw (src/pages/Formulas.tsx:67), so the whole import fails.
- Clocks and randomness. The history id and time stamp are parameters of `HistoryStore.Add`. The plugin's random component names are the `elements` parameter of the file loop.
- localStorage persistence and the Jotai and React state machinery. Each piece of state is a field or a value replaced wholesale.
- The catalog page's manufacturer list (src/pages/Formulas.tsx:59): display only.
- The plugin's emitted route code, preload map, imports set, `findComponent` and dev-server watcher (plugins/vite-plugin-convention-routes.ts:123-264, 294-341): code generation and filesystem probes.
- `path.parse(...).name` is modelled as stripping ".jsx" or ".tsx", the only extensions the file glob yields. `path.join` for import paths is left out.
- The route tree's nested `Map`s and the `currentLevel` alias into them are modelled as values updated by recursion, so no Map object is shared between levels. The TypeError thrown when a folder segment meets an existing route is the `None` result.
- ConventionRoutes.EveryPageRouted: proved only for file lists with distinct files where no file's segments are a prefix of another's. Otherwise a later route can replace an earlier node, as the source's Map does.
- Formula types: the record fields follow how the modelled files use them. src/types/formula.ts is not part of this model.
