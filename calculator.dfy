/** The optimisation calculator page: the formula selection (toggle, select all,
    select none), the catalog search, the formulas offered to the optimiser, and
    the guard and bookkeeping of the "optimise" button. */
module CalculatorPage {
  import opened Options
  import opened Domain
  import Seqs
  import Text
  import Optimizer
  import OptimizerHook
  import History

  // ---------------------------------------------------------------------------
  // Selection

  /** Clicking a formula: a selected id is removed, any other id is appended. */
  function Toggled(selected: seq<string>, id: string): seq<string> {
    if id in selected then Seqs.Filter(selected, (fid: string) => fid != id) else selected + [id]
  }

  /** Toggling removes every occurrence of a selected id and keeps the other ids
      in order, and appends an unselected id at the end. */
  lemma ToggledShape(selected: seq<string>, id: string)
    ensures id in selected ==>
              var r := Toggled(selected, id);
              id !in r && Seqs.IsSubsequence(r, selected) &&
              forall x :: x != id ==> (x in r <==> x in selected)
    ensures id !in selected ==> Toggled(selected, id) == selected + [id]
  {
    if id in selected {
      var r := Toggled(selected, id);
      forall x | x != id && x in selected ensures x in r {
        var k :| 0 <= k < |selected| && selected[k] == x;
      }
    }
  }

  /** Toggling an unselected formula twice restores the selection. */
  lemma ToggleTwice(selected: seq<string>, id: string)
    requires id !in selected
    ensures Toggled(Toggled(selected, id), id) == selected
  {
    var p := (fid: string) => fid != id;
    Seqs.FilterAppend(selected, [id], p);
    Seqs.FilterAll(selected, p);
    assert Seqs.Filter([id], p) == [];
  }

  /** "Select all": every catalog id, in catalog order. */
  function SelectAll(formulas: seq<Formula>): (r: seq<string>)
    ensures |r| == |formulas|
    ensures forall k :: 0 <= k < |formulas| ==> r[k] == formulas[k].id
  {
    Ids(formulas)
  }

  /** "Select none". */
  function DeselectAll(): seq<string> {
    []
  }

  // ---------------------------------------------------------------------------
  // Search and availability

  /** A formula matches a search term when its name, manufacturer, id or route,
      lower-cased, contains the lower-cased term. `lower` is the platform's
      `toLowerCase`, a parameter: the model assumes nothing about Unicode case
      mapping. */
  predicate Matches(f: Formula, term: string, lower: string -> string) {
    var q := lower(term);
    Text.Contains(lower(f.name), q) || Text.Contains(lower(f.manufacturer), q) ||
    Text.Contains(lower(f.id), q) || Text.Contains(lower(f.via), q)
  }

  /** The formulas listed for selection: the whole catalog for a blank term,
      otherwise the matching formulas. The term itself is not trimmed. */
  function Search(formulas: seq<Formula>, term: string, lower: string -> string): seq<Formula> {
    if Text.IsBlank(term) then formulas
    else Seqs.Filter(formulas, f => Matches(f, term, lower))
  }

  /** A blank term lists the whole catalog; any other keeps, in catalog order,
      exactly the matching formulas. */
  lemma SearchShape(formulas: seq<Formula>, term: string, lower: string -> string)
    ensures Text.IsBlank(term) ==> Search(formulas, term, lower) == formulas
    ensures !Text.IsBlank(term) ==>
              var r := Search(formulas, term, lower);
              Seqs.IsSubsequence(r, formulas) &&
              forall f :: f in r <==> f in formulas && Matches(f, term, lower)
  {
    if !Text.IsBlank(term) {
      var r := Search(formulas, term, lower);
      forall f | f in formulas && Matches(f, term, lower) ensures f in r {
        var k :| 0 <= k < |formulas| && formulas[k] == f;
      }
      forall f | f in r ensures Matches(f, term, lower) {
        var k :| 0 <= k < |r| && r[k] == f;
      }
    }
  }

  /** The formulas handed to the optimiser: the catalog formulas whose ids are
      selected, in catalog order. */
  function Available(formulas: seq<Formula>, selected: seq<string>): (r: seq<Formula>)
    ensures Seqs.IsSubsequence(r, formulas)
    ensures forall f :: f in r <==> f in formulas && f.id in selected
  {
    var r := Seqs.Filter(formulas, (f: Formula) => f.id in selected);
    assert forall f :: f in r ==> f.id in selected by {
      forall f | f in r ensures f.id in selected {
        var k :| 0 <= k < |r| && r[k] == f;
      }
    }
    r
  }

  /** The order of the selection does not matter: selections with the same ids
      offer the same formulas. */
  lemma AvailableIgnoresOrder(formulas: seq<Formula>, s1: seq<string>, s2: seq<string>)
    requires forall x :: x in s1 <==> x in s2
    ensures Available(formulas, s1) == Available(formulas, s2)
  {
    Seqs.FilterSame(formulas, (f: Formula) => f.id in s1, (f: Formula) => f.id in s2);
  }

  /** Selecting all offers the whole catalog; selecting none offers nothing. */
  lemma SelectAllOffersCatalog(formulas: seq<Formula>)
    ensures Available(formulas, SelectAll(formulas)) == formulas
    ensures Available(formulas, DeselectAll()) == []
  {
    var all := SelectAll(formulas);
    forall f | f in formulas ensures f.id in all {
      var k :| 0 <= k < |formulas| && formulas[k] == f;
      assert all[k] == f.id;
    }
    Seqs.FilterAll(formulas, (f: Formula) => f.id in all);
  }

  // ---------------------------------------------------------------------------
  // The optimise button

  /** `handleOptimize`: with nothing selected it stops before the optimiser and
      the history; otherwise it runs the optimiser hook on the selection, with no
      custom costs and both filters at "All", and records the request and its
      answer in the history under the id and time the store draws. */
  method HandleOptimize(hook: OptimizerHook.Hook, history: History.HistoryStore,
                        c: Constraints, selected: seq<string>,
                        solve: Optimizer.LpModel -> Optimizer.SolverOutcome,
                        entryId: string, timestamp: int)
    returns (shown: Option<OptimizationResult>)
    modifies hook, hook.optimizer, history
    ensures selected == [] ==> shown == None
    ensures selected == [] ==> unchanged(hook, hook.optimizer, history)
    ensures selected != [] ==>
              shown == Some(OptimizerHook.HookSpec(hook.optimizer.formulas, c, selected, map[],
                                                   Optimizer.AllFilter, Optimizer.AllFilter, solve))
    ensures selected != [] ==>
              history.entries == History.Added(old(history.entries),
                History.Stamp(History.Record(c, None, shown.value, selected), entryId, timestamp))
  {
    if |selected| == 0 {
      return None;
    }
    var result := hook.Optimize(c, selected, map[], Optimizer.AllFilter, Optimizer.AllFilter, solve);
    shown := Some(result);
    history.Add(History.Record(c, None, result, selected), entryId, timestamp);
  }
}
