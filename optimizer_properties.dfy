/** What the engine of `src/lib/optimizer.ts` promises about a whole request:
    which answers are errors, what an optimal answer holds, and how the bags'
    rounded contributions relate to the reported totals. */
module OptimizerProperties {
  import opened Options
  import opened Domain
  import opened Optimizer
  import Numeric

  /** The engine answers with the invalid-bounds error exactly when one of the
      seven bound checks fails. */
  lemma InvalidBoundsIffError(catalog: seq<Formula>, c: Constraints, selectedIds: seq<string>,
                              customCosts: map<string, real>, emulsion: string, via: string,
                              solve: LpModel -> SolverOutcome)
    ensures var r := OptimizeSpec(catalog, c, selectedIds, customCosts, emulsion, via, solve);
            (r.status == Error && r.message == Some(InvalidConstraintsMessage)) <==>
            (c.kcal_min < 0.0 || c.kcal_max < 0.0 || c.kcal_min > c.kcal_max ||
             c.protein_min < 0.0 || c.protein_max < 0.0 || c.protein_min > c.protein_max ||
             c.volume_max <= 0.0)
  {
    var r := OptimizeSpec(catalog, c, selectedIds, customCosts, emulsion, via, solve);
    if ValidConstraints(c) {
      MessagesDiffer();
      var available := AvailableFormulas(catalog, selectedIds, emulsion, via);
      if |available| > 0 {
        var vars := ModelVariables(available, customCosts);
        match solve(BuildModel(c, vars))
        case Infeasible =>
        case Throws(e) =>
          assert (SolverErrorPrefix + e)[0] == SolverErrorPrefix[0];
        case Feasible(objective, qty) =>
      }
    }
  }

  /** The invalid-bounds message is neither of the other error messages. */
  lemma MessagesDiffer()
    ensures NoFormulasMessage != InvalidConstraintsMessage
    ensures SolverErrorPrefix[0] != InvalidConstraintsMessage[0]
  {
    assert InvalidConstraintsMessage[0] == 'R';
    assert SolverErrorPrefix[0] == 'E';
  }

  /** With no candidate left after filtering, the answer is the no-formulas error
      whatever the solver would have said: the solver is not consulted. */
  lemma NoCandidatesNoSolve(catalog: seq<Formula>, c: Constraints, selectedIds: seq<string>,
                            customCosts: map<string, real>, emulsion: string, via: string,
                            solve1: LpModel -> SolverOutcome, solve2: LpModel -> SolverOutcome)
    requires ValidConstraints(c)
    requires forall i :: 0 <= i < |catalog| ==> !IsCandidate(catalog[i], selectedIds, emulsion, via)
    ensures OptimizeSpec(catalog, c, selectedIds, customCosts, emulsion, via, solve1) == ErrorResult(NoFormulasMessage)
    ensures OptimizeSpec(catalog, c, selectedIds, customCosts, emulsion, via, solve2) == ErrorResult(NoFormulasMessage)
  {
  }

  /** A solver that finds no solution or fails gives a result without any
      solution: the fixed infeasible message, or the solver's error text behind
      the error prefix. */
  lemma NonFeasibleOutcomes(catalog: seq<Formula>, c: Constraints, selectedIds: seq<string>,
                            customCosts: map<string, real>, emulsion: string, via: string,
                            solve: LpModel -> SolverOutcome)
    requires BuildsModel(catalog, c, selectedIds, emulsion, via)
    ensures var model := BuildModel(c, ModelVariables(AvailableFormulas(catalog, selectedIds, emulsion, via), customCosts));
            var r := OptimizeSpec(catalog, c, selectedIds, customCosts, emulsion, via, solve);
            (solve(model).Infeasible? ==> r.status == Status.Infeasible && r.message == Some(InfeasibleMessage) && IsEmptyOutcome(r)) &&
            (solve(model).Throws? ==> r.status == Error && r.message == Some(SolverErrorPrefix + solve(model).error) && IsEmptyOutcome(r)) &&
            (solve(model).Feasible? <==> r.status == Optimal)
  {
  }

  /** An optimal answer comes from a feasible solve of the model built from the
      candidates. */
  lemma OptimalIsExtract(catalog: seq<Formula>, c: Constraints, selectedIds: seq<string>,
                         customCosts: map<string, real>, emulsion: string, via: string,
                         solve: LpModel -> SolverOutcome)
    requires OptimizeSpec(catalog, c, selectedIds, customCosts, emulsion, via, solve).status == Optimal
    ensures BuildsModel(catalog, c, selectedIds, emulsion, via)
    ensures var available := AvailableFormulas(catalog, selectedIds, emulsion, via);
            var vars := ModelVariables(available, customCosts);
            var outcome := solve(BuildModel(c, vars));
            outcome.Feasible? &&
            OptimizeSpec(catalog, c, selectedIds, customCosts, emulsion, via, solve) ==
              ExtractSpec(outcome.quantities, outcome.objective, available, vars, c)
  {
  }

  // The shape of an extracted result ------------------------------------------

  /** An extracted result: status Optimal, no message, the rounded objective as
      cost, the candidates' bags sorted by descending cost, and `num_bags` their
      number. */
  lemma ExtractShape(qty: map<string, real>, objective: real, available: seq<Formula>,
                     vars: map<string, Coefficients>, c: Constraints)
    requires HasVariables(available, vars)
    ensures var r := ExtractSpec(qty, objective, available, vars, c);
            r.status == Optimal && r.message == None && r.total_cost == Some(Numeric.Round(objective, 2)) &&
            r.num_bags == |r.selected_bags| && SortedByCostDesc(r.selected_bags) &&
            multiset(r.selected_bags) == multiset(BagsOf(available, qty, vars))
  {
    SortByCostDescSorted(BagsOf(available, qty, vars));
  }

  /** Sequences with the same elements counted with multiplicity have the same
      members. */
  lemma SameMembers<T>(a: seq<T>, b: seq<T>)
    requires multiset(a) == multiset(b)
    ensures forall x :: x in a <==> x in b
  {
    forall x ensures x in a <==> x in b {
      assert x in a <==> x in multiset(a);
      assert x in b <==> x in multiset(b);
    }
  }

  /** A candidate has a bag in an extracted result if and only if the solver
      gave it a quantity above the threshold. */
  lemma ExtractBagsIncluded(qty: map<string, real>, objective: real, available: seq<Formula>,
                            vars: map<string, Coefficients>, c: Constraints)
    requires HasVariables(available, vars)
    ensures var r := ExtractSpec(qty, objective, available, vars, c);
            (forall k :: 0 <= k < |r.selected_bags| ==> IsBagOf(available, qty, vars, r.selected_bags[k])) &&
            (forall i :: 0 <= i < |available| && Included(available[i], qty) ==> BagAt(available, i, qty, vars) in r.selected_bags)
  {
    var r := ExtractSpec(qty, objective, available, vars, c);
    var bags := BagsOf(available, qty, vars);
    ExtractShape(qty, objective, available, vars, c);
    BagsOfIncluded(available, qty, vars);
    SameMembers(r.selected_bags, bags);
    forall k | 0 <= k < |r.selected_bags|
      ensures IsBagOf(available, qty, vars, r.selected_bags[k])
    {
      assert r.selected_bags[k] in bags;
    }
  }

  /** The bag's descriptive fields come from the `i`-th candidate, and its unit
      cost is the custom or base cost of a candidate with the same id. */
  predicate BagFrom(b: SelectedBag, fs: seq<Formula>, i: int, customCosts: map<string, real>) {
    0 <= i < |fs| &&
    b.formula_id == fs[i].id && b.name == fs[i].name && b.via == fs[i].via &&
    b.emulsion_type == fs[i].emulsion_type && b.manufacturer == fs[i].manufacturer &&
    exists m :: 0 <= m < |fs| && fs[m].id == fs[i].id && b.unit_cost == UnitCost(fs[m], customCosts)
  }

  predicate FromSomeCandidate(b: SelectedBag, fs: seq<Formula>, customCosts: map<string, real>) {
    exists i :: 0 <= i < |fs| && BagFrom(b, fs, i, customCosts)
  }

  /** The bag of the `i`-th candidate describes that candidate and is priced at
      the custom or base cost of the model variable with its id. */
  lemma BagAtFrom(fs: seq<Formula>, i: nat, qty: map<string, real>, customCosts: map<string, real>)
    requires i < |fs| && Included(fs[i], qty)
    ensures BagFrom(BagAt(fs, i, qty, ModelVariables(fs, customCosts)), fs, i, customCosts)
  {
    var vars := ModelVariables(fs, customCosts);
    ModelVariablesSource(fs, customCosts);
    var id := fs[i].id;
    var m :| 0 <= m < |fs| && fs[m].id == id && vars[id] == CoefficientsOf(fs[m], customCosts);
  }

  /** Bags of included candidates describe and price candidates. */
  lemma BagsFromCandidates(bags: seq<SelectedBag>, fs: seq<Formula>, qty: map<string, real>,
                           customCosts: map<string, real>)
    requires forall k :: 0 <= k < |bags| ==> IsBagOf(fs, qty, ModelVariables(fs, customCosts), bags[k])
    ensures forall k :: 0 <= k < |bags| ==> FromSomeCandidate(bags[k], fs, customCosts)
  {
    var vars := ModelVariables(fs, customCosts);
    forall k | 0 <= k < |bags|
      ensures FromSomeCandidate(bags[k], fs, customCosts)
    {
      assert IsBagOf(fs, qty, vars, bags[k]);
      var i :| 0 <= i < |fs| && Included(fs[i], qty) && bags[k] == BagAt(fs, i, qty, vars);
      BagAtFrom(fs, i, qty, customCosts);
      assert BagFrom(bags[k], fs, i, customCosts);
    }
  }

  /** Every bag of an extracted result describes and prices a candidate. */
  lemma ExtractBagsFrom(qty: map<string, real>, objective: real, available: seq<Formula>,
                        customCosts: map<string, real>, c: Constraints)
    ensures var r := ExtractSpec(qty, objective, available, ModelVariables(available, customCosts), c);
            forall k :: 0 <= k < |r.selected_bags| ==> FromSomeCandidate(r.selected_bags[k], available, customCosts)
  {
    var r := ExtractSpec(qty, objective, available, ModelVariables(available, customCosts), c);
    ExtractBagsIncluded(qty, objective, available, ModelVariables(available, customCosts), c);
    BagsFromCandidates(r.selected_bags, available, qty, customCosts);
  }

  /** Bags that describe and price candidates of the filtered catalog describe
      and price catalog formulas that pass the filters. */
  lemma FilteredBags(bags: seq<SelectedBag>, catalog: seq<Formula>, selectedIds: seq<string>,
                     customCosts: map<string, real>, emulsion: string, via: string)
    requires forall k :: 0 <= k < |bags| ==>
               FromSomeCandidate(bags[k], AvailableFormulas(catalog, selectedIds, emulsion, via), customCosts)
    ensures forall k :: 0 <= k < |bags| ==> BagFromCandidate(bags[k], catalog, selectedIds, customCosts, emulsion, via)
  {
    var available := AvailableFormulas(catalog, selectedIds, emulsion, via);
    forall k | 0 <= k < |bags|
      ensures BagFromCandidate(bags[k], catalog, selectedIds, customCosts, emulsion, via)
    {
      var i :| 0 <= i < |available| && BagFrom(bags[k], available, i, customCosts);
      var m :| 0 <= m < |available| && available[m].id == available[i].id &&
               bags[k].unit_cost == UnitCost(available[m], customCosts);
      assert available[i] in available && available[m] in available;
    }
  }

  // The shape of an optimal answer ----------------------------------------------

  /** An optimal answer: no message, the rounded objective as cost, bags sorted
      by descending total cost, and `num_bags` their number. */
  lemma OptimalResultShape(catalog: seq<Formula>, c: Constraints, selectedIds: seq<string>,
                           customCosts: map<string, real>, emulsion: string, via: string,
                           solve: LpModel -> SolverOutcome)
    requires OptimizeSpec(catalog, c, selectedIds, customCosts, emulsion, via, solve).status == Optimal
    ensures var r := OptimizeSpec(catalog, c, selectedIds, customCosts, emulsion, via, solve);
            var model := BuildModel(c, ModelVariables(AvailableFormulas(catalog, selectedIds, emulsion, via), customCosts));
            solve(model).Feasible? &&
            r.message == None && r.total_cost == Some(Numeric.Round(solve(model).objective, 2)) &&
            r.num_bags == |r.selected_bags| && SortedByCostDesc(r.selected_bags)
  {
    OptimalIsExtract(catalog, c, selectedIds, customCosts, emulsion, via, solve);
    var available := AvailableFormulas(catalog, selectedIds, emulsion, via);
    var vars := ModelVariables(available, customCosts);
    var outcome := solve(BuildModel(c, vars));
    ExtractShape(outcome.quantities, outcome.objective, available, vars, c);
  }

  /** The bag comes from a catalog formula that passes the three filters, and its
      unit cost is the custom or base cost of such a formula with the same id. */
  predicate BagFromCandidate(b: SelectedBag, catalog: seq<Formula>, selectedIds: seq<string>,
                             customCosts: map<string, real>, emulsion: string, via: string) {
    (exists f :: f in catalog && IsCandidate(f, selectedIds, emulsion, via) &&
       b.formula_id == f.id && b.name == f.name && b.via == f.via &&
       b.emulsion_type == f.emulsion_type && b.manufacturer == f.manufacturer) &&
    (exists g :: g in catalog && IsCandidate(g, selectedIds, emulsion, via) &&
       g.id == b.formula_id && b.unit_cost == UnitCost(g, customCosts))
  }

  /** Every bag of an optimal answer is a catalog formula that passes the id,
      emulsion and route filters, priced at its custom or base cost. */
  lemma OptimalBagsFiltered(catalog: seq<Formula>, c: Constraints, selectedIds: seq<string>,
                            customCosts: map<string, real>, emulsion: string, via: string,
                            solve: LpModel -> SolverOutcome)
    requires OptimizeSpec(catalog, c, selectedIds, customCosts, emulsion, via, solve).status == Optimal
    ensures var r := OptimizeSpec(catalog, c, selectedIds, customCosts, emulsion, via, solve);
            forall k :: 0 <= k < |r.selected_bags| ==>
              BagFromCandidate(r.selected_bags[k], catalog, selectedIds, customCosts, emulsion, via)
  {
    OptimalIsExtract(catalog, c, selectedIds, customCosts, emulsion, via, solve);
    var available := AvailableFormulas(catalog, selectedIds, emulsion, via);
    var outcome := solve(BuildModel(c, ModelVariables(available, customCosts)));
    var r := OptimizeSpec(catalog, c, selectedIds, customCosts, emulsion, via, solve);
    ExtractBagsFrom(outcome.quantities, outcome.objective, available, customCosts, c);
    assert r.selected_bags == ExtractSpec(outcome.quantities, outcome.objective, available,
                                          ModelVariables(available, customCosts), c).selected_bags;
    FilteredBags(r.selected_bags, catalog, selectedIds, customCosts, emulsion, via);
  }


  /** In an optimal answer, a candidate has a bag exactly when the solver gave it
      a quantity above the threshold. */
  lemma OptimalBagsIncluded(catalog: seq<Formula>, c: Constraints, selectedIds: seq<string>,
                            customCosts: map<string, real>, emulsion: string, via: string,
                            solve: LpModel -> SolverOutcome)
    requires OptimizeSpec(catalog, c, selectedIds, customCosts, emulsion, via, solve).status == Optimal
    ensures var available := AvailableFormulas(catalog, selectedIds, emulsion, via);
            var vars := ModelVariables(available, customCosts);
            var qty := solve(BuildModel(c, vars)).quantities;
            var r := OptimizeSpec(catalog, c, selectedIds, customCosts, emulsion, via, solve);
            solve(BuildModel(c, vars)).Feasible? &&
            (forall k :: 0 <= k < |r.selected_bags| ==> IsBagOf(available, qty, vars, r.selected_bags[k])) &&
            (forall i :: 0 <= i < |available| && Included(available[i], qty) ==> BagAt(available, i, qty, vars) in r.selected_bags)
  {
    OptimalIsExtract(catalog, c, selectedIds, customCosts, emulsion, via, solve);
    var available := AvailableFormulas(catalog, selectedIds, emulsion, via);
    var vars := ModelVariables(available, customCosts);
    var outcome := solve(BuildModel(c, vars));
    ExtractBagsIncluded(outcome.quantities, outcome.objective, available, vars, c);
  }

  // Contributions and totals ----------------------------------------------------

  /** The sum of one reported contribution over a list of bags. */
  function SumOf(s: seq<SelectedBag>, n: Nutrient): real
    requires Reported(n)
    decreases |s|
  {
    if s == [] then 0.0 else Contribution(s[0], n) + SumOf(s[1..], n)
  }

  lemma {:induction false} SumOfAppend(a: seq<SelectedBag>, b: SelectedBag, n: Nutrient)
    requires Reported(n)
    ensures SumOf(a + [b], n) == SumOf(a, n) + Contribution(b, n)
    decreases |a|
  {
    if a != [] {
      assert (a + [b])[1..] == a[1..] + [b];
      SumOfAppend(a[1..], b, n);
    }
  }

  lemma {:induction false} SumOfInsert(b: SelectedBag, s: seq<SelectedBag>, n: Nutrient)
    requires Reported(n)
    ensures SumOf(InsertByCost(b, s), n) == Contribution(b, n) + SumOf(s, n)
    decreases |s|
  {
    if s != [] && s[0].total_cost >= b.total_cost {
      SumOfInsert(b, s[1..], n);
      assert InsertByCost(b, s)[1..] == InsertByCost(b, s[1..]);
    }
  }

  /** Sorting the bags does not change the sum of their contributions. */
  lemma {:induction false} SumOfSorted(s: seq<SelectedBag>, n: Nutrient)
    requires Reported(n)
    ensures SumOf(SortByCostDesc(s), n) == SumOf(s, n)
    decreases |s|
  {
    if s != [] {
      var init, last := s[..|s| - 1], s[|s| - 1];
      assert s == init + [last];
      SumOfSorted(init, n);
      SumOfInsert(last, SortByCostDesc(init), n);
      SumOfAppend(init, last, n);
    }
  }

  /** Each bag's contribution is its exact term rounded, so the contributions sum
      to the exact total up to half a unit per bag. */
  lemma {:induction false} ContributionsNearTotals(fs: seq<Formula>, qty: map<string, real>,
                                                   vars: map<string, Coefficients>, n: Nutrient)
    requires HasVariables(fs, vars) && Reported(n)
    ensures Numeric.Abs(SumOf(BagsOf(fs, qty, vars), n) - Component(Totals(fs, qty, vars), n))
              <= Slack(|BagsOf(fs, qty, vars)|, Decimals(n))
    decreases |fs|
  {
    if fs != [] {
      var init, last := fs[..|fs| - 1], fs[|fs| - 1];
      assert HasVariables(init, vars) by {
        assert forall i :: 0 <= i < |init| ==> init[i] == fs[i];
      }
      var h := Numeric.HalfUnit(Decimals(n));
      var a0, t := BagsOf(init, qty, vars), Totals(init, qty, vars);
      if Included(last, qty) {
        var q, v := qty[last.id], vars[last.id];
        var b := MakeBag(last, q, v);
        ContributionsNearTotals(init, qty, vars, n);
        assert BagsOf(fs, qty, vars) == a0 + [b];
        assert Totals(fs, qty, vars) == AddBagTo(t, q, v);
        SumOfAppend(a0, b, n);
        BagContribution(last, q, v, n);
        var x := q * Coefficient(v, n);
        AddBagComponent(t, q, v, n);
        AbsSumStep(SumOf(a0, n), Component(t, n), Contribution(b, n), x, Slack(|a0|, Decimals(n)), h);
      } else {
        ContributionsNearTotals(init, qty, vars, n);
        assert BagsOf(fs, qty, vars) == a0;
        assert Totals(fs, qty, vars) == t;
      }
    }
  }

  /** A reported contribution is its exact term rounded to the nutrient's
      decimals, so it is within half a unit of that term. */
  lemma BagContribution(f: Formula, q: real, v: Coefficients, n: Nutrient)
    requires Reported(n)
    ensures Numeric.Abs(Contribution(MakeBag(f, q, v), n) - q * Coefficient(v, n)) <= Numeric.HalfUnit(Decimals(n))
  {
    MakeBagContribution(f, q, v, n);
    ContributionOfNear(q, v, n);
  }

  lemma MakeBagContribution(f: Formula, q: real, v: Coefficients, n: Nutrient)
    requires Reported(n)
    ensures Contribution(MakeBag(f, q, v), n) == ContributionOf(q, v, n)
  {
  }

  lemma ContributionOfNear(q: real, v: Coefficients, n: Nutrient)
    ensures Numeric.Abs(ContributionOf(q, v, n) - q * Coefficient(v, n)) <= Numeric.HalfUnit(Decimals(n))
  {
  }

  lemma AbsSumStep(a: real, t: real, c: real, x: real, s: real, h: real)
    requires Numeric.Abs(a - t) <= s
    requires Numeric.Abs(c - x) <= h
    ensures Numeric.Abs((a + c) - (t + x)) <= s + h
  {
  }

  /** Half a unit of 10^-d, `k` times over. */
  function Slack(k: nat, d: nat): real {
    if k == 0 then 0.0 else Slack(k - 1, d) + Numeric.HalfUnit(d)
  }

  lemma {:induction false} SlackIsProduct(k: nat, d: nat)
    ensures Slack(k, d) == k as real * Numeric.HalfUnit(d)
  {
    if k > 0 {
      SlackIsProduct(k - 1, d);
    }
  }

  /** The reported total of a nutrient in a result. */
  function ReportedTotal(r: OptimizationResult, n: Nutrient): real
    requires Reported(n)
  {
    match n
    case Kcal => r.total_kcal
    case Protein => r.total_protein
    case Volume => r.total_volume
  }

  /** A result's reported total of a nutrient is the rounded exact total. */
  lemma ExtractReportedTotal(qty: map<string, real>, objective: real, available: seq<Formula>,
                             vars: map<string, Coefficients>, c: Constraints, n: Nutrient)
    requires HasVariables(available, vars) && Reported(n)
    ensures ReportedTotal(ExtractSpec(qty, objective, available, vars, c), n) == RoundedTotal(Totals(available, qty, vars), n)
  {
  }

  /** The sorted bags' contributions add up to the rounded exact total within
      half a unit for each bag and one more for the rounding of the total. */
  lemma SortedContributionsSum(available: seq<Formula>, qty: map<string, real>,
                               vars: map<string, Coefficients>, n: Nutrient)
    requires HasVariables(available, vars) && Reported(n)
    ensures var bags := BagsOf(available, qty, vars);
            var t := Totals(available, qty, vars);
            Numeric.Abs(SumOf(SortByCostDesc(bags), n) - RoundedTotal(t, n))
              <= Slack(|bags|, Decimals(n)) + Numeric.HalfUnit(Decimals(n))
  {
    ContributionsNearTotals(available, qty, vars, n);
    SortedNearRounded(BagsOf(available, qty, vars), Totals(available, qty, vars), n);
  }

  /** Sorting the bags and rounding the total add half a unit to the bound. */
  lemma SortedNearRounded(bags: seq<SelectedBag>, t: Sums, n: Nutrient)
    requires Reported(n)
    requires Numeric.Abs(SumOf(bags, n) - Component(t, n)) <= Slack(|bags|, Decimals(n))
    ensures Numeric.Abs(SumOf(SortByCostDesc(bags), n) - RoundedTotal(t, n))
              <= Slack(|bags|, Decimals(n)) + Numeric.HalfUnit(Decimals(n))
  {
    SumOfSorted(bags, n);
    TriangleSlack(SumOf(SortByCostDesc(bags), n), SumOf(bags, n), Component(t, n), RoundedTotal(t, n),
                  |bags|, Decimals(n));
  }

  /** The bags of an extracted result are the included candidates' bags, sorted. */
  lemma ExtractBags(qty: map<string, real>, objective: real, available: seq<Formula>,
                    vars: map<string, Coefficients>, c: Constraints)
    requires HasVariables(available, vars)
    ensures var r := ExtractSpec(qty, objective, available, vars, c);
            r.selected_bags == SortByCostDesc(BagsOf(available, qty, vars)) &&
            r.num_bags == |BagsOf(available, qty, vars)|
  {
  }

  lemma TriangleSlack(reportedSum: real, sum: real, exact: real, reported: real, k: nat, d: nat)
    requires reportedSum == sum
    requires Numeric.Abs(sum - exact) <= Slack(k, d)
    requires Numeric.Abs(reported - exact) <= Numeric.HalfUnit(d)
    ensures Numeric.Abs(reportedSum - reported) <= Slack(k + 1, d)
  {
  }

  /** In an optimal answer the bags' contributions add up to the reported total
      within half a unit for each bag and one more for the rounded total. */
  lemma OptimalContributionsSum(catalog: seq<Formula>, c: Constraints, selectedIds: seq<string>,
                                customCosts: map<string, real>, emulsion: string, via: string,
                                solve: LpModel -> SolverOutcome, n: Nutrient)
    requires Reported(n)
    requires OptimizeSpec(catalog, c, selectedIds, customCosts, emulsion, via, solve).status == Optimal
    ensures var r := OptimizeSpec(catalog, c, selectedIds, customCosts, emulsion, via, solve);
            Numeric.Abs(SumOf(r.selected_bags, n) - ReportedTotal(r, n))
              <= Slack(r.num_bags, Decimals(n)) + Numeric.HalfUnit(Decimals(n))
  {
    OptimalIsExtract(catalog, c, selectedIds, customCosts, emulsion, via, solve);
    var available := AvailableFormulas(catalog, selectedIds, emulsion, via);
    var vars := ModelVariables(available, customCosts);
    var outcome := solve(BuildModel(c, vars));
    ExtractBags(outcome.quantities, outcome.objective, available, vars, c);
    ExtractReportedTotal(outcome.quantities, outcome.objective, available, vars, c, n);
    SortedContributionsSum(available, outcome.quantities, vars, n);
  }
}
