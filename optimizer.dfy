/** The optimisation engine of `src/lib/optimizer.ts`: validation of the bounds,
    filtering of the catalog, construction of the linear-programming model, a
    call to the solver, and the shaping of the solver's answer into a result.

    The solver is an oracle `solve: LpModel -> SolverOutcome`; nothing is
    assumed about the quantities it returns. */
module Optimizer {
  import opened Options
  import opened Domain
  import opened Seqs
  import Numeric

  const InvalidConstraintsMessage := "Restrições inválidas fornecidas"
  const NoFormulasMessage := "Nenhuma fórmula disponível com os filtros atuais"
  const InfeasibleMessage := "Problema inviável - restrições não podem ser satisfeitas"
  const SolverErrorPrefix := "Erro na otimização: "
  /** The filter value that disables the emulsion and the route filters. */
  const AllFilter := "All"
  /** Absolute tolerance of the satisfaction check. */
  const Tolerance := 0.1
  /** A solved quantity at or below this is treated as "not used". */
  const QuantityThreshold := 0.001
  /** Lower bound of the total-bags constraint: at least some formula is used. */
  const MinTotalBags := 0.1

  // ---------------------------------------------------------------------------
  // Validation

  /** The bounds the engine accepts: both kcal bounds and both protein bounds
      non-negative and ordered, and a positive volume bound. `max_bags` is not
      looked at. */
  predicate ValidConstraints(c: Constraints) {
    !(c.kcal_min < 0.0 || c.kcal_max < 0.0 || c.kcal_min > c.kcal_max) &&
    !(c.protein_min < 0.0 || c.protein_max < 0.0 || c.protein_min > c.protein_max) &&
    !(c.volume_max <= 0.0)
  }

  // ---------------------------------------------------------------------------
  // Candidate formulas

  /** The three filters of one request; an empty id list and the value "All"
      switch the corresponding filter off. */
  predicate IsCandidate(f: Formula, selectedIds: seq<string>, emulsion: string, via: string) {
    (|selectedIds| == 0 || f.id in selectedIds) &&
    (emulsion == AllFilter || f.emulsion_type == emulsion) &&
    (via == AllFilter || f.via == via)
  }

  /** The catalog narrowed by selected ids (when any), then by emulsion type, then
      by route, each step an order-preserving filter. */
  function AvailableFormulas(catalog: seq<Formula>, selectedIds: seq<string>, emulsion: string, via: string)
    : (r: seq<Formula>)
    ensures IsSubsequence(r, catalog)
    ensures forall i :: 0 <= i < |r| ==> r[i] in catalog && IsCandidate(r[i], selectedIds, emulsion, via)
    ensures forall i :: 0 <= i < |catalog| && IsCandidate(catalog[i], selectedIds, emulsion, via) ==> catalog[i] in r
  {
    var pId := (f: Formula) => f.id in selectedIds;
    var pEm := (f: Formula) => f.emulsion_type == emulsion;
    var pVia := (f: Formula) => f.via == via;
    var byId := if |selectedIds| > 0 then Filter(catalog, pId) else catalog;
    var byEmulsion := if emulsion != AllFilter then Filter(byId, pEm) else byId;
    var byVia := if via != AllFilter then Filter(byEmulsion, pVia) else byEmulsion;
    var pAll := (f: Formula) => IsCandidate(f, selectedIds, emulsion, via);
    AvailableIsOneFilter(catalog, selectedIds, emulsion, via, pId, pEm, pVia, pAll, byId, byEmulsion, byVia);
    byVia
  }

  /** The three filters in a row keep what one filter by `IsCandidate` keeps. */
  lemma AvailableIsOneFilter(catalog: seq<Formula>, selectedIds: seq<string>, emulsion: string, via: string,
                             pId: Formula -> bool, pEm: Formula -> bool, pVia: Formula -> bool, pAll: Formula -> bool,
                             byId: seq<Formula>, byEmulsion: seq<Formula>, byVia: seq<Formula>)
    requires forall f :: pId(f) == (f.id in selectedIds)
    requires forall f :: pEm(f) == (f.emulsion_type == emulsion)
    requires forall f :: pVia(f) == (f.via == via)
    requires forall f :: pAll(f) == IsCandidate(f, selectedIds, emulsion, via)
    requires byId == if |selectedIds| > 0 then Filter(catalog, pId) else catalog
    requires byEmulsion == if emulsion != AllFilter then Filter(byId, pEm) else byId
    requires byVia == if via != AllFilter then Filter(byEmulsion, pVia) else byEmulsion
    ensures byVia == Filter(catalog, pAll)
  {
    var qId := (f: Formula) => |selectedIds| == 0 || f.id in selectedIds;
    var qEm := (f: Formula) => emulsion == AllFilter || f.emulsion_type == emulsion;
    var qVia := (f: Formula) => via == AllFilter || f.via == via;
    FilterWhen(catalog, |selectedIds| > 0, pId, qId);
    FilterWhen(byId, emulsion != AllFilter, pEm, qEm);
    FilterWhen(byEmulsion, via != AllFilter, pVia, qVia);
    var qIdEm := (f: Formula) => qId(f) && qEm(f);
    FilterFusion(catalog, qId, qEm, qIdEm);
    FilterFusion(catalog, qIdEm, qVia, pAll);
  }

  // ---------------------------------------------------------------------------
  // The linear-programming model

  /** The coefficients of one decision variable: what one bag of the formula
      costs and contributes. */
  datatype Coefficients = Coefficients(
    cost: real, kcal: real, protein: real, volume: real,
    nitrogen: real, glucose: real, fat: real, total_bags: real)

  /** Grams of a nutrient in one bag, from its concentration in g/L and the bag
      volume in mL. */
  function MassPerBag(gramsPerLitre: real, volumeMl: real): (m: real)
    ensures gramsPerLitre >= 0.0 && volumeMl >= 0.0 ==> m >= 0.0
    ensures volumeMl == 1000.0 ==> m == gramsPerLitre
  {
    gramsPerLitre * volumeMl / 1000.0
  }

  /** The unit cost of a formula: its custom cost when one is given for its id,
      else its base cost. */
  function UnitCost(f: Formula, customCosts: map<string, real>): real {
    if f.id in customCosts then customCosts[f.id] else f.base_cost
  }

  function CoefficientsOf(f: Formula, customCosts: map<string, real>): (v: Coefficients)
    ensures v.cost == UnitCost(f, customCosts)
    ensures v.protein == MassPerBag(f.protein_g_l, f.volume_ml)
    ensures v.nitrogen == MassPerBag(f.nitrogen_g_l, f.volume_ml)
    ensures v.glucose == MassPerBag(f.glucose_g_l, f.volume_ml)
    ensures v.fat == MassPerBag(f.fat_g_l, f.volume_ml)
    ensures v.kcal == f.kcal && v.volume == f.volume_ml && v.total_bags == 1.0
  {
    Coefficients(UnitCost(f, customCosts), f.kcal,
                 MassPerBag(f.protein_g_l, f.volume_ml), f.volume_ml,
                 MassPerBag(f.nitrogen_g_l, f.volume_ml), MassPerBag(f.glucose_g_l, f.volume_ml),
                 MassPerBag(f.fat_g_l, f.volume_ml), 1.0)
  }

  /** The variables of the model, keyed by formula id, as the loop that fills
      them leaves them: a later formula with the same id overwrites an earlier
      one. */
  function ModelVariables(fs: seq<Formula>, customCosts: map<string, real>): (r: map<string, Coefficients>)
    ensures HasVariables(fs, r)
    decreases |fs|
  {
    if fs == [] then map[]
    else
      var init, last := fs[..|fs| - 1], fs[|fs| - 1];
      var r0 := ModelVariables(init, customCosts);
      assert forall i :: 0 <= i < |init| ==> init[i] == fs[i];
      r0[last.id := CoefficientsOf(last, customCosts)]
  }

  /** Every variable comes from a candidate with its id. */
  lemma {:induction false} ModelVariablesSource(fs: seq<Formula>, customCosts: map<string, real>)
    ensures forall id :: id in ModelVariables(fs, customCosts) ==>
              exists j :: 0 <= j < |fs| && fs[j].id == id && ModelVariables(fs, customCosts)[id] == CoefficientsOf(fs[j], customCosts)
    decreases |fs|
  {
    if fs != [] {
      var init, last := fs[..|fs| - 1], fs[|fs| - 1];
      ModelVariablesSource(init, customCosts);
      var r0, r := ModelVariables(init, customCosts), ModelVariables(fs, customCosts);
      forall id | id in r
        ensures exists j :: 0 <= j < |fs| && fs[j].id == id && r[id] == CoefficientsOf(fs[j], customCosts)
      {
        if id == last.id {
          assert fs[|fs| - 1].id == id;
        } else {
          var j :| 0 <= j < |init| && init[j].id == id && r0[id] == CoefficientsOf(init[j], customCosts);
          assert fs[j] == init[j];
        }
      }
    }
  }

  /** The last candidate with a given id is the one whose coefficients the
      model holds. */
  lemma {:induction false} ModelVariablesLast(fs: seq<Formula>, customCosts: map<string, real>)
    ensures forall i :: 0 <= i < |fs| && (forall j :: i < j < |fs| ==> fs[j].id != fs[i].id) ==>
              ModelVariables(fs, customCosts)[fs[i].id] == CoefficientsOf(fs[i], customCosts)
    decreases |fs|
  {
    if fs != [] {
      var init := fs[..|fs| - 1];
      ModelVariablesLast(init, customCosts);
      forall i | 0 <= i < |fs| - 1 && (forall j :: i < j < |fs| ==> fs[j].id != fs[i].id)
        ensures ModelVariables(fs, customCosts)[fs[i].id] == CoefficientsOf(fs[i], customCosts)
      {
        assert fs[i] == init[i];
        assert forall j :: i < j < |init| ==> init[j] == fs[j];
      }
    }
  }

  /** A range constraint of the model; `None` is an absent side. */
  datatype Range = Range(min: Option<real>, max: Option<real>)

  datatype ModelConstraints = ModelConstraints(
    kcal: Option<Range>, protein: Option<Range>, volume: Option<Range>, total_bags: Range)

  datatype LpModel = LpModel(
    optimize: string, opType: string, constraints: ModelConstraints, variables: map<string, Coefficients>)

  /** The constraints registered on the model. */
  function BuildConstraints(c: Constraints): (mc: ModelConstraints)
    ensures mc.kcal.Some? <==> c.kcal_min > 0.0 || c.kcal_max > 0.0
    ensures mc.kcal.Some? ==> mc.kcal.value == Range(Some(c.kcal_min), Some(c.kcal_max))
    ensures mc.protein.Some? <==> c.protein_min > 0.0 || c.protein_max > 0.0
    ensures mc.protein.Some? ==> mc.protein.value == Range(Some(c.protein_min), Some(c.protein_max))
    ensures mc.volume.Some? <==> c.volume_max > 0.0
    ensures mc.volume.Some? ==> mc.volume.value == Range(None, Some(c.volume_max))
    ensures mc.total_bags.min == Some(MinTotalBags)
    ensures mc.total_bags.max.Some? <==> c.max_bags.Some? && c.max_bags.value > 0.0
    ensures mc.total_bags.max.Some? ==> mc.total_bags.max == c.max_bags
  {
    ModelConstraints(
      if c.kcal_min > 0.0 || c.kcal_max > 0.0 then Some(Range(Some(c.kcal_min), Some(c.kcal_max))) else None,
      if c.protein_min > 0.0 || c.protein_max > 0.0 then Some(Range(Some(c.protein_min), Some(c.protein_max))) else None,
      if c.volume_max > 0.0 then Some(Range(None, Some(c.volume_max))) else None,
      Range(Some(MinTotalBags), if c.max_bags.Some? && c.max_bags.value > 0.0 then c.max_bags else None))
  }

  /** Minimise the total cost subject to the registered constraints. */
  function BuildModel(c: Constraints, variables: map<string, Coefficients>): LpModel {
    LpModel("cost", "min", BuildConstraints(c), variables)
  }

  /** What the external solver can answer. */
  datatype SolverOutcome =
    | Infeasible
    | Throws(error: string)
    | Feasible(objective: real, quantities: map<string, real>)

  // ---------------------------------------------------------------------------
  // Satisfaction check

  predicate InRange(x: real, r: Range) {
    (r.min.None? || x >= r.min.value) && (r.max.None? || x <= r.max.value)
  }

  /** Totals that meet every nutritional constraint registered on the model. */
  predicate MeetsModel(mc: ModelConstraints, kcal: real, protein: real, volume: real) {
    (mc.kcal.None? || InRange(kcal, mc.kcal.value)) &&
    (mc.protein.None? || InRange(protein, mc.protein.value)) &&
    (mc.volume.None? || InRange(volume, mc.volume.value))
  }

  /** `total <= (bound || Infinity) + tolerance`: a zero upper bound is no bound. */
  predicate BelowUpper(total: real, bound: real) {
    bound == 0.0 || total <= bound + Tolerance
  }

  /** `total >= (bound || 0) - tolerance`. */
  predicate AboveLower(total: real, bound: real) {
    total >= bound - Tolerance
  }

  function CheckConstraints(kcal: real, protein: real, volume: real, c: Constraints): (m: ConstraintsMet)
    ensures m.kcal_min <==> AboveLower(kcal, c.kcal_min)
    ensures m.kcal_max <==> BelowUpper(kcal, c.kcal_max)
    ensures m.protein_min <==> AboveLower(protein, c.protein_min)
    ensures m.protein_max <==> BelowUpper(protein, c.protein_max)
    ensures m.volume_max <==> BelowUpper(volume, c.volume_max)
  {
    ConstraintsMet(
      AboveLower(kcal, c.kcal_min), BelowUpper(kcal, c.kcal_max),
      AboveLower(protein, c.protein_min), BelowUpper(protein, c.protein_max),
      BelowUpper(volume, c.volume_max))
  }

  const AllMet := ConstraintsMet(true, true, true, true, true)

  /** Totals that meet the model's registered constraints pass all five checks:
      a range is left off the model only when both of its bounds are zero, and
      the check then asks no more than a non-negative total. */
  lemma ModelFeasibleMeetsAll(c: Constraints, kcal: real, protein: real, volume: real)
    requires ValidConstraints(c)
    requires kcal >= 0.0 && protein >= 0.0
    requires MeetsModel(BuildConstraints(c), kcal, protein, volume)
    ensures CheckConstraints(kcal, protein, volume, c) == AllMet
  {
  }

  // ---------------------------------------------------------------------------
  // Result extraction

  /** The six per-bag quantities the totals sum. */
  datatype Nutrient = Kcal | Protein | Volume | Nitrogen | Glucose | Fat

  function Coefficient(v: Coefficients, n: Nutrient): real {
    match n
    case Kcal => v.kcal
    case Protein => v.protein
    case Volume => v.volume
    case Nitrogen => v.nitrogen
    case Glucose => v.glucose
    case Fat => v.fat
  }

  /** The decimals a total of the nutrient is rounded to. */
  function Decimals(n: Nutrient): nat {
    match n
    case Kcal => 1
    case Volume => 1
    case _ => 2
  }

  /** The candidate becomes a bag: the solver gave it a quantity above the threshold. */
  predicate Included(f: Formula, qty: map<string, real>) {
    f.id in qty && qty[f.id] > QuantityThreshold
  }

  predicate HasVariables(fs: seq<Formula>, vars: map<string, Coefficients>) {
    forall i :: 0 <= i < |fs| ==> fs[i].id in vars
  }

  /** The three nutrients a bag reports its own contribution of. */
  predicate Reported(n: Nutrient) {
    n.Kcal? || n.Protein? || n.Volume?
  }

  function Contribution(b: SelectedBag, n: Nutrient): real
    requires Reported(n)
  {
    match n
    case Kcal => b.kcal_contribution
    case Protein => b.protein_contribution
    case Volume => b.volume_contribution
  }

  /** What `q` units contribute of a reported nutrient, rounded to the
      nutrient's display precision. */
  function ContributionOf(q: real, v: Coefficients, n: Nutrient): (c: real)
    ensures Numeric.Abs(c - q * Coefficient(v, n)) <= Numeric.HalfUnit(Decimals(n))
  {
    Numeric.RoundError(q * Coefficient(v, n), Decimals(n));
    Numeric.Round(q * Coefficient(v, n), Decimals(n))
  }

  /** The bag of `q` units of formula `f`: descriptive fields copied from the
      formula, cost and contributions rounded to their display precision. */
  function MakeBag(f: Formula, q: real, v: Coefficients): (b: SelectedBag)
    ensures b.formula_id == f.id && b.name == f.name && b.manufacturer == f.manufacturer
    ensures b.via == f.via && b.emulsion_type == f.emulsion_type && b.unit_cost == v.cost
    ensures b.quantity == Numeric.Round(q, 3) && b.total_cost == Numeric.Round(q * v.cost, 2)
    ensures forall n :: Reported(n) ==> Contribution(b, n) == ContributionOf(q, v, n)
  {
    SelectedBag(
      f.id, f.name, Numeric.Round(q, 3), v.cost, Numeric.Round(q * v.cost, 2),
      ContributionOf(q, v, Kcal), ContributionOf(q, v, Protein), ContributionOf(q, v, Volume),
      f.emulsion_type, f.via, f.manufacturer)
  }

  /** The bag of the `i`-th candidate. */
  function BagAt(fs: seq<Formula>, i: nat, qty: map<string, real>, vars: map<string, Coefficients>): SelectedBag
    requires i < |fs| && HasVariables(fs, vars) && Included(fs[i], qty)
  {
    MakeBag(fs[i], qty[fs[i].id], vars[fs[i].id])
  }

  /** `b` is the bag of some included candidate. */
  predicate IsBagOf(fs: seq<Formula>, qty: map<string, real>, vars: map<string, Coefficients>, b: SelectedBag)
    requires HasVariables(fs, vars)
  {
    exists i :: 0 <= i < |fs| && Included(fs[i], qty) && b == BagAt(fs, i, qty, vars)
  }

  /** The bags in candidate order: exactly one for each included candidate. */
  function BagsOf(fs: seq<Formula>, qty: map<string, real>, vars: map<string, Coefficients>): (r: seq<SelectedBag>)
    requires HasVariables(fs, vars)
    decreases |fs|
  {
    if fs == [] then []
    else
      var init, last := fs[..|fs| - 1], fs[|fs| - 1];
      assert HasVariables(init, vars) by {
        assert forall i :: 0 <= i < |init| ==> init[i] == fs[i];
      }
      BagsOf(init, qty, vars) + (if Included(last, qty) then [MakeBag(last, qty[last.id], vars[last.id])] else [])
  }

  /** A candidate becomes a bag if and only if it is included: every bag is the
      bag of an included candidate, and every included candidate has its bag. */
  lemma {:induction false} BagsOfIncluded(fs: seq<Formula>, qty: map<string, real>, vars: map<string, Coefficients>)
    requires HasVariables(fs, vars)
    ensures |BagsOf(fs, qty, vars)| <= |fs|
    ensures forall k :: 0 <= k < |BagsOf(fs, qty, vars)| ==> IsBagOf(fs, qty, vars, BagsOf(fs, qty, vars)[k])
    ensures forall i :: 0 <= i < |fs| && Included(fs[i], qty) ==> BagAt(fs, i, qty, vars) in BagsOf(fs, qty, vars)
    decreases |fs|
  {
    if fs != [] {
      var init, last := fs[..|fs| - 1], fs[|fs| - 1];
      assert forall i :: 0 <= i < |init| ==> init[i] == fs[i];
      assert HasVariables(init, vars);
      BagsOfIncluded(init, qty, vars);
      var r0, r := BagsOf(init, qty, vars), BagsOf(fs, qty, vars);
      assert r == r0 + (if Included(last, qty) then [BagAt(fs, |fs| - 1, qty, vars)] else []);
      forall k | 0 <= k < |r|
        ensures IsBagOf(fs, qty, vars, r[k])
      {
        if k < |r0| {
          assert IsBagOf(init, qty, vars, r0[k]);
          var i :| 0 <= i < |init| && Included(init[i], qty) && r0[k] == BagAt(init, i, qty, vars);
          assert r[k] == r0[k];
          assert BagAt(init, i, qty, vars) == BagAt(fs, i, qty, vars);
        } else {
          assert r[k] == BagAt(fs, |fs| - 1, qty, vars);
        }
      }
      forall i | 0 <= i < |fs| && Included(fs[i], qty)
        ensures BagAt(fs, i, qty, vars) in r
      {
        if i < |init| {
          assert BagAt(init, i, qty, vars) == BagAt(fs, i, qty, vars);
          assert BagAt(init, i, qty, vars) in r0;
        } else {
          assert r[|r| - 1] == BagAt(fs, i, qty, vars);
        }
      }
    }
  }

  /** The six running totals of a solution, before any rounding. */
  datatype Sums = Sums(kcal: real, protein: real, volume: real, nitrogen: real, glucose: real, fat: real)

  const ZeroSums := Sums(0.0, 0.0, 0.0, 0.0, 0.0, 0.0)

  function Component(t: Sums, n: Nutrient): real {
    match n
    case Kcal => t.kcal
    case Protein => t.protein
    case Volume => t.volume
    case Nitrogen => t.nitrogen
    case Glucose => t.glucose
    case Fat => t.fat
  }

  /** The totals after adding `q` units of a formula with coefficients `v`. */
  function AddBagTo(t: Sums, q: real, v: Coefficients): Sums {
    Sums(t.kcal + q * v.kcal, t.protein + q * v.protein, t.volume + q * v.volume,
         t.nitrogen + q * v.nitrogen, t.glucose + q * v.glucose, t.fat + q * v.fat)
  }

  /** Adding a bag adds quantity times coefficient to every total. */
  lemma AddBagComponent(t: Sums, q: real, v: Coefficients, n: Nutrient)
    ensures Component(AddBagTo(t, q, v), n) == Component(t, n) + q * Coefficient(v, n)
  {
    match n
    case Kcal =>
    case Protein =>
    case Volume =>
    case Nitrogen =>
    case Glucose =>
    case Fat =>
  }

  lemma AddBagFields(t: Sums, q: real, v: Coefficients)
    ensures AddBagTo(t, q, v).kcal == t.kcal + q * v.kcal
    ensures AddBagTo(t, q, v).protein == t.protein + q * v.protein
    ensures AddBagTo(t, q, v).volume == t.volume + q * v.volume
    ensures AddBagTo(t, q, v).nitrogen == t.nitrogen + q * v.nitrogen
    ensures AddBagTo(t, q, v).glucose == t.glucose + q * v.glucose
    ensures AddBagTo(t, q, v).fat == t.fat + q * v.fat
  {
  }

  /** Quantity times coefficient, summed over the included candidates. */
  function Totals(fs: seq<Formula>, qty: map<string, real>, vars: map<string, Coefficients>): Sums
    requires HasVariables(fs, vars)
    decreases |fs|
  {
    if fs == [] then ZeroSums
    else
      var init, last := fs[..|fs| - 1], fs[|fs| - 1];
      assert HasVariables(init, vars) by {
        assert forall i :: 0 <= i < |init| ==> init[i] == fs[i];
      }
      var t := Totals(init, qty, vars);
      if Included(last, qty) then AddBagTo(t, qty[last.id], vars[last.id]) else t
  }

  /** Every prefix of the candidates has its variables. */
  lemma PrefixVariables(fs: seq<Formula>, vars: map<string, Coefficients>)
    requires HasVariables(fs, vars)
    ensures forall i :: 0 <= i <= |fs| ==> HasVariables(fs[..i], vars)
  {
    forall i, j | 0 <= i <= |fs| && 0 <= j < i
      ensures fs[..i][j].id in vars
    {
      assert fs[..i][j] == fs[j];
    }
  }

  /** One more candidate adds at most one bag and one term to each total. */
  lemma ExtendPrefix(fs: seq<Formula>, i: nat, qty: map<string, real>, vars: map<string, Coefficients>)
    requires HasVariables(fs, vars) && i < |fs|
    ensures HasVariables(fs[..i], vars) && HasVariables(fs[..i + 1], vars)
    ensures BagsOf(fs[..i + 1], qty, vars) == BagsOf(fs[..i], qty, vars) +
              (if Included(fs[i], qty) then [MakeBag(fs[i], qty[fs[i].id], vars[fs[i].id])] else [])
    ensures Totals(fs[..i + 1], qty, vars) ==
              if Included(fs[i], qty) then AddBagTo(Totals(fs[..i], qty, vars), qty[fs[i].id], vars[fs[i].id])
              else Totals(fs[..i], qty, vars)
  {
    PrefixVariables(fs, vars);
    assert fs[..i + 1][..i] == fs[..i];
  }

  // Sorting by descending total cost ------------------------------------------

  predicate SortedByCostDesc(s: seq<SelectedBag>) {
    forall i, j :: 0 <= i < j < |s| ==> s[i].total_cost >= s[j].total_cost
  }

  /** Inserts `b` after every leading element that costs at least as much. */
  function InsertByCost(b: SelectedBag, s: seq<SelectedBag>): (r: seq<SelectedBag>)
    ensures |r| == |s| + 1
    decreases |s|
  {
    if s == [] then [b]
    else if s[0].total_cost >= b.total_cost then [s[0]] + InsertByCost(b, s[1..])
    else [b] + s
  }

  /** `bags.sort((a, b) => b.total_cost - a.total_cost)`: a stable sort, most
      expensive first; each bag is inserted after the bags before it that cost
      at least as much. */
  function SortByCostDesc(s: seq<SelectedBag>): (r: seq<SelectedBag>)
    ensures |r| == |s|
    decreases |s|
  {
    if s == [] then []
    else InsertByCost(s[|s| - 1], SortByCostDesc(s[..|s| - 1]))
  }

  /** Insertion adds exactly `b`. */
  lemma {:induction false} InsertByCostPermutes(b: SelectedBag, s: seq<SelectedBag>)
    ensures multiset(InsertByCost(b, s)) == multiset(s) + multiset{b}
    decreases |s|
  {
    if s != [] && s[0].total_cost >= b.total_cost {
      InsertByCostPermutes(b, s[1..]);
      assert s == [s[0]] + s[1..];
    }
  }

  /** Insertion keeps a sorted list sorted. */
  lemma {:induction false} InsertByCostSorted(b: SelectedBag, s: seq<SelectedBag>)
    requires SortedByCostDesc(s)
    ensures SortedByCostDesc(InsertByCost(b, s))
    decreases |s|
  {
    if s != [] && s[0].total_cost >= b.total_cost {
      var rest := InsertByCost(b, s[1..]);
      assert SortedByCostDesc(s[1..]);
      InsertByCostSorted(b, s[1..]);
      InsertByCostPermutes(b, s[1..]);
      forall k | 0 <= k < |rest| ensures s[0].total_cost >= rest[k].total_cost {
        assert rest[k] in multiset(rest);
        if rest[k] != b {
          assert rest[k] in multiset(s[1..]);
          var j :| 0 <= j < |s[1..]| && s[1..][j] == rest[k];
          assert s[j + 1] == rest[k];
        }
      }
    }
  }

  /** The sort yields a list in descending order of cost holding exactly the
      given bags. */
  lemma {:induction false} SortByCostDescSorted(s: seq<SelectedBag>)
    ensures SortedByCostDesc(SortByCostDesc(s))
    ensures multiset(SortByCostDesc(s)) == multiset(s)
    decreases |s|
  {
    if s != [] {
      var init, last := s[..|s| - 1], s[|s| - 1];
      assert s == init + [last];
      SortByCostDescSorted(init);
      InsertByCostPermutes(last, SortByCostDesc(init));
      InsertByCostSorted(last, SortByCostDesc(init));
    }
  }

  /** The result of a feasible solve. */
  function ExtractSpec(qty: map<string, real>, objective: real, available: seq<Formula>,
                       vars: map<string, Coefficients>, c: Constraints): OptimizationResult
    requires HasVariables(available, vars)
  {
    var bags := SortByCostDesc(BagsOf(available, qty, vars));
    var t := Totals(available, qty, vars);
    OptimizationResult(
      Optimal, None, Some(Numeric.Round(objective, 2)),
      RoundedTotal(t, Kcal), RoundedTotal(t, Protein), RoundedTotal(t, Volume),
      RoundedTotal(t, Nitrogen), RoundedTotal(t, Glucose), RoundedTotal(t, Fat),
      bags, CheckConstraints(t.kcal, t.protein, t.volume, c), |bags|)
  }

  /** A total as reported: rounded to the nutrient's decimals, so within half a
      unit of the exact sum. */
  function RoundedTotal(t: Sums, n: Nutrient): (r: real)
    ensures Numeric.Abs(r - Component(t, n)) <= Numeric.HalfUnit(Decimals(n))
  {
    Numeric.RoundError(Component(t, n), Decimals(n));
    Numeric.Round(Component(t, n), Decimals(n))
  }

  // ---------------------------------------------------------------------------
  // The whole request

  function ErrorResult(message: string): (r: OptimizationResult)
    ensures IsEmptyOutcome(r) && r.status == Error && r.message == Some(message)
  {
    EmptyOutcome(Error, message)
  }

  function InfeasibleResult(): (r: OptimizationResult)
    ensures IsEmptyOutcome(r) && r.status == Status.Infeasible && r.message == Some(InfeasibleMessage)
  {
    EmptyOutcome(Status.Infeasible, InfeasibleMessage)
  }

  /** The answer `optimize` gives for a catalog, a request and a solver. */
  function OptimizeSpec(catalog: seq<Formula>, c: Constraints, selectedIds: seq<string>,
                        customCosts: map<string, real>, emulsion: string, via: string,
                        solve: LpModel -> SolverOutcome): OptimizationResult
  {
    if !ValidConstraints(c) then ErrorResult(InvalidConstraintsMessage)
    else
      var available := AvailableFormulas(catalog, selectedIds, emulsion, via);
      if |available| == 0 then ErrorResult(NoFormulasMessage)
      else
        var vars := ModelVariables(available, customCosts);
        match solve(BuildModel(c, vars))
        case Infeasible => InfeasibleResult()
        case Throws(e) => ErrorResult(SolverErrorPrefix + e)
        case Feasible(objective, qty) => ExtractSpec(qty, objective, available, vars, c)
  }

  /** Whether a request gets as far as building the model. */
  predicate BuildsModel(catalog: seq<Formula>, c: Constraints, selectedIds: seq<string>, emulsion: string, via: string) {
    ValidConstraints(c) && |AvailableFormulas(catalog, selectedIds, emulsion, via)| > 0
  }

  /** The engine: a catalog fixed at construction and the variables of the last
      model it built. */
  class Engine {
    const formulas: seq<Formula>
    var modelVariables: map<string, Coefficients>

    constructor(formulas: seq<Formula>)
      ensures this.formulas == formulas && modelVariables == map[]
    {
      this.formulas := formulas;
      modelVariables := map[];
    }

    method Optimize(c: Constraints, selectedIds: seq<string>, customCosts: map<string, real>,
                    emulsion: string, via: string, solve: LpModel -> SolverOutcome)
      returns (r: OptimizationResult)
      modifies this
      ensures r == OptimizeSpec(formulas, c, selectedIds, customCosts, emulsion, via, solve)
      ensures modelVariables ==
                if BuildsModel(formulas, c, selectedIds, emulsion, via)
                then ModelVariables(AvailableFormulas(formulas, selectedIds, emulsion, via), customCosts)
                else old(modelVariables)
    {
      if !ValidConstraints(c) {
        return ErrorResult(InvalidConstraintsMessage);
      }
      var available := AvailableFormulas(formulas, selectedIds, emulsion, via);
      if |available| == 0 {
        return ErrorResult(NoFormulasMessage);
      }
      var modelConstraints := BuildConstraints(c);
      modelVariables := map[];
      for i := 0 to |available|
        invariant modelVariables == ModelVariables(available[..i], customCosts)
      {
        var f := available[i];
        assert available[..i + 1] == available[..i] + [f];
        modelVariables := modelVariables[f.id := CoefficientsOf(f, customCosts)];
      }
      assert available[..|available|] == available;
      var model := LpModel("cost", "min", modelConstraints, modelVariables);
      var outcome := solve(model);
      match outcome {
        case Infeasible =>
          r := InfeasibleResult();
        case Throws(e) =>
          r := ErrorResult(SolverErrorPrefix + e);
        case Feasible(objective, qty) =>
          r := ExtractResults(qty, objective, available, c);
      }
    }

    method ExtractResults(qty: map<string, real>, objective: real, available: seq<Formula>, c: Constraints)
      returns (r: OptimizationResult)
      requires HasVariables(available, modelVariables)
      ensures r == ExtractSpec(qty, objective, available, modelVariables, c)
    {
      PrefixVariables(available, modelVariables);
      var bags: seq<SelectedBag> := [];
      var totalKcal, totalProtein, totalVolume := 0.0, 0.0, 0.0;
      var totalNitrogen, totalGlucose, totalFat := 0.0, 0.0, 0.0;
      for i := 0 to |available|
        invariant bags == BagsOf(available[..i], qty, modelVariables)
        invariant Sums(totalKcal, totalProtein, totalVolume, totalNitrogen, totalGlucose, totalFat) ==
                  Totals(available[..i], qty, modelVariables)
      {
        var f := available[i];
        ExtendPrefix(available, i, qty, modelVariables);
        if f.id in qty && qty[f.id] > QuantityThreshold {
          var v := modelVariables[f.id];
          var q := qty[f.id];
          AddBagFields(Totals(available[..i], qty, modelVariables), q, v);
          bags := bags + [MakeBag(f, q, v)];
          totalKcal := totalKcal + q * v.kcal;
          totalProtein := totalProtein + q * v.protein;
          totalVolume := totalVolume + q * v.volume;
          totalNitrogen := totalNitrogen + q * v.nitrogen;
          totalGlucose := totalGlucose + q * v.glucose;
          totalFat := totalFat + q * v.fat;
        }
      }
      assert available[..|available|] == available;
      var sorted := SortByCostDesc(bags);
      var t := Sums(totalKcal, totalProtein, totalVolume, totalNitrogen, totalGlucose, totalFat);
      r := OptimizationResult(
        Optimal, None, Some(Numeric.Round(objective, 2)),
        RoundedTotal(t, Kcal), RoundedTotal(t, Protein), RoundedTotal(t, Volume),
        RoundedTotal(t, Nitrogen), RoundedTotal(t, Glucose), RoundedTotal(t, Fat),
        sorted, CheckConstraints(totalKcal, totalProtein, totalVolume, c), |sorted|);
    }
  }
}
