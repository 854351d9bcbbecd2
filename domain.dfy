/** The records the optimiser, its caller and the history log exchange: a catalog
    formula, the nutritional constraints of one request, one line of the result
    (a bag) and the result itself. */
module Domain {
  import opened Options
  import Seqs

  /** One commercial parenteral-nutrition product. Concentrations are in grams
      per litre, the volume in millilitres, the energy in kcal per bag. Emulsion
      type and route are free strings, as the import code casts whatever a file
      holds. */
  datatype Formula = Formula(
    id: string,
    name: string,
    manufacturer: string,
    volume_ml: real,
    kcal: real,
    protein_g_l: real,
    nitrogen_g_l: real,
    glucose_g_l: real,
    fat_g_l: real,
    emulsion_type: string,
    via: string,
    osmolarity: Option<real>,
    base_cost: real)

  /** The bounds of one request. `max_bags` is optional; a zero bound elsewhere
      means "no bound" in the satisfaction check. */
  datatype Constraints = Constraints(
    kcal_min: real,
    kcal_max: real,
    protein_min: real,
    protein_max: real,
    volume_max: real,
    max_bags: Option<real>)

  /** One formula used by a solution, with its contribution to the totals. */
  datatype SelectedBag = SelectedBag(
    formula_id: string,
    name: string,
    quantity: real,
    unit_cost: real,
    total_cost: real,
    kcal_contribution: real,
    protein_contribution: real,
    volume_contribution: real,
    emulsion_type: string,
    via: string,
    manufacturer: string)

  datatype Status = Optimal | Infeasible | Error

  /** Whether each of the five named bounds is met by the realised totals. */
  datatype ConstraintsMet = ConstraintsMet(
    kcal_min: bool,
    kcal_max: bool,
    protein_min: bool,
    protein_max: bool,
    volume_max: bool)

  const NoneMet := ConstraintsMet(false, false, false, false, false)

  datatype OptimizationResult = OptimizationResult(
    status: Status,
    message: Option<string>,
    total_cost: Option<real>,
    total_kcal: real,
    total_protein: real,
    total_volume: real,
    total_nitrogen: real,
    total_glucose: real,
    total_fat: real,
    selected_bags: seq<SelectedBag>,
    constraints_met: ConstraintsMet,
    num_bags: nat)

  /** The fixed shape of every result that carries no solution: null cost, zero
      totals, no bags, no bound met. */
  predicate IsEmptyOutcome(r: OptimizationResult) {
    r.total_cost == None &&
    r.total_kcal == 0.0 && r.total_protein == 0.0 && r.total_volume == 0.0 &&
    r.total_nitrogen == 0.0 && r.total_glucose == 0.0 && r.total_fat == 0.0 &&
    r.selected_bags == [] && r.constraints_met == NoneMet && r.num_bags == 0
  }

  /** A result with no solution, the given status and the given message. */
  function EmptyOutcome(status: Status, message: string): (r: OptimizationResult)
    ensures IsEmptyOutcome(r) && r.status == status && r.message == Some(message)
  {
    OptimizationResult(status, Some(message), None, 0.0, 0.0, 0.0, 0.0, 0.0, 0.0, [], NoneMet, 0)
  }

  /** The ids of a list of formulas, in order. */
  function Ids(formulas: seq<Formula>): (ids: seq<string>)
    ensures |ids| == |formulas|
    ensures forall k :: 0 <= k < |formulas| ==> ids[k] == formulas[k].id
  {
    Seqs.Map(formulas, (f: Formula) => f.id)
  }
}
