/** The caller-side wrapper around the engine: its own field-by-field validation
    of the constraints, the early Error answer when that validation fails, and
    the rewriting of an Infeasible answer's message from the unmet bounds. */
module OptimizerHook {
  import opened Options
  import opened Domain
  import Text
  import Numeric
  import Optimizer

  // ---------------------------------------------------------------------------
  // Field validation

  /** The six fields the wrapper validates, named after the constraint keys. */
  datatype Field = KcalMinField | KcalMaxField | ProteinMinField | ProteinMaxField | VolumeMaxField | MaxBagsField

  /** A validation error; its message is determined by its field. */
  datatype ValidationError = ValidationError(field: Field) {
    function Message(): string {
      FieldMessage(field)
    }
  }

  const InvalidPrefix := "Restrições inválidas: "
  const NoSolutionPrefix := "Não foi possível encontrar solução: "
  const Separator := ", "

  function FieldMessage(f: Field): string {
    match f
    case KcalMinField => "Calorias mínimas não podem ser negativas"
    case KcalMaxField => "Calorias máximas devem ser maiores que mínimas"
    case ProteinMinField => "Proteína mínima não pode ser negativa"
    case ProteinMaxField => "Proteína máxima deve ser maior que mínima"
    case VolumeMaxField => "Volume máximo deve ser positivo"
    case MaxBagsField => "Número máximo de bolsas deve ser positivo"
  }

  function ErrorOf(f: Field): ValidationError {
    ValidationError(f)
  }

  /** The position of `f` in the order the checks run. */
  function Rank(f: Field): nat {
    match f
    case KcalMinField => 0
    case KcalMaxField => 1
    case ProteinMinField => 2
    case ProteinMaxField => 3
    case VolumeMaxField => 4
    case MaxBagsField => 5
  }

  /** A JavaScript number used as a condition: absent values and zero are false. */
  predicate Truthy(x: Option<real>) {
    x.Some? && x.value != 0.0
  }

  /** Whether the wrapper objects to field `f` of `c`. */
  predicate Raised(c: Constraints, f: Field) {
    match f
    case KcalMinField => c.kcal_min < 0.0
    case KcalMaxField => c.kcal_max < c.kcal_min
    case ProteinMinField => c.protein_min < 0.0
    case ProteinMaxField => c.protein_max < c.protein_min
    case VolumeMaxField => c.volume_max <= 0.0
    case MaxBagsField => Truthy(c.max_bags) && c.max_bags.value <= 0.0
  }

  /** The error of field `f` when it is raised, else nothing. */
  function Report(c: Constraints, f: Field): seq<ValidationError> {
    if Raised(c, f) then [ErrorOf(f)] else []
  }

  /** The field checked in position `k`. */
  function FieldAt(k: nat): (f: Field)
    requires k < 6
    ensures Rank(f) == k
  {
    if k == 0 then KcalMinField
    else if k == 1 then KcalMaxField
    else if k == 2 then ProteinMinField
    else if k == 3 then ProteinMaxField
    else if k == 4 then VolumeMaxField
    else MaxBagsField
  }

  /** The errors of the first `n` checks, in the order they run. */
  function ErrorsUpTo(c: Constraints, n: nat): seq<ValidationError>
    requires n <= 6
  {
    if n == 0 then [] else ErrorsUpTo(c, n - 1) + Report(c, FieldAt(n - 1))
  }

  /** The errors of all six checks. */
  function ErrorsOf(c: Constraints): seq<ValidationError> {
    ErrorsUpTo(c, 6)
  }

  /** The field-by-field validation, pushing one error per failed check. */
  method ValidateConstraints(c: Constraints) returns (errors: seq<ValidationError>)
    ensures errors == ErrorsOf(c)
  {
    errors := [];
    if c.kcal_min < 0.0 {
      errors := errors + [ErrorOf(KcalMinField)];
    }
    assert errors == ErrorsUpTo(c, 1);
    if c.kcal_max < c.kcal_min {
      errors := errors + [ErrorOf(KcalMaxField)];
    }
    assert errors == ErrorsUpTo(c, 2);
    if c.protein_min < 0.0 {
      errors := errors + [ErrorOf(ProteinMinField)];
    }
    assert errors == ErrorsUpTo(c, 3);
    if c.protein_max < c.protein_min {
      errors := errors + [ErrorOf(ProteinMaxField)];
    }
    assert errors == ErrorsUpTo(c, 4);
    if c.volume_max <= 0.0 {
      errors := errors + [ErrorOf(VolumeMaxField)];
    }
    assert errors == ErrorsUpTo(c, 5);
    if c.max_bags.Some? && c.max_bags.value != 0.0 && c.max_bags.value <= 0.0 {
      errors := errors + [ErrorOf(MaxBagsField)];
    }
  }

  /** Error lists whose fields strictly increase in check order. */
  predicate InCheckOrder(errors: seq<ValidationError>) {
    forall i, j :: 0 <= i < j < |errors| ==> Rank(errors[i].field) < Rank(errors[j].field)
  }

  /** Among the first `n` checks, the wrapper reports a field exactly when its
      check fails, each field at most once and in the order the checks run. */
  lemma {:induction false} ErrorsUpToSpec(c: Constraints, n: nat)
    requires n <= 6
    ensures forall f :: ErrorOf(f) in ErrorsUpTo(c, n) <==> Raised(c, f) && Rank(f) < n
    ensures forall k :: 0 <= k < |ErrorsUpTo(c, n)| ==> Rank(ErrorsUpTo(c, n)[k].field) < n
    ensures InCheckOrder(ErrorsUpTo(c, n))
  {
    if n > 0 {
      ErrorsUpToSpec(c, n - 1);
      var a, f := ErrorsUpTo(c, n - 1), FieldAt(n - 1);
      var e := a + Report(c, f);
      forall i, j | 0 <= i < j < |e|
        ensures Rank(e[i].field) < Rank(e[j].field)
      {
        if j >= |a| {
          assert e[j] == ErrorOf(f);
        }
      }
      forall g ensures ErrorOf(g) in e <==> Raised(c, g) && Rank(g) < n {
        if ErrorOf(g) in e && ErrorOf(g) !in a {
          assert g == f;
        }
      }
    }
  }

  /** The wrapper reports a field exactly when its check fails, each field at
      most once and in the order the checks run. */
  lemma ErrorsOfSpec(c: Constraints)
    ensures forall f :: ErrorOf(f) in ErrorsOf(c) <==> Raised(c, f)
    ensures InCheckOrder(ErrorsOf(c))
  {
    ErrorsUpToSpec(c, 6);
  }

  /** The wrapper accepts exactly the constraints the engine accepts, except that
      it also rejects a negative `max_bags`; an absent or zero `max_bags` is
      never reported. So the engine's own rejection is never reached through the
      wrapper. */
  lemma WrapperValidation(c: Constraints)
    ensures ErrorsOf(c) == [] <==>
              Optimizer.ValidConstraints(c) && !(c.max_bags.Some? && c.max_bags.value < 0.0)
    ensures !Optimizer.ValidConstraints(c) ==> ErrorsOf(c) != []
    ensures c.max_bags.None? || c.max_bags.value >= 0.0 ==> ErrorOf(MaxBagsField) !in ErrorsOf(c)
  {
    ErrorsOfSpec(c);
    if ErrorsOf(c) != [] {
      assert ErrorOf(ErrorsOf(c)[0].field) in ErrorsOf(c);
    } else {
      assert !Raised(c, KcalMinField) && !Raised(c, KcalMaxField);
      assert !Raised(c, ProteinMinField) && !Raised(c, ProteinMaxField);
      assert !Raised(c, VolumeMaxField) && !Raised(c, MaxBagsField);
    }
  }

  /** The messages of `errors` in order. */
  function Messages(errors: seq<ValidationError>): (ms: seq<string>)
    ensures |ms| == |errors|
    ensures forall k :: 0 <= k < |ms| ==> ms[k] == FieldMessage(errors[k].field)
  {
    seq(|errors|, k requires 0 <= k < |errors| => errors[k].Message())
  }

  /** The message of the early Error answer. */
  function InvalidMessage(errors: seq<ValidationError>): string {
    InvalidPrefix + Text.Join(Messages(errors), Separator)
  }

  // ---------------------------------------------------------------------------
  // Explaining an Infeasible answer

  /** The five bounds reported in `constraints_met`. */
  datatype Bound = KcalMin | KcalMax | ProteinMin | ProteinMax | VolumeMax

  predicate Met(m: ConstraintsMet, b: Bound) {
    match b
    case KcalMin => m.kcal_min
    case KcalMax => m.kcal_max
    case ProteinMin => m.protein_min
    case ProteinMax => m.protein_max
    case VolumeMax => m.volume_max
  }

  /** The clause describing an unmet bound: the realised total, as the wrapper
      prints it, over the requested bound. */
  function Clause(r: OptimizationResult, c: Constraints, b: Bound): string {
    match b
    case KcalMin =>
      "calorias insuficientes (" + Numeric.ToFixed(r.total_kcal, 0) + "/" + Numeric.NumberText(c.kcal_min) + ")"
    case KcalMax =>
      "excesso de calorias (" + Numeric.ToFixed(r.total_kcal, 0) + "/" + Numeric.NumberText(c.kcal_max) + ")"
    case ProteinMin =>
      "proteína insuficiente (" + Numeric.ToFixed(r.total_protein, 1) + "g/" + Numeric.NumberText(c.protein_min) + "g)"
    case ProteinMax =>
      "excesso de proteína (" + Numeric.ToFixed(r.total_protein, 1) + "g/" + Numeric.NumberText(c.protein_max) + "g)"
    case VolumeMax =>
      "excesso de volume (" + Numeric.ToFixed(r.total_volume, 0) + "/" + Numeric.NumberText(c.volume_max) + "mL)"
  }

  /** The clause of bound `b` when it is unmet, else nothing. */
  function Note(r: OptimizationResult, c: Constraints, b: Bound): seq<string> {
    if !Met(r.constraints_met, b) then [Clause(r, c, b)] else []
  }

  /** One clause per unmet bound, in bound order. */
  function UnmetClauses(r: OptimizationResult, c: Constraints): seq<string> {
    Note(r, c, KcalMin) + Note(r, c, KcalMax) + Note(r, c, ProteinMin) +
    Note(r, c, ProteinMax) + Note(r, c, VolumeMax)
  }

  /** The number of bounds an answer reports as unmet. */
  function UnmetCount(m: ConstraintsMet): nat {
    (if m.kcal_min then 0 else 1) + (if m.kcal_max then 0 else 1) + (if m.protein_min then 0 else 1) +
    (if m.protein_max then 0 else 1) + (if m.volume_max then 0 else 1)
  }

  /** One clause per unmet bound: there are none exactly when every bound is met. */
  lemma UnmetClausesCount(r: OptimizationResult, c: Constraints)
    ensures |UnmetClauses(r, c)| == UnmetCount(r.constraints_met)
    ensures UnmetClauses(r, c) == [] <==> forall b :: Met(r.constraints_met, b)
  {
    if UnmetClauses(r, c) == [] {
      forall b ensures Met(r.constraints_met, b) {
        assert Note(r, c, b) == [];
      }
    }
  }

  /** The engine's answer as the wrapper returns it: an Infeasible answer with
      unmet bounds gets a message listing them; anything else is unchanged. */
  function Explained(r: OptimizationResult, c: Constraints): OptimizationResult {
    var clauses := UnmetClauses(r, c);
    if r.status == Infeasible && |clauses| > 0 then
      r.(message := Some(NoSolutionPrefix + Text.Join(clauses, Separator)))
    else r
  }

  /** Lists the unmet bounds of an Infeasible answer in its message. */
  method Explain(r: OptimizationResult, c: Constraints) returns (e: OptimizationResult)
    ensures e == Explained(r, c)
  {
    e := r;
    if r.status == Infeasible {
      var unmet: seq<string> := [];
      var m := r.constraints_met;
      if !m.kcal_min {
        unmet := unmet + [Clause(r, c, KcalMin)];
      }
      assert unmet == Note(r, c, KcalMin);
      if !m.kcal_max {
        unmet := unmet + [Clause(r, c, KcalMax)];
      }
      assert unmet == Note(r, c, KcalMin) + Note(r, c, KcalMax);
      if !m.protein_min {
        unmet := unmet + [Clause(r, c, ProteinMin)];
      }
      assert unmet == Note(r, c, KcalMin) + Note(r, c, KcalMax) + Note(r, c, ProteinMin);
      if !m.protein_max {
        unmet := unmet + [Clause(r, c, ProteinMax)];
      }
      assert unmet == Note(r, c, KcalMin) + Note(r, c, KcalMax) + Note(r, c, ProteinMin) + Note(r, c, ProteinMax);
      if !m.volume_max {
        unmet := unmet + [Clause(r, c, VolumeMax)];
      }
      assert unmet == UnmetClauses(r, c);
      if |unmet| > 0 {
        e := r.(message := Some(NoSolutionPrefix + Text.Join(unmet, Separator)));
      }
    }
  }

  /** Explaining touches only the message, and only of an Infeasible answer
      with at least one unmet bound. */
  lemma ExplainedChangesOnlyMessage(r: OptimizationResult, c: Constraints)
    ensures Explained(r, c).(message := r.message) == r
    ensures Explained(r, c) != r ==> r.status == Infeasible && exists b :: !Met(r.constraints_met, b)
    ensures r.status != Infeasible ==> Explained(r, c) == r
  {
    UnmetClausesCount(r, c);
  }

  /** The wrapper's answer: the early Error when its own validation fails,
      otherwise the engine's answer with its message explained. */
  function HookSpec(catalog: seq<Formula>, c: Constraints, selectedIds: seq<string>,
                    customCosts: map<string, real>, emulsion: string, via: string,
                    solve: Optimizer.LpModel -> Optimizer.SolverOutcome): OptimizationResult
  {
    var errors := ErrorsOf(c);
    if |errors| > 0 then EmptyOutcome(Error, InvalidMessage(errors))
    else Explained(Optimizer.OptimizeSpec(catalog, c, selectedIds, customCosts, emulsion, via, solve), c)
  }

  /** `toFixed` of zero: "0" with no decimals, "0.0" with one. */
  lemma ZeroText()
    ensures Numeric.ToFixed(0.0, 0) == "0"
    ensures Numeric.ToFixed(0.0, 1) == "0.0"
  {
    assert Numeric.ScaledUnits(0.0, 1) == Numeric.ScaledUnits(0.0, 0) == 0;
    assert Text.NatText(0) == "0";
    assert Text.PadStart("0", 2, '0') == "00";
  }

  /** The engine's Infeasible answer reaches the caller with all five bounds
      listed, each against a total of zero. */
  lemma InfeasibleExplained(c: Constraints)
    ensures var r := Optimizer.InfeasibleResult();
            Explained(r, c).message == Some(NoSolutionPrefix + Text.Join(
              [Clause(r, c, KcalMin), Clause(r, c, KcalMax), Clause(r, c, ProteinMin),
               Clause(r, c, ProteinMax), Clause(r, c, VolumeMax)], Separator))
    ensures var r := Optimizer.InfeasibleResult();
            r.total_kcal == r.total_protein == r.total_volume == 0.0 &&
            Numeric.ToFixed(0.0, 0) == "0" && Numeric.ToFixed(0.0, 1) == "0.0"
  {
    ZeroText();
    var r := Optimizer.InfeasibleResult();
    assert UnmetClauses(r, c) == [Clause(r, c, KcalMin), Clause(r, c, KcalMax), Clause(r, c, ProteinMin),
                                  Clause(r, c, ProteinMax), Clause(r, c, VolumeMax)];
  }

  /** Through the wrapper, a request either fails its validation with an Error
      listing the failed checks, or gets the engine's answer, whose message is
      explained when the engine found the problem infeasible; the engine's own
      validation then always passes. */
  lemma HookOutcomes(catalog: seq<Formula>, c: Constraints, selectedIds: seq<string>,
                     customCosts: map<string, real>, emulsion: string, via: string,
                     solve: Optimizer.LpModel -> Optimizer.SolverOutcome)
    ensures var r := HookSpec(catalog, c, selectedIds, customCosts, emulsion, via, solve);
            var e := Optimizer.OptimizeSpec(catalog, c, selectedIds, customCosts, emulsion, via, solve);
            (ErrorsOf(c) != [] ==> IsEmptyOutcome(r) && r.status == Error && r.message == Some(InvalidMessage(ErrorsOf(c)))) &&
            (ErrorsOf(c) == [] ==> Optimizer.ValidConstraints(c) && r == Explained(e, c))
  {
    WrapperValidation(c);
  }

  /** The wrapper's state: the engine it drives, whether a run is in progress,
      and the errors of the last validation. */
  class Hook {
    const optimizer: Optimizer.Engine
    var isOptimizing: bool
    var validationErrors: seq<ValidationError>

    constructor(formulas: seq<Formula>)
      ensures fresh(optimizer) && optimizer.formulas == formulas
      ensures !isOptimizing && validationErrors == []
    {
      optimizer := new Optimizer.Engine(formulas);
      isOptimizing := false;
      validationErrors := [];
    }

    /** Validates, then runs the engine and explains an Infeasible answer. The
        engine is left untouched when validation fails, and `isOptimizing` is
        false again on every exit. */
    method Optimize(c: Constraints, selectedIds: seq<string>, customCosts: map<string, real>,
                    emulsion: string, via: string, solve: Optimizer.LpModel -> Optimizer.SolverOutcome)
      returns (r: OptimizationResult)
      modifies this, optimizer
      ensures r == HookSpec(optimizer.formulas, c, selectedIds, customCosts, emulsion, via, solve)
      ensures !isOptimizing
      ensures validationErrors == ErrorsOf(c)
      ensures ErrorsOf(c) != [] ==> unchanged(optimizer)
    {
      isOptimizing := true;
      validationErrors := [];
      var errors := ValidateConstraints(c);
      if |errors| > 0 {
        validationErrors := errors;
        r := EmptyOutcome(Error, InvalidPrefix + Text.Join(Messages(errors), Separator));
        isOptimizing := false;
        return;
      }
      r := optimizer.Optimize(c, selectedIds, customCosts, emulsion, via, solve);
      r := Explain(r, c);
      isOptimizing := false;
    }
  }
}
