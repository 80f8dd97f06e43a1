/**
  The genetic-algorithm parameter checks of the sidebar (gui/widgets/sidebar.py):
  hard limits that block a run, soft limits that only warn, the cross-field
  check between tournament and population size, the live border colour of a
  field, and the mapping from the algorithm dropdown to an algorithm name.

  What Python's `int(...)`/`float(...)` make of a field's stripped text is an
  input (`Field`); the dialogs are not modelled, and the user's answer to the
  warning dialog is the input `confirm`.
 */
module Sidebar {
  import opened Wrappers

  /** The five parameter fields. */
  datatype Param = PopulationSize | Generations | TournamentSize | MutationProb | Seed

  /** The fields in the order the widgets were created, which is the order they are checked in. */
  const Params: seq<Param> := [PopulationSize, Generations, TournamentSize, MutationProb, Seed]

  lemma ParamsListsAll(p: Param)
    ensures p in Params
  {
  }

  /** A field's stripped text: empty, not a number of the field's type, or a number. */
  datatype Field = Blank | Unparsable | Num(value: real)

  /** The hard limits; an absent bound is not checked. */
  datatype Limits = Limits(min: Option<real>, max: Option<real>)

  function HardLimits(p: Param): Limits {
    match p
    case PopulationSize => Limits(Some(10.0), Some(1_000_000.0))
    case Generations => Limits(Some(1.0), Some(1_000_000.0))
    case TournamentSize => Limits(Some(1.0), None)
    case MutationProb => Limits(Some(0.0), Some(1.0))
    case Seed => Limits(Some(0.0), Some(4294967295.0))
  }

  /** The soft limits; fields without one never warn. */
  function SoftLimit(p: Param): Option<real> {
    match p
    case PopulationSize => Some(5000.0)
    case Generations => Some(10000.0)
    case TournamentSize => Some(500.0)
    case MutationProb => None
    case Seed => None
  }

  predicate TooSmall(p: Param, v: real) {
    HardLimits(p).min.Some? && v < HardLimits(p).min.value
  }

  predicate TooLarge(p: Param, v: real) {
    HardLimits(p).max.Some? && v > HardLimits(p).max.value
  }

  /** `soft_limit and val > soft_limit`: a present, non-zero limit that the value exceeds. */
  predicate AboveSoft(p: Param, v: real) {
    SoftLimit(p).Some? && SoftLimit(p).value != 0.0 && v > SoftLimit(p).value
  }

  // ----- live validation -----

  datatype Border = Normal | Warning | Error

  /** `_validate_field_live`: the border a field gets; `None` when a blank field is left as it is. */
  function LiveBorder(p: Param, f: Field): Option<Border> {
    match f
    case Blank => None
    case Unparsable => Some(Error)
    case Num(v) =>
      if TooSmall(p, v) || TooLarge(p, v) then Some(Error)
      else if AboveSoft(p, v) then Some(Warning)
      else Some(Normal)
  }

  // ----- get_parameters -----

  /** Why a field, or the pair of sizes, is rejected. */
  datatype Issue =
    | EmptyField(p: Param)
    | NotANumber(p: Param)
    | BelowMin(p: Param, min: real)
    | AboveMax(p: Param, max: real)
    | TournamentAbovePopulation

  /** What the check of one field in `get_parameters` ends with. */
  datatype FieldCheck = Rejected(issue: Issue) | Accepted(value: real, warned: bool)

  /** The field is kept, with a warning. */
  predicate Warned(c: FieldCheck) {
    c.Accepted? && c.warned
  }

  function CheckField(p: Param, f: Field): (c: FieldCheck)
    ensures c.Accepted? ==> f == Num(c.value) && !TooSmall(p, c.value) && !TooLarge(p, c.value)
    ensures c.Accepted? ==> (c.warned <==> AboveSoft(p, c.value))
  {
    match f
    case Blank => Rejected(EmptyField(p))
    case Unparsable => Rejected(NotANumber(p))
    case Num(v) =>
      if TooSmall(p, v) then Rejected(BelowMin(p, HardLimits(p).min.value))
      else if TooLarge(p, v) then Rejected(AboveMax(p, HardLimits(p).max.value))
      else Accepted(v, AboveSoft(p, v))
  }

  /**
    Live and final validation agree on every non-blank field: red exactly when
    the final check rejects it, orange exactly when it is kept with a warning.
    A blank field is left alone live but rejected at the end.
   */
  lemma LiveAgreesWithFinal(p: Param, f: Field)
    ensures f == Blank ==> LiveBorder(p, f).None? && CheckField(p, f) == Rejected(EmptyField(p))
    ensures f != Blank ==> LiveBorder(p, f).Some?
    ensures f != Blank ==> (LiveBorder(p, f) == Some(Error) <==> CheckField(p, f).Rejected?)
    ensures f != Blank ==> (LiveBorder(p, f) == Some(Warning) <==> Warned(CheckField(p, f)))
    ensures f != Blank ==> (LiveBorder(p, f) == Some(Normal) <==> CheckField(p, f).Accepted? && !Warned(CheckField(p, f)))
  {
  }

  /** The five fields' contents. */
  datatype Fields = Fields(population: Field, generations: Field, tournament: Field, mutation: Field, seed: Field)

  function FieldOf(fs: Fields, p: Param): Field {
    match p
    case PopulationSize => fs.population
    case Generations => fs.generations
    case TournamentSize => fs.tournament
    case MutationProb => fs.mutation
    case Seed => fs.seed
  }

  /** The state of the checking loop: kept values, errors, warned fields and fields turned red. */
  datatype Validation = Validation(clean: map<Param, real>, errors: seq<Issue>, warnings: seq<Param>, marked: set<Param>)

  /** The checking loop over the fields `ps`, in order. */
  function CheckAll(fs: Fields, ps: seq<Param>): (v: Validation)
    ensures forall p :: p in v.clean <==> p in ps && CheckField(p, FieldOf(fs, p)).Accepted?
    ensures forall p :: p in v.clean ==> v.clean[p] == CheckField(p, FieldOf(fs, p)).value
    ensures forall p :: p in v.marked <==> p in ps && CheckField(p, FieldOf(fs, p)).Rejected?
    ensures |v.errors| == 0 <==> forall p :: p in ps ==> CheckField(p, FieldOf(fs, p)).Accepted?
    ensures forall p :: p in v.warnings <==> p in ps && Warned(CheckField(p, FieldOf(fs, p)))
    decreases |ps|
  {
    if |ps| == 0 then Validation(map[], [], [], {})
    else
      var last := ps[|ps| - 1];
      var v := CheckAll(fs, ps[..|ps| - 1]);
      assert forall p :: p in ps <==> p in ps[..|ps| - 1] || p == last;
      match CheckField(last, FieldOf(fs, last))
      case Rejected(issue) => Validation(v.clean, v.errors + [issue], v.warnings, v.marked + {last})
      case Accepted(value, warned) =>
        Validation(v.clean[last := value], v.errors, if warned then v.warnings + [last] else v.warnings, v.marked)
  }

  /** The cross-field check, applied when both sizes were kept. */
  function CrossCheck(v: Validation): (r: Validation)
    ensures r.clean == v.clean && r.warnings == v.warnings
  {
    if PopulationSize in v.clean && TournamentSize in v.clean && v.clean[TournamentSize] > v.clean[PopulationSize]
    then Validation(v.clean, v.errors + [TournamentAbovePopulation], v.warnings, v.marked + {TournamentSize})
    else v
  }

  /** `get_parameters`' checks of the genetic fields: the field loop, then the cross-field check. */
  function Validate(fs: Fields): Validation {
    CrossCheck(CheckAll(fs, Params))
  }

  /** What `get_parameters` returns: the algorithm and, for the genetic one, the kept values. */
  datatype Parameters = Parameters(algorithm: string, values: map<Param, real>)

  /**
    `get_parameters`: an algorithm other than the genetic one needs no
    parameters; otherwise any error gives nothing, warnings give the values
    only if the user confirms, and a clean form gives the values.
   */
  function GetParameters(selected: string, fs: Fields, confirm: bool): (r: Option<Parameters>)
    ensures selected != "genetic" ==> r == Some(Parameters(selected, map[]))
  {
    if selected != "genetic" then Some(Parameters(selected, map[]))
    else
      var v := Validate(fs);
      if |v.errors| > 0 then None
      else if |v.warnings| > 0 && !confirm then None
      else Some(Parameters("genetic", v.clean))
  }

  /** Both sizes are numbers and the tournament is no larger than the population. */
  predicate SizesFit(fs: Fields) {
    && FieldOf(fs, TournamentSize).Num? && FieldOf(fs, PopulationSize).Num?
    && FieldOf(fs, TournamentSize).value <= FieldOf(fs, PopulationSize).value
  }

  /** The genetic parameters are accepted exactly when every field passes, the sizes fit and any warning is confirmed. */
  lemma GeneticAcceptance(fs: Fields, confirm: bool)
    ensures var r := GetParameters("genetic", fs, confirm);
      var pass := forall p :: CheckField(p, FieldOf(fs, p)).Accepted?;
      var warned := exists p :: Warned(CheckField(p, FieldOf(fs, p)));
      r.Some? <==> pass && SizesFit(fs) && (warned ==> confirm)
  {
    var v := CheckAll(fs, Params);
    forall p
      ensures p in Params
    {
      ParamsListsAll(p);
    }
    if |v.warnings| > 0 {
      assert v.warnings[0] in v.warnings;
    }
  }

  /** Accepted genetic parameters hold every field, each within its hard limits, with the tournament no larger than the population. */
  lemma AcceptedWithinLimits(fs: Fields, confirm: bool)
    ensures var r := GetParameters("genetic", fs, confirm);
      r.Some? ==>
        && r.value.algorithm == "genetic"
        && (forall p :: p in r.value.values && FieldOf(fs, p) == Num(r.value.values[p]))
        && (forall p :: !TooSmall(p, r.value.values[p]) && !TooLarge(p, r.value.values[p]))
        && r.value.values[TournamentSize] <= r.value.values[PopulationSize]
  {
    forall p
      ensures p in Params
    {
      ParamsListsAll(p);
    }
  }

  /** The fields `get_parameters` turns red: every rejected field, and the tournament field when it exceeds the population. */
  lemma MarkedFields(fs: Fields)
    ensures var v := Validate(fs);
      forall p :: p in v.marked <==>
        || CheckField(p, FieldOf(fs, p)).Rejected?
        || (p == TournamentSize && PopulationSize in v.clean && TournamentSize in v.clean
            && v.clean[TournamentSize] > v.clean[PopulationSize])
  {
    forall p
      ensures p in Params
    {
      ParamsListsAll(p);
    }
  }

  // ----- the algorithm dropdown -----

  /** `_on_algorithm_change`: the dropdown label to an algorithm name; anything else is the genetic one. */
  function AlgorithmFromChoice(choice: string): (name: string)
    ensures name in {"genetic", "greedy", "exact"}
  {
    if choice == "Greedy" then "greedy"
    else if choice == "Exact (A*)" then "exact"
    else "genetic"
  }

  /** The dropdown labels, in the menu's order. */
  const Choices: seq<string> := ["Genetic", "Greedy", "Exact (A*)"]

  /** The three labels name three different algorithms, and unknown labels fall back to the genetic one. */
  lemma ChoicesDistinct(choice: string)
    ensures forall i, k :: 0 <= i < k < |Choices| ==> AlgorithmFromChoice(Choices[i]) != AlgorithmFromChoice(Choices[k])
    ensures choice !in Choices ==> AlgorithmFromChoice(choice) == "genetic"
    ensures AlgorithmFromChoice(Choices[0]) == "genetic"
  {
  }
}
