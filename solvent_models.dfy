/**
 * app/models/solvent_models.py: the solvent record, a solvent test of an
 * experiment and the search query. The pydantic models become datatypes of
 * raw field values plus a validation function that either produces the
 * stored (normalised) value or fails, as pydantic raises a validation
 * error; the field constraints (`ge`, `le`) are checked there too.
 */
module SolventModels {

  import opened Common
  import opened Text

  datatype SolubilityType = Soluble | Insoluble | Partial

  /** The enum's string values. */
  function SolubilityValue(t: SolubilityType): string
  {
    match t
    case Soluble => "soluble"
    case Insoluble => "insoluble"
    case Partial => "partial"
  }

  /** `Union[SolubilityType, float]`. */
  datatype Solubility = Category(t: SolubilityType) | Numeric(x: real)

  /** `validate_solubility`: a number must lie in [0.0, 1.0]; an enum value
      always passes. */
  function ValidateSolubility(v: Solubility): (r: Result<Solubility>)
    ensures r.Ok? ==> r.value == v
    ensures r.Err? <==> v.Numeric? && !(0.0 <= v.x <= 1.0)
  {
    if v.Numeric? && !(0.0 <= v.x <= 1.0) then Err("Numerical solubility must be between 0.0 and 1.0")
    else Ok(v)
  }

  /** `not v or not v.strip()`: the string is empty or all whitespace. */
  predicate Blank(s: string)
  {
    Strip(s) == []
  }

  datatype SolventData = SolventData(
    solvent: Option<string>,
    deltaD: real,
    deltaP: real,
    deltaH: real,
    cas: Option<string>,
    smiles: Option<string>,
    molecularWeight: Option<real>,
    molarVolume: Option<real>,
    density: Option<real>,
    boilingPoint: Option<real>,
    vaporPressure: Option<real>,
    wgkClass: Option<int>,
    costPerMl: Option<real>,
    deltaTotal: Option<real>,
    sourceFile: Option<string>,
    sourceRow: Option<int>,
    completeness: Option<real>)

  /** Every attribute name `SolventData` declares, the fields this model
      leaves out included; reading any other attribute of a record raises
      AttributeError. */
  const SolventDataFields: set<string> := {
    "solvent", "delta_d", "delta_p", "delta_h", "cas", "smiles", "inchi_key",
    "molecular_weight", "molar_volume", "density", "boiling_point", "vapor_pressure",
    "ghs_classification", "hazard_statements", "wgk_class", "cost_per_ml",
    "delta_total", "source_file", "source_row", "completeness" }

  /** The position of the first name in `attrs` outside `declared`:
      reading the attributes in turn raises there. */
  function FirstUndeclared(attrs: seq<string>, declared: set<string>): (r: Option<nat>)
    ensures r.Some? ==> r.value < |attrs| && attrs[r.value] !in declared
    ensures r.Some? ==> forall j :: 0 <= j < r.value ==> attrs[j] in declared
    ensures r.None? ==> forall j :: 0 <= j < |attrs| ==> attrs[j] in declared
  {
    if |attrs| == 0 then None
    else if attrs[0] !in declared then Some(0)
    else match FirstUndeclared(attrs[1..], declared)
         case None => None
         case Some(i) => Some(i + 1)
  }

  /** The first undeclared name is the one every earlier name precedes. */
  lemma FirstUndeclaredAt(attrs: seq<string>, declared: set<string>, k: nat)
    requires k < |attrs| && attrs[k] !in declared
    requires forall j :: 0 <= j < k ==> attrs[j] in declared
    ensures FirstUndeclared(attrs, declared) == Some(k)
  {
  }

  predicate NonnegOpt(x: Option<real>)
  {
    x.Some? ==> x.value >= 0.0
  }

  /** The `Field` constraints of `SolventData`. */
  predicate SolventFieldsInBounds(s: SolventData)
  {
    && s.deltaD >= 0.0 && s.deltaP >= 0.0 && s.deltaH >= 0.0
    && NonnegOpt(s.molecularWeight) && NonnegOpt(s.molarVolume) && NonnegOpt(s.density)
    && NonnegOpt(s.vaporPressure) && NonnegOpt(s.costPerMl) && NonnegOpt(s.deltaTotal)
    && (s.wgkClass.Some? ==> 0 <= s.wgkClass.value <= 3)
    && (s.sourceRow.Some? ==> s.sourceRow.value >= 1)
    && (s.completeness.Some? ==> 0.0 <= s.completeness.value <= 1.0)
  }

  /** `SolventData.validate_solvent_name`: None stays None, a blank name is
      rejected, any other name is stored stripped. */
  function ValidateOptionalName(v: Option<string>): (r: Result<Option<string>>)
    ensures r.Err? <==> v.Some? && Blank(v.value)
    ensures r.Ok? ==> (r.value.None? <==> v.None?)
    ensures r.Ok? && v.Some? ==> r.value == Some(Strip(v.value)) && r.value.value != [] && IsStripped(r.value.value)
  {
    match v
    case None => Ok(None)
    case Some(s) => if Blank(s) then Err("Solvent name cannot be empty when provided") else Ok(Some(Strip(s)))
  }

  /** √(δD² + δP² + δH²), unweighted; `sqrt` stands for the square root. */
  function TotalParameter(d: real, p: real, h: real, sqrt: real -> real): real
  {
    sqrt(Sq(d) + Sq(p) + Sq(h))
  }

  ghost predicate IsSqrt(sqrt: real -> real)
  {
    forall x :: x >= 0.0 ==> sqrt(x) >= 0.0 && Sq(sqrt(x)) == x
  }

  /** The total parameter is non-negative and its square is the
      unweighted sum of squares. */
  lemma TotalParameterMeaning(d: real, p: real, h: real, sqrt: real -> real)
    requires IsSqrt(sqrt)
    ensures TotalParameter(d, p, h, sqrt) >= 0.0
    ensures Sq(TotalParameter(d, p, h, sqrt)) == Sq(d) + Sq(p) + Sq(h)
  {
    SqNonneg(d);
    SqNonneg(p);
    SqNonneg(h);
  }

  /** Building a `SolventData`: the field constraints, the name validator,
      and `calculate_delta_total`, which fills a missing total from the
      three components. */
  function ValidateSolventData(raw: SolventData, sqrt: real -> real): (r: Result<SolventData>)
    ensures r.Err? <==> !SolventFieldsInBounds(raw) || ValidateOptionalName(raw.solvent).Err?
    ensures r.Ok? ==> r.value.solvent == ValidateOptionalName(raw.solvent).value
    ensures r.Ok? && raw.deltaTotal.Some? ==> r.value.deltaTotal == raw.deltaTotal
    ensures r.Ok? && raw.deltaTotal.None? ==> r.value.deltaTotal == Some(TotalParameter(raw.deltaD, raw.deltaP, raw.deltaH, sqrt))
    ensures r.Ok? ==> r.value == raw.(solvent := r.value.solvent, deltaTotal := r.value.deltaTotal)
  {
    if !SolventFieldsInBounds(raw) then Err("validation error")
    else
      var total := if raw.deltaTotal.Some? then raw.deltaTotal
                   else Some(TotalParameter(raw.deltaD, raw.deltaP, raw.deltaH, sqrt));
      match ValidateOptionalName(raw.solvent)
      case Err(m) => Err(m)
      case Ok(name) => Ok(raw.(solvent := name, deltaTotal := total))
  }

  /** A validated solvent record satisfies every field constraint, its
      name (if any) is non-empty and stripped, and its total parameter is
      the unweighted norm of its components unless one was supplied. */
  lemma ValidatedSolventData(raw: SolventData, sqrt: real -> real)
    requires IsSqrt(sqrt)
    requires ValidateSolventData(raw, sqrt).Ok?
    ensures var s := ValidateSolventData(raw, sqrt).value;
      && SolventFieldsInBounds(s)
      && (s.solvent.Some? ==> s.solvent.value != [] && IsStripped(s.solvent.value))
      && (raw.deltaTotal.None? ==> Sq(s.deltaTotal.value) == Sq(s.deltaD) + Sq(s.deltaP) + Sq(s.deltaH))
  {
    TotalParameterMeaning(raw.deltaD, raw.deltaP, raw.deltaH, sqrt);
  }

  datatype SolventTest = SolventTest(
    solventName: string,
    solubility: Solubility,
    notes: Option<string>,
    solventData: Option<SolventData>,
    manualDeltaD: Option<real>,
    manualDeltaP: Option<real>,
    manualDeltaH: Option<real>)

  /** `SolventTest.validate_solvent_name`: a blank name is rejected, any
      other name is stored stripped. */
  function ValidateTestName(v: string): (r: Result<string>)
    ensures r.Err? <==> Blank(v)
    ensures r.Ok? ==> r.value == Strip(v) && r.value != [] && IsStripped(r.value)
  {
    if Blank(v) then Err("Solvent name cannot be empty") else Ok(Strip(v))
  }

  /** Building a `SolventTest` from raw fields (the solvent record, if any,
      is already validated). */
  function ValidateSolventTest(raw: SolventTest): (r: Result<SolventTest>)
    ensures r.Err? <==> (
      || Blank(raw.solventName) || ValidateSolubility(raw.solubility).Err?
      || !NonnegOpt(raw.manualDeltaD) || !NonnegOpt(raw.manualDeltaP) || !NonnegOpt(raw.manualDeltaH))
    ensures r.Ok? ==> r.value == raw.(solventName := Strip(raw.solventName))
  {
    if !NonnegOpt(raw.manualDeltaD) || !NonnegOpt(raw.manualDeltaP) || !NonnegOpt(raw.manualDeltaH) then
      Err("ensure this value is greater than or equal to 0")
    else
      match ValidateTestName(raw.solventName)
      case Err(m) => Err(m)
      case Ok(name) =>
        match ValidateSolubility(raw.solubility)
        case Err(m) => Err(m)
        case Ok(_) => Ok(raw.(solventName := name))
  }

  /** The SolventTest invariants: stripped non-blank name, numeric
      solubility in [0, 1], non-negative manual values. */
  predicate ValidTest(t: SolventTest)
  {
    && t.solventName != [] && IsStripped(t.solventName)
    && (t.solubility.Numeric? ==> 0.0 <= t.solubility.x <= 1.0)
    && NonnegOpt(t.manualDeltaD) && NonnegOpt(t.manualDeltaP) && NonnegOpt(t.manualDeltaH)
  }

  lemma ValidatedTest(raw: SolventTest)
    requires ValidateSolventTest(raw).Ok?
    ensures ValidTest(ValidateSolventTest(raw).value)
  {
    var _ := ValidateTestName(raw.solventName);
  }

  /** `get_hsp_values`: the manual triple when all three manual values are
      set, else the attached solvent record's, else an error. */
  function GetHspValues(t: SolventTest): (r: Result<(real, real, real)>)
    ensures r.Err? <==> (t.manualDeltaD.None? || t.manualDeltaP.None? || t.manualDeltaH.None?) && t.solventData.None?
  {
    if t.manualDeltaD.Some? && t.manualDeltaP.Some? && t.manualDeltaH.Some? then
      Ok((t.manualDeltaD.value, t.manualDeltaP.value, t.manualDeltaH.value))
    else if t.solventData.Some? then
      Ok((t.solventData.value.deltaD, t.solventData.value.deltaP, t.solventData.value.deltaH))
    else Err("No HSP data available for " + t.solventName)
  }

  /** A complete manual triple wins over the record; a partial one is
      ignored entirely. */
  lemma GetHspValuesPrecedence(t: SolventTest)
    ensures t.manualDeltaD.Some? && t.manualDeltaP.Some? && t.manualDeltaH.Some? ==>
      GetHspValues(t) == Ok((t.manualDeltaD.value, t.manualDeltaP.value, t.manualDeltaH.value))
    ensures !(t.manualDeltaD.Some? && t.manualDeltaP.Some? && t.manualDeltaH.Some?) && t.solventData.Some? ==>
      GetHspValues(t) == Ok((t.solventData.value.deltaD, t.solventData.value.deltaP, t.solventData.value.deltaH))
  {
  }

  // ---------------------------------------------------------- search query

  datatype SolventSearchQuery = SolventSearchQuery(
    query: Option<string>,
    deltaDMin: Option<real>, deltaDMax: Option<real>,
    deltaPMin: Option<real>, deltaPMax: Option<real>,
    deltaHMin: Option<real>, deltaHMax: Option<real>,
    hasSmiles: Option<bool>,
    hasCas: Option<bool>,
    limit: int,
    offset: int)

  const DefaultLimit: int := 50
  const MaxLimit: int := 1000

  predicate QueryInBounds(q: SolventSearchQuery)
  {
    && NonnegOpt(q.deltaDMin) && NonnegOpt(q.deltaDMax)
    && NonnegOpt(q.deltaPMin) && NonnegOpt(q.deltaPMax)
    && NonnegOpt(q.deltaHMin) && NonnegOpt(q.deltaHMax)
    && 1 <= q.limit <= MaxLimit && q.offset >= 0
  }

  /** A query with only defaults: no filters, limit 50, offset 0. */
  function DefaultQuery(): (q: SolventSearchQuery)
    ensures QueryInBounds(q) && q.limit == DefaultLimit && q.offset == 0
  {
    SolventSearchQuery(None, None, None, None, None, None, None, None, None, DefaultLimit, 0)
  }

  function ValidateSearchQuery(raw: SolventSearchQuery): (r: Result<SolventSearchQuery>)
    ensures r.Ok? <==> QueryInBounds(raw)
    ensures r.Ok? ==> r.value == raw && 1 <= r.value.limit <= 1000 && r.value.offset >= 0
  {
    if QueryInBounds(raw) then Ok(raw) else Err("validation error")
  }
}
