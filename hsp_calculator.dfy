/**
 * app/services/hsp_calculator.py: turning an experiment's solvent tests
 * into the rows the HSP fitting library reads, validating the tests before
 * a calculation, and the guard of the calculation itself. The database
 * lookup by solvent name and the fitting library are parameters. The
 * operations use `_extract_hsp_values` as written; its intended reading
 * is kept beside it.
 */
module HspCalculator {

  import opened Common
  import opened SolventModels
  import opened HspModels
  import opened Text

  /** Optional (δD, δP, δH) as `_extract_hsp_values` returns them. */
  datatype HspTriple = HspTriple(d: Option<real>, p: Option<real>, h: Option<real>)

  const NoValues: HspTriple := HspTriple(None, None, None)

  predicate Complete(t: HspTriple)
  {
    t.d.Some? && t.p.Some? && t.h.Some?
  }

  /** The solvent-database lookup by name; a failure or a miss is None. */
  type Lookup = string -> Option<(real, real, real)>

  function FromLookup(v: (real, real, real)): HspTriple
  {
    HspTriple(Some(v.0), Some(v.1), Some(v.2))
  }

  /** `_extract_hsp_values` as written. The attached solvent record is
      checked with `key in solvent_data`, which on a pydantic model compares
      the key with (name, value) pairs and is never true, so the record is
      never used. */
  function ExtractHspValuesAsWritten(test: SolventTest, lookup: Lookup): (r: HspTriple)
    ensures test.manualDeltaD.Some? ==> r == HspTriple(test.manualDeltaD, test.manualDeltaP, test.manualDeltaH)
    ensures test.manualDeltaD.None? ==> (r == NoValues <==> test.solventName == [] || lookup(test.solventName).None?)
    ensures test.manualDeltaD.None? && r != NoValues ==> Complete(r) && Some((r.d.value, r.p.value, r.h.value)) == lookup(test.solventName)
  {
    if test.manualDeltaD.Some? then HspTriple(test.manualDeltaD, test.manualDeltaP, test.manualDeltaH)
    else if test.solventName != [] && lookup(test.solventName).Some? then FromLookup(lookup(test.solventName).value)
    else NoValues
  }

  /** `_extract_hsp_values` as intended: a manual δD selects the manual
      triple (even with δP or δH missing), else the attached record, else
      the database entry of the name, else nothing. */
  function ExtractHspValues(test: SolventTest, lookup: Lookup): (r: HspTriple)
    ensures test.manualDeltaD.Some? ==> r == HspTriple(test.manualDeltaD, test.manualDeltaP, test.manualDeltaH)
    ensures test.manualDeltaD.None? && test.solventData.Some? ==>
      r == HspTriple(Some(test.solventData.value.deltaD), Some(test.solventData.value.deltaP), Some(test.solventData.value.deltaH))
    ensures test.manualDeltaD.None? && test.solventData.None? ==> r == ExtractHspValuesAsWritten(test, lookup)
  {
    if test.manualDeltaD.Some? then HspTriple(test.manualDeltaD, test.manualDeltaP, test.manualDeltaH)
    else if test.solventData.Some? then
      var s := test.solventData.value;
      HspTriple(Some(s.deltaD), Some(s.deltaP), Some(s.deltaH))
    else if test.solventName != [] && lookup(test.solventName).Some? then FromLookup(lookup(test.solventName).value)
    else NoValues
  }

  /** A test with an attached record but no manual values and no database
      entry gets no values as written, so the conversion skips it, and the
      record's values as intended. */
  lemma AttachedRecordIgnored()
    ensures var rec := SolventData(None, 15.5, 10.4, 7.0, None, None, None, None, None, None, None, None, None, None, None, None, None);
      var test := SolventTest("X", Category(Soluble), None, Some(rec), None, None, None);
      var none: Lookup := _ => None;
      && ExtractHspValuesAsWritten(test, none) == NoValues
      && ExtractHspValues(test, none) == HspTriple(Some(15.5), Some(10.4), Some(7.0))
      && ConvertedRows([test], none) == []
  {
    var rec := SolventData(None, 15.5, 10.4, 7.0, None, None, None, None, None, None, None, None, None, None, None, None, None);
    var test := SolventTest("X", Category(Soluble), None, Some(rec), None, None, None);
    var none: Lookup := _ => None;
    assert [test][..0] == [];
  }

  /** As written, a manual δD wins even when δP or δH is missing, which
      leaves the triple incomplete; without manual values the result is
      nothing or a complete lookup entry; and the attached record never
      changes the result. */
  lemma ExtractPrecedence(test: SolventTest, lookup: Lookup)
    ensures test.manualDeltaD.Some? && test.manualDeltaP.None? ==> !Complete(ExtractHspValuesAsWritten(test, lookup))
    ensures test.manualDeltaD.None? ==>
      (ExtractHspValuesAsWritten(test, lookup) == NoValues || Complete(ExtractHspValuesAsWritten(test, lookup)))
    ensures ExtractHspValuesAsWritten(test, lookup) == ExtractHspValuesAsWritten(test.(solventData := None), lookup)
  {
  }

  /** `_convert_solubility_to_binary`: 1 for 'soluble' and 'partial', 0
      for everything else, numeric scores included. */
  function ConvertSolubilityToBinary(s: Solubility): (b: int)
    ensures b == 1 <==> s == Category(Soluble) || s == Category(Partial)
    ensures b == 0 || b == 1
  {
    if s == Category(Soluble) || s == Category(Partial) then 1 else 0
  }

  /** A numeric score, even 1.0, becomes a poor solvent. */
  lemma NumericScoresArePoor(x: real)
    ensures ConvertSolubilityToBinary(Numeric(x)) == 0
  {
  }

  datatype HspRow = HspRow(chemical: string, d: real, p: real, h: real, data: int)

  /** The rows of the tests with complete values, in test order. */
  function ConvertedRows(tests: seq<SolventTest>, lookup: Lookup): (rows: seq<HspRow>)
    ensures |rows| <= |tests|
  {
    if |tests| == 0 then []
    else
      var t := tests[|tests| - 1];
      var v := ExtractHspValuesAsWritten(t, lookup);
      ConvertedRows(tests[..|tests| - 1], lookup)
        + (if Complete(v) then [HspRow(t.solventName, v.d.value, v.p.value, v.h.value, ConvertSolubilityToBinary(t.solubility))] else [])
  }

  /** `_convert_tests_to_hsp_format`: tests without complete values are
      skipped. */
  method ConvertTestsToHspFormat(tests: seq<SolventTest>, lookup: Lookup) returns (rows: seq<HspRow>)
    ensures rows == ConvertedRows(tests, lookup)
  {
    rows := [];
    for i := 0 to |tests|
      invariant rows == ConvertedRows(tests[..i], lookup)
    {
      assert tests[..i + 1][..i] == tests[..i];
      var test := tests[i];
      var v := ExtractHspValuesAsWritten(test, lookup);
      if v.d.None? || v.p.None? || v.h.None? {
        continue;
      }
      rows := rows + [HspRow(test.solventName, v.d.value, v.p.value, v.h.value, ConvertSolubilityToBinary(test.solubility))];
    }
    assert tests[..|tests|] == tests;
  }

  /** Number of tests whose values are complete. */
  function CompleteCount(tests: seq<SolventTest>, lookup: Lookup): (n: nat)
    ensures n <= |tests|
  {
    if |tests| == 0 then 0
    else CompleteCount(tests[..|tests| - 1], lookup) + (if Complete(ExtractHspValuesAsWritten(tests[|tests| - 1], lookup)) then 1 else 0)
  }

  /** One row per test with complete values, carrying the test's name and
      its binary score. */
  lemma {:induction false} ConvertedRowsMeaning(tests: seq<SolventTest>, lookup: Lookup)
    ensures |ConvertedRows(tests, lookup)| == CompleteCount(tests, lookup)
    ensures forall r :: r in ConvertedRows(tests, lookup) ==> r.data == 0 || r.data == 1
    ensures forall i :: 0 <= i < |tests| && Complete(ExtractHspValuesAsWritten(tests[i], lookup)) ==>
      var v := ExtractHspValuesAsWritten(tests[i], lookup);
      HspRow(tests[i].solventName, v.d.value, v.p.value, v.h.value, ConvertSolubilityToBinary(tests[i].solubility))
        in ConvertedRows(tests, lookup)
  {
    if |tests| > 0 {
      var n := |tests| - 1;
      ConvertedRowsMeaning(tests[..n], lookup);
      assert forall i :: 0 <= i < n ==> tests[..n][i] == tests[i];
    }
  }

  // ------------------------------------------------------ validate_test_data

  datatype Validation = Validation(
    valid: bool, errors: seq<string>, warnings: seq<string>,
    totalTests: nat, withHspData: nat, goodSolvents: nat, poorSolvents: nat)

  predicate IsGood(s: Solubility)
  {
    s == Category(Soluble) || s == Category(Partial)
  }

  function GoodCount(tests: seq<SolventTest>): (n: nat)
    ensures n <= |tests|
  {
    if |tests| == 0 then 0 else GoodCount(tests[..|tests| - 1]) + (if IsGood(tests[|tests| - 1].solubility) then 1 else 0)
  }

  function ValidationOf(tests: seq<SolventTest>, lookup: Lookup): Validation
  {
    if |tests| < 2 then Validation(false, ["At least 2 solvent tests are required"], [], |tests|, 0, 0, 0)
    else Verdict(|tests|, CompleteCount(tests, lookup), GoodCount(tests))
  }

  /** The checks after the counting loop. */
  const HspDataPrefix: string := "At least 2 tests with complete HSP data required (found "
  const HspDataSuffix: string := ")"
  const GoodSolventError: string := "At least 1 good solvent (soluble/partial) is required"
  const NoPoorWarning: string := "No poor solvents found - calculation may be less accurate"

  /** The count error, which reports how many tests had complete values. */
  function HspDataError(found: nat): string
  {
    HspDataPrefix + NatToString(found) + HspDataSuffix
  }

  /** The count error starts with the fixed text, ends with ")", and the
      digits between them read back as the count. */
  lemma HspDataErrorCount(found: nat)
    ensures var e := HspDataError(found);
      && |e| > |HspDataPrefix| + |HspDataSuffix|
      && e[..|HspDataPrefix|] == HspDataPrefix && e[|e| - 1] == ')'
      && AllDigits(e[|HspDataPrefix|..|e| - 1])
      && DecimalValue(e[|HspDataPrefix|..|e| - 1]) == found
  {
    var e := HspDataError(found);
    assert e[|HspDataPrefix|..|e| - 1] == NatToString(found);
    NatToStringValue(found);
  }

  function Verdict(total: nat, hsp: nat, good: nat): Validation
    requires good <= total
  {
    var poor := total - good;
    var errors := (if hsp < 2 then [HspDataError(hsp)] else [])
                + (if good == 0 then [GoodSolventError] else []);
    var warnings := if poor == 0 then [NoPoorWarning] else [];
    Validation(hsp >= 2 && good > 0, errors, warnings, total, hsp, good, poor)
  }

  /** `validate_test_data`: the counting loop and the checks after it. */
  method ValidateTestData(tests: seq<SolventTest>, lookup: Lookup) returns (v: Validation)
    ensures v == ValidationOf(tests, lookup)
  {
    if |tests| < 2 {
      return Validation(false, ["At least 2 solvent tests are required"], [], |tests|, 0, 0, 0);
    }
    var hspDataCount, goodSolvents, poorSolvents := 0, 0, 0;
    for i := 0 to |tests|
      invariant hspDataCount == CompleteCount(tests[..i], lookup)
      invariant goodSolvents == GoodCount(tests[..i])
      invariant poorSolvents == i - goodSolvents
    {
      CountStep(tests, i, lookup);
      var complete, good := Classify(tests[i], lookup);
      if complete {
        hspDataCount := hspDataCount + 1;
      }
      if good {
        goodSolvents := goodSolvents + 1;
      } else {
        poorSolvents := poorSolvents + 1;
      }
    }
    assert tests[..|tests|] == tests;
    v := Judge(|tests|, hspDataCount, goodSolvents, poorSolvents);
  }

  method Judge(total: nat, hspDataCount: nat, goodSolvents: nat, poorSolvents: nat) returns (v: Validation)
    requires goodSolvents <= total && poorSolvents == total - goodSolvents
    ensures v == Verdict(total, hspDataCount, goodSolvents)
  {
    var errors: seq<string> := [];
    var warnings: seq<string> := [];
    var valid := true;
    if hspDataCount < 2 {
      valid := false;
      errors := errors + [HspDataError(hspDataCount)];
    }
    if goodSolvents == 0 {
      valid := false;
      errors := errors + [GoodSolventError];
    }
    if poorSolvents == 0 {
      warnings := warnings + [NoPoorWarning];
    }
    v := Validation(valid, errors, warnings, total, hspDataCount, goodSolvents, poorSolvents);
  }

  /** The body of the counting loop: whether the test has all three values
      and whether it is a good solvent. */
  method Classify(test: SolventTest, lookup: Lookup) returns (complete: bool, good: bool)
    ensures complete == Complete(ExtractHspValuesAsWritten(test, lookup))
    ensures good == IsGood(test.solubility)
  {
    var t := ExtractHspValuesAsWritten(test, lookup);
    complete := t.d.Some? && t.p.Some? && t.h.Some?;
    good := test.solubility == Category(Soluble) || test.solubility == Category(Partial);
  }

  lemma CountStep(tests: seq<SolventTest>, i: nat, lookup: Lookup)
    requires i < |tests|
    ensures CompleteCount(tests[..i + 1], lookup)
      == CompleteCount(tests[..i], lookup) + (if Complete(ExtractHspValuesAsWritten(tests[i], lookup)) then 1 else 0)
    ensures GoodCount(tests[..i + 1]) == GoodCount(tests[..i]) + (if IsGood(tests[i].solubility) then 1 else 0)
  {
    assert tests[..i + 1][..i] == tests[..i];
  }

  /** Fewer than two tests: invalid with exactly one error and nothing
      counted. Otherwise good + poor is the number of tests, the result is
      valid exactly when at least two tests have complete values and at
      least one is good, it is invalid exactly when there is an error, and
      a missing poor solvent only warns. */
  lemma ValidationMeaning(tests: seq<SolventTest>, lookup: Lookup)
    ensures var v := ValidationOf(tests, lookup);
      && (|tests| < 2 ==> !v.valid && |v.errors| == 1 && v.withHspData == 0 && v.goodSolvents == 0 && v.poorSolvents == 0)
      && (|tests| >= 2 ==> v.goodSolvents + v.poorSolvents == v.totalTests == |tests|)
      && (|tests| >= 2 ==> (v.valid <==> v.withHspData >= 2 && v.goodSolvents > 0))
      && (v.valid <==> |v.errors| == 0)
      && (|tests| >= 2 ==> (|v.warnings| > 0 <==> v.poorSolvents == 0))
      && (|tests| >= 2 ==> v.withHspData == CompleteCount(tests, lookup) && v.goodSolvents == GoodCount(tests))
      && v.totalTests == |tests|
  {
  }

  /** With two tests or more, the count error (reporting the count) is
      raised exactly when fewer than two tests have complete values, and
      the good-solvent error exactly when no test is good; nothing else is
      an error. */
  lemma ValidationErrors(tests: seq<SolventTest>, lookup: Lookup)
    requires |tests| >= 2
    ensures var v := ValidationOf(tests, lookup);
      && (HspDataError(v.withHspData) in v.errors <==> v.withHspData < 2)
      && (GoodSolventError in v.errors <==> v.goodSolvents == 0)
      && forall e :: e in v.errors ==> e == HspDataError(v.withHspData) || e == GoodSolventError
  {
    var v := ValidationOf(tests, lookup);
    ErrorsDiffer(v.withHspData);
  }

  /** The count error and the good-solvent error never coincide: the
      count error is the longer. */
  lemma ErrorsDiffer(found: nat)
    ensures HspDataError(found) != GoodSolventError
  {
    assert |GoodSolventError| < |HspDataPrefix|;
  }

  // ---------------------------------------------- calculate_hsp_from_tests

  /** What the fitting library reports for a set of rows. */
  datatype HspFit = HspFit(d: real, p: real, h: real, radius: real, accuracy: real, error: real, dataFit: real)

  /** `calculate_hsp_from_tests`: None when fewer than two rows convert,
      when the library fails, or when its values break the result's field
      constraints (every exception is caught). */
  function CalculateHspFromTests(tests: seq<SolventTest>, lookup: Lookup, fit: seq<HspRow> -> Option<HspFit>)
    : (r: Option<HspCalculationResult>)
    ensures |ConvertedRows(tests, lookup)| < 2 ==> r.None?
    ensures r.Some? ==> ResultInBounds(r.value) && r.value.solventCount == |tests|
    ensures r.Some? ==> r.value.goodSolvents == CountType(tests, Soluble) && r.value.methodName == "HSPiPy"
  {
    var rows := ConvertedRows(tests, lookup);
    if |rows| < 2 then None
    else match fit(rows)
      case None => None
      case Some(f) =>
        var raw := HspCalculationResult(f.d, f.p, f.h, f.radius, f.accuracy, f.error, f.dataFit,
                                        "HSPiPy", |tests|, CountType(tests, Soluble), None);
        match ValidateCalculationResult(raw)
        case Err(_) => None
        case Ok(res) => Some(res)
  }
}
