/**
 * app/api/smiles_predictor.py: the batch endpoint's size limit and counts,
 * and the export package of a prediction: the file list of the archive,
 * the value cells of its CSV and README, and the sanitised download file
 * name. The machine-learning predictor is a parameter (a function from a
 * list of SMILES to their predictions) and so is the clock (the date
 * string); a formatted number is kept as the number and its count of
 * decimals.
 */
module SmilesPredictor {

  import opened Common
  import opened Text

  // -------------------------------------------------------- predict_batch

  /** `PredictionOutput`. */
  datatype Prediction = Prediction(
    smiles: string,
    isValid: bool,
    dD: Option<real>,
    dP: Option<real>,
    dH: Option<real>,
    tv: Option<real>,
    cho: Option<bool>,
    molecularFormula: Option<string>,
    structureSvg: Option<string>,
    errorMessage: Option<string>)

  /** `BatchPredictionOutput`. */
  datatype BatchOutput = BatchOutput(results: seq<Prediction>, total: nat, validCount: nat)

  const MaxBatchSize: nat := 100

  predicate IsValid(p: Prediction) { p.isValid }

  /** `predict_batch`: more than 100 SMILES are refused with 400; otherwise
      the predictions, in order, with their number and the number of valid
      ones, which never exceeds the total. */
  function PredictBatch(smilesList: seq<string>, predictBatch: seq<string> -> seq<Prediction>): (r: Result<BatchOutput>)
    ensures r.Err? <==> |smilesList| > MaxBatchSize
    ensures r.Ok? ==>
      && r.value.results == predictBatch(smilesList)
      && r.value.total == |r.value.results|
      && r.value.validCount <= r.value.total
  {
    if |smilesList| > MaxBatchSize then Err("Batch size limited to 100 molecules")
    else
      var results := predictBatch(smilesList);
      Ok(BatchOutput(results, |results|, Count(results, IsValid)))
  }

  /** Every prediction is valid exactly when the valid count is the total,
      and none is exactly when it is zero. */
  lemma {:induction false} ValidCountMeaning(results: seq<Prediction>)
    ensures Count(results, IsValid) == |results| <==> forall i :: 0 <= i < |results| ==> results[i].isValid
    ensures Count(results, IsValid) == 0 <==> forall i :: 0 <= i < |results| ==> !results[i].isValid
  {
    if |results| > 0 {
      var init := results[..|results| - 1];
      ValidCountMeaning(init);
      assert forall i :: 0 <= i < |init| ==> init[i] == results[i];
    }
  }

  /** The counts of a batch that is answered. */
  lemma BatchCounts(smilesList: seq<string>, predictBatch: seq<string> -> seq<Prediction>)
    requires |smilesList| <= MaxBatchSize
    ensures PredictBatch(smilesList, predictBatch).Ok?
    ensures var out := PredictBatch(smilesList, predictBatch).value;
      && (out.validCount == out.total <==> forall i :: 0 <= i < |out.results| ==> out.results[i].isValid)
      && (out.validCount == 0 <==> forall i :: 0 <= i < |out.results| ==> !out.results[i].isValid)
  {
    ValidCountMeaning(predictBatch(smilesList));
  }

  // ----------------------------------------------- export_prediction_as_zip

  /** `ExportInput`. */
  datatype ExportInput = ExportInput(
    solventName: string,
    smiles: string,
    dD: Option<real>,
    dP: Option<real>,
    dH: Option<real>,
    tv: Option<real>,
    cho: Option<bool>,
    molecularFormula: Option<string>,
    structureSvg: Option<string>)

  /** `'Yes' if CHO is True else ('No' if CHO is False else missing)`; the
      CSV writes `-` for the missing value and the README `N/A`. */
  function ChoCell(cho: Option<bool>, missing: string): string
  {
    if cho == Some(true) then "Yes" else if cho == Some(false) then "No" else missing
  }

  /** The three values of CHO have three different cells. */
  lemma ChoCellMeaning(cho: Option<bool>, missing: string)
    requires missing != "Yes" && missing != "No"
    ensures ChoCell(cho, missing) == "Yes" <==> cho == Some(true)
    ensures ChoCell(cho, missing) == "No" <==> cho == Some(false)
    ensures ChoCell(cho, missing) == missing <==> cho.None?
  {
    if cho.Some? {
      if cho.value {
        assert cho == Some(true);
      } else {
        assert cho == Some(false);
        assert "No"[0] != "Yes"[0];
      }
    }
  }

  /** `formula or missing`: an absent and an empty formula both give the
      missing value. */
  function FormulaCell(formula: Option<string>, missing: string): (r: string)
    ensures r == missing <==> formula.None? || formula.value == [] || formula.value == missing
    ensures r != missing ==> formula == Some(r)
  {
    if formula.Some? && formula.value != [] then formula.value else missing
  }

  /** A cell of the CSV or a value of the README: a number printed with
      a fixed number of decimals (`:.2f`, `:.1f`), or literal text. */
  datatype Cell = Fixed(x: real, decimals: nat) | Text(s: string)

  /** The number with the given decimals, or the missing value. */
  function NumberCell(v: Option<real>, decimals: nat, missing: string): Cell
  {
    if v.Some? then Fixed(v.value, decimals) else Text(missing)
  }

  /** The four values, in the order of the property rows and lines. */
  function Values(data: ExportInput): seq<Option<real>>
  {
    [data.dD, data.dP, data.dH, data.tv]
  }

  /** The value cells of the property rows (CSV) or lines (README): the
      three parameters with two decimals and the boiling point with one,
      and the missing value for an absent one. */
  function ValueCells(data: ExportInput, missing: string): seq<Cell>
  {
    [NumberCell(data.dD, 2, missing), NumberCell(data.dP, 2, missing), NumberCell(data.dH, 2, missing),
     NumberCell(data.tv, 1, missing)]
  }

  /** There is one cell per value; a cell is the missing value exactly
      when its value is absent, and is otherwise that value, with two
      decimals for the parameters and one for the boiling point. */
  lemma ValueCellsMeaning(data: ExportInput, missing: string)
    ensures |ValueCells(data, missing)| == |Values(data)| == 4
    ensures forall i :: 0 <= i < 4 ==> (ValueCells(data, missing)[i] == Text(missing) <==> Values(data)[i].None?)
    ensures forall i :: 0 <= i < 4 && Values(data)[i].Some? ==>
      ValueCells(data, missing)[i] == Fixed(Values(data)[i].value, if i == 3 then 1 else 2)
  {
  }

  /** The members of the archive: the CSV and the JSON, the HTML viewer and
      the raw SVG when a non-empty structure is given, and the README. */
  function ArchivePaths(structureSvg: Option<string>): seq<string>
  {
    ["data/prediction.csv", "data/prediction.json"]
    + (if structureSvg.Some? && structureSvg.value != [] then ["structure/molecule.html", "structure/molecule.svg"] else [])
    + ["README.txt"]
  }

  /** No member is written twice; the CSV, the JSON and the README are
      always there, the two structure files exactly when there is a
      structure. */
  lemma ArchivePathsMeaning(structureSvg: Option<string>)
    ensures forall i, j :: 0 <= i < j < |ArchivePaths(structureSvg)| ==> ArchivePaths(structureSvg)[i] != ArchivePaths(structureSvg)[j]
    ensures "data/prediction.csv" in ArchivePaths(structureSvg) && "data/prediction.json" in ArchivePaths(structureSvg)
      && "README.txt" in ArchivePaths(structureSvg)
    ensures ("structure/molecule.svg" in ArchivePaths(structureSvg)) <==> structureSvg.Some? && structureSvg.value != []
    ensures ("structure/molecule.html" in ArchivePaths(structureSvg)) <==> structureSvg.Some? && structureSvg.value != []
  {
    var p := ArchivePaths(structureSvg);
    var svg := structureSvg.Some? && structureSvg.value != [];
    assert p == if svg then ["data/prediction.csv", "data/prediction.json", "structure/molecule.html", "structure/molecule.svg", "README.txt"]
                       else ["data/prediction.csv", "data/prediction.json", "README.txt"];
  }

  /** What the model records of a package: its member paths, the value
      cells of the CSV and the README, and the download file name. */
  datatype Package = Package(paths: seq<string>, csvValues: seq<Cell>, readmeValues: seq<Cell>, filename: string)

  /** The README as written formats the four values with `:.2f` and `:.1f`
      unconditionally; a missing value raises (None has no float format),
      and the handler answers 500. */
  function ExportAsWritten(data: ExportInput, date: string): (r: Result<Package>)
    ensures r.Err? <==> MissingValue(data)
    ensures r.Ok? ==> r.value.paths == ArchivePaths(data.structureSvg) && r.value.filename == ExportFilename(data.solventName, date)
  {
    if MissingValue(data) then
      Err("Export error: unsupported format string passed to NoneType.__format__")
    else
      Ok(FormattedPackage(data, date))
  }

  /** Some value is absent. */
  predicate MissingValue(data: ExportInput)
  {
    data.dD.None? || data.dP.None? || data.dH.None? || data.tv.None?
  }

  /** The package as written when all four values are present. */
  function FormattedPackage(data: ExportInput, date: string): Package
    requires !MissingValue(data)
  {
    Package(ArchivePaths(data.structureSvg), ValueCells(data, "-"),
            [Fixed(data.dD.value, 2), Fixed(data.dP.value, 2), Fixed(data.dH.value, 2), Fixed(data.tv.value, 1)],
            ExportFilename(data.solventName, date))
  }

  /** As written, every input with a missing value fails, though the CSV
      written just before handles missing values; for instance a
      prediction without a boiling point. */
  lemma ExportAsWrittenFails(data: ExportInput, date: string)
    ensures ExportAsWritten(data, date).Err? <==> exists i :: 0 <= i < 4 && Values(data)[i].None?
  {
    MissingValueAt(data);
  }

  lemma MissingValueAt(data: ExportInput)
    ensures MissingValue(data) <==> exists i :: 0 <= i < 4 && Values(data)[i].None?
  {
    var v := Values(data);
    if data.dD.None? { assert v[0].None?; }
    else if data.dP.None? { assert v[1].None?; }
    else if data.dH.None? { assert v[2].None?; }
    else if data.tv.None? { assert v[3].None?; }
  }

  /** Ethanol predicted without a boiling point cannot be exported as
      written. */
  lemma EthanolExportFails(date: string)
    ensures ExportAsWritten(ExportInput("Ethanol", "CCO", Some(15.8), Some(8.8), Some(19.4), None, Some(true), Some("C2H6O"), None),
                            date).Err?
  {
  }

  /** The package with the README's missing values written `N/A`, as it
      writes a missing formula and CHO. */
  function ExportPackage(data: ExportInput, date: string): (p: Package)
    ensures p.paths == ArchivePaths(data.structureSvg) && p.filename == ExportFilename(data.solventName, date)
    ensures |p.csvValues| == 4 && |p.readmeValues| == 4
  {
    Package(ArchivePaths(data.structureSvg), ValueCells(data, "-"), ValueCells(data, "N/A"),
            ExportFilename(data.solventName, date))
  }

  /** Every input has a package; a CSV value is `-` and a README value
      `N/A` exactly when the value is missing; and where the code as
      written succeeds, the corrected package is the same. */
  lemma ExportPackageMeaning(data: ExportInput, date: string)
    ensures var p := ExportPackage(data, date);
      && |p.csvValues| == |p.readmeValues| == 4
      && (forall i :: 0 <= i < 4 ==> (p.csvValues[i] == Text("-") <==> Values(data)[i].None?))
      && (forall i :: 0 <= i < 4 ==> (p.readmeValues[i] == Text("N/A") <==> Values(data)[i].None?))
    ensures ExportAsWritten(data, date).Ok? ==> ExportAsWritten(data, date).value == ExportPackage(data, date)
  {
    ValueCellsMeaning(data, "-");
    ValueCellsMeaning(data, "N/A");
  }

  // -------------------------------------------------------------- filename

  /** The characters the sanitiser keeps: letters, digits, space, `-` and
      `_`. */
  predicate Allowed(c: char)
  {
    IsAlnum(c) || c == ' ' || c == '-' || c == '_'
  }

  /** The characters the file name may hold. */
  predicate FileChar(c: char)
  {
    IsAlnum(c) || c == '-' || c == '_'
  }

  /** `"".join(c for c in name if allowed(c))`. */
  function Keep(s: string): (r: string)
    ensures |r| <= |s|
    ensures forall i :: 0 <= i < |r| ==> Allowed(r[i])
  {
    if |s| == 0 then [] else Keep(s[..|s| - 1]) + (if Allowed(s[|s| - 1]) then [s[|s| - 1]] else [])
  }

  /** A character survives the filter exactly when it is in the name and
      allowed. */
  lemma {:induction false} KeepMeaning(s: string)
    ensures forall c :: c in Keep(s) <==> c in s && Allowed(c)
  {
    if |s| > 0 {
      var init := s[..|s| - 1];
      KeepMeaning(init);
      assert s == init + [s[|s| - 1]];
    }
  }

  /** A name whose every character is allowed passes the filter whole. */
  lemma {:induction false} KeepAllowed(s: string)
    requires forall i :: 0 <= i < |s| ==> Allowed(s[i])
    ensures Keep(s) == s
  {
    if |s| > 0 {
      KeepAllowed(s[..|s| - 1]);
      assert s == s[..|s| - 1] + [s[|s| - 1]];
    }
  }

  /** The sanitised stem: filtered, stripped, spaces turned into `_`. */
  function SafeName(name: string): string
  {
    ReplaceChar(Strip(Keep(name)), ' ', '_')
  }

  /** The stem holds only letters, digits, `-` and `_`, is no longer than
      the name, and holds every letter, digit and `-` of the name and no
      other; an `_` of the name stays. */
  lemma SafeNameMeaning(name: string)
    ensures var r := SafeName(name);
      && |r| <= |name|
      && (forall i :: 0 <= i < |r| ==> FileChar(r[i]))
      && (forall c :: IsAlnum(c) || c == '-' ==> (c in r <==> c in name))
      && ('_' in name ==> '_' in r)
  {
    SafeNameChars(name);
    forall c | FileChar(c) && c in name ensures c in SafeName(name) {
      SafeNameKeeps(name, c);
    }
    forall c | (IsAlnum(c) || c == '-') && c in SafeName(name) ensures c in name {
      SafeNameFrom(name, c);
    }
  }

  lemma SafeNameChars(name: string)
    ensures forall i :: 0 <= i < |SafeName(name)| ==> FileChar(SafeName(name)[i])
  {
    var k := Keep(name);
    var t := Strip(k);
    var lead := LeadingSpaces(k);
    forall i | 0 <= i < |t| ensures Allowed(t[i]) {
      assert t[i] == k[lead + i];
    }
  }

  lemma SafeNameKeeps(name: string, c: char)
    requires FileChar(c) && c in name
    ensures c in SafeName(name)
  {
    var k := Keep(name);
    KeepMeaning(name);
    assert c in k;
    StripKeeps(k, c);
    ReplaceKeeps(Strip(k), c);
  }

  lemma StripKeeps(k: string, c: char)
    requires c in k && !IsSpace(c)
    ensures c in Strip(k)
  {
    var j :| 0 <= j < |k| && k[j] == c;
    InStrip(k, j);
  }

  lemma ReplaceKeeps(t: string, c: char)
    requires c in t && c != ' '
    ensures c in ReplaceChar(t, ' ', '_')
  {
    var i :| 0 <= i < |t| && t[i] == c;
    assert ReplaceChar(t, ' ', '_')[i] == c;
  }

  lemma SafeNameFrom(name: string, c: char)
    requires c != '_' && c in SafeName(name)
    ensures c in name
  {
    var k := Keep(name);
    var t := Strip(k);
    var r := SafeName(name);
    var lead := LeadingSpaces(k);
    KeepMeaning(name);
    var i :| 0 <= i < |r| && r[i] == c;
    assert t[i] == c;
    assert k[lead + i] == c;
  }

  /** A name that is already a safe stem is left as it is, so sanitising
      twice changes nothing. */
  lemma SafeNameOfSafe(name: string)
    requires forall i :: 0 <= i < |name| ==> FileChar(name[i])
    ensures SafeName(name) == name
  {
    assert forall i :: 0 <= i < |name| ==> Allowed(name[i]) && name[i] != ' ';
    KeepAllowed(name);
    StripOfStripped(name);
    var r := ReplaceChar(name, ' ', '_');
    assert |r| == |name| && forall i :: 0 <= i < |name| ==> r[i] == name[i];
  }

  lemma SafeNameIdempotent(name: string)
    ensures SafeName(SafeName(name)) == SafeName(name)
  {
    SafeNameMeaning(name);
    SafeNameOfSafe(SafeName(name));
  }

  /** `f"{safe_name}_prediction_{date_str}.zip"`. */
  function ExportFilename(name: string, date: string): string
  {
    SafeName(name) + "_prediction_" + date + ".zip"
  }

  /** For a `%Y%m%d` date the file name is the stem followed by
      `_prediction_`, the date and `.zip`, and holds nothing but letters,
      digits, `-`, `_` and the one `.` of the extension: no space, quote or
      path separator reaches the `Content-Disposition` header. */
  lemma ExportFilenameMeaning(name: string, date: string)
    requires forall i :: 0 <= i < |date| ==> IsDigit(date[i])
    ensures var f := ExportFilename(name, date);
      && f[..|SafeName(name)|] == SafeName(name)
      && f[|f| - 4..] == ".zip"
      && (forall i :: 0 <= i < |f| - 4 ==> FileChar(f[i]))
  {
    SafeNameChars(name);
    MidFileChars();
    assert FileChars(date);
    ZipLength();
    FileNameShape(SafeName(name), "_prediction_", date, ".zip");
  }

  /** A name made of file-name pieces followed by an extension. */
  lemma FileNameShape(s: string, mid: string, date: string, ext: string)
    requires FileChars(s) && FileChars(mid) && FileChars(date)
    ensures var f := s + mid + date + ext;
      && f[..|s|] == s
      && f[|f| - |ext|..] == ext
      && (forall i :: 0 <= i < |f| - |ext| ==> FileChar(f[i]))
  {
    var g := s + mid + date;
    var f := g + ext;
    FileCharsConcat(s, mid);
    FileCharsConcat(s + mid, date);
    assert f[..|s|] == s;
    assert f[|f| - |ext|..] == ext;
    forall i | 0 <= i < |f| - |ext| ensures FileChar(f[i]) {
      assert f[i] == g[i];
    }
  }

  lemma ZipLength()
    ensures |".zip"| == 4
  {
  }

  /** Every character of `s` may appear in a file name. */
  predicate FileChars(s: string)
  {
    forall i :: 0 <= i < |s| ==> FileChar(s[i])
  }

  lemma FileCharsConcat(a: string, b: string)
    requires FileChars(a) && FileChars(b)
    ensures FileChars(a + b)
  {
    forall i | 0 <= i < |a + b| ensures FileChar((a + b)[i]) {
      if i < |a| { assert (a + b)[i] == a[i]; } else { assert (a + b)[i] == b[i - |a|]; }
    }
  }

  lemma MidFileChars()
    ensures FileChars("_prediction_")
  {
  }
}
