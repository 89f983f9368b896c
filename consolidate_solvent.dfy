/**
 * scripts/consolidate_solvent_csv.py: merging the solvent tables into one.
 * Columns are renamed to standard names, each row's solvent name is
 * cleaned, numeric columns are cleaned, the CHO-only flag is determined,
 * and duplicates, keyed by the lower-cased base name, are resolved by a
 * priority score. Reading and writing the files is left out; a file is
 * its name, its header and its rows.
 */
module ConsolidateSolvent {

  import opened Common
  import opened Text
  import opened CsvCleaning
  import opened SolventNames
  import opened DuplicateRegistry

  // ------------------------------------------------ normalize_column_names

  const ColumnMapping: map<string, string> := map[
    "Solvents" := "Solvent",
    "dD" := "delta_D",
    "dP" := "delta_P",
    "dH" := "delta_H",
    "\U{03B4}t" := "delta_total",
    "Volume" := "MVol",
    "MWt (g/mol)" := "MWt",
    "Molecular Weight" := "MWt",
    "MVol (cm\U{00B3}/mol)" := "MVol",
    "Molar Volume" := "MVol",
    "Tv     (\U{00B0}C)" := "Tb",
    "Tv" := "Tb",
    "T_b" := "Tb",
    "Boiling Point (C)" := "Tb",
    "Pv  (hPa)" := "Pv",
    "Density     (g/cm\U{00B3})" := "Density",
    "Density (g/L)" := "Density",
    "Cost      (\U{20AC}/mL)" := "Cost",
    "Cas" := "CAS"
  ]

  function NormalizeColumnName(c: string): string
  {
    if c in ColumnMapping then ColumnMapping[c] else c
  }

  /** `normalize_column_names`: each column renamed through the mapping,
      others kept; a missing essential column only logs a warning. */
  function NormalizeColumns(columns: seq<string>): (r: seq<string>)
    ensures |r| == |columns|
    ensures forall i :: 0 <= i < |columns| ==> r[i] == NormalizeColumnName(columns[i])
  {
    seq(|columns|, i requires 0 <= i < |columns| => NormalizeColumnName(columns[i]))
  }

  /** No standard name is itself renamed. */
  lemma MappingTargetsFixed()
    ensures forall c :: c in ColumnMapping ==> ColumnMapping[c] !in ColumnMapping
  {
  }

  /** Normalising twice is normalising once, and no column is called "Tv"
      afterwards. */
  lemma NormalizeMeaning(columns: seq<string>)
    ensures NormalizeColumns(NormalizeColumns(columns)) == NormalizeColumns(columns)
    ensures "Tv" !in NormalizeColumns(columns)
  {
    MappingTargetsFixed();
    var r := NormalizeColumns(columns);
    forall i | 0 <= i < |r| ensures r[i] != "Tv" {
      if columns[i] in ColumnMapping { assert ColumnMapping[columns[i]] != "Tv"; } else { assert columns[i] != "Tv"; }
    }
  }

  // ----------------------------------------------------- numeric cleaning

  /** The numeric-field table as intended, with the boiling point under
      "Tb", the name this script's column map gives it; the table the
      script writes (`NumericFieldTable`, used by `RowEntry`) lists "Tv" and
      so misses it. */
  const NumericFields: seq<NumericRule> := [
    NumericRule("WGK", IntField, false),
    NumericRule("delta_D", FloatField, false),
    NumericRule("delta_P", FloatField, false),
    NumericRule("delta_H", FloatField, false),
    NumericRule("MWt", FloatField, false),
    NumericRule("MVol", FloatField, false),
    NumericRule("Density", FloatField, false),
    NumericRule("Tb", FloatField, true),
    NumericRule("Pv", FloatField, false),
    NumericRule("Cost", FloatField, false)
  ]

  /** As written, a normalised row's "Tb" column is never cleaned. */
  lemma BoilingPointUncleaned(columns: seq<string>, cells: seq<Cell>, parse: ParseFloat)
    ensures var row := RowOf(NormalizeColumns(columns), cells);
      "Tb" in row ==> CleanRow(row, NumericFieldTable, parse)["Tb"] == Raw(row["Tb"])
  {
    var t := NumericFieldTable;
    assert forall i :: 0 <= i < |t| ==> t[i].column != "Tb";
  }

  /** A "Tv" column holding "-": the marker survives as written and becomes
      a missing value when the table names "Tb". */
  lemma BoilingPointExample(parse: ParseFloat)
    ensures var row := RowOf(NormalizeColumns(["Solvent", "Tv"]), [Text("Water"), Text("-")]);
      && "Tb" in row
      && CleanRow(row, NumericFieldTable, parse)["Tb"] == Raw(Text("-"))
      && CleanRow(row, NumericFields, parse)["Tb"] == Cleaned(None)
  {
    BoilingPointColumns();
    var row := RowOf(["Solvent", "Tb"], [Text("Water"), Text("-")]);
    BoilingPointRow();
    BoilingPointUncleaned(["Solvent", "Tv"], [Text("Water"), Text("-")], parse);
    BoilingPointRule();
    DashIsMissing(parse);
    CleanRowAt(row, NumericFields, parse, "Tb");
  }

  lemma DashIsMissing(parse: ParseFloat)
    ensures CleanNumericField(Text("-"), FloatField, true, parse).None?
  {
    assert Strip("-") == "-";
    assert "-" in MissingMarkers;
  }

  lemma CleanRowAt(row: map<string, Cell>, table: seq<NumericRule>, parse: ParseFloat, c: string)
    requires c in row && RuleFor(table, c).Some?
    ensures var rule := RuleFor(table, c).value;
      CleanRow(row, table, parse)[c] == Cleaned(CleanNumericField(row[c], rule.ft, rule.allowNegative, parse))
  {
  }

  lemma BoilingPointColumns()
    ensures NormalizeColumns(["Solvent", "Tv"]) == ["Solvent", "Tb"]
  {
    assert "Solvent" !in ColumnMapping;
    assert ColumnMapping["Tv"] == "Tb";
  }

  lemma BoilingPointRow()
    ensures var row := RowOf(["Solvent", "Tb"], [Text("Water"), Text("-")]);
      "Tb" in row && row["Tb"] == Text("-")
  {
    var cols: seq<string> := ["Solvent", "Tb"];
    var cells := [Text("Water"), Text("-")];
    assert cols[..1] == ["Solvent"] && cells[..1] == [Text("Water")];
  }

  lemma BoilingPointRule()
    ensures RuleFor(NumericFields, "Tb") == Some(NumericRule("Tb", FloatField, true))
  {
    var t := NumericFields;
    assert forall i :: 0 <= i < 7 ==> t[i].column != "Tb";
    RuleForAt(t, 7, "Tb");
  }

  // -------------------------------------------------- determine_cho_only

  const ChoMarkers: seq<string> := ["", "nan", "NaN", "NA", "N/A", "-"]
  const TrueTokens: seq<string> := ["true", "t", "1", "yes", "y"]
  const FalseTokens: seq<string> := ["false", "f", "0", "no", "n"]

  /** A cell present and not one of the missing markers once stripped. */
  predicate Usable(c: Option<Cell>)
  {
    c.Some? && Strip(Shown(c.value)) !in ChoMarkers
  }

  /** `re.findall(r'([A-Z][a-z]?)', s)`. */
  function FormulaElements(s: string): (es: seq<string>)
    ensures forall i :: 0 <= i < |es| ==> 1 <= |es[i]| <= 2 && IsUpper(es[i][0]) && (|es[i]| == 2 ==> IsLowerCase(es[i][1]))
  {
    if |s| == 0 then []
    else if IsUpper(s[0]) then
      if |s| >= 2 && IsLowerCase(s[1]) then [s[..2]] + FormulaElements(s[2..])
      else [s[..1]] + FormulaElements(s[1..])
    else FormulaElements(s[1..])
  }

  predicate OnlyCho(elements: seq<string>)
  {
    forall i :: 0 <= i < |elements| ==> elements[i] == "C" || elements[i] == "H" || elements[i] == "O"
  }

  /** `determine_cho_only`: an explicit CHO token first, then the SMILES
      analysis (a parameter: None where RDKit is missing, the SMILES does
      not parse or raises), then the element symbols of the formula. */
  function DetermineChoOnly(smiles: Option<Cell>, formula: Option<Cell>, cho: Option<Cell>,
                            smilesCho: string -> Option<bool>): Option<bool>
  {
    var token := if cho.Some? then Lower(Strip(Shown(cho.value))) else "";
    if Usable(cho) && token in TrueTokens then Some(true)
    else if Usable(cho) && token in FalseTokens then Some(false)
    else if Usable(smiles) && smilesCho(Shown(smiles.value)).Some? then smilesCho(Shown(smiles.value))
    else if Usable(formula) then Some(OnlyCho(FormulaElements(Strip(Shown(formula.value)))))
    else None
  }

  /** An explicit token decides; without one and without a SMILES result
      the formula decides, true exactly when it names no element other
      than C, H and O; with none of the three the answer is unknown. */
  lemma ChoMeaning(smiles: Option<Cell>, formula: Option<Cell>, cho: Option<Cell>, smilesCho: string -> Option<bool>)
    ensures Usable(cho) && Lower(Strip(Shown(cho.value))) in TrueTokens ==> DetermineChoOnly(smiles, formula, cho, smilesCho) == Some(true)
    ensures Usable(cho) && Lower(Strip(Shown(cho.value))) in FalseTokens ==> DetermineChoOnly(smiles, formula, cho, smilesCho) == Some(false)
    ensures (
      var explicit := Usable(cho) && (Lower(Strip(Shown(cho.value))) in TrueTokens || Lower(Strip(Shown(cho.value))) in FalseTokens);
      var bySmiles := Usable(smiles) && smilesCho(Shown(smiles.value)).Some?;
      !explicit && !bySmiles && Usable(formula) ==>
        DetermineChoOnly(smiles, formula, cho, smilesCho) == Some(OnlyCho(FormulaElements(Strip(Shown(formula.value))))))
    ensures (
      var explicit := Usable(cho) && (Lower(Strip(Shown(cho.value))) in TrueTokens || Lower(Strip(Shown(cho.value))) in FalseTokens);
      var bySmiles := Usable(smiles) && smilesCho(Shown(smiles.value)).Some?;
      !explicit && !bySmiles && !Usable(formula) ==> DetermineChoOnly(smiles, formula, cho, smilesCho).None?)
  {
    assert !("true" in FalseTokens);
    forall t | t in TrueTokens ensures t !in FalseTokens { }
  }

  /** "CCl4" names chlorine. */
  lemma FormulaExample()
    ensures FormulaElements("CCl4") == ["C", "Cl"]
    ensures !OnlyCho(FormulaElements("CCl4"))
  {
    assert "4"[1..] == [];
    assert FormulaElements("4") == [];
    assert "Cl4"[..2] == "Cl" && "Cl4"[2..] == "4";
    assert FormulaElements("Cl4") == ["Cl"];
    assert "CCl4"[..1] == "C" && "CCl4"[1..] == "Cl4";
  }

  // ------------------------------------------------------------- priority

  /** `calculate_priority_score`. */
  function PriorityScore(fileName: string, rowIndex: int, totalRows: int, completeness: real): int
  {
    FileWeight(fileName) + (totalRows - rowIndex) + CompletenessBonus(completeness)
  }

  /** For a row of the file and a completeness in [0, 1] the score lies
      between the file weight + 1 and weight + rows + 100; within a file,
      an earlier row with the same completeness scores higher, and more
      completeness never scores lower. */
  lemma PriorityMeaning(fileName: string, i: int, j: int, totalRows: int, c: real, c': real)
    requires 0 <= i < totalRows && 0.0 <= c <= c' <= 1.0
    ensures FileWeight(fileName) + 1 <= PriorityScore(fileName, i, totalRows, c) <= FileWeight(fileName) + totalRows + 100
    ensures i < j ==> PriorityScore(fileName, i, totalRows, c) > PriorityScore(fileName, j, totalRows, c)
    ensures PriorityScore(fileName, i, totalRows, c) <= PriorityScore(fileName, i, totalRows, c')
  {
    CompletenessBonusBounds(c);
    MulLeRight(c, c', 100.0);
  }

  // ---------------------------------------------------------- rows to entries

  /** What is passed in instead of the file system and library calls. */
  datatype Env = Env(parse: ParseFloat, smilesCho: string -> Option<bool>, urls: map<string, string>)

  datatype Record = Record(fields: map<string, Value>, cho: Option<bool>, sourceFile: string,
                           sourceRow: int, completeness: real, sourceUrl: Option<string>)

  const EssentialColumns: seq<string> := ["delta_D", "delta_P", "delta_H"]

  /** The name a row is filed under: `str(row['Solvent'])`, stripped and
      cleaned. */
  function RowName(row: map<string, Cell>): string
  {
    CleanSolventName(Strip(Shown(if "Solvent" in row then row["Solvent"] else Missing)))
  }

  function SolventKey(name: string): string
  {
    Lower(ExtractBaseName(name))
  }

  /** A kept row's fields: the numeric cleaning of the table the script
      writes, with the cleaned name under "Solvent". */
  function RecordFields(row: map<string, Cell>, name: string, parse: ParseFloat): (r: map<string, Value>)
    ensures r.Keys == row.Keys + {"Solvent"} && r["Solvent"] == Raw(Text(name))
  {
    CleanRow(row, NumericFieldTable, parse)["Solvent" := Raw(Text(name))]
  }

  /** The body of the row loop up to the registry: None for a row that is
      skipped, otherwise the row dictionary with its key and score. */
  function RowEntry(file: CsvFile, columns: seq<string>, idx: nat, env: Env): (r: Option<Entry<Record>>)
    requires idx < |file.rows|
    ensures r.None? <==> !UsableName(RowName(RowOf(columns, file.rows[idx])))
    ensures r.Some? ==> r.value.row.sourceFile == file.name && r.value.row.sourceRow == idx + 2
    ensures r.Some? ==>
      r.value.row.fields == RecordFields(RowOf(columns, file.rows[idx]), RowName(RowOf(columns, file.rows[idx])), env.parse)
  {
    var row := RowOf(columns, file.rows[idx]);
    var name := RowName(row);
    if !UsableName(name) then None
    else
      var completeness := Completeness(row, EssentialColumns);
      var score := PriorityScore(file.name, idx, |file.rows|, completeness);
      var fields := RecordFields(row, name, env.parse);
      var cho := DetermineChoOnly(Lookup(row, "Smiles"), Lookup(row, "Molecular Formula"), Lookup(row, "CHO"), env.smilesCho);
      var url := if file.name in env.urls then Some(env.urls[file.name]) else None;
      Some(Entry(SolventKey(name), score, Record(fields, cho, file.name, idx + 2, completeness, url)))
  }

  /** A kept row is filed under the lower-cased base name of its cleaned
      name, carries that name, its 1-based file line plus the header and
      its score; a row is skipped exactly when its cleaned name is empty or
      "nan". */
  lemma RowEntryMeaning(file: CsvFile, columns: seq<string>, idx: nat, env: Env)
    requires idx < |file.rows|
    ensures var name := RowName(RowOf(columns, file.rows[idx]));
      RowEntry(file, columns, idx, env).None? <==> !UsableName(name)
    ensures var row := RowOf(columns, file.rows[idx]);
      var name := RowName(row);
      RowEntry(file, columns, idx, env).Some? ==>
        var e := RowEntry(file, columns, idx, env).value;
        && e.key == Lower(ExtractBaseName(name))
        && "Solvent" in e.row.fields && e.row.fields["Solvent"] == Raw(Text(name))
        && e.row.sourceRow == idx + 2 && e.row.sourceFile == file.name
        && e.score == PriorityScore(file.name, idx, |file.rows|, Completeness(row, EssentialColumns))
        && 0.0 <= e.row.completeness <= 1.0
  {
    CompletenessMeaning(RowOf(columns, file.rows[idx]), EssentialColumns);
  }

  /** As written, a kept row's "Tb" cell is copied uncleaned. */
  lemma RowEntryBoilingPointRaw(file: CsvFile, columns: seq<string>, idx: nat, env: Env)
    requires idx < |file.rows|
    ensures var row := RowOf(columns, file.rows[idx]);
      RowEntry(file, columns, idx, env).Some? && "Tb" in row ==>
        var e := RowEntry(file, columns, idx, env).value;
        "Tb" in e.row.fields && e.row.fields["Tb"] == Raw(row["Tb"])
  {
    var row := RowOf(columns, file.rows[idx]);
    if RowEntry(file, columns, idx, env).Some? && "Tb" in row {
      assert RowEntry(file, columns, idx, env).value.row.fields == RecordFields(row, RowName(row), env.parse);
      FieldsBoilingPointRaw(row, RowName(row), env.parse);
    }
  }

  lemma FieldsBoilingPointRaw(row: map<string, Cell>, name: string, parse: ParseFloat)
    requires "Tb" in row
    ensures RecordFields(row, name, parse)["Tb"] == Raw(row["Tb"])
  {
    TbUnruled();
    CleanRowUnruled(row, NumericFieldTable, parse, "Tb");
  }

  /** The table the script writes has no rule for "Tb". */
  lemma TbUnruled()
    ensures RuleFor(NumericFieldTable, "Tb").None?
  {
    var t := NumericFieldTable;
    assert forall i :: 0 <= i < |t| ==> t[i].column != "Tb";
  }

  lemma CleanRowUnruled(row: map<string, Cell>, table: seq<NumericRule>, parse: ParseFloat, c: string)
    requires c in row && RuleFor(table, c).None?
    ensures CleanRow(row, table, parse)[c] == Raw(row[c])
  {
  }

  /** Entries of the first `n` rows of a file, in row order. */
  function FileEntries(file: CsvFile, columns: seq<string>, n: nat, env: Env): seq<Entry<Record>>
    requires n <= |file.rows|
  {
    if n == 0 then []
    else
      var tail := match RowEntry(file, columns, n - 1, env) case Some(e) => [e] case None => [];
      FileEntries(file, columns, n - 1, env) + tail
  }

  /** One more row either adds nothing or is offered to the registry. */
  lemma FileEntriesStep(st: State<Record>, file: CsvFile, columns: seq<string>, idx: nat, env: Env)
    requires idx < |file.rows|
    ensures RowEntry(file, columns, idx, env).None? ==>
      Run(st, FileEntries(file, columns, idx + 1, env)) == Run(st, FileEntries(file, columns, idx, env))
    ensures RowEntry(file, columns, idx, env).Some? ==>
      Run(st, FileEntries(file, columns, idx + 1, env))
        == Step(Run(st, FileEntries(file, columns, idx, env)), RowEntry(file, columns, idx, env).value)
  {
    var prev := FileEntries(file, columns, idx, env);
    match RowEntry(file, columns, idx, env)
    case None =>
      assert FileEntries(file, columns, idx + 1, env) == prev + [];
      assert prev + [] == prev;
    case Some(e) =>
      RunAppend(st, prev, [e]);
  }

  /** A file without a "Solvent" column after renaming is skipped. */
  function Entries(files: seq<CsvFile>, env: Env): seq<Entry<Record>>
  {
    if |files| == 0 then []
    else
      var f := files[|files| - 1];
      var columns := NormalizeColumns(f.columns);
      Entries(files[..|files| - 1], env) + (if "Solvent" in columns then FileEntries(f, columns, |f.rows|, env) else [])
  }

  lemma EntriesStep(files: seq<CsvFile>, fi: nat, env: Env)
    requires fi < |files|
    ensures var f := files[fi];
      var columns := NormalizeColumns(f.columns);
      Entries(files[..fi + 1], env) == Entries(files[..fi], env) + (if "Solvent" in columns then FileEntries(f, columns, |f.rows|, env) else [])
  {
    assert files[..fi + 1][..fi] == files[..fi];
  }

  /** The consolidated table: one row per key, highest score first, the
      score dropped. */
  function Consolidated(st: State<Record>): seq<Record>
    requires forall k :: k in st.order ==> k in st.registry
  {
    var sorted := Sorted(st);
    seq(|sorted|, i requires 0 <= i < |sorted| => sorted[i].row)
  }

  class SolventConsolidator {
    var duplicateStats: map<string, nat>

    constructor()
      ensures duplicateStats == map[]
    {
      duplicateStats := map[];
    }

    /** The duplicate-handling block of the row loop: register a new key,
        replace on a strictly higher score, count every duplicate. */
    method Offer(registry: map<string, Entry<Record>>, order: seq<string>, entry: Entry<Record>)
      returns (registry': map<string, Entry<Record>>, order': seq<string>)
      modifies this
      ensures State(registry', order', duplicateStats) == Step(State(registry, order, old(duplicateStats)), entry)
    {
      StepCases(State(registry, order, duplicateStats), entry);
      registry', order' := registry, order;
      if entry.key in registry {
        var existingScore := registry[entry.key].score;
        if entry.score > existingScore {
          registry' := registry[entry.key := entry];
        }
        duplicateStats := duplicateStats[entry.key := Dup(duplicateStats, entry.key) + 1];
      } else {
        registry' := registry[entry.key := entry];
        order' := order + [entry.key];
      }
    }

    /** `consolidate_files`: the registry is local, the duplicate counts
        are kept in the object across calls. */
    method ConsolidateFiles(files: seq<CsvFile>, env: Env) returns (out: seq<Record>)
      modifies this
      ensures var st := Run(Fresh<Record>(old(duplicateStats)), Entries(files, env));
        && Consistent(st)
        && duplicateStats == st.dups
        && out == Consolidated(st)
    {
      ghost var d0 := duplicateStats;
      var registry: map<string, Entry<Record>> := map[];
      var order: seq<string> := [];
      for fi := 0 to |files|
        invariant State(registry, order, duplicateStats) == Run(Fresh<Record>(d0), Entries(files[..fi], env))
      {
        EntriesStep(files, fi, env);
        var f := files[fi];
        var columns := NormalizeColumns(f.columns);
        if "Solvent" !in columns {
          assert Entries(files[..fi + 1], env) == Entries(files[..fi], env);
          continue;
        }
        ghost var start := Run(Fresh<Record>(d0), Entries(files[..fi], env));
        for idx := 0 to |f.rows|
          invariant State(registry, order, duplicateStats) == Run(start, FileEntries(f, columns, idx, env))
        {
          FileEntriesStep(start, f, columns, idx, env);
          var e := RowEntry(f, columns, idx, env);
          if e.None? {
            continue;
          }
          var entry := e.value;
          registry, order := Offer(registry, order, entry);
        }
        assert Entries(files[..fi + 1], env) == Entries(files[..fi], env) + FileEntries(f, columns, |f.rows|, env);
        RunAppend(Fresh<Record>(d0), Entries(files[..fi], env), FileEntries(f, columns, |f.rows|, env));
      }
      assert files[..|files|] == files;
      var st := State(registry, order, duplicateStats);
      RunConsistent(d0, Entries(files, env));
      out := Consolidated(st);
    }
  }
}
