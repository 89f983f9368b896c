/**
 * scripts/consolidate_csv.py: the older consolidation script. It shares the
 * cell cleaning and the registry with scripts/consolidate_solvent_csv.py
 * but differs in four places: a shorter column map (the boiling point
 * stays "Tv", so its numeric table applies to it), a score with a file-size
 * bonus, a key that is the exact stripped name (case-sensitive, no name
 * cleaning and no base-name reduction), and no CHO flag; the "Solvent"
 * cell is kept as read.
 */
module ConsolidateLegacy {

  import opened Common
  import opened Text
  import opened CsvCleaning
  import opened DuplicateRegistry

  // ------------------------------------------------ normalize_column_names

  const ColumnMapping: map<string, string> := map[
    "Solvents" := "Solvent",
    "dD" := "delta_D",
    "dP" := "delta_P",
    "dH" := "delta_H",
    "\U{03B4}t" := "delta_total",
    "Volume" := "MVol",
    "MWt (g/mol)" := "MWt",
    "MVol (cm\U{00B3}/mol)" := "MVol",
    "Tv     (\U{00B0}C)" := "Tv",
    "Pv  (hPa)" := "Pv",
    "Density     (g/cm\U{00B3})" := "Density",
    "Cost      (\U{20AC}/mL)" := "Cost"
  ]

  function NormalizeColumnName(c: string): string
  {
    if c in ColumnMapping then ColumnMapping[c] else c
  }

  /** `normalize_column_names`: each column renamed through the mapping,
      others kept. */
  function NormalizeColumns(columns: seq<string>): (r: seq<string>)
    ensures |r| == |columns|
    ensures forall i :: 0 <= i < |columns| ==> r[i] == NormalizeColumnName(columns[i])
  {
    seq(|columns|, i requires 0 <= i < |columns| => NormalizeColumnName(columns[i]))
  }

  /** Normalising twice is normalising once, and the long boiling-point
      header becomes "Tv", the column the numeric table names. */
  lemma NormalizeMeaning(columns: seq<string>)
    ensures NormalizeColumns(NormalizeColumns(columns)) == NormalizeColumns(columns)
    ensures NormalizeColumnName("Tv     (\U{00B0}C)") == "Tv"
    ensures RuleFor(NumericFieldTable, "Tv") == Some(NumericRule("Tv", FloatField, true))
  {
    NormalizeTwice(columns);
    LongTvHeader();
    TvRule();
  }

  lemma NormalizeTwice(columns: seq<string>)
    ensures NormalizeColumns(NormalizeColumns(columns)) == NormalizeColumns(columns)
  {
    MappingTargetsFixed();
    var once := NormalizeColumns(columns);
    forall i | 0 <= i < |columns| ensures NormalizeColumnName(once[i]) == once[i] {
      if columns[i] in ColumnMapping {
        assert once[i] == ColumnMapping[columns[i]];
      }
    }
  }

  lemma LongTvHeader()
    ensures NormalizeColumnName("Tv     (\U{00B0}C)") == "Tv"
  {
  }

  /** No renamed column is renamed again. */
  lemma MappingTargetsFixed()
    ensures forall c :: c in ColumnMapping ==> ColumnMapping[c] !in ColumnMapping
  {
    forall c | c in ColumnMapping ensures ColumnMapping[c] !in ColumnMapping {
      TargetFixed(ColumnMapping[c]);
    }
  }

  lemma TargetFixed(t: string)
    requires t in ColumnMapping.Values
    ensures t !in ColumnMapping
  {
    var ks := ColumnMapping.Keys;
    assert forall k :: k in ks ==> |k| != |t| || k[0] != t[0] || k[|k| - 1] != t[|t| - 1];
  }

  lemma TvRule()
    ensures RuleFor(NumericFieldTable, "Tv") == Some(NumericRule("Tv", FloatField, true))
  {
    var t := NumericFieldTable;
    assert forall i :: 0 <= i < 7 ==> t[i].column != "Tv";
    RuleForAt(t, 7, "Tv");
  }

  /** Here a normalised "Tv" column is cleaned as a float that may be
      negative. */
  lemma BoilingPointCleaned(columns: seq<string>, cells: seq<Cell>, parse: ParseFloat)
    ensures var row := RowOf(NormalizeColumns(columns), cells);
      "Tv" in row ==>
        CleanRow(row, NumericFieldTable, parse)["Tv"] == Cleaned(CleanNumericField(row["Tv"], FloatField, true, parse))
  {
    NormalizeMeaning(columns);
  }

  // ------------------------------------------------------------- priority

  /** `calculate_priority_score`, with the file-size bonus of ten points per
      row of the file. */
  function PriorityScore(fileName: string, rowIndex: int, totalRows: int, completeness: real): int
  {
    FileWeight(fileName) + (totalRows - rowIndex) + CompletenessBonus(completeness) + totalRows * 10
  }

  /** For a row of the file and a completeness in [0, 1] the score lies
      between weight + 10·rows + 1 and weight + 11·rows + 100; within a
      file an earlier row with the same completeness scores higher, and
      more completeness never scores lower. */
  lemma PriorityMeaning(fileName: string, i: int, j: int, totalRows: int, c: real, c': real)
    requires 0 <= i < totalRows && 0.0 <= c <= c' <= 1.0
    ensures FileWeight(fileName) + 10 * totalRows + 1 <= PriorityScore(fileName, i, totalRows, c)
    ensures PriorityScore(fileName, i, totalRows, c) <= FileWeight(fileName) + 11 * totalRows + 100
    ensures i < j ==> PriorityScore(fileName, i, totalRows, c) > PriorityScore(fileName, j, totalRows, c)
    ensures PriorityScore(fileName, i, totalRows, c) <= PriorityScore(fileName, i, totalRows, c')
  {
    CompletenessBonusBounds(c);
    CompletenessBonusBounds(c');
    MulLeRight(c, c', 100.0);
  }

  // ---------------------------------------------------------- rows to entries

  /** What is passed in instead of the file system and library calls. */
  datatype Env = Env(parse: ParseFloat, urls: map<string, string>)

  datatype Record = Record(fields: map<string, Value>, sourceFile: string,
                           sourceRow: int, completeness: real, sourceUrl: Option<string>)

  const EssentialColumns: seq<string> := ["delta_D", "delta_P", "delta_H"]

  /** The name and key of a row: `str(row['Solvent']).strip()`. */
  function RowName(row: map<string, Cell>): string
  {
    Strip(Shown(if "Solvent" in row then row["Solvent"] else Missing))
  }

  /** The body of the row loop up to the registry: None for a row that is
      skipped, otherwise the row dictionary with its key and score. */
  function RowEntry(file: CsvFile, columns: seq<string>, idx: nat, env: Env): (r: Option<Entry<Record>>)
    requires idx < |file.rows|
    ensures r.None? <==> !UsableName(RowName(RowOf(columns, file.rows[idx])))
    ensures r.Some? ==> r.value.key == RowName(RowOf(columns, file.rows[idx]))
    ensures r.Some? ==> r.value.row.sourceFile == file.name && r.value.row.sourceRow == idx + 2
  {
    var row := RowOf(columns, file.rows[idx]);
    var name := RowName(row);
    if !UsableName(name) then None
    else
      var completeness := Completeness(row, EssentialColumns);
      var score := PriorityScore(file.name, idx, |file.rows|, completeness);
      var fields := CleanRow(row, NumericFieldTable, env.parse);
      var url := if file.name in env.urls then Some(env.urls[file.name]) else None;
      Some(Entry(name, score, Record(fields, file.name, idx + 2, completeness, url)))
  }

  /** A kept row is filed under its exact stripped name, keeps its
      "Solvent" cell as read, carries its file line and its score; a row is
      skipped exactly when that name is empty or "nan". */
  lemma RowEntryMeaning(file: CsvFile, columns: seq<string>, idx: nat, env: Env)
    requires idx < |file.rows|
    ensures var name := RowName(RowOf(columns, file.rows[idx]));
      RowEntry(file, columns, idx, env).None? <==> !UsableName(name)
    ensures var row := RowOf(columns, file.rows[idx]);
      RowEntry(file, columns, idx, env).Some? ==>
        var e := RowEntry(file, columns, idx, env).value;
        && "Solvent" in row
        && e.key == Strip(Shown(row["Solvent"]))
        && e.row.fields["Solvent"] == Raw(row["Solvent"])
        && e.row.sourceRow == idx + 2 && e.row.sourceFile == file.name
        && e.score == PriorityScore(file.name, idx, |file.rows|, Completeness(row, EssentialColumns))
        && 0.0 <= e.row.completeness <= 1.0
  {
    var row := RowOf(columns, file.rows[idx]);
    CompletenessMeaning(row, EssentialColumns);
    NoSolventNoName(row);
    SolventKept(row, env.parse);
  }

  /** Without a "Solvent" cell the name is "nan", which is skipped. */
  lemma NoSolventNoName(row: map<string, Cell>)
    ensures "Solvent" !in row ==> !UsableName(RowName(row))
  {
    if "Solvent" !in row {
      MissingUnusable();
    }
  }

  /** The numeric table has no rule for "Solvent", so that cell is kept. */
  lemma SolventKept(row: map<string, Cell>, parse: ParseFloat)
    ensures "Solvent" in row ==> CleanRow(row, NumericFieldTable, parse)["Solvent"] == Raw(row["Solvent"])
  {
    var t := NumericFieldTable;
    assert forall i :: 0 <= i < |t| ==> t[i].column != "Solvent";
  }

  /** Entries of the first `n` rows of a file, in row order. */
  function FileEntries(file: CsvFile, columns: seq<string>, n: nat, env: Env): seq<Entry<Record>>
    requires n <= |file.rows|
  {
    if n == 0 then []
    else
      var tail := match RowEntry(file, columns, n - 1, env) case Some(e) => [e] case None => [];
      FileEntries(file, columns, n - 1, env) + tail
  }

  /** One more row either adds nothing or is offered to the registry. */
  lemma FileEntriesStep(st: State<Record>, file: CsvFile, columns: seq<string>, idx: nat, env: Env)
    requires idx < |file.rows|
    ensures RowEntry(file, columns, idx, env).None? ==>
      Run(st, FileEntries(file, columns, idx + 1, env)) == Run(st, FileEntries(file, columns, idx, env))
    ensures RowEntry(file, columns, idx, env).Some? ==>
      Run(st, FileEntries(file, columns, idx + 1, env))
        == Step(Run(st, FileEntries(file, columns, idx, env)), RowEntry(file, columns, idx, env).value)
  {
    var prev := FileEntries(file, columns, idx, env);
    match RowEntry(file, columns, idx, env)
    case None =>
      assert FileEntries(file, columns, idx + 1, env) == prev + [];
      assert prev + [] == prev;
    case Some(e) =>
      RunAppend(st, prev, [e]);
  }

  /** A file without a "Solvent" column after renaming is skipped. */
  function Entries(files: seq<CsvFile>, env: Env): seq<Entry<Record>>
  {
    if |files| == 0 then []
    else
      var f := files[|files| - 1];
      var columns := NormalizeColumns(f.columns);
      Entries(files[..|files| - 1], env) + (if "Solvent" in columns then FileEntries(f, columns, |f.rows|, env) else [])
  }

  lemma EntriesStep(files: seq<CsvFile>, fi: nat, env: Env)
    requires fi < |files|
    ensures var f := files[fi];
      var columns := NormalizeColumns(f.columns);
      Entries(files[..fi + 1], env) == Entries(files[..fi], env) + (if "Solvent" in columns then FileEntries(f, columns, |f.rows|, env) else [])
  {
    assert files[..fi + 1][..fi] == files[..fi];
  }

  /** The consolidated table: one row per name, highest score first, the
      score dropped. */
  function Consolidated(st: State<Record>): seq<Record>
    requires forall k :: k in st.order ==> k in st.registry
  {
    var sorted := Sorted(st);
    seq(|sorted|, i requires 0 <= i < |sorted| => sorted[i].row)
  }

  class CsvConsolidator {
    var duplicateStats: map<string, nat>

    constructor()
      ensures duplicateStats == map[]
    {
      duplicateStats := map[];
    }

    /** The duplicate-handling block of the row loop: register a new name,
        replace on a strictly higher score, count every duplicate. */
    method Offer(registry: map<string, Entry<Record>>, order: seq<string>, entry: Entry<Record>)
      returns (registry': map<string, Entry<Record>>, order': seq<string>)
      modifies this
      ensures State(registry', order', duplicateStats) == Step(State(registry, order, old(duplicateStats)), entry)
    {
      StepCases(State(registry, order, duplicateStats), entry);
      registry', order' := registry, order;
      if entry.key in registry {
        var existingScore := registry[entry.key].score;
        if entry.score > existingScore {
          registry' := registry[entry.key := entry];
        }
        duplicateStats := duplicateStats[entry.key := Dup(duplicateStats, entry.key) + 1];
      } else {
        registry' := registry[entry.key := entry];
        order' := order + [entry.key];
      }
    }

    /** `consolidate_files`: the registry is local, the duplicate counts
        are kept in the object across calls. */
    method ConsolidateFiles(files: seq<CsvFile>, env: Env) returns (out: seq<Record>)
      modifies this
      ensures var st := Run(Fresh<Record>(old(duplicateStats)), Entries(files, env));
        && Consistent(st)
        && duplicateStats == st.dups
        && out == Consolidated(st)
    {
      ghost var d0 := duplicateStats;
      var registry: map<string, Entry<Record>> := map[];
      var order: seq<string> := [];
      for fi := 0 to |files|
        invariant State(registry, order, duplicateStats) == Run(Fresh<Record>(d0), Entries(files[..fi], env))
      {
        EntriesStep(files, fi, env);
        var f := files[fi];
        var columns := NormalizeColumns(f.columns);
        if "Solvent" !in columns {
          assert Entries(files[..fi + 1], env) == Entries(files[..fi], env);
          continue;
        }
        ghost var start := Run(Fresh<Record>(d0), Entries(files[..fi], env));
        for idx := 0 to |f.rows|
          invariant State(registry, order, duplicateStats) == Run(start, FileEntries(f, columns, idx, env))
        {
          FileEntriesStep(start, f, columns, idx, env);
          var e := RowEntry(f, columns, idx, env);
          if e.None? {
            continue;
          }
          var entry := e.value;
          registry, order := Offer(registry, order, entry);
        }
        assert Entries(files[..fi + 1], env) == Entries(files[..fi], env) + FileEntries(f, columns, |f.rows|, env);
        RunAppend(Fresh<Record>(d0), Entries(files[..fi], env), FileEntries(f, columns, |f.rows|, env));
      }
      assert files[..|files|] == files;
      var st := State(registry, order, duplicateStats);
      RunConsistent(d0, Entries(files, env));
      out := Consolidated(st);
    }
  }
}
