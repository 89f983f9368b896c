/**
 * scripts/add_common_names_from_other_sources.py: collect, from every
 * source table except the list of URLs and the JoshuaSchrier table, the
 * names that carry a common name in parentheses, keyed by the lower-cased
 * base name (the first such name per key wins); then give each JoshuaSchrier
 * row without a parenthesised name the collected name for its base. A
 * table is its file name, its header and its rows; the JoshuaSchrier
 * "Solvent" column is an array written in place.
 */
module CommonNamesSources {

  import opened Common
  import opened Text
  import opened CsvCleaning
  import opened SolventNames

  // ------------------------------------------------------ load_all_solvents

  /** The two files that are never read as sources. */
  predicate SkippedFile(fileName: string)
  {
    fileName == "list.csv" || fileName == "JoshuaSchrier_Hansen-Solubility-Parameters.csv"
  }

  predicate IsSolventHeader(col: string)
  {
    Lower(col) == "solvent" || Lower(col) == "solvents"
  }

  /** The first column whose lower-cased name is "solvent" or "solvents". */
  function SolventColumn(columns: seq<string>): (r: Option<nat>)
    ensures r.Some? ==> r.value < |columns| && IsSolventHeader(columns[r.value])
    ensures r.Some? ==> forall i :: 0 <= i < r.value ==> !IsSolventHeader(columns[i])
    ensures r.None? ==> forall i :: 0 <= i < |columns| ==> !IsSolventHeader(columns[i])
  {
    if |columns| == 0 then None
    else if IsSolventHeader(columns[0]) then Some(0)
    else match SolventColumn(columns[1..])
      case None => None
      case Some(j) => Some(j + 1)
  }

  function CellAt(cells: seq<Cell>, j: nat): Cell
  {
    if j < |cells| then cells[j] else Missing
  }

  /** The names the column contributes from its first `n` rows: missing
      cells are dropped, the rest shown and stripped, and empty or "nan"
      names skipped. */
  function ColumnNames(rows: seq<seq<Cell>>, j: nat, n: nat): seq<string>
    requires n <= |rows|
  {
    if n == 0 then [] else ColumnNames(rows, j, n - 1) + CellName(CellAt(rows[n - 1], j))
  }

  /** The name one cell contributes, if any. */
  function CellName(c: Cell): seq<string>
  {
    var name := Strip(Shown(c));
    if c != Missing && UsableName(name) then [name] else []
  }

  function FileNames(f: CsvFile): seq<string>
  {
    if SkippedFile(f.name) then []
    else match SolventColumn(f.columns)
      case None => []
      case Some(j) => ColumnNames(f.rows, j, |f.rows|)
  }

  /** All names read, file after file. */
  function Stream(files: seq<CsvFile>): seq<string>
  {
    if |files| == 0 then [] else Stream(files[..|files| - 1]) + FileNames(files[|files| - 1])
  }

  /** The name carries a common name: its base name differs from it. */
  predicate HasCommonName(name: string)
  {
    ExtractBaseName(name) != name
  }

  function BaseKey(name: string): string
  {
    Lower(ExtractBaseName(name))
  }

  /** The key a name is recorded under, if it is recorded at all: its
      lower-cased base name when it carries a common name. */
  function CommonKey(name: string): Option<string>
  {
    if HasCommonName(name) then Some(BaseKey(name)) else None
  }

  /** One name offered to the mapping: recorded only when it has a key and
      that key is new. The key function is a parameter so that the
      bookkeeping is stated once, apart from how names are parsed. */
  function Add(m: map<string, string>, name: string, key: string -> Option<string>): map<string, string>
  {
    if key(name).Some? && key(name).value !in m then m[key(name).value := name] else m
  }

  function AddAll(m: map<string, string>, names: seq<string>, key: string -> Option<string>): map<string, string>
  {
    if |names| == 0 then m else Add(AddAll(m, names[..|names| - 1], key), names[|names| - 1], key)
  }

  /** The mapping `load_all_solvents` returns. */
  function SolventMapping(files: seq<CsvFile>): map<string, string>
  {
    AddAll(map[], Stream(files), CommonKey)
  }

  /** `load_all_solvents`: the loop over the files filling the mapping. */
  method LoadAllSolvents(files: seq<CsvFile>) returns (mapping: map<string, string>)
    ensures mapping == SolventMapping(files)
  {
    mapping := map[];
    for fi := 0 to |files|
      invariant mapping == AddAll(map[], Stream(files[..fi]), CommonKey)
    {
      assert files[..fi + 1][..fi] == files[..fi];
      var f := files[fi];
      ghost var before := Stream(files[..fi]);
      assert Stream(files[..fi + 1]) == before + FileNames(f);
      AddAllAppend(map[], before, FileNames(f), CommonKey);
      if SkippedFile(f.name) {
        continue;
      }
      var col := SolventColumn(f.columns);
      if col.None? {
        continue;
      }
      mapping := ReadColumn(mapping, f.rows, col.value);
    }
    assert files[..|files|] == files;
  }

  /** The loop over the rows of one file's solvent column. */
  method ReadColumn(mapping: map<string, string>, rows: seq<seq<Cell>>, j: nat) returns (mapping': map<string, string>)
    ensures mapping' == AddAll(mapping, ColumnNames(rows, j, |rows|), CommonKey)
  {
    mapping' := mapping;
    for idx := 0 to |rows|
      invariant mapping' == AddAll(mapping, ColumnNames(rows, j, idx), CommonKey)
    {
      var c := CellAt(rows[idx], j);
      var name := Strip(Shown(c));
      if c == Missing || !UsableName(name) {
        ColumnNamesSkip(rows, j, idx);
        continue;
      }
      ColumnNamesKeep(rows, j, idx);
      AddAllSnoc(mapping, ColumnNames(rows, j, idx), name, CommonKey);
      mapping' := Offer(mapping', name);
    }
  }

  lemma ColumnNamesSkip(rows: seq<seq<Cell>>, j: nat, idx: nat)
    requires idx < |rows|
    requires CellAt(rows[idx], j) == Missing || !UsableName(Strip(Shown(CellAt(rows[idx], j))))
    ensures ColumnNames(rows, j, idx + 1) == ColumnNames(rows, j, idx)
  {
    assert ColumnNames(rows, j, idx + 1) == ColumnNames(rows, j, idx) + [];
  }

  lemma ColumnNamesKeep(rows: seq<seq<Cell>>, j: nat, idx: nat)
    requires idx < |rows|
    requires CellAt(rows[idx], j) != Missing && UsableName(Strip(Shown(CellAt(rows[idx], j))))
    ensures ColumnNames(rows, j, idx + 1) == ColumnNames(rows, j, idx) + [Strip(Shown(CellAt(rows[idx], j)))]
  {
  }

  lemma {:induction false} AddAllAppend(m: map<string, string>, a: seq<string>, b: seq<string>, key: string -> Option<string>)
    ensures AddAll(m, a + b, key) == AddAll(AddAll(m, a, key), b, key)
    decreases |b|
  {
    if |b| == 0 {
      assert a + b == a;
    } else {
      assert (a + b)[..|a + b| - 1] == a + b[..|b| - 1];
      AddAllAppend(m, a, b[..|b| - 1], key);
    }
  }

  /** The body of the row loop after the name checks. */
  method Offer(mapping: map<string, string>, name: string) returns (mapping': map<string, string>)
    ensures mapping' == Add(mapping, name, CommonKey)
  {
    mapping' := mapping;
    var baseName := ExtractBaseName(name);
    if baseName != name {
      var baseNameLower := Lower(baseName);
      if baseNameLower !in mapping {
        mapping' := mapping[baseNameLower := name];
      }
    }
  }

  lemma AddAllSnoc(m: map<string, string>, names: seq<string>, x: string, key: string -> Option<string>)
    ensures AddAll(m, names + [x], key) == Add(AddAll(m, names, key), x, key)
  {
    assert (names + [x])[..|names|] == names;
  }

  /** `names[i]` is the first name with key `k`. */
  predicate FirstFor(names: seq<string>, k: string, i: int, key: string -> Option<string>)
  {
    && 0 <= i < |names| && key(names[i]) == Some(k)
    && forall j :: 0 <= j < i ==> key(names[j]) != Some(k)
  }

  /** The keys are exactly the keys of the names, and each maps to the
      first name with that key. */
  lemma {:induction false} AddAllMeaning(names: seq<string>, key: string -> Option<string>)
    ensures forall k :: k in AddAll(map[], names, key) <==> exists i :: 0 <= i < |names| && key(names[i]) == Some(k)
    ensures forall k :: k in AddAll(map[], names, key) ==>
      exists i :: FirstFor(names, k, i, key) && AddAll(map[], names, key)[k] == names[i]
  {
    if |names| > 0 {
      var init := names[..|names| - 1];
      var x := names[|names| - 1];
      AddAllMeaning(init, key);
      var m0 := AddAll(map[], init, key);
      var m := AddAll(map[], names, key);
      assert m == Add(m0, x, key);
      forall k ensures k in m <==> exists i :: 0 <= i < |names| && key(names[i]) == Some(k) {
        if exists i :: 0 <= i < |names| && key(names[i]) == Some(k) {
          var i :| 0 <= i < |names| && key(names[i]) == Some(k);
          if i < |init| { assert init[i] == names[i]; }
        }
        if k in m0 {
          var i :| 0 <= i < |init| && key(init[i]) == Some(k);
          assert names[i] == init[i];
        }
      }
      forall k | k in m ensures exists i :: FirstFor(names, k, i, key) && m[k] == names[i] {
        if k in m0 {
          var i :| FirstFor(init, k, i, key) && m0[k] == init[i];
          assert names[i] == init[i];
          assert forall j :: 0 <= j < i ==> names[j] == init[j];
          assert FirstFor(names, k, i, key);
        } else {
          assert key(x) == Some(k) && m[k] == x;
          forall j | 0 <= j < |init| ensures key(names[j]) != Some(k) {
            assert names[j] == init[j];
          }
          assert FirstFor(names, k, |init|, key);
        }
      }
    }
  }

  /** A mapping whose values carry a common name, are stripped and sit
      under their own base key. */
  predicate WellFormed(m: map<string, string>)
  {
    forall k :: k in m ==> HasCommonName(m[k]) && IsStripped(m[k]) && BaseKey(m[k]) == k
  }

  /** Every key of the collected mapping maps to the first name read, over
      all source files in order, that carries a common name for it; every
      such name's key is present; and every value is a name read from a
      file that is not skipped. */
  lemma SolventMappingMeaning(files: seq<CsvFile>)
    ensures WellFormed(SolventMapping(files))
    ensures forall k :: k in SolventMapping(files) <==>
      exists i :: 0 <= i < |Stream(files)| && CommonKey(Stream(files)[i]) == Some(k)
    ensures forall k :: k in SolventMapping(files) ==>
      exists i :: FirstFor(Stream(files), k, i, CommonKey) && SolventMapping(files)[k] == Stream(files)[i]
  {
    var s := Stream(files);
    AddAllMeaning(s, CommonKey);
    StreamStripped(files);
    FirstNamesWellFormed(s, SolventMapping(files));
  }

  lemma FirstNamesWellFormed(s: seq<string>, m: map<string, string>)
    requires AllStripped(s)
    requires forall k :: k in m ==> exists i :: FirstFor(s, k, i, CommonKey) && m[k] == s[i]
    ensures WellFormed(m)
  {
    forall k | k in m ensures HasCommonName(m[k]) && IsStripped(m[k]) && BaseKey(m[k]) == k {
      var i :| FirstFor(s, k, i, CommonKey) && m[k] == s[i];
      assert CommonKey(s[i]) == Some(k);
    }
  }

  predicate AllStripped(s: seq<string>)
  {
    forall i :: 0 <= i < |s| ==> IsStripped(s[i])
  }

  lemma AllStrippedConcat(a: seq<string>, b: seq<string>)
    requires AllStripped(a) && AllStripped(b)
    ensures AllStripped(a + b)
  {
    forall i | 0 <= i < |a + b| ensures IsStripped((a + b)[i]) {
      if i < |a| { assert (a + b)[i] == a[i]; } else { assert (a + b)[i] == b[i - |a|]; }
    }
  }

  /** Every name read is stripped. */
  lemma {:induction false} StreamStripped(files: seq<CsvFile>)
    ensures AllStripped(Stream(files))
  {
    if |files| > 0 {
      StreamStripped(files[..|files| - 1]);
      var f := files[|files| - 1];
      if !SkippedFile(f.name) && SolventColumn(f.columns).Some? {
        ColumnNamesStripped(f.rows, SolventColumn(f.columns).value, |f.rows|);
      }
      AllStrippedConcat(Stream(files[..|files| - 1]), FileNames(f));
    }
  }

  lemma {:induction false} ColumnNamesStripped(rows: seq<seq<Cell>>, j: nat, n: nat)
    requires n <= |rows|
    ensures AllStripped(ColumnNames(rows, j, n))
  {
    if n > 0 {
      ColumnNamesStripped(rows, j, n - 1);
      var c := CellAt(rows[n - 1], j);
      CellNameStripped(c);
      AllStrippedConcat(ColumnNames(rows, j, n - 1), CellName(c));
    }
  }

  lemma CellNameStripped(c: Cell)
    ensures AllStripped(CellName(c))
  {
    var name := StrippedName(Shown(c));
    if c != Missing && UsableName(name) {
      assert CellName(c) == [name];
    } else {
      assert CellName(c) == [];
    }
  }

  lemma StrippedName(s: string) returns (name: string)
    ensures name == Strip(s) && IsStripped(name)
  {
    name := Strip(s);
  }

  /** The files that are read as sources, in order. */
  function ReadFiles(files: seq<CsvFile>): (r: seq<CsvFile>)
    ensures forall i :: 0 <= i < |r| ==> !SkippedFile(r[i].name)
  {
    if |files| == 0 then []
    else ReadFiles(files[..|files| - 1]) + (if SkippedFile(files[|files| - 1].name) then [] else [files[|files| - 1]])
  }

  /** The list of URLs and the JoshuaSchrier table contribute nothing:
      the mapping is the one built from the other files alone. */
  lemma {:induction false} SkippedFilesIgnored(files: seq<CsvFile>)
    ensures Stream(files) == Stream(ReadFiles(files))
    ensures SolventMapping(files) == SolventMapping(ReadFiles(files))
  {
    if |files| > 0 {
      var init := files[..|files| - 1];
      var f := files[|files| - 1];
      SkippedFilesIgnored(init);
      var r := ReadFiles(init);
      if SkippedFile(f.name) {
        assert ReadFiles(files) == r + [];
        assert r + [] == r;
        assert Stream(files) == Stream(init) + [];
      } else {
        assert ReadFiles(files) == r + [f];
        assert (r + [f])[..|r|] == r;
      }
    }
  }

  // --------------------------------------------------- update_joshua_schrier

  /** A JoshuaSchrier row is replaced: its stripped name is usable, carries
      no common name, and its lower-cased form is a key of the mapping. */
  predicate Replaced(c: Cell, m: map<string, string>)
  {
    var name := Strip(Shown(c));
    UsableName(name) && !HasCommonName(name) && Lower(name) in m
  }

  function UpdatedCell(c: Cell, m: map<string, string>): Cell
  {
    if Replaced(c, m) then Text(m[Lower(Strip(Shown(c)))]) else c
  }

  /** `update_joshua_schrier`: the "Solvent" column rewritten in place;
      the count of rewritten rows is returned. */
  method UpdateJoshuaSchrier(solvent: array<Cell>, mapping: map<string, string>) returns (updatedCount: nat)
    modifies solvent
    ensures solvent[..] == MapSeq(old(solvent[..]), (c: Cell) => UpdatedCell(c, mapping))
    ensures updatedCount == Count(old(solvent[..]), (c: Cell) => Replaced(c, mapping))
  {
    ghost var col := solvent[..];
    ghost var f := (c: Cell) => UpdatedCell(c, mapping);
    ghost var p := (c: Cell) => Replaced(c, mapping);
    updatedCount := 0;
    for idx := 0 to solvent.Length
      invariant solvent[..] == MapSeq(col[..idx], f) + col[idx..]
      invariant updatedCount == Count(col[..idx], p)
    {
      MapSeqStep(col, idx, f, p);
      var cell, replaced := UpdateRow(solvent[idx], mapping);
      solvent[idx] := cell;
      if replaced {
        updatedCount := updatedCount + 1;
      }
    }
    assert col[..solvent.Length] == col;
  }

  /** The body of the row loop. */
  method UpdateRow(c: Cell, mapping: map<string, string>) returns (c': Cell, replaced: bool)
    ensures c' == UpdatedCell(c, mapping) && replaced == Replaced(c, mapping)
  {
    c', replaced := c, false;
    var solventName := Strip(Shown(c));
    if !UsableName(solventName) {
      return;
    }
    var baseName := ExtractBaseName(solventName);
    if baseName != solventName {
      return;
    }
    var baseNameLower := Lower(baseName);
    if baseNameLower in mapping {
      c', replaced := Text(mapping[baseNameLower]), true;
    }
  }

  /** The count is the number of rows the update changes. */
  lemma {:induction false} ReplacedCountChanged(col: seq<Cell>, m: map<string, string>)
    requires WellFormed(m)
    ensures Count(col, (c: Cell) => Replaced(c, m)) == ChangedCount(col, MapSeq(col, (c: Cell) => UpdatedCell(c, m)))
  {
    if |col| > 0 {
      var init := col[..|col| - 1];
      ReplacedCountChanged(init, m);
      UpdateMeaning(col[|col| - 1], m);
      var r := MapSeq(col, (c: Cell) => UpdatedCell(c, m));
      assert r[..|r| - 1] == MapSeq(init, (c: Cell) => UpdatedCell(c, m));
    }
  }

  /** Positions at which two columns of equal length differ. */
  function ChangedCount(a: seq<Cell>, b: seq<Cell>): nat
    requires |a| == |b|
  {
    if |a| == 0 then 0 else ChangedCount(a[..|a| - 1], b[..|b| - 1]) + (if a[|a| - 1] != b[|b| - 1] then 1 else 0)
  }

  /** Rows that already carry a common name, and rows with an empty or
      "nan" name, are unchanged; any other row changes exactly when its
      lower-cased name is a key, and then takes a name whose base matches
      it case-insensitively. With a well-formed mapping a row is counted
      exactly when it changes. */
  lemma UpdateMeaning(c: Cell, m: map<string, string>)
    requires WellFormed(m)
    ensures var name := Strip(Shown(c));
      (!UsableName(name) || HasCommonName(name)) ==> UpdatedCell(c, m) == c
    ensures var name := Strip(Shown(c));
      UsableName(name) && !HasCommonName(name) ==> (UpdatedCell(c, m) != c <==> Lower(name) in m)
    ensures UpdatedCell(c, m) != c ==>
      UpdatedCell(c, m).Text? && BaseKey(UpdatedCell(c, m).s) == Lower(Strip(Shown(c)))
    ensures Replaced(c, m) <==> UpdatedCell(c, m) != c
  {
    if Replaced(c, m) {
      var name := Strip(Shown(c));
      StripOfStripped(m[Lower(name)]);
    }
  }

  /** With the collected mapping, every rewritten row takes a name read
      from a source file whose base matches it case-insensitively. */
  lemma UpdateFromSources(c: Cell, files: seq<CsvFile>)
    ensures UpdatedCell(c, SolventMapping(files)) != c ==>
      exists i :: FirstFor(Stream(files), Lower(Strip(Shown(c))), i, CommonKey)
        && UpdatedCell(c, SolventMapping(files)) == Text(Stream(files)[i])
  {
    SolventMappingMeaning(files);
    UpdateMeaning(c, SolventMapping(files));
  }
}
