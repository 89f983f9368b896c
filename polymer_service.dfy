/**
 * app/services/polymer_service.py: the in-memory polymer table. Loading
 * accepts a file with an "R0" or an "Ra" radius column, cleans its rows and
 * builds an index from lower-cased names and CAS numbers to records. The
 * file read is a parameter (None when it is missing or unreadable); the
 * load timestamp and `get_data_info` are not modelled.
 */
module PolymerService {

  import opened Common
  import opened Text
  import opened CsvCleaning
  import opened TableIndex
  import opened StringOrder

  /** A row as `read_csv` gives it; numeric cells hold numbers or NaN
      (None), and a string column the file lacks reads as NaN. */
  datatype CsvRow = CsvRow(
    polymer: Cell,
    deltaD: Option<real>,
    deltaP: Option<real>,
    deltaH: Option<real>,
    r0: Option<real>,
    ra: Option<real>,
    cas: Cell,
    sourceFile: Cell,
    sourceUrl: Cell)

  /** The file: its column names and its rows. */
  datatype PolymerFile = PolymerFile(columns: set<string>, rows: seq<CsvRow>)

  /** A row of the cleaned table. */
  datatype Row = Row(
    polymer: string,
    deltaD: real,
    deltaP: real,
    deltaH: real,
    ra: real,
    cas: Field,
    sourceFile: Field,
    sourceUrl: Field)

  /** `PolymerData`. */
  datatype PolymerData = PolymerData(
    polymer: string,
    deltaD: real,
    deltaP: real,
    deltaH: real,
    ra: real,
    cas: Option<string>,
    sourceFile: Option<string>,
    sourceUrl: Option<string>)

  function RowName(r: Row): string
  {
    r.polymer
  }

  function Names(rows: seq<Row>): (names: seq<string>)
    ensures |names| == |rows| && forall i :: 0 <= i < |rows| ==> names[i] == rows[i].polymer
  {
    seq(|rows|, i requires 0 <= i < |rows| => rows[i].polymer)
  }

  // ------------------------------------------------------------ load_data

  /** The radius column looked for: "R0" when present, else "Ra". */
  function RadiusColumn(columns: set<string>): string
  {
    if "R0" in columns then "R0" else "Ra"
  }

  /** The columns the file must have. */
  function RequiredColumns(columns: set<string>): seq<string>
  {
    ["Polymer", "delta_D", "delta_P", "delta_H", RadiusColumn(columns)]
  }

  /** Loading goes on past the column checks. */
  predicate Accepted(columns: set<string>)
  {
    RadiusColumn(columns) in columns && forall i :: 0 <= i < |RequiredColumns(columns)| ==> RequiredColumns(columns)[i] in columns
  }

  /** The row's "Ra" cell once `df['Ra'] = df['R0']` has run when only "R0"
      is there. */
  function Radius(columns: set<string>, r: CsvRow): Option<real>
  {
    if "R0" in columns && "Ra" !in columns then r.r0 else r.ra
  }

  /** A file is accepted exactly when it has the name and the three
      parameter columns and at least one of "R0" and "Ra". The radius used
      is the "R0" value exactly when "Ra" is absent; when both are present
      "Ra" is kept. */
  lemma ColumnSelection(f: PolymerFile, r: CsvRow)
    ensures Accepted(f.columns) <==>
      ("R0" in f.columns || "Ra" in f.columns)
      && "Polymer" in f.columns && "delta_D" in f.columns && "delta_P" in f.columns && "delta_H" in f.columns
    ensures "R0" in f.columns && "Ra" !in f.columns ==> Radius(f.columns, r) == r.r0
    ensures "Ra" in f.columns ==> Radius(f.columns, r) == r.ra
  {
    var req := RequiredColumns(f.columns);
    if "Polymer" in f.columns && "delta_D" in f.columns && "delta_P" in f.columns && "delta_H" in f.columns
       && ("R0" in f.columns || "Ra" in f.columns) {
      forall i | 0 <= i < |req| ensures req[i] in f.columns {
        if i == 4 { assert req[4] == RadiusColumn(f.columns); }
      }
    }
    if Accepted(f.columns) {
      assert req[0] in f.columns && req[1] in f.columns && req[2] in f.columns && req[3] in f.columns;
    }
  }

  // ----------------------------------------------------------- _clean_data

  /** The row survives `dropna` on the essential columns, the test that the
      parameters and the radius are non-negative, and the test that the
      stripped name is not empty. */
  predicate Kept(columns: set<string>, r: CsvRow)
  {
    && r.polymer != Missing && r.deltaD.Some? && r.deltaP.Some? && r.deltaH.Some? && Radius(columns, r).Some?
    && r.deltaD.value >= 0.0 && r.deltaP.value >= 0.0 && r.deltaH.value >= 0.0 && Radius(columns, r).value >= 0.0
    && Strip(Shown(r.polymer)) != []
  }

  /** A surviving row with its name stripped and its string columns
      cleaned. */
  function ToRow(columns: set<string>, r: CsvRow): Row
    requires Kept(columns, r)
  {
    Row(Strip(Shown(r.polymer)), r.deltaD.value, r.deltaP.value, r.deltaH.value, Radius(columns, r).value,
        CleanString(r.cas), CleanString(r.sourceFile), CleanString(r.sourceUrl))
  }

  /** A row of the file, cleaned, or None when cleaning drops it. */
  function Cleaned(columns: set<string>, r: CsvRow): Option<Row>
  {
    if Kept(columns, r) then Some(ToRow(columns, r)) else None
  }

  function RowOf(columns: set<string>): CsvRow -> Option<Row>
  {
    r => Cleaned(columns, r)
  }

  /** The table before duplicates are dropped. */
  function KeptRows(f: PolymerFile): seq<Row>
  {
    Collect(f.rows, RowOf(f.columns))
  }

  /** `_clean_data`. */
  function CleanData(f: PolymerFile): seq<Row>
  {
    KeepFirst(KeptRows(f), RowName, |KeptRows(f)|)
  }

  /** What every row of a cleaned table satisfies. */
  predicate CleanedRow(r: Row)
  {
    && r.deltaD >= 0.0 && r.deltaP >= 0.0 && r.deltaH >= 0.0 && r.ra >= 0.0
    && r.polymer != [] && IsStripped(r.polymer)
    && r.cas != Str("") && r.sourceFile != Str("") && r.sourceUrl != Str("")
  }

  lemma CleanedIsClean(columns: set<string>, r: CsvRow)
    requires Kept(columns, r)
    ensures CleanedRow(ToRow(columns, r))
  {
    StripIdempotent(Shown(r.polymer));
  }

  lemma KeptRowsClean(f: PolymerFile)
    ensures forall i :: 0 <= i < |KeptRows(f)| ==> CleanedRow(KeptRows(f)[i])
  {
    CollectMeaning(f.rows, RowOf(f.columns));
    forall i | 0 <= i < |KeptRows(f)| ensures CleanedRow(KeptRows(f)[i]) {
      ProducedClean(f, KeptRows(f)[i]);
    }
  }

  lemma ProducedClean(f: PolymerFile, x: Row)
    requires Produces(f.rows, RowOf(f.columns), x)
    ensures CleanedRow(x)
  {
    var j :| 0 <= j < |f.rows| && RowOf(f.columns)(f.rows[j]) == Some(x);
    assert Cleaned(f.columns, f.rows[j]) == Some(x);
    CleanedIsClean(f.columns, f.rows[j]);
  }

  lemma KeptRowsCover(f: PolymerFile)
    ensures forall k :: 0 <= k < |f.rows| && Kept(f.columns, f.rows[k]) ==>
      HasName(KeptRows(f), Strip(Shown(f.rows[k].polymer)), RowName)
  {
    CollectMeaning(f.rows, RowOf(f.columns));
    forall k | 0 <= k < |f.rows| && Kept(f.columns, f.rows[k])
      ensures HasName(KeptRows(f), Strip(Shown(f.rows[k].polymer)), RowName)
    {
      assert RowOf(f.columns)(f.rows[k]) == Some(ToRow(f.columns, f.rows[k]));
      InKeptHasName(KeptRows(f), ToRow(f.columns, f.rows[k]));
    }
  }

  lemma InKeptHasName(kept: seq<Row>, x: Row)
    requires x in kept
    ensures HasName(kept, x.polymer, RowName)
  {
    var i :| 0 <= i < |kept| && kept[i] == x;
    assert RowName(kept[i]) == x.polymer;
  }

  /** After cleaning: every row has non-negative parameters and radius and
      a non-empty stripped name, no empty string cells; no two rows share a
      name; every surviving row's name is present; and each row is the
      first surviving row of its name. */
  lemma CleanDataMeaning(f: PolymerFile)
    ensures forall i :: 0 <= i < |CleanData(f)| ==> CleanedRow(CleanData(f)[i])
    ensures UniqueNames(CleanData(f), RowName)
    ensures forall k :: 0 <= k < |f.rows| && Kept(f.columns, f.rows[k]) ==>
      HasName(CleanData(f), Strip(Shown(f.rows[k].polymer)), RowName)
    ensures AllFirsts(CleanData(f), KeptRows(f), RowName, |KeptRows(f)|)
  {
    var kept := KeptRows(f);
    KeptRowsClean(f);
    KeepFirstUnique(kept, RowName, |kept|);
    KeepFirstFirsts(kept, RowName, |kept|);
    CleanDataCovers(f);
    var c := CleanData(f);
    forall i | 0 <= i < |c| ensures CleanedRow(c[i]) {
      var m :| 0 <= m < |kept| && IsFirst(kept, m, RowName) && c[i] == kept[m];
    }
  }

  lemma CleanDataCovers(f: PolymerFile)
    ensures forall k :: 0 <= k < |f.rows| && Kept(f.columns, f.rows[k]) ==>
      HasName(CleanData(f), Strip(Shown(f.rows[k].polymer)), RowName)
  {
    var kept := KeptRows(f);
    KeptRowsCover(f);
    KeepFirstCovers(kept, RowName, |kept|);
    forall k | 0 <= k < |f.rows| && Kept(f.columns, f.rows[k])
      ensures HasName(CleanData(f), Strip(Shown(f.rows[k].polymer)), RowName)
    {
      var m :| 0 <= m < |kept| && RowName(kept[m]) == Strip(Shown(f.rows[k].polymer));
      assert HasName(CleanData(f), RowName(kept[m]), RowName);
    }
  }

  /** What `load_data` stores, or None when the file is refused. */
  function LoadedRows(f: PolymerFile): Option<seq<Row>>
  {
    if Accepted(f.columns) then Some(CleanData(f)) else None
  }

  // ------------------------------------------------- _row_to_polymer_data

  /** `_row_to_polymer_data`; it cannot fail on a cleaned row. */
  function ToPolymer(r: Row): (p: PolymerData)
    ensures p.polymer == r.polymer && p.ra == r.ra
    ensures p.cas == FieldValue(r.cas) && p.sourceFile == FieldValue(r.sourceFile) && p.sourceUrl == FieldValue(r.sourceUrl)
  {
    PolymerData(r.polymer, r.deltaD, r.deltaP, r.deltaH, r.ra,
      FieldValue(r.cas), FieldValue(r.sourceFile), FieldValue(r.sourceUrl))
  }

  /** `get_all_polymers`. */
  function Polymers(rows: seq<Row>): (ps: seq<PolymerData>)
    ensures |ps| == |rows| && forall i :: 0 <= i < |rows| ==> ps[i] == ToPolymer(rows[i])
  {
    seq(|rows|, i requires 0 <= i < |rows| => ToPolymer(rows[i]))
  }

  // --------------------------------------------------------- _create_index

  /** The keys a record is indexed under: its name lower-cased and, when
      its CAS number is a non-empty string, that lower-cased. */
  function PolymerKeys(p: PolymerData): seq<string>
  {
    [Lower(p.polymer)] + (if p.cas.Some? && p.cas.value != [] then [Lower(p.cas.value)] else [])
  }

  function Conversions(rows: seq<Row>): (ds: seq<Option<PolymerData>>)
    ensures |ds| == |rows| && forall i :: 0 <= i < |rows| ==> ds[i] == Some(ToPolymer(rows[i]))
  {
    seq(|rows|, i requires 0 <= i < |rows| => Some(ToPolymer(rows[i])))
  }

  /** The index `_create_index` builds. */
  function IndexOf(rows: seq<Row>): map<string, PolymerData>
  {
    Index(Conversions(rows), PolymerKeys)
  }

  /** Row `i` is indexed under `k`. */
  predicate RowWrites(rows: seq<Row>, i: int, k: string)
  {
    0 <= i < |rows| && k in PolymerKeys(ToPolymer(rows[i]))
  }

  /** A key is in the index exactly when some row carries it (as its name
      or its CAS number, lower-cased), and it maps to the record of the
      last such row. */
  lemma IndexOfMeaning(rows: seq<Row>)
    ensures forall k :: k in IndexOf(rows) <==> exists i :: RowWrites(rows, i, k)
    ensures forall k :: k in IndexOf(rows) ==> exists i :: (RowWrites(rows, i, k) && IndexOf(rows)[k] == ToPolymer(rows[i])
      && forall j :: i < j < |rows| ==> !RowWrites(rows, j, k))
  {
    var ds := Conversions(rows);
    IndexKeys(ds, PolymerKeys);
    IndexValues(ds, PolymerKeys);
    assert forall i, k :: Writes(ds, i, k, PolymerKeys) == RowWrites(rows, i, k);
  }

  lemma RowIndexed(rows: seq<Row>, i: int, k: string)
    requires RowWrites(rows, i, k)
    ensures k in IndexOf(rows)
  {
    var ds := Conversions(rows);
    IndexKeys(ds, PolymerKeys);
    assert Writes(ds, i, k, PolymerKeys);
  }

  /** `get_polymer_by_name` on a cleaned table: every row is found by its
      name, and by its CAS number when it has one, whatever the query's
      case and surrounding spaces. */
  lemma LookupFinds(rows: seq<Row>, i: nat, query: string)
    requires i < |rows|
    ensures LookupKey(query) == Lower(rows[i].polymer) ==> LookupName(IndexOf(rows), query).Some?
    ensures FieldValue(rows[i].cas).Some? && FieldValue(rows[i].cas).value != [] && LookupKey(query) == Lower(FieldValue(rows[i].cas).value) ==>
      LookupName(IndexOf(rows), query).Some?
  {
    var p := ToPolymer(rows[i]);
    if LookupKey(query) == Lower(rows[i].polymer) {
      assert PolymerKeys(p)[0] == Lower(rows[i].polymer);
      RowIndexed(rows, i, LookupKey(query));
    }
    var cas := FieldValue(rows[i].cas);
    if cas.Some? && cas.value != [] && LookupKey(query) == Lower(cas.value) {
      assert PolymerKeys(p)[1] == Lower(cas.value);
      RowIndexed(rows, i, LookupKey(query));
    }
  }

  /** A record found was built from a row whose name or CAS number,
      lower-cased, is the query lower-cased and stripped. */
  lemma LookupSound(rows: seq<Row>, query: string)
    ensures LookupName(IndexOf(rows), query).Some? ==>
      exists j :: 0 <= j < |rows| && LookupName(IndexOf(rows), query).value == ToPolymer(rows[j])
        && LookupKey(query) in PolymerKeys(ToPolymer(rows[j]))
  {
    if LookupName(IndexOf(rows), query).Some? {
      IndexOfMeaning(rows);
      var k := LookupKey(query);
      var j :| RowWrites(rows, j, k) && IndexOf(rows)[k] == ToPolymer(rows[j])
        && forall j' :: j < j' < |rows| ==> !RowWrites(rows, j', k);
    }
  }

  // ----------------------------------------------------- the service object

  class Service {
    var data: Option<seq<Row>>
    var index: map<string, PolymerData>

    constructor ()
      ensures data == None && index == map[] && Valid()
    {
      data := None;
      index := map[];
    }

    /** A loaded table's index is the one built from it. */
    predicate Valid()
      reads this
    {
      data.Some? ==> index == IndexOf(data.value)
    }

    /** `load_data`: nothing to do when loaded and not forced; otherwise a
        missing or refused file fails and leaves the state alone, and an
        accepted one is cleaned and indexed. */
    method LoadData(forceReload: bool, file: Option<PolymerFile>) returns (ok: bool)
      modifies this
      ensures !forceReload && old(data).Some? ==> ok && data == old(data) && index == old(index)
      ensures (forceReload || old(data).None?) ==>
        && ok == (file.Some? && LoadedRows(file.value).Some?)
        && (ok ==> data == LoadedRows(file.value) && index == IndexOf(data.value))
        && (!ok ==> data == old(data) && index == old(index))
    {
      if !forceReload && data.Some? {
        return true;
      }
      if file.None? {
        return false;
      }
      var f := file.value;
      var radiusCol := if "R0" in f.columns then "R0" else "Ra";
      if radiusCol !in f.columns {
        return false;
      }
      var required := ["Polymer", "delta_D", "delta_P", "delta_H", radiusCol];
      var missing := MissingColumns(required, f.columns);
      assert required == RequiredColumns(f.columns);
      if missing != [] {
        return false;
      }
      data := Some(CleanData(f));
      CreateIndex();
      ok := true;
    }

    /** `_create_index`: the index rebuilt from the table row by row. */
    method CreateIndex()
      modifies this
      ensures data == old(data)
      ensures old(data).Some? ==> index == IndexOf(data.value)
      ensures old(data).None? ==> index == old(index)
    {
      if data.None? {
        return;
      }
      var rows := data.value;
      ghost var ds := Conversions(rows);
      index := map[];
      for i := 0 to |rows|
        invariant data == old(data)
        invariant index == Index(ds[..i], PolymerKeys)
      {
        IndexStep(ds, i, PolymerKeys);
        var p := ToPolymer(rows[i]);
        ghost var before := index;
        index := index[Lower(p.polymer) := p];
        if p.cas.Some? && p.cas.value != [] {
          index := index[Lower(p.cas.value) := p];
        }
        KeysPair(before, PolymerKeys(p), p);
      }
      assert ds[..|rows|] == ds;
    }

    /** `_ensure_data_loaded`. */
    method EnsureDataLoaded(file: Option<PolymerFile>) returns (ok: bool)
      modifies this
      ensures old(data).Some? ==> ok && data == old(data) && index == old(index)
      ensures old(data).None? ==>
        && ok == (file.Some? && LoadedRows(file.value).Some?)
        && (ok ==> data == LoadedRows(file.value) && index == IndexOf(data.value))
        && (!ok ==> data == old(data) && index == old(index))
      ensures ok ==> data.Some?
    {
      if data.None? {
        ok := LoadData(false, file);
      } else {
        ok := true;
      }
    }

    /** `reload_data`. */
    method ReloadData(file: Option<PolymerFile>) returns (ok: bool)
      modifies this
      ensures ok == (file.Some? && LoadedRows(file.value).Some?)
      ensures ok ==> data == LoadedRows(file.value) && index == IndexOf(data.value)
      ensures !ok ==> data == old(data) && index == old(index)
    {
      ok := LoadData(true, file);
    }

    /** `get_polymer_by_name`: the lookup by `name.lower().strip()`, None
        when nothing can be loaded. */
    method GetPolymerByName(name: string, file: Option<PolymerFile>) returns (r: Option<PolymerData>)
      requires Valid()
      modifies this
      ensures Valid()
      ensures old(data).Some? ==> data == old(data) && index == old(index)
      ensures data.Some? ==> r == LookupName(IndexOf(data.value), name)
      ensures data.None? ==> r.None?
    {
      var ok := EnsureDataLoaded(file);
      if !ok {
        return None;
      }
      var key := Strip(Lower(name));
      r := if key in index then Some(index[key]) else None;
    }

    /** `get_all_polymer_names`: the names, sorted. */
    method GetAllPolymerNames(file: Option<PolymerFile>) returns (names: seq<string>)
      modifies this
      ensures old(data).Some? ==> data == old(data) && index == old(index)
      ensures data.Some? ==> names == SortStrings(Names(data.value))
      ensures data.None? ==> names == []
    {
      var ok := EnsureDataLoaded(file);
      if !ok {
        return [];
      }
      var rows := data.value;
      names := SortStrings(Names(rows));
    }

    /** `get_all_polymers`: every row converted, in table order. */
    method GetAllPolymers(file: Option<PolymerFile>) returns (polymers: seq<PolymerData>)
      modifies this
      ensures old(data).Some? ==> data == old(data) && index == old(index)
      ensures data.Some? ==> polymers == Polymers(data.value)
      ensures data.None? ==> polymers == []
    {
      var ok := EnsureDataLoaded(file);
      if !ok {
        return [];
      }
      var rows := data.value;
      polymers := [];
      for i := 0 to |rows|
        invariant polymers == Polymers(rows[..i])
      {
        assert rows[..i + 1] == rows[..i] + [rows[i]];
        polymers := polymers + [ToPolymer(rows[i])];
      }
      assert rows[..|rows|] == rows;
    }
  }

  /** The required columns the file lacks, in order. */
  method MissingColumns(required: seq<string>, columns: set<string>) returns (missing: seq<string>)
    ensures missing == [] <==> forall i :: 0 <= i < |required| ==> required[i] in columns
  {
    missing := [];
    for i := 0 to |required|
      invariant missing == [] <==> forall j :: 0 <= j < i ==> required[j] in columns
    {
      if required[i] !in columns {
        missing := missing + [required[i]];
      }
    }
  }

  /** Writing one or two keys in turn is `PutKeys`. */
  lemma KeysPair(m: map<string, PolymerData>, ks: seq<string>, v: PolymerData)
    requires |ks| <= 2
    ensures |ks| == 1 ==> PutKeys(m, ks, v) == m[ks[0] := v]
    ensures |ks| == 2 ==> PutKeys(m, ks, v) == m[ks[0] := v][ks[1] := v]
  {
    if |ks| == 2 {
      assert ks[..1] == [ks[0]];
      assert ks[..1][..0] == [];
    } else if |ks| == 1 {
      assert ks[..0] == [];
    }
  }
}
