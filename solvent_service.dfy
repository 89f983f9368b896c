/**
 * app/services/solvent_service.py: the in-memory solvent table. Loading
 * cleans the rows read from the CSV file, an index maps lower-cased names
 * and CAS numbers to records, a search filters the table step by step and
 * pages the result, and only rows whose source file is "user_added" may
 * be updated or deleted. As written, adding and updating always report
 * failure, because both read a `source_url` attribute that `SolventData`
 * does not declare; the service methods follow that, and the corrected
 * add and update are kept beside them. The file read is a parameter (None when the file
 * is missing or unreadable or lacks a required column); writing the file
 * back and the load timestamp are not modelled. The square root used for
 * a record's total parameter is a constant of the service.
 */
module SolventService {

  import opened Common
  import opened Text
  import opened CsvCleaning
  import opened SolventModels
  import opened TableIndex
  import opened StringOrder

  /** Columns copied unchanged between the table and the record. */
  datatype Props = Props(
    molecularWeight: Option<real>,
    molarVolume: Option<real>,
    density: Option<real>,
    vaporPressure: Option<real>,
    wgkClass: Option<int>,
    costPerMl: Option<real>,
    deltaTotal: Option<real>,
    sourceRow: Option<int>,
    completeness: Option<real>)

  /** A row as `read_csv` gives it once the required columns are known to
      be there; numeric columns hold numbers or NaN (None). */
  datatype CsvRow = CsvRow(
    solvent: Cell,
    deltaD: Option<real>,
    deltaP: Option<real>,
    deltaH: Option<real>,
    cas: Cell,
    smiles: Cell,
    boilingPoint: Option<real>,
    props: Props,
    sourceFile: Option<string>)

  /** A row of the cleaned table ("Tb" is the boiling point column). */
  datatype Row = Row(
    solvent: string,
    deltaD: real,
    deltaP: real,
    deltaH: real,
    cas: Field,
    smiles: Field,
    boilingPoint: Option<real>,
    props: Props,
    sourceFile: Option<string>)

  function RowName(r: Row): string
  {
    r.solvent
  }

  function Names(rows: seq<Row>): (names: seq<string>)
    ensures |names| == |rows| && forall i :: 0 <= i < |rows| ==> names[i] == rows[i].solvent
  {
    seq(|rows|, i requires 0 <= i < |rows| => rows[i].solvent)
  }

  // ----------------------------------------------------------- _clean_data

  /** The row survives `dropna` on the essential columns, the test that
      the three parameters are non-negative, and the test that the
      stripped name is not empty. */
  predicate Kept(r: CsvRow)
  {
    && r.solvent != Missing && r.deltaD.Some? && r.deltaP.Some? && r.deltaH.Some?
    && r.deltaD.value >= 0.0 && r.deltaP.value >= 0.0 && r.deltaH.value >= 0.0
    && Strip(Shown(r.solvent)) != []
  }

  /** A surviving row with its name stripped and its string columns
      cleaned. */
  function ToRow(r: CsvRow): Row
    requires Kept(r)
  {
    Row(Strip(Shown(r.solvent)), r.deltaD.value, r.deltaP.value, r.deltaH.value,
        CleanString(r.cas), CleanString(r.smiles), r.boilingPoint, r.props, r.sourceFile)
  }

  /** A row of the file, cleaned, or None when cleaning drops it. */
  function RowOf(r: CsvRow): Option<Row>
  {
    if Kept(r) then Some(ToRow(r)) else None
  }

  /** The table before duplicates are dropped. */
  function KeptRows(raw: seq<CsvRow>): seq<Row>
  {
    Collect(raw, RowOf)
  }

  /** `_clean_data`. */
  function CleanData(raw: seq<CsvRow>): seq<Row>
  {
    KeepFirst(KeptRows(raw), RowName, |KeptRows(raw)|)
  }

  /** What every row of a cleaned table satisfies. */
  predicate CleanedRow(r: Row)
  {
    && r.deltaD >= 0.0 && r.deltaP >= 0.0 && r.deltaH >= 0.0
    && r.solvent != [] && IsStripped(r.solvent)
    && r.cas != Str("") && r.cas != Str("nan") && r.smiles != Str("") && r.smiles != Str("nan")
  }

  lemma RowOfKept(r: CsvRow)
    requires Kept(r)
    ensures CleanedRow(ToRow(r))
  {
    StripIdempotent(Shown(r.solvent));
  }

  /** Every row before deduplication is a surviving row of the file,
      cleaned, so it satisfies `CleanedRow`; every surviving row's
      stripped name is there. */
  lemma KeptRowsMeaning(raw: seq<CsvRow>)
    ensures forall i :: 0 <= i < |KeptRows(raw)| ==> Produces(raw, RowOf, KeptRows(raw)[i]) && CleanedRow(KeptRows(raw)[i])
    ensures forall k :: 0 <= k < |raw| && Kept(raw[k]) ==> HasName(KeptRows(raw), Strip(Shown(raw[k].solvent)), RowName)
  {
    KeptRowsClean(raw);
    KeptRowsNamed(raw);
  }

  lemma KeptRowsClean(raw: seq<CsvRow>)
    ensures forall i :: 0 <= i < |KeptRows(raw)| ==> Produces(raw, RowOf, KeptRows(raw)[i]) && CleanedRow(KeptRows(raw)[i])
  {
    CollectProduced(raw, RowOf);
    forall i | 0 <= i < |KeptRows(raw)| ensures CleanedRow(KeptRows(raw)[i]) {
      ProducedClean(raw, KeptRows(raw)[i]);
    }
  }

  lemma ProducedClean(raw: seq<CsvRow>, x: Row)
    requires Produces(raw, RowOf, x)
    ensures CleanedRow(x)
  {
    var j :| 0 <= j < |raw| && RowOf(raw[j]) == Some(x);
    RowOfKept(raw[j]);
  }

  lemma KeptRowsNamed(raw: seq<CsvRow>)
    ensures forall k :: 0 <= k < |raw| && Kept(raw[k]) ==> HasName(KeptRows(raw), Strip(Shown(raw[k].solvent)), RowName)
  {
    CollectMeaning(raw, RowOf);
    var kept := KeptRows(raw);
    forall k | 0 <= k < |raw| && Kept(raw[k]) ensures HasName(kept, Strip(Shown(raw[k].solvent)), RowName) {
      assert RowOf(raw[k]).Some?;
      var i :| 0 <= i < |kept| && kept[i] == ToRow(raw[k]);
      assert RowName(kept[i]) == Strip(Shown(raw[k].solvent));
    }
  }

  /** After cleaning: every row has non-negative parameters and a
      non-empty stripped name, no empty or "nan" string cells, no two rows
      share a name, every surviving row's name is present, and each row is
      a surviving row, the first of its name. */
  lemma CleanDataMeaning(raw: seq<CsvRow>)
    ensures forall i :: 0 <= i < |CleanData(raw)| ==> CleanedRow(CleanData(raw)[i])
    ensures UniqueNames(CleanData(raw), RowName)
    ensures forall k :: 0 <= k < |raw| && Kept(raw[k]) ==> HasName(CleanData(raw), Strip(Shown(raw[k].solvent)), RowName)
    ensures AllFirsts(CleanData(raw), KeptRows(raw), RowName, |KeptRows(raw)|)
  {
    var kept := KeptRows(raw);
    KeptRowsMeaning(raw);
    KeepFirstUnique(kept, RowName, |kept|);
    KeepFirstFirsts(kept, RowName, |kept|);
    CleanDataCovers(raw);
    var c := CleanData(raw);
    forall i | 0 <= i < |c| ensures CleanedRow(c[i]) {
      var m :| 0 <= m < |kept| && IsFirst(kept, m, RowName) && c[i] == kept[m];
    }
  }

  lemma CleanDataCovers(raw: seq<CsvRow>)
    ensures forall k :: 0 <= k < |raw| && Kept(raw[k]) ==> HasName(CleanData(raw), Strip(Shown(raw[k].solvent)), RowName)
  {
    var kept := KeptRows(raw);
    KeptRowsMeaning(raw);
    KeepFirstCovers(kept, RowName, |kept|);
    var c := CleanData(raw);
    forall k | 0 <= k < |raw| && Kept(raw[k]) ensures HasName(c, Strip(Shown(raw[k].solvent)), RowName) {
      var m :| 0 <= m < |kept| && RowName(kept[m]) == Strip(Shown(raw[k].solvent));
      assert HasName(c, RowName(kept[m]), RowName);
    }
  }

  // ---------------------------------------------------- _row_to_solvent_data

  /** The raw field values `_row_to_solvent_data` passes to `SolventData`
      (the "CAS" and "Tb" columns are the ones read). */
  function RawRecord(r: Row): SolventData
  {
    SolventData(Some(r.solvent), r.deltaD, r.deltaP, r.deltaH, FieldValue(r.cas), FieldValue(r.smiles),
      r.props.molecularWeight, r.props.molarVolume, r.props.density, r.boilingPoint,
      r.props.vaporPressure, r.props.wgkClass, r.props.costPerMl, r.props.deltaTotal,
      r.sourceFile, r.props.sourceRow, r.props.completeness)
  }

  /** The conversion, which fails as pydantic validation does. */
  function ToRecord(r: Row, sqrt: real -> real): Result<SolventData>
  {
    ValidateSolventData(RawRecord(r), sqrt)
  }

  function Converted(r: Row, sqrt: real -> real): Option<SolventData>
  {
    if ToRecord(r, sqrt).Ok? then Some(ToRecord(r, sqrt).value) else None
  }

  /** The conversion as a function value; the table lemmas below take any
      conversion that keeps the fields `Keeps` names. */
  function Conv(sqrt: real -> real): Row -> Option<SolventData>
  {
    r => Converted(r, sqrt)
  }

  /** The record keeps the row's name (stripped), parameters, CAS and
      source file. */
  predicate Keeps(r: Row, s: SolventData)
  {
    && s.solvent == Some(Strip(r.solvent))
    && s.deltaD == r.deltaD && s.deltaP == r.deltaP && s.deltaH == r.deltaH
    && s.cas == FieldValue(r.cas) && s.sourceFile == r.sourceFile
  }

  ghost predicate Faithful(conv: Row -> Option<SolventData>)
  {
    forall r :: conv(r).Some? ==> Keeps(r, conv(r).value)
  }

  /** A converted row keeps its name (stripped), its parameters, CAS and
      source file. */
  lemma ConvFaithful(sqrt: real -> real)
    ensures Faithful(Conv(sqrt))
  {
    forall r | Conv(sqrt)(r).Some? ensures Keeps(r, Conv(sqrt)(r).value) {
      assert Conv(sqrt)(r) == Converted(r, sqrt);
    }
  }

  /** The keys one record is indexed under: its name lower-cased and, when
      the CAS is a non-empty string, the CAS lower-cased. A record without
      a name raises before either key is written. */
  function RecordKeys(s: SolventData): seq<string>
  {
    if s.solvent.None? then []
    else [Lower(s.solvent.value)] + (if s.cas.Some? && s.cas.value != [] then [Lower(s.cas.value)] else [])
  }

  function Conversions(rows: seq<Row>, conv: Row -> Option<SolventData>): (ds: seq<Option<SolventData>>)
    ensures |ds| == |rows| && forall i :: 0 <= i < |rows| ==> ds[i] == conv(rows[i])
  {
    seq(|rows|, i requires 0 <= i < |rows| => conv(rows[i]))
  }

  /** `_create_index` on a table. */
  function IndexOf(rows: seq<Row>, conv: Row -> Option<SolventData>): map<string, SolventData>
  {
    Index(Conversions(rows, conv), RecordKeys)
  }

  /** Row `i` converts and is indexed under `k`. */
  predicate RowWrites(rows: seq<Row>, i: int, k: string, conv: Row -> Option<SolventData>)
  {
    0 <= i < |rows| && conv(rows[i]).Some? && k in RecordKeys(conv(rows[i]).value)
  }

  /** Row `i` is the last row indexed under `k`, and `k` maps to its
      record. */
  predicate LastRowWriting(rows: seq<Row>, i: int, k: string, conv: Row -> Option<SolventData>, m: map<string, SolventData>)
  {
    && RowWrites(rows, i, k, conv) && k in m && m[k] == conv(rows[i]).value
    && forall j :: i < j < |rows| ==> !RowWrites(rows, j, k, conv)
  }

  /** A key is indexed exactly when some row that converts carries it, and
      it maps to the record of the last such row. */
  lemma IndexOfMeaning(rows: seq<Row>, conv: Row -> Option<SolventData>)
    ensures forall k :: k in IndexOf(rows, conv) <==> exists i :: RowWrites(rows, i, k, conv)
    ensures forall k :: k in IndexOf(rows, conv) ==> exists i :: LastRowWriting(rows, i, k, conv, IndexOf(rows, conv))
  {
    var ds := Conversions(rows, conv);
    IndexKeys(ds, RecordKeys);
    IndexValues(ds, RecordKeys);
    assert forall i, k :: Writes(ds, i, k, RecordKeys) == RowWrites(rows, i, k, conv);
    forall k | k in IndexOf(rows, conv) ensures exists i :: LastRowWriting(rows, i, k, conv, IndexOf(rows, conv)) {
      var i :| LastWriter(ds, i, k, RecordKeys) && Index(ds, RecordKeys)[k] == ds[i].value;
      assert LastRowWriting(rows, i, k, conv, IndexOf(rows, conv));
    }
  }

  /** A clean row that converts can be looked up by its name and, when
      it has one, by its CAS number (given without surrounding spaces). */
  lemma RowResolves(rows: seq<Row>, i: nat, conv: Row -> Option<SolventData>)
    requires Faithful(conv)
    requires i < |rows| && IsStripped(rows[i].solvent) && conv(rows[i]).Some?
    ensures LookupName(IndexOf(rows, conv), rows[i].solvent).Some?
    ensures FieldValue(rows[i].cas).Some? && FieldValue(rows[i].cas).value != [] && IsStripped(FieldValue(rows[i].cas).value) ==>
      LookupName(IndexOf(rows, conv), FieldValue(rows[i].cas).value).Some?
  {
    RowResolvesByName(rows, i, conv);
    var cas := FieldValue(rows[i].cas);
    if cas.Some? && cas.value != [] && IsStripped(cas.value) {
      RowResolvesByCas(rows, i, conv);
    }
  }

  lemma RowResolvesByName(rows: seq<Row>, i: nat, conv: Row -> Option<SolventData>)
    requires Faithful(conv)
    requires i < |rows| && IsStripped(rows[i].solvent) && conv(rows[i]).Some?
    ensures LookupName(IndexOf(rows, conv), rows[i].solvent).Some?
  {
    var s := conv(rows[i]).value;
    assert Keeps(rows[i], s);
    var name := rows[i].solvent;
    StripOfStripped(name);
    NameKey(s, name);
    assert RowWrites(rows, i, Lower(name), conv);
    RowIndexed(rows, i, Lower(name), conv);
    Resolves(IndexOf(rows, conv), name);
  }

  lemma NameKey(s: SolventData, name: string)
    requires s.solvent == Some(name)
    ensures Lower(name) in RecordKeys(s)
  {
    assert RecordKeys(s)[0] == Lower(name);
  }

  lemma RowResolvesByCas(rows: seq<Row>, i: nat, conv: Row -> Option<SolventData>)
    requires Faithful(conv)
    requires i < |rows| && IsStripped(rows[i].solvent) && conv(rows[i]).Some?
    requires FieldValue(rows[i].cas).Some? && FieldValue(rows[i].cas).value != [] && IsStripped(FieldValue(rows[i].cas).value)
    ensures LookupName(IndexOf(rows, conv), FieldValue(rows[i].cas).value).Some?
  {
    var s := conv(rows[i]).value;
    assert Keeps(rows[i], s);
    var cas := FieldValue(rows[i].cas).value;
    assert RecordKeys(s)[1] == Lower(cas);
    RowIndexed(rows, i, Lower(cas), conv);
    Resolves(IndexOf(rows, conv), cas);
  }

  lemma RowIndexed(rows: seq<Row>, i: int, k: string, conv: Row -> Option<SolventData>)
    requires RowWrites(rows, i, k, conv)
    ensures k in IndexOf(rows, conv)
  {
    var ds := Conversions(rows, conv);
    IndexKeys(ds, RecordKeys);
    assert Writes(ds, i, k, RecordKeys);
  }

  lemma Resolves<D>(m: map<string, D>, name: string)
    requires IsStripped(name) && Lower(name) in m
    ensures LookupName(m, name).Some?
  {
    StripOfStripped(name);
    LookupKeyMeaning(name);
  }

  // ------------------------------------------------------- search_solvents

  datatype SearchResponse = SearchResponse(solvents: seq<SolventData>, totalCount: nat)

  /** The filters of the search, in the order applied: the text query,
      the six parameter bounds, SMILES availability, CAS availability. */
  const StageCount: nat := 9

  /** The text filter: the lower-cased query is a substring of the
      lower-cased name, CAS text or SMILES text (None and NaN cells are
      searched as the text "None" and "nan"). */
  predicate TextHit(term: string, r: Row)
  {
    Contains(Lower(r.solvent), term) || Contains(Lower(FieldText(r.cas)), term) || Contains(Lower(FieldText(r.smiles)), term)
  }

  /** Filter `k` is requested by the query. */
  predicate Requested(q: SolventSearchQuery, k: nat)
  {
    if k == 0 then q.query.Some? && q.query.value != []
    else if k == 1 then q.deltaDMin.Some?
    else if k == 2 then q.deltaDMax.Some?
    else if k == 3 then q.deltaPMin.Some?
    else if k == 4 then q.deltaPMax.Some?
    else if k == 5 then q.deltaHMin.Some?
    else if k == 6 then q.deltaHMax.Some?
    else if k == 7 then q.hasSmiles.Some?
    else k == 8 && q.hasCas.Some?
  }

  /** Row `r` passes filter `k` (a filter not requested passes every row). */
  predicate Test(q: SolventSearchQuery, k: nat, r: Row)
  {
    Requested(q, k) ==>
      if k == 0 then TextHit(Lower(q.query.value), r)
      else if k == 1 then r.deltaD >= q.deltaDMin.value
      else if k == 2 then r.deltaD <= q.deltaDMax.value
      else if k == 3 then r.deltaP >= q.deltaPMin.value
      else if k == 4 then r.deltaP <= q.deltaPMax.value
      else if k == 5 then r.deltaH >= q.deltaHMin.value
      else if k == 6 then r.deltaH <= q.deltaHMax.value
      else if k == 7 then q.hasSmiles.value == Filled(r.smiles)
      else q.hasCas.value == Filled(r.cas)
  }

  function Stage(q: SolventSearchQuery, k: nat): Row -> bool
  {
    r => Test(q, k, r)
  }

  /** The row passes the first `n` filters. */
  function UpTo(q: SolventSearchQuery, n: nat): Row -> bool
  {
    r => PassesFirst(q, n, r)
  }

  predicate PassesFirst(q: SolventSearchQuery, n: nat, r: Row)
  {
    forall j :: 0 <= j < n ==> Test(q, j, r)
  }

  /** The search on a loaded table: the rows passing every filter are
      counted, then the page of `limit` rows from `offset` is converted. */
  function Search(rows: seq<Row>, q: SolventSearchQuery, conv: Row -> Option<SolventData>): SearchResponse
    requires QueryInBounds(q)
  {
    var hits := Where(rows, UpTo(q, StageCount));
    SearchResponse(Collect(Slice(hits, q.offset, q.offset + q.limit), conv), |hits|)
  }

  /** The search bounds hold inclusively for a record. */
  predicate WithinBounds(q: SolventSearchQuery, s: SolventData)
  {
    && (q.deltaDMin.Some? ==> s.deltaD >= q.deltaDMin.value) && (q.deltaDMax.Some? ==> s.deltaD <= q.deltaDMax.value)
    && (q.deltaPMin.Some? ==> s.deltaP >= q.deltaPMin.value) && (q.deltaPMax.Some? ==> s.deltaP <= q.deltaPMax.value)
    && (q.deltaHMin.Some? ==> s.deltaH >= q.deltaHMin.value) && (q.deltaHMax.Some? ==> s.deltaH <= q.deltaHMax.value)
  }

  /** Some row of the table passes every filter and converts to `s`. */
  ghost predicate FoundIn(rows: seq<Row>, q: SolventSearchQuery, conv: Row -> Option<SolventData>, s: SolventData)
  {
    exists r :: r in rows && UpTo(q, StageCount)(r) && conv(r) == Some(s)
  }

  /** The total counts every row passing the filters, before paging; the
      page holds at most `limit` records; each record comes from a row
      that passes every filter, so it lies within every bound given. A
      first page of a result that fits and converts is the whole result. */
  lemma SearchMeaning(rows: seq<Row>, q: SolventSearchQuery, conv: Row -> Option<SolventData>)
    requires QueryInBounds(q) && Faithful(conv)
    ensures Search(rows, q, conv).totalCount == Count(rows, UpTo(q, StageCount))
    ensures |Search(rows, q, conv).solvents| <= q.limit
    ensures forall i :: 0 <= i < |Search(rows, q, conv).solvents| ==>
      FoundIn(rows, q, conv, Search(rows, q, conv).solvents[i]) && WithinBounds(q, Search(rows, q, conv).solvents[i])
    ensures q.offset == 0 && Count(rows, UpTo(q, StageCount)) <= q.limit && (forall r :: r in rows ==> conv(r).Some?) ==>
      |Search(rows, q, conv).solvents| == Search(rows, q, conv).totalCount
  {
    WhereMeaning(rows, UpTo(q, StageCount));
    SearchFound(rows, q, conv);
    if q.offset == 0 && Count(rows, UpTo(q, StageCount)) <= q.limit && (forall r :: r in rows ==> conv(r).Some?) {
      FirstPageWhole(rows, q, conv);
    }
  }

  lemma SearchFound(rows: seq<Row>, q: SolventSearchQuery, conv: Row -> Option<SolventData>)
    requires QueryInBounds(q) && Faithful(conv)
    ensures forall i :: 0 <= i < |Search(rows, q, conv).solvents| ==>
      FoundIn(rows, q, conv, Search(rows, q, conv).solvents[i]) && WithinBounds(q, Search(rows, q, conv).solvents[i])
  {
    var page := Slice(Where(rows, UpTo(q, StageCount)), q.offset, q.offset + q.limit);
    SearchIsPage(rows, q, conv);
    SliceOfWhere(rows, UpTo(q, StageCount), q.offset, q.offset + q.limit);
    forall i | 0 <= i < |Search(rows, q, conv).solvents|
      ensures FoundIn(rows, q, conv, Search(rows, q, conv).solvents[i]) && WithinBounds(q, Search(rows, q, conv).solvents[i])
    {
      assert Search(rows, q, conv).solvents[i] in Collect(page, conv);
      PageRecord(rows, q, conv, page, Search(rows, q, conv).solvents[i]);
    }
  }

  /** The records returned are the converted page of the hits. */
  lemma SearchIsPage(rows: seq<Row>, q: SolventSearchQuery, conv: Row -> Option<SolventData>)
    requires QueryInBounds(q)
    ensures Search(rows, q, conv).solvents == Collect(Slice(Where(rows, UpTo(q, StageCount)), q.offset, q.offset + q.limit), conv)
  {
  }

  lemma PageRecord(rows: seq<Row>, q: SolventSearchQuery, conv: Row -> Option<SolventData>, page: seq<Row>, s: SolventData)
    requires Faithful(conv)
    requires forall r :: r in page ==> r in rows && UpTo(q, StageCount)(r)
    requires s in Collect(page, conv)
    ensures FoundIn(rows, q, conv, s) && WithinBounds(q, s)
  {
    CollectProduced(page, conv);
    var i :| 0 <= i < |Collect(page, conv)| && Collect(page, conv)[i] == s;
    PageItem(rows, q, conv, page, s);
  }

  lemma FirstPageWhole(rows: seq<Row>, q: SolventSearchQuery, conv: Row -> Option<SolventData>)
    requires QueryInBounds(q) && q.offset == 0
    requires Count(rows, UpTo(q, StageCount)) <= q.limit && forall r :: r in rows ==> conv(r).Some?
    ensures |Search(rows, q, conv).solvents| == Search(rows, q, conv).totalCount
  {
    var hits := Where(rows, UpTo(q, StageCount));
    WhereMeaning(rows, UpTo(q, StageCount));
    var page := Slice(hits, q.offset, q.offset + q.limit);
    assert page == hits;
    CollectMeaning(page, conv);
    forall j | 0 <= j < |page| ensures conv(page[j]).Some? {
      assert page[j] in hits;
    }
  }

  /** Each record converted from rows that pass every filter lies within
      the bounds. */
  lemma PageItem(rows: seq<Row>, q: SolventSearchQuery, conv: Row -> Option<SolventData>, page: seq<Row>, s: SolventData)
    requires Faithful(conv)
    requires forall r :: r in page ==> r in rows && UpTo(q, StageCount)(r)
    requires Produces(page, conv, s)
    ensures FoundIn(rows, q, conv, s) && WithinBounds(q, s)
  {
    var j :| 0 <= j < |page| && conv(page[j]) == Some(s);
    var r := page[j];
    assert r in page;
    assert Keeps(r, s);
    PassesBounds(q, r);
  }

  lemma PassesBounds(q: SolventSearchQuery, r: Row)
    requires UpTo(q, StageCount)(r)
    ensures (q.deltaDMin.Some? ==> r.deltaD >= q.deltaDMin.value) && (q.deltaDMax.Some? ==> r.deltaD <= q.deltaDMax.value)
    ensures (q.deltaPMin.Some? ==> r.deltaP >= q.deltaPMin.value) && (q.deltaPMax.Some? ==> r.deltaP <= q.deltaPMax.value)
    ensures (q.deltaHMin.Some? ==> r.deltaH >= q.deltaHMin.value) && (q.deltaHMax.Some? ==> r.deltaH <= q.deltaHMax.value)
  {
    assert Test(q, 1, r) && Test(q, 2, r) && Test(q, 3, r) && Test(q, 4, r) && Test(q, 5, r) && Test(q, 6, r);
  }

  /** A text search for "none" selects every row whose CAS cell is None,
      since the column is searched after `astype(str)`. */
  lemma NoneCasMatchesNone(r: Row)
    requires r.cas == NoneValue
    ensures TextHit(Lower("none"), r)
  {
    assert Lower(FieldText(r.cas)) == "none";
    ContainsAt(Lower(FieldText(r.cas)), "none", 0);
  }

  // ---------------------------------------------- add / update / delete

  /** The table and its index. */
  datatype Table = Table(rows: seq<Row>, index: map<string, SolventData>)

  /** The state after `_ensure_data_loaded`: the current one when data is
      loaded, else the file cleaned and indexed, else nothing. */
  function Loaded(data: Option<seq<Row>>, index: map<string, SolventData>, file: Option<seq<CsvRow>>,
                  conv: Row -> Option<SolventData>): Option<Table>
  {
    if data.Some? then Some(Table(data.value, index))
    else if file.Some? then Some(Table(CleanData(file.value), IndexOf(CleanData(file.value), conv)))
    else None
  }

  const UserAdded: string := "user_added"

  /** The row `add_solvent` is meant to append, with the CAS number in the
      "CAS" column and the boiling point in "Tb", the columns the
      conversion reads. */
  function NewRow(s: SolventData): (r: Row)
    requires s.solvent.Some?
    ensures r.solvent == s.solvent.value && r.sourceFile == Some(UserAdded)
    ensures r.cas == OptField(s.cas) && r.boilingPoint == s.boilingPoint
    ensures r.props.sourceRow.None? && r.props.deltaTotal == s.deltaTotal && r.props.completeness == s.completeness
  {
    Row(s.solvent.value, s.deltaD, s.deltaP, s.deltaH, OptField(s.cas), OptField(s.smiles), s.boilingPoint,
      Props(s.molecularWeight, s.molarVolume, s.density, s.vaporPressure, s.wgkClass, s.costPerMl,
            s.deltaTotal, None, s.completeness),
      Some(UserAdded))
  }

  /** The row the new-row dictionary of `add_solvent` describes: CAS and
      boiling point go to new columns "Cas" and "Tv", so the row's "CAS"
      cell is NaN and its "Tb" cell empty. As written the dictionary is
      never built (its `source_url` entry raises); `AddTo` appends it. */
  function NewRowAsWritten(s: SolventData): (r: Row)
    requires s.solvent.Some?
    ensures r == NewRow(s).(cas := NaN, boilingPoint := None)
  {
    Row(s.solvent.value, s.deltaD, s.deltaP, s.deltaH, NaN, OptField(s.smiles), None,
      Props(s.molecularWeight, s.molarVolume, s.density, s.vaporPressure, s.wgkClass, s.costPerMl,
            s.deltaTotal, None, s.completeness),
      Some(UserAdded))
  }

  /** Reading the appended row back gives the record added, except the
      source file and source row the table assigns. */
  lemma NewRowRoundTrip(s: SolventData)
    requires s.solvent.Some?
    ensures RawRecord(NewRow(s)) == s.(sourceFile := Some(UserAdded), sourceRow := None)
  {
  }

  /** Reading that row back loses the CAS number and the boiling point,
      so once the index is rebuilt (after any update, delete or reload) a
      solvent added by `AddTo` is found by name only. */
  lemma NewRowAsWrittenLoses(s: SolventData, conv: Row -> Option<SolventData>)
    requires s.solvent.Some? && Faithful(conv)
    ensures RawRecord(NewRowAsWritten(s)).cas == None && RawRecord(NewRowAsWritten(s)).boilingPoint == None
    ensures conv(NewRowAsWritten(s)).Some? ==> RecordKeys(conv(NewRowAsWritten(s)).value) == [Lower(Strip(s.solvent.value))]
  {
    if conv(NewRowAsWritten(s)).Some? {
      assert Keeps(NewRowAsWritten(s), conv(NewRowAsWritten(s)).value);
    }
  }

  /** With the corrected columns a rebuilt index still carries the CAS key. */
  lemma NewRowKeepsCas(s: SolventData, conv: Row -> Option<SolventData>)
    requires s.solvent.Some? && s.cas.Some? && s.cas.value != [] && Faithful(conv)
    ensures conv(NewRow(s)).Some? ==> Lower(s.cas.value) in RecordKeys(conv(NewRow(s)).value)
  {
    if conv(NewRow(s)).Some? {
      assert Keeps(NewRow(s), conv(NewRow(s)).value);
    }
  }

  /** `add_solvent` on a loaded table with the `source_url` entry of the
      new-row dictionary dropped (the corrected half; as written the add
      always fails, see `AddAsWrittenFails`): a record without a name
      raises, and a name already resolving is rejected; otherwise the
      dictionary's row, with its "Cas"/"Tv" columns, is appended and the
      record indexed under its keys. */
  function AddTo(t: Table, s: SolventData): (r: Option<Table>)
    ensures r.None? <==> s.solvent.None? || LookupName(t.index, s.solvent.value).Some?
    ensures r.Some? ==> |r.value.rows| == |t.rows| + 1 && r.value.rows[|t.rows|] == NewRowAsWritten(s)
  {
    if s.solvent.None? || LookupName(t.index, s.solvent.value).Some? then None
    else Some(Table(t.rows + [NewRowAsWritten(s)], PutKeys(t.index, RecordKeys(s), s)))
  }

  /** Adding fails exactly when the record has no name or its name already
      resolves (case-insensitively). Otherwise exactly one row is appended,
      marked "user_added", with a NaN "CAS" cell and no boiling point. */
  lemma AddMeaning(t: Table, s: SolventData)
    ensures AddTo(t, s).None? <==> s.solvent.None? || LookupName(t.index, s.solvent.value).Some?
    ensures AddTo(t, s).Some? ==>
      var t' := AddTo(t, s).value;
      && |t'.rows| == |t.rows| + 1 && t'.rows[..|t.rows|] == t.rows
      && t'.rows[|t.rows|].sourceFile == Some(UserAdded)
      && t'.rows[|t.rows|].cas == NaN && t'.rows[|t.rows|].boilingPoint.None?
  {
    if AddTo(t, s).Some? {
      var t' := AddTo(t, s).value;
      assert t'.rows[..|t.rows|] == t.rows;
    }
  }

  /** After a successful add the record is found by its name and by its
      CAS number, written straight into the index, and every other key is
      left as it was. */
  lemma AddIndexMeaning(t: Table, s: SolventData)
    ensures AddTo(t, s).Some? ==>
      var t' := AddTo(t, s).value;
      && (IsStripped(s.solvent.value) ==> LookupName(t'.index, s.solvent.value) == Some(s))
      && (s.cas.Some? && s.cas.value != [] && IsStripped(s.cas.value) ==> LookupName(t'.index, s.cas.value) == Some(s))
      && forall k :: k !in RecordKeys(s) ==> (k in t'.index <==> k in t.index) && (k in t.index ==> t'.index[k] == t.index[k])
  {
    if AddTo(t, s).Some? {
      assert AddTo(t, s).value.index == PutKeys(t.index, RecordKeys(s), s);
      PutRecordKeys(t.index, s);
    }
  }

  /** Writing a named record under its keys makes it found by its name and
      by its CAS number. */
  lemma PutRecordKeys(m: map<string, SolventData>, s: SolventData)
    requires s.solvent.Some?
    ensures IsStripped(s.solvent.value) ==> LookupName(PutKeys(m, RecordKeys(s), s), s.solvent.value) == Some(s)
    ensures s.cas.Some? && s.cas.value != [] && IsStripped(s.cas.value) ==>
      LookupName(PutKeys(m, RecordKeys(s), s), s.cas.value) == Some(s)
  {
    var name := s.solvent.value;
    if IsStripped(name) {
      StripOfStripped(name);
      LookupKeyMeaning(name);
      assert Lower(name) in RecordKeys(s);
    }
    if s.cas.Some? && s.cas.value != [] && IsStripped(s.cas.value) {
      StripOfStripped(s.cas.value);
      LookupKeyMeaning(s.cas.value);
      assert Lower(s.cas.value) in RecordKeys(s);
    }
  }

  /** The first row named exactly `name`, if any. */
  function FirstNamed(rows: seq<Row>, name: string): (r: Option<nat>)
    ensures r.Some? ==> r.value < |rows| && rows[r.value].solvent == name && forall j :: 0 <= j < r.value ==> rows[j].solvent != name
    ensures r.None? ==> forall j :: 0 <= j < |rows| ==> rows[j].solvent != name
  {
    if |rows| == 0 then None
    else if rows[0].solvent == name then Some(0)
    else match FirstNamed(rows[1..], name)
         case None => None
         case Some(i) => Some(i + 1)
  }

  /** The first row with that exact name exists and was added by a user. */
  predicate Editable(rows: seq<Row>, name: string)
  {
    FirstNamed(rows, name).Some? && rows[FirstNamed(rows, name).value].sourceFile == Some(UserAdded)
  }

  /** The row `update_solvent`'s assignments are meant to leave: the total
      parameter, source row and completeness stay; everything else comes
      from the record, CAS and boiling point into "CAS" and "Tb". */
  function UpdatedRow(r: Row, s: SolventData): (u: Row)
    requires s.solvent.Some?
    ensures u.solvent == s.solvent.value && u.sourceFile == r.sourceFile
    ensures u.cas == OptField(s.cas) && u.boilingPoint == s.boilingPoint
    ensures u.props.deltaTotal == r.props.deltaTotal && u.props.sourceRow == r.props.sourceRow
            && u.props.completeness == r.props.completeness
  {
    r.(solvent := s.solvent.value, deltaD := s.deltaD, deltaP := s.deltaP, deltaH := s.deltaH,
       cas := OptField(s.cas), smiles := OptField(s.smiles), boilingPoint := s.boilingPoint,
       props := r.props.(molecularWeight := s.molecularWeight, molarVolume := s.molarVolume,
                         density := s.density, vaporPressure := s.vaporPressure,
                         wgkClass := s.wgkClass, costPerMl := s.costPerMl))
  }

  /** The row after `update_solvent`'s assignments as written: the CAS
      number and boiling point go to "Cas" and "Tv", so the row keeps its
      old CAS and boiling point. */
  function UpdatedRowAsWritten(r: Row, s: SolventData): (u: Row)
    requires s.solvent.Some?
    ensures u == UpdatedRow(r, s).(cas := r.cas, boilingPoint := r.boilingPoint)
    ensures u.cas == r.cas && u.boilingPoint == r.boilingPoint && u.sourceFile == r.sourceFile
  {
    UpdatedRow(r, s).(cas := r.cas, boilingPoint := r.boilingPoint)
  }

  /** As written an update never changes the CAS number or boiling point
      read back from the row; corrected, they are the record's. */
  lemma UpdatedRowCas(r: Row, s: SolventData)
    requires s.solvent.Some?
    ensures RawRecord(UpdatedRowAsWritten(r, s)).cas == FieldValue(r.cas)
    ensures RawRecord(UpdatedRowAsWritten(r, s)).boilingPoint == r.boilingPoint
    ensures RawRecord(UpdatedRow(r, s)).cas == s.cas && RawRecord(UpdatedRow(r, s)).boilingPoint == s.boilingPoint
  {
  }

  /** With the corrected columns, the updated row reads back with the
      record's CAS number, so a rebuilt index carries the new CAS key. */
  lemma UpdatedRowKeepsCas(r: Row, s: SolventData, conv: Row -> Option<SolventData>)
    requires s.solvent.Some? && s.cas.Some? && s.cas.value != [] && Faithful(conv)
    ensures conv(UpdatedRow(r, s)).Some? ==>
      conv(UpdatedRow(r, s)).value.cas == s.cas && Lower(s.cas.value) in RecordKeys(conv(UpdatedRow(r, s)).value)
  {
    if conv(UpdatedRow(r, s)).Some? {
      assert Keeps(UpdatedRow(r, s), conv(UpdatedRow(r, s)).value);
    }
  }

  /** A rename is refused when the new name is None (the lookup raises) or
      already resolves. */
  predicate RenameRefused(t: Table, original: string, s: SolventData)
  {
    Some(original) != s.solvent && (s.solvent.None? || LookupName(t.index, s.solvent.value).Some?)
  }

  /** `update_solvent` on a loaded table with the `source_url` assignment
      dropped (the corrected half; as written the update always fails, see
      `UpdateAsWrittenMeaning`). */
  function UpdateIn(t: Table, original: string, s: SolventData, conv: Row -> Option<SolventData>): (r: Option<Table>)
    ensures r.None? <==> !Editable(t.rows, original) || RenameRefused(t, original, s)
    ensures r.Some? ==> |r.value.rows| == |t.rows| && r.value.index == IndexOf(r.value.rows, conv)
  {
    if !Editable(t.rows, original) || RenameRefused(t, original, s) then None
    else
      var i := FirstNamed(t.rows, original).value;
      var rows := t.rows[i := UpdatedRowAsWritten(t.rows[i], s)];
      Some(Table(rows, IndexOf(rows, conv)))
  }

  /** Updating fails exactly for an unknown name, a row not added by a
      user, or a refused rename. Otherwise only the first row of that name
      changes, it takes the record's fields except the CAS number and
      boiling point, which keep their old values, it stays "user_added",
      and the index is rebuilt from the new table. */
  lemma UpdateMeaning(t: Table, original: string, s: SolventData, conv: Row -> Option<SolventData>)
    ensures UpdateIn(t, original, s, conv).None? <==> !Editable(t.rows, original) || RenameRefused(t, original, s)
    ensures UpdateIn(t, original, s, conv).Some? ==>
      var t' := UpdateIn(t, original, s, conv).value;
      var i := FirstNamed(t.rows, original).value;
      && |t'.rows| == |t.rows|
      && (forall j :: 0 <= j < |t.rows| && j != i ==> t'.rows[j] == t.rows[j])
      && t'.rows[i] == UpdatedRowAsWritten(t.rows[i], s)
      && t'.rows[i].cas == t.rows[i].cas && t'.rows[i].boilingPoint == t.rows[i].boilingPoint
      && t'.rows[i].solvent == s.solvent.value && t'.rows[i].sourceFile == Some(UserAdded)
      && t'.index == IndexOf(t'.rows, conv)
  {
  }

  // ------------------------------------ add and update as written

  /** The record attributes the new-row dictionary of `add_solvent` reads,
      in the order the dictionary lists them ("source_file" and
      "source_row" are literals there, not attributes). */
  const NewRowAttributes: seq<string> := [
    "solvent", "delta_d", "delta_p", "delta_h", "cas", "smiles", "inchi_key",
    "molecular_weight", "molar_volume", "density", "boiling_point", "vapor_pressure",
    "ghs_classification", "hazard_statements", "wgk_class", "cost_per_ml",
    "delta_total", "source_url", "completeness"]

  /** The record attributes `update_solvent`'s `.at` assignments read, in
      order; "source_url" is the last. */
  const UpdateAttributes: seq<string> := [
    "solvent", "delta_d", "delta_p", "delta_h", "cas", "smiles", "inchi_key",
    "molecular_weight", "molar_volume", "density", "boiling_point", "vapor_pressure",
    "ghs_classification", "hazard_statements", "wgk_class", "cost_per_ml",
    "source_url"]

  /** `SolventData` declares no "source_url": building the new row raises
      at its eighteenth entry, and the update raises at its last
      assignment, after every other one has been made. */
  lemma SourceUrlUndeclared()
    ensures FirstUndeclared(NewRowAttributes, SolventDataFields) == Some(17) && NewRowAttributes[17] == "source_url"
    ensures FirstUndeclared(UpdateAttributes, SolventDataFields) == Some(|UpdateAttributes| - 1)
    ensures UpdateAttributes[|UpdateAttributes| - 1] == "source_url"
  {
    NewRowRaises();
    UpdateRaises();
  }

  lemma NewRowRaises()
    ensures FirstUndeclared(NewRowAttributes, SolventDataFields) == Some(17)
  {
    assert NewRowAttributes[17] !in SolventDataFields;
    FirstUndeclaredAt(NewRowAttributes, SolventDataFields, 17);
  }

  lemma UpdateRaises()
    ensures FirstUndeclared(UpdateAttributes, SolventDataFields) == Some(16)
  {
    assert UpdateAttributes[16] !in SolventDataFields;
    FirstUndeclaredAt(UpdateAttributes, SolventDataFields, 16);
  }

  /** `add_solvent` on a loaded table when building the new row reads the
      record attributes `attrs` in turn: after the two checks, the first
      one `SolventData` does not declare raises and the handler returns
      False with the table as it was; when all are declared, the add is
      `AddTo`. */
  function AddReading(t: Table, s: SolventData, attrs: seq<string>): (r: Option<Table>)
    ensures FirstUndeclared(attrs, SolventDataFields).Some? ==> r.None?
    ensures FirstUndeclared(attrs, SolventDataFields).None? ==> r == AddTo(t, s)
  {
    if s.solvent.None? || LookupName(t.index, s.solvent.value).Some? then None
    else if FirstUndeclared(attrs, SolventDataFields).Some? then None
    else AddTo(t, s)
  }

  /** `add_solvent` as written. */
  function AddAsWritten(t: Table, s: SolventData): Option<Table>
  {
    AddReading(t, s, NewRowAttributes)
  }

  /** As written, adding never succeeds: a nameless record and a known
      name are refused, and any other record raises on "source_url". */
  lemma AddAsWrittenFails(t: Table, s: SolventData)
    ensures AddAsWritten(t, s).None?
  {
    SourceUrlUndeclared();
  }

  /** What `update_solvent` reports, and the table it leaves. */
  datatype UpdateOutcome = UpdateOutcome(ok: bool, table: Table)

  /** `update_solvent` on a loaded table when its `.at` assignments read
      the record attributes `attrs` in turn: the checks as in `UpdateIn`;
      then, when the last attribute is the first undeclared one, every
      other assignment has been made in place before it raises, and the
      handler returns False before the index is rebuilt; when all are
      declared, the update is `UpdateIn`. */
  function UpdateReading(t: Table, original: string, s: SolventData, conv: Row -> Option<SolventData>,
                         attrs: seq<string>): (r: UpdateOutcome)
    requires FirstUndeclared(attrs, SolventDataFields).Some? ==>
      FirstUndeclared(attrs, SolventDataFields) == Some(|attrs| - 1)
    ensures r.ok <==> UpdateIn(t, original, s, conv).Some? && FirstUndeclared(attrs, SolventDataFields).None?
    ensures r.ok ==> r.table == UpdateIn(t, original, s, conv).value
    ensures !Editable(t.rows, original) || RenameRefused(t, original, s) ==> r.table == t
  {
    if !Editable(t.rows, original) || RenameRefused(t, original, s) then UpdateOutcome(false, t)
    else if FirstUndeclared(attrs, SolventDataFields).Some? then
      var i := FirstNamed(t.rows, original).value;
      UpdateOutcome(false, Table(t.rows[i := UpdatedRowAsWritten(t.rows[i], s)], t.index))
    else UpdateOutcome(true, UpdateIn(t, original, s, conv).value)
  }

  /** `update_solvent` as written. */
  function UpdateAsWritten(t: Table, original: string, s: SolventData, conv: Row -> Option<SolventData>)
    : UpdateOutcome
  {
    SourceUrlUndeclared();
    UpdateReading(t, original, s, conv, UpdateAttributes)
  }

  /** An update whose last attribute raises never succeeds; a refused one
      leaves the table alone; otherwise the first row of that name has
      been rewritten, every other row stays, and the index is the old one. */
  lemma UpdateReadingRaises(t: Table, original: string, s: SolventData, conv: Row -> Option<SolventData>,
                            attrs: seq<string>)
    requires FirstUndeclared(attrs, SolventDataFields) == Some(|attrs| - 1)
    ensures !UpdateReading(t, original, s, conv, attrs).ok
    ensures Editable(t.rows, original) && !RenameRefused(t, original, s) ==>
      var t' := UpdateReading(t, original, s, conv, attrs).table;
      var i := FirstNamed(t.rows, original).value;
      && t'.index == t.index && |t'.rows| == |t.rows|
      && (forall j :: 0 <= j < |t.rows| && j != i ==> t'.rows[j] == t.rows[j])
      && t'.rows[i] == UpdatedRowAsWritten(t.rows[i], s)
  {
  }

  /** As written, a refused update leaves the table alone. */
  lemma UpdateAsWrittenRefused(t: Table, original: string, s: SolventData, conv: Row -> Option<SolventData>)
    requires !Editable(t.rows, original) || RenameRefused(t, original, s)
    ensures UpdateAsWritten(t, original, s, conv) == UpdateOutcome(false, t)
  {
  }

  /** As written, an accepted update rewrites the first row of that name
      and keeps the old index. */
  lemma UpdateAsWrittenRewrites(t: Table, original: string, s: SolventData, conv: Row -> Option<SolventData>)
    requires Editable(t.rows, original) && !RenameRefused(t, original, s)
    ensures s.solvent.Some?
    ensures var i := FirstNamed(t.rows, original).value;
      UpdateAsWritten(t, original, s, conv) == UpdateOutcome(false, Table(t.rows[i := UpdatedRowAsWritten(t.rows[i], s)], t.index))
  {
    UpdateRaises();
  }

  /** As written, updating never succeeds. A refused update leaves the
      table alone. Otherwise the first row of that name has already been
      rewritten, as `UpdatedRowAsWritten` leaves it, every other row stays,
      and the index is the old one, so it still maps the old name and CAS
      number to the old record. */
  lemma UpdateAsWrittenMeaning(t: Table, original: string, s: SolventData, conv: Row -> Option<SolventData>)
    ensures !UpdateAsWritten(t, original, s, conv).ok
    ensures !Editable(t.rows, original) || RenameRefused(t, original, s) ==> UpdateAsWritten(t, original, s, conv).table == t
    ensures Editable(t.rows, original) && !RenameRefused(t, original, s) ==>
      var t' := UpdateAsWritten(t, original, s, conv).table;
      var i := FirstNamed(t.rows, original).value;
      && t'.index == t.index && |t'.rows| == |t.rows|
      && (forall j :: 0 <= j < |t.rows| && j != i ==> t'.rows[j] == t.rows[j])
      && t'.rows[i] == UpdatedRowAsWritten(t.rows[i], s)
  {
    UpdateRaises();
    UpdateReadingRaises(t, original, s, conv, UpdateAttributes);
  }

  /** The Cas/Tv defect through an update: once a failed update has
      rewritten a row, deleting any other user row rebuilds the index from
      the table; the rewritten row is still there, it reads back with its
      old CAS number, and it still answers to that number. */
  lemma RebuiltIndexKeepsOldCas(t: Table, original: string, s: SolventData, other: string,
                                conv: Row -> Option<SolventData>)
    requires Faithful(conv)
    requires Editable(t.rows, original) && !RenameRefused(t, original, s)
    requires s.solvent.Some? && other != s.solvent.value
    requires DeleteFrom(UpdateAsWritten(t, original, s, conv).table, other, conv).Some?
    ensures var i := FirstNamed(t.rows, original).value;
      var u := UpdatedRowAsWritten(t.rows[i], s);
      var t'' := DeleteFrom(UpdateAsWritten(t, original, s, conv).table, other, conv).value;
      && u in t''.rows
      && (conv(u).Some? ==> conv(u).value.cas == FieldValue(t.rows[i].cas))
      && (conv(u).Some? && IsStripped(u.solvent) && FieldValue(u.cas).Some? && FieldValue(u.cas).value != []
          && IsStripped(FieldValue(u.cas).value)
          ==> LookupName(t''.index, FieldValue(t.rows[i].cas).value).Some?)
  {
    var i := FirstNamed(t.rows, original).value;
    var u := UpdatedRowAsWritten(t.rows[i], s);
    var t' := UpdateAsWritten(t, original, s, conv).table;
    UpdateAsWrittenMeaning(t, original, s, conv);
    var t'' := DeleteFrom(t', other, conv).value;
    DeleteMeaning(t', other, conv);
    assert u == t'.rows[i];
    assert u in t'.rows;
    assert u in t''.rows;
    if conv(u).Some? {
      assert Keeps(u, conv(u).value);
      if IsStripped(u.solvent) && FieldValue(u.cas).Some? && FieldValue(u.cas).value != [] && IsStripped(FieldValue(u.cas).value) {
        var k :| 0 <= k < |t''.rows| && t''.rows[k] == u;
        RowResolvesByCas(t''.rows, k, conv);
      }
    }
  }

  function NotNamed(name: string): Row -> bool
  {
    (r: Row) => r.solvent != name
  }

  /** `delete_solvent` on a loaded table. */
  function DeleteFrom(t: Table, name: string, conv: Row -> Option<SolventData>): (r: Option<Table>)
    ensures r.None? <==> !Editable(t.rows, name)
    ensures r.Some? ==> r.value.index == IndexOf(r.value.rows, conv)
  {
    if !Editable(t.rows, name) then None
    else
      var rows := Where(t.rows, NotNamed(name));
      Some(Table(rows, IndexOf(rows, conv)))
  }

  /** The name resolves, if at all, to the record of a remaining row,
      which is not named exactly `name`. */
  ghost predicate ResolvesElsewhere(rows: seq<Row>, m: map<string, SolventData>, name: string, conv: Row -> Option<SolventData>)
  {
    LookupName(m, name).Some? ==>
      exists i :: 0 <= i < |rows| && rows[i].solvent != name && conv(rows[i]) == LookupName(m, name)
  }

  /** Deleting fails exactly for an unknown name or a row not added by a
      user. Otherwise every row with that exact name goes, every other row
      stays, and the index is rebuilt: the name no longer resolves to a row
      of that exact name (it may still resolve to a row whose name differs
      in case or spacing, or through a CAS number). */
  lemma DeleteMeaning(t: Table, name: string, conv: Row -> Option<SolventData>)
    ensures DeleteFrom(t, name, conv).None? <==> !Editable(t.rows, name)
    ensures DeleteFrom(t, name, conv).Some? ==>
      var t' := DeleteFrom(t, name, conv).value;
      && (forall r :: r in t'.rows <==> r in t.rows && r.solvent != name)
      && |t'.rows| < |t.rows|
      && ResolvesElsewhere(t'.rows, t'.index, name, conv)
  {
    if DeleteFrom(t, name, conv).Some? {
      var t' := DeleteFrom(t, name, conv).value;
      WhereMeaning(t.rows, NotNamed(name));
      var i0 := FirstNamed(t.rows, name).value;
      CountMissesOne(t.rows, NotNamed(name), i0);
      if LookupName(t'.index, name).Some? {
        IndexOfMeaning(t'.rows, conv);
        var i :| LastRowWriting(t'.rows, i, LookupKey(name), conv, t'.index);
        assert t'.rows[i] in t'.rows;
      }
    }
  }

  /** A row failing the mask makes the count smaller than the length. */
  lemma {:induction false} CountMissesOne<T>(s: seq<T>, p: T -> bool, i: nat)
    requires i < |s| && !p(s[i])
    ensures Count(s, p) < |s|
  {
    var n := |s| - 1;
    if i < n {
      CountMissesOne(s[..n], p, i);
    }
  }

  function IsUserAdded(r: Row): bool
  {
    r.sourceFile == Some(UserAdded)
  }

  /** Every record `get_user_added_solvents` returns was read from a row
      marked "user_added" and carries that source file. */
  lemma UserAddedMeaning(rows: seq<Row>, conv: Row -> Option<SolventData>)
    requires Faithful(conv)
    ensures forall i :: 0 <= i < |Collect(Where(rows, IsUserAdded), conv)| ==>
      Collect(Where(rows, IsUserAdded), conv)[i].sourceFile == Some(UserAdded)
  {
    var sel := Where(rows, IsUserAdded);
    WhereMeaning(rows, IsUserAdded);
    forall j | 0 <= j < |sel| ensures sel[j].sourceFile == Some(UserAdded) {
      assert sel[j] in sel;
    }
    CollectedUserAdded(sel, conv);
  }

  /** Reading rows that are all marked "user_added" gives records marked
      the same. */
  lemma CollectedUserAdded(sel: seq<Row>, conv: Row -> Option<SolventData>)
    requires Faithful(conv)
    requires forall j :: 0 <= j < |sel| ==> sel[j].sourceFile == Some(UserAdded)
    ensures forall i :: 0 <= i < |Collect(sel, conv)| ==> Collect(sel, conv)[i].sourceFile == Some(UserAdded)
  {
    CollectProduced(sel, conv);
    var out := Collect(sel, conv);
    forall i | 0 <= i < |out| ensures out[i].sourceFile == Some(UserAdded) {
      assert Produces(sel, conv, out[i]);
      var j :| 0 <= j < |sel| && conv(sel[j]) == Some(out[i]);
      assert Keeps(sel[j], out[i]);
    }
  }

  // ---------------------------------------------------- the service object

  class Service {
    const sqrt: real -> real
    var data: Option<seq<Row>>
    var index: map<string, SolventData>

    constructor (sqrt: real -> real)
      ensures this.sqrt == sqrt && data == None && index == map[]
    {
      this.sqrt := sqrt;
      data := None;
      index := map[];
    }

    /** The fields hold table `t`. */
    predicate Holds(t: Table)
      reads this
    {
      data == Some(t.rows) && index == t.index
    }

    /** `load_data`: nothing to do when loaded and not forced; otherwise a
        missing file fails and leaves the state alone, and a file read is
        cleaned and indexed. */
    method LoadData(forceReload: bool, file: Option<seq<CsvRow>>) returns (ok: bool)
      modifies this
      ensures !forceReload && old(data).Some? ==> ok && data == old(data) && index == old(index)
      ensures (forceReload || old(data).None?) && file.None? ==> !ok && data == old(data) && index == old(index)
      ensures (forceReload || old(data).None?) && file.Some? ==>
        ok && Holds(Table(CleanData(file.value), IndexOf(CleanData(file.value), Conv(sqrt))))
    {
      if !forceReload && data.Some? {
        return true;
      }
      if file.None? {
        return false;
      }
      data := Some(CleanData(file.value));
      CreateIndex();
      ok := true;
    }

    /** `_create_index`: the index rebuilt from the table row by row. */
    method CreateIndex()
      modifies this
      ensures data == old(data)
      ensures old(data).Some? ==> index == IndexOf(data.value, Conv(sqrt))
      ensures old(data).None? ==> index == old(index)
    {
      if data.None? {
        return;
      }
      var rows := data.value;
      ghost var ds := Conversions(rows, Conv(sqrt));
      index := map[];
      for i := 0 to |rows|
        invariant data == old(data)
        invariant index == Index(ds[..i], RecordKeys)
      {
        IndexStep(ds, i, RecordKeys);
        index := IndexRow(index, rows[i]);
      }
      assert ds[..|rows|] == ds;
    }

    /** The body of the indexing loop: a row that fails to convert is
        skipped. */
    method IndexRow(m: map<string, SolventData>, r: Row) returns (m': map<string, SolventData>)
      ensures m' == Put(m, Conv(sqrt)(r), RecordKeys)
    {
      m' := m;
      var converted := ToRecord(r, sqrt);
      if converted.Err? {
        return;
      }
      var s := converted.value;
      if s.solvent.None? {
        return;
      }
      m' := m'[Lower(s.solvent.value) := s];
      if s.cas.Some? && s.cas.value != [] {
        m' := m'[Lower(s.cas.value) := s];
      }
      PutKeysPair(m, RecordKeys(s), s);
    }

    /** `_ensure_data_loaded`. */
    method EnsureDataLoaded(file: Option<seq<CsvRow>>) returns (ok: bool)
      modifies this
      ensures ok == Loaded(old(data), old(index), file, Conv(sqrt)).Some?
      ensures ok ==> Holds(Loaded(old(data), old(index), file, Conv(sqrt)).value)
      ensures !ok ==> data == old(data) && index == old(index)
    {
      if data.None? {
        ok := LoadData(false, file);
      } else {
        ok := true;
      }
    }

    /** `reload_data`. */
    method ReloadData(file: Option<seq<CsvRow>>) returns (ok: bool)
      modifies this
      ensures file.None? ==> !ok && data == old(data) && index == old(index)
      ensures file.Some? ==> ok && Holds(Table(CleanData(file.value), IndexOf(CleanData(file.value), Conv(sqrt))))
    {
      ok := LoadData(true, file);
    }

    /** `get_solvent_by_name`: None when nothing can be loaded. */
    method GetSolventByName(name: string, file: Option<seq<CsvRow>>) returns (r: Option<SolventData>)
      modifies this
      ensures var t := Loaded(old(data), old(index), file, Conv(sqrt));
        && (t.Some? ==> Holds(t.value) && r == LookupName(t.value.index, name))
        && (t.None? ==> r.None? && data == old(data) && index == old(index))
    {
      var ok := EnsureDataLoaded(file);
      if !ok {
        return None;
      }
      var key := Strip(Lower(name));
      r := if key in index then Some(index[key]) else None;
    }

    /** `get_solvent_by_cas`, the same lookup on the CAS number. */
    method GetSolventByCas(cas: string, file: Option<seq<CsvRow>>) returns (r: Option<SolventData>)
      modifies this
      ensures var t := Loaded(old(data), old(index), file, Conv(sqrt));
        && (t.Some? ==> Holds(t.value) && r == LookupName(t.value.index, cas))
        && (t.None? ==> r.None? && data == old(data) && index == old(index))
    {
      var ok := EnsureDataLoaded(file);
      if !ok {
        return None;
      }
      var key := Strip(Lower(cas));
      r := if key in index then Some(index[key]) else None;
    }

    /** `search_solvents`: the filtered copy is reassigned once per
        requested filter, counted, paged and converted. */
    method SearchSolvents(q: SolventSearchQuery, file: Option<seq<CsvRow>>) returns (resp: SearchResponse)
      requires QueryInBounds(q)
      modifies this
      ensures var t := Loaded(old(data), old(index), file, Conv(sqrt));
        && (t.Some? ==> Holds(t.value) && resp == Search(t.value.rows, q, Conv(sqrt)))
        && (t.None? ==> resp == SearchResponse([], 0) && data == old(data) && index == old(index))
    {
      var ok := EnsureDataLoaded(file);
      if !ok {
        return SearchResponse([], 0);
      }
      resp := SearchRows(data.value, q);
    }

    /** The body of `search_solvents` once the table is loaded. */
    method SearchRows(rows: seq<Row>, q: SolventSearchQuery) returns (resp: SearchResponse)
      requires QueryInBounds(q)
      ensures resp == Search(rows, q, Conv(sqrt))
    {
      var df := FilterRows(rows, q);
      var totalCount := |df|;
      var page := Slice(df, q.offset, q.offset + q.limit);
      var solvents := ConvertRows(page);
      resp := SearchResponse(solvents, totalCount);
    }

    /** The filter chain of `search_solvents`. */
    method FilterRows(rows: seq<Row>, q: SolventSearchQuery) returns (df: seq<Row>)
      ensures df == Where(rows, UpTo(q, StageCount))
    {
      df := rows;
      NoFilterKeepsAll(rows, q);
      df := ApplyFilter(rows, df, q, 0);
      df := ApplyFilter(rows, df, q, 1);
      df := ApplyFilter(rows, df, q, 2);
      df := ApplyFilter(rows, df, q, 3);
      df := ApplyFilter(rows, df, q, 4);
      df := ApplyFilter(rows, df, q, 5);
      df := ApplyFilter(rows, df, q, 6);
      df := ApplyFilter(rows, df, q, 7);
      df := ApplyFilter(rows, df, q, 8);
    }

    /** `df = df[mask]` for filter `k` when the query requests it. */
    method ApplyFilter(ghost rows: seq<Row>, df: seq<Row>, q: SolventSearchQuery, k: nat) returns (df': seq<Row>)
      requires k < StageCount && df == Where(rows, UpTo(q, k))
      ensures df' == Where(rows, UpTo(q, k + 1))
    {
      UpToStep(q, k);
      WhereWhere(rows, UpTo(q, k), Stage(q, k), UpTo(q, k + 1));
      if Requested(q, k) {
        df' := Where(df, Stage(q, k));
      } else {
        WhereAll(df, Stage(q, k));
        df' := df;
      }
    }

    /** The conversion loop over a page: rows that fail are skipped. */
    method ConvertRows(rows: seq<Row>) returns (out: seq<SolventData>)
      ensures out == Collect(rows, Conv(sqrt))
    {
      out := [];
      for i := 0 to |rows|
        invariant out == Collect(rows[..i], Conv(sqrt))
      {
        CollectStep(rows, i, Conv(sqrt));
        var converted := ToRecord(rows[i], sqrt);
        if converted.Ok? {
          out := out + [converted.value];
        }
      }
      assert rows[..|rows|] == rows;
    }

    /** `get_all_solvent_names`: the names, sorted. */
    method GetAllSolventNames(file: Option<seq<CsvRow>>) returns (names: seq<string>)
      modifies this
      ensures var t := Loaded(old(data), old(index), file, Conv(sqrt));
        && (t.Some? ==> Holds(t.value) && names == SortStrings(Names(t.value.rows)))
        && (t.None? ==> names == [] && data == old(data) && index == old(index))
    {
      var ok := EnsureDataLoaded(file);
      if !ok {
        return [];
      }
      names := SortStrings(Names(data.value));
    }

    /** `add_solvent`: a nameless record and a known name are refused;
        for any other record, building the new row raises on the
        undeclared "source_url" attribute and the handler returns False.
        The table is left as loaded in every case. */
    method AddSolvent(s: SolventData, file: Option<seq<CsvRow>>) returns (ok: bool)
      modifies this
      ensures var t := Loaded(old(data), old(index), file, Conv(sqrt));
        && (t.None? ==> data == old(data) && index == old(index))
        && (t.Some? ==> ok == AddAsWritten(t.value, s).Some? && Holds(t.value))
      ensures !ok
    {
      ok := EnsureDataLoaded(file);
      if !ok {
        return;
      }
      ghost var t := Table(data.value, index);
      assert Loaded(old(data), old(index), file, Conv(sqrt)) == Some(t);
      AddAsWrittenFails(t, s);
      if s.solvent.None? {
        return false;
      }
      var existing := GetSolventByName(s.solvent.value, file);
      if existing.Some? {
        return false;
      }
      // The new-row dictionary reads `solvent_data.source_url` and raises.
      ok := false;
    }

    /** `update_solvent`: an unknown name, a row not added by a user and a
        refused rename fail with the table as loaded. Otherwise the first
        row of that name is rewritten in place, the assignment of the
        undeclared "source_url" raises, and the handler returns False
        before the index is rebuilt. */
    method UpdateSolvent(original: string, s: SolventData, file: Option<seq<CsvRow>>) returns (ok: bool)
      modifies this
      ensures var t := Loaded(old(data), old(index), file, Conv(sqrt));
        && (t.None? ==> data == old(data) && index == old(index))
        && (t.Some? ==> ok == UpdateAsWritten(t.value, original, s, Conv(sqrt)).ok
                        && Holds(UpdateAsWritten(t.value, original, s, Conv(sqrt)).table))
      ensures !ok
    {
      ok := EnsureDataLoaded(file);
      if !ok {
        return;
      }
      ghost var t := Table(data.value, index);
      assert Loaded(old(data), old(index), file, Conv(sqrt)) == Some(t);
      var rows := data.value;
      var first := FirstNamed(rows, original);
      if first.None? || rows[first.value].sourceFile != Some(UserAdded) {
        assert !Editable(t.rows, original);
        UpdateAsWrittenRefused(t, original, s, Conv(sqrt));
        return false;
      }
      if Some(original) != s.solvent {
        if s.solvent.None? {
          assert RenameRefused(t, original, s);
          UpdateAsWrittenRefused(t, original, s, Conv(sqrt));
          return false;
        }
        var existing := GetSolventByName(s.solvent.value, file);
        if existing.Some? {
          assert RenameRefused(t, original, s);
          UpdateAsWrittenRefused(t, original, s, Conv(sqrt));
          return false;
        }
      }
      UpdateAsWrittenRewrites(t, original, s, Conv(sqrt));
      var i := first.value;
      data := Some(rows[i := UpdatedRowAsWritten(rows[i], s)]);
      // Assigning `solvent_data.source_url` raises before `_create_index`.
      ok := false;
    }

    /** `delete_solvent`. */
    method DeleteSolvent(name: string, file: Option<seq<CsvRow>>) returns (ok: bool)
      modifies this
      ensures var t := Loaded(old(data), old(index), file, Conv(sqrt));
        && (t.None? ==> !ok && data == old(data) && index == old(index))
        && (t.Some? ==> ok == DeleteFrom(t.value, name, Conv(sqrt)).Some?)
        && (t.Some? && ok ==> Holds(DeleteFrom(t.value, name, Conv(sqrt)).value))
        && (t.Some? && !ok ==> Holds(t.value))
    {
      ok := EnsureDataLoaded(file);
      if !ok {
        return;
      }
      var rows := data.value;
      var first := FirstNamed(rows, name);
      if first.None? || rows[first.value].sourceFile != Some(UserAdded) {
        return false;
      }
      data := Some(Where(rows, NotNamed(name)));
      CreateIndex();
      ok := true;
    }

    /** `get_user_added_solvents`. */
    method GetUserAddedSolvents(file: Option<seq<CsvRow>>) returns (solvents: seq<SolventData>)
      modifies this
      ensures var t := Loaded(old(data), old(index), file, Conv(sqrt));
        && (t.Some? ==> Holds(t.value) && solvents == Collect(Where(t.value.rows, IsUserAdded), Conv(sqrt)))
        && (t.None? ==> solvents == [] && data == old(data) && index == old(index))
    {
      var ok := EnsureDataLoaded(file);
      if !ok {
        return [];
      }
      solvents := ConvertRows(Where(data.value, IsUserAdded));
    }
  }

  /** No filter applied keeps every row. */
  lemma NoFilterKeepsAll(rows: seq<Row>, q: SolventSearchQuery)
    ensures Where(rows, UpTo(q, 0)) == rows
  {
    assert forall i :: 0 <= i < |rows| ==> PassesFirst(q, 0, rows[i]);
    WhereAll(rows, UpTo(q, 0));
  }

  /** Passing the first `k + 1` filters is passing the first `k` and
      filter `k`. */
  lemma UpToStep(q: SolventSearchQuery, k: nat)
    ensures forall x :: UpTo(q, k + 1)(x) == (UpTo(q, k)(x) && Stage(q, k)(x))
  {
    forall x ensures UpTo(q, k + 1)(x) == (UpTo(q, k)(x) && Stage(q, k)(x)) {
      if UpTo(q, k)(x) && Test(q, k, x) {
        forall j | 0 <= j < k + 1 ensures Test(q, j, x) {
          if j < k { assert UpTo(q, k)(x); }
        }
      }
    }
  }

  /** Writing one or two keys in turn is `PutKeys`. */
  lemma PutKeysPair(m: map<string, SolventData>, ks: seq<string>, v: SolventData)
    requires |ks| <= 2
    ensures |ks| == 0 ==> PutKeys(m, ks, v) == m
    ensures |ks| == 1 ==> PutKeys(m, ks, v) == m[ks[0] := v]
    ensures |ks| == 2 ==> PutKeys(m, ks, v) == m[ks[0] := v][ks[1] := v]
  {
    if |ks| == 2 {
      assert ks[..1] == [ks[0]];
      assert ks[..1][..0] == [];
    } else if |ks| == 1 {
      assert ks[..0] == [];
    }
  }
}
