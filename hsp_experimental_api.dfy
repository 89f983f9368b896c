/**
 * app/api/hsp_experimental.py: the arithmetic and data preparation of the
 * experiment endpoints: the page number of a listing, the parsing of the
 * comma-separated tag filter, and the solvent records handed to the
 * visualization, whose coordinates fall back field by field from the
 * manual values to the solvent database to the record attached to the
 * test. The database lookup is a parameter; HTTP status codes become
 * `Err` results.
 */
module HspExperimentalApi {

  import opened Common
  import opened Text
  import opened SolventModels
  import opened TableIndex
  import HspModels
  import V = Visualization
  import DM = DataManager

  // ------------------------------------------------------ list_experiments

  /** `offset // limit + 1`; the query parameters demand `limit >= 1` and
      `offset >= 0`. */
  function Page(offset: nat, limit: nat): nat
    requires limit >= 1
  {
    offset / limit + 1
  }

  /** The page is at least 1 and is the page holding the first result:
      `(page - 1) * limit <= offset < page * limit`; so the list response
      satisfies its field constraints for any non-negative total. */
  lemma PageMeaning(offset: nat, limit: nat, totalCount: nat)
    requires limit >= 1
    ensures Page(offset, limit) >= 1
    ensures (Page(offset, limit) - 1) * limit <= offset < Page(offset, limit) * limit
    ensures HspModels.ListResponseInBounds(totalCount, Page(offset, limit), limit)
  {
    var q := offset / limit;
    assert offset == q * limit + offset % limit;
    assert Page(offset, limit) * limit == q * limit + limit;
  }

  // ---------------------------------------------------- search_experiments

  /** The tag filter: `[tag.strip() for tag in tags.split(',')]` when the
      string is given and not empty, and None when the list is empty. */
  function ParseTags(tags: Option<string>): Option<seq<string>>
  {
    var tagList := if tags.Some? && tags.value != [] then StripAll(Split(tags.value, ',')) else [];
    if tagList != [] then Some(tagList) else None
  }

  function StripAll(parts: seq<string>): (r: seq<string>)
    ensures |r| == |parts| && forall i :: 0 <= i < |parts| ==> r[i] == Strip(parts[i])
  {
    seq(|parts|, i requires 0 <= i < |parts| => Strip(parts[i]))
  }

  /** No tag filter exactly when the string is absent or empty; otherwise
      one tag per comma-separated part (the parts joined by commas give the
      string back), each stripped and free of commas. */
  lemma ParseTagsMeaning(tags: Option<string>)
    ensures ParseTags(tags).None? <==> tags.None? || tags.value == []
    ensures ParseTags(tags).Some? ==>
      var parts := Split(tags.value, ',');
      && Join(parts, ',') == tags.value
      && |ParseTags(tags).value| == |parts|
      && forall i :: 0 <= i < |parts| ==>
        ParseTags(tags).value[i] == Strip(parts[i]) && IsStripped(ParseTags(tags).value[i])
        && !HasChar(ParseTags(tags).value[i], ',')
  {
    if tags.Some? && tags.value != [] {
      var parts := Split(tags.value, ',');
      SplitJoin(tags.value, ',');
      forall i | 0 <= i < |parts| ensures !HasChar(Strip(parts[i]), ',') {
        StripNoComma(parts[i]);
      }
    }
  }

  lemma StripNoComma(part: string)
    requires !HasChar(part, ',')
    ensures !HasChar(Strip(part), ',')
  {
    var k := LeadingSpaces(part);
    var r := Strip(part);
    forall j | 0 <= j < |r| ensures r[j] != ',' {
      assert r[j] == part[k + j];
    }
  }

  /** A string of spaces gives the single tag "". */
  lemma BlankTags()
    ensures ParseTags(Some(" ")) == Some([""])
  {
    var space := " ";
    assert space[0] == ' ' && space[1..] == [];
    assert [] + [space[0]] == space;
    assert SplitFrom(space[1..], ',', space) == [space];
    assert Split(space, ',') == [space];
    assert Strip(space) == [];
    assert StripAll([space]) == [""];
  }

  /** `search_experiments`: the data manager's search with the parsed tag
      list, and the count of what it returns. The results are, in listing
      order, exactly the listed experiments that pass the filters. */
  function SearchHandler(files: seq<DM.ExperimentFile>, sampleName: Option<string>, experimenter: Option<string>,
                         hasResults: Option<bool>, tags: Option<string>): (r: (seq<DM.Summary>, nat))
    ensures r.0 == DM.Search(files, DM.SearchQuery(sampleName, experimenter, ParseTags(tags), hasResults))
    ensures r.1 == |r.0|
    ensures SubseqOf(r.0, DM.List(files, 1000, 0))
    ensures forall e :: e in r.0 <==>
      e in DM.List(files, 1000, 0) && DM.Matches(DM.SearchQuery(sampleName, experimenter, ParseTags(tags), hasResults), e)
  {
    var q := DM.SearchQuery(sampleName, experimenter, ParseTags(tags), hasResults);
    DM.SearchMeaning(files, q);
    var results := DM.Search(files, q);
    (results, |results|)
  }

  // ------------------------------------- get_hansen_sphere_visualization

  /** The first value given, in order of precedence. */
  function First(a: Option<real>, b: Option<real>, c: Option<real>): Option<real>
  {
    if a.Some? then a else if b.Some? then b else c
  }

  /** The field of a record, when there is a record. */
  function FieldOf(s: Option<SolventData>, k: nat): Option<real>
  {
    if s.None? then None
    else if k == 0 then Some(s.value.deltaD)
    else if k == 1 then Some(s.value.deltaP)
    else Some(s.value.deltaH)
  }

  /** A manual value is never overwritten; a missing one is taken from the
      database record, and failing that from the attached record; a value
      stays missing only when all three sources lack it. */
  lemma FirstMeaning(a: Option<real>, b: Option<real>, c: Option<real>)
    ensures a.Some? ==> First(a, b, c) == a
    ensures a.None? && b.Some? ==> First(a, b, c) == b
    ensures a.None? && b.None? ==> First(a, b, c) == c
    ensures First(a, b, c).None? <==> a.None? && b.None? && c.None?
  {
  }

  /** The coordinates of a test once the fallbacks have run. */
  function Resolved(t: SolventTest, db: Option<SolventData>): (Option<real>, Option<real>, Option<real>)
  {
    (First(t.manualDeltaD, FieldOf(db, 0), FieldOf(t.solventData, 0)),
     First(t.manualDeltaP, FieldOf(db, 1), FieldOf(t.solventData, 1)),
     First(t.manualDeltaH, FieldOf(db, 2), FieldOf(t.solventData, 2)))
  }

  /** The handler's reassignments: the manual values, then the database
      record for whichever is missing, then the attached record. The
      database is consulted only when some manual value is missing. */
  method ResolveCoordinates(t: SolventTest, lookup: string -> Option<SolventData>)
    returns (d: Option<real>, p: Option<real>, h: Option<real>)
    ensures (d, p, h) == Resolved(t, lookup(t.solventName))
  {
    d := t.manualDeltaD;
    p := t.manualDeltaP;
    h := t.manualDeltaH;
    if d.None? || p.None? || h.None? {
      var db := lookup(t.solventName);
      if db.Some? {
        d := if d.Some? then d else Some(db.value.deltaD);
        p := if p.Some? then p else Some(db.value.deltaP);
        h := if h.Some? then h else Some(db.value.deltaH);
      }
    }
    if (d.None? || p.None? || h.None?) && t.solventData.Some? {
      d := if d.Some? then d else Some(t.solventData.value.deltaD);
      p := if p.Some? then p else Some(t.solventData.value.deltaP);
      h := if h.Some? then h else Some(t.solventData.value.deltaH);
    }
  }

  /** A test's solubility as the colour function receives it; the enum's
      members are strings equal to their values. */
  function ColorInput(s: Solubility): V.Solubility
  {
    match s
    case Category(t) => V.Label(SolubilityValue(t))
    case Numeric(x) => V.Number(x)
  }

  /** The record a test contributes: one when it has a name and all three
      coordinates resolved, none otherwise. */
  function EntryOf(t: SolventTest, db: Option<SolventData>): Option<V.SolventEntry>
  {
    var c := Resolved(t, db);
    if t.solventName != [] && c.0.Some? && c.1.Some? && c.2.Some? then
      Some(V.SolventEntry(c.0, c.1, c.2, Some(ColorInput(t.solubility)), Some(t.solventName)))
    else None
  }

  function EntryFor(lookup: string -> Option<SolventData>): SolventTest -> Option<V.SolventEntry>
  {
    (t: SolventTest) => EntryOf(t, lookup(t.solventName))
  }

  /** A test is plotted exactly when it has a name and all three
      coordinates resolve; its point then carries the resolved coordinates,
      its name and the colour of its solubility. */
  lemma EntryMeaning(t: SolventTest, db: Option<SolventData>)
    ensures EntryOf(t, db).Some? <==>
      t.solventName != [] && Resolved(t, db).0.Some? && Resolved(t, db).1.Some? && Resolved(t, db).2.Some?
    ensures EntryOf(t, db).Some? ==>
      && V.Plottable(EntryOf(t, db).value)
      && EntryOf(t, db).value.solventName == Some(t.solventName)
      && V.SolubilityColor(EntryOf(t, db).value.solubility.value) == V.SolubilityColor(ColorInput(t.solubility))
  {
  }

  /** Every prepared record is plotted, so the plot has one point per
      record. */
  lemma PreparedPlotted(tests: seq<SolventTest>, lookup: string -> Option<SolventData>)
    ensures Count(Collect(tests, EntryFor(lookup)), V.Plottable) == |Collect(tests, EntryFor(lookup))|
  {
    var entries := Collect(tests, EntryFor(lookup));
    CollectMeaning(tests, EntryFor(lookup));
    forall i | 0 <= i < |entries| ensures V.Plottable(entries[i]) {
      var j :| 0 <= j < |tests| && EntryFor(lookup)(tests[j]) == Some(entries[i]);
      EntryMeaning(tests[j], lookup(tests[j].solventName));
    }
    WhereAll(entries, V.Plottable);
    WhereMeaning(entries, V.Plottable);
  }

  /** The preparation loop; with nothing to plot the handler answers 400. */
  method PrepareSolventData(tests: seq<SolventTest>, lookup: string -> Option<SolventData>)
    returns (r: Result<seq<V.SolventEntry>>)
    ensures r.Err? <==> Collect(tests, EntryFor(lookup)) == []
    ensures r.Ok? ==> r.value == Collect(tests, EntryFor(lookup))
  {
    var solventData := [];
    for i := 0 to |tests|
      invariant solventData == Collect(tests[..i], EntryFor(lookup))
    {
      CollectStep(tests, i, EntryFor(lookup));
      var t := tests[i];
      var d, p, h := ResolveCoordinates(t, lookup);
      if t.solventName != [] && d.Some? && p.Some? && h.Some? {
        solventData := solventData + [V.SolventEntry(d, p, h, Some(ColorInput(t.solubility)), Some(t.solventName))];
      }
    }
    assert tests[..|tests|] == tests;
    if solventData == [] {
      return Err("No valid solvent data found. Ensure solvents have HSP values.");
    }
    r := Ok(solventData);
  }
}
