/**
 * app/services/data_manager.py: the store of experiments. Experiments are
 * JSON files in a directory and a cache maps ids to the experiment objects
 * loaded or saved in this process. File contents, the directory listing
 * in order of modification time (newest first), fresh ids and I/O failures
 * are parameters; timestamps, statistics and backups are not modelled.
 */
module DataManager {

  import opened Common
  import opened Text
  import opened TableIndex
  import opened HspModels

  // ------------------------------------------------------ list_experiments

  /** The keys of an experiment file that the listing reads; an absent key
      is None. */
  datatype StoredJson = StoredJson(
    sampleName: Option<string>,
    createdAt: Option<string>,
    updatedAt: Option<string>,
    experimenter: Option<string>,
    solventTests: Option<nat>,
    hasCalculatedHsp: bool,
    tags: Option<seq<string>>)

  /** A `*.json` file of the directory: its stem and, when it can be read
      as JSON, its contents. */
  datatype ExperimentFile = ExperimentFile(stem: string, content: Option<StoredJson>)

  /** The metadata dictionary `list_experiments` builds for one file. */
  datatype Summary = Summary(
    id: string,
    sampleName: string,
    createdAt: Option<string>,
    updatedAt: Option<string>,
    experimenter: Option<string>,
    numSolvents: nat,
    hasResults: bool,
    tags: seq<string>)

  function Default<T>(o: Option<T>, d: T): T
  {
    if o.Some? then o.value else d
  }

  /** The metadata of a file, with the defaults "Unknown", no solvent tests
      and no tags for absent keys; None for a file that cannot be read. */
  function SummaryOf(f: ExperimentFile): (r: Option<Summary>)
    ensures r.Some? <==> f.content.Some?
    ensures r.Some? ==> r.value.id == f.stem
  {
    match f.content
    case None => None
    case Some(j) =>
      Some(Summary(f.stem, Default(j.sampleName, "Unknown"), j.createdAt, j.updatedAt, j.experimenter,
                   Default(j.solventTests, 0), j.hasCalculatedHsp, Default(j.tags, [])))
  }

  /** `list_experiments` on the file list, newest first: the files
      `offset` to `offset + limit` are read, unreadable ones skipped. */
  function List(files: seq<ExperimentFile>, limit: nat, offset: nat): seq<Summary>
  {
    Collect(Slice(files, offset, offset + limit), SummaryOf)
  }

  /** The file at position `k` of the listing gave summary `s`. */
  predicate ReadFrom(files: seq<ExperimentFile>, k: int, s: Summary)
  {
    0 <= k < |files| && SummaryOf(files[k]) == Some(s) && s.id == files[k].stem
  }

  /** Some file of the page gave summary `s`. */
  ghost predicate OnPage(files: seq<ExperimentFile>, limit: nat, offset: nat, s: Summary)
  {
    exists k :: offset <= k < offset + limit && ReadFrom(files, k, s)
  }

  /** At most `limit` summaries, each read from a file at position `offset`
      or later and before `offset + limit`, carrying that file's stem as
      its id. */
  lemma ListMeaning(files: seq<ExperimentFile>, limit: nat, offset: nat)
    ensures |List(files, limit, offset)| <= limit
    ensures forall i :: 0 <= i < |List(files, limit, offset)| ==> OnPage(files, limit, offset, List(files, limit, offset)[i])
  {
    var page := Slice(files, offset, offset + limit);
    CollectMeaning(page, SummaryOf);
    var out := List(files, limit, offset);
    forall i | 0 <= i < |out| ensures OnPage(files, limit, offset, out[i]) {
      var j :| 0 <= j < |page| && SummaryOf(page[j]) == Some(out[i]);
      assert page[j] == files[offset + j];
      assert ReadFrom(files, offset + j, out[i]);
    }
  }

  /** When every file of the page can be read there is one summary per
      file of the page. */
  lemma ListComplete(files: seq<ExperimentFile>, limit: nat, offset: nat)
    requires offset <= |files| && forall k :: offset <= k < |files| ==> files[k].content.Some?
    ensures |List(files, limit, offset)| == (if offset + limit <= |files| then limit else |files| - offset)
  {
    var page := Slice(files, offset, offset + limit);
    forall j | 0 <= j < |page| ensures SummaryOf(page[j]).Some? {
      assert page[j] == files[offset + j];
    }
    CollectMeaning(page, SummaryOf);
  }

  /** The listing loop: the page sliced, each file read in turn. */
  method ListExperiments(files: seq<ExperimentFile>, limit: nat, offset: nat) returns (experiments: seq<Summary>)
    ensures experiments == List(files, limit, offset)
  {
    var page := Slice(files, offset, offset + limit);
    experiments := [];
    for i := 0 to |page|
      invariant experiments == Collect(page[..i], SummaryOf)
    {
      CollectStep(page, i, SummaryOf);
      var s := SummaryOf(page[i]);
      if s.Some? {
        experiments := experiments + [s.value];
      }
    }
    assert page[..|page|] == page;
  }

  // ---------------------------------------------------- search_experiments

  /** The optional filters of `search_experiments`. */
  datatype SearchQuery = SearchQuery(
    sampleName: Option<string>,
    experimenter: Option<string>,
    tags: Option<seq<string>>,
    hasResults: Option<bool>)

  /** A filter string is applied only when it is given and not empty. */
  predicate Given(s: Option<string>)
  {
    s.Some? && s.value != []
  }

  /** `any(tag.lower() in [t.lower() for t in exp_tags] for tag in tags)`. */
  function AnyTag(tags: seq<string>, expTags: seq<string>): bool
  {
    if |tags| == 0 then false else TagIn(Lower(tags[0]), expTags) || AnyTag(tags[1..], expTags)
  }

  function TagIn(tag: string, expTags: seq<string>): bool
  {
    if |expTags| == 0 then false else tag == Lower(expTags[0]) || TagIn(tag, expTags[1..])
  }

  /** Some requested tag equals some tag of the experiment, ignoring case. */
  predicate SharesTag(tags: seq<string>, expTags: seq<string>)
  {
    exists i, j :: 0 <= i < |tags| && 0 <= j < |expTags| && Lower(tags[i]) == Lower(expTags[j])
  }

  lemma {:induction false} TagInMeaning(tag: string, expTags: seq<string>)
    ensures TagIn(tag, expTags) <==> exists j :: 0 <= j < |expTags| && tag == Lower(expTags[j])
  {
    if |expTags| > 0 {
      TagInMeaning(tag, expTags[1..]);
      if exists j :: 0 <= j < |expTags| && tag == Lower(expTags[j]) {
        var j :| 0 <= j < |expTags| && tag == Lower(expTags[j]);
        if j > 0 { assert expTags[1..][j - 1] == expTags[j]; }
      }
    }
  }

  /** The tag test holds exactly when the experiment shares a tag with the
      request, case-insensitively. */
  lemma {:induction false} AnyTagMeaning(tags: seq<string>, expTags: seq<string>)
    ensures AnyTag(tags, expTags) <==> SharesTag(tags, expTags)
  {
    if |tags| > 0 {
      AnyTagMeaning(tags[1..], expTags);
      TagInMeaning(Lower(tags[0]), expTags);
      if SharesTag(tags, expTags) {
        var i, j :| 0 <= i < |tags| && 0 <= j < |expTags| && Lower(tags[i]) == Lower(expTags[j]);
        if i > 0 { assert tags[1..][i - 1] == tags[i]; }
      }
      if SharesTag(tags[1..], expTags) {
        var i, j :| 0 <= i < |tags[1..]| && 0 <= j < |expTags| && Lower(tags[1..][i]) == Lower(expTags[j]);
        assert tags[1..][i] == tags[i + 1];
      }
    }
  }

  /** The experiment passes every filter given. */
  predicate Matches(q: SearchQuery, e: Summary)
  {
    && (Given(q.sampleName) ==> Contains(Lower(e.sampleName), Lower(q.sampleName.value)))
    && (Given(q.experimenter) ==> Contains(Lower(Default(e.experimenter, "")), Lower(q.experimenter.value)))
    && (q.hasResults.Some? ==> e.hasResults == q.hasResults.value)
    && (q.tags.Some? && q.tags.value != [] ==> AnyTag(q.tags.value, e.tags))
  }

  function MatchesQuery(q: SearchQuery): Summary -> bool
  {
    e => Matches(q, e)
  }

  /** The filters read as the source states them: case-insensitive
      substring tests on the sample name and the experimenter, a missing
      experimenter searched as the empty string (so it fails any non-empty
      experimenter filter), equality on `has_results`, and a shared tag up
      to case; a query with no filter keeps every experiment. */
  lemma MatchesMeaning(q: SearchQuery, e: Summary)
    ensures Matches(q, e) <==>
      && (Given(q.sampleName) ==> Contains(Lower(e.sampleName), Lower(q.sampleName.value)))
      && (Given(q.experimenter) ==> e.experimenter.Some? && Contains(Lower(e.experimenter.value), Lower(q.experimenter.value)))
      && (q.hasResults.Some? ==> e.hasResults == q.hasResults.value)
      && (q.tags.Some? && q.tags.value != [] ==> SharesTag(q.tags.value, e.tags))
    ensures q == SearchQuery(None, None, None, None) ==> Matches(q, e)
  {
    if q.tags.Some? { AnyTagMeaning(q.tags.value, e.tags); }
    if Given(q.experimenter) && e.experimenter.None? {
      NothingInEmpty(Lower(q.experimenter.value));
    }
  }

  lemma NothingInEmpty(sub: string)
    requires sub != []
    ensures !Contains("", sub)
  {
  }

  /** `search_experiments`: the first thousand experiments listed, those
      passing every filter. */
  function Search(files: seq<ExperimentFile>, q: SearchQuery): seq<Summary>
  {
    Where(List(files, 1000, 0), MatchesQuery(q))
  }

  /** The result lists, in the listing's order, exactly the listed
      experiments that pass every filter. */
  lemma SearchMeaning(files: seq<ExperimentFile>, q: SearchQuery)
    ensures SubseqOf(Search(files, q), List(files, 1000, 0))
    ensures forall e :: e in Search(files, q) <==> e in List(files, 1000, 0) && Matches(q, e)
    ensures q == SearchQuery(None, None, None, None) ==> Search(files, q) == List(files, 1000, 0)
  {
    WhereSubseq(List(files, 1000, 0), MatchesQuery(q));
    WhereMeaning(List(files, 1000, 0), MatchesQuery(q));
    if q == SearchQuery(None, None, None, None) {
      WhereAll(List(files, 1000, 0), MatchesQuery(q));
    }
  }

  /** The search loop: each listed experiment goes through the filters one by one
      and appended when none rejects it. */
  method SearchExperiments(files: seq<ExperimentFile>, q: SearchQuery) returns (filtered: seq<Summary>)
    ensures filtered == Search(files, q)
  {
    var all := ListExperiments(files, 1000, 0);
    filtered := [];
    for i := 0 to |all|
      invariant filtered == Where(all[..i], MatchesQuery(q))
    {
      assert all[..i + 1][..i] == all[..i];
      var exp := all[i];
      var keep := true;
      if Given(q.sampleName) && !Contains(Lower(exp.sampleName), Lower(q.sampleName.value)) {
        keep := false;
      } else if Given(q.experimenter) && !Contains(Lower(Default(exp.experimenter, "")), Lower(q.experimenter.value)) {
        keep := false;
      } else if q.hasResults.Some? && exp.hasResults != q.hasResults.value {
        keep := false;
      } else if q.tags.Some? && q.tags.value != [] && !AnyTag(q.tags.value, exp.tags) {
        keep := false;
      }
      if keep {
        filtered := filtered + [exp];
      }
    }
    assert all[..|all|] == all;
  }

  // ---------------------------------------------------------------- cache

  /** `load_experiment` on the cache: a cached experiment is returned as it
      is; otherwise the experiment read from disk (None when the file is
      missing or does not validate) is returned and cached. */
  function CacheLoad(cache: map<string, HspExperimentData>, id: string, onDisk: Option<HspExperimentData>)
    : (Option<HspExperimentData>, map<string, HspExperimentData>)
  {
    if id in cache then (Some(cache[id]), cache)
    else if onDisk.Some? then (onDisk, cache[id := onDisk.value])
    else (None, cache)
  }

  /** The cache after `save_experiment` or a successful
      `update_experiment`. */
  function CacheStore(cache: map<string, HspExperimentData>, id: string, e: HspExperimentData): map<string, HspExperimentData>
  {
    cache[id := e]
  }

  /** The cache after a successful `delete_experiment`. */
  function CacheDelete(cache: map<string, HspExperimentData>, id: string): map<string, HspExperimentData>
  {
    cache - {id}
  }

  /** A cached experiment is returned whatever the disk holds, and the
      cache is left alone; a load that finds something caches it, so a
      second load returns the same object without reading the disk; no
      other id's entry changes. */
  lemma CacheLoadMeaning(cache: map<string, HspExperimentData>, id: string, onDisk: Option<HspExperimentData>, later: Option<HspExperimentData>)
    ensures id in cache ==> CacheLoad(cache, id, onDisk) == (Some(cache[id]), cache)
    ensures id !in cache ==> CacheLoad(cache, id, onDisk).0 == onDisk
    ensures CacheLoad(cache, id, onDisk).0.Some? ==>
      CacheLoad(CacheLoad(cache, id, onDisk).1, id, later) == CacheLoad(cache, id, onDisk)
    ensures forall k :: k != id ==> ((k in CacheLoad(cache, id, onDisk).1 <==> k in cache)
      && (k in cache ==> CacheLoad(cache, id, onDisk).1[k] == cache[k]))
  {
  }

  /** After a save or update the experiment stored is what a load returns;
      after a delete the id is gone from the cache, so a load reads the
      disk again and finds nothing once the file is gone; other ids keep
      their entries. */
  lemma CacheUpdateMeaning(cache: map<string, HspExperimentData>, id: string, e: HspExperimentData, onDisk: Option<HspExperimentData>)
    ensures CacheLoad(CacheStore(cache, id, e), id, onDisk).0 == Some(e)
    ensures id !in CacheDelete(cache, id)
    ensures CacheLoad(CacheDelete(cache, id), id, onDisk).0 == onDisk
    ensures forall k :: k != id ==> ((k in CacheDelete(cache, id) <==> k in cache)
      && (k in CacheStore(cache, id, e) <==> k in cache))
  {
  }

  /** The service object; only its cache is state. */
  class Manager {
    var cache: map<string, HspExperimentData>

    constructor ()
      ensures cache == map[]
    {
      cache := map[];
    }

    /** `save_experiment` under the fresh id generated for it; `ioError`
        says opening or writing the file raised. The exception propagates
        to the caller, modelled as None, and the cache is left alone. */
    method SaveExperiment(e: HspExperimentData, freshId: string, ioError: bool) returns (id: Option<string>)
      modifies this
      ensures id.Some? <==> !ioError
      ensures id.Some? ==> id.value == freshId && cache == CacheStore(old(cache), freshId, e)
      ensures id.None? ==> cache == old(cache)
    {
      if ioError {
        return None;
      }
      cache := cache[freshId := e];
      id := Some(freshId);
    }

    /** `load_experiment`. */
    method LoadExperiment(id: string, onDisk: Option<HspExperimentData>) returns (r: Option<HspExperimentData>)
      modifies this
      ensures (r, cache) == CacheLoad(old(cache), id, onDisk)
    {
      if id in cache {
        return Some(cache[id]);
      }
      if onDisk.None? {
        return None;
      }
      cache := cache[id := onDisk.value];
      r := onDisk;
    }

    /** `delete_experiment`; `ioError` says removing the file raised, in
        which case the cache is left alone and False returned. */
    method DeleteExperiment(id: string, ioError: bool) returns (ok: bool)
      modifies this
      ensures ok == !ioError
      ensures ok ==> cache == CacheDelete(old(cache), id)
      ensures !ok ==> cache == old(cache)
    {
      if ioError {
        return false;
      }
      cache := cache - {id};
      ok := true;
    }

    /** `update_experiment`: refused when no file has that id; `ioError`
        says writing the file raised. */
    method UpdateExperiment(id: string, e: HspExperimentData, fileExists: bool, ioError: bool) returns (ok: bool)
      modifies this
      ensures ok == (fileExists && !ioError)
      ensures ok ==> cache == CacheStore(old(cache), id, e)
      ensures !ok ==> cache == old(cache)
    {
      if !fileExists || ioError {
        return false;
      }
      cache := cache[id := e];
      ok := true;
    }

    /** `export_experiment`: the loaded experiment when the format is
        "json" in any case, else None. */
    method ExportExperiment(id: string, format: string, onDisk: Option<HspExperimentData>) returns (r: Option<HspExperimentData>)
      modifies this
      ensures cache == CacheLoad(old(cache), id, onDisk).1
      ensures r == (if Lower(format) == "json" then CacheLoad(old(cache), id, onDisk).0 else None)
    {
      var experiment := LoadExperiment(id, onDisk);
      if experiment.None? {
        return None;
      }
      r := if Lower(format) == "json" then experiment else None;
    }
  }
}
