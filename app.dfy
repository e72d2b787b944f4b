/** The service endpoints' own logic: the summary of the configured search
    terms, the choice of terms and parameters for a search request, the
    accumulation of per-term results in the background search, and the
    mapping of stored results to a response. */
module App {
  import opened Base
  import opened Strings
  import StorageManager

  /** One category of the configuration's `search_terms`, in file order.
      The configuration is a JSON object, so names are distinct in practice;
      should a name repeat, a lookup takes its first occurrence. */
  datatype Category = Category(name: string, terms: seq<string>)

  /** The parts of the configuration the endpoints read. */
  datatype Config = Config(searchTerms: seq<Category>, maxResultsPerTerm: int, dateRange: map<string, int>)

  /** A search request as the endpoint receives it. `None` is a field sent
      as JSON null, or omitted where its default is null; an omitted
      `max_results` arrives as `Some(100)`, its declared default. */
  datatype SearchRequest = SearchRequest(
    category: Option<string>,
    customTerms: Option<seq<string>>,
    maxResults: Option<int>,
    dateRange: Option<map<string, int>>)

  datatype TermsSummary = TermsSummary(categories: seq<string>, totalCategories: nat, totalTerms: nat)

  datatype SearchResponse = SearchResponse(searchId: string, status: string, totalResults: int, message: string)

  /** The arguments handed to the background search. */
  datatype SearchTask = SearchTask(searchId: string, terms: seq<string>, maxResults: int, dateRange: map<string, int>)

  datatype ResultsResponse =
    | Found(searchId: string, totalResults: nat, results: seq<Record>)
    | Failed(statusCode: int)

  function Names(cats: seq<Category>): seq<string> {
    MapSeq(cats, (c: Category) => c.name)
  }

  function TermCount(c: Category): int {
    |c.terms|
  }

  /** `config["search_terms"][name]` when the name is a key. */
  function TermsOf(cats: seq<Category>, name: string): (terms: Option<seq<string>>)
    ensures terms.Some? <==> exists i :: 0 <= i < |cats| && cats[i].name == name
    ensures terms.Some? ==> exists i :: 0 <= i < |cats| && cats[i].name == name && cats[i].terms == terms.value
  {
    if cats == [] then None
    else if cats[0].name == name then Some(cats[0].terms)
    else
      var rest := TermsOf(cats[1..], name);
      assert forall i :: 0 < i < |cats| ==> cats[i] == cats[1..][i - 1];
      rest
  }

  /** Every category's terms, concatenated in configuration order. */
  function AllTerms(cats: seq<Category>): seq<string> {
    if cats == [] then [] else AllTerms(cats[..|cats| - 1]) + cats[|cats| - 1].terms
  }

  /** `get_search_terms`. */
  function SearchTermsSummary(config: Config): (s: TermsSummary)
    ensures s.categories == Names(config.searchTerms)
    ensures s.totalCategories == |config.searchTerms|
    ensures s.totalTerms == |AllTerms(config.searchTerms)|
  {
    AllTermsLength(config.searchTerms);
    TermsSummary(Names(config.searchTerms), |config.searchTerms|, Sum(MapSeq(config.searchTerms, TermCount)))
  }

  /** `total_terms` counts exactly the terms an all-categories search runs. */
  lemma {:induction false} AllTermsLength(cats: seq<Category>)
    ensures |AllTerms(cats)| == Sum(MapSeq(cats, TermCount))
  {
    if cats != [] {
      var init := cats[..|cats| - 1];
      var last := cats[|cats| - 1];
      assert cats == init + [last];
      AllTermsLength(init);
      MapSeqSnoc(init, last, TermCount);
      SumSnoc(MapSeq(init, TermCount), TermCount(last));
    }
  }

  /** A term is searched in an all-categories search exactly when some
      category lists it. */
  lemma {:induction false} AllTermsMembers(cats: seq<Category>)
    ensures forall t :: t in AllTerms(cats) <==> exists i :: 0 <= i < |cats| && t in cats[i].terms
  {
    if cats != [] {
      var init := cats[..|cats| - 1];
      var last := cats[|cats| - 1];
      AllTermsMembers(init);
      forall t | t in AllTerms(cats)
        ensures exists i :: 0 <= i < |cats| && t in cats[i].terms
      {
        if t in AllTerms(init) {
          var i :| 0 <= i < |init| && t in init[i].terms;
          assert cats[i] == init[i];
        } else {
          assert t in cats[|cats| - 1].terms;
        }
      }
      forall t | exists i :: 0 <= i < |cats| && t in cats[i].terms
        ensures t in AllTerms(cats)
      {
        var i :| 0 <= i < |cats| && t in cats[i].terms;
        if i < |cats| - 1 {
          assert cats[i] == init[i];
        }
      }
    }
  }

  /** The loop of `search_pubmed` that extends the term list category by
      category. */
  method CollectAllTerms(cats: seq<Category>) returns (terms: seq<string>)
    ensures terms == AllTerms(cats)
  {
    terms := [];
    for i := 0 to |cats|
      invariant terms == AllTerms(cats[..i])
    {
      assert cats[..i + 1][..i] == cats[..i];
      terms := terms + cats[i].terms;
    }
    assert cats[..|cats|] == cats;
  }

  /** The declared default of `max_results`. */
  const DefaultMaxResults: int := 100

  /** `request.max_results or config[...]`: any falsy value (an explicit
      null or 0) falls back to the configured value. */
  function MaxResultsOf(req: SearchRequest, config: Config): (m: int)
    ensures req.maxResults.Some? && req.maxResults.value != 0 ==> m == req.maxResults.value
    ensures req.maxResults.None? || req.maxResults.value == 0 ==> m == config.maxResultsPerTerm
  {
    if req.maxResults.Some? && req.maxResults.value != 0 then req.maxResults.value else config.maxResultsPerTerm
  }

  /** A request that omits `max_results` searches for 100 results per term,
      whatever the configuration says. */
  lemma OmittedMaxResults(req: SearchRequest, config: Config)
    requires req.maxResults == Some(DefaultMaxResults)
    ensures MaxResultsOf(req, config) == 100
  {
  }

  /** `request.date_range or config[...]`: an absent or empty range falls
      back to the configured one. */
  function DateRangeOf(req: SearchRequest, config: Config): (r: map<string, int>)
    ensures req.dateRange.Some? && req.dateRange.value != map[] ==> r == req.dateRange.value
    ensures req.dateRange.None? || req.dateRange.value == map[] ==> r == config.dateRange
  {
    if req.dateRange.Some? && req.dateRange.value != map[] then req.dateRange.value else config.dateRange
  }

  /** `search_pubmed`: choose the terms (custom, else the named category,
      else every category), fill in the parameters and answer that the
      search has started. */
  method SearchPubmed(req: SearchRequest, config: Config, searchId: string)
    returns (resp: SearchResponse, task: SearchTask)
    ensures req.customTerms.Some? && req.customTerms.value != [] ==> task.terms == req.customTerms.value
    ensures !(req.customTerms.Some? && req.customTerms.value != []) && req.category.Some? && req.category.value != ""
              && TermsOf(config.searchTerms, req.category.value).Some? ==>
              task.terms == TermsOf(config.searchTerms, req.category.value).value
    ensures !(req.customTerms.Some? && req.customTerms.value != [])
              && !(req.category.Some? && req.category.value != "" && TermsOf(config.searchTerms, req.category.value).Some?) ==>
              task.terms == AllTerms(config.searchTerms)
    ensures task.searchId == searchId
    ensures task.maxResults == MaxResultsOf(req, config) && task.dateRange == DateRangeOf(req, config)
    ensures resp == SearchResponse(searchId, "started", 0, "Search initiated for " + NatToString(|task.terms|) + " terms")
  {
    var terms: seq<string>;
    if req.customTerms.Some? && req.customTerms.value != [] {
      terms := req.customTerms.value;
    } else if req.category.Some? && req.category.value != "" && TermsOf(config.searchTerms, req.category.value).Some? {
      terms := TermsOf(config.searchTerms, req.category.value).value;
    } else {
      terms := CollectAllTerms(config.searchTerms);
    }
    task := SearchTask(searchId, terms, MaxResultsOf(req, config), DateRangeOf(req, config));
    resp := SearchResponse(searchId, "started", 0, "Search initiated for " + NatToString(|terms|) + " terms");
  }

  /** The results of `perform_search`: each term's processed results in
      term order; `outcome(t)` is `None` for a term whose search or
      processing raised. */
  function Gathered(terms: seq<string>, outcome: string -> Option<seq<Record>>): seq<Record> {
    if terms == [] then [] else Gathered(terms[..|terms| - 1], outcome) + outcome(terms[|terms| - 1]).GetOr([])
  }

  function ResultCount(outcome: string -> Option<seq<Record>>): string -> int {
    t => |outcome(t).GetOr([])|
  }

  /** Every gathered result comes from a term that did not raise, and the
      total is the sum of the per-term counts. */
  lemma {:induction false} GatheredCharacterized(terms: seq<string>, outcome: string -> Option<seq<Record>>)
    ensures |Gathered(terms, outcome)| == Sum(MapSeq(terms, ResultCount(outcome)))
    ensures forall r :: r in Gathered(terms, outcome) ==>
      exists t :: t in terms && outcome(t).Some? && r in outcome(t).value
  {
    if terms != [] {
      var init := terms[..|terms| - 1];
      var last := terms[|terms| - 1];
      assert terms == init + [last];
      GatheredCharacterized(init, outcome);
      MapSeqSnoc(init, last, ResultCount(outcome));
      SumSnoc(MapSeq(init, ResultCount(outcome)), ResultCount(outcome)(last));
      forall r | r in Gathered(terms, outcome)
        ensures exists t :: t in terms && outcome(t).Some? && r in outcome(t).value
      {
        if r in Gathered(init, outcome) {
          var t :| t in init && outcome(t).Some? && r in outcome(t).value;
          assert t in terms;
        } else {
          assert last in terms;
        }
      }
    }
  }

  /** `perform_search`: run every term, keep going past a term that raises,
      then store everything gathered under the search id. `outcome(t)` is
      what `PubMedScraper.SearchArticles` followed by
      `DataProcessor.ProcessArticles` yields for term `t` (the network and
      the date range are not modelled), or `None` when either raised. */
  method PerformSearch(storage: StorageManager.Storage, task: SearchTask,
                       outcome: string -> Option<seq<Record>>, now: string) returns (all: seq<Record>)
    modifies storage
    ensures all == Gathered(task.terms, outcome)
    ensures storage.searchDir == old(storage.searchDir)[task.searchId + ".json" :=
              Some(StorageManager.SearchFile(task.searchId, |all|, now, all))]
    ensures storage.index == Some(StorageManager.Upserted(old(storage.index).GetOr([]), task.searchId, |all|, now))
    ensures storage.texts == old(storage.texts) && storage.metadata == old(storage.metadata) && storage.files == old(storage.files)
  {
    all := [];
    for i := 0 to |task.terms|
      invariant all == Gathered(task.terms[..i], outcome)
    {
      assert task.terms[..i + 1][..i] == task.terms[..i];
      var processed := outcome(task.terms[i]);
      if processed.Some? {
        all := all + processed.value;
      } else {
        assert all + [] == all;
      }
    }
    assert task.terms[..|task.terms|] == task.terms;
    var _ := storage.StoreResults(task.searchId, all, now);
  }

  /** `get_results`: the stored results, or status 500 when they are
      missing or empty (the 404 raised for that case is caught by the
      handler's own `except` and re-raised as a 500). */
  method GetResults(storage: StorageManager.Storage, searchId: string) returns (resp: ResultsResponse)
    ensures resp.Failed? <==>
      !(searchId + ".json" in storage.searchDir && storage.searchDir[searchId + ".json"].Some?
        && storage.searchDir[searchId + ".json"].value.results != [])
    ensures resp.Failed? ==> resp.statusCode == 500
    ensures resp.Found? ==>
      && resp.searchId == searchId
      && resp.results == storage.searchDir[searchId + ".json"].value.results
      && resp.totalResults == |resp.results|
  {
    var results := storage.GetResults(searchId);
    if results.None? || results.value == [] {
      resp := Failed(500);
    } else {
      resp := Found(searchId, |results.value|, results.value);
    }
  }
}
