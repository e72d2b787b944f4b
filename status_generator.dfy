/** The dashboard's aggregation: the processing stage of one article
    directory, the counters collected over all of them, and the per-day
    counts of processed articles. */
module StatusGenerator {
  import opened Base
  import opened Strings

  /** The `metadata/article.json` file of an article directory: missing,
      present but not valid JSON, or parsed. */
  datatype MetaFile = Absent | Unreadable | Parsed(r: Record)

  /** One entry of the articles directory. The three flags say whether
      `ocr/rag_chunks.json`, `fulltext/content.txt` and
      `abstract/content.txt` exist. */
  datatype ArticleDir = ArticleDir(
    name: string,
    isDir: bool,
    metadata: MetaFile,
    ragChunks: bool,
    fulltext: bool,
    abstractText: bool)

  /** One row of the recent-articles table. */
  datatype RecentEntry = RecentEntry(pmid: string, title: string, journal: string, date: string, stage: string)

  /** The articles processed on one day. */
  datatype DayCount = DayCount(date: string, count: nat)

  /** The counters of the dashboard. */
  datatype Metrics = Metrics(
    totalPmids: nat,
    stages: map<string, nat>,
    sources: map<string, nat>,
    categories: map<string, nat>,
    recent: seq<RecentEntry>,
    totalTextLength: int)

  const StageKeys: set<string> := {"metadata", "abstract", "fulltext", "ocr", "complete"}
  const SourceKeys: set<string> := {"pubmed_central", "arxiv", "sci_hub", "direct_pdf"}
  const MaxRecent: nat := 10
  const RecentTitleLength: nat := 100
  const DaysShown: nat := 7

  /** `_get_processing_stage`: the stage the metadata file records, else the
      furthest stage whose output file exists. */
  function ProcessingStage(d: ArticleDir): (stage: string)
    ensures d.metadata.Parsed? ==> stage == GetStr(d.metadata.r, "processing_stage", "metadata")
    ensures d.metadata.Unreadable? ==> stage == "metadata"
    ensures d.metadata.Absent? ==>
      && (stage == "complete" <==> d.ragChunks)
      && (stage == "fulltext" <==> !d.ragChunks && d.fulltext)
      && (stage == "abstract" <==> !d.ragChunks && !d.fulltext && d.abstractText)
      && (stage == "metadata" <==> !d.ragChunks && !d.fulltext && !d.abstractText)
  {
    match d.metadata
    case Parsed(r) => GetStr(r, "processing_stage", "metadata")
    case Unreadable => "metadata"
    case Absent =>
      if d.ragChunks then "complete"
      else if d.fulltext then "fulltext"
      else if d.abstractText then "abstract"
      else "metadata"
  }

  /** Without a metadata file, the stage is always one the dashboard counts. */
  lemma FileStageIsCounted(d: ArticleDir)
    requires !d.metadata.Parsed?
    ensures ProcessingStage(d) in StageKeys
  {
  }

  /** `_get_article_data` followed by the truthiness test: the parsed
      metadata when it is a non-empty object. */
  function ArticleData(d: ArticleDir): (data: Option<Record>)
    ensures data.Some? <==> d.metadata.Parsed? && d.metadata.r != map[]
  {
    if d.metadata.Parsed? && d.metadata.r != map[] then Some(d.metadata.r) else None
  }

  /** `counts[key] = counts.get(key, 0) + 1`. */
  function Bump(counts: map<string, nat>, key: string): (r: map<string, nat>)
    ensures r.Keys == counts.Keys + {key}
    ensures r[key] == (if key in counts then counts[key] else 0) + 1
    ensures forall k :: k in counts && k != key ==> r[k] == counts[k]
  {
    counts[key := (if key in counts then counts[key] else 0) + 1]
  }

  function SourceOf(r: Record): string {
    GetStr(r, "fulltext_source", "unknown")
  }

  function CategoryOf(r: Record): string {
    GetStr(r, "category", "unknown")
  }

  /** The recent-articles row of a directory with article data. */
  function RecentOf(d: ArticleDir): (e: Option<RecentEntry>)
    ensures e.Some? <==> ArticleData(d).Some?
    ensures e.Some? ==> |e.value.title| <= RecentTitleLength + 3
  {
    match ArticleData(d)
    case None => None
    case Some(r) =>
      Some(RecentEntry(d.name, Prefix(GetStr(r, "title", ""), RecentTitleLength) + "...",
                       GetStr(r, "journal", ""), GetStr(r, "publication_date", ""), ProcessingStage(d)))
  }

  const Initial: Metrics := Metrics(
    0,
    map k | k in StageKeys :: 0,
    map k | k in SourceKeys :: 0,
    map[],
    [],
    0)

  /** The body of the directory loop of `_get_metrics`, counter by counter:
      entries that are not directories are skipped, and only directories
      with article data reach the source, category, recent and length
      counters. */
  function Step(m: Metrics, d: ArticleDir): Metrics
  {
    Metrics(
      if d.isDir then m.totalPmids + 1 else m.totalPmids,
      StageStep(m.stages, d),
      SourceStep(m.sources, d),
      CategoryStep(m.categories, d),
      RecentStep(m.recent, d),
      TextLengthStep(m.totalTextLength, d))
  }

  function StageStep(stages: map<string, nat>, d: ArticleDir): map<string, nat> {
    if d.isDir && ProcessingStage(d) in stages then Bump(stages, ProcessingStage(d)) else stages
  }

  function SourceStep(sources: map<string, nat>, d: ArticleDir): map<string, nat> {
    if d.isDir && ArticleData(d).Some? && SourceOf(ArticleData(d).value) in sources
    then Bump(sources, SourceOf(ArticleData(d).value))
    else sources
  }

  function CategoryStep(categories: map<string, nat>, d: ArticleDir): map<string, nat> {
    if d.isDir && ArticleData(d).Some? then Bump(categories, CategoryOf(ArticleData(d).value)) else categories
  }

  function RecentStep(recent: seq<RecentEntry>, d: ArticleDir): seq<RecentEntry> {
    if d.isDir && ArticleData(d).Some? && |recent| < MaxRecent then recent + [RecentOf(d).value] else recent
  }

  function TextLengthStep(total: int, d: ArticleDir): int {
    if d.isDir && ArticleData(d).Some? then total + GetInt(ArticleData(d).value, "text_length", 0) else total
  }

  /** The counters after the loop has seen `dirs`, in listing order. */
  function MetricsOf(dirs: seq<ArticleDir>): Metrics
  {
    if dirs == [] then Initial else Step(MetricsOf(dirs[..|dirs| - 1]), dirs[|dirs| - 1])
  }

  /** The counting loop of `_get_metrics` over the listing of the articles
      directory; the per-day counts are collected separately. */
  method CollectMetrics(dirs: seq<ArticleDir>) returns (m: Metrics)
    ensures m == MetricsOf(dirs)
  {
    m := Initial;
    var i := 0;
    while i < |dirs|
      invariant 0 <= i <= |dirs|
      invariant m == MetricsOf(dirs[..i])
    {
      var d := dirs[i];
      assert dirs[..i + 1] == dirs[..i] + [d];
      MetricsSnoc(dirs[..i], d);
      m := CountEntry(m, d);
      i := i + 1;
    }
    assert dirs[..i] == dirs;
  }

  /** One pass of the loop body of `_get_metrics` over a directory entry. */
  method CountEntry(m: Metrics, d: ArticleDir) returns (next: Metrics)
    ensures next == Step(m, d)
  {
    var total, stages := m.totalPmids, m.stages;
    if d.isDir {
      total := total + 1;
      var stage := ProcessingStage(d);
      if stage in stages {
        stages := stages[stage := stages[stage] + 1];
      }
    }
    var sources, categories, recent, textLength := CountArticleData(m, d);
    next := Metrics(total, stages, sources, categories, recent, textLength);
  }

  /** The counters that only directories with article data reach. */
  method CountArticleData(m: Metrics, d: ArticleDir)
    returns (sources: map<string, nat>, categories: map<string, nat>, recent: seq<RecentEntry>, textLength: int)
    ensures sources == SourceStep(m.sources, d)
    ensures categories == CategoryStep(m.categories, d)
    ensures recent == RecentStep(m.recent, d)
    ensures textLength == TextLengthStep(m.totalTextLength, d)
  {
    sources, categories, recent, textLength := m.sources, m.categories, m.recent, m.totalTextLength;
    var data := ArticleData(d);
    if d.isDir && data.Some? {
      var r := data.value;
      var source := SourceOf(r);
      if source in sources {
        sources := sources[source := sources[source] + 1];
      }
      var category := CategoryOf(r);
      categories := categories[category := (if category in categories then categories[category] else 0) + 1];
      if |recent| < MaxRecent {
        recent := recent + [RecentOf(d).value];
      }
      textLength := textLength + GetInt(r, "text_length", 0);
    }
  }

  // The independent per-bucket definitions of the counters.

  predicate IsDirectory(d: ArticleDir) { d.isDir }

  function InStage(k: string): ArticleDir -> bool {
    (d: ArticleDir) => d.isDir && ProcessingStage(d) == k
  }

  function InSomeStage(d: ArticleDir): bool {
    d.isDir && ProcessingStage(d) in StageKeys
  }

  function FromSource(k: string): ArticleDir -> bool {
    (d: ArticleDir) => d.isDir && ArticleData(d).Some? && SourceOf(ArticleData(d).value) == k
  }

  function InCategory(c: string): ArticleDir -> bool {
    (d: ArticleDir) => d.isDir && ArticleData(d).Some? && CategoryOf(ArticleData(d).value) == c
  }

  function StageCount(dirs: seq<ArticleDir>, k: string): nat {
    |Filter(dirs, InStage(k))|
  }

  function SourceCount(dirs: seq<ArticleDir>, k: string): nat {
    |Filter(dirs, FromSource(k))|
  }

  function CategoryCount(dirs: seq<ArticleDir>, c: string): nat {
    |Filter(dirs, InCategory(c))|
  }

  function DataRow(d: ArticleDir): Option<RecentEntry> {
    if d.isDir then RecentOf(d) else None
  }

  function TextLengthOf(d: ArticleDir): Option<int> {
    if d.isDir && ArticleData(d).Some? then Some(GetInt(ArticleData(d).value, "text_length", 0)) else None
  }

  /** The five stage buckets added up. */
  function StagesTotal(stages: map<string, nat>): int
    requires StageKeys <= stages.Keys
  {
    stages["metadata"] + stages["abstract"] + stages["fulltext"] + stages["ocr"] + stages["complete"]
  }

  lemma {:induction false} MetricsSnoc(dirs: seq<ArticleDir>, d: ArticleDir)
    ensures MetricsOf(dirs + [d]) == Step(MetricsOf(dirs), d)
  {
    assert (dirs + [d])[..|dirs|] == dirs;
  }

  /** Every directory is counted once in `total_pmids`. */
  lemma {:induction false} TotalPmidsCount(dirs: seq<ArticleDir>)
    ensures MetricsOf(dirs).totalPmids == |Filter(dirs, IsDirectory)|
  {
    if dirs != [] {
      var init := dirs[..|dirs| - 1];
      var d := dirs[|dirs| - 1];
      assert dirs == init + [d];
      TotalPmidsCount(init);
      MetricsSnoc(init, d);
      FilterSnoc(init, d, IsDirectory);
    }
  }

  /** The stage buckets stay the five known stages, each counting the
      directories whose stage is its key. */
  lemma {:induction false} StageCounts(dirs: seq<ArticleDir>)
    ensures MetricsOf(dirs).stages.Keys == StageKeys
    ensures forall k :: k in StageKeys ==> MetricsOf(dirs).stages[k] == StageCount(dirs, k)
  {
    if dirs != [] {
      var init := dirs[..|dirs| - 1];
      var d := dirs[|dirs| - 1];
      assert dirs == init + [d];
      StageCounts(init);
      MetricsSnoc(init, d);
      forall k | k in StageKeys
        ensures MetricsOf(dirs).stages[k] == StageCount(dirs, k)
      {
        FilterSnoc(init, d, InStage(k));
      }
    }
  }

  /** The stage buckets add up to the directories whose stage is one of the
      five known ones, so never to more than `total_pmids`. */
  lemma {:induction false} StagesTotalBounded(dirs: seq<ArticleDir>)
    ensures MetricsOf(dirs).stages.Keys == StageKeys
    ensures StagesTotal(MetricsOf(dirs).stages) == |Filter(dirs, InSomeStage)|
    ensures StagesTotal(MetricsOf(dirs).stages) <= MetricsOf(dirs).totalPmids
  {
    if dirs != [] {
      var init := dirs[..|dirs| - 1];
      var d := dirs[|dirs| - 1];
      assert dirs == init + [d];
      StagesTotalBounded(init);
      MetricsSnoc(init, d);
      StageStepTotal(MetricsOf(init).stages, d);
      FilterSnoc(init, d, InSomeStage);
    }
  }

  /** One directory adds one to the stage total exactly when its stage is
      one of the five known ones. */
  lemma StageStepTotal(stages: map<string, nat>, d: ArticleDir)
    requires stages.Keys == StageKeys
    ensures StageStep(stages, d).Keys == StageKeys
    ensures StagesTotal(StageStep(stages, d)) == StagesTotal(stages) + (if InSomeStage(d) then 1 else 0)
  {
  }

  /** A directory whose recorded stage is `metadata_abstract` (the stage the
      abstract-only path writes) adds to `total_pmids` but to no stage
      bucket. */
  lemma MetadataAbstractUncounted(dirs: seq<ArticleDir>, d: ArticleDir)
    requires d.isDir && ProcessingStage(d) == "metadata_abstract"
    ensures MetricsOf(dirs + [d]).totalPmids == MetricsOf(dirs).totalPmids + 1
    ensures MetricsOf(dirs + [d]).stages == MetricsOf(dirs).stages
  {
    MetricsSnoc(dirs, d);
    StagesTotalBounded(dirs);
  }

  /** The source buckets stay the four known sources, each counting the
      directories with article data whose `fulltext_source` is its key. */
  lemma {:induction false} SourceCounts(dirs: seq<ArticleDir>)
    ensures MetricsOf(dirs).sources.Keys == SourceKeys
    ensures forall k :: k in SourceKeys ==> MetricsOf(dirs).sources[k] == SourceCount(dirs, k)
  {
    if dirs != [] {
      var init := dirs[..|dirs| - 1];
      var d := dirs[|dirs| - 1];
      assert dirs == init + [d];
      SourceCounts(init);
      MetricsSnoc(init, d);
      forall k | k in SourceKeys
        ensures MetricsOf(dirs).sources[k] == SourceCount(dirs, k)
      {
        FilterSnoc(init, d, FromSource(k));
      }
    }
  }

  /** A category appears exactly when some directory with article data has
      it (a missing one reads as 'unknown'), and its count is the number of
      such directories. */
  lemma {:induction false} CategoryCounts(dirs: seq<ArticleDir>)
    ensures forall c :: c in MetricsOf(dirs).categories <==> CategoryCount(dirs, c) > 0
    ensures forall c :: c in MetricsOf(dirs).categories ==> MetricsOf(dirs).categories[c] == CategoryCount(dirs, c)
  {
    if dirs != [] {
      var init := dirs[..|dirs| - 1];
      var d := dirs[|dirs| - 1];
      assert dirs == init + [d];
      CategoryCounts(init);
      MetricsSnoc(init, d);
      var cats := MetricsOf(dirs).categories;
      assert cats == CategoryStep(MetricsOf(init).categories, d);
      forall c
        ensures c in cats <==> CategoryCount(dirs, c) > 0
        ensures c in cats ==> cats[c] == CategoryCount(dirs, c)
      {
        FilterSnoc(init, d, InCategory(c));
      }
    }
  }

  /** The recent articles are the first ten rows of the directories with
      article data, in listing order. */
  lemma {:induction false} RecentArePrefix(dirs: seq<ArticleDir>)
    ensures MetricsOf(dirs).recent == Prefix(FilterMap(dirs, DataRow), MaxRecent)
    ensures |MetricsOf(dirs).recent| <= MaxRecent
  {
    if dirs != [] {
      var init := dirs[..|dirs| - 1];
      var d := dirs[|dirs| - 1];
      assert dirs == init + [d];
      RecentArePrefix(init);
      MetricsSnoc(init, d);
      FilterMapSnoc(init, d, DataRow);
      var rows := FilterMap(init, DataRow);
      if |rows| < MaxRecent && DataRow(d).Some? {
        assert Prefix(rows + [DataRow(d).value], MaxRecent) == rows + [DataRow(d).value];
      } else if DataRow(d).Some? {
        assert Prefix(rows + [DataRow(d).value], MaxRecent) == Prefix(rows, MaxRecent);
      }
    }
  }

  /** `total_text_length` is the sum of `text_length` over the directories
      with article data. */
  lemma {:induction false} TextLengthTotal(dirs: seq<ArticleDir>)
    ensures MetricsOf(dirs).totalTextLength == Sum(FilterMap(dirs, TextLengthOf))
  {
    if dirs != [] {
      var init := dirs[..|dirs| - 1];
      var d := dirs[|dirs| - 1];
      assert dirs == init + [d];
      TextLengthTotal(init);
      MetricsSnoc(init, d);
      FilterMapSnoc(init, d, TextLengthOf);
      if d.isDir && ArticleData(d).Some? {
        var x := GetInt(ArticleData(d).value, "text_length", 0);
        assert TextLengthOf(d) == Some(x);
        assert FilterMap(dirs, TextLengthOf) == FilterMap(init, TextLengthOf) + [x];
        SumSnoc(FilterMap(init, TextLengthOf), x);
        assert MetricsOf(dirs).totalTextLength == MetricsOf(init).totalTextLength + x;
      } else {
        assert TextLengthOf(d) == None;
        assert FilterMap(dirs, TextLengthOf) == FilterMap(init, TextLengthOf) + [];
        assert FilterMap(init, TextLengthOf) + [] == FilterMap(init, TextLengthOf);
        assert MetricsOf(dirs).totalTextLength == MetricsOf(init).totalTextLength;
      }
    }
  }

  /** The directories counted for a day: those with a readable metadata
      file whose `processed_at` contains the date. */
  function ProcessedOn(date: string): ArticleDir -> bool {
    (d: ArticleDir) => d.isDir && d.metadata.Parsed? && Contains(GetStr(d.metadata.r, "processed_at", ""), date)
  }

  function CountOn(dirs: seq<ArticleDir>, date: string): nat {
    |Filter(dirs, ProcessedOn(date))|
  }

  /** The inner loop of `_get_daily_stats`. */
  method CountProcessedOn(dirs: seq<ArticleDir>, date: string) returns (count: nat)
    ensures count == CountOn(dirs, date)
    ensures count <= |dirs|
  {
    count := 0;
    var i := 0;
    while i < |dirs|
      invariant 0 <= i <= |dirs|
      invariant count == CountOn(dirs[..i], date)
      invariant count <= i
    {
      var d := dirs[i];
      assert dirs[..i + 1] == dirs[..i] + [d];
      FilterSnoc(dirs[..i], d, ProcessedOn(date));
      if d.isDir && d.metadata.Parsed? && Contains(GetStr(d.metadata.r, "processed_at", ""), date) {
        count := count + 1;
      }
      i := i + 1;
    }
    assert dirs[..i] == dirs;
  }

  /** `_get_daily_stats`: one count per day, today first. `dayString(i)` is
      the date `i` days before today, as the source formats it. */
  method DailyStats(dirs: seq<ArticleDir>, dayString: nat -> string) returns (stats: seq<DayCount>)
    ensures |stats| == DaysShown
    ensures forall i :: 0 <= i < DaysShown ==>
      stats[i] == DayCount(dayString(i), CountOn(dirs, dayString(i)))
    ensures forall i :: 0 <= i < DaysShown ==> stats[i].count <= |dirs|
  {
    stats := [];
    var i := 0;
    while i < DaysShown
      invariant 0 <= i <= DaysShown
      invariant |stats| == i
      invariant forall j :: 0 <= j < i ==> stats[j] == DayCount(dayString(j), CountOn(dirs, dayString(j)))
      invariant forall j :: 0 <= j < i ==> stats[j].count <= |dirs|
    {
      var date := dayString(i);
      var count := CountProcessedOn(dirs, date);
      stats := stats + [DayCount(date, count)];
      i := i + 1;
    }
  }
}
