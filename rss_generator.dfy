/** The feed generator: which stored articles a feed holds and in what
    order, the fields of one feed item, the blank-line filter applied to the
    rendered XML, the order of the generated feed files and the item count
    of the commit message. */
module RssGenerator {
  import opened Base
  import opened Strings
  import opened Sorting
  import StatusGenerator

  type ArticleDir = StatusGenerator.ArticleDir

  const MaxDescription: nat := 500

  /** The categories that get a feed of their own, in generation order. */
  const FeedCategories: seq<string> := [
    "cannabis_formulation", "extraction_methods", "terpenes", "cannabinoids",
    "pharmaceutical_formulation", "stability_testing", "analytical_methods", "regulatory"]

  // ---------------------------------------------------------------------
  // Selecting articles

  /** `_load_article_metadata` with the truthiness test: the metadata of a
      directory when it is readable and non-empty. */
  function Loaded(d: ArticleDir): Option<Record> {
    if d.isDir then StatusGenerator.ArticleData(d) else None
  }

  /** The sort key of both article lists. */
  function ProcessedAt(r: Record): string {
    GetStr(r, "processed_at", "")
  }

  /** `_get_recent_articles`' test: a non-empty `processed_at` that parses
      (the `Z` suffix rewrite is part of `parse`) to a time at or after the
      cutoff. */
  function RecentSince(cutoff: int, parse: string -> Option<int>): Record -> bool {
    (r: Record) => ProcessedAt(r) != "" && parse(ProcessedAt(r)).Some? && parse(ProcessedAt(r)).value >= cutoff
  }

  /** `_get_articles_by_category`' test: the stored category equals the name
      (a missing category is `None`, which equals no name). */
  function InCategory(category: string): Record -> bool {
    (r: Record) => "category" in r && r["category"] == Str(category)
  }

  /** The selected articles, newest first. */
  function Selected(dirs: seq<ArticleDir>, keep: Record -> bool): seq<Record> {
    NewestFirst(Filter(FilterMap(dirs, Loaded), keep), ProcessedAt)
  }

  /** The loop shared by `_get_recent_articles` and
      `_get_articles_by_category`: keep the loaded articles that pass, then
      sort them newest first. */
  method CollectArticles(dirs: seq<ArticleDir>, keep: Record -> bool) returns (articles: seq<Record>)
    ensures articles == Selected(dirs, keep)
    ensures SortedDesc(articles, ProcessedAt)
    ensures multiset(articles) == multiset(Filter(FilterMap(dirs, Loaded), keep))
  {
    var found: seq<Record> := [];
    var i := 0;
    while i < |dirs|
      invariant 0 <= i <= |dirs|
      invariant found == Filter(FilterMap(dirs[..i], Loaded), keep)
    {
      var d := dirs[i];
      assert dirs[..i + 1] == dirs[..i] + [d];
      FilterMapSnoc(dirs[..i], d, Loaded);
      var loaded := FilterMap(dirs[..i], Loaded);
      if d.isDir {
        var data := StatusGenerator.ArticleData(d);
        if data.Some? {
          FilterSnoc(loaded, data.value, keep);
          if keep(data.value) {
            found := found + [data.value];
          }
        } else {
          assert loaded + [] == loaded;
        }
      } else {
        assert loaded + [] == loaded;
      }
      i := i + 1;
    }
    assert dirs[..i] == dirs;
    articles := SortNewestFirst(found, ProcessedAt);
  }

  /** The selection holds exactly the loaded articles that pass the test. */
  lemma SelectedCharacterized(dirs: seq<ArticleDir>, keep: Record -> bool)
    ensures SortedDesc(Selected(dirs, keep), ProcessedAt)
    ensures forall r :: r in Selected(dirs, keep) <==> r in FilterMap(dirs, Loaded) && keep(r)
  {
    var passed := Filter(FilterMap(dirs, Loaded), keep);
    NewestFirstSortedPermutation(passed, ProcessedAt);
    FilterCharacterized(FilterMap(dirs, Loaded), keep);
    forall r
      ensures r in Selected(dirs, keep) <==> r in passed
    {
      assert r in Selected(dirs, keep) <==> r in multiset(Selected(dirs, keep));
      assert r in passed <==> r in multiset(passed);
    }
  }

  /** `_get_recent_articles`. */
  method RecentArticles(dirs: seq<ArticleDir>, cutoff: int, parse: string -> Option<int>)
    returns (articles: seq<Record>)
    ensures articles == Selected(dirs, RecentSince(cutoff, parse))
    ensures SortedDesc(articles, ProcessedAt)
    ensures forall r :: r in articles <==> r in FilterMap(dirs, Loaded) && RecentSince(cutoff, parse)(r)
  {
    articles := CollectArticles(dirs, RecentSince(cutoff, parse));
    SelectedCharacterized(dirs, RecentSince(cutoff, parse));
  }

  /** `_get_articles_by_category`. */
  method ArticlesByCategory(dirs: seq<ArticleDir>, category: string) returns (articles: seq<Record>)
    ensures articles == Selected(dirs, InCategory(category))
    ensures SortedDesc(articles, ProcessedAt)
    ensures forall r :: r in articles <==> r in FilterMap(dirs, Loaded) && r.Keys >= {"category"} && r["category"] == Str(category)
  {
    articles := CollectArticles(dirs, InCategory(category));
    SelectedCharacterized(dirs, InCategory(category));
  }

  // ---------------------------------------------------------------------
  // One feed item

  /** The clock-dependent parts of an item: `parse` reads an ISO timestamp,
      `format` renders a time as an RSS date, `now` is the current time. */
  datatype Clock = Clock(now: int, parse: string -> Option<int>, format: int -> string)

  /** The children of one `<item>` element; an absent author or category
      element is `None`. */
  datatype Item = Item(
    title: string,
    link: string,
    description: string,
    guid: string,
    pubDate: string,
    author: Option<string>,
    category: Option<string>)

  /** The description: the abstract, cut to 500 characters plus an
      ellipsis when longer. */
  function Description(summary: string): (d: string)
    ensures |d| <= MaxDescription + 3
    ensures |summary| <= MaxDescription ==> d == summary
    ensures |summary| > MaxDescription ==>
      |d| == MaxDescription + 3 && d[..MaxDescription] == summary[..MaxDescription] && d[MaxDescription..] == "..."
  {
    if |summary| > MaxDescription then summary[..MaxDescription] + "..." else summary
  }

  /** The link: the stored url if there is one, else the PubMed page. */
  function Link(r: Record): (link: string)
    ensures "url" !in r ==> link == "https://pubmed.ncbi.nlm.nih.gov/" + GetStr(r, "pmid", "") + "/"
  {
    GetStr(r, "url", "https://pubmed.ncbi.nlm.nih.gov/" + GetStr(r, "pmid", "") + "/")
  }

  /** The GUID: the pmid behind a fixed prefix. */
  function Guid(r: Record): (guid: string)
    ensures StartsWith(guid, "pmid:") && guid[5..] == GetStr(r, "pmid", "")
  {
    "pmid:" + GetStr(r, "pmid", "")
  }

  /** The author element: none without authors, the only author, or the
      first author followed by "et al.". */
  function AuthorLabel(authors: seq<string>): (shown: Option<string>)
    ensures shown.None? <==> authors == []
    ensures |authors| == 1 ==> shown == Some(authors[0])
    ensures |authors| > 1 ==> shown.Some? && StartsWith(shown.value, authors[0]) && shown.value[|authors[0]|..] == " et al."
  {
    if authors == [] then None
    else if |authors| == 1 then Some(authors[0])
    else Some(authors[0] + " et al.")
  }

  /** The category element: none for an empty category, else the category
      with underscores turned into spaces, title-cased. */
  function CategoryLabel(category: string): (shown: Option<string>)
    ensures shown.None? <==> category == ""
    ensures shown.Some? ==> |shown.value| == |category| && '_' !in shown.value
    ensures shown.Some? ==> forall i :: 0 <= i < |category| ==>
      LowerChar(shown.value[i]) == LowerChar(if category[i] == '_' then ' ' else category[i])
  {
    if category == "" then None
    else
      var spaced := ReplaceChar(category, '_', ' ');
      TitleFromCaseOnly(spaced, false);
      assert forall i :: 0 <= i < |spaced| && spaced[i] == '_' ==> false;
      Some(TitleCase(spaced))
  }

  /** The publication date: the parsed `processed_at`, or the current time
      when it is missing or does not parse. */
  function PubDate(r: Record, clock: Clock): (date: string)
    ensures ProcessedAt(r) == "" ==> date == clock.format(clock.now)
  {
    var processed := ProcessedAt(r);
    if processed != "" && clock.parse(processed).Some? then clock.format(clock.parse(processed).value)
    else clock.format(clock.now)
  }

  /** `_add_article_to_rss`, without the float relevance element. */
  function ItemOf(r: Record, clock: Clock): (item: Item)
    ensures |item.description| <= MaxDescription + 3
    ensures item.guid == "pmid:" + GetStr(r, "pmid", "")
    ensures item.author.None? <==> GetList(r, "authors") == []
    ensures item.category.None? <==> GetStr(r, "category", "") == ""
  {
    Item(
      GetStr(r, "title", "Untitled"),
      Link(r),
      Description(GetStr(r, "abstract", "")),
      Guid(r),
      PubDate(r, clock),
      AuthorLabel(GetList(r, "authors")),
      CategoryLabel(GetStr(r, "category", "")))
  }

  // ---------------------------------------------------------------------
  // Saving and counting

  predicate NonBlank(line: string) {
    Strip(line) != ""
  }

  /** The filter of `_save_rss_feed`: the rendered XML without the lines
      that are empty or all whitespace. */
  function DropBlankLines(xml: string): string {
    Join("\n", Filter(SplitOn(xml, '\n'), NonBlank))
  }

  /** The saved text has no blank line: either it is empty, or its lines
      are exactly the non-blank lines of the rendered XML, in order. */
  lemma DropBlankLinesKeepsNonBlank(xml: string)
    ensures var kept := Filter(SplitOn(xml, '\n'), NonBlank);
      (kept == [] && DropBlankLines(xml) == "") ||
      (SplitOn(DropBlankLines(xml), '\n') == kept && forall k :: 0 <= k < |kept| ==> NonBlank(kept[k]))
  {
    var lines := SplitOn(xml, '\n');
    var kept := Filter(lines, NonBlank);
    FilterCharacterized(lines, NonBlank);
    if kept != [] {
      SplitByPiecesFree(xml, x => x == '\n');
      forall k | 0 <= k < |kept|
        ensures '\n' !in kept[k] && NonBlank(kept[k])
      {
        assert kept[k] in lines;
        var j :| 0 <= j < |lines| && lines[j] == kept[k];
        assert forall i :: 0 <= i < |lines[j]| ==> lines[j][i] != '\n';
      }
      SplitOnJoin(kept, '\n');
    }
  }

  /** The item total of `_commit_rss_feeds`: the `<item>` occurrences over
      the feed files that exist. */
  function ItemTotal(contents: seq<Option<string>>): nat {
    if contents == [] then 0
    else ItemTotal(contents[..|contents| - 1]) + match contents[|contents| - 1]
      case None => 0
      case Some(text) => Count(text, "<item>")
  }

  method CountItems(contents: seq<Option<string>>) returns (total: nat)
    ensures total == ItemTotal(contents)
  {
    total := 0;
    var i := 0;
    while i < |contents|
      invariant 0 <= i <= |contents|
      invariant total == ItemTotal(contents[..i])
    {
      assert contents[..i + 1][..i] == contents[..i];
      if contents[i].Some? {
        total := total + Count(contents[i].value, "<item>");
      }
      i := i + 1;
    }
    assert contents[..i] == contents;
  }

  /** The total is zero exactly when no existing feed file holds an item. */
  lemma {:induction false} ItemTotalZeroIff(contents: seq<Option<string>>)
    ensures ItemTotal(contents) == 0 <==>
      forall k :: 0 <= k < |contents| && contents[k].Some? ==> !Contains(contents[k].value, "<item>")
  {
    if contents != [] {
      var init := contents[..|contents| - 1];
      ItemTotalZeroIff(init);
      var last := contents[|contents| - 1];
      if last.Some? {
        CountPositiveIffContains(last.value, "<item>");
      }
      assert forall k :: 0 <= k < |init| ==> init[k] == contents[k];
    }
  }

  // ---------------------------------------------------------------------
  // The generated feeds

  function FeedPath(rssDir: string, file: string): string {
    rssDir + "/" + file
  }

  function CategoryFeedPath(rssDir: string, category: string): string {
    FeedPath(rssDir, category + ".xml")
  }

  /** Every file `generate_rss_feeds` can report, in its order. */
  function AllFeedPaths(rssDir: string): seq<string> {
    [FeedPath(rssDir, "feed.xml")]
    + MapSeq(FeedCategories, c => CategoryFeedPath(rssDir, c))
    + [FeedPath(rssDir, "daily.xml"), FeedPath(rssDir, "index.html")]
  }

  /** The inputs of one generation run: the article directories, the
      cutoffs of the main (30 days back) and daily (start of today) feeds,
      the timestamp parser, and whether the index page could be written. */
  datatype Run = Run(dirs: seq<ArticleDir>, monthAgo: int, todayStart: int, parse: string -> Option<int>, indexWritten: bool)

  /** Some loaded article passes the test. */
  predicate HasArticles(dirs: seq<ArticleDir>, keep: Record -> bool) {
    Filter(FilterMap(dirs, Loaded), keep) != []
  }

  /** Sorting neither creates nor loses articles. */
  lemma SelectedEmpty(dirs: seq<ArticleDir>, keep: Record -> bool)
    ensures Selected(dirs, keep) == [] <==> !HasArticles(dirs, keep)
  {
    var passed := Filter(FilterMap(dirs, Loaded), keep);
    NewestFirstSortedPermutation(passed, ProcessedAt);
    assert |multiset(Selected(dirs, keep))| == |Selected(dirs, keep)|;
    assert |multiset(passed)| == |passed|;
  }

  /** Which feeds have articles in a run: the main feed, each category's
      feed and the daily feed. */
  datatype Filled = Filled(main: bool, category: string -> bool, daily: bool)

  function FilledIn(run: Run): Filled {
    Filled(
      HasArticles(run.dirs, RecentSince(run.monthAgo, run.parse)),
      c => HasArticles(run.dirs, InCategory(c)),
      HasArticles(run.dirs, RecentSince(run.todayStart, run.parse)))
  }

  function CategoryFeed(filled: Filled, rssDir: string): string -> Option<string> {
    c => if filled.category(c) then Some(CategoryFeedPath(rssDir, c)) else None
  }

  /** `[x]` when the condition holds, else nothing. */
  function When(cond: bool, x: string): seq<string> {
    if cond then [x] else []
  }

  lemma WhenSubsequence(cond: bool, x: string)
    ensures IsSubsequence(When(cond, x), [x])
  {
    SubsequenceOfSelf([x]);
  }

  function CategoryPart(filled: Filled, rssDir: string, categories: seq<string>): seq<string> {
    FilterMap(categories, CategoryFeed(filled, rssDir))
  }

  /** The feed files reported: each feed only when it has articles, the
      index only when it was written. */
  function Feeds(filled: Filled, indexWritten: bool, rssDir: string): seq<string> {
    LeadingFeeds(filled, rssDir) + TrailingFeeds(filled, indexWritten, rssDir)
  }

  /** The main feed, then the category feeds. */
  function LeadingFeeds(filled: Filled, rssDir: string): seq<string> {
    When(filled.main, FeedPath(rssDir, "feed.xml")) + CategoryPart(filled, rssDir, FeedCategories)
  }

  /** The daily feed, then the index. */
  function TrailingFeeds(filled: Filled, indexWritten: bool, rssDir: string): seq<string> {
    When(filled.daily, FeedPath(rssDir, "daily.xml")) + When(indexWritten, FeedPath(rssDir, "index.html"))
  }

  /** `_generate_main_feed`: the feed file when the last 30 days have
      articles. */
  method GenerateMainFeed(run: Run, rssDir: string) returns (path: Option<string>)
    ensures path == if FilledIn(run).main then Some(FeedPath(rssDir, "feed.xml")) else None
  {
    var articles := RecentArticles(run.dirs, run.monthAgo, run.parse);
    SelectedEmpty(run.dirs, RecentSince(run.monthAgo, run.parse));
    if articles == [] {
      return None;
    }
    return Some(FeedPath(rssDir, "feed.xml"));
  }

  /** `_generate_daily_feed`: the feed file when today has articles. */
  method GenerateDailyFeed(run: Run, rssDir: string) returns (path: Option<string>)
    ensures path == if FilledIn(run).daily then Some(FeedPath(rssDir, "daily.xml")) else None
  {
    var articles := RecentArticles(run.dirs, run.todayStart, run.parse);
    SelectedEmpty(run.dirs, RecentSince(run.todayStart, run.parse));
    if articles == [] {
      return None;
    }
    return Some(FeedPath(rssDir, "daily.xml"));
  }

  /** `generate_rss_feeds` building its list of files step by step. */
  method GenerateFeeds(run: Run, rssDir: string) returns (feeds: seq<string>)
    ensures feeds == Feeds(FilledIn(run), run.indexWritten, rssDir)
  {
    feeds := MainAndCategoryFeeds(run, rssDir);
    var trailing := DailyAndIndexFeeds(run, rssDir);
    feeds := feeds + trailing;
  }

  /** The first half of `generate_rss_feeds`: the main feed, then the
      category feeds. */
  method MainAndCategoryFeeds(run: Run, rssDir: string) returns (feeds: seq<string>)
    ensures feeds == LeadingFeeds(FilledIn(run), rssDir)
  {
    feeds := [];
    var main := GenerateMainFeed(run, rssDir);
    if main.Some? {
      feeds := feeds + [main.value];
    }
    var categoryFeeds := CategoryFeeds(run, rssDir, FeedCategories);
    feeds := feeds + categoryFeeds;
  }

  /** The second half of `generate_rss_feeds`: the daily feed, then the
      index page. */
  method DailyAndIndexFeeds(run: Run, rssDir: string) returns (feeds: seq<string>)
    ensures feeds == TrailingFeeds(FilledIn(run), run.indexWritten, rssDir)
  {
    feeds := [];
    var daily := GenerateDailyFeed(run, rssDir);
    if daily.Some? {
      feeds := feeds + [daily.value];
    }
    if run.indexWritten {
      feeds := feeds + [FeedPath(rssDir, "index.html")];
    }
  }

  /** The loop of `_generate_category_feeds` over the given categories. */
  method CategoryFeeds(run: Run, rssDir: string, categories: seq<string>) returns (feeds: seq<string>)
    ensures feeds == CategoryPart(FilledIn(run), rssDir, categories)
  {
    ghost var filled := FilledIn(run);
    feeds := [];
    var i := 0;
    while i < |categories|
      invariant 0 <= i <= |categories|
      invariant feeds == FilterMap(categories[..i], CategoryFeed(filled, rssDir))
    {
      var category := categories[i];
      assert categories[..i + 1] == categories[..i] + [category];
      FilterMapSnoc(categories[..i], category, CategoryFeed(filled, rssDir));
      var articles := ArticlesByCategory(run.dirs, category);
      SelectedEmpty(run.dirs, InCategory(category));
      if articles != [] {
        feeds := feeds + [CategoryFeedPath(rssDir, category)];
      }
      i := i + 1;
    }
    assert categories[..i] == categories;
  }

  /** The reported files keep the fixed order main, the eight categories,
      daily, index. */
  lemma FeedsInFixedOrder(filled: Filled, indexWritten: bool, rssDir: string)
    ensures IsSubsequence(Feeds(filled, indexWritten, rssDir), AllFeedPaths(rssDir))
  {
    var leadingAll := [FeedPath(rssDir, "feed.xml")] + MapSeq(FeedCategories, c => CategoryFeedPath(rssDir, c));
    var trailingAll := [FeedPath(rssDir, "daily.xml"), FeedPath(rssDir, "index.html")];
    LeadingInOrder(filled, rssDir);
    TrailingInOrder(filled, indexWritten, rssDir);
    SubsequenceConcat(LeadingFeeds(filled, rssDir), leadingAll, TrailingFeeds(filled, indexWritten, rssDir), trailingAll);
    assert leadingAll + trailingAll == AllFeedPaths(rssDir);
  }

  lemma LeadingInOrder(filled: Filled, rssDir: string)
    ensures IsSubsequence(LeadingFeeds(filled, rssDir),
                          [FeedPath(rssDir, "feed.xml")] + MapSeq(FeedCategories, c => CategoryFeedPath(rssDir, c)))
  {
    var mainPath := FeedPath(rssDir, "feed.xml");
    var g := c => CategoryFeedPath(rssDir, c);
    FilterMapSubsequence(FeedCategories, CategoryFeed(filled, rssDir), g);
    WhenSubsequence(filled.main, mainPath);
    SubsequenceConcat(When(filled.main, mainPath), [mainPath], CategoryPart(filled, rssDir, FeedCategories), MapSeq(FeedCategories, g));
  }

  lemma TrailingInOrder(filled: Filled, indexWritten: bool, rssDir: string)
    ensures IsSubsequence(TrailingFeeds(filled, indexWritten, rssDir),
                          [FeedPath(rssDir, "daily.xml"), FeedPath(rssDir, "index.html")])
  {
    var dailyPath, indexPath := FeedPath(rssDir, "daily.xml"), FeedPath(rssDir, "index.html");
    WhenSubsequence(filled.daily, dailyPath);
    WhenSubsequence(indexWritten, indexPath);
    SubsequenceConcat(When(filled.daily, dailyPath), [dailyPath], When(indexWritten, indexPath), [indexPath]);
    assert [dailyPath] + [indexPath] == [dailyPath, indexPath];
  }

  /** A category with articles has its feed reported, and every reported
      category feed belongs to a category with articles. */
  lemma CategoryFeedsReported(filled: Filled, rssDir: string, categories: seq<string>)
    ensures forall c :: c in categories && filled.category(c) ==>
      CategoryFeedPath(rssDir, c) in CategoryPart(filled, rssDir, categories)
    ensures forall p :: p in CategoryPart(filled, rssDir, categories) ==>
      exists c :: c in categories && filled.category(c) && p == CategoryFeedPath(rssDir, c)
  {
    var g := c => CategoryFeedPath(rssDir, c);
    FilterMapSubsequence(categories, CategoryFeed(filled, rssDir), g);
    FilterMapValues(categories, CategoryFeed(filled, rssDir));
  }
}
