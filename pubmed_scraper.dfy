/** The PubMed client: the Entrez query string, the batching of found
    identifiers into detail requests, and the record built from one parsed
    article element. The two HTTP calls are inputs: the identifier list a
    search found, and what a detail request returns for a batch. */
module PubMedScraper {
  import opened Base
  import opened Strings

  // ---------------------------------------------------------------------
  // Query: _build_query

  const TypeClause: string :=
    "(\"Journal Article\"[Publication Type] OR \"Review\"[Publication Type] OR \"Clinical Trial\"[Publication Type])"
  const LanguageClause: string := "\"English\"[Language]"

  /** The clause restricting the publication years. */
  function DateClause(startYear: int, endYear: int): string {
    "(\"" + IntToString(startYear) + "\"[Date - Publication] : \"" + IntToString(endYear) + "\"[Date - Publication])"
  }

  /** The clauses of a query: the term, the years when a (non-empty) date
      range is given, the publication types and the language. */
  function QueryParts(term: string, dateRange: Option<map<string, int>>): (parts: seq<string>)
    ensures |parts| == if dateRange.Some? && dateRange.value != map[] then 4 else 3
    ensures parts[0] == "\"" + term + "\"[Title/Abstract]"
    ensures parts[|parts| - 2] == TypeClause && parts[|parts| - 1] == LanguageClause
    ensures |parts| == 4 ==>
              parts[1] == DateClause(if "start_year" in dateRange.value then dateRange.value["start_year"] else 2020,
                                     if "end_year" in dateRange.value then dateRange.value["end_year"] else 2024)
  {
    var first := ["\"" + term + "\"[Title/Abstract]"];
    var date :=
      if dateRange.Some? && dateRange.value != map[] then
        var r := dateRange.value;
        [DateClause(if "start_year" in r then r["start_year"] else 2020,
                    if "end_year" in r then r["end_year"] else 2024)]
      else [];
    first + date + [TypeClause, LanguageClause]
  }

  /** `_build_query`: the clauses joined by " AND ". */
  function BuildQuery(term: string, dateRange: Option<map<string, int>>): string {
    Join(" AND ", QueryParts(term, dateRange))
  }

  /** The query starts with the quoted term. */
  lemma QueryStartsWithTerm(term: string, dateRange: Option<map<string, int>>)
    ensures StartsWith(BuildQuery(term, dateRange), "\"" + term + "\"[Title/Abstract] AND ")
  {
    var parts := QueryParts(term, dateRange);
    var head := "\"" + term + "\"[Title/Abstract]";
    var tail := Join(" AND ", parts[1..]);
    assert BuildQuery(term, dateRange) == head + " AND " + tail;
    assert (head + " AND " + tail)[..|head + " AND "|] == head + " AND ";
  }

  /** The query ends with the language filter. */
  lemma QueryEndsWithLanguage(term: string, dateRange: Option<map<string, int>>)
    ensures var q := BuildQuery(term, dateRange);
      |q| >= |LanguageClause| && q[|q| - |LanguageClause|..] == LanguageClause
  {
    JoinLastPart(" AND ", QueryParts(term, dateRange));
  }

  /** Without a date range the query is exactly three clauses. */
  lemma QueryWithoutDates(term: string)
    ensures BuildQuery(term, None) == "\"" + term + "\"[Title/Abstract] AND " + TypeClause + " AND " + LanguageClause
  {
    var parts := QueryParts(term, None);
    assert parts == ["\"" + term + "\"[Title/Abstract]", TypeClause, LanguageClause];
    assert parts[1..] == [TypeClause, LanguageClause];
    assert parts[1..][1..] == [LanguageClause];
    assert Join(" AND ", parts[1..]) == TypeClause + " AND " + LanguageClause;
  }

  /** A join of several parts ends with the last part. */
  lemma {:induction false} JoinLastPart(sep: string, parts: seq<string>)
    requires parts != []
    ensures var j := Join(sep, parts); var last := parts[|parts| - 1];
      |j| >= |last| && j[|j| - |last|..] == last
  {
    if |parts| > 1 {
      JoinLastPart(sep, parts[1..]);
      var rest := Join(sep, parts[1..]);
      var j := parts[0] + sep + rest;
      assert j[|j| - |rest|..] == rest;
    }
  }

  // ---------------------------------------------------------------------
  // Batching: search_articles

  /** The slices `pmids[i:i + size]` for i in `range(start, len(pmids), size)`. */
  function BatchesFrom(pmids: seq<string>, size: nat, start: nat): (bs: seq<seq<string>>)
    requires size > 0
    decreases |pmids| - start
  {
    if start >= |pmids| then []
    else
      var end := if start + size <= |pmids| then start + size else |pmids|;
      [pmids[start..end]] + BatchesFrom(pmids, size, start + size)
  }

  /** All batches of a list of identifiers. */
  function Batches(pmids: seq<string>, size: nat): seq<seq<string>>
    requires size > 0
  {
    BatchesFrom(pmids, size, 0)
  }

  function Concat<T>(xss: seq<seq<T>>): seq<T> {
    if xss == [] then [] else xss[0] + Concat(xss[1..])
  }

  /** The batches, concatenated, give back the identifiers. */
  lemma {:induction false} BatchesFromConcat(pmids: seq<string>, size: nat, start: nat)
    requires size > 0 && start <= |pmids|
    ensures Concat(BatchesFrom(pmids, size, start)) == pmids[start..]
    decreases |pmids| - start
  {
    if start < |pmids| {
      var end := if start + size <= |pmids| then start + size else |pmids|;
      var bs := BatchesFrom(pmids, size, start);
      assert bs[1..] == BatchesFrom(pmids, size, start + size);
      if start + size <= |pmids| {
        BatchesFromConcat(pmids, size, start + size);
        assert pmids[start..] == pmids[start..end] + pmids[start + size..];
      } else {
        assert BatchesFrom(pmids, size, start + size) == [];
      }
    }
  }

  /** There are ceil((n - start) / size) batches, that is the least k with
      n - start <= k * size; each holds `size` identifiers except the last,
      which holds between 1 and `size`. */
  lemma {:induction false} BatchesFromSizes(pmids: seq<string>, size: nat, start: nat)
    requires size > 0 && start <= |pmids|
    ensures var bs := BatchesFrom(pmids, size, start); var n := |pmids| - start;
      && (n == 0 ==> bs == [])
      && (n > 0 ==> (|bs| - 1) * size < n <= |bs| * size)
      && (forall k :: 0 <= k < |bs| - 1 ==> |bs[k]| == size)
      && (bs != [] ==> 1 <= |bs[|bs| - 1]| <= size)
    decreases |pmids| - start
  {
    var bs := BatchesFrom(pmids, size, start);
    if start < |pmids| && start + size <= |pmids| {
      BatchesFromSizes(pmids, size, start + size);
      var rest := BatchesFrom(pmids, size, start + size);
      assert bs == [pmids[start..start + size]] + rest;
      assert |bs| * size == size + |rest| * size;
      assert (|bs| - 1) * size == |rest| * size;
      if rest != [] {
        assert (|rest| - 1) * size + size == |rest| * size;
      }
      forall k | 0 <= k < |bs| - 1
        ensures |bs[k]| == size
      {
        if k > 0 {
          assert bs[k] == rest[k - 1];
        }
      }
    } else if start < |pmids| {
      assert BatchesFrom(pmids, size, start + size) == [];
      assert |bs| == 1;
    }
  }

  /** Every batch's details, in batch order. */
  function FetchAll(batches: seq<seq<string>>, fetch: seq<string> -> seq<Record>): seq<Record> {
    if batches == [] then [] else fetch(batches[0]) + FetchAll(batches[1..], fetch)
  }

  /** `search_articles` after the search: nothing when no identifier was
      found, nothing when the batch size is 0 (the range raises and the error
      is caught) or negative (the range is empty), and otherwise every
      batch's details in order. */
  method SearchArticles(pmids: seq<string>, retmax: int, fetch: seq<string> -> seq<Record>)
    returns (articles: seq<Record>)
    ensures pmids == [] || retmax <= 0 ==> articles == []
    ensures pmids != [] && retmax > 0 ==> articles == FetchAll(Batches(pmids, retmax), fetch)
  {
    if pmids == [] || retmax <= 0 {
      return [];
    }
    articles := [];
    var i := 0;
    while i < |pmids|
      invariant 0 <= i
      invariant articles + FetchAll(BatchesFrom(pmids, retmax, i), fetch)
             == FetchAll(Batches(pmids, retmax), fetch)
      decreases |pmids| - i
    {
      var end := if i + retmax <= |pmids| then i + retmax else |pmids|;
      var batch := pmids[i..end];
      assert BatchesFrom(pmids, retmax, i) == [batch] + BatchesFrom(pmids, retmax, i + retmax);
      assert ([batch] + BatchesFrom(pmids, retmax, i + retmax))[1..] == BatchesFrom(pmids, retmax, i + retmax);
      articles := articles + fetch(batch);
      i := i + retmax;
    }
  }

  // ---------------------------------------------------------------------
  // Records: _extract_article_data, _extract_publication_date

  datatype AuthorElem = AuthorElem(lastName: Option<string>, foreName: Option<string>)
  datatype MeshElem = MeshElem(descriptor: Option<string>)
  datatype PubDateElem = PubDateElem(year: Option<string>, month: Option<string>, day: Option<string>)

  /** A parsed article element: each child is present or absent. */
  datatype ArticleElem = ArticleElem(
    pmid: Option<string>, title: Option<string>, abstractText: Option<string>,
    authorList: Option<seq<AuthorElem>>, journal: Option<string>, pubDate: Option<PubDateElem>,
    doi: Option<string>, keywordList: Option<seq<string>>, meshList: Option<seq<MeshElem>>)

  /** `_extract_publication_date`: year-month-day with two-digit month and day. */
  function PublicationDate(pubDate: Option<PubDateElem>): (r: string)
    ensures pubDate.None? ==> r == "N/A"
  {
    match pubDate
    case None => "N/A"
    case Some(d) =>
      d.year.GetOr("N/A") + "-" + ZFill2(d.month.GetOr("01")) + "-" + ZFill2(d.day.GetOr("01"))
  }

  lemma ZFill2NoDash(s: string)
    requires '-' !in s
    ensures '-' !in ZFill2(s)
  {
  }

  /** A date without dashes in its parts splits back at '-' into the year and
      the padded month and day, each at least two characters. */
  lemma {:induction false} PublicationDateFields(d: PubDateElem)
    requires '-' !in d.year.GetOr("N/A") && '-' !in d.month.GetOr("01") && '-' !in d.day.GetOr("01")
    ensures var parts := SplitOn(PublicationDate(Some(d)), '-');
      && parts == [d.year.GetOr("N/A"), ZFill2(d.month.GetOr("01")), ZFill2(d.day.GetOr("01"))]
      && |parts[1]| >= 2 && |parts[2]| >= 2
  {
    var y := d.year.GetOr("N/A");
    var m := ZFill2(d.month.GetOr("01"));
    var dd := ZFill2(d.day.GetOr("01"));
    ZFill2NoDash(d.month.GetOr("01"));
    ZFill2NoDash(d.day.GetOr("01"));
    var parts := [y, m, dd];
    assert parts[1..] == [m, dd];
    assert parts[1..][1..] == [dd];
    assert Join("-", [dd]) == dd;
    assert Join("-", [m, dd]) == m + "-" + dd;
    assert Join("-", parts) == y + "-" + (m + "-" + dd);
    assert y + "-" + (m + "-" + dd) == PublicationDate(Some(d));
    SplitOnJoin(parts, '-');
  }

  /** An author is "Last, Fore", or "Last" without a forename; an author
      without a last name is left out. */
  function AuthorName(a: AuthorElem): (r: Option<string>)
    ensures r.Some? <==> a.lastName.Some?
    ensures r.Some? ==> StartsWith(r.value, a.lastName.value)
  {
    match a.lastName
    case None => None
    case Some(last) =>
      match a.foreName
      case None => Some(last)
      case Some(fore) =>
        assert (last + ", " + fore)[..|last|] == last;
        Some(last + ", " + fore)
  }

  /** Keywords with an empty text are skipped. */
  function KeywordText(k: string): Option<string> {
    if k != "" then Some(k) else None
  }

  /** MeSH headings without a descriptor, or with an empty one, are skipped. */
  function MeshText(m: MeshElem): Option<string> {
    if m.descriptor.Some? && m.descriptor.value != "" then Some(m.descriptor.value) else None
  }

  /** The appending loop shared by authors, keywords and MeSH terms. */
  method CollectPresent<A>(elems: seq<A>, text: A -> Option<string>) returns (out: seq<string>)
    ensures out == FilterMap(elems, text)
  {
    out := [];
    for i := 0 to |elems|
      invariant out == FilterMap(elems[..i], text)
    {
      FilterMapSnoc(elems[..i], elems[i], text);
      assert elems[..i + 1] == elems[..i] + [elems[i]];
      var t := text(elems[i]);
      if t.Some? {
        out := out + [t.value];
      }
    }
    assert elems[..|elems|] == elems;
  }

  /** The record built from one article element. */
  function ArticleRecord(e: ArticleElem, timestamp: string): (r: Record)
    ensures r.Keys == {"pmid", "title", "abstract", "authors", "journal", "publication_date", "doi",
                       "keywords", "mesh_terms", "url", "scraped_at"}
  {
    var pmid := e.pmid.GetOr("N/A");
    map["pmid" := Str(pmid),
        "title" := Str(e.title.GetOr("N/A")),
        "abstract" := Str(e.abstractText.GetOr("N/A")),
        "authors" := Strs(FilterMap(e.authorList.GetOr([]), AuthorName)),
        "journal" := Str(e.journal.GetOr("N/A")),
        "publication_date" := Str(PublicationDate(e.pubDate)),
        "doi" := Str(e.doi.GetOr("N/A")),
        "keywords" := Strs(FilterMap(e.keywordList.GetOr([]), KeywordText)),
        "mesh_terms" := Strs(FilterMap(e.meshList.GetOr([]), MeshText)),
        "url" := Str("https://pubmed.ncbi.nlm.nih.gov/" + pmid + "/"),
        "scraped_at" := Str(timestamp)]
  }

  /** `_extract_article_data`. */
  method ExtractArticleData(e: ArticleElem, timestamp: string) returns (r: Record)
    ensures r == ArticleRecord(e, timestamp)
  {
    var authors := CollectPresent(e.authorList.GetOr([]), AuthorName);
    var keywords := CollectPresent(e.keywordList.GetOr([]), KeywordText);
    var mesh := CollectPresent(e.meshList.GetOr([]), MeshText);
    var pmid := e.pmid.GetOr("N/A");
    r := map["pmid" := Str(pmid),
             "title" := Str(e.title.GetOr("N/A")),
             "abstract" := Str(e.abstractText.GetOr("N/A")),
             "authors" := Strs(authors),
             "journal" := Str(e.journal.GetOr("N/A")),
             "publication_date" := Str(PublicationDate(e.pubDate)),
             "doi" := Str(e.doi.GetOr("N/A")),
             "keywords" := Strs(keywords),
             "mesh_terms" := Strs(mesh),
             "url" := Str("https://pubmed.ncbi.nlm.nih.gov/" + pmid + "/"),
             "scraped_at" := Str(timestamp)];
  }

  /** A scalar field whose child is missing reads "N/A", and so does the
      identifier in the PubMed URL. */
  lemma ArticleRecordDefaults(e: ArticleElem, timestamp: string)
    ensures e.pmid.None? ==> ArticleRecord(e, timestamp)["pmid"] == Str("N/A")
    ensures e.title.None? ==> ArticleRecord(e, timestamp)["title"] == Str("N/A")
    ensures e.abstractText.None? ==> ArticleRecord(e, timestamp)["abstract"] == Str("N/A")
    ensures e.journal.None? ==> ArticleRecord(e, timestamp)["journal"] == Str("N/A")
    ensures e.doi.None? ==> ArticleRecord(e, timestamp)["doi"] == Str("N/A")
    ensures e.pmid.None? ==> ArticleRecord(e, timestamp)["url"] == Str("https://pubmed.ncbi.nlm.nih.gov/N/A/")
  {
    var r := ArticleRecord(e, timestamp);
    assert r["pmid"] == Str(e.pmid.GetOr("N/A"));
    assert r["title"] == Str(e.title.GetOr("N/A"));
    assert r["abstract"] == Str(e.abstractText.GetOr("N/A"));
    assert r["journal"] == Str(e.journal.GetOr("N/A"));
    assert r["doi"] == Str(e.doi.GetOr("N/A"));
    assert r["url"] == Str("https://pubmed.ncbi.nlm.nih.gov/" + e.pmid.GetOr("N/A") + "/");
  }

  /** A scalar field whose child is present holds the child's text. */
  lemma ArticleRecordPresent(e: ArticleElem, timestamp: string)
    ensures e.pmid.Some? ==> ArticleRecord(e, timestamp)["pmid"] == Str(e.pmid.value)
    ensures e.title.Some? ==> ArticleRecord(e, timestamp)["title"] == Str(e.title.value)
    ensures e.abstractText.Some? ==> ArticleRecord(e, timestamp)["abstract"] == Str(e.abstractText.value)
    ensures e.journal.Some? ==> ArticleRecord(e, timestamp)["journal"] == Str(e.journal.value)
    ensures e.doi.Some? ==> ArticleRecord(e, timestamp)["doi"] == Str(e.doi.value)
  {
    var r := ArticleRecord(e, timestamp);
    assert r["pmid"] == Str(e.pmid.GetOr("N/A"));
    assert r["title"] == Str(e.title.GetOr("N/A"));
    assert r["abstract"] == Str(e.abstractText.GetOr("N/A"));
    assert r["journal"] == Str(e.journal.GetOr("N/A"));
    assert r["doi"] == Str(e.doi.GetOr("N/A"));
  }

  /** The URL is the PubMed address of the stored identifier, the date is the
      one `PublicationDate` assembles and the timestamp is stored as given. */
  lemma ArticleRecordDerived(e: ArticleElem, timestamp: string)
    ensures ArticleRecord(e, timestamp)["url"]
      == Str("https://pubmed.ncbi.nlm.nih.gov/" + e.pmid.GetOr("N/A") + "/")
    ensures ArticleRecord(e, timestamp)["url"]
      == Str("https://pubmed.ncbi.nlm.nih.gov/" + ArticleRecord(e, timestamp)["pmid"].s + "/")
    ensures ArticleRecord(e, timestamp)["publication_date"] == Str(PublicationDate(e.pubDate))
    ensures ArticleRecord(e, timestamp)["scraped_at"] == Str(timestamp)
  {
  }

  /** Every author with a last name is listed, in document order. */
  lemma ArticleRecordAuthors(e: ArticleElem, timestamp: string)
    ensures IsSubsequence(ArticleRecord(e, timestamp)["authors"].items,
                          MapSeq(e.authorList.GetOr([]), (a: AuthorElem) => AuthorName(a).GetOr("")))
    ensures forall a :: a in e.authorList.GetOr([]) && a.lastName.Some? ==>
      AuthorName(a).value in ArticleRecord(e, timestamp)["authors"].items
  {
    var authors := e.authorList.GetOr([]);
    assert ArticleRecord(e, timestamp)["authors"].items == FilterMap(authors, AuthorName);
    FilterMapSubsequence(authors, AuthorName, (a: AuthorElem) => AuthorName(a).GetOr(""));
    forall a | a in authors && a.lastName.Some?
      ensures AuthorName(a).value in FilterMap(authors, AuthorName)
    {
      var i :| 0 <= i < |authors| && authors[i] == a;
    }
  }

  /** No keyword or MeSH term in the record is empty. */
  lemma ArticleRecordTerms(e: ArticleElem, timestamp: string)
    ensures forall k :: k in ArticleRecord(e, timestamp)["keywords"].items ==> k != ""
    ensures forall m :: m in ArticleRecord(e, timestamp)["mesh_terms"].items ==> m != ""
  {
    assert ArticleRecord(e, timestamp)["keywords"].items == FilterMap(e.keywordList.GetOr([]), KeywordText);
    assert ArticleRecord(e, timestamp)["mesh_terms"].items == FilterMap(e.meshList.GetOr([]), MeshText);
    FilterMapValues(e.keywordList.GetOr([]), KeywordText);
    FilterMapValues(e.meshList.GetOr([]), MeshText);
  }
}
