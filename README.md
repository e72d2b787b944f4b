# PubMed formulation harvester in Dafny

The system harvests PubMed records about cannabis formulation. It runs as a
set of asyncio workers around one processor object:

- a search worker queries Entrez for configured terms and enqueues new PMIDs;
- a processing worker scores and enriches each article and stores its
  metadata and abstract;
- a full-text worker tries PubMed Central, arXiv, Sci-Hub and direct PDF
  links in turn;
- an OCR worker splits the full text into overlapping word windows
  ("RAG chunks") and a labelled searchable text;
- periodic workers regenerate RSS feeds and a status dashboard and commit
  the data directory to git with a per-stage commit/push cadence;
- a small HTTP API starts ad-hoc searches and serves stored results from a
  storage manager that keeps a search index sorted newest first.

This project models the decision logic of those components in Dafny and
proves what each promises. Network, subprocess, filesystem and clock
effects become parameters: an opaque `Net` of responses, `GitRun` outcomes,
maps that stand for directories, integer seconds and opaque timestamp
strings.

One module per source file:

| module | models |
|---|---|
| `BackgroundProcessor` | worker steps over `(processed, queue)`, the chunker, searchable text, feed/status gates, the processed index |
| `GitManager` | commit/push tables, the `Manager` class with `commit_count` and `last_push_time` |
| `DataProcessor` | term counting, relevance levels, assessments, vocabulary extraction, enrichment filter |
| `FulltextDownloader` | source guards, first-success fallback, saved texts and their read-back, PDF magic check, direct PDF URLs, arXiv query, PMC text cleanup |
| `PubMedScraper` | Entrez query, PMID batching, publication date, article record fields |
| `StorageManager` | search index upsert/remove, the `Storage` class over maps, full-text store/get |
| `StatusGenerator` | stage detection, dashboard counters, daily statistics |
| `RssGenerator` | article selection and ordering, item fields, blank-line filter, item count, feed list order |
| `App` | term selection and defaults, result accumulation, error mapping |
| `Sorting` | the newest-first sort used by the index, the listings and the feeds |
| `Base`, `Strings` | records of JSON values, filters, subsequences, splitting, stripping, ASCII case |

Where the code and its documentation disagree, the model follows the code:

- The heartbeat push is unreachable unless forced. Stage "hourly" never
  commits unforced, so its push rule is never reached.
- The metadata step drops any item whose pmid is already processed,
  whatever its stage.
- An article that the enrichment filter rejects makes the processing step
  raise an index error, which is caught. Its pmid is then not marked
  processed.
- Chunking runs only when the article names a `pdf_path` that exists.
- The stage `metadata_abstract`, which the processor itself writes, is
  counted in no dashboard stage bucket.
- The dashboard's source counts read the key `fulltext_source`. The
  downloader writes `full_text_source`.
- The 404 that `get_results` raises is caught by its own handler and
  answered as a 500.
- When no source yields text, `download_full_text` returns the input
  article itself.

## Model

| member | source | states |
|---|---|---|
| App.TermsOf | src/app.py:107-111 | a category's terms are found exactly when a category of that name exists, and they are that category's list |
| App.SearchTermsSummary | src/app.py:92-98 | the summary lists the category names in order, their number, and the number of all terms |
| App.AllTermsLength | src/app.py:95-97 | the total term count is the sum of the per-category list lengths |
| App.AllTermsMembers | src/app.py:112-115 | a term is in the all-terms list exactly when some category lists it |
| App.CollectAllTerms | src/app.py:112-115 | the loop builds the concatenation of all categories' terms in config order |
| App.MaxResultsOf | src/app.py:118 | the requested maximum is used unless it is an explicit null or 0; then the config value is used |
| App.OmittedMaxResults | src/app.py:58 | a request that omits `max_results` gets its default of 100, not the config value |
| App.DateRangeOf | src/app.py:119 | the requested date range is used unless it is missing or empty; then the config range is used |
| App.SearchPubmed | src/app.py:101-136 | custom terms win when non-empty, then an existing category's terms, then all terms; the response is "started" with 0 results and names the term count |
| App.GatheredCharacterized | src/app.py:147-167 | the accumulated results number the sum of the per-term counts, and every result comes from some term that succeeded |
| App.PerformSearch | src/app.py:142-170 | the results are the per-term results in term order; they are stored under the search id and the index gets the upserted entry; stored texts, metadata and other files are unchanged |
| App.GetResults | src/app.py:178-194 | the answer fails exactly when the stored results are missing or empty, and a failure carries status 500; otherwise it returns the stored list and its length |
| BackgroundProcessor.ScanWindows | src/background_processor.py:458-474 | the window loop emits exactly the chunks of the recursive window definition |
| BackgroundProcessor.CreateRagChunks | src/background_processor.py:455-474 | the method returns the chunk sequence of the text for the given size and overlap |
| BackgroundProcessor.ChunkAt | src/background_processor.py:460-471 | each chunk starts inside the text, on the step grid, at a kept window, and carries the next consecutive id |
| BackgroundProcessor.ChunkStartsIncrease | src/background_processor.py:460 | later chunks start at least one step after earlier ones |
| BackgroundProcessor.WindowChunked | src/background_processor.py:460-471 | every kept window on the grid yields a chunk |
| BackgroundProcessor.ChunksAdjacent | src/background_processor.py:460-470 | when only trailing windows are rejected, consecutive chunks start exactly one step apart |
| BackgroundProcessor.WindowFailuresLast | src/background_processor.py:462-463 | once a window fails the length filter, every later window fails it too |
| BackgroundProcessor.RagChunkAt | src/background_processor.py:460-471 | chunk k starts below the word count, on a multiple of size minus overlap, has id k, and its stripped text is longer than 50 |
| BackgroundProcessor.ChunkOfFields | src/background_processor.py:464-471 | a chunk records the pmid, id "pmid_k", start, end clamped to the word count, word count end minus start, and the joined window |
| BackgroundProcessor.RagChunksIncreasing | src/background_processor.py:460 | chunk starts strictly increase |
| BackgroundProcessor.RagChunksComplete | src/background_processor.py:460-471 | every grid window that passes the length filter is emitted |
| BackgroundProcessor.RagChunksOfNoWords | src/background_processor.py:457-460 | a text without words yields no chunks |
| BackgroundProcessor.RagChunksOverlap | src/background_processor.py:460-470 | after a full window, the next chunk starts overlap words before its end |
| BackgroundProcessor.CreateSearchableText | src/background_processor.py:476-500 | the text is the present sections joined by blank lines, and it is empty exactly when no searchable field is present |
| BackgroundProcessor.SectionsCharacterized | src/background_processor.py:478-498 | every section comes from a present field with its heading, and every present field gives its section |
| BackgroundProcessor.EnqueuedItems | src/background_processor.py:149-158 | enqueueing keeps the old queue as a prefix and appends metadata items for exactly the articles with a new non-empty pmid, tagged with category and term |
| BackgroundProcessor.EnqueueKeepsConsistent | src/background_processor.py:149-158 | enqueueing preserves the queue consistency invariant |
| BackgroundProcessor.MetadataStepMarks | src/background_processor.py:183-207 | after a processing step the head pmid is processed exactly when it already was or its score reaches the threshold |
| BackgroundProcessor.MetadataStepFrame | src/background_processor.py:183-207 | a processing step adds at most the head pmid and keeps the rest of the queue in order |
| BackgroundProcessor.MetadataStepDropsLaterStages | src/background_processor.py:186-187 | an already-processed head item is dropped whatever its stage |
| BackgroundProcessor.MetadataStepKeepsConsistent | src/background_processor.py:183-213 | the processing step preserves the consistency invariant |
| BackgroundProcessor.FulltextStepKeepsConsistent | src/background_processor.py:224-248 | the full-text step preserves the consistency invariant |
| BackgroundProcessor.OcrStepKeepsConsistent | src/background_processor.py:265-276 | the OCR step preserves the consistency invariant |
| BackgroundProcessor.MismatchRotates | src/background_processor.py:224-227 | a full-text or OCR step whose head has another stage moves it unchanged to the tail and keeps the queue's contents |
| BackgroundProcessor.MetadataRecord | src/background_processor.py:381-398 | the stored record has the fixed key set, the pmid, stage "metadata_abstract", the time, and the article's fields or their defaults |
| BackgroundProcessor.CompletedMetadata | src/background_processor.py:443-445 | completion sets stage "complete" and the chunk count and keeps every other field |
| BackgroundProcessor.LoadedIndex | src/background_processor.py:54-65 | a readable index loads exactly its pmids; a missing or unreadable one loads nothing |
| BackgroundProcessor.Processor.constructor | src/background_processor.py:32-65 | a new processor starts with the loaded pmids, an empty queue and no feed or status time, over the given storage, git manager and downloader |
| BackgroundProcessor.Processor.SaveProcessedIndex | src/background_processor.py:67-83 | the saved index lists each processed pmid once, records the count and time, and loads back to the same set |
| BackgroundProcessor.Processor.EnqueueSearchResults | src/background_processor.py:149-158 | the queue becomes the enqueue step of the old state |
| BackgroundProcessor.Processor.StoreMetadataAndAbstract | src/background_processor.py:367-408 | the abstract and the metadata record of the pmid are written and nothing else |
| BackgroundProcessor.Processor.ProcessingStep | src/background_processor.py:183-207 | the state becomes the processing step of the old state, and metadata is written exactly when a full-text item is produced |
| BackgroundProcessor.Processor.FetchAndStore | src/background_processor.py:229-239 | the article's download, with the downloader's saved copies updated; a PDF the download wrote is in the file set under the result's `pdf_path`; with text, storage gains the text, its metadata and the PDF copy while the index and search results stay; without text storage is unchanged |
| BackgroundProcessor.Processor.FulltextStepOnce | src/background_processor.py:224-248 | the state becomes the full-text step over the downloader's saved copies; a full-text head updates the downloader's saved copies as one download does; a PDF the download wrote exists afterwards, named by the queued item's `pdf_path`; when it yields text, storage gains the text, its metadata and the PDF copy while the index and search results stay; otherwise storage and downloader are unchanged |
| BackgroundProcessor.Processor.FulltextThenOcr | src/background_processor.py:224-276 | a lone full-text item whose download writes a PDF is chunked by the next OCR round: its chunks and searchable text are written and the queue empties |
| BackgroundProcessor.Processor.ProcessOcrForRag | src/background_processor.py:410-453 | chunks, searchable text and completed metadata are written when the PDF exists, and nothing changes otherwise |
| BackgroundProcessor.Processor.OcrStepOnce | src/background_processor.py:265-276 | the state becomes the OCR step; an OCR head writes its chunks, searchable text and completed metadata exactly as `_process_ocr_for_rag` does for that PMID and article; a mismatched or empty queue writes nothing |
| BackgroundProcessor.Processor.RssStep | src/background_processor.py:308-325 | exactly when the 6-hour gate is open and feeds were produced, the generator's own forced commit and push (src/rss_generator.py:58-59, 474-491) is followed by the worker's forced `rss_update` commit, and the time is recorded |
| BackgroundProcessor.ClosedForInterval | src/background_processor.py:511-527 | once a run is recorded at a time, the gate stays closed for the next interval seconds |
| BackgroundProcessor.Processor.StatusStep | src/background_processor.py:341-358 | the dashboard is committed and the time recorded exactly when the 30-minute gate is open and a page was written |
| DataProcessor.CountTerms | src/data_processor.py:301-307 | the counter loop returns the total of non-overlapping lowercase occurrences |
| DataProcessor.TermTotalEmptyText | src/data_processor.py:301-307 | no non-empty term occurs in the empty text |
| DataProcessor.TermTotalPositiveIff | src/data_processor.py:301-307 | the count is positive exactly when some lowercased term occurs in the text |
| DataProcessor.TermTotalConcat | src/data_processor.py:304-306 | counting over two term lists adds up |
| DataProcessor.LongTermsAbsent | src/data_processor.py:304-306 | terms longer than the text are never counted |
| DataProcessor.RelevanceLevel | src/data_processor.py:309-316 | "high" exactly from 5, "medium" exactly from 2 to 4, "low" exactly below 2 |
| DataProcessor.RelevanceLevelMonotone | src/data_processor.py:309-316 | a larger count never gets a lower level |
| DataProcessor.AssessFormulation | src/data_processor.py:126-157 | four non-negative indicators whose sum is the total, and the level of that total |
| DataProcessor.AssessFormulationPositiveIff | src/data_processor.py:126-157 | the total is the term count over the indicator list and is positive exactly when an indicator occurs |
| DataProcessor.AssessCannabis | src/data_processor.py:159-186 | three non-negative indicators whose sum is the total, and the level of that total |
| DataProcessor.AssessCannabisEmpty | src/data_processor.py:159-186 | an article with no title and no abstract scores 0, level "low" |
| DataProcessor.ExtractMentions | src/data_processor.py:204-274 | the loop returns the vocabulary entries found in the lowercased text |
| DataProcessor.MentionsCharacterized | src/data_processor.py:204-274 | the mentions keep vocabulary order and are exactly the entries that occur case-insensitively |
| DataProcessor.MentionsDistinct | src/data_processor.py:204-274 | a duplicate-free vocabulary gives duplicate-free mentions |
| DataProcessor.ExtractionVocabulariesDistinct | src/data_processor.py:204-274 | the five fixed vocabularies have no duplicates |
| DataProcessor.Entities | src/data_processor.py:188-202 | the entity map has exactly the five entity keys |
| DataProcessor.Enriched | src/data_processor.py:58-73 | the enriched copy keeps every other key and sets the six enrichment keys |
| DataProcessor.ProcessSingleArticle | src/data_processor.py:54-77 | no result exactly when the score is below 0.3; otherwise the enriched copy |
| DataProcessor.ProcessArticles | src/data_processor.py:30-52 | the loop returns the kept enriched articles |
| DataProcessor.KeptIsOrderedSubsequence | src/data_processor.py:40-52 | the kept articles are an ordered subsequence, no longer than the input, and contain every article at or above the threshold |
| DataProcessor.KeptOne | src/data_processor.py:40-52 | a single article is kept exactly when its score reaches the threshold |
| FulltextDownloader.DownloadPdf | src/fulltext_downloader.py:316-329 | bytes are returned exactly for a 200 answer that starts with the PDF magic, and they are that content |
| FulltextDownloader.DownloadRecord | src/fulltext_downloader.py:302-307 | a download result has the four full-text keys, holding the given text, source name and PDF path |
| FulltextDownloader.AfterLastSlash | src/fulltext_downloader.py:286 | the last segment of a DOI is a slash-free suffix of it |
| FulltextDownloader.DirectPdfUrls | src/fulltext_downloader.py:282-289 | four candidate URLs in the fixed order doi.org, Springer, Wiley, Nature, the last using the DOI's last segment |
| FulltextDownloader.TryDirectUrls | src/fulltext_downloader.py:289-314 | the loop returns the first candidate's text that passes the guards |
| FulltextDownloader.FirstDirectHitSound | src/fulltext_downloader.py:289-309 | a hit comes from a candidate with valid PDF bytes over the size guard and non-empty text |
| FulltextDownloader.Adapter | src/fulltext_downloader.py:144-314 | skipped sources return nothing; any returned result is a download record with non-empty text; PMC answers as the cleaned-page attempt |
| FulltextDownloader.PmcAttempt | src/fulltext_downloader.py:150-167 | PMC yields a record exactly when the page answered and its cleaned text passes the length guard, and the record's text is the cleaned page text |
| FulltextDownloader.ExistingDownload | src/fulltext_downloader.py:121-142 | a saved download is found exactly when one exists, and its text is the saved text |
| FulltextDownloader.SavedIn | src/fulltext_downloader.py:121-127 | a saved copy exists exactly when both the text and the metadata file of the PMID exist |
| FulltextDownloader.SavedMeta | src/fulltext_downloader.py:423-430 | the saved metadata has the five keys, names the result's source and records the text length |
| FulltextDownloader.SavedReadsBack | src/fulltext_downloader.py:121-142 | a download record saved under a PMID (`_save_full_text`, lines 414-433) is read back by `_check_existing_download` as the same record |
| FulltextDownloader.SavedAfterKeepsOthers | src/fulltext_downloader.py:414-433 | a download saves nothing under any other PMID |
| FulltextDownloader.Downloader.constructor | src/fulltext_downloader.py:38-47 | a new downloader starts over whatever texts and metadata its directories already hold |
| FulltextDownloader.Downloader.DownloadFullText | src/fulltext_downloader.py:73-119 | a saved copy wins; otherwise the first successful source in the fixed order is returned and saved under the PMID as `_save_full_text` (lines 414-433) writes it; nothing is saved when all fail; the saved copy then reads back as the result; the PDF file reported is the one a winning arXiv, Sci-Hub or direct source wrote, at the result's `pdf_path` |
| FulltextDownloader.TrySources | src/fulltext_downloader.py:96-119 | the loop finds a source exactly when one succeeds, and its result is the first success; with none the article is returned |
| FulltextDownloader.WinnerWritesPdf | src/fulltext_downloader.py:207-208 | a fresh download writes the article's PDF path exactly when the first successful source is not PubMed Central |
| FulltextDownloader.NoSuccessKeepsArticle | src/fulltext_downloader.py:114-119 | when no source succeeds, the input article is returned |
| FulltextDownloader.FirstSuccessWins | src/fulltext_downloader.py:96-112 | the result is that of the first source that succeeds |
| FulltextDownloader.OnlyPmcWithoutDoiOrPreprint | src/fulltext_downloader.py:176-180 | without a usable DOI or a preprint title only PubMed Central can succeed |
| FulltextDownloader.DownloadNamesItsSource | src/fulltext_downloader.py:96-119 | the result is the input article, or has text and names one of the tried sources |
| FulltextDownloader.FirstAuthorSurname | src/fulltext_downloader.py:403-405 | the surname part has no comma and no surrounding whitespace |
| FulltextDownloader.BuildArxivQuery | src/fulltext_downloader.py:395-412 | the query joins with "+AND+" the author part and the title part, each present only when its source is non-empty |
| FulltextDownloader.TitleWordsAreFirstFive | src/fulltext_downloader.py:407-410 | the title part holds the first five title words |
| FulltextDownloader.LinePhrases | src/fulltext_downloader.py:341-342 | every phrase cut from a line has no surrounding whitespace |
| FulltextDownloader.StrippedAll | src/fulltext_downloader.py:341-342 | each piece is stripped, one result per piece |
| FulltextDownloader.Phrases | src/fulltext_downloader.py:340-342 | every phrase of every line has no surrounding whitespace |
| FulltextDownloader.CleanText | src/fulltext_downloader.py:331-345 | the cleaned text is empty or has no surrounding whitespace |
| GitManager.ShouldCommit | src/git_manager.py:76-91 | forcing always commits; unforced, only the six known stages can commit |
| GitManager.ShouldPush | src/git_manager.py:93-109 | forcing always pushes; the hourly flag matters only for stage "hourly" |
| GitManager.CommitSucceeded | src/git_manager.py:144-171 | only an exited commit can succeed, and a zero exit always does |
| GitManager.PushAttemptCadence | src/git_manager.py:39-60 | unforced pushes are attempted at multiples of 50, 25, 30 and 10 for metadata, abstract, fulltext and ocr, always for batch and status events, and never for other stages |
| GitManager.ThreeAndTen | src/git_manager.py:85-102 | multiples of 3 and of 10 together are exactly the multiples of 30 |
| GitManager.CommitMessage | src/git_manager.py:198-212 | every message ends with the timestamp; the status message has its fixed text and the metadata message names the count |
| GitManager.CommitAndPushEffects | src/git_manager.py:25-74 | the commit count rises by one exactly on a successful commit; the push time changes only on a successful push; the result is commit success and push success when due |
| GitManager.UnforcedIgnoresClock | src/git_manager.py:93-117 | for unforced events the clock changes neither the result nor the commit count nor whether a push time is set |
| GitManager.ForceCommitAndPush | src/git_manager.py:214-236 | forcing succeeds exactly when commit and push succeed, records the time only then, and leaves the commit count |
| GitManager.Manager.constructor | src/git_manager.py:19-23 | a new manager has no commits and no push time |
| GitManager.Manager.CommitAndPushIfNeeded | src/git_manager.py:25-74 | the new counters and the result are those of the commit-and-push rule |
| GitManager.Manager.ForceCommitAndPushNow | src/git_manager.py:214-236 | the new counters and the result are those of the forced rule |
| PubMedScraper.QueryParts | src/pubmed_scraper.py:84-99 | three parts, or four with a non-empty date range; the term first, type and language last, years defaulting to 2020 and 2024 |
| PubMedScraper.QueryStartsWithTerm | src/pubmed_scraper.py:86-99 | the query starts with the quoted term and " AND " |
| PubMedScraper.QueryEndsWithLanguage | src/pubmed_scraper.py:95-99 | the query ends with the English clause |
| PubMedScraper.QueryWithoutDates | src/pubmed_scraper.py:84-99 | without a date range the query is term, type and language joined by " AND " |
| PubMedScraper.BatchesFromConcat | src/pubmed_scraper.py:69-72 | the batches concatenate back to the PMIDs |
| PubMedScraper.BatchesFromSizes | src/pubmed_scraper.py:69-72 | all batches but the last are full, the last holds 1 to retmax, and their number is the ceiling of n over retmax |
| PubMedScraper.SearchArticles | src/pubmed_scraper.py:34-82 | no PMIDs give no articles; otherwise the fetched batches in order |
| PubMedScraper.PublicationDate | src/pubmed_scraper.py:257-274 | no PubDate gives "N/A" |
| PubMedScraper.PublicationDateFields | src/pubmed_scraper.py:257-274 | the date splits into the year and the zero-padded month and day, with defaults "N/A" and "01" |
| PubMedScraper.AuthorName | src/pubmed_scraper.py:200-209 | an author is named exactly when it has a last name, and the name starts with it |
| PubMedScraper.CollectPresent | src/pubmed_scraper.py:212-233 | the loop keeps the present texts in order |
| PubMedScraper.ArticleRecord | src/pubmed_scraper.py:183-255 | the record has exactly the eleven article keys |
| PubMedScraper.ExtractArticleData | src/pubmed_scraper.py:183-255 | the method builds the article record |
| PubMedScraper.ArticleRecordDefaults | src/pubmed_scraper.py:187-249 | a missing pmid, title, abstract, journal or doi reads "N/A", and a missing pmid gives the PubMed URL with "N/A" |
| PubMedScraper.ArticleRecordPresent | src/pubmed_scraper.py:187-249 | a present pmid, title, abstract, journal or doi is stored as the child's text |
| PubMedScraper.ArticleRecordDerived | src/pubmed_scraper.py:187-250 | the URL is the PubMed address of the stored pmid, publication_date is the assembled date and scraped_at the given timestamp |
| PubMedScraper.ArticleRecordAuthors | src/pubmed_scraper.py:200-209 | the authors keep source order and include every author with a last name |
| PubMedScraper.ArticleRecordTerms | src/pubmed_scraper.py:212-233 | no keyword and no MeSH term is empty |
| RssGenerator.CollectArticles | src/rss_generator.py:181-245 | the collected articles are a newest-first permutation of the loaded articles that pass the filter |
| RssGenerator.SelectedCharacterized | src/rss_generator.py:181-245 | the selection is sorted newest first and holds exactly the loaded articles that pass |
| RssGenerator.SelectedEmpty | src/rss_generator.py:181-245 | the selection is empty exactly when no loaded article passes |
| RssGenerator.RecentArticles | src/rss_generator.py:181-215 | exactly the articles with a parseable time at or after the cutoff, newest first |
| RssGenerator.ArticlesByCategory | src/rss_generator.py:217-245 | exactly the articles of that category, newest first |
| RssGenerator.Description | src/rss_generator.py:299-302 | short abstracts are kept; longer ones become their first 500 characters and "..." |
| RssGenerator.Link | src/rss_generator.py:295 | without a URL the link is the PubMed page of the pmid |
| RssGenerator.Guid | src/rss_generator.py:305-307 | the GUID is "pmid:" and the pmid |
| RssGenerator.AuthorLabel | src/rss_generator.py:321-325 | no author label exactly when there are no authors; one author as is; several as the first and " et al." |
| RssGenerator.CategoryLabel | src/rss_generator.py:327-331 | no label exactly for an empty category; otherwise the same length, no underscore, and the category with spaces up to case |
| RssGenerator.PubDate | src/rss_generator.py:309-319 | without a processing time the date is the current time |
| RssGenerator.ItemOf | src/rss_generator.py:283-337 | the item's description is at most 503 characters, its GUID names the pmid, and author and category appear exactly when present |
| RssGenerator.DropBlankLinesKeepsNonBlank | src/rss_generator.py:348-349 | the saved lines are exactly the non-blank lines in order |
| RssGenerator.CountItems | src/rss_generator.py:474-488 | the loop counts the items of the readable feeds |
| RssGenerator.ItemTotalZeroIff | src/rss_generator.py:474-488 | the count is 0 exactly when no readable feed contains an item |
| RssGenerator.GenerateMainFeed | src/rss_generator.py:68-99 | the main feed path is reported exactly when the main feed has articles |
| RssGenerator.GenerateDailyFeed | src/rss_generator.py:148-179 | the daily feed path is reported exactly when the last day has articles |
| RssGenerator.CategoryFeeds | src/rss_generator.py:101-146 | the loop reports the filled category feeds in category order |
| RssGenerator.CategoryFeedsReported | src/rss_generator.py:101-146 | a category feed is reported exactly when that category has articles |
| RssGenerator.MainAndCategoryFeeds | src/rss_generator.py:38-45 | main feed first, then the category feeds |
| RssGenerator.DailyAndIndexFeeds | src/rss_generator.py:47-55 | the daily feed, then the index page |
| RssGenerator.GenerateFeeds | src/rss_generator.py:33-62 | the reported feeds are the generated ones in generation order |
| RssGenerator.FeedsInFixedOrder | src/rss_generator.py:38-55 | the reported paths are a subsequence of main, the eight categories, daily, index |
| Sorting.InsertDesc | src/storage_manager.py:385 | insertion adds exactly the new element |
| Sorting.InsertDescSorted | src/storage_manager.py:385 | insertion into a newest-first list keeps it newest first |
| Sorting.NewestFirstSortedPermutation | src/storage_manager.py:385 | the sort is newest first and a permutation of its input |
| Sorting.SortNewestFirst | src/rss_generator.py:210 | the method returns the newest-first permutation |
| StatusGenerator.ProcessingStage | src/status_generator.py:137-158 | a readable article file decides the stage, default "metadata"; otherwise the chunks, full text and abstract files decide in that priority |
| StatusGenerator.FileStageIsCounted | src/status_generator.py:145-158 | a stage derived from files is always one of the counted stages |
| StatusGenerator.ArticleData | src/status_generator.py:160-170 | article data is present exactly for a readable, non-empty article file |
| StatusGenerator.RecentOf | src/status_generator.py:103-111 | a recent entry exists exactly for articles with data, with a title of at most 103 characters |
| StatusGenerator.Bump | src/status_generator.py:96-100 | one counter rises by one and the others are unchanged |
| StatusGenerator.CollectMetrics | src/status_generator.py:77-117 | the directory loop computes the metrics of the listing |
| StatusGenerator.CountEntry | src/status_generator.py:78-117 | one directory updates the metrics by one step |
| StatusGenerator.CountArticleData | src/status_generator.py:90-117 | one directory's data updates sources, categories, recent entries and text length |
| StatusGenerator.TotalPmidsCount | src/status_generator.py:82-83 | the total counts exactly the directories |
| StatusGenerator.StageCounts | src/status_generator.py:85-88 | the five stage counters count the directories in each stage |
| StatusGenerator.StagesTotalBounded | src/status_generator.py:83-88 | the stage counters add up to the directories in a known stage, at most the total |
| StatusGenerator.MetadataAbstractUncounted | src/status_generator.py:85-88 | a "metadata_abstract" directory adds to the total but to no stage counter |
| StatusGenerator.SourceCounts | src/status_generator.py:93-96 | the four source counters count the articles from each source |
| StatusGenerator.CategoryCounts | src/status_generator.py:98-100 | a category is listed exactly when some article has it, with that number of articles |
| StatusGenerator.RecentArePrefix | src/status_generator.py:102-111 | the recent entries are the first ten data rows in listing order |
| StatusGenerator.TextLengthTotal | src/status_generator.py:113-117 | the text length total is the sum over articles with data |
| StatusGenerator.CountProcessedOn | src/status_generator.py:183-197 | the count is the number of articles processed on that date, at most the listing size |
| StatusGenerator.DailyStats | src/status_generator.py:172-207 | seven entries, one per day, each with that day's count |
| StorageManager.UpsertedProperties | src/storage_manager.py:358-392 | the upserted index is newest first, a permutation of the other entries plus the completed entry, and keeps every other entry |
| StorageManager.UpsertedIdUnique | src/storage_manager.py:371-385 | exactly one entry carries the search id |
| StorageManager.UpsertedEntryOnce | src/storage_manager.py:371-385 | the completed entry appears once and is the only entry with that id |
| StorageManager.RemovedProperties | src/storage_manager.py:394-411 | removal keeps the other entries in order and leaves none with the id |
| StorageManager.WithoutIdMembers | src/storage_manager.py:404 | an entry survives removal exactly when its id differs |
| StorageManager.StoredMeta | src/storage_manager.py:212-236 | the text length is the text's length, and the PDF path moves to the data directory exactly when the source PDF exists |
| StorageManager.FulltextView | src/storage_manager.py:271-276 | a read returns the four full-text keys |
| StorageManager.StoreGetRoundTrip | src/storage_manager.py:205-276 | a read after a store returns the same text, source and timestamp, and the same PDF path when none was copied |
| StorageManager.Storage.constructor | src/storage_manager.py:23-54 | a new store is empty and has no index |
| StorageManager.Storage.UpdateSearchIndex | src/storage_manager.py:358-392 | the index becomes the upsert of the old one, or of an empty one; nothing else changes |
| StorageManager.Storage.RemoveFromSearchIndex | src/storage_manager.py:394-411 | an existing index loses the id's entries; a missing one stays missing; nothing else changes |
| StorageManager.Storage.StoreResults | src/storage_manager.py:56-94 | the results file records the id, the result count, the time and the results, and the index gets its entry |
| StorageManager.Storage.GetResults | src/storage_manager.py:96-126 | results are returned exactly when the file exists and is readable, and they are its results |
| StorageManager.Storage.DeleteResults | src/storage_manager.py:163-192 | the file is removed and the index loses the id; stored texts, metadata and other files are unchanged |
| StorageManager.Storage.RecordFile | src/fulltext_downloader.py:298-299 | a file another component writes into the data directory, such as a downloaded PDF, exists afterwards |
| StorageManager.Storage.ListSearches | src/storage_manager.py:128-161 | the listing holds each readable ".json" search once, newest first |
| StorageManager.Storage.StoreArticleFulltext | src/storage_manager.py:194-247 | the text and metadata of the pmid are written, and the PDF copy appears exactly when the source PDF exists |
| StorageManager.Storage.GetArticleFulltext | src/storage_manager.py:249-286 | a record is returned exactly when text and metadata exist, built from them |

## Left out

- Network and external services are parameters. This covers Entrez, PMC, arXiv, Sci-Hub with Selenium, direct PDF hosts, S3 and DVC. The S3 fallbacks in `get_results` and `get_article_fulltext` are not modelled: the model reads only the local maps.
- Git subprocesses are opaque outcomes. `git add`, status reporting and `setup_git_config` are not modelled.
- asyncio scheduling is not modelled. This covers task creation, gathering, sleeps, timeouts, the running flag, `start`, `stop` and `get_status`. Each worker is modelled as one loop-body step, and an empty queue makes a step do nothing.
- The processor's `_update_search_index` only logs, so it is not modelled.
- Floating-point scoring is an opaque input. This covers `_calculate_relevance_score`, `_calculate_text_relevance`, the dashboard's average relevance and average text length, and the feed's positive-score check.
- Key-phrase extraction uses a regular expression and yields a set of unspecified order. It is an opaque input.
- Parsing and rendering libraries are not modelled: XML and HTML parsing, PDF text extraction, pretty-printing, the status HTML page and `generate_rss_index`. Parsed documents are abstract records of optional fields.
- Time is integer seconds and timestamps are opaque strings. The model does not capture `datetime.now`, formatting or ISO parsing. A feed's cutoff parse is a parameter.
- A JSON value of the wrong type reads as the field's default. A missing `pmids` key in the processed index reads as empty.
- File write failures are not modelled, so the storing methods always succeed.
- FastAPI routing, CORS, and the `root`, `health_check`, `list_searches` and `delete_results` endpoints are not modelled. The storage operations behind the last two are modelled.
- Lower-casing and title-casing are ASCII-only.
- Text is split on single characters, so a "\r\n" pair counts as two breaks.
- `sync_to_s3` and `pull_from_s3` are not modelled: they only shell out to DVC.
- BackgroundProcessor.CreateRagChunks: the method requires the overlap to be smaller than the chunk size. The source always passes 1000 and 200. With a step of zero Python's `range` raises ValueError, and with a negative step it yields no chunks; the model leaves both cases out.
- GitManager.ShouldCommit: the contract states the forcing rule and the stage set. The modulo table is the definition itself, and PushAttemptCadence states its effect.
- GitManager.ShouldPush: the contract states the forcing rule and where the hourly flag matters. The modulo table is the definition itself.
- GitManager.CommitSucceeded: the contract does not state that a non-zero exit succeeds when the output says there is nothing to commit. The definition includes that case.
- PubMedScraper.SearchArticles: exceptions during search or fetch are not modelled, so the "empty on error" path is absent.
- StorageManager.Storage.ListSearches: the listing is a ghost set of parsed files. Files that fail to parse are simply absent.
- RssGenerator.RecentArticles: a `processed_at` carrying a time-zone offset compares a zone-aware time with the naive cutoff, which raises TypeError. The source's `except ValueError` does not catch it, so the scan stops and returns the articles gathered so far, unsorted. The model's time parse is a parameter that cannot express this case.
- App.TermsOf: the configuration's categories are a sequence of named entries, not a JSON object, so the model can hold a repeated name. A lookup then takes the first entry of that name. A configuration parsed into a dict never holds a repeated key: the JSON text may repeat one, and the parser keeps the last occurrence, which the model does not reproduce.
- FulltextDownloader.Adapter: `Net.raises` may name PubMed Central or arXiv, though those two adapters catch every exception themselves. A raise acts like a failure, so the download result is the same.
- RssGenerator.CategoryLabel: title-casing is stated up to letter case, not character by character.
