/** Local storage of search results and downloaded full texts. The data
    directory is modelled by the files the manager reads and writes: search
    result files by name, the search index, and the text and metadata
    written for each article. Object-store uploads are not modelled. */
module StorageManager {
  import opened Base
  import opened Strings
  import opened Sorting

  /** One entry of the search index. */
  datatype IndexEntry = IndexEntry(searchId: string, totalResults: int, createdAt: string, status: string)

  /** The content of a search result file. */
  datatype SearchFile = SearchFile(searchId: string, totalResults: int, createdAt: string, results: seq<Record>)

  /** One search as `list_searches` reports it. */
  datatype Listing = Listing(searchId: string, totalResults: int, createdAt: string, localPath: string)

  /** The metadata file written next to an article's text. */
  datatype FulltextMeta = FulltextMeta(pmid: string, source: string, pdfPath: string,
                                       downloadTimestamp: string, textLength: int)

  function EntryCreatedAt(e: IndexEntry): string { e.createdAt }
  function ListingCreatedAt(l: Listing): string { l.createdAt }

  // ---------------------------------------------------------------------
  // Index maintenance

  /** The entries whose id differs from searchId, in order. */
  function WithoutId(entries: seq<IndexEntry>, searchId: string): seq<IndexEntry> {
    Filter(entries, OtherId(searchId))
  }

  function OtherId(searchId: string): IndexEntry -> bool {
    (e: IndexEntry) => e.searchId != searchId
  }

  /** The index after `_update_search_index`: the old entry for the id, if
      any, replaced by a completed one, newest first. */
  function Upserted(entries: seq<IndexEntry>, searchId: string, totalResults: int, createdAt: string): seq<IndexEntry> {
    NewestFirst(WithoutId(entries, searchId) + [IndexEntry(searchId, totalResults, createdAt, "completed")], EntryCreatedAt)
  }

  /** After an upsert exactly one entry carries the id, and it is the new
      completed entry; every other entry is kept, and the list is newest
      first. */
  lemma UpsertedProperties(entries: seq<IndexEntry>, searchId: string, totalResults: int, createdAt: string)
    ensures var r := Upserted(entries, searchId, totalResults, createdAt);
      && SortedDesc(r, EntryCreatedAt)
      && multiset(r) == multiset(WithoutId(entries, searchId)) + multiset{IndexEntry(searchId, totalResults, createdAt, "completed")}
      && (forall e :: e in r && e.searchId == searchId ==> e == IndexEntry(searchId, totalResults, createdAt, "completed"))
      && IndexEntry(searchId, totalResults, createdAt, "completed") in r
      && (forall e :: e in entries && e.searchId != searchId ==> e in r)
  {
    var kept := WithoutId(entries, searchId);
    var entry := IndexEntry(searchId, totalResults, createdAt, "completed");
    var r := Upserted(entries, searchId, totalResults, createdAt);
    NewestFirstSortedPermutation(kept + [entry], EntryCreatedAt);
    assert multiset(kept + [entry]) == multiset(kept) + multiset{entry};
    SameMembers(r, kept + [entry]);
    WithoutIdMembers(entries, searchId);
  }

  lemma WithoutIdMembers(entries: seq<IndexEntry>, searchId: string)
    ensures forall e :: e in WithoutId(entries, searchId) <==> e in entries && e.searchId != searchId
  {
    FilterCharacterized(entries, OtherId(searchId));
  }

  /** Sequences with the same multiset have the same members. */
  lemma SameMembers<T>(a: seq<T>, b: seq<T>)
    requires multiset(a) == multiset(b)
    ensures forall x :: x in a <==> x in b
  {
    forall x
      ensures x in a <==> x in b
    {
      assert x in a <==> x in multiset(a);
      assert x in b <==> x in multiset(b);
    }
  }

  /** The id occurs at exactly one position after an upsert. */
  lemma UpsertedIdUnique(entries: seq<IndexEntry>, searchId: string, totalResults: int, createdAt: string)
    ensures var r := Upserted(entries, searchId, totalResults, createdAt);
      forall i, j :: 0 <= i < |r| && 0 <= j < |r| && r[i].searchId == searchId && r[j].searchId == searchId ==> i == j
  {
    var r := Upserted(entries, searchId, totalResults, createdAt);
    UpsertedEntryOnce(entries, searchId, totalResults, createdAt);
    forall i, j | 0 <= i < |r| && 0 <= j < |r| && r[i].searchId == searchId && r[j].searchId == searchId
      ensures i == j
    {
      if i != j {
        assert r[i] in r && r[j] in r;
        RepeatedCount(r, i, j);
      }
    }
  }

  /** The new entry is counted once, and is the only one with the id. */
  lemma UpsertedEntryOnce(entries: seq<IndexEntry>, searchId: string, totalResults: int, createdAt: string)
    ensures multiset(Upserted(entries, searchId, totalResults, createdAt))[IndexEntry(searchId, totalResults, createdAt, "completed")] == 1
    ensures forall e :: e in Upserted(entries, searchId, totalResults, createdAt) && e.searchId == searchId ==>
      e == IndexEntry(searchId, totalResults, createdAt, "completed")
  {
    var entry := IndexEntry(searchId, totalResults, createdAt, "completed");
    UpsertedProperties(entries, searchId, totalResults, createdAt);
    FilterCharacterized(entries, OtherId(searchId));
    assert entry !in WithoutId(entries, searchId);
  }

  /** An element at two positions is counted at least twice. */
  lemma RepeatedCount<T>(s: seq<T>, i: int, j: int)
    requires 0 <= i < j < |s| || 0 <= j < i < |s|
    requires s[i] == s[j]
    ensures multiset(s)[s[i]] >= 2
  {
    var lo := if i < j then i else j;
    var hi := if i < j then j else i;
    assert s == s[..lo] + [s[lo]] + s[lo + 1..];
    assert s[lo + 1..][hi - lo - 1] == s[hi];
    assert s[hi] in multiset(s[lo + 1..]);
  }

  /** After a removal no entry carries the id, and the others keep their
      order. */
  lemma RemovedProperties(entries: seq<IndexEntry>, searchId: string)
    ensures IsSubsequence(WithoutId(entries, searchId), entries)
    ensures forall e :: e in WithoutId(entries, searchId) <==> e in entries && e.searchId != searchId
  {
    FilterCharacterized(entries, OtherId(searchId));
  }

  // ---------------------------------------------------------------------
  // Listing

  predicate IsJsonName(name: string) {
    |name| >= 5 && name[|name| - 5..] == ".json"
  }

  /** The entry `list_searches` builds for a readable `.json` file. */
  function ListingOf(dir: string, name: string, f: SearchFile): Listing
    requires IsJsonName(name)
  {
    Listing(name[..|name| - 5], f.totalResults, f.createdAt, dir + "/" + name)
  }

  // ---------------------------------------------------------------------
  // Full texts

  /** The metadata `store_article_fulltext` writes: missing fields read as
      empty, the length of the text, and the PDF path moved into the data
      directory when the original file exists. */
  function StoredMeta(dataDir: string, pmid: string, data: Record, pdfExists: bool): (m: FulltextMeta)
    ensures m.textLength == |GetStr(data, "full_text", "")|
    ensures m.pdfPath == if Has(data, "pdf_path") && pdfExists then dataDir + "/pdfs/" + pmid + ".pdf"
                         else GetStr(data, "pdf_path", "")
  {
    var pdfPath := if Has(data, "pdf_path") && pdfExists then dataDir + "/pdfs/" + pmid + ".pdf"
                   else GetStr(data, "pdf_path", "");
    FulltextMeta(pmid, GetStr(data, "full_text_source", ""), pdfPath,
                 GetStr(data, "download_timestamp", ""), |GetStr(data, "full_text", "")|)
  }

  /** What `get_article_fulltext` returns for a stored text and metadata. */
  function FulltextView(text: string, m: FulltextMeta): (r: Record)
    ensures r.Keys == {"full_text", "full_text_source", "pdf_path", "download_timestamp"}
  {
    map["full_text" := Str(text), "full_text_source" := Str(m.source),
        "pdf_path" := Str(m.pdfPath), "download_timestamp" := Str(m.downloadTimestamp)]
  }

  /** Storing then reading back gives the same text, source and timestamp;
      the PDF path is the input's unless the PDF was copied. */
  lemma StoreGetRoundTrip(dataDir: string, pmid: string, data: Record, pdfExists: bool)
    ensures var r := FulltextView(GetStr(data, "full_text", ""), StoredMeta(dataDir, pmid, data, pdfExists));
      && GetStr(r, "full_text", "") == GetStr(data, "full_text", "")
      && GetStr(r, "full_text_source", "") == GetStr(data, "full_text_source", "")
      && GetStr(r, "download_timestamp", "") == GetStr(data, "download_timestamp", "")
      && (!pdfExists ==> GetStr(r, "pdf_path", "") == GetStr(data, "pdf_path", ""))
  {
  }

  // ---------------------------------------------------------------------
  // The manager

  class Storage {
    const dataDir: string
    /** search_index.json, when it exists. */
    var index: Option<seq<IndexEntry>>
    /** search_results/: file name to content, None for an unreadable file. */
    var searchDir: map<string, Option<SearchFile>>
    /** texts/<pmid>.txt */
    var texts: map<string, string>
    /** metadata/<pmid>.json */
    var metadata: map<string, FulltextMeta>
    /** Other files known to exist, such as downloaded PDFs. */
    var files: set<string>

    constructor (dataDir: string)
      ensures this.dataDir == dataDir
      ensures index == None && searchDir == map[] && texts == map[] && metadata == map[] && files == {}
    {
      this.dataDir := dataDir;
      index := None;
      searchDir := map[];
      texts := map[];
      metadata := map[];
      files := {};
    }

    /** A file another component wrote into the data directory, such as a
        PDF the full-text downloader saved. */
    method RecordFile(path: string)
      modifies this`files
      ensures files == old(files) + {path}
    {
      files := files + {path};
    }

    /** `_update_search_index`. */
    method UpdateSearchIndex(searchId: string, totalResults: int, createdAt: string)
      modifies this
      ensures index == Some(Upserted(old(index).GetOr([]), searchId, totalResults, createdAt))
      ensures searchDir == old(searchDir) && texts == old(texts) && metadata == old(metadata) && files == old(files)
    {
      var entries := if index.Some? then index.value else [];
      var kept := WithoutId(entries, searchId);
      var sorted := SortNewestFirst(kept + [IndexEntry(searchId, totalResults, createdAt, "completed")], EntryCreatedAt);
      index := Some(sorted);
    }

    /** `_remove_from_search_index`: nothing happens without an index. */
    method RemoveFromSearchIndex(searchId: string)
      modifies this
      ensures old(index).None? ==> index == None
      ensures old(index).Some? ==> index == Some(WithoutId(old(index).value, searchId))
      ensures searchDir == old(searchDir) && texts == old(texts) && metadata == old(metadata) && files == old(files)
    {
      if index.Some? {
        index := Some(WithoutId(index.value, searchId));
      }
    }

    /** `store_results`: the search file, then the index. */
    method StoreResults(searchId: string, results: seq<Record>, now: string) returns (ok: bool)
      modifies this
      ensures ok
      ensures searchDir == old(searchDir)[searchId + ".json" := Some(SearchFile(searchId, |results|, now, results))]
      ensures index == Some(Upserted(old(index).GetOr([]), searchId, |results|, now))
      ensures texts == old(texts) && metadata == old(metadata) && files == old(files)
    {
      searchDir := searchDir[searchId + ".json" := Some(SearchFile(searchId, |results|, now, results))];
      UpdateSearchIndex(searchId, |results|, now);
      ok := true;
    }

    /** `get_results` from local storage: the stored results, or nothing for
      a missing or unreadable file. */
    method GetResults(searchId: string) returns (r: Option<seq<Record>>)
      ensures r.Some? <==> searchId + ".json" in searchDir && searchDir[searchId + ".json"].Some?
      ensures r.Some? ==> r.value == searchDir[searchId + ".json"].value.results
    {
      var name := searchId + ".json";
      if name in searchDir && searchDir[name].Some? {
        return Some(searchDir[name].value.results);
      }
      return None;
    }

    /** `delete_results`: the file goes, then the index entry. */
    method DeleteResults(searchId: string) returns (ok: bool)
      modifies this
      ensures ok
      ensures searchDir == old(searchDir) - {searchId + ".json"}
      ensures old(index).None? ==> index == None
      ensures old(index).Some? ==> index == Some(WithoutId(old(index).value, searchId))
      ensures texts == old(texts) && metadata == old(metadata) && files == old(files)
    {
      searchDir := searchDir - {searchId + ".json"};
      RemoveFromSearchIndex(searchId);
      ok := true;
    }

    /** The listings of the readable `.json` files. */
    ghost function Listings(): set<Listing>
      reads this
    {
      ListingsAmong(searchDir.Keys)
    }

    /** The listings of the readable `.json` files among `names`. */
    ghost function ListingsAmong(names: set<string>): set<Listing>
      reads this
    {
      set name | name in names && name in searchDir && IsJsonName(name) && searchDir[name].Some? ::
        ListingOf(dataDir + "/search_results", name, searchDir[name].value)
    }

    /** `list_searches`: one listing per readable `.json` file, newest first. */
    method ListSearches() returns (searches: seq<Listing>)
      ensures (set l | l in searches) == Listings()
      ensures SortedDesc(searches, ListingCreatedAt)
      ensures NoDuplicates(searches)
    {
      var dir := dataDir + "/search_results";
      var names := searchDir.Keys;
      var found: seq<Listing> := [];
      ghost var seen: set<string> := {};
      while names != {}
        invariant names + seen == searchDir.Keys && names !! seen
        invariant (set l | l in found) == ListingsAmong(seen)
        invariant forall i :: 0 <= i < |found| ==>
                    (|found[i].localPath| >= |dir| + 1 && found[i].localPath[|dir| + 1..] in seen)
        invariant NoDuplicates(found)
        decreases names
      {
        var name :| name in names;
        if IsJsonName(name) && searchDir[name].Some? {
          var l := ListingOf(dir, name, searchDir[name].value);
          assert l.localPath[|dir| + 1..] == name;
          assert ListingsAmong(seen + {name}) == ListingsAmong(seen) + {l};
          assert (set x | x in found + [l]) == (set x | x in found) + {l};
          found := found + [l];
        } else {
          assert ListingsAmong(seen + {name}) == ListingsAmong(seen);
        }
        names := names - {name};
        seen := seen + {name};
      }
      searches := SortNewestFirst(found, ListingCreatedAt);
      PermutationKeepsDistinct(found, searches);
      SameMembers(searches, found);
    }

    /** `store_article_fulltext`: the text and its metadata; a PDF whose
        file exists is copied into the data directory. */
    method StoreArticleFulltext(pmid: string, data: Record) returns (ok: bool)
      modifies this
      ensures ok
      ensures texts == old(texts)[pmid := GetStr(data, "full_text", "")]
      ensures metadata == old(metadata)[pmid := StoredMeta(dataDir, pmid, data, GetStr(data, "pdf_path", "") in old(files))]
      ensures files == if Has(data, "pdf_path") && GetStr(data, "pdf_path", "") in old(files)
                       then old(files) + {dataDir + "/pdfs/" + pmid + ".pdf"} else old(files)
      ensures index == old(index) && searchDir == old(searchDir)
    {
      var text := GetStr(data, "full_text", "");
      texts := texts[pmid := text];
      var meta := FulltextMeta(pmid, GetStr(data, "full_text_source", ""), GetStr(data, "pdf_path", ""),
                               GetStr(data, "download_timestamp", ""), |text|);
      metadata := metadata[pmid := meta];
      if Has(data, "pdf_path") && GetStr(data, "pdf_path", "") in files {
        var dest := dataDir + "/pdfs/" + pmid + ".pdf";
        files := files + {dest};
        meta := meta.(pdfPath := dest);
        metadata := metadata[pmid := meta];
      }
      ok := true;
    }

    /** `get_article_fulltext` from local storage. */
    method GetArticleFulltext(pmid: string) returns (r: Option<Record>)
      ensures r.Some? <==> pmid in texts && pmid in metadata
      ensures r.Some? ==> r.value == FulltextView(texts[pmid], metadata[pmid])
    {
      if pmid in texts && pmid in metadata {
        return Some(FulltextView(texts[pmid], metadata[pmid]));
      }
      return None;
    }
  }

  /** A permutation of a list without duplicates has none. */
  lemma PermutationKeepsDistinct<T>(a: seq<T>, b: seq<T>)
    requires NoDuplicates(a) && multiset(a) == multiset(b)
    ensures NoDuplicates(b)
  {
    forall i, j | 0 <= i < j < |b|
      ensures b[i] != b[j]
    {
      if b[i] == b[j] {
        RepeatedCount(b, i, j);
        DistinctCountOne(a, b[i]);
      }
    }
  }

  lemma {:induction false} DistinctCountOne<T>(a: seq<T>, x: T)
    requires NoDuplicates(a)
    ensures multiset(a)[x] <= 1
  {
    if a != [] {
      DistinctCountOne(a[1..], x);
      assert a == [a[0]] + a[1..];
      if a[0] == x {
        assert x !in a[1..];
      }
    }
  }
}
