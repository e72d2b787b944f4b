/** Full-text retrieval: an earlier download is reused; otherwise four
    sources are tried in a fixed order and the first one that yields a
    non-empty text wins. What each source's network requests and PDF or HTML
    parsing return is an input (`Net`); the guards the downloader applies to
    those answers, and the strings it builds, are modelled. */
module FulltextDownloader {
  import opened Base
  import opened Strings

  type Byte = b: int | 0 <= b < 256

  /** The four sources, in the order they are tried. */
  datatype Source = PubMedCentral | Arxiv | SciHub | DirectPdf

  const SourceOrder: seq<Source> := [PubMedCentral, Arxiv, SciHub, DirectPdf]

  function SourceName(src: Source): string {
    match src
    case PubMedCentral => "pubmed_central"
    case Arxiv => "arxiv"
    case SciHub => "sci_hub"
    case DirectPdf => "direct_pdf"
  }

  /** An HTTP answer: status and body. */
  datatype Response = Response(status: int, content: seq<Byte>)

  /** What the outside world answers while one article is downloaded. */
  datatype Net = Net(
    driverReady: bool,                    // the browser driver started
    pmcPage: Option<string>,              // the PMC page's text before cleanup (`soup.get_text()`), when it answered 200
    arxivPdf: Option<Response>,           // answer for the PDF link of the first arXiv hit
    sciHubPdf: Option<Response>,          // answer for the first PDF link on the Sci-Hub page
    pdfAt: string -> Option<Response>,    // answer for a direct URL; None: the request raised
    pdfText: seq<Byte> -> string,         // text extracted from PDF bytes
    raises: set<Source>,                  // sources whose call raises out of the adapter; the PMC and arXiv
                                          // adapters catch everything themselves, so for them this is empty
                                          // in practice, and a raise acts like a failure anyway
    pdfDir: string,
    timestamp: string)

  /** What one source adapter did. */
  datatype Attempt = Raised | Returned(result: Option<Record>)

  // ---------------------------------------------------------------------
  // Guards

  /** arXiv is only consulted for titles that mention arXiv or a preprint. */
  predicate ArxivEligible(title: string) {
    Contains(Lower(title), "arxiv") || Contains(Lower(title), "preprint")
  }

  /** Sci-Hub and the direct links need a real DOI. */
  predicate DoiUsable(doi: string) {
    doi != "" && doi != "N/A"
  }

  /** The PDF magic number `%PDF`. */
  const PdfMagic: seq<Byte> := [37, 80, 68, 70]

  predicate IsPdf(content: seq<Byte>) {
    |content| >= 4 && content[..4] == PdfMagic
  }

  /** `_download_pdf`: the body of a 200 answer that starts like a PDF. */
  function DownloadPdf(answer: Option<Response>): (r: Option<seq<Byte>>)
    ensures r.Some? <==> answer.Some? && answer.value.status == 200 && IsPdf(answer.value.content)
    ensures r.Some? ==> r.value == answer.value.content && r.value[..4] == PdfMagic
  {
    if answer.Some? && answer.value.status == 200 && IsPdf(answer.value.content)
    then Some(answer.value.content) else None
  }

  /** PMC text is only accepted when longer than 1000 characters. */
  predicate PmcTextAccepted(text: string) {
    text != "" && |text| > 1000
  }

  /** A direct PDF is only accepted when larger than 10000 bytes. */
  predicate DirectPdfAccepted(content: seq<Byte>) {
    |content| > 10000
  }

  // ---------------------------------------------------------------------
  // Results

  /** The record every successful source returns. */
  function DownloadRecord(text: string, src: Source, pdfPath: string, timestamp: string): (r: Record)
    ensures r.Keys == {"full_text", "full_text_source", "pdf_path", "download_timestamp"}
    ensures GetStr(r, "full_text", "") == text && GetStr(r, "pdf_path", "") == pdfPath
    ensures GetStr(r, "full_text_source", "") == SourceName(src)
  {
    map["full_text" := Str(text), "full_text_source" := Str(SourceName(src)),
        "pdf_path" := Str(pdfPath), "download_timestamp" := Str(timestamp)]
  }

  /** Where a source saves the PDF it used. */
  function PdfPath(article: Record, net: Net): string {
    net.pdfDir + "/" + GetStr(article, "pmid", "unknown") + ".pdf"
  }

  /** The part of a DOI after its last '/', as `doi.split('/')[-1]`. */
  function AfterLastSlash(doi: string): (r: string)
    ensures '/' !in r
    ensures |r| <= |doi| && doi[|doi| - |r|..] == r
  {
    var parts := SplitOn(doi, '/');
    SplitByPiecesFree(doi, x => x == '/');
    SplitByLastSuffix(doi, x => x == '/');
    var last := parts[|parts| - 1];
    assert forall i :: 0 <= i < |last| ==> last[i] != '/';
    last
  }

  /** The journal URLs tried for a DOI, in order. */
  function DirectPdfUrls(doi: string): (urls: seq<string>)
    ensures |urls| == 4
    ensures urls[0] == "https://doi.org/" + doi + ".pdf"
    ensures urls[1] == "https://link.springer.com/content/pdf/" + doi + ".pdf"
    ensures urls[2] == "https://onlinelibrary.wiley.com/doi/pdfdirect/" + doi
    ensures urls[3] == "https://www.nature.com/articles/" + AfterLastSlash(doi) + ".pdf"
  {
    ["https://doi.org/" + doi + ".pdf",
     "https://link.springer.com/content/pdf/" + doi + ".pdf",
     "https://onlinelibrary.wiley.com/doi/pdfdirect/" + doi,
     "https://www.nature.com/articles/" + AfterLastSlash(doi) + ".pdf"]
  }

  /** The first URL whose answer is a PDF of more than 10000 bytes with
      extractable text; its text. */
  function FirstDirectHit(urls: seq<string>, net: Net): Option<string>
  {
    if urls == [] then None
    else
      var pdf := DownloadPdf(net.pdfAt(urls[0]));
      if pdf.Some? && DirectPdfAccepted(pdf.value) && net.pdfText(pdf.value) != ""
      then Some(net.pdfText(pdf.value))
      else FirstDirectHit(urls[1..], net)
  }

  /** The loop of `_download_direct_pdf` over the candidate URLs. */
  method TryDirectUrls(urls: seq<string>, net: Net) returns (text: Option<string>)
    ensures text == FirstDirectHit(urls, net)
  {
    var i := 0;
    while i < |urls|
      invariant 0 <= i <= |urls|
      invariant FirstDirectHit(urls, net) == FirstDirectHit(urls[i..], net)
    {
      assert urls[i..][1..] == urls[i + 1..];
      var pdf := DownloadPdf(net.pdfAt(urls[i]));
      if pdf.Some? && DirectPdfAccepted(pdf.value) && net.pdfText(pdf.value) != "" {
        return Some(net.pdfText(pdf.value));
      }
      i := i + 1;
    }
    return None;
  }

  /** A direct hit is text from a PDF of more than 10000 bytes from one of
      the candidate URLs. */
  lemma {:induction false} FirstDirectHitSound(urls: seq<string>, net: Net)
    requires FirstDirectHit(urls, net).Some?
    ensures exists k :: 0 <= k < |urls| && DownloadPdf(net.pdfAt(urls[k])).Some?
              && DirectPdfAccepted(DownloadPdf(net.pdfAt(urls[k])).value)
              && FirstDirectHit(urls, net).value == net.pdfText(DownloadPdf(net.pdfAt(urls[k])).value)
              && FirstDirectHit(urls, net).value != ""
  {
    var pdf := DownloadPdf(net.pdfAt(urls[0]));
    if !(pdf.Some? && DirectPdfAccepted(pdf.value) && net.pdfText(pdf.value) != "") {
      FirstDirectHitSound(urls[1..], net);
      var k :| 0 <= k < |urls[1..]| && DownloadPdf(net.pdfAt(urls[1..][k])).Some?
               && DirectPdfAccepted(DownloadPdf(net.pdfAt(urls[1..][k])).value)
               && FirstDirectHit(urls[1..], net).value == net.pdfText(DownloadPdf(net.pdfAt(urls[1..][k])).value)
               && FirstDirectHit(urls[1..], net).value != "";
      assert urls[1..][k] == urls[k + 1];
    }
  }

  /** One source adapter, guards first. */
  function Adapter(src: Source, article: Record, net: Net): (a: Attempt)
    ensures src == Arxiv && !ArxivEligible(GetStr(article, "title", "")) ==> a == Returned(None)
    ensures src == SciHub && (!net.driverReady || !DoiUsable(GetStr(article, "doi", ""))) ==> a == Returned(None)
    ensures src == DirectPdf && !DoiUsable(GetStr(article, "doi", "")) ==> a == Returned(None)
    ensures a.Returned? && a.result.Some? ==>
              a.result.value == DownloadRecord(GetStr(a.result.value, "full_text", ""), src,
                                               GetStr(a.result.value, "pdf_path", ""), net.timestamp)
              && GetStr(a.result.value, "full_text", "") != ""
    ensures a.Returned? && a.result.Some? ==>
              GetStr(a.result.value, "pdf_path", "") == (if src == PubMedCentral then "" else PdfPath(article, net))
    ensures src == PubMedCentral && a.Returned? ==> a == PmcAttempt(net.pmcPage, net.timestamp)
  {
    var doi := GetStr(article, "doi", "");
    match src
    case PubMedCentral =>
      if src in net.raises then Raised
      else PmcAttempt(net.pmcPage, net.timestamp)
    case Arxiv =>
      if !ArxivEligible(GetStr(article, "title", "")) then Returned(None)
      else if src in net.raises then Raised
      else PdfSourceAttempt(src, net.arxivPdf, article, net)
    case SciHub =>
      if !net.driverReady || !DoiUsable(doi) then Returned(None)
      else if src in net.raises then Raised
      else PdfSourceAttempt(src, net.sciHubPdf, article, net)
    case DirectPdf =>
      if !DoiUsable(doi) then Returned(None)
      else if src in net.raises then Raised
      else
        var hit := FirstDirectHit(DirectPdfUrls(doi), net);
        if hit.Some? then
          FirstDirectHitSound(DirectPdfUrls(doi), net);
          Returned(Some(DownloadRecord(hit.value, src, PdfPath(article, net), net.timestamp)))
        else Returned(None)
  }

  /** PubMed Central: the page text is cleaned up, and the cleaned text is
      kept when it is long enough. */
  function PmcAttempt(page: Option<string>, timestamp: string): (a: Attempt)
    ensures a.Returned?
    ensures a.result.Some? <==> page.Some? && PmcTextAccepted(CleanText(page.value))
    ensures a.result.Some? ==> a.result.value == DownloadRecord(CleanText(page.value), PubMedCentral, "", timestamp)
    ensures a.result.Some? ==> GetStr(a.result.value, "full_text", "") == CleanText(page.value) != ""
  {
    if page.Some? && PmcTextAccepted(CleanText(page.value))
    then Returned(Some(DownloadRecord(CleanText(page.value), PubMedCentral, "", timestamp)))
    else Returned(None)
  }

  /** arXiv and Sci-Hub: a PDF answer with extractable text. */
  function PdfSourceAttempt(src: Source, answer: Option<Response>, article: Record, net: Net): Attempt
  {
    var pdf := DownloadPdf(answer);
    if pdf.Some? && net.pdfText(pdf.value) != ""
    then Returned(Some(DownloadRecord(net.pdfText(pdf.value), src, PdfPath(article, net), net.timestamp)))
    else Returned(None)
  }

  /** `result and result.get('full_text')`. */
  predicate Succeeded(a: Attempt) {
    a.Returned? && a.result.Some? && Has(a.result.value, "full_text")
  }

  /** The result of the first source that succeeds, or the article itself. */
  function FirstSuccess(sources: seq<Source>, article: Record, net: Net): Record
  {
    if sources == [] then article
    else
      var a := Adapter(sources[0], article, net);
      if Succeeded(a) then a.result.value else FirstSuccess(sources[1..], article, net)
  }

  /** `_check_existing_download`: a saved text with its metadata file. */
  function ExistingDownload(saved: Option<(string, Record)>): (r: Option<Record>)
    ensures r.Some? <==> saved.Some?
    ensures r.Some? ==> GetStr(r.value, "full_text", "") == saved.value.0
  {
    match saved
    case None => None
    case Some((text, meta)) =>
      Some(map["full_text" := Str(text),
               "full_text_source" := Str(GetStr(meta, "source", "unknown")),
               "pdf_path" := Str(GetStr(meta, "pdf_path", "")),
               "download_timestamp" := Str(GetStr(meta, "download_timestamp", ""))])
  }

  /** `_check_existing_download` over the downloader's directories: a text
      file and a metadata file for the PMID. A metadata file that cannot be
      parsed is absent from `metadata`. */
  function SavedIn(texts: map<string, string>, metadata: map<string, Record>, pmid: string): (saved: Option<(string, Record)>)
    ensures saved.Some? <==> pmid in texts && pmid in metadata
    ensures saved.Some? ==> saved.value == (texts[pmid], metadata[pmid])
  {
    if pmid in texts && pmid in metadata then Some((texts[pmid], metadata[pmid])) else None
  }

  /** What `download_full_text` returns: the saved copy, or the first
      success, or the article itself. */
  function Fetched(saved: Option<(string, Record)>, article: Record, net: Net): Record {
    if saved.Some? then ExistingDownload(saved).value else FirstSuccess(SourceOrder, article, net)
  }

  /** Some source yields a text. */
  predicate AnySucceeds(article: Record, net: Net) {
    exists k :: 0 <= k < |SourceOrder| && Succeeded(Adapter(SourceOrder[k], article, net))
  }

  /** The PDF file a download writes into the PDF directory: the arXiv,
      Sci-Hub and direct-PDF sources save the PDF they used before they
      return, PubMed Central saves none, and a reused copy writes nothing. */
  function WrittenPdf(saved: Option<(string, Record)>, article: Record, net: Net): Option<string> {
    var pdfPath := GetStr(FirstSuccess(SourceOrder, article, net), "pdf_path", "");
    if saved.None? && AnySucceeds(article, net) && pdfPath != "" then Some(pdfPath) else None
  }

  /** A fresh download writes a PDF exactly when the winning source is not
      PubMed Central, and the file is the article's path in the PDF
      directory. */
  lemma WinnerWritesPdf(article: Record, net: Net, k: nat)
    requires k < |SourceOrder| && Succeeded(Adapter(SourceOrder[k], article, net))
    requires forall j :: 0 <= j < k ==> !Succeeded(Adapter(SourceOrder[j], article, net))
    ensures WrittenPdf(None, article, net) == if SourceOrder[k] == PubMedCentral then None else Some(PdfPath(article, net))
  {
    FirstSuccessWins(SourceOrder, article, net, k);
    assert AnySucceeds(article, net);
  }

  /** The metadata file `_save_full_text` writes for a result. */
  function SavedMeta(pmid: string, result: Record): (m: Record)
    ensures m.Keys == {"pmid", "source", "pdf_path", "download_timestamp", "text_length"}
    ensures GetStr(m, "source", "unknown") == GetStr(result, "full_text_source", "")
    ensures GetInt(m, "text_length", 0) == |GetStr(result, "full_text", "")|
  {
    map["pmid" := Str(pmid),
        "source" := Str(GetStr(result, "full_text_source", "")),
        "pdf_path" := Str(GetStr(result, "pdf_path", "")),
        "download_timestamp" := Str(GetStr(result, "download_timestamp", "")),
        "text_length" := Int(|GetStr(result, "full_text", "")|)]
  }

  /** The downloader's directories after one `download_full_text`: a new
      download is saved under the article's PMID; a reused one or a failure
      writes nothing. */
  function SavedAfter(texts: map<string, string>, metadata: map<string, Record>, article: Record, net: Net)
    : (map<string, string>, map<string, Record>)
  {
    var pmid := GetStr(article, "pmid", "");
    if SavedIn(texts, metadata, pmid).None? && AnySucceeds(article, net) then
      var r := FirstSuccess(SourceOrder, article, net);
      (texts[pmid := GetStr(r, "full_text", "")], metadata[pmid := SavedMeta(pmid, r)])
    else (texts, metadata)
  }

  /** A saved result reads back as itself. */
  lemma SavedReadsBack(pmid: string, text: string, src: Source, pdfPath: string, timestamp: string)
    ensures var r := DownloadRecord(text, src, pdfPath, timestamp);
      ExistingDownload(Some((text, SavedMeta(pmid, r)))) == Some(r)
  {
  }

  /** A download saves nothing under any other PMID. */
  lemma SavedAfterKeepsOthers(texts: map<string, string>, metadata: map<string, Record>, article: Record, net: Net, other: string)
    requires other != GetStr(article, "pmid", "")
    ensures var after := SavedAfter(texts, metadata, article, net);
      SavedIn(after.0, after.1, other) == SavedIn(texts, metadata, other)
  {
  }

  /** The downloader object: its directories of saved texts and metadata. */
  class Downloader {
    /** texts/<pmid>.txt */
    var texts: map<string, string>
    /** metadata/<pmid>.json */
    var metadata: map<string, Record>

    /** `__init__`: the directories may already hold earlier downloads. */
    constructor (texts: map<string, string>, metadata: map<string, Record>)
      ensures this.texts == texts && this.metadata == metadata
    {
      this.texts := texts;
      this.metadata := metadata;
    }

    function Saved(pmid: string): Option<(string, Record)>
      reads this
    {
      SavedIn(texts, metadata, pmid)
    }

    /** `download_full_text`: reuse a saved copy, or try the sources in
        order and save the first result with text; `pdf` is the PDF file
        the winning source wrote, if any. */
    method DownloadFullText(article: Record, net: Net) returns (r: Record, pdf: Option<string>)
      modifies this
      ensures r == Fetched(old(Saved(GetStr(article, "pmid", ""))), article, net)
      ensures pdf == WrittenPdf(old(Saved(GetStr(article, "pmid", ""))), article, net)
      ensures pdf.Some? ==>
                && pdf.value == PdfPath(article, net) == GetStr(r, "pdf_path", "")
                && Has(r, "full_text") && GetStr(r, "full_text_source", "") != SourceName(PubMedCentral)
      ensures (texts, metadata) == SavedAfter(old(texts), old(metadata), article, net)
      ensures old(Saved(GetStr(article, "pmid", ""))).Some? || AnySucceeds(article, net) ==>
                ExistingDownload(Saved(GetStr(article, "pmid", ""))) == Some(r)
    {
      var pmid := GetStr(article, "pmid", "");
      var existing := ExistingDownload(Saved(pmid));
      if existing.Some? {
        return existing.value, None;
      }
      var winner := TrySources(article, net);
      if winner.None? {
        return article, None;
      }
      var (src, found) := winner.value;
      r := found;
      SavedReadsBack(pmid, GetStr(r, "full_text", ""), src, GetStr(r, "pdf_path", ""), net.timestamp);
      texts := texts[pmid := GetStr(r, "full_text", "")];
      metadata := metadata[pmid := SavedMeta(pmid, r)];
      pdf := if GetStr(r, "pdf_path", "") != "" then Some(GetStr(r, "pdf_path", "")) else None;
    }
  }

  /** The loop of `download_full_text` over the sources: the first source
      that succeeds, with its result, or none when every source fails. */
  method TrySources(article: Record, net: Net) returns (winner: Option<(Source, Record)>)
    ensures winner.Some? <==> AnySucceeds(article, net)
    ensures winner.None? ==> FirstSuccess(SourceOrder, article, net) == article
    ensures winner.Some? ==>
              var a := Adapter(winner.value.0, article, net);
              && Succeeded(a) && winner.value.1 == a.result.value
              && winner.value.1 == FirstSuccess(SourceOrder, article, net)
  {
    var i := 0;
    while i < |SourceOrder|
      invariant 0 <= i <= |SourceOrder|
      invariant FirstSuccess(SourceOrder, article, net) == FirstSuccess(SourceOrder[i..], article, net)
      invariant forall j :: 0 <= j < i ==> !Succeeded(Adapter(SourceOrder[j], article, net))
    {
      assert SourceOrder[i..][1..] == SourceOrder[i + 1..];
      var a := Adapter(SourceOrder[i], article, net);
      if Succeeded(a) {
        return Some((SourceOrder[i], a.result.value));
      }
      i := i + 1;
    }
    return None;
  }

  /** The result is the article itself when no source succeeds. */
  lemma {:induction false} NoSuccessKeepsArticle(sources: seq<Source>, article: Record, net: Net)
    requires forall k :: 0 <= k < |sources| ==> !Succeeded(Adapter(sources[k], article, net))
    ensures FirstSuccess(sources, article, net) == article
  {
    if sources != [] {
      assert !Succeeded(Adapter(sources[0], article, net));
      forall k | 0 <= k < |sources[1..]|
        ensures !Succeeded(Adapter(sources[1..][k], article, net))
      {
        assert sources[1..][k] == sources[k + 1];
      }
      NoSuccessKeepsArticle(sources[1..], article, net);
    }
  }

  /** Otherwise it is the record of the first source that succeeds, every
      earlier one having failed or raised. */
  lemma {:induction false} FirstSuccessWins(sources: seq<Source>, article: Record, net: Net, k: nat)
    requires k < |sources| && Succeeded(Adapter(sources[k], article, net))
    requires forall j :: 0 <= j < k ==> !Succeeded(Adapter(sources[j], article, net))
    ensures FirstSuccess(sources, article, net) == Adapter(sources[k], article, net).result.value
  {
    if k > 0 {
      assert !Succeeded(Adapter(sources[0], article, net));
      assert sources[1..][k - 1] == sources[k];
      forall j | 0 <= j < k - 1
        ensures !Succeeded(Adapter(sources[1..][j], article, net))
      {
        assert sources[1..][j] == sources[j + 1];
      }
      FirstSuccessWins(sources[1..], article, net, k - 1);
    }
  }

  /** Without a usable DOI and with a title that names neither arXiv nor a
      preprint, only PubMed Central can supply the text. */
  lemma OnlyPmcWithoutDoiOrPreprint(article: Record, net: Net)
    requires !DoiUsable(GetStr(article, "doi", ""))
    requires !ArxivEligible(GetStr(article, "title", ""))
    ensures FirstSuccess(SourceOrder, article, net) == FirstSuccess([PubMedCentral], article, net)
  {
    assert !Succeeded(Adapter(Arxiv, article, net));
    assert !Succeeded(Adapter(SciHub, article, net));
    assert !Succeeded(Adapter(DirectPdf, article, net));
    assert [DirectPdf][1..] == [];
    assert FirstSuccess([DirectPdf], article, net) == article;
    assert [SciHub, DirectPdf][1..] == [DirectPdf];
    assert FirstSuccess([SciHub, DirectPdf], article, net) == article;
    assert [Arxiv, SciHub, DirectPdf][1..] == [SciHub, DirectPdf];
    assert FirstSuccess([Arxiv, SciHub, DirectPdf], article, net) == article;
    assert SourceOrder[1..] == [Arxiv, SciHub, DirectPdf];
    assert [PubMedCentral][1..] == [];
  }

  /** Any downloaded text is non-empty and names the source it came from. */
  lemma {:induction false} DownloadNamesItsSource(sources: seq<Source>, article: Record, net: Net)
    ensures var r := FirstSuccess(sources, article, net);
      r == article || (GetStr(r, "full_text", "") != "" &&
                       exists k :: 0 <= k < |sources| && GetStr(r, "full_text_source", "") == SourceName(sources[k]))
  {
    if sources != [] {
      DownloadNamesItsSource(sources[1..], article, net);
      var r := FirstSuccess(sources, article, net);
      if r != article && !Succeeded(Adapter(sources[0], article, net)) {
        var k :| 0 <= k < |sources[1..]| && GetStr(r, "full_text_source", "") == SourceName(sources[1..][k]);
        assert sources[1..][k] == sources[k + 1];
      }
    }
  }

  // ---------------------------------------------------------------------
  // Strings

  /** The author name in an arXiv query: the first author up to the first
      comma, stripped. */
  function FirstAuthorSurname(author: string): (r: string)
    ensures ',' !in r
    ensures r == [] || (!IsSpace(r[0]) && !IsSpace(r[|r| - 1]))
  {
    var parts := SplitOn(author, ',');
    var first := parts[0];
    assert ',' !in first by {
      SplitByPiecesFree(author, x => x == ',');
    }
    StripInside(first);
    Strip(first)
  }

  lemma StripInside(s: string)
    ensures forall c :: c in Strip(s) ==> c in s
  {
    var l := TrimLeft(s);
    var r := TrimRight(l);
    forall c | c in r
      ensures c in s
    {
      var i :| 0 <= i < |r| && r[i] == c;
      assert r[i] == l[i];
      assert l[i] == s[|s| - |l| + i];
    }
  }

  /** The first five words of a title, joined by single spaces. */
  function TitleWords(title: string): string {
    Join(" ", Prefix(Words(title), 5))
  }

  /** `_build_arxiv_query`. */
  method BuildArxivQuery(article: Record) returns (query: string)
    ensures var authors := GetList(article, "authors"); var title := GetStr(article, "title", "");
      var au := if authors != [] then ["au:" + FirstAuthorSurname(authors[0])] else [];
      var ti := if title != "" then ["ti:" + TitleWords(title)] else [];
      query == Join("+AND+", au + ti)
  {
    var title := GetStr(article, "title", "");
    var authors := GetList(article, "authors");
    var parts: seq<string> := [];
    if authors != [] {
      parts := parts + ["au:" + FirstAuthorSurname(authors[0])];
    }
    if title != "" {
      parts := parts + ["ti:" + TitleWords(title)];
    }
    query := Join("+AND+", parts);
  }

  /** The title part of the query holds at most five words, and they are
      the title's first words. */
  lemma TitleWordsAreFirstFive(title: string)
    ensures Words(TitleWords(title)) == Prefix(Words(title), 5)
    ensures |Words(TitleWords(title))| <= 5
  {
    var ws := Prefix(Words(title), 5);
    assert forall k :: 0 <= k < |ws| ==> ws[k] == Words(title)[k];
    WordsOfJoin(ws);
  }

  /** The non-empty stripped phrases of one line, as `line.strip().split("  ")`
      and `phrase.strip()` leave them. */
  function LinePhrases(line: string): (ps: seq<string>)
    ensures forall k :: 0 <= k < |ps| ==> Trimmed(ps[k])
  {
    StrippedPiecesTrimmed(Split(Strip(line), "  "));
    Filter(StrippedAll(Split(Strip(line), "  ")), IsNonEmpty)
  }

  predicate IsNonEmpty(p: string) { p != "" }

  /** The stripped pieces that are not empty have no surrounding space. */
  lemma StrippedPiecesTrimmed(pieces: seq<string>)
    ensures forall k :: 0 <= k < |Filter(StrippedAll(pieces), IsNonEmpty)| ==>
      Trimmed(Filter(StrippedAll(pieces), IsNonEmpty)[k])
  {
    var stripped := StrippedAll(pieces);
    forall x | x in stripped && IsNonEmpty(x)
      ensures Trimmed(x)
    {
      var j :| 0 <= j < |stripped| && stripped[j] == x;
    }
    FilterPreserves(stripped, IsNonEmpty, Trimmed);
    var ps := Filter(stripped, IsNonEmpty);
    forall k | 0 <= k < |ps|
      ensures Trimmed(ps[k])
    {
      assert ps[k] in ps;
    }
  }

  function StrippedAll(ps: seq<string>): (r: seq<string>)
    ensures |r| == |ps|
    ensures forall k :: 0 <= k < |r| ==> r[k] == Strip(ps[k])
  {
    if ps == [] then [] else [Strip(ps[0])] + StrippedAll(ps[1..])
  }

  /** The phrases of all lines, in order. */
  function Phrases(lines: seq<string>): (ps: seq<string>)
    ensures forall k :: 0 <= k < |ps| ==> Trimmed(ps[k])
  {
    if lines == [] then [] else LinePhrases(lines[0]) + Phrases(lines[1..])
  }

  /** The text cleanup of `_extract_text_from_html`: lines split at line
      boundaries, then at double spaces, every piece stripped, empty pieces
      dropped, the rest joined by single spaces. Line boundaries are
      treated one character at a time; the empty lines that a "\r\n" pair
      then adds produce no phrase. */
  function CleanText(text: string): (r: string)
    ensures r == "" || Trimmed(r)
  {
    var ps := Phrases(SplitBy(text, IsLineBreak));
    assert ps != [] ==> Trimmed(Join(" ", ps)) by {
      if ps != [] {
        JoinTrimmedEnds(ps);
      }
    }
    Join(" ", ps)
  }
}
