/** The background pipeline: the worker loop bodies as single steps over
    the set of processed PMIDs and the shared processing queue, the time
    gates for feed and status regeneration, the snapshot of the processed
    set, and the two text builders of the OCR stage (RAG chunks and the
    searchable text). */
module BackgroundProcessor {
  import opened Base
  import opened Strings
  import DataProcessor
  import StorageManager
  import GitManager
  import FulltextDownloader

  // ---------------------------------------------------------------------
  // RAG chunks

  const ChunkSize: nat := 1000
  const ChunkOverlap: int := 200
  /** A window is kept only when its stripped text is longer than this. */
  const MinChunkText: nat := 50

  datatype Chunk = Chunk(pmid: string, chunkId: string, text: string, startWord: nat, endWord: nat, wordCount: nat)

  function Min(a: int, b: int): int {
    if a <= b then a else b
  }

  /** `f"{pmid}_{k}"`. */
  function ChunkId(pmid: string, k: nat): string {
    pmid + "_" + NatToString(k)
  }

  /** The words `words[start:start + size]` joined by single spaces. */
  function WindowText(words: seq<string>, start: nat, size: nat): string
    requires start <= |words|
  {
    Join(" ", words[start..Min(start + size, |words|)])
  }

  predicate WindowKept(words: seq<string>, start: nat, size: nat)
    requires start <= |words|
  {
    |Strip(WindowText(words, start, size))| > MinChunkText
  }

  /** The test `_create_rag_chunks` applies to the window at s. */
  function WindowFilter(words: seq<string>, size: nat): nat -> bool {
    (s: nat) => s <= |words| && WindowKept(words, s, size)
  }

  /** The chunk for the window at start, numbered id. */
  function ChunkOf(words: seq<string>, pmid: string, size: nat, start: nat, id: nat): Chunk
    requires start <= |words|
  {
    var end := Min(start + size, |words|);
    Chunk(pmid, ChunkId(pmid, id), WindowText(words, start, size), start, end, end - start)
  }

  /** The chunks of the windows starting at start, start + step, ... below
      the number of words that pass keep; `emitted` chunks came before. */
  function ChunksFrom(words: seq<string>, pmid: string, size: nat, step: nat, start: nat, emitted: nat, keep: nat -> bool): seq<Chunk>
    requires step > 0
    decreases |words| - start
  {
    if start >= |words| then []
    else if keep(start) then
      [ChunkOf(words, pmid, size, start, emitted)] + ChunksFrom(words, pmid, size, step, start + step, emitted + 1, keep)
    else ChunksFrom(words, pmid, size, step, start + step, emitted, keep)
  }

  /** What `_create_rag_chunks` returns. */
  function RagChunks(text: string, pmid: string, chunkSize: nat, overlap: int): seq<Chunk>
    requires overlap < chunkSize
  {
    var words := Words(text);
    ChunksFrom(words, pmid, chunkSize, chunkSize - overlap, 0, 0, WindowFilter(words, chunkSize))
  }

  /** One window of the scan. */
  lemma ChunksFromStep(words: seq<string>, pmid: string, size: nat, step: nat, start: nat, emitted: nat, keep: nat -> bool)
    requires step > 0 && start < |words|
    ensures ChunksFrom(words, pmid, size, step, start, emitted, keep)
         == (if keep(start) then [ChunkOf(words, pmid, size, start, emitted)] else [])
            + ChunksFrom(words, pmid, size, step, start + step, if keep(start) then emitted + 1 else emitted, keep)
  {
  }

  /** The loop of `_create_rag_chunks` over the window starts 0, step,
      2 * step, ...; keep is the test a window's text must pass. */
  method ScanWindows(words: seq<string>, pmid: string, size: nat, step: nat, keep: nat -> bool) returns (chunks: seq<Chunk>)
    requires step > 0
    ensures chunks == ChunksFrom(words, pmid, size, step, 0, 0, keep)
  {
    ghost var all := ChunksFrom(words, pmid, size, step, 0, 0, keep);
    chunks := [];
    var i: nat := 0;
    assert chunks + all == all;
    while i < |words|
      invariant chunks + ChunksFrom(words, pmid, size, step, i, |chunks|, keep) == all
      decreases |words| - i
    {
      var end := Min(i + size, |words|);
      var chunkWords := words[i..end];
      var chunkText := Join(" ", chunkWords);
      ChunksFromStep(words, pmid, size, step, i, |chunks|, keep);
      if keep(i) {
        var c := Chunk(pmid, ChunkId(pmid, |chunks|), chunkText, i, end, |chunkWords|);
        assert c == ChunkOf(words, pmid, size, i, |chunks|);
        ghost var later := ChunksFrom(words, pmid, size, step, i + step, |chunks| + 1, keep);
        assert chunks + ([c] + later) == (chunks + [c]) + later;
        chunks := chunks + [c];
      } else {
        assert [] + ChunksFrom(words, pmid, size, step, i + step, |chunks|, keep)
            == ChunksFrom(words, pmid, size, step, i + step, |chunks|, keep);
      }
      i := i + step;
    }
    assert chunks + [] == chunks;
  }

  /** `_create_rag_chunks`: windows of chunkSize words every
      chunkSize - overlap words, keeping those whose stripped text is
      longer than 50 characters. */
  method CreateRagChunks(text: string, pmid: string, chunkSize: nat, overlap: int) returns (chunks: seq<Chunk>)
    requires overlap < chunkSize
    ensures chunks == RagChunks(text, pmid, chunkSize, overlap)
  {
    var words := Words(text);
    chunks := ScanWindows(words, pmid, chunkSize, chunkSize - overlap, WindowFilter(words, chunkSize));
  }

  /** s is one of 0, step, 2 * step, ... */
  predicate IsMultiple(s: int, step: nat)
    requires step > 0
    decreases s
  {
    s == 0 || (s >= step && IsMultiple(s - step, step))
  }

  /** The k-th chunk from start on is the chunk numbered `emitted + k` of a
      window that passes keep and lies on the grid start, start + step, ...
      below the word count. */
  lemma {:induction false} ChunkAt(words: seq<string>, pmid: string, size: nat, step: nat, start: nat, emitted: nat,
                                   keep: nat -> bool, k: nat)
    requires step > 0
    requires k < |ChunksFrom(words, pmid, size, step, start, emitted, keep)|
    ensures start <= ChunksFrom(words, pmid, size, step, start, emitted, keep)[k].startWord < |words|
    ensures IsMultiple(ChunksFrom(words, pmid, size, step, start, emitted, keep)[k].startWord - start, step)
    ensures keep(ChunksFrom(words, pmid, size, step, start, emitted, keep)[k].startWord)
    ensures ChunksFrom(words, pmid, size, step, start, emitted, keep)[k] ==
              ChunkOf(words, pmid, size, ChunksFrom(words, pmid, size, step, start, emitted, keep)[k].startWord, emitted + k)
    decreases |words| - start
  {
    var r := ChunksFrom(words, pmid, size, step, start, emitted, keep);
    var e2 := if keep(start) then emitted + 1 else emitted;
    var rest := ChunksFrom(words, pmid, size, step, start + step, e2, keep);
    if keep(start) && k == 0 {
      assert IsMultiple(0, step);
    } else {
      var k2 := if keep(start) then k - 1 else k;
      assert r[k] == rest[k2];
      ChunkAt(words, pmid, size, step, start + step, e2, keep, k2);
      assert IsMultiple(r[k].startWord - (start + step), step);
    }
  }

  /** Chunk starts grow by at least one step from chunk to chunk. */
  lemma {:induction false} ChunkStartsIncrease(words: seq<string>, pmid: string, size: nat, step: nat, start: nat, emitted: nat,
                                               keep: nat -> bool, k: nat, l: nat)
    requires step > 0
    requires k < l < |ChunksFrom(words, pmid, size, step, start, emitted, keep)|
    ensures var r := ChunksFrom(words, pmid, size, step, start, emitted, keep);
      r[k].startWord + step <= r[l].startWord
    decreases |words| - start
  {
    var r := ChunksFrom(words, pmid, size, step, start, emitted, keep);
    var e2 := if keep(start) then emitted + 1 else emitted;
    var rest := ChunksFrom(words, pmid, size, step, start + step, e2, keep);
    if keep(start) {
      assert r[l] == rest[l - 1];
      ChunkAt(words, pmid, size, step, start + step, e2, keep, l - 1);
      if k > 0 {
        assert r[k] == rest[k - 1];
        ChunkStartsIncrease(words, pmid, size, step, start + step, e2, keep, k - 1, l - 1);
      } else {
        assert r[0].startWord == start;
      }
    } else {
      assert r == rest;
      ChunkStartsIncrease(words, pmid, size, step, start + step, e2, keep, k, l);
    }
  }

  /** A window on the grid that passes keep gives a chunk. */
  lemma {:induction false} WindowChunked(words: seq<string>, pmid: string, size: nat, step: nat, start: nat, emitted: nat,
                                         keep: nat -> bool, s: nat)
    requires step > 0
    requires start <= s < |words| && IsMultiple(s - start, step) && keep(s)
    ensures exists k :: 0 <= k < |ChunksFrom(words, pmid, size, step, start, emitted, keep)|
                        && ChunksFrom(words, pmid, size, step, start, emitted, keep)[k].startWord == s
    decreases |words| - start
  {
    var r := ChunksFrom(words, pmid, size, step, start, emitted, keep);
    var e2 := if keep(start) then emitted + 1 else emitted;
    var rest := ChunksFrom(words, pmid, size, step, start + step, e2, keep);
    if s == start {
      assert r == [ChunkOf(words, pmid, size, start, emitted)] + rest;
      assert r[0].startWord == s;
      assert exists k :: 0 <= k < |r| && r[k].startWord == s;
    } else {
      assert s - start >= step;
      assert s - start - step == s - (start + step);
      assert IsMultiple(s - (start + step), step);
      WindowChunked(words, pmid, size, step, start + step, e2, keep, s);
      var k' :| 0 <= k' < |rest| && rest[k'].startWord == s;
      if keep(start) {
        assert r[k' + 1] == rest[k'];
        assert exists k :: 0 <= k < |r| && r[k].startWord == s;
      } else {
        assert r[k'] == rest[k'];
        assert exists k :: 0 <= k < |r| && r[k].startWord == s;
      }
    }
  }

  /** Words joined by single spaces need no stripping. */
  lemma JoinedWordsStripped(ws: seq<string>)
    requires forall k :: 0 <= k < |ws| ==> IsWord(ws[k])
    ensures Strip(Join(" ", ws)) == Join(" ", ws)
  {
    var j := Join(" ", ws);
    if ws != [] {
      forall k | 0 <= k < |ws|
        ensures Trimmed(ws[k])
      {
        WordTrimmed(ws[k]);
      }
      JoinTrimmedEnds(ws);
      assert Trimmed(j);
      StripKeeps(j);
    } else {
      assert j == [];
      StripKeeps(j);
    }
  }

  lemma WordTrimmed(w: string)
    requires IsWord(w)
    ensures Trimmed(w)
  {
    assert !IsSpace(w[0]) && !IsSpace(w[|w| - 1]);
  }

  /** With more than 25 words to a window, a full window is always kept:
      each word adds at least one character and one separator. */
  lemma FullWindowKept(words: seq<string>, s: nat, size: nat)
    requires forall k :: 0 <= k < |words| ==> IsWord(words[k])
    requires s + size <= |words| && 2 * size - 1 > MinChunkText
    ensures WindowKept(words, s, size)
  {
    var ws := words[s..s + size];
    assert Min(s + size, |words|) == s + size;
    JoinWordsLength(ws);
    JoinedWordsStripped(ws);
  }

  lemma WordsOfSuffix(ws: seq<string>, d: nat)
    requires forall k :: 0 <= k < |ws| ==> IsWord(ws[k])
    requires d <= |ws|
    ensures forall k :: 0 <= k < |ws[d..]| ==> IsWord(ws[d..][k])
  {
  }

  lemma StrippedNoLonger(a: string, b: string)
    requires Strip(a) == a && Strip(b) == b && |b| <= |a|
    ensures |Strip(b)| <= |Strip(a)|
  {
  }

  /** Dropping leading words never lengthens the stripped text. */
  lemma SuffixNoLonger(ws: seq<string>, d: nat)
    requires forall k :: 0 <= k < |ws| ==> IsWord(ws[k])
    requires d <= |ws|
    ensures |Strip(Join(" ", ws[d..]))| <= |Strip(Join(" ", ws))|
  {
    JoinSuffixShorter(" ", ws, d);
    WordsOfSuffix(ws, d);
    JoinedWordsStripped(ws);
    JoinedWordsStripped(ws[d..]);
    StrippedNoLonger(Join(" ", ws), Join(" ", ws[d..]));
  }

  /** A window that reaches the last word holds all the words from s on. */
  lemma TailWindow(words: seq<string>, s: nat, size: nat)
    requires s <= |words| && s + size > |words|
    ensures WindowText(words, s, size) == Join(" ", words[s..])
  {
    assert words[s..Min(s + size, |words|)] == words[s..];
  }

  /** A later window that reaches the last word is a suffix of an earlier
      one that does, so its text is no longer. */
  lemma TailNoLonger(words: seq<string>, s: nat, s2: nat, size: nat)
    requires forall k :: 0 <= k < |words| ==> IsWord(words[k])
    requires s <= s2 <= |words| && s + size > |words|
    ensures |Strip(WindowText(words, s2, size))| <= |Strip(WindowText(words, s, size))|
  {
    TailWindow(words, s, size);
    TailWindow(words, s2, size);
    var tail := words[s..];
    assert tail[s2 - s..] == words[s2..];
    WordsOfSuffix(words, s);
    SuffixNoLonger(tail, s2 - s);
  }

  lemma TailNotKept(words: seq<string>, s: nat, s2: nat, size: nat)
    requires forall k :: 0 <= k < |words| ==> IsWord(words[k])
    requires s <= s2 <= |words| && s + size > |words|
    requires !WindowKept(words, s, size)
    ensures !WindowFilter(words, size)(s2)
  {
    TailNoLonger(words, s, s2, size);
  }

  /** No chunks when no window from start on passes keep. */
  lemma {:induction false} NoneKept(words: seq<string>, pmid: string, size: nat, step: nat, start: nat, emitted: nat,
                                    keep: nat -> bool)
    requires step > 0
    requires forall s: nat :: start <= s < |words| ==> !keep(s)
    ensures ChunksFrom(words, pmid, size, step, start, emitted, keep) == []
    decreases |words| - start
  {
    if start < |words| {
      NoneKept(words, pmid, size, step, start + step, emitted, keep);
    }
  }

  /** Once a window that reaches the last word is dropped, every later
      window is dropped too. */
  lemma TailDropped(words: seq<string>, pmid: string, size: nat, step: nat, s: nat, s2: nat, emitted: nat)
    requires step > 0
    requires forall k :: 0 <= k < |words| ==> IsWord(words[k])
    requires s <= s2 && s <= |words| && s + size > |words|
    requires !WindowKept(words, s, size)
    ensures ChunksFrom(words, pmid, size, step, s2, emitted, WindowFilter(words, size)) == []
  {
    forall s': nat | s2 <= s' < |words|
      ensures !WindowFilter(words, size)(s')
    {
      TailNotKept(words, s, s', size);
    }
    NoneKept(words, pmid, size, step, s2, emitted, WindowFilter(words, size));
  }

  /** keep never passes a window after one it fails. */
  predicate FailuresLast(n: nat, keep: nat -> bool) {
    forall s: nat, s': nat :: s <= s' < n ==> keep(s) || !keep(s')
  }

  /** With more than 25 words to a window only windows that reach the last
      word can fail, and those fail in order of length. */
  lemma WindowFailuresLast(words: seq<string>, size: nat)
    requires forall k :: 0 <= k < |words| ==> IsWord(words[k])
    requires 2 * size - 1 > MinChunkText
    ensures FailuresLast(|words|, WindowFilter(words, size))
  {
    var keep := WindowFilter(words, size);
    forall s: nat, s': nat | s <= s' < |words|
      ensures keep(s) || !keep(s')
    {
      if s + size <= |words| {
        FullWindowKept(words, s, size);
      } else if !WindowKept(words, s, size) {
        TailNotKept(words, s, s', size);
      }
    }
  }

  /** The window at s passes, or nothing from s on does. */
  lemma KeptOrNone(words: seq<string>, pmid: string, size: nat, step: nat, s: nat, emitted: nat, keep: nat -> bool)
    requires step > 0 && FailuresLast(|words|, keep)
    ensures ChunksFrom(words, pmid, size, step, s, emitted, keep) == [] || (s < |words| && keep(s))
  {
    if s < |words| && !keep(s) {
      NoneKept(words, pmid, size, step, s, emitted, keep);
    }
  }

  /** When failures come last, no window between two emitted chunks is
      skipped: consecutive chunks start one step apart. */
  lemma {:induction false} ChunksAdjacent(words: seq<string>, pmid: string, size: nat, step: nat, start: nat, emitted: nat,
                                          keep: nat -> bool, k: nat)
    requires step > 0 && FailuresLast(|words|, keep)
    requires k + 1 < |ChunksFrom(words, pmid, size, step, start, emitted, keep)|
    ensures var r := ChunksFrom(words, pmid, size, step, start, emitted, keep);
      r[k + 1].startWord == r[k].startWord + step
    decreases |words| - start
  {
    var r := ChunksFrom(words, pmid, size, step, start, emitted, keep);
    var e2 := if keep(start) then emitted + 1 else emitted;
    var rest := ChunksFrom(words, pmid, size, step, start + step, e2, keep);
    if keep(start) {
      assert r[k + 1] == rest[k];
      if k == 0 {
        KeptOrNone(words, pmid, size, step, start + step, e2, keep);
        assert rest[0].startWord == start + step;
        assert r[0].startWord == start;
      } else {
        assert r[k] == rest[k - 1];
        ChunksAdjacent(words, pmid, size, step, start + step, e2, keep, k - 1);
      }
    } else {
      assert r == rest;
      ChunksAdjacent(words, pmid, size, step, start + step, e2, keep, k);
    }
  }

  /** The k-th chunk of `_create_rag_chunks`: id `pmid_k`, a window
      starting on a multiple of the step below the word count, its end
      capped by the word count, and text longer than 50 characters once
      stripped. */
  lemma RagChunkAt(text: string, pmid: string, chunkSize: nat, overlap: int, k: nat)
    requires overlap < chunkSize
    requires k < |RagChunks(text, pmid, chunkSize, overlap)|
    ensures RagChunks(text, pmid, chunkSize, overlap)[k].startWord < |Words(text)|
    ensures RagChunks(text, pmid, chunkSize, overlap)[k] ==
              ChunkOf(Words(text), pmid, chunkSize, RagChunks(text, pmid, chunkSize, overlap)[k].startWord, k)
    ensures IsMultiple(RagChunks(text, pmid, chunkSize, overlap)[k].startWord, chunkSize - overlap)
    ensures |Strip(RagChunks(text, pmid, chunkSize, overlap)[k].text)| > MinChunkText
  {
    var words := Words(text);
    var keep := WindowFilter(words, chunkSize);
    var all := ChunksFrom(words, pmid, chunkSize, chunkSize - overlap, 0, 0, keep);
    assert RagChunks(text, pmid, chunkSize, overlap) == all;
    GridChunkAt(words, pmid, chunkSize, chunkSize - overlap, keep, k);
    assert WindowKept(words, all[k].startWord, chunkSize);
  }

  /** ChunkAt from the first window on. */
  lemma GridChunkAt(words: seq<string>, pmid: string, size: nat, step: nat, keep: nat -> bool, k: nat)
    requires step > 0
    requires k < |ChunksFrom(words, pmid, size, step, 0, 0, keep)|
    ensures ChunksFrom(words, pmid, size, step, 0, 0, keep)[k].startWord < |words|
    ensures ChunksFrom(words, pmid, size, step, 0, 0, keep)[k] ==
              ChunkOf(words, pmid, size, ChunksFrom(words, pmid, size, step, 0, 0, keep)[k].startWord, k)
    ensures IsMultiple(ChunksFrom(words, pmid, size, step, 0, 0, keep)[k].startWord, step)
    ensures keep(ChunksFrom(words, pmid, size, step, 0, 0, keep)[k].startWord)
  {
    var r := ChunksFrom(words, pmid, size, step, 0, 0, keep);
    ChunkAt(words, pmid, size, step, 0, 0, keep, k);
    assert r[k].startWord - 0 == r[k].startWord;
  }

  /** The fields of a chunk window as `_create_rag_chunks` fills them. */
  lemma ChunkOfFields(words: seq<string>, pmid: string, size: nat, start: nat, id: nat)
    requires start < |words|
    ensures var c := ChunkOf(words, pmid, size, start, id);
      && c.pmid == pmid && c.chunkId == pmid + "_" + NatToString(id)
      && c.startWord == start && c.endWord == Min(start + size, |words|)
      && c.wordCount == c.endWord - start && c.text == Join(" ", words[start..c.endWord])
  {
  }

  /** Chunks come in increasing order of their start word. */
  lemma RagChunksIncreasing(text: string, pmid: string, chunkSize: nat, overlap: int, k: nat, l: nat)
    requires overlap < chunkSize
    requires k < l < |RagChunks(text, pmid, chunkSize, overlap)|
    ensures RagChunks(text, pmid, chunkSize, overlap)[k].startWord < RagChunks(text, pmid, chunkSize, overlap)[l].startWord
  {
    var words := Words(text);
    ChunkStartsIncrease(words, pmid, chunkSize, chunkSize - overlap, 0, 0, WindowFilter(words, chunkSize), k, l);
  }

  /** Every window on the step grid whose stripped text is longer than 50
      characters is a chunk. */
  lemma RagChunksComplete(text: string, pmid: string, chunkSize: nat, overlap: int, s: nat)
    requires overlap < chunkSize
    requires s < |Words(text)| && IsMultiple(s, chunkSize - overlap) && WindowKept(Words(text), s, chunkSize)
    ensures exists k :: 0 <= k < |RagChunks(text, pmid, chunkSize, overlap)|
                        && RagChunks(text, pmid, chunkSize, overlap)[k].startWord == s
  {
    var words := Words(text);
    var keep := WindowFilter(words, chunkSize);
    assert keep(s);
    var all := ChunksFrom(words, pmid, chunkSize, chunkSize - overlap, 0, 0, keep);
    GridWindowChunked(words, pmid, chunkSize, chunkSize - overlap, keep, s);
    var k :| 0 <= k < |all| && all[k].startWord == s;
    assert RagChunks(text, pmid, chunkSize, overlap) == all;
  }

  /** WindowChunked from the first window on. */
  lemma GridWindowChunked(words: seq<string>, pmid: string, size: nat, step: nat, keep: nat -> bool, s: nat)
    requires step > 0
    requires s < |words| && IsMultiple(s, step) && keep(s)
    ensures exists k :: 0 <= k < |ChunksFrom(words, pmid, size, step, 0, 0, keep)|
                        && ChunksFrom(words, pmid, size, step, 0, 0, keep)[k].startWord == s
  {
    assert s - 0 == s;
    WindowChunked(words, pmid, size, step, 0, 0, keep, s);
  }

  /** A text without words has no chunks. */
  lemma RagChunksOfNoWords(text: string, pmid: string, chunkSize: nat, overlap: int)
    requires overlap < chunkSize && Words(text) == []
    ensures RagChunks(text, pmid, chunkSize, overlap) == []
  {
  }

  /** When an emitted chunk's window is full, the next chunk starts overlap
      words before its end (windows of more than 25 words, as with the
      default 1000). */
  lemma RagChunksOverlap(text: string, pmid: string, chunkSize: nat, overlap: int)
    requires overlap < chunkSize && 2 * chunkSize - 1 > MinChunkText
    ensures var r := RagChunks(text, pmid, chunkSize, overlap);
      forall k :: 0 <= k < |r| - 1 && r[k].endWord == r[k].startWord + chunkSize ==>
        r[k].endWord - overlap == r[k + 1].startWord
  {
    var words := Words(text);
    var r := RagChunks(text, pmid, chunkSize, overlap);
    WindowFailuresLast(words, chunkSize);
    forall k | 0 <= k < |r| - 1
      ensures r[k + 1].startWord == r[k].startWord + (chunkSize - overlap)
    {
      ChunksAdjacent(words, pmid, chunkSize, chunkSize - overlap, 0, 0, WindowFilter(words, chunkSize), k);
    }
  }

  // ---------------------------------------------------------------------
  // Searchable text

  /** A labelled section: the label with its ": ", the field it shows, and
      whether the field is a list joined by ", ". */
  datatype SectionField = SectionField(heading: string, key: string, isList: bool)

  const TitleField := SectionField("TITLE: ", "title", false)
  const AbstractField := SectionField("ABSTRACT: ", "abstract", false)
  const FullTextField := SectionField("FULL_TEXT: ", "full_text", false)
  const KeywordsField := SectionField("KEYWORDS: ", "keywords", true)
  const MeshTermsField := SectionField("MESH_TERMS: ", "mesh_terms", true)

  const SearchableFields: seq<SectionField> := [TitleField, AbstractField, FullTextField, KeywordsField, MeshTermsField]

  function SectionContent(article: Record, f: SectionField): string {
    if f.isList then Join(", ", GetList(article, f.key)) else GetStr(article, f.key, "")
  }

  /** The labelled section of a field, when the field is truthy. */
  function Section(article: Record, f: SectionField): seq<string> {
    if Has(article, f.key) then [f.heading + SectionContent(article, f)] else []
  }

  /** The sections of the searchable text, in field order. */
  function Sections(article: Record): seq<string> {
    Section(article, TitleField) + Section(article, AbstractField) + Section(article, FullTextField)
      + Section(article, KeywordsField) + Section(article, MeshTermsField)
  }

  /** `_create_searchable_text`: the sections of the truthy fields among
      title, abstract, full text, keywords and MeSH terms, in that order,
      separated by blank lines; nothing at all when none is truthy. */
  method CreateSearchableText(article: Record) returns (text: string)
    ensures text == Join("\n\n", Sections(article))
    ensures text == "" <==> forall f :: f in SearchableFields ==> !Has(article, f.key)
  {
    var parts: seq<string> := [];
    if Has(article, "title") {
      parts := parts + ["TITLE: " + GetStr(article, "title", "")];
    }
    assert parts == Section(article, TitleField);
    if Has(article, "abstract") {
      parts := parts + ["ABSTRACT: " + GetStr(article, "abstract", "")];
    }
    assert parts == Section(article, TitleField) + Section(article, AbstractField);
    if Has(article, "full_text") {
      parts := parts + ["FULL_TEXT: " + GetStr(article, "full_text", "")];
    }
    assert parts == Section(article, TitleField) + Section(article, AbstractField) + Section(article, FullTextField);
    if Has(article, "keywords") {
      parts := parts + ["KEYWORDS: " + Join(", ", GetList(article, "keywords"))];
    }
    if Has(article, "mesh_terms") {
      parts := parts + ["MESH_TERMS: " + Join(", ", GetList(article, "mesh_terms"))];
    }
    assert parts == Sections(article);
    text := Join("\n\n", parts);
    if parts != [] {
      assert |text| >= |parts[0]| by {
        if |parts| > 1 {
          assert text == parts[0] + "\n\n" + Join("\n\n", parts[1..]);
        }
      }
      SectionsCharacterized(article);
      assert parts[0] in Sections(article);
    }
  }

  /** Each section is the labelled content of a truthy field, and each
      truthy field has its section. */
  lemma SectionsCharacterized(article: Record)
    ensures forall p :: p in Sections(article) ==>
      exists f :: f in SearchableFields && Has(article, f.key) && p == f.heading + SectionContent(article, f)
    ensures forall f :: f in SearchableFields && Has(article, f.key) ==>
      f.heading + SectionContent(article, f) in Sections(article)
  {
    forall p | p in Sections(article)
      ensures exists f :: f in SearchableFields && Has(article, f.key) && p == f.heading + SectionContent(article, f)
    {
      if p in Section(article, TitleField) {
        assert TitleField in SearchableFields;
      } else if p in Section(article, AbstractField) {
        assert AbstractField in SearchableFields;
      } else if p in Section(article, FullTextField) {
        assert FullTextField in SearchableFields;
      } else if p in Section(article, KeywordsField) {
        assert KeywordsField in SearchableFields;
      } else {
        assert MeshTermsField in SearchableFields;
      }
    }
  }

  // ---------------------------------------------------------------------
  // The pipeline state and the worker steps

  /** An entry of the processing queue. */
  datatype Item = Item(pmid: string, article: Record, stage: string, category: string, searchTerm: string)

  /** The state the workers share: the processed PMIDs and the queue. */
  datatype Pipeline = Pipeline(processed: set<string>, queue: seq<Item>)

  const Stages: set<string> := {"metadata", "fulltext", "ocr"}

  /** What the workers keep true of every queued item: it has a PMID and a
      known stage, and past the metadata stage its PMID is processed. */
  predicate ItemConsistent(item: Item, processed: set<string>) {
    item.pmid != "" && item.stage in Stages && (item.stage != "metadata" ==> item.pmid in processed)
  }

  predicate Consistent(p: Pipeline) {
    forall item :: item in p.queue ==> ItemConsistent(item, p.processed)
  }

  /** `article.get('pmid')`. */
  function PmidOf(article: Record): string {
    GetStr(article, "pmid", "")
  }

  /** The queue entry the search worker makes for a result: only for a
      non-empty PMID that is not processed yet. */
  function NewItem(processed: set<string>, category: string, term: string): Record -> Option<Item> {
    a => if PmidOf(a) != "" && PmidOf(a) !in processed then Some(Item(PmidOf(a), a, "metadata", category, term)) else None
  }

  /** The search worker's handling of one term's results. */
  function Enqueued(p: Pipeline, articles: seq<Record>, category: string, term: string): Pipeline {
    Pipeline(p.processed, p.queue + FilterMap(articles, NewItem(p.processed, category, term)))
  }

  /** The item the processing worker passes on to the full-text stage after
      storing its article, when it does. */
  function FulltextItem(p: Pipeline, score: Record -> real, phrases: Record -> seq<string>, now: string): Option<Item>
    requires p.queue != []
  {
    var item := p.queue[0];
    var kept := DataProcessor.Kept([item.article], score, phrases, now);
    if item.pmid in p.processed || kept == [] || kept[0] == map[] then None
    else Some(Item(item.pmid, kept[0], "fulltext", item.category, item.searchTerm))
  }

  /** One round of the processing worker: a processed PMID is dropped, an
      article the filter rejects is dropped without being marked (the
      `[0]` of an empty list raises and the handler swallows it), any
      other article is stored, passed on and marked. */
  function MetadataStep(p: Pipeline, score: Record -> real, phrases: Record -> seq<string>, now: string): Pipeline {
    if p.queue == [] then p
    else
      var item := p.queue[0];
      var rest := p.queue[1..];
      if item.pmid in p.processed then Pipeline(p.processed, rest)
      else if DataProcessor.Kept([item.article], score, phrases, now) == [] then Pipeline(p.processed, rest)
      else
        var next := FulltextItem(p, score, phrases, now);
        Pipeline(p.processed + {item.pmid}, if next.Some? then rest + [next.value] else rest)
  }

  /** One round of the full-text worker; `download` is the downloader's
      answer for an article. An item of another stage goes back to the
      tail; a download with text moves the item to the ocr stage. */
  function FulltextStep(p: Pipeline, download: Record -> Record): Pipeline {
    if p.queue == [] then p
    else
      var item := p.queue[0];
      var rest := p.queue[1..];
      if item.stage != "fulltext" then Pipeline(p.processed, rest + [item])
      else if Has(download(item.article), "full_text") then
        Pipeline(p.processed, rest + [Item(item.pmid, download(item.article), "ocr", item.category, item.searchTerm)])
      else Pipeline(p.processed, rest)
  }

  /** One round of the OCR worker: an item of another stage goes back to
      the tail, an ocr item leaves the queue. */
  function OcrStep(p: Pipeline): Pipeline {
    if p.queue == [] then p
    else if p.queue[0].stage != "ocr" then Pipeline(p.processed, p.queue[1..] + [p.queue[0]])
    else Pipeline(p.processed, p.queue[1..])
  }

  /** The search worker enqueues exactly the fresh results, in order, as
      metadata items of the current category and term. */
  lemma EnqueuedItems(p: Pipeline, articles: seq<Record>, category: string, term: string)
    ensures Enqueued(p, articles, category, term).processed == p.processed
    ensures Enqueued(p, articles, category, term).queue[..|p.queue|] == p.queue
    ensures forall item :: item in Enqueued(p, articles, category, term).queue[|p.queue|..] ==>
      && item.stage == "metadata" && item.pmid != "" && item.pmid !in p.processed
      && item.category == category && item.searchTerm == term
      && item.article in articles && PmidOf(item.article) == item.pmid
    ensures forall i :: 0 <= i < |articles| && PmidOf(articles[i]) != "" && PmidOf(articles[i]) !in p.processed ==>
      Item(PmidOf(articles[i]), articles[i], "metadata", category, term) in Enqueued(p, articles, category, term).queue[|p.queue|..]
  {
    var f := NewItem(p.processed, category, term);
    var added := FilterMap(articles, f);
    var q := Enqueued(p, articles, category, term).queue;
    assert q[|p.queue|..] == added;
    FilterMapValues(articles, f);
    FilterMapSubsequence(articles, f, (a: Record) => Item(PmidOf(a), a, "metadata", category, term));
  }

  lemma EnqueueKeepsConsistent(p: Pipeline, articles: seq<Record>, category: string, term: string)
    requires Consistent(p)
    ensures Consistent(Enqueued(p, articles, category, term))
  {
    var q := Enqueued(p, articles, category, term).queue;
    EnqueuedItems(p, articles, category, term);
    forall item | item in q
      ensures ItemConsistent(item, p.processed)
    {
      var i :| 0 <= i < |q| && q[i] == item;
      if i >= |p.queue| {
        assert q[|p.queue|..][i - |p.queue|] == item;
      } else {
        assert p.queue[i] == item;
      }
    }
  }

  /** The processing step marks the head's PMID exactly when it was marked
      already or the article passes the relevance filter. */
  lemma MetadataStepMarks(p: Pipeline, score: Record -> real, phrases: Record -> seq<string>, now: string)
    requires p.queue != []
    ensures p.queue[0].pmid in MetadataStep(p, score, phrases, now).processed <==>
              p.queue[0].pmid in p.processed || score(p.queue[0].article) >= DataProcessor.MinRelevance
  {
    DataProcessor.KeptOne(p.queue[0].article, score, phrases, now);
  }

  /** Nothing but the head's PMID is marked, nothing is unmarked, and the
      rest of the queue keeps its place at the front. */
  lemma MetadataStepFrame(p: Pipeline, score: Record -> real, phrases: Record -> seq<string>, now: string)
    requires p.queue != []
    ensures p.processed <= MetadataStep(p, score, phrases, now).processed <= p.processed + {p.queue[0].pmid}
    ensures MetadataStep(p, score, phrases, now).queue[..|p.queue| - 1] == p.queue[1..]
  {
    var r := MetadataStep(p, score, phrases, now);
    var next := FulltextItem(p, score, phrases, now);
    if next.Some? {
      assert r.queue == p.queue[1..] + [next.value];
    }
  }

  /** An item that reaches the processing worker after its metadata stage
      is dropped: the worker takes every item off the queue, and such an
      item's PMID is always processed. */
  lemma MetadataStepDropsLaterStages(p: Pipeline, score: Record -> real, phrases: Record -> seq<string>, now: string)
    requires Consistent(p) && p.queue != [] && p.queue[0].stage != "metadata"
    ensures MetadataStep(p, score, phrases, now) == Pipeline(p.processed, p.queue[1..])
  {
    assert p.queue[0] in p.queue;
  }

  lemma MetadataStepKeepsConsistent(p: Pipeline, score: Record -> real, phrases: Record -> seq<string>, now: string)
    requires Consistent(p)
    ensures Consistent(MetadataStep(p, score, phrases, now))
  {
    if p.queue != [] {
      assert p.queue[0] in p.queue;
      var r := MetadataStep(p, score, phrases, now);
      forall item | item in r.queue
        ensures ItemConsistent(item, r.processed)
      {
        if item in p.queue[1..] {
          assert item in p.queue;
        }
      }
    }
  }

  lemma FulltextStepKeepsConsistent(p: Pipeline, download: Record -> Record)
    requires Consistent(p)
    ensures Consistent(FulltextStep(p, download))
  {
    if p.queue != [] {
      assert p.queue[0] in p.queue;
      var r := FulltextStep(p, download);
      forall item | item in r.queue
        ensures ItemConsistent(item, r.processed)
      {
        if item in p.queue[1..] {
          assert item in p.queue;
        }
      }
    }
  }

  lemma OcrStepKeepsConsistent(p: Pipeline)
    requires Consistent(p)
    ensures Consistent(OcrStep(p))
  {
    if p.queue != [] {
      var r := OcrStep(p);
      forall item | item in r.queue
        ensures ItemConsistent(item, r.processed)
      {
        if item in p.queue[1..] {
          assert item in p.queue;
        }
      }
    }
  }

  /** A worker that meets an item of another stage loses nothing: the
      queue keeps the same items, the head moved to the tail. */
  lemma MismatchRotates(p: Pipeline, download: Record -> Record)
    requires p.queue != []
    ensures p.queue[0].stage != "fulltext" ==>
      FulltextStep(p, download) == Pipeline(p.processed, p.queue[1..] + [p.queue[0]])
      && multiset(FulltextStep(p, download).queue) == multiset(p.queue)
    ensures p.queue[0].stage != "ocr" ==>
      OcrStep(p) == Pipeline(p.processed, p.queue[1..] + [p.queue[0]])
      && multiset(OcrStep(p).queue) == multiset(p.queue)
  {
    assert p.queue == [p.queue[0]] + p.queue[1..];
  }

  // ---------------------------------------------------------------------
  // Stored article files and the processed-index snapshot

  /** `d.get(key, default)` for a value of any kind. */
  function Copy(d: Record, key: string, default: Value): Value {
    if key in d then d[key] else default
  }

  const MetadataKeys: set<string> := {
    "pmid", "title", "authors", "journal", "publication_date", "doi", "keywords", "mesh_terms", "url",
    "relevance_score", "formulation_relevance", "cannabis_relevance", "extracted_entities", "key_phrases",
    "processing_stage", "processed_at"}

  /** The fields copied from the article into its metadata file, with the
      default for a missing field; an empty dictionary is `Groups(map[])`. */
  function CopiedDefault(key: string): Value {
    if key in {"authors", "keywords", "mesh_terms", "key_phrases"} then Strs([])
    else if key == "relevance_score" then Score(0.0)
    else if key in {"formulation_relevance", "cannabis_relevance", "extracted_entities"} then Groups(map[])
    else Str("")
  }

  /** `articles/<pmid>/metadata/article.json` as the processing worker
      writes it. */
  function MetadataRecord(pmid: string, article: Record, now: string): (m: Record)
    ensures m.Keys == MetadataKeys
    ensures m["pmid"] == Str(pmid)
    ensures m["processing_stage"] == Str("metadata_abstract") && m["processed_at"] == Str(now)
    ensures forall k :: k in MetadataKeys - {"pmid", "processing_stage", "processed_at"} ==>
              m[k] == (if k in article then article[k] else CopiedDefault(k))
  {
    map k | k in MetadataKeys ::
      if k == "pmid" then Str(pmid)
      else if k == "processing_stage" then Str("metadata_abstract")
      else if k == "processed_at" then Str(now)
      else Copy(article, k, CopiedDefault(k))
  }

  /** The metadata file after OCR: marked complete with its chunk count. */
  function CompletedMetadata(m: Record, chunkCount: nat, now: string): (r: Record)
    ensures r.Keys == m.Keys + {"processing_stage", "rag_chunks_count", "ocr_processed_at"}
    ensures r["processing_stage"] == Str("complete") && r["rag_chunks_count"] == Int(chunkCount)
    ensures forall k :: k in m && k !in {"processing_stage", "rag_chunks_count", "ocr_processed_at"} ==> r[k] == m[k]
  {
    m["processing_stage" := Str("complete")]["rag_chunks_count" := Int(chunkCount)]["ocr_processed_at" := Str(now)]
  }

  /** `index/processed_pmids.json`: absent, unreadable, or read. A file
      without a `pmids` list reads as an empty list. */
  datatype IndexFile = Missing | Unreadable | IndexJson(pmids: seq<string>, lastUpdated: string, totalProcessed: int)

  /** `_load_processed_index`: the listed PMIDs, or none when the file is
      absent or cannot be read. */
  function LoadedIndex(f: IndexFile): (s: set<string>)
    ensures f.IndexJson? ==> forall x :: x in s <==> x in f.pmids
    ensures !f.IndexJson? ==> s == {}
  {
    if f.IndexJson? then set x | x in f.pmids else {}
  }

  /** `_download_full_text` wired to the downloader's saved copies and the
      network. */
  function Download(texts: map<string, string>, metadata: map<string, Record>, net: FulltextDownloader.Net): Record -> Record {
    a => FulltextDownloader.Fetched(FulltextDownloader.SavedIn(texts, metadata, GetStr(a, "pmid", "")), a, net)
  }

  /** The PDF file the download of an article writes, over the downloader's
      saved copies. */
  function WrittenBy(texts: map<string, string>, metadata: map<string, Record>, net: FulltextDownloader.Net): Record -> Option<string> {
    a => FulltextDownloader.WrittenPdf(FulltextDownloader.SavedIn(texts, metadata, GetStr(a, "pmid", "")), a, net)
  }

  /** The file set once the written PDF, if any, exists. */
  function WithWritten(files: set<string>, written: Option<string>): (r: set<string>)
    ensures written.Some? ==> r == files + {written.value}
    ensures written.None? ==> r == files
  {
    if written.Some? then files + {written.value} else files
  }

  /** `_should_generate_rss` and `_should_update_status`: never done, or
      more than interval seconds ago. */
  predicate Due(last: Option<int>, now: int, interval: int) {
    last.None? || now - last.value > interval
  }

  /** Once a run is recorded at `now`, the gate stays closed for the next
      `interval` seconds. */
  lemma ClosedForInterval(now: int, t: int, interval: int)
    requires t <= now + interval
    ensures !Due(Some(now), t, interval)
  {
  }

  const RssInterval: int := 21600
  const StatusInterval: int := 1800

  // ---------------------------------------------------------------------
  // The processor object

  class Processor {
    const storage: StorageManager.Storage
    const git: GitManager.Manager
    const downloader: FulltextDownloader.Downloader
    var processed: set<string>
    var queue: seq<Item>
    var lastRss: Option<int>
    var lastStatus: Option<int>
    /** articles/<pmid>/abstract/content.txt */
    var abstracts: map<string, string>
    /** articles/<pmid>/metadata/article.json */
    var metadata: map<string, Record>
    /** articles/<pmid>/ocr/rag_chunks.json */
    var ragChunks: map<string, seq<Chunk>>
    /** articles/<pmid>/ocr/searchable_text.txt */
    var searchable: map<string, string>
    /** index/processed_pmids.json */
    var indexFile: IndexFile

    function State(): Pipeline
      reads this
    {
      Pipeline(processed, queue)
    }

    ghost predicate Valid()
      reads this
    {
      Consistent(State())
    }

    /** `__init__`: an empty queue, no feed or status run yet, and the
        processed set loaded from the index file. */
    constructor (storage: StorageManager.Storage, git: GitManager.Manager, downloader: FulltextDownloader.Downloader,
                 indexFile: IndexFile)
      ensures Valid()
      ensures this.storage == storage && this.git == git && this.downloader == downloader
      ensures this.indexFile == indexFile
      ensures processed == LoadedIndex(indexFile) && queue == []
      ensures lastRss == None && lastStatus == None
      ensures abstracts == map[] && metadata == map[] && ragChunks == map[] && searchable == map[]
    {
      this.storage := storage;
      this.git := git;
      this.downloader := downloader;
      this.indexFile := indexFile;
      processed := LoadedIndex(indexFile);
      queue := [];
      lastRss := None;
      lastStatus := None;
      abstracts := map[];
      metadata := map[];
      ragChunks := map[];
      searchable := map[];
    }

    /** `_save_processed_index`: every processed PMID once, in some order,
        with the count. */
    method SaveProcessedIndex(now: string)
      modifies this`indexFile
      ensures indexFile.IndexJson? && indexFile.lastUpdated == now
      ensures LoadedIndex(indexFile) == processed
      ensures NoDuplicates(indexFile.pmids) && |indexFile.pmids| == |processed|
      ensures indexFile.totalProcessed == |processed|
    {
      var pmids: seq<string> := [];
      var rest := processed;
      while rest != {}
        invariant rest <= processed
        invariant forall x :: x in processed <==> x in rest || x in pmids
        invariant forall x :: x in pmids ==> x !in rest
        invariant NoDuplicates(pmids)
        invariant |pmids| + |rest| == |processed|
        decreases |rest|
      {
        var x :| x in rest;
        pmids := pmids + [x];
        rest := rest - {x};
      }
      indexFile := IndexJson(pmids, now, |processed|);
    }

    /** The body of `_search_worker` for one term's results. */
    method EnqueueSearchResults(articles: seq<Record>, category: string, term: string)
      requires Valid()
      modifies this`queue
      ensures Valid()
      ensures State() == Enqueued(old(State()), articles, category, term)
    {
      ghost var f := NewItem(processed, category, term);
      ghost var before := queue;
      for i := 0 to |articles|
        invariant queue == before + FilterMap(articles[..i], f)
      {
        FilterMapSnoc(articles[..i], articles[i], f);
        assert articles[..i + 1] == articles[..i] + [articles[i]];
        var article := articles[i];
        var pmid := GetStr(article, "pmid", "");
        if pmid != "" && pmid !in processed {
          queue := queue + [Item(pmid, article, "metadata", category, term)];
        } else {
          assert queue + [] == queue;
        }
      }
      assert articles[..|articles|] == articles;
      EnqueueKeepsConsistent(old(State()), articles, category, term);
    }

    /** `_store_metadata_and_abstract`. */
    method StoreMetadataAndAbstract(pmid: string, article: Record, now: string)
      modifies this`abstracts, this`metadata
      ensures abstracts == old(abstracts)[pmid := GetStr(article, "abstract", "")]
      ensures metadata == old(metadata)[pmid := MetadataRecord(pmid, article, now)]
    {
      abstracts := abstracts[pmid := GetStr(article, "abstract", "")];
      metadata := metadata[pmid := MetadataRecord(pmid, article, now)];
    }

    /** One round of `_processing_worker`; an empty queue is the one-second
        timeout and changes nothing. */
    method ProcessingStep(score: Record -> real, phrases: Record -> seq<string>, now: string)
      requires Valid()
      modifies this`queue, this`processed, this`abstracts, this`metadata
      ensures Valid()
      ensures State() == MetadataStep(old(State()), score, phrases, now)
      ensures old(queue) != [] && FulltextItem(old(State()), score, phrases, now).Some? ==>
        var item := FulltextItem(old(State()), score, phrases, now).value;
        && abstracts == old(abstracts)[item.pmid := GetStr(item.article, "abstract", "")]
        && metadata == old(metadata)[item.pmid := MetadataRecord(item.pmid, item.article, now)]
      ensures old(queue) == [] || FulltextItem(old(State()), score, phrases, now).None? ==>
        abstracts == old(abstracts) && metadata == old(metadata)
    {
      ghost var p := State();
      if queue == [] {
        return;
      }
      MetadataStepKeepsConsistent(p, score, phrases, now);
      var item := queue[0];
      queue := queue[1..];
      var pmid := item.pmid;
      if pmid in processed {
        return;
      }
      var results := DataProcessor.ProcessArticles([item.article], score, phrases, now);
      if results == [] {
        return;
      }
      var processedArticle := results[0];
      if processedArticle != map[] {
        StoreMetadataAndAbstract(pmid, processedArticle, now);
        queue := queue + [Item(pmid, processedArticle, "fulltext", item.category, item.searchTerm)];
      }
      processed := processed + {pmid};
    }

    /** The body of `_fulltext_worker` for one article: download it (which
        may write a PDF file) and, when there is text, store it, which
        copies the PDF. */
    method FetchAndStore(pmid: string, article: Record, net: FulltextDownloader.Net) returns (data: Record)
      modifies storage, downloader
      ensures data == Download(old(downloader.texts), old(downloader.metadata), net)(article)
      ensures (downloader.texts, downloader.metadata)
                == FulltextDownloader.SavedAfter(old(downloader.texts), old(downloader.metadata), article, net)
      ensures var written := WrittenBy(old(downloader.texts), old(downloader.metadata), net)(article);
        written.Some? ==>
          && Has(data, "full_text") && GetStr(data, "pdf_path", "") == written.value != ""
          && GetStr(data, "pdf_path", "") in storage.files
      ensures var written := WrittenBy(old(downloader.texts), old(downloader.metadata), net)(article);
        Has(data, "full_text") ==>
        var files := WithWritten(old(storage.files), written);
        && storage.texts == old(storage.texts)[pmid := GetStr(data, "full_text", "")]
        && storage.metadata == old(storage.metadata)[pmid := StorageManager.StoredMeta(storage.dataDir, pmid, data, GetStr(data, "pdf_path", "") in files)]
        && storage.files == (if Has(data, "pdf_path") && GetStr(data, "pdf_path", "") in files
                             then files + {storage.dataDir + "/pdfs/" + pmid + ".pdf"} else files)
        && storage.index == old(storage.index) && storage.searchDir == old(storage.searchDir)
      ensures !Has(data, "full_text") ==> unchanged(storage)
    {
      ghost var written := WrittenBy(downloader.texts, downloader.metadata, net)(article);
      var pdf;
      data, pdf := downloader.DownloadFullText(article, net);
      assert pdf == written;
      if pdf.Some? {
        storage.RecordFile(pdf.value);
      }
      if Has(data, "full_text") {
        var _ := storage.StoreArticleFulltext(pmid, data);
      }
    }

    /** One round of `_fulltext_worker`; net is the network's answers. */
    method FulltextStepOnce(net: FulltextDownloader.Net)
      requires Valid()
      modifies this`queue, storage, downloader
      ensures Valid()
      ensures State() == FulltextStep(old(State()), Download(old(downloader.texts), old(downloader.metadata), net))
      ensures old(queue) != [] && old(queue)[0].stage == "fulltext" ==>
        (downloader.texts, downloader.metadata)
          == FulltextDownloader.SavedAfter(old(downloader.texts), old(downloader.metadata), old(queue)[0].article, net)
      ensures !(old(queue) != [] && old(queue)[0].stage == "fulltext") ==> unchanged(downloader)
      ensures var download := Download(old(downloader.texts), old(downloader.metadata), net);
        var written := WrittenBy(old(downloader.texts), old(downloader.metadata), net);
        old(queue) != [] && old(queue)[0].stage == "fulltext" && Has(download(old(queue)[0].article), "full_text") ==>
        var pmid := old(queue)[0].pmid;
        var data := download(old(queue)[0].article);
        var files := WithWritten(old(storage.files), written(old(queue)[0].article));
        && storage.texts == old(storage.texts)[pmid := GetStr(data, "full_text", "")]
        && storage.metadata == old(storage.metadata)[pmid := StorageManager.StoredMeta(storage.dataDir, pmid, data, GetStr(data, "pdf_path", "") in files)]
        && storage.files == (if Has(data, "pdf_path") && GetStr(data, "pdf_path", "") in files
                             then files + {storage.dataDir + "/pdfs/" + pmid + ".pdf"} else files)
        && storage.index == old(storage.index) && storage.searchDir == old(storage.searchDir)
      ensures var written := WrittenBy(old(downloader.texts), old(downloader.metadata), net);
        old(queue) != [] && old(queue)[0].stage == "fulltext" && written(old(queue)[0].article).Some? ==>
        var data := Download(old(downloader.texts), old(downloader.metadata), net)(old(queue)[0].article);
        && Has(data, "full_text") && GetStr(data, "pdf_path", "") == written(old(queue)[0].article).value
        && GetStr(data, "pdf_path", "") != "" && GetStr(data, "pdf_path", "") in storage.files
      ensures var download := Download(old(downloader.texts), old(downloader.metadata), net);
        !(old(queue) != [] && old(queue)[0].stage == "fulltext" && Has(download(old(queue)[0].article), "full_text")) ==>
        unchanged(storage)
    {
      FulltextStepKeepsConsistent(State(), Download(downloader.texts, downloader.metadata, net));
      if queue == [] {
        return;
      }
      var item := queue[0];
      queue := queue[1..];
      if item.stage != "fulltext" {
        queue := queue + [item];
        return;
      }
      var data := FetchAndStore(item.pmid, item.article, net);
      if Has(data, "full_text") {
        queue := queue + [Item(item.pmid, data, "ocr", item.category, item.searchTerm)];
      }
    }

    /** `_process_ocr_for_rag`: with a PDF on disk, the chunks of the full
        text and the searchable text are written, and an existing metadata
        file is marked complete. */
    method ProcessOcrForRag(pmid: string, article: Record, now: string)
      modifies this`ragChunks, this`searchable, this`metadata
      ensures var pdfPath := GetStr(article, "pdf_path", "");
        if pdfPath != "" && pdfPath in storage.files then
          var chunks := RagChunks(GetStr(article, "full_text", ""), pmid, ChunkSize, ChunkOverlap);
          && ragChunks == old(ragChunks)[pmid := chunks]
          && searchable == old(searchable)[pmid := Join("\n\n", Sections(article))]
          && metadata == (if pmid in old(metadata) then old(metadata)[pmid := CompletedMetadata(old(metadata)[pmid], |chunks|, now)]
                          else old(metadata))
        else ragChunks == old(ragChunks) && searchable == old(searchable) && metadata == old(metadata)
    {
      var pdfPath := GetStr(article, "pdf_path", "");
      if pdfPath != "" && pdfPath in storage.files {
        var fullText := GetStr(article, "full_text", "");
        var chunks := CreateRagChunks(fullText, pmid, ChunkSize, ChunkOverlap);
        ragChunks := ragChunks[pmid := chunks];
        var text := CreateSearchableText(article);
        searchable := searchable[pmid := text];
        if pmid in metadata {
          metadata := metadata[pmid := CompletedMetadata(metadata[pmid], |chunks|, now)];
        }
      }
    }

    /** One round of `_ocr_worker`. */
    method OcrStepOnce(now: string)
      requires Valid()
      modifies this`queue, this`ragChunks, this`searchable, this`metadata
      ensures Valid()
      ensures State() == OcrStep(old(State()))
      ensures old(queue) != [] && old(queue)[0].stage == "ocr" ==>
        var pmid := old(queue)[0].pmid;
        var article := old(queue)[0].article;
        var pdfPath := GetStr(article, "pdf_path", "");
        if pdfPath != "" && pdfPath in storage.files then
          var chunks := RagChunks(GetStr(article, "full_text", ""), pmid, ChunkSize, ChunkOverlap);
          && ragChunks == old(ragChunks)[pmid := chunks]
          && searchable == old(searchable)[pmid := Join("\n\n", Sections(article))]
          && metadata == (if pmid in old(metadata) then old(metadata)[pmid := CompletedMetadata(old(metadata)[pmid], |chunks|, now)]
                          else old(metadata))
        else ragChunks == old(ragChunks) && searchable == old(searchable) && metadata == old(metadata)
      ensures old(queue) == [] || old(queue)[0].stage != "ocr" ==>
        ragChunks == old(ragChunks) && searchable == old(searchable) && metadata == old(metadata)
    {
      OcrStepKeepsConsistent(State());
      if queue == [] {
        return;
      }
      var item := queue[0];
      queue := queue[1..];
      if item.stage != "ocr" {
        queue := queue + [item];
        return;
      }
      ProcessOcrForRag(item.pmid, item.article, now);
    }

    /** A full-text item alone in the queue whose download writes a PDF
        file: the OCR round that follows finds the PDF and writes the chunks
        and the searchable text of the downloaded article. */
    method FulltextThenOcr(net: FulltextDownloader.Net, now: string)
      requires Valid()
      requires |queue| == 1 && queue[0].stage == "fulltext"
      modifies this`queue, storage, downloader, this`ragChunks, this`searchable, this`metadata
      ensures Valid()
      ensures var written := WrittenBy(old(downloader.texts), old(downloader.metadata), net)(old(queue)[0].article);
        written.Some? ==>
          var data := Download(old(downloader.texts), old(downloader.metadata), net)(old(queue)[0].article);
          var pmid := old(queue)[0].pmid;
          && queue == []
          && ragChunks == old(ragChunks)[pmid := RagChunks(GetStr(data, "full_text", ""), pmid, ChunkSize, ChunkOverlap)]
          && searchable == old(searchable)[pmid := Join("\n\n", Sections(data))]
    {
      FulltextStepOnce(net);
      OcrStepOnce(now);
    }

    /** One round of `_rss_worker`: when due, the feeds are generated
        (`generated` is the number of feed paths `RssGenerator.GenerateFeeds`
        reports for the stored results); when there are any, the generator itself
        forces a commit and push of them (genCommit, genPush), then the time
        is noted and the worker's own forced commit and push follows
        (commitRun, pushRun). */
    method RssStep(now: int, generated: nat, genCommit: GitManager.GitRun, genPush: GitManager.GitRun,
                   commitRun: GitManager.GitRun, pushRun: GitManager.GitRun)
      modifies this`lastRss, git
      ensures lastRss == (if Due(old(lastRss), now, RssInterval) && generated > 0 then Some(now) else old(lastRss))
      ensures Due(old(lastRss), now, RssInterval) && generated > 0 ==>
        git.State() == GitManager.CommitAndPush(GitManager.ForceCommitAndPush(old(git.State()), now, genCommit, genPush).0,
                                                "rss_update", generated, true, now, commitRun, pushRun).0
      ensures !(Due(old(lastRss), now, RssInterval) && generated > 0) ==> git.State() == old(git.State())
    {
      if Due(lastRss, now, RssInterval) && generated > 0 {
        var _ := git.ForceCommitAndPushNow(now, genCommit, genPush);
        lastRss := Some(now);
        var _ := git.CommitAndPushIfNeeded("rss_update", generated, true, now, commitRun, pushRun);
      }
    }

    /** One round of `_status_worker`, with the page path the generator
        returned ("" for none). */
    method StatusStep(now: int, statusPath: string, commitRun: GitManager.GitRun, pushRun: GitManager.GitRun)
      modifies this`lastStatus, git
      ensures lastStatus == (if Due(old(lastStatus), now, StatusInterval) && statusPath != "" then Some(now) else old(lastStatus))
      ensures Due(old(lastStatus), now, StatusInterval) && statusPath != "" ==>
        git.State() == GitManager.CommitAndPush(old(git.State()), "status_update", 1, true, now, commitRun, pushRun).0
      ensures !(Due(old(lastStatus), now, StatusInterval) && statusPath != "") ==> git.State() == old(git.State())
    {
      if Due(lastStatus, now, StatusInterval) && statusPath != "" {
        lastStatus := Some(now);
        var _ := git.CommitAndPushIfNeeded("status_update", 1, true, now, commitRun, pushRun);
      }
    }
  }
}
