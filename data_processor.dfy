/** Enrichment of scraped articles: case-insensitive counting and matching
    of fixed vocabularies in an article's title and abstract, integer
    relevance levels, and the relevance filter over a batch. The relevance
    score and the key phrases are inputs: their computation is not part of
    this model. */
module DataProcessor {
  import opened Base
  import opened Strings

  // ---------------------------------------------------------------------
  // Vocabularies

  const ExtractionIndicators: seq<string> :=
    ["extraction", "co2", "ethanol", "hydrocarbon", "distillation", "purification", "supercritical", "solvent"]
  const StabilityIndicators: seq<string> :=
    ["stability", "shelf life", "degradation", "storage", "temperature", "humidity", "oxidation"]
  const AnalyticalIndicators: seq<string> :=
    ["hplc", "gc-ms", "analysis", "quantification", "chromatography", "spectroscopy", "mass spectrometry"]
  const PharmaceuticalIndicators: seq<string> :=
    ["bioavailability", "pharmacokinetics", "dosage", "delivery", "pharmaceutical", "drug", "therapeutic"]

  const CannabinoidIndicators: seq<string> :=
    ["thc", "cbd", "cbg", "cbn", "cannabinoid", "cannabidiol", "tetrahydrocannabinol"]
  const TerpeneIndicators: seq<string> :=
    ["terpene", "myrcene", "limonene", "pinene", "linalool", "caryophyllene", "humulene"]
  const PlantIndicators: seq<string> :=
    ["cannabis", "marijuana", "hemp", "cannabis sativa", "cannabis indica", "cannabis ruderalis"]

  const Cannabinoids: seq<string> :=
    ["THC", "CBD", "CBG", "CBN", "CBC", "THCV", "CBDV", "cannabidiol", "tetrahydrocannabinol",
     "cannabigerol", "cannabinol", "cannabichromene"]
  const Terpenes: seq<string> :=
    ["myrcene", "limonene", "pinene", "linalool", "caryophyllene", "humulene", "terpinolene",
     "ocimene", "bisabolol"]
  const ExtractionMethods: seq<string> :=
    ["CO2 extraction", "supercritical CO2", "ethanol extraction", "hydrocarbon extraction",
     "steam distillation", "distillation", "purification", "fractionation"]
  const AnalyticalMethods: seq<string> :=
    ["HPLC", "GC-MS", "LC-MS", "chromatography", "spectroscopy", "mass spectrometry", "NMR",
     "UV-Vis", "FTIR"]
  const DosageForms: seq<string> :=
    ["capsule", "tablet", "oil", "tincture", "topical", "cream", "ointment", "patch",
     "inhalation", "vaporizer"]

  predicate NonEmptyTerms(terms: seq<string>) {
    forall k :: 0 <= k < |terms| ==> terms[k] != []
  }

  // ---------------------------------------------------------------------
  // Term counting: _count_terms

  /** The number of non-overlapping occurrences of each lower-cased term in
      an already lower-cased text, summed over the terms. */
  function TermTotal(textLower: string, terms: seq<string>): nat
  {
    if terms == [] then 0
    else TermTotal(textLower, terms[..|terms| - 1]) + Count(textLower, Lower(terms[|terms| - 1]))
  }

  /** `_count_terms`: lower the text once, then add up each term's count. */
  method CountTerms(text: string, terms: seq<string>) returns (count: nat)
    ensures count == TermTotal(Lower(text), terms)
  {
    count := 0;
    var textLower := Lower(text);
    for i := 0 to |terms|
      invariant count == TermTotal(textLower, terms[..i])
    {
      assert terms[..i + 1][..i] == terms[..i];
      count := count + Count(textLower, Lower(terms[i]));
    }
    assert terms[..|terms|] == terms;
  }

  /** No non-empty term occurs in the empty text. */
  lemma {:induction false} TermTotalEmptyText(terms: seq<string>)
    requires NonEmptyTerms(terms)
    ensures TermTotal("", terms) == 0
  {
    if terms != [] {
      TermTotalEmptyText(terms[..|terms| - 1]);
    }
  }

  /** With non-empty terms, the total is positive exactly when some term
      occurs in the text. */
  lemma {:induction false} TermTotalPositiveIff(textLower: string, terms: seq<string>)
    requires NonEmptyTerms(terms)
    ensures TermTotal(textLower, terms) > 0 <==> exists k :: 0 <= k < |terms| && Contains(textLower, Lower(terms[k]))
  {
    if terms != [] {
      var init := terms[..|terms| - 1];
      var last := terms[|terms| - 1];
      TermTotalPositiveIff(textLower, init);
      CountPositiveIffContains(textLower, Lower(last));
      if TermTotal(textLower, terms) > 0 {
        if Count(textLower, Lower(last)) == 0 {
          var k :| 0 <= k < |init| && Contains(textLower, Lower(init[k]));
          assert terms[k] == init[k];
        }
      } else {
        forall k | 0 <= k < |terms|
          ensures !Contains(textLower, Lower(terms[k]))
        {
          if k < |init| {
            assert terms[k] == init[k];
          }
        }
      }
    }
  }

  // ---------------------------------------------------------------------
  // Relevance levels: _get_relevance_level

  /** "high" from five indicators, "medium" from two, "low" below. */
  function RelevanceLevel(count: int): (level: string)
    ensures level == "high" <==> count >= 5
    ensures level == "medium" <==> 2 <= count < 5
    ensures level == "low" <==> count < 2
  {
    if count >= 5 then "high" else if count >= 2 then "medium" else "low"
  }

  function LevelRank(level: string): int {
    if level == "high" then 2 else if level == "medium" then 1 else 0
  }

  /** More indicators never give a lower level. */
  lemma RelevanceLevelMonotone(a: int, b: int)
    requires a <= b
    ensures LevelRank(RelevanceLevel(a)) <= LevelRank(RelevanceLevel(b))
  {
  }

  // ---------------------------------------------------------------------
  // Assessments: _assess_formulation_relevance, _assess_cannabis_relevance

  /** `f"{title} {abstract}"` of the lower-cased title and abstract. */
  function AssessedText(article: Record): string {
    Lower(GetStr(article, "title", "")) + " " + Lower(GetStr(article, "abstract", ""))
  }

  function AssessFormulation(article: Record): (a: Assessment)
    ensures a.indicators.Keys == {"extraction_methods", "stability_testing", "analytical_methods", "pharmaceutical_aspects"}
    ensures a.total == a.indicators["extraction_methods"] + a.indicators["stability_testing"]
                     + a.indicators["analytical_methods"] + a.indicators["pharmaceutical_aspects"]
    ensures forall k :: k in a.indicators ==> a.indicators[k] >= 0
    ensures a.level == RelevanceLevel(a.total)
  {
    var text := Lower(AssessedText(article));
    var indicators := map[
      "extraction_methods" := TermTotal(text, ExtractionIndicators) as int,
      "stability_testing" := TermTotal(text, StabilityIndicators) as int,
      "analytical_methods" := TermTotal(text, AnalyticalIndicators) as int,
      "pharmaceutical_aspects" := TermTotal(text, PharmaceuticalIndicators) as int];
    var total := indicators["extraction_methods"] + indicators["stability_testing"]
               + indicators["analytical_methods"] + indicators["pharmaceutical_aspects"];
    Assessment(indicators, total, RelevanceLevel(total))
  }

  function AssessCannabis(article: Record): (a: Assessment)
    ensures a.indicators.Keys == {"cannabinoids", "terpenes", "cannabis_plant"}
    ensures a.total == a.indicators["cannabinoids"] + a.indicators["terpenes"] + a.indicators["cannabis_plant"]
    ensures forall k :: k in a.indicators ==> a.indicators[k] >= 0
    ensures a.level == RelevanceLevel(a.total)
  {
    var text := Lower(AssessedText(article));
    var indicators := map[
      "cannabinoids" := TermTotal(text, CannabinoidIndicators) as int,
      "terpenes" := TermTotal(text, TerpeneIndicators) as int,
      "cannabis_plant" := TermTotal(text, PlantIndicators) as int];
    var total := indicators["cannabinoids"] + indicators["terpenes"] + indicators["cannabis_plant"];
    Assessment(indicators, total, RelevanceLevel(total))
  }

  /** An article with neither title nor abstract has no cannabis indicator
      and is rated "low". */
  lemma {:induction false} AssessCannabisEmpty(article: Record)
    requires GetStr(article, "title", "") == "" && GetStr(article, "abstract", "") == ""
    ensures AssessCannabis(article).total == 0 && AssessCannabis(article).level == "low"
  {
    var text := Lower(AssessedText(article));
    assert text == " ";
    // Every indicator is longer than the one-character text.
    forall terms | terms in [CannabinoidIndicators, TerpeneIndicators, PlantIndicators]
      ensures TermTotal(text, terms) == 0
    {
      LongTermsAbsent(text, terms);
    }
  }

  /** Terms longer than the text are never counted in it. */
  lemma {:induction false} LongTermsAbsent(textLower: string, terms: seq<string>)
    requires forall k :: 0 <= k < |terms| ==> |terms[k]| > |textLower|
    ensures TermTotal(textLower, terms) == 0
  {
    if terms != [] {
      LongTermsAbsent(textLower, terms[..|terms| - 1]);
    }
  }

  lemma {:induction false} TermTotalConcat(textLower: string, a: seq<string>, b: seq<string>)
    ensures TermTotal(textLower, a + b) == TermTotal(textLower, a) + TermTotal(textLower, b)
    decreases |b|
  {
    if b != [] {
      TermTotalConcat(textLower, a, b[..|b| - 1]);
      assert (a + b)[..|a + b| - 1] == a + b[..|b| - 1];
    } else {
      assert a + b == a;
    }
  }

  /** The formulation total counts every formulation indicator term once:
      it is positive exactly when one of them occurs in the lower-cased
      title and abstract. */
  lemma {:induction false} AssessFormulationPositiveIff(article: Record)
    ensures var text := Lower(AssessedText(article));
      && AssessFormulation(article).total == TermTotal(text, FormulationIndicators)
      && (AssessFormulation(article).total > 0 <==>
            exists k :: 0 <= k < |FormulationIndicators| && Contains(text, Lower(FormulationIndicators[k])))
  {
    var text := Lower(AssessedText(article));
    TermTotalConcat(text, ExtractionIndicators, StabilityIndicators);
    TermTotalConcat(text, ExtractionIndicators + StabilityIndicators, AnalyticalIndicators);
    TermTotalConcat(text, ExtractionIndicators + StabilityIndicators + AnalyticalIndicators, PharmaceuticalIndicators);
    assert NonEmptyTerms(FormulationIndicators);
    TermTotalPositiveIff(text, FormulationIndicators);
  }

  const FormulationIndicators: seq<string> :=
    ExtractionIndicators + StabilityIndicators + AnalyticalIndicators + PharmaceuticalIndicators

  // ---------------------------------------------------------------------
  // Entity extraction: _extract_cannabinoids, _terpenes, ...

  /** The vocabulary entries whose lower-case form occurs in the lower-cased
      text, in vocabulary order. */
  function Mentions(textLower: string, vocabulary: seq<string>): seq<string>
  {
    Filter(vocabulary, e => Contains(textLower, Lower(e)))
  }

  /** One `_extract_*` loop: append each entry found in the text. */
  method ExtractMentions(text: string, vocabulary: seq<string>) returns (found: seq<string>)
    ensures found == Mentions(Lower(text), vocabulary)
  {
    found := [];
    var textLower := Lower(text);
    for i := 0 to |vocabulary|
      invariant found == Mentions(textLower, vocabulary[..i])
    {
      FilterSnoc(vocabulary[..i], vocabulary[i], e => Contains(textLower, Lower(e)));
      assert vocabulary[..i + 1] == vocabulary[..i] + [vocabulary[i]];
      if Contains(textLower, Lower(vocabulary[i])) {
        found := found + [vocabulary[i]];
      }
    }
    assert vocabulary[..|vocabulary|] == vocabulary;
  }

  /** The matches are a subsequence of the vocabulary, and an entry is a match
      exactly when its lower-case form occurs in the text. */
  lemma MentionsCharacterized(textLower: string, vocabulary: seq<string>)
    ensures IsSubsequence(Mentions(textLower, vocabulary), vocabulary)
    ensures forall e :: e in Mentions(textLower, vocabulary) <==> e in vocabulary && Contains(textLower, Lower(e))
  {
    FilterCharacterized(vocabulary, e => Contains(textLower, Lower(e)));
  }

  /** A vocabulary without duplicates gives matches without duplicates. */
  lemma MentionsDistinct(textLower: string, vocabulary: seq<string>)
    requires NoDuplicates(vocabulary)
    ensures NoDuplicates(Mentions(textLower, vocabulary))
  {
    FilterDistinct(vocabulary, e => Contains(textLower, Lower(e)));
  }

  /** The five fixed extraction vocabularies have no repeated entry, so no
      extraction result repeats an entry. */
  lemma ExtractionVocabulariesDistinct()
    ensures NoDuplicates(Cannabinoids) && NoDuplicates(Terpenes) && NoDuplicates(ExtractionMethods)
    ensures NoDuplicates(AnalyticalMethods) && NoDuplicates(DosageForms)
  {
  }

  /** `_extract_entities`: the five groups found in `f"{title} {abstract}"`. */
  function Entities(article: Record): (g: map<string, seq<string>>)
    ensures g.Keys == {"cannabinoids", "terpenes", "extraction_methods", "analytical_methods", "dosage_forms"}
  {
    var text := Lower(GetStr(article, "title", "") + " " + GetStr(article, "abstract", ""));
    map["cannabinoids" := Mentions(text, Cannabinoids),
        "terpenes" := Mentions(text, Terpenes),
        "extraction_methods" := Mentions(text, ExtractionMethods),
        "analytical_methods" := Mentions(text, AnalyticalMethods),
        "dosage_forms" := Mentions(text, DosageForms)]
  }

  // ---------------------------------------------------------------------
  // Articles: _process_single_article, process_articles

  const EnrichmentKeys: set<string> :=
    {"relevance_score", "formulation_relevance", "cannabis_relevance", "extracted_entities",
     "key_phrases", "processing_timestamp"}

  /** The threshold below which an article is filtered out. */
  const MinRelevance: real := 0.3

  /** The value `_process_single_article` stores under an enrichment key. */
  function EnrichmentValue(key: string, article: Record, score: real, keyPhrases: seq<string>, timestamp: string): Value
  {
    if key == "relevance_score" then Score(score)
    else if key == "formulation_relevance" then Assessed(AssessFormulation(article))
    else if key == "cannabis_relevance" then Assessed(AssessCannabis(article))
    else if key == "extracted_entities" then Groups(Entities(article))
    else if key == "key_phrases" then Strs(keyPhrases)
    else Str(timestamp)
  }

  /** The copy of an article with the six enrichment fields set: every other
      field is kept as it was. */
  function Enriched(article: Record, score: real, keyPhrases: seq<string>, timestamp: string): (r: Record)
    ensures r.Keys == article.Keys + EnrichmentKeys
    ensures forall k :: k in article && k !in EnrichmentKeys ==> r[k] == article[k]
    ensures forall k :: k in EnrichmentKeys ==> r[k] == EnrichmentValue(k, article, score, keyPhrases, timestamp)
  {
    map k | k in article.Keys + EnrichmentKeys ::
      if k in EnrichmentKeys then EnrichmentValue(k, article, score, keyPhrases, timestamp) else article[k]
  }

  /** `_process_single_article`: nothing for a score below the threshold,
      the enriched copy otherwise. */
  function ProcessSingleArticle(article: Record, score: real, keyPhrases: seq<string>, timestamp: string): (r: Option<Record>)
    ensures r.None? <==> score < MinRelevance
    ensures r.Some? ==> r.value == Enriched(article, score, keyPhrases, timestamp)
  {
    if score < MinRelevance then None else Some(Enriched(article, score, keyPhrases, timestamp))
  }

  /** Every article enriched, whatever its score. */
  function EnrichedAll(articles: seq<Record>, score: Record -> real, phrases: Record -> seq<string>, timestamp: string): seq<Record>
  {
    MapSeq(articles, a => Enriched(a, score(a), phrases(a), timestamp))
  }

  /** The enriched copies of the articles that pass the filter, in order. */
  function Kept(articles: seq<Record>, score: Record -> real, phrases: Record -> seq<string>, timestamp: string): seq<Record>
  {
    FilterMap(articles, a => ProcessSingleArticle(a, score(a), phrases(a), timestamp))
  }

  /** `process_articles`: keep each article's result when there is one. */
  method ProcessArticles(articles: seq<Record>, score: Record -> real, phrases: Record -> seq<string>, timestamp: string)
    returns (processed: seq<Record>)
    ensures processed == Kept(articles, score, phrases, timestamp)
  {
    var f := a => ProcessSingleArticle(a, score(a), phrases(a), timestamp);
    processed := [];
    for i := 0 to |articles|
      invariant processed == FilterMap(articles[..i], f)
    {
      FilterMapSnoc(articles[..i], articles[i], f);
      assert articles[..i + 1] == articles[..i] + [articles[i]];
      var r := ProcessSingleArticle(articles[i], score(articles[i]), phrases(articles[i]), timestamp);
      if r.Some? {
        processed := processed + [r.value];
      }
    }
    assert articles[..|articles|] == articles;
  }

  /** The result keeps the input order and is no longer than the input;
      every article that passes the filter is represented. */
  lemma KeptIsOrderedSubsequence(articles: seq<Record>, score: Record -> real, phrases: Record -> seq<string>, timestamp: string)
    ensures IsSubsequence(Kept(articles, score, phrases, timestamp), EnrichedAll(articles, score, phrases, timestamp))
    ensures |Kept(articles, score, phrases, timestamp)| <= |articles|
    ensures forall i :: 0 <= i < |articles| && score(articles[i]) >= MinRelevance ==>
              Enriched(articles[i], score(articles[i]), phrases(articles[i]), timestamp) in Kept(articles, score, phrases, timestamp)
  {
    var f := a => ProcessSingleArticle(a, score(a), phrases(a), timestamp);
    var g := a => Enriched(a, score(a), phrases(a), timestamp);
    assert forall a :: f(a).Some? ==> f(a).value == g(a);
    FilterMapSubsequence(articles, f, g);
    assert forall i :: 0 <= i < |articles| ==> (f(articles[i]).Some? <==> score(articles[i]) >= MinRelevance);
    SubsequenceBounds(Kept(articles, score, phrases, timestamp), EnrichedAll(articles, score, phrases, timestamp));
  }

  /** `process_articles([article])`: the enriched article, or nothing when
      its score is below the threshold. */
  lemma KeptOne(article: Record, score: Record -> real, phrases: Record -> seq<string>, timestamp: string)
    ensures Kept([article], score, phrases, timestamp) ==
      if score(article) < MinRelevance then [] else [Enriched(article, score(article), phrases(article), timestamp)]
  {
    var f := a => ProcessSingleArticle(a, score(a), phrases(a), timestamp);
    assert [article][1..] == [];
    assert Kept([article], score, phrases, timestamp) == (if f(article).Some? then [f(article).value] else []) + FilterMap([article][1..], f);
  }
}
