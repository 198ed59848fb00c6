/**
 * The worker's `PROCESS` message (src/worker.js:38-143) once the document's text is at hand:
 * segmentation, the reading table, the shown groups in their buckets, and the order of it all.
 */
module WorkerProcess {
  import opened Strings
  import opened Sequences
  import opened JsObjects
  import opened Segmentation
  import opened Worker
  import opened WorkerAggregate
  import opened WorkerOutput

  /** The `data` of the `PROCESS_SUCCESS` message. */
  datatype ProcessResult = ProcessResult(
    groupedTokens: JsObject<seq<WordGroup>>,
    sentences: seq<Sentence>,
    sentenceMap: JsObject<seq<nat>>)

  /** `collate` orders every two strings one way or the other, as `localeCompare` does. */
  ghost predicate CollateTotal(collate: (string, string) -> bool) {
    forall a, b :: collate(a, b) || collate(b, a)
  }

  /**
   * What the worker reports for the reading table `words`: a category is present exactly when
   * some shown reading's top variant has it, and holds those readings' groups in collation
   * order of their readings; the categories themselves come in collation order; `sentenceMap`
   * has an entry, the reading's sentence list, for every shown reading and for nothing else.
   */
  ghost predicate Reported(words: JsObject<ReadingGroup>, collate: (string, string) -> bool,
                           final: JsObject<seq<WordGroup>>, sentenceMap: JsObject<seq<nat>>)
  {
    && TableValid(words)
    && MapInv(words, words.Keys(), sentenceMap)
    && final.Valid()
    && (forall pos :: pos in final.entries <==> Bucket(words, words.Keys(), pos) != [])
    && (forall pos :: pos in final.entries ==> final.entries[pos] == SortBy(Bucket(words, words.Keys(), pos), ByReading(collate)))
    && (CollateTotal(collate) ==> Sorted(final.inserted, collate))
  }

  /** The category order is a collation order when the collation is total. */
  lemma CategoriesSorted(grouped: JsObject<seq<WordGroup>>, collate: (string, string) -> bool)
    requires CollateTotal(collate)
    ensures Sorted(CategoryOrder(grouped, collate), collate)
  {
    SortBySorted(grouped.Keys(), collate);
  }

  lemma ReportedFromStages(words: JsObject<ReadingGroup>, collate: (string, string) -> bool, grouped: JsObject<seq<WordGroup>>,
                           final: JsObject<seq<WordGroup>>, sentenceMap: JsObject<seq<nat>>)
    requires TableValid(words)
    requires GroupedInv(words, words.Keys(), grouped)
    requires MapInv(words, words.Keys(), sentenceMap)
    requires OrderInv(grouped, collate, CategoryOrder(grouped, collate), final)
    ensures Reported(words, collate, final, sentenceMap)
  {
    CategoryOrderFacts(grouped, collate);
    if CollateTotal(collate) {
      CategoriesSorted(grouped, collate);
    }
  }

  /**
   * The `PROCESS` branch after reading the file: `tokenize` stands for kuromoji's tokenizer
   * and `collate` for `localeCompare(…, 'ja') <= 0`.
   */
  method Process(text: string, tokenize: string -> seq<Token>, collate: (string, string) -> bool) returns (result: ProcessResult)
    ensures result.sentences == DocumentSentences(text, IsJsBlank)
    ensures Reported(Table(Occurrences(result.sentences, tokenize, |result.sentences|)), collate, result.groupedTokens, result.sentenceMap)
  {
    var sentences := Segment(text);
    var words := Aggregate(sentences, tokenize);
    TableAlwaysValid(Occurrences(sentences, tokenize, |sentences|));
    var grouped, sentenceMap := Emit(words);
    var final := Order(grouped, collate);
    ReportedFromStages(words, collate, grouped, final, sentenceMap);
    result := ProcessResult(final, sentences, sentenceMap);
  }

  /** Each category's groups are the category's bucket, in collation order of their readings. */
  lemma BucketInReadingOrder(words: JsObject<ReadingGroup>, collate: (string, string) -> bool,
                             final: JsObject<seq<WordGroup>>, sentenceMap: JsObject<seq<nat>>, pos: string)
    requires Reported(words, collate, final, sentenceMap) && CollateTotal(collate)
    requires pos in final.entries
    ensures multiset(final.entries[pos]) == multiset(Bucket(words, words.Keys(), pos))
    ensures forall i :: 0 <= i < |final.entries[pos]| - 1 ==> collate(final.entries[pos][i].reading, final.entries[pos][i + 1].reading)
  {
    var bucket := Bucket(words, words.Keys(), pos);
    assert final.entries[pos] == SortBy(bucket, ByReading(collate));
    SortedByReading(bucket, collate);
  }

  lemma SortedByReading(groups: seq<WordGroup>, collate: (string, string) -> bool)
    requires CollateTotal(collate)
    ensures var sorted := SortBy(groups, ByReading(collate));
      forall i :: 0 <= i < |sorted| - 1 ==> collate(sorted[i].reading, sorted[i + 1].reading)
  {
    var le := ByReading(collate);
    forall a, b | a in groups && b in groups ensures le(a, b) || le(b, a) {
      assert collate(a.reading, b.reading) || collate(b.reading, a.reading);
    }
    SortBySorted(groups, le);
  }
}
