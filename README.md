# Text analyzer: the notation-variant pipeline in Dafny

The text analyzer finds words that a Japanese document writes in more than one way: tokens
with the same reading (phonetic transcription) but different surface forms. This project
models the analysis core of the application and proves what it computes.

- **The browser worker's `PROCESS` step** (`src/worker.js`):
  - It cuts the document into sentences after `。`, `？`, `！` and line breaks, dropping blank pieces.
  - It gives each sentence the line of its start, using a table of line ends.
  - It counts the tokens of each sentence by reading, then by surface form. Particles, auxiliary verbs, conjunctions, adnominals and tokens without a reading are dropped.
  - It reports every reading that occurs at least twice, or with at least two forms, as a word group. The group's variants are ranked by count, and the group is filed under the category of its top variant.
  - The categories, and the groups inside each, are put in Japanese collation order.
  - It records each reported reading's sentence list.
- **The Tauri command `analyze_text`** (`src-tauri/src/main.rs`):
  - It does the same over the whole text at once: one token stream, whose tokens are placed in sentences by comparing each token's start, a character offset, with the recorded sentence ends.
  - As written, those ends are byte offsets for every sentence closed by a terminator and a character count only for the trailing sentence, so a token after multi-byte text can land in an earlier sentence (see Findings).
  - `TauriOutput.AnalyzeText` takes the unit of those ends as a parameter: `Bytes` is the code as written, `Chars` the evidently intended behaviour.
  - It does not skip single occurrences, and it also drops symbols.
  - Its groups are ordered by Rust's string order; its categories come back in a `HashMap`, without order.
- **The concordance built when a word group is selected** (`handleGroupSelect` in `src/App.jsx`):
  - Each variant, in ranking order, claims the sentences of the reading's sentence list that contain it and that no earlier variant claimed.
  - A variant that claimed nothing is removed from the result.
- **The word list's view** (`src/components/LeftPane.jsx`):
  - Categories are ordered by the fixed `POS_ORDER` priority list.
  - Groups with a single variant are hidden unless "show all" is on.
  - The remaining groups are sorted by descending count, ascending count or reading.
  - Each category has an expansion flag. A new analysis sets it to true for every category, and a click toggles it.

## Modelling approach

- **Values.** Data are Dafny values. Strings are `seq<char>`.
- **JavaScript objects.** A JavaScript object is a `JsObject`: the keys in insertion order plus a map. `Keys()` enumerates them in ECMAScript property order: array-index keys first, in ascending numeric order, then the other keys in insertion order.
- **Sorting.** `Array.prototype.sort` and `sort_by` are stable. Both are modelled as one stable insertion sort, `SortBy`, with a "may stay in front of" relation.
- **External pieces are parameters.** The tokenizer (kuromoji, vibrato) is a function parameter, and so is the Japanese collation `localeCompare(…, 'ja')`.
- **Loops are methods.** Every loop of the source is a method with its own loop, proved equal to a specification function. The properties are proved about those functions.
- **Rust `HashMap` iteration.** Its order is unspecified, so it is an arbitrary choice (`:|`) in the loops that walk it.
- **UI state.** The React state of `App` and `LeftPane` is a class, and the handlers are methods that modify it.

Where the documented design and the code differ, the model follows the code:

- The Tauri command has no significance filter: every counted reading is shown.
- The Tauri command files a reading under the category of whichever variant sorts first among equal counts.

## Model

| member | source | states |
|---|---|---|
| Strings.Split | src/worker.js:58 | `text.split('\n')` yields at least one line |
| Strings.SplitPartsFree | src/worker.js:58 | no line returned by the split contains a line break |
| Strings.JoinSplit | src/worker.js:58 | gluing the lines back with line breaks gives the text back |
| Strings.SplitJoin | src/worker.js:58 | splitting a glued list of break-free lines gives the lines back |
| Strings.ContainsIffOccurs | src/App.jsx:59 | `includes(keyword)` holds exactly when the keyword occurs at some offset of the sentence |
| Strings.LexLeTotal | src-tauri/src/main.rs:149 | Rust's string order relates any two readings |
| Strings.LexLeAntisymmetric | src-tauri/src/main.rs:149 | two readings ordered both ways are equal |
| Strings.LexLeTransitive | src-tauri/src/main.rs:149 | Rust's string order is transitive |
| Strings.ByteOffset | src-tauri/src/main.rs:75 | a character offset maps to a byte offset between it and four times it |
| Sequences.SortBy | src/worker.js:113 | a sort returns a permutation of its input |
| Sequences.SortBySorted | src/worker.js:131 | under a comparator relating every pair, the sorted list has each neighbour pair in order |
| Sequences.SortByStable | src/worker.js:113 | elements the comparator ties keep their relative order (stable sort) |
| Sequences.Filter | src/components/LeftPane.jsx:52 | `filter` keeps only elements that pass, never more than it was given |
| Sequences.FilterIn | src/components/LeftPane.jsx:52 | an element survives the filter exactly when it is in the list and passes the test |
| JsObjects.PropertyOrder | src/worker.js:108 | `Object.entries` enumerates exactly the inserted keys, each as often as inserted |
| JsObjects.PropertyOrderShape | src/worker.js:108 | array-index keys come first in ascending numeric order; the rest follow in insertion order |
| JsObjects.PropertyOrderNoIndices | src/worker.js:130 | an object without array-index keys enumerates in insertion order |
| JsObjects.JsObject.KeysFacts | src/components/LeftPane.jsx:23 | `Object.keys` lists each own key exactly once, and nothing else |
| JsObjects.JsObject.Put | src/worker.js:92-93 | assigning a key sets its value; a new key goes last in insertion order, an existing one keeps its place |
| JsObjects.JsObject.PutTwice | src/App.jsx:54 | a second assignment to the same key overrides the first |
| JsObjects.JsObject.Delete | src/App.jsx:65 | `delete` removes the key and its value, keeps the object well formed, and leaves the other keys in their insertion order |
| JsObjects.Empty | src/worker.js:82 | `{}` has no keys |
| Segmentation.NextTerminator | src/worker.js:53 | the next match of the terminator pattern at or after an offset is a terminator, or the text ends there |
| Segmentation.NextTerminatorFirst | src/worker.js:68 | no character before that match is a terminator |
| Segmentation.PiecesFromConcat | src/worker.js:68-80 | the pieces cut after each terminator, concatenated, give back the text from the start offset |
| Segmentation.PieceAtCut | src/worker.js:68-80 | every piece is non-empty and lies inside the text; only its last character can be a terminator; every piece but the last ends with one |
| Segmentation.PiecesTile | src/worker.js:68-80 | the pieces tile the whole text, and there are none exactly when the text is empty |
| Segmentation.NewlinesBeforeCount | src-tauri/src/main.rs:77 | the start line is one plus the number of line breaks before the start offset |
| Segmentation.KeptPiecesIff | src/worker.js:70 | a piece becomes a sentence exactly when it is not blank after trimming |
| Segmentation.KeptPiecesAfter | src/worker.js:68-80 | sentences taken from an offset onwards start at or after it |
| Segmentation.KeptPiecesOrdered | src-tauri/src/main.rs:74-90 | the sentences are in text order and do not overlap |
| Segmentation.SentencesOfAt | src/worker.js:71 | sentence i holds the text of the i-th kept piece and the line number of its start |
| Segmentation.SentencesFromPieces | src/worker.js:68-80 | the sentence loop from an offset yields the kept pieces from there, in order |
| Segmentation.DocumentSentencesPieces | src/worker.js:68-80 | the sentences of a document are its non-blank pieces, in order, with their start lines |
| Segmentation.SentencesFromCut | src/worker.js:69-73 | a terminator match contributes the piece up to and including it, then the scan goes on after it |
| Segmentation.SentencesFromEnd | src/worker.js:75-80 | with no terminator left, the rest of the text is the last piece, kept only when non-blank |
| Worker.DisplayCategory | src/worker.js:18-26 | a proper noun is 人名 when its second detail is 人名 and 固有名詞 otherwise; every other token keeps its part of speech |
| Worker.LineEnds | src/worker.js:58-61 | the table has one end per line |
| Worker.BuildLineTable | src/worker.js:57-61 | the `forEach` loop builds exactly the table of line ends |
| Worker.FindLine | src/worker.js:64 | the line found is at most the number of lines |
| Worker.FindLineFirst | src/worker.js:64 | `find` returns the first line whose end is at or after the offset; when there is none, every end is before it |
| Worker.LineEndsAtFirstNewline | src/worker.js:58-60 | with the table started at -1, the first line ends at the offset of the first line break (at the text's length when there is none), and the rest of the table is that of the text after the break |
| Worker.FindLineCountsNewlines | src/worker.js:63-66 | for an offset inside the table's span, the line found is one plus the line breaks before the offset |
| Worker.LineNumberCountsNewlines | src/worker.js:63-66 | `getLineNumber(p)` for an offset inside the text is one plus the number of line breaks before p |
| Worker.LineOf | src/worker.js:71 | the line number given to a sentence is one plus the line breaks before its start |
| Worker.EmittedSentence | src/worker.js:69-72 | a sentence pushed with `getLineNumber(lastIndex)` is exactly the sentence its piece stands for |
| Worker.SegmentStep | src/worker.js:68-74 | one match of the loop keeps "sentences so far, then those of the rest, are the document's sentences" |
| Worker.SegmentEnd | src/worker.js:75-80 | the trailing fragment completes the document's sentences |
| Worker.EmitMatch | src/worker.js:69-73 | the loop body for one match keeps the segmentation invariant |
| Worker.EmitTail | src/worker.js:75-80 | the trailing fragment step yields all the document's sentences |
| Worker.Segment | src/worker.js:52-80 | the sentence loop returns the document's non-blank pieces in order, each with the line of its start |
| WorkerAggregate.AddIndex | src/worker.js:101 | `Set.add` gives a set holding the old members and the new index, without duplicates |
| WorkerAggregate.Aggregate | src/worker.js:82-103 | the nested loops build the reading table of every token of every sentence, in order |
| WorkerAggregate.CountSentence | src/worker.js:84-102 | counting one sentence's tokens extends the table by that sentence's occurrences |
| WorkerAggregate.CountInto | src/worker.js:86-102 | one token updates the table as the inner loop body does |
| WorkerAggregate.TableStep | src/worker.js:86-102 | counting one more token gives the table of the occurrences so far plus that one |
| WorkerAggregate.FormTallyZero | src/worker.js:95-99 | a form counted zero times occurs in no kept token of the reading |
| WorkerAggregate.FirstIndex | src/worker.js:95-96 | the variant record is created by the first kept token of that reading and form |
| WorkerAggregate.GroupUntouched | src/worker.js:92-93 | a reading no kept token has keeps the empty initial group |
| WorkerAggregate.TableGroup | src/worker.js:92-94 | a reading is in the table exactly when some kept token has it, and its entry is that reading's group |
| WorkerAggregate.GroupTotal | src/worker.js:100 | a reading's `totalCount` is the number of kept tokens with that reading |
| WorkerAggregate.GroupVariant | src/worker.js:95-99 | a form is a variant exactly when some kept token of the reading has it; its count is their number; its category and basic form come from the first such token |
| WorkerAggregate.GroupIndices | src/worker.js:101 | an index is in a reading's sentence set exactly when a kept token of that reading lies in that sentence |
| WorkerAggregate.GroupIndicesIncreasing | src/worker.js:101 | occurrences arrive in sentence order, so the set's insertion order is ascending |
| WorkerAggregate.CountTokenValid | src/worker.js:92-101 | counting a token keeps a group consistent: the total is the sum of the variant counts, every count is positive, the sentence set has no duplicates and is no larger than the total |
| WorkerAggregate.GroupAlwaysValid | src/worker.js:82-103 | every group in the table is consistent in that sense |
| WorkerAggregate.SignificantIff | src/worker.js:109 | the skip test drops exactly the groups counted fewer than two times |
| WorkerAggregate.TableIgnoresDropped | src/worker.js:87-89 | tokens without a reading and particles, auxiliaries, conjunctions and adnominals leave the table unchanged |
| WorkerAggregate.OccurrencesOrdered | src/worker.js:83-86 | occurrences come in sentence order and cite only sentences already visited |
| WorkerAggregate.TableAlwaysValid | src/worker.js:82-103 | the table is well formed, and every reading in it has a consistent, non-empty group |
| WorkerAggregate.OccurrenceSource | src/worker.js:83-86 | every occurrence is a token of the sentence it cites |
| WorkerAggregate.OccurrenceOf | src/worker.js:83-86 | every token of every sentence is an occurrence |
| WorkerAggregate.TableIndices | src/worker.js:101 | a reading's sentence list holds the sentences where it occurs, and no others |
| WorkerAggregate.TableIndicesIncreasing | src/worker.js:101 | the sentence list of every reading in the table is strictly ascending |
| WorkerAggregate.OccurrencesInOrder | src/worker.js:83 | the occurrences of a document are in sentence order |
| WorkerAggregate.MentionsSentence | src/worker.js:84-101 | a reading occurs in sentence x exactly when x is a sentence whose tokens include a kept token of that reading |
| WorkerAggregate.SentenceListIncreasing | src/worker.js:126 | `Array.from(sentenceIndices)` is strictly ascending |
| WorkerAggregate.SentenceListMembers | src/worker.js:126 | the sentence list lists exactly the sentences holding a kept token of the reading |
| WorkerAggregate.MentionsIff | src/worker.js:84-101 | the occurrences of a document mention a reading in sentence x exactly when that sentence holds a kept token of it |
| WorkerOutput.RankedOf | src/worker.js:111-112 | `{ word, ...data }` gives one record per variant key with that key's count, category and basic form |
| WorkerOutput.SortedEntry | src/worker.js:111-113 | each sorted variant is one of the group's variant entries |
| WorkerOutput.NonEmptyVariants | src/worker.js:115 | a counted group has a variant, so `sortedVariants[0]` exists |
| WorkerOutput.VariantsRanked | src/worker.js:113 | the reported variants' counts are non-increasing |
| WorkerOutput.NonIncreasing | src/worker.js:113 | a list sorted by the descending comparator has non-increasing counts across every pair |
| WorkerOutput.VariantsArePermutation | src/worker.js:111-124 | the reported variants are exactly the group's forms, each once, with its count |
| WorkerOutput.VariantsStable | src/worker.js:113 | variants with equal counts keep their insertion order |
| WorkerOutput.TotalIsSum | src/worker.js:123 | a word group's total is the sum of its variants' counts |
| WorkerOutput.SumCountsPermutation | src/worker.js:123 | summing counts does not depend on the order of the variants |
| WorkerOutput.PrimaryIsTop | src/worker.js:115-122 | the primary word is the first variant, the group's category is its category, and no form has a higher count |
| WorkerOutput.TopCount | src/worker.js:115 | in a list ranked by count, no form outnumbers the first |
| WorkerOutput.BucketIff | src/worker.js:116-120 | a word group lands in category `pos` exactly when its reading is reported and its top variant has category `pos` |
| WorkerOutput.BucketSnoc | src/worker.js:118-120 | visiting one more reading appends its group to its category only |
| WorkerOutput.GroupedSkip | src/worker.js:109 | a skipped reading changes no category |
| WorkerOutput.GroupedPush | src/worker.js:118-125 | pushing a reported group keeps every category equal to its bucket of the readings visited |
| WorkerOutput.MapStep | src/worker.js:126 | the sentence map gains the reading's sentence list exactly when it is reported |
| WorkerOutput.EmitReading | src/worker.js:108-127 | one visit keeps both invariants |
| WorkerOutput.Emit | src/worker.js:105-127 | `groupedByPos` holds, per category, the groups of the reported readings in enumeration order; `sentenceMap` holds exactly the reported readings' sentence lists |
| WorkerOutput.CategoryOrderFacts | src/worker.js:130 | the sorted key list names each category once, and only categories |
| WorkerOutput.OrderCategory | src/worker.js:131-132 | copying one category sorts its groups by reading |
| WorkerOutput.Order | src/worker.js:129-133 | the final object has the categories in sorted order, each with its groups sorted by reading |
| WorkerProcess.CategoriesSorted | src/worker.js:130 | under a total collation the categories come in collation order |
| WorkerProcess.ReportedFromStages | src/worker.js:105-133 | the output and ordering stages together give what the worker reports |
| WorkerProcess.Process | src/worker.js:52-133 | `PROCESS` returns the document's sentences, and groups and a sentence map that are the reported view of the reading table of those sentences |
| WorkerProcess.BucketInReadingOrder | src/worker.js:131 | each reported category is a permutation of its bucket, in collation order of the readings |
| WorkerProcess.SortedByReading | src/worker.js:131 | sorting by `localeCompare` of the readings leaves neighbours in collation order |
| TauriTally.Field | src-tauri/src/main.rs:102-103 | `details.get(i)` falls back to the default past the last field |
| TauriTally.DisplayCategory | src-tauri/src/main.rs:44-60 | the category is 人名, 固有名詞 or the major part of speech |
| TauriTally.DisplayCategoryAgrees | src-tauri/src/main.rs:44-60 | on a feature string built from the same fields, the Rust rule gives the worker's category |
| TauriTally.DisplayCategoryShort | src-tauri/src/main.rs:48-55 | a proper noun without a third field is 固有名詞; an empty feature gives the empty category |
| TauriTally.ShortFeatureSkipped | src-tauri/src/main.rs:102-106 | a feature with fewer than eight fields has no reading and is skipped |
| TauriTally.Tally | src-tauri/src/main.rs:96-120 | the loop builds exactly the tally of the token stream |
| TauriTally.FormCountZero | src-tauri/src/main.rs:116-118 | a form counted zero times occurs in no counted token of the reading |
| TauriTally.FirstOf | src-tauri/src/main.rs:116 | the variant's feature string is that of the first counted token of that reading and form |
| TauriTally.TallyHas | src-tauri/src/main.rs:115 | a reading is tallied exactly when some counted token has it |
| TauriTally.TallyVariant | src-tauri/src/main.rs:116-118 | a form is a variant exactly when a counted token of the reading has it; its count is their number; its feature is the first one's |
| TauriTally.TallyIndices | src-tauri/src/main.rs:110-119 | a reading's index set holds the sentence index of each of its counted tokens, and nothing else |
| TauriTally.TallyValid | src-tauri/src/main.rs:96-120 | every tallied group has a variant, every count is positive, and every index names a sentence or is the fallback 0 |
| TauriTally.FormSumIsCount | src-tauri/src/main.rs:129 | the sum of a reading's variant counts is the number of its counted tokens |
| TauriSegment.SplitStepSentences | src-tauri/src/main.rs:74-82 | one match of the loop keeps "sentences so far, then those of the rest, are the document's sentences" |
| TauriSegment.PushedSentence | src-tauri/src/main.rs:76-78 | the pushed sentence, with `start_line`, is exactly the one its piece stands for |
| TauriSegment.EndsFromCut | src-tauri/src/main.rs:79 | a match records the end of its piece exactly when that piece is not blank |
| TauriSegment.SplitStepEnds | src-tauri/src/main.rs:79-81 | one match of the loop keeps the recorded ends in step with the sentences |
| TauriSegment.SplitEnd | src-tauri/src/main.rs:83-90 | the trailing fragment completes both the sentences and their ends |
| TauriSegment.SplitAtMatch | src-tauri/src/main.rs:75-81 | the loop body for one match keeps the segmentation invariant |
| TauriSegment.SplitTail | src-tauri/src/main.rs:83-90 | the trailing fragment step yields all sentences and all ends |
| TauriSegment.SplitSentences | src-tauri/src/main.rs:67-90 | the regex loop yields the same sentences as the worker, but with Rust's trim, and one end per sentence |
| TauriSegment.Position | src-tauri/src/main.rs:111 | `position` finds the first end beyond the token's start, or reports none when every end is at or before it |
| TauriSegment.SentenceIndex | src-tauri/src/main.rs:111 | the index falls back to 0, and is a sentence whenever there is one |
| TauriSegment.PieceEnds | src-tauri/src/main.rs:88 | one end per piece, each that piece's end offset |
| TauriSegment.CharEndsArePieceEnds | src-tauri/src/main.rs:79 | in characters, the recorded ends are the end offsets of the kept sentences |
| TauriSegment.CharEndsLocate | src-tauri/src/main.rs:110-111 | with character ends, a token starting inside sentence i is given index i |
| TauriSegment.AsciiEndsAgree | src-tauri/src/main.rs:79 | for ASCII text, byte ends and character ends coincide |
| TauriSegment.ByteEndsMisplace | src-tauri/src/main.rs:79 | with byte ends as written, the token い of "あ。い。" is filed under sentence 0 instead of 1 |
| TauriOutput.ListVariants | src-tauri/src/main.rs:126 | collecting the variant map lists each form once, with its count and feature string |
| TauriOutput.SortedEnumerates | src-tauri/src/main.rs:127 | sorting keeps the list an enumeration of the map |
| TauriOutput.SortedByCount | src-tauri/src/main.rs:127 | after `sort_by(b.1.cmp(&a.1))` the counts are non-increasing |
| TauriOutput.ToVariants | src-tauri/src/main.rs:136 | each variant keeps its form and count and drops the feature |
| TauriOutput.ListedTotalVariants | src-tauri/src/main.rs:129 | the total over the variants equals the sum over the listed entries |
| TauriOutput.RenderGroup | src-tauri/src/main.rs:126-137 | the word group has the reading and every form once, with its count; counts are non-increasing; the primary word is first; the category comes from its feature; the total is the sum |
| TauriOutput.RendersFrom | src-tauri/src/main.rs:129-137 | a sorted enumeration gives a rendering of the group |
| TauriOutput.RenderedTotal | src-tauri/src/main.rs:129 | a rendered total is the number of counted tokens of the reading |
| TauriOutput.PrimaryIsMostFrequent | src-tauri/src/main.rs:134 | no form of the reading outnumbers the primary word |
| TauriOutput.CollectAscending | src-tauri/src/main.rs:140 | collecting the `BTreeSet` gives its members in ascending order |
| TauriOutput.PushRenders | src-tauri/src/main.rs:139 | pushing a rendered group keeps every filed group a rendering of its reading |
| TauriOutput.PushOnce | src-tauri/src/main.rs:139 | pushing a new reading keeps each reading filed at most once |
| TauriOutput.PushExactly | src-tauri/src/main.rs:139 | the filed readings are exactly those visited |
| TauriOutput.PushIndices | src-tauri/src/main.rs:140 | the sentence map gains the visited reading's ascending index list |
| TauriOutput.FileStep | src-tauri/src/main.rs:125-140 | one reading's visit keeps the conversion invariant |
| TauriOutput.Convert | src-tauri/src/main.rs:123-141 | every tallied reading is rendered and filed exactly once under its category, with its ascending sentence indices in the map |
| TauriOutput.ListKeys | src-tauri/src/main.rs:145 | the key list names exactly the categories |
| TauriOutput.SortCategories | src-tauri/src/main.rs:144-152 | the same categories come back, each sorted by reading |
| TauriOutput.SortKeepsGroups | src-tauri/src/main.rs:149 | sorting a category permutes its groups and its readings |
| TauriOutput.SortKeepsFiled | src-tauri/src/main.rs:143-152 | after the sort, every category still files each reading once, rendered, and is sorted by reading |
| TauriOutput.SortedReadings | src-tauri/src/main.rs:149 | sorting groups by reading permutes their readings |
| TauriOutput.ReadingsSorted | src-tauri/src/main.rs:149 | sorting by reading leaves neighbours in Rust's string order |
| TauriOutput.AnalyzeText | src-tauri/src/main.rs:63-159 | `analyze_text` returns the document's sentences, and groups and a sentence map that render, file and index every reading of the tally |
| TauriOutput.CategoryStrictlyOrdered | src-tauri/src/main.rs:149 | within a category the readings are strictly ascending |
| TauriOutput.EveryCountedReadingShown | src-tauri/src/main.rs:96-141 | every reading of a counted token is shown with its token count, and its sentence list is ascending and names exactly the sentences its tokens are assigned to |
| TauriOutput.ShownReadingCounted | src-tauri/src/main.rs:115-137 | every shown group's reading is counted, and each variant's count is the number of its tokens, and positive |
| Concordance.Candidates | src/App.jsx:55 | `sentenceMap[group.reading] \|\| []` |
| Concordance.Picks | src/App.jsx:56-63 | the scan only takes indices of existing sentences |
| Concordance.PicksFacts | src/App.jsx:56-63 | a variant takes a candidate exactly when it is unused, names a sentence and that sentence contains the keyword; it takes each once, in candidate order |
| Concordance.At | src/App.jsx:58-60 | the pushed sentences are those at the picked indices, in order |
| Concordance.FirstMatch | src/App.jsx:52-59 | reference definition: the first variant, in ranking order, whose word the sentence contains |
| Concordance.RunAssigns | src/App.jsx:52-67 | variant j takes exactly the candidates whose first matching variant is j; the used set is exactly the candidates some variant matches |
| Concordance.VisitObject | src/App.jsx:54-66 | one variant adds its key exactly when it took a sentence, and leaves the other keys alone |
| Concordance.VisitShape | src/App.jsx:52-67 | one more variant keeps the object's keys and entries in step with what each variant took |
| Concordance.RunObject | src/App.jsx:50-67 | for variants with distinct words, the result's keys are the words that took a sentence, and each holds its sentences in candidate order |
| Concordance.SentencesByVariant | src/App.jsx:50-67 | the two nested loops and the `delete` build exactly the object of the specification fold |
| Concordance.CollectFor | src/App.jsx:53-66 | one turn of the outer loop does one visit of the fold |
| Concordance.ScanOne | src/App.jsx:57-62 | one turn of the inner loop extends the picks, the used set and the pushed sentences consistently |
| Concordance.AppState.constructor | src/App.jsx:10-13 | no group is selected, there are no sentences, the sentence map is `{}` and there is no concordance |
| Concordance.AppState.HandleGroupSelect | src/App.jsx:48-69 | selecting a group stores it and the concordance of that group, and changes nothing else |
| LeftPane.IndexIn | src/components/LeftPane.jsx:40-41 | `indexOf` returns the first position of the category, and -1 exactly when it is not listed |
| LeftPane.PosOrderDistinct | src/components/LeftPane.jsx:3-14 | `POS_ORDER` lists each category once |
| LeftPane.PosCompareAgrees | src/components/LeftPane.jsx:39-45 | when one of the two categories is listed, the comparator's sign agrees with the rank order and is zero only for equal categories |
| LeftPane.PosCompareUnlisted | src/components/LeftPane.jsx:42-43 | for two unlisted categories the comparator answers 1 both ways |
| LeftPane.CategoryOrderRanks | src/components/LeftPane.jsx:38-45 | listed categories come in `POS_ORDER` order, and every unlisted one comes after all listed ones |
| LeftPane.SortedAndFiltered | src/components/LeftPane.jsx:35-73 | null stays null; otherwise the view has the categories in display order that have a shown group, each with its shown groups sorted by the chosen order |
| LeftPane.BuildView | src/components/LeftPane.jsx:47-71 | the loop keeps the categories with shown groups, in order, each with its sorted shown groups |
| LeftPane.ViewCategory | src/components/LeftPane.jsx:49-70 | one turn of the loop adds the category exactly when its shown list is non-empty |
| LeftPane.KeysInOrder | src/components/LeftPane.jsx:38 | the sorted keys name each category once, and only categories |
| LeftPane.ViewHasCategory | src/components/LeftPane.jsx:54 | a category is in the view exactly when it has a shown group |
| LeftPane.ShownGroups | src/components/LeftPane.jsx:50-52 | a group is shown exactly when "show all" is on or it has more than one variant |
| LeftPane.SortedGroups | src/components/LeftPane.jsx:57-69 | a category's list is a permutation of its shown groups, with descending counts, ascending counts or readings in collation order |
| LeftPane.Spread | src/components/LeftPane.jsx:32 | `{ ...prev }` has the same entries as `prev` |
| LeftPane.ToggledFacts | src/components/LeftPane.jsx:31-33 | toggling flips the category's flag, treats a missing flag as false, and keeps every other flag |
| LeftPane.ToggleTwice | src/components/LeftPane.jsx:31-33 | toggling twice restores the flags; a category without a flag ends up collapsed |
| LeftPane.InitialExpansion | src/components/LeftPane.jsx:23-26 | the `reduce` gives a flag for exactly the given keys, all true, in key order when the keys are distinct |
| LeftPane.PaneState.constructor | src/components/LeftPane.jsx:17-19 | no category expanded, "show all" off, reading order |
| LeftPane.PaneState.OnGroupedTokens | src/components/LeftPane.jsx:21-29 | new groups expand exactly their categories; null changes nothing |
| LeftPane.PaneState.TogglePosExpansion | src/components/LeftPane.jsx:31-33 | the flags become the toggled flags, and nothing else changes |

## Left out

- **Input and messaging.** The worker's file reading (`text/plain`, `.docx` via mammoth) is out of scope, as are its error messages and `postMessage`.
  - The Tauri runtime, the tokenizer mutex and `serde` field naming are out of scope too.
  - The text reaches the model as a string.
  - The token stream is a parameter, because tokenizing calls into kuromoji and vibrato.
- **Tokenizer initialization.** `initializeTokenizer`, the "not initialized" error, `handleFileChange` and the application status are out of scope. They are I/O and UI plumbing around the core.
- **Japanese collation.** `localeCompare(…, 'ja')` is an abstract relation parameter. The Unicode collation tables are not modelled.
  - Sortedness is claimed only when that relation is total.
- **Rendering.** React rendering, highlighting and the components other than `LeftPane` are out of scope. So is the sort-order `<select>` handler.
- **Prototype keys.** Prototype-inherited keys of JavaScript objects are not modelled. A reading or category named `constructor` or `__proto__` would behave differently in the source.
- **Memory model.** Updates in place, aliasing between `groupedByPos` and the output, and the copy `[...filtered]` are modelled on values. Sorting is a stable insertion sort on sequences.
- **UTF-16.** JavaScript strings are UTF-16. The model's characters are scalar values, so offsets differ only for text outside the Basic Multilingual Plane.
- **Rust variant ties.** The order of Rust variants with equal counts, and so the primary word and category of a reading whose top count is shared, depends on `HashMap` iteration. The model leaves it unspecified and proves only what holds for every order.
- **Sorted keys in Rust.** The category key list sorted at `src-tauri/src/main.rs:146` only fixes the order of insertion into another `HashMap`. The result is therefore a map without order.
- LeftPane.SortedAndFiltered: sorts the categories by rank, with every unlisted category tied after the listed ones. The source comparator is inconsistent for two unlisted categories: it answers 1 both ways (`LeftPane.PosCompareUnlisted`). Their relative order in the source depends on the engine's sort, and the model keeps their enumeration order.
- **Sort order values.** `LeftPane.SortOrder` has the three named values. Any other string behaves as `JPN_ORDER` in the source.
- LeftPane.SortedAndFiltered: requires a well-formed object, which is the representation invariant every object in the model keeps.
- Concordance.RunObject: assumes the variants' words are distinct. Every group the Tauri command produces satisfies this, being built from a map.
- Concordance.PicksFacts: states the candidate order as a subsequence. This fixes the picks uniquely only for a strictly ascending candidate list, which is what the sentence map holds.

## Findings

| source | as written | input that shows it | evidently intended | confidence | as-written member | corrected member |
|---|---|---|---|---|---|---|
| src-tauri/src/main.rs:79 | the sentence ends are recorded as `mat.end()`, a byte offset, but compared with `range_char().start`, a character offset (the trailing sentence at line 88 uses a character count) | "あ。い。": the first end is byte 6, so the token い at character 2 is filed under sentence 0 | record character offsets, so that a token falls in the sentence that contains it | not executed | TauriSegment.ByteEndsMisplace | TauriSegment.CharEndsLocate |
