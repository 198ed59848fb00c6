/**
 * What the worker reports (src/worker.js): the readings worth showing, each as a word group
 * whose variants are ranked by count, bucketed by the category of the top variant; the
 * categories and the groups inside each are put in Japanese collation order.
 *
 * `collate(a, b)` stands for `a.localeCompare(b, 'ja') <= 0`.
 */
module WorkerOutput {
  import opened Sequences
  import opened JsObjects
  import opened Worker
  import opened WorkerAggregate

  /** `{ word, ...data }`: a variant with its surface form. */
  datatype Ranked = Ranked(word: string, count: nat, pos: string, basicForm: string)

  /** `{ word, count }`, as a word group lists its variants. */
  datatype VariantCount = VariantCount(word: string, count: nat)

  datatype WordGroup = WordGroup(reading: string, primaryWord: string, totalCount: nat, variants: seq<VariantCount>)

  /** `Object.entries(variants).map(([word, data]) => ({ word, ...data }))`, for the keys `keys`. */
  function RankedOf(keys: seq<string>, m: map<string, VariantEntry>): (rs: seq<Ranked>)
    requires forall k :: k in keys ==> k in m
    ensures |rs| == |keys|
    ensures forall i :: 0 <= i < |keys| ==> rs[i] == Ranked(keys[i], m[keys[i]].count, m[keys[i]].pos, m[keys[i]].basicForm)
  {
    seq(|keys|, i requires 0 <= i < |keys| => Ranked(keys[i], m[keys[i]].count, m[keys[i]].pos, m[keys[i]].basicForm))
  }

  /** The comparator `(a, b) => b.count - a.count` is not positive: `a` may stay in front of `b`. */
  predicate ByCountDesc(a: Ranked, b: Ranked) {
    b.count - a.count <= 0
  }

  /** The variants of a group in `Object.entries` order. */
  function Listed(g: ReadingGroup): seq<Ranked>
    requires g.variants.Valid()
  {
    g.variants.KeysFacts();
    RankedOf(g.variants.Keys(), g.variants.entries)
  }

  /** `sortedVariants` of a group. */
  function SortedVariants(g: ReadingGroup): seq<Ranked>
    requires g.variants.Valid()
  {
    SortBy(Listed(g), ByCountDesc)
  }

  /** Every ranked variant is the entry of its surface form. */
  lemma SortedEntry(g: ReadingGroup, i: nat)
    requires g.variants.Valid() && i < |SortedVariants(g)|
    ensures var r := SortedVariants(g)[i];
      var m := g.variants.entries;
      r.word in m && r == Ranked(r.word, m[r.word].count, m[r.word].pos, m[r.word].basicForm)
  {
    g.variants.KeysFacts();
    var listed := Listed(g);
    assert SortedVariants(g)[i] in multiset(listed);
  }

  function RankedWord(r: Ranked): string {
    r.word
  }

  function RankedCount(r: Ranked): nat {
    r.count
  }

  function ToVariantCount(r: Ranked): VariantCount {
    VariantCount(r.word, r.count)
  }

  function VariantWord(v: VariantCount): string {
    v.word
  }

  function VariantCountOf(v: VariantCount): nat {
    v.count
  }

  /** The variants with count `c`. */
  function WithCount(c: nat): Ranked -> bool {
    (r: Ranked) => r.count == c
  }

  /** A group of a valid table has at least one variant. */
  lemma NonEmptyVariants(g: ReadingGroup)
    requires GroupValid(g) && g.totalCount >= 1
    ensures |SortedVariants(g)| >= 1
  {
    g.variants.KeysFacts();
    var ranked := Listed(g);
    assert |SortedVariants(g)| == |ranked| by {
      assert |multiset(SortedVariants(g))| == |multiset(ranked)|;
    }
  }

  /** The category a shown group is bucketed under: the one of its top variant. */
  function Category(g: ReadingGroup): string
    requires GroupValid(g) && g.totalCount >= 1
  {
    NonEmptyVariants(g);
    SortedVariants(g)[0].pos
  }

  /** The word group pushed for reading `r` (lines 115-125). */
  function MakeGroup(r: string, g: ReadingGroup): WordGroup
    requires GroupValid(g) && g.totalCount >= 1
  {
    NonEmptyVariants(g);
    var sorted := SortedVariants(g);
    WordGroup(r, sorted[0].word, g.totalCount, MapSeq(sorted, ToVariantCount))
  }

  /** Ranked by count: every variant's count is at least that of every variant after it. */
  lemma VariantsRanked(r: string, g: ReadingGroup)
    requires GroupValid(g) && g.totalCount >= 1
    ensures var vs := MakeGroup(r, g).variants;
      forall i, j :: 0 <= i < j < |vs| ==> vs[i].count >= vs[j].count
  {
    g.variants.KeysFacts();
    var sorted := SortedVariants(g);
    SortBySorted(Listed(g), ByCountDesc);
    NonIncreasing(sorted);
  }

  lemma NonIncreasing(s: seq<Ranked>)
    requires Sorted(s, ByCountDesc)
    ensures forall i, j :: 0 <= i < j < |s| ==> s[i].count >= s[j].count
  {
    forall i, j | 0 <= i < j < |s| ensures s[i].count >= s[j].count {
      NonIncreasingFrom(s, i, j);
    }
  }

  lemma {:induction false} NonIncreasingFrom(s: seq<Ranked>, i: nat, j: nat)
    requires Sorted(s, ByCountDesc) && i <= j < |s|
    ensures s[i].count >= s[j].count
    decreases j - i
  {
    if i < j {
      NonIncreasingFrom(s, i + 1, j);
      assert ByCountDesc(s[i], s[i + 1]);
    }
  }

  /**
   * The listed variants are the group's surface forms, each once, each with its count.
   */
  lemma VariantsArePermutation(r: string, g: ReadingGroup)
    requires GroupValid(g) && g.totalCount >= 1
    ensures var vs := MakeGroup(r, g).variants;
      && multiset(MapSeq(vs, VariantWord)) == multiset(g.variants.inserted)
      && forall i :: 0 <= i < |vs| ==> vs[i].word in g.variants.entries && vs[i].count == g.variants.entries[vs[i].word].count
  {
    g.variants.KeysFacts();
    var listed := Listed(g);
    var sorted := SortedVariants(g);
    var vs := MakeGroup(r, g).variants;
    assert MapSeq(vs, VariantWord) == MapSeq(sorted, RankedWord);
    MapSeqPermutation(sorted, listed, RankedWord);
    assert MapSeq(listed, RankedWord) == g.variants.Keys();
    forall i | 0 <= i < |vs| ensures vs[i].word in g.variants.entries && vs[i].count == g.variants.entries[vs[i].word].count {
      SortedEntry(g, i);
    }
  }

  /** Stable on ties: variants with equal counts stay in `Object.entries` order. */
  lemma VariantsStable(g: ReadingGroup, c: nat)
    requires g.variants.Valid()
    ensures Filter(SortedVariants(g), WithCount(c)) == Filter(Listed(g), WithCount(c))
  {
    g.variants.KeysFacts();
    var ranked := Listed(g);
    SortByStable(ranked, ByCountDesc, WithCount(c));
  }

  lemma {:induction false} SumOfVariantCounts(s: seq<Ranked>)
    ensures SumBy(MapSeq(s, ToVariantCount), VariantCountOf) == SumBy(s, RankedCount)
  {
    if s != [] {
      SumOfVariantCounts(s[1..]);
      assert MapSeq(s, ToVariantCount)[1..] == MapSeq(s[1..], ToVariantCount);
    }
  }

  lemma {:induction false} SumOfRanked(keys: seq<string>, m: map<string, VariantEntry>)
    requires forall k :: k in keys ==> k in m
    ensures SumBy(RankedOf(keys, m), RankedCount) == SumCounts(keys, m)
  {
    if keys != [] {
      SumOfRanked(keys[1..], m);
      assert RankedOf(keys, m)[1..] == RankedOf(keys[1..], m);
    }
  }

  /** `totalCount` is the sum of the listed variant counts. */
  lemma TotalIsSum(r: string, g: ReadingGroup)
    requires GroupValid(g) && g.totalCount >= 1
    ensures MakeGroup(r, g).totalCount == SumBy(MakeGroup(r, g).variants, VariantCountOf)
  {
    g.variants.KeysFacts();
    var keys := g.variants.Keys();
    var m := g.variants.entries;
    var ranked := RankedOf(keys, m);
    var sorted := SortedVariants(g);
    SumOfVariantCounts(sorted);
    SumByPermutation(sorted, ranked, RankedCount);
    SumOfRanked(keys, m);
    SumCountsPermutation(keys, g.variants.inserted, m);
  }

  /** The count of key `k` in `m`, 0 when absent. */
  function CountIn(m: map<string, VariantEntry>, k: string): nat {
    if k in m then m[k].count else 0
  }

  lemma {:induction false} SumCountsIsSumBy(keys: seq<string>, m: map<string, VariantEntry>, f: string -> nat)
    requires forall k :: f(k) == CountIn(m, k)
    ensures SumCounts(keys, m) == SumBy(keys, f)
  {
    if keys != [] {
      SumCountsIsSumBy(keys[1..], m, f);
    }
  }

  lemma SumCountsPermutation(a: seq<string>, b: seq<string>, m: map<string, VariantEntry>)
    requires multiset(a) == multiset(b)
    ensures SumCounts(a, m) == SumCounts(b, m)
  {
    var f := (k: string) => CountIn(m, k);
    SumCountsIsSumBy(a, m, f);
    SumCountsIsSumBy(b, m, f);
    SumByPermutation(a, b, f);
  }

  /** The primary word and the bucket come from the top variant, whose count no other variant exceeds. */
  lemma PrimaryIsTop(r: string, g: ReadingGroup)
    requires GroupValid(g) && g.totalCount >= 1
    ensures var wg := MakeGroup(r, g);
      && wg.reading == r
      && |wg.variants| >= 1
      && wg.primaryWord == wg.variants[0].word
      && wg.primaryWord in g.variants.entries
      && Category(g) == g.variants.entries[wg.primaryWord].pos
      && forall sf :: sf in g.variants.entries ==> g.variants.entries[sf].count <= wg.variants[0].count
  {
    var m := g.variants.entries;
    var vs := MakeGroup(r, g).variants;
    SortedEntry(g, 0);
    VariantsRanked(r, g);
    VariantsArePermutation(r, g);
    forall sf | sf in m ensures m[sf].count <= vs[0].count {
      TopCount(g, vs, sf);
    }
  }

  lemma TopCount(g: ReadingGroup, vs: seq<VariantCount>, sf: string)
    requires g.variants.Valid() && sf in g.variants.entries
    requires multiset(MapSeq(vs, VariantWord)) == multiset(g.variants.inserted)
    requires forall i :: 0 <= i < |vs| ==> vs[i].word in g.variants.entries && vs[i].count == g.variants.entries[vs[i].word].count
    requires forall i, j :: 0 <= i < j < |vs| ==> vs[i].count >= vs[j].count
    ensures |vs| >= 1 && g.variants.entries[sf].count <= vs[0].count
  {
    assert sf in multiset(g.variants.inserted);
    var words := MapSeq(vs, VariantWord);
    assert sf in multiset(words);
    var j :| 0 <= j < |words| && words[j] == sf;
    assert vs[j].word == sf;
  }

  // ---------------------------------------------------------------------------------------
  // Buckets

  /**
   * The groups bucketed under category `pos` after the readings `readings`: one per shown
   * reading whose top variant has that category, in the order of `readings`.
   */
  function Bucket(words: JsObject<ReadingGroup>, readings: seq<string>, pos: string): seq<WordGroup>
    requires TableValid(words)
  {
    if readings == [] then []
    else
      var r := readings[|readings| - 1];
      Bucket(words, readings[..|readings| - 1], pos)
      + if r in words.entries && Significant(words.entries[r]) && Category(words.entries[r]) == pos
        then [MakeGroup(r, words.entries[r])] else []
  }

  /**
   * A group is in the bucket of `pos` exactly when its reading is one of `readings`, the reading
   * is shown, its top variant's category is `pos`, and the group is the one built for it.
   */
  lemma {:induction false} BucketIff(words: JsObject<ReadingGroup>, readings: seq<string>, pos: string, wg: WordGroup)
    requires TableValid(words)
    ensures wg in Bucket(words, readings, pos) <==>
      && wg.reading in readings
      && wg.reading in words.entries
      && Significant(words.entries[wg.reading])
      && Category(words.entries[wg.reading]) == pos
      && wg == MakeGroup(wg.reading, words.entries[wg.reading])
  {
    if readings != [] {
      var prefix := readings[..|readings| - 1];
      BucketIff(words, prefix, pos, wg);
      assert readings == prefix + [readings[|readings| - 1]];
    }
  }

  lemma BucketSnoc(words: JsObject<ReadingGroup>, done: seq<string>, r: string, pos: string)
    requires TableValid(words)
    ensures Bucket(words, done + [r], pos) == Bucket(words, done, pos)
      + if r in words.entries && Significant(words.entries[r]) && Category(words.entries[r]) == pos
        then [MakeGroup(r, words.entries[r])] else []
  {
    var next := done + [r];
    assert next[..|next| - 1] == done;
  }

  /** The buckets built after the readings `done`. */
  ghost predicate GroupedInv(words: JsObject<ReadingGroup>, done: seq<string>, grouped: JsObject<seq<WordGroup>>)
    requires TableValid(words)
  {
    && grouped.Valid()
    && (forall pos :: pos in grouped.entries <==> Bucket(words, done, pos) != [])
    && (forall pos :: pos in grouped.entries ==> grouped.entries[pos] == Bucket(words, done, pos))
  }

  /** The sentence lists recorded after the readings `done`. */
  ghost predicate MapInv(words: JsObject<ReadingGroup>, done: seq<string>, sentenceMap: JsObject<seq<nat>>)
  {
    && sentenceMap.Valid()
    && (forall r :: r in sentenceMap.entries <==> r in done && r in words.entries && Significant(words.entries[r]))
    && (forall r :: r in sentenceMap.entries ==> r in words.entries && sentenceMap.entries[r] == words.entries[r].sentenceIndices)
  }

  lemma GroupedSkip(words: JsObject<ReadingGroup>, done: seq<string>, r: string, grouped: JsObject<seq<WordGroup>>)
    requires TableValid(words) && r in words.entries && !Significant(words.entries[r])
    requires GroupedInv(words, done, grouped)
    ensures GroupedInv(words, done + [r], grouped)
  {
    forall pos {
      BucketSnoc(words, done, r, pos);
    }
  }

  lemma GroupedPush(words: JsObject<ReadingGroup>, done: seq<string>, r: string,
                    grouped: JsObject<seq<WordGroup>>, grouped': JsObject<seq<WordGroup>>)
    requires TableValid(words) && r in words.entries && Significant(words.entries[r])
    requires GroupedInv(words, done, grouped)
    requires var g := words.entries[r];
      var pos := Category(g);
      grouped' == grouped.Put(pos, (if pos in grouped.entries then grouped.entries[pos] else []) + [MakeGroup(r, g)])
    ensures GroupedInv(words, done + [r], grouped')
  {
    var g := words.entries[r];
    var pos := Category(g);
    forall p ensures p in grouped'.entries <==> Bucket(words, done + [r], p) != [] {
      BucketSnoc(words, done, r, p);
    }
    forall p | p in grouped'.entries ensures grouped'.entries[p] == Bucket(words, done + [r], p) {
      BucketSnoc(words, done, r, p);
      if p == pos && pos !in grouped.entries {
        assert Bucket(words, done, p) == [];
      }
    }
  }

  lemma MapStep(words: JsObject<ReadingGroup>, done: seq<string>, r: string,
                sentenceMap: JsObject<seq<nat>>, sentenceMap': JsObject<seq<nat>>)
    requires r in words.entries
    requires MapInv(words, done, sentenceMap)
    requires var g := words.entries[r];
      sentenceMap' == if Significant(g) then sentenceMap.Put(r, g.sentenceIndices) else sentenceMap
    ensures MapInv(words, done + [r], sentenceMap')
  {
  }

  /** The body of the `Object.entries(wordsByReading).forEach` for reading `r`. */
  method EmitReading(words: JsObject<ReadingGroup>, ghost done: seq<string>, r: string,
                     grouped: JsObject<seq<WordGroup>>, sentenceMap: JsObject<seq<nat>>)
    returns (grouped': JsObject<seq<WordGroup>>, sentenceMap': JsObject<seq<nat>>)
    requires TableValid(words) && r in words.entries
    requires GroupedInv(words, done, grouped) && MapInv(words, done, sentenceMap)
    ensures GroupedInv(words, done + [r], grouped') && MapInv(words, done + [r], sentenceMap')
  {
    var group := words.entries[r];
    grouped', sentenceMap' := grouped, sentenceMap;
    if Significant(group) {
      NonEmptyVariants(group);
      var sortedVariants := SortedVariants(group);
      var representative := sortedVariants[0];
      var pos := representative.pos;
      if pos !in grouped'.entries {
        grouped' := grouped'.Put(pos, []);
        grouped.PutTwice(pos, [], [] + [MakeGroup(r, group)]);
      }
      grouped' := grouped'.Put(pos, grouped'.entries[pos] + [WordGroup(r, representative.word, group.totalCount, MapSeq(sortedVariants, ToVariantCount))]);
      sentenceMap' := sentenceMap'.Put(r, group.sentenceIndices);
      GroupedPush(words, done, r, grouped, grouped');
    } else {
      GroupedSkip(words, done, r, grouped);
    }
    MapStep(words, done, r, sentenceMap, sentenceMap');
  }

  /** Lines 108-127: each shown reading's group is pushed onto the bucket of its category, and its sentences are recorded. */
  method Emit(words: JsObject<ReadingGroup>) returns (grouped: JsObject<seq<WordGroup>>, sentenceMap: JsObject<seq<nat>>)
    requires TableValid(words)
    ensures GroupedInv(words, words.Keys(), grouped)
    ensures MapInv(words, words.Keys(), sentenceMap)
  {
    var readings := words.Keys();
    words.KeysFacts();
    grouped := Empty();
    sentenceMap := Empty();
    ghost var done: seq<string> := [];
    var i := 0;
    while i < |readings|
      invariant i <= |readings| && done == readings[..i]
      invariant GroupedInv(words, done, grouped)
      invariant MapInv(words, done, sentenceMap)
    {
      grouped, sentenceMap := EmitReading(words, done, readings[i], grouped, sentenceMap);
      PrefixSnoc(readings, i);
      done := done + [readings[i]];
      i := i + 1;
    }
    PrefixAll(readings);
  }

  // ---------------------------------------------------------------------------------------
  // Collation order

  /** `(a, b) => a.reading.localeCompare(b.reading, 'ja')` is not positive. */
  function ByReading(collate: (string, string) -> bool): (WordGroup, WordGroup) -> bool {
    (a: WordGroup, b: WordGroup) => collate(a.reading, b.reading)
  }

  /** The categories in the order `Object.keys(groupedByPos).sort(...)` puts them. */
  function CategoryOrder(grouped: JsObject<seq<WordGroup>>, collate: (string, string) -> bool): seq<string> {
    SortBy(grouped.Keys(), collate)
  }

  /** The sorted categories are the bucket keys, each once. */
  lemma CategoryOrderFacts(grouped: JsObject<seq<WordGroup>>, collate: (string, string) -> bool)
    requires grouped.Valid()
    ensures NoDup(CategoryOrder(grouped, collate))
    ensures forall pos :: pos in CategoryOrder(grouped, collate) <==> pos in grouped.entries
  {
    var categories := CategoryOrder(grouped, collate);
    grouped.KeysFacts();
    PermutationNoDup(grouped.Keys(), categories);
    forall pos ensures pos in categories <==> pos in grouped.Keys() {
      assert pos in categories <==> pos in multiset(categories);
      assert pos in grouped.Keys() <==> pos in multiset(grouped.Keys());
    }
  }

  /** The result after copying the categories `done`. */
  ghost predicate OrderInv(grouped: JsObject<seq<WordGroup>>, collate: (string, string) -> bool, done: seq<string>, final: JsObject<seq<WordGroup>>) {
    && final.Valid()
    && final.inserted == done
    && (forall pos :: pos in final.entries <==> pos in done)
    && (forall pos :: pos in final.entries ==> pos in grouped.entries && final.entries[pos] == SortBy(grouped.entries[pos], ByReading(collate)))
  }

  /** `groupedByPos[pos].sort(...)` followed by `sortedFinalGroupedTokens[pos] = groupedByPos[pos]`. */
  method OrderCategory(grouped: JsObject<seq<WordGroup>>, collate: (string, string) -> bool, ghost done: seq<string>, pos: string,
                       final: JsObject<seq<WordGroup>>) returns (final': JsObject<seq<WordGroup>>)
    requires pos in grouped.entries && pos !in done
    requires OrderInv(grouped, collate, done, final)
    ensures OrderInv(grouped, collate, done + [pos], final')
  {
    var sorted := SortBy(grouped.entries[pos], ByReading(collate));
    final' := final.Put(pos, sorted);
  }

  /** Lines 129-133: sort each bucket by reading and copy the buckets over in category order. */
  method Order(grouped: JsObject<seq<WordGroup>>, collate: (string, string) -> bool) returns (final: JsObject<seq<WordGroup>>)
    requires grouped.Valid()
    ensures OrderInv(grouped, collate, CategoryOrder(grouped, collate), final)
  {
    var categories := SortBy(grouped.Keys(), collate);
    CategoryOrderFacts(grouped, collate);
    final := Empty();
    ghost var done: seq<string> := [];
    var i := 0;
    while i < |categories|
      invariant i <= |categories| && done == categories[..i]
      invariant OrderInv(grouped, collate, done, final)
    {
      final := OrderCategory(grouped, collate, done, categories[i], final);
      PrefixSnoc(categories, i);
      done := done + [categories[i]];
      i := i + 1;
    }
    PrefixAll(categories);
  }
}
