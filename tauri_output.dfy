/**
 * Steps 3 and 4 of the Tauri command `analyze_text` (src-tauri/src/main.rs) and the command as
 * a whole: every reading of `words_by_reading` becomes one `WordGroup` (there is no
 * significance filter), filed under the display category of its most frequent variant, and
 * each category's groups are sorted by reading in byte order.
 *
 * Hash-map iteration order is arbitrary: the model draws each next key with `:|`, so every
 * property below holds whatever order the map yields.
 */
module TauriOutput {
  import opened Strings
  import opened Sequences
  import opened Segmentation
  import opened TauriSegment
  import opened TauriTally

  /** The serialised `Variant`. */
  datatype Variant = Variant(word: string, count: nat)

  /** The serialised `WordGroup`. */
  datatype WordGroup = WordGroup(reading: string, primaryWord: string, totalCount: nat, variants: seq<Variant>)

  /** The serialised `AnalyzedData`. */
  datatype AnalyzedData = AnalyzedData(
    groupedTokens: map<string, seq<WordGroup>>,
    sentences: seq<Sentence>,
    sentenceMap: map<string, seq<nat>>)

  /** An element `(word, count, feature_str)` of `variants_vec`. */
  datatype Listed = Listed(word: string, count: nat, feature: string)

  /** The words of `listed`, in order. */
  function ListedWords(listed: seq<Listed>): seq<string> {
    MapSeq(listed, (l: Listed) => l.word)
  }

  /** `listed` enumerates the variant map: each word once, with its count and feature string. */
  ghost predicate Enumerates(vs: map<string, RustVariant>, listed: seq<Listed>) {
    && NoDup(ListedWords(listed))
    && (forall w :: w in vs <==> w in ListedWords(listed))
    && (forall l :: l in listed ==> l.word in vs && vs[l.word] == RustVariant(l.count, l.feature))
  }

  /** `variants_map.into_iter().map(…).collect()`: the entries in the map's (arbitrary) order. */
  method ListVariants(vs: map<string, RustVariant>) returns (listed: seq<Listed>)
    ensures Enumerates(vs, listed)
  {
    listed := [];
    var rest := vs.Keys;
    while rest != {}
      invariant rest <= vs.Keys
      invariant NoDup(ListedWords(listed))
      invariant forall w :: w in vs <==> w in ListedWords(listed) || w in rest
      invariant forall w :: w in rest ==> w !in ListedWords(listed)
      invariant forall l :: l in listed ==> l.word in vs && vs[l.word] == RustVariant(l.count, l.feature)
      decreases |rest|
    {
      var w :| w in rest;
      ListedSnoc(listed, Listed(w, vs[w].count, vs[w].feature));
      listed := listed + [Listed(w, vs[w].count, vs[w].feature)];
      rest := rest - {w};
    }
  }

  lemma ListedSnoc(listed: seq<Listed>, l: Listed)
    ensures ListedWords(listed + [l]) == ListedWords(listed) + [l.word]
  {
  }

  /** `|a, b| b.1.cmp(&a.1)`: larger counts first. */
  function ByCountDesc(): (Listed, Listed) -> bool {
    (a: Listed, b: Listed) => b.count <= a.count
  }

  /** `variants_vec.iter().map(|v| v.1).sum()`. */
  function ListedTotal(listed: seq<Listed>): nat {
    if listed == [] then 0 else listed[0].count + ListedTotal(listed[1..])
  }

  function ToVariants(listed: seq<Listed>): (vs: seq<Variant>)
    ensures |vs| == |listed| && forall i :: 0 <= i < |listed| ==> vs[i] == Variant(listed[i].word, listed[i].count)
  {
    seq(|listed|, i requires 0 <= i < |listed| => Variant(listed[i].word, listed[i].count))
  }

  /** The words of `vs`, in order. */
  function VariantWords(vs: seq<Variant>): seq<string> {
    MapSeq(vs, (v: Variant) => v.word)
  }

  function VariantTotal(vs: seq<Variant>): nat {
    if vs == [] then 0 else vs[0].count + VariantTotal(vs[1..])
  }

  /**
   * `wg` is the `WordGroup` the command builds for reading `r` with group `g`, filed under
   * `pos`: its variants are the group's, each once with its count, most frequent first; the
   * primary word is the first of them, the category that of its feature string, and the
   * total the sum of the counts.
   */
  ghost predicate Renders(r: string, g: RustGroup, pos: string, wg: WordGroup) {
    && wg.reading == r
    && wg.variants != []
    && NoDup(VariantWords(wg.variants))
    && (forall w :: w in g.variants <==> w in VariantWords(wg.variants))
    && (forall v :: v in wg.variants ==> v.word in g.variants && v.count == g.variants[v.word].count)
    && (forall i, j :: 0 <= i < j < |wg.variants| ==> wg.variants[j].count <= wg.variants[i].count)
    && wg.primaryWord == wg.variants[0].word
    && pos == DisplayCategory(g.variants[wg.primaryWord].feature)
    && wg.totalCount == VariantTotal(wg.variants)
  }

  lemma {:induction false} ListedTotalVariants(listed: seq<Listed>)
    ensures VariantTotal(ToVariants(listed)) == ListedTotal(listed)
  {
    if listed != [] {
      ListedTotalVariants(listed[1..]);
      assert ToVariants(listed)[1..] == ToVariants(listed[1..]);
    }
  }

  /** Sorting keeps the enumeration an enumeration. */
  lemma SortedEnumerates(vs: map<string, RustVariant>, listed: seq<Listed>, sorted: seq<Listed>)
    requires Enumerates(vs, listed) && sorted == SortBy(listed, ByCountDesc())
    ensures Enumerates(vs, sorted)
  {
    MapSeqPermutation(listed, sorted, (l: Listed) => l.word);
    assert MapSeq(listed, (l: Listed) => l.word) == ListedWords(listed);
    assert MapSeq(sorted, (l: Listed) => l.word) == ListedWords(sorted);
    PermutationNoDup(ListedWords(listed), ListedWords(sorted));
    forall w ensures w in vs <==> w in ListedWords(sorted) {
      assert w in ListedWords(listed) <==> w in multiset(ListedWords(listed));
    }
    forall l | l in sorted ensures l.word in vs && vs[l.word] == RustVariant(l.count, l.feature) {
      assert l in multiset(sorted);
    }
  }

  /** The sort puts larger counts first. */
  lemma SortedByCount(listed: seq<Listed>, sorted: seq<Listed>)
    requires sorted == SortBy(listed, ByCountDesc())
    ensures forall i, j :: 0 <= i < j < |sorted| ==> sorted[j].count <= sorted[i].count
  {
    var le := ByCountDesc();
    SortBySorted(listed, le);
    forall i, j | 0 <= i < j < |sorted| ensures sorted[j].count <= sorted[i].count {
      CountsChain(sorted, i, j);
    }
  }

  lemma {:induction false} CountsChain(s: seq<Listed>, i: nat, j: nat)
    requires i < j < |s|
    requires Sorted(s, ByCountDesc())
    ensures s[j].count <= s[i].count
    decreases j - i
  {
    if i + 1 < j {
      CountsChain(s, i + 1, j);
    }
    assert ByCountDesc()(s[i], s[i + 1]);
  }

  /** Lines 126-137: the `WordGroup` of one reading and the category it is filed under. */
  method RenderGroup(r: string, g: RustGroup) returns (pos: string, wg: WordGroup)
    requires g.variants != map[]
    ensures Renders(r, g, pos, wg)
  {
    var listed := ListVariants(g.variants);
    var variantsVec := SortBy(listed, ByCountDesc());
    SortedEnumerates(g.variants, listed, variantsVec);
    SortedByCount(listed, variantsVec);
    var w :| w in g.variants;
    assert w in ListedWords(variantsVec);
    var totalCount := ListedTotal(variantsVec);
    pos := DisplayCategory(variantsVec[0].feature);
    wg := WordGroup(r, variantsVec[0].word, totalCount, ToVariants(variantsVec));
    ListedTotalVariants(variantsVec);
    RendersFrom(r, g, pos, wg, variantsVec);
  }

  lemma RendersFrom(r: string, g: RustGroup, pos: string, wg: WordGroup, sorted: seq<Listed>)
    requires Enumerates(g.variants, sorted) && sorted != []
    requires forall i, j :: 0 <= i < j < |sorted| ==> sorted[j].count <= sorted[i].count
    requires pos == DisplayCategory(sorted[0].feature)
    requires wg == WordGroup(r, sorted[0].word, VariantTotal(ToVariants(sorted)), ToVariants(sorted))
    ensures Renders(r, g, pos, wg)
  {
    assert VariantWords(wg.variants) == ListedWords(sorted);
    assert sorted[0] in sorted;
    forall v | v in wg.variants ensures v.word in g.variants && v.count == g.variants[v.word].count {
      var i :| 0 <= i < |wg.variants| && wg.variants[i] == v;
      assert sorted[i] in sorted;
    }
  }

  // ---------------------------------------------------------------------------------------
  // What a rendered group says about the tokens

  /** The total of a reading's group is the number of its tokens that were counted. */
  lemma RenderedTotal(ts: seq<RustToken>, ends: seq<nat>, r: string, pos: string, wg: WordGroup)
    requires r in TallyOf(ts, ends) && Renders(r, TallyOf(ts, ends)[r], pos, wg)
    ensures wg.totalCount == Count(ts, r)
  {
    var g := TallyOf(ts, ends)[r];
    var ws := VariantWords(wg.variants);
    forall j | 0 <= j < |ts| && CountsUnder(ts[j], r) ensures ts[j].surface in ws {
      TallyVariant(ts, ends, r, ts[j].surface);
      FormCountPositive(ts, r, j);
    }
    FormSumIsCount(ts, r, ws);
    forall v | v in wg.variants ensures v.count == FormCount(ts, r, v.word) {
      TallyVariant(ts, ends, r, v.word);
    }
    TotalIsFormSum(ts, r, wg.variants);
  }

  lemma {:induction false} FormCountPositive(ts: seq<RustToken>, r: string, j: nat)
    requires j < |ts| && CountsUnder(ts[j], r)
    ensures FormCount(ts, r, ts[j].surface) > 0
  {
    if FormCount(ts, r, ts[j].surface) == 0 {
      FormCountZero(ts, r, ts[j].surface);
    }
  }

  lemma {:induction false} TotalIsFormSum(ts: seq<RustToken>, r: string, vs: seq<Variant>)
    requires forall v :: v in vs ==> v.count == FormCount(ts, r, v.word)
    ensures VariantTotal(vs) == FormSum(ts, r, VariantWords(vs))
  {
    if vs != [] {
      assert vs[0] in vs;
      TotalIsFormSum(ts, r, vs[1..]);
      assert VariantWords(vs)[1..] == VariantWords(vs[1..]);
    }
  }

  /** The primary word is a most frequent surface form of the reading. */
  lemma PrimaryIsMostFrequent(r: string, g: RustGroup, pos: string, wg: WordGroup, w: string)
    requires Renders(r, g, pos, wg) && w in g.variants
    ensures g.variants[w].count <= g.variants[wg.primaryWord].count
  {
    var i :| 0 <= i < |wg.variants| && VariantWords(wg.variants)[i] == w;
    assert wg.variants[i] in wg.variants && wg.variants[0] in wg.variants;
  }

  // ---------------------------------------------------------------------------------------
  // Step 3: from the table to the categories

  /** `list` holds the members of `s` in ascending order, as collecting a `BTreeSet` yields them. */
  ghost predicate AscendingList(list: seq<nat>, s: set<nat>) {
    Increasing(list) && forall x :: x in list <==> x in s
  }

  /** A non-empty set of naturals has a least member. */
  lemma {:induction false} Least(s: set<nat>) returns (m: nat)
    requires s != {}
    ensures m in s && forall y :: y in s ==> m <= y
    decreases |s|
  {
    var x :| x in s;
    var others := s - {x};
    if others == {} {
      m := x;
      assert s == {x};
    } else {
      var n := Least(others);
      m := if x < n then x else n;
      assert s == others + {x};
    }
  }

  /** Appending the least of the remaining members keeps the list ascending and below the rest. */
  lemma AscendingStep(list: seq<nat>, rest: set<nat>, m: nat)
    requires Increasing(list) && forall x, y :: x in list && y in rest ==> x < y
    requires m in rest && forall y :: y in rest ==> m <= y
    ensures Increasing(list + [m])
    ensures forall x, y :: x in list + [m] && y in rest - {m} ==> x < y
  {
    forall i | 0 <= i < |list| ensures list[i] < m {
      assert list[i] in list;
    }
  }

  /** `sentence_indices.into_iter().collect()`: the members of the set, smallest first. */
  method CollectAscending(s: set<nat>) returns (list: seq<nat>)
    ensures AscendingList(list, s)
  {
    list := [];
    var rest := s;
    while rest != {}
      invariant rest <= s
      invariant Increasing(list)
      invariant forall x :: x in s <==> x in list || x in rest
      invariant forall x, y :: x in list && y in rest ==> x < y
      decreases |rest|
    {
      ghost var least := Least(rest);
      var m :| m in rest && forall y :: y in rest ==> m <= y;
      AscendingStep(list, rest, m);
      list := list + [m];
      rest := rest - {m};
    }
  }

  function Readings(groups: seq<WordGroup>): (rs: seq<string>)
    ensures |rs| == |groups| && forall i :: 0 <= i < |groups| ==> rs[i] == groups[i].reading
  {
    seq(|groups|, i requires 0 <= i < |groups| => groups[i].reading)
  }

  /** Reading `r` is filed under some category. */
  ghost predicate Placed(grouped: map<string, seq<WordGroup>>, r: string) {
    exists pos :: pos in grouped && r in Readings(grouped[pos])
  }

  /** Every filed group renders its reading's group under its category. */
  ghost predicate AllRender(words: map<string, RustGroup>, grouped: map<string, seq<WordGroup>>) {
    forall pos, wg :: pos in grouped && wg in grouped[pos] ==> wg.reading in words && Renders(wg.reading, words[wg.reading], pos, wg)
  }

  /** No category is empty and no reading is filed twice, within a category or across two. */
  ghost predicate FiledOnce(grouped: map<string, seq<WordGroup>>) {
    UniqueWithin(grouped) && DisjointAcross(grouped)
  }

  ghost predicate UniqueWithin(grouped: map<string, seq<WordGroup>>) {
    forall pos :: pos in grouped ==> grouped[pos] != [] && NoDup(Readings(grouped[pos]))
  }

  ghost predicate DisjointAcross(grouped: map<string, seq<WordGroup>>) {
    forall p1, p2, r :: p1 in grouped && p2 in grouped && r in Readings(grouped[p1]) && r in Readings(grouped[p2]) ==> p1 == p2
  }

  /** The readings filed so far are those of `done`, each somewhere. */
  ghost predicate FiledExactly(grouped: map<string, seq<WordGroup>>, done: set<string>) {
    && (forall pos, r :: pos in grouped && r in Readings(grouped[pos]) ==> r in done)
    && (forall r :: r in done ==> Placed(grouped, r))
  }

  /** Each visited reading has its sorted sentence list. */
  ghost predicate ListsIndices(words: map<string, RustGroup>, done: set<string>, sentenceMap: map<string, seq<nat>>) {
    && done <= words.Keys
    && sentenceMap.Keys == done
    && (forall r :: r in done ==> AscendingList(sentenceMap[r], words[r].indices))
  }

  /** What the conversion loop keeps, the readings in `done` having been visited. */
  ghost predicate ConvertInv(words: map<string, RustGroup>, done: set<string>,
                             grouped: map<string, seq<WordGroup>>, sentenceMap: map<string, seq<nat>>) {
    AllRender(words, grouped) && FiledOnce(grouped) && FiledExactly(grouped, done) && ListsIndices(words, done, sentenceMap)
  }

  lemma ReadingsSnoc(groups: seq<WordGroup>, wg: WordGroup)
    ensures Readings(groups + [wg]) == Readings(groups) + [wg.reading]
  {
  }

  /** The category `pos` after pushing `wg`. */
  function Pushed(grouped: map<string, seq<WordGroup>>, pos: string, wg: WordGroup): map<string, seq<WordGroup>> {
    grouped[pos := (if pos in grouped then grouped[pos] else []) + [wg]]
  }

  lemma PushedReadings(grouped: map<string, seq<WordGroup>>, pos: string, wg: WordGroup, p: string, r: string)
    requires p in Pushed(grouped, pos, wg)
    ensures r in Readings(Pushed(grouped, pos, wg)[p]) <==> (p in grouped && r in Readings(grouped[p])) || (p == pos && r == wg.reading)
  {
    if p == pos {
      ReadingsSnoc(if pos in grouped then grouped[pos] else [], wg);
    }
  }

  lemma PushRenders(words: map<string, RustGroup>, grouped: map<string, seq<WordGroup>>, pos: string, wg: WordGroup)
    requires AllRender(words, grouped)
    requires wg.reading in words && Renders(wg.reading, words[wg.reading], pos, wg)
    ensures AllRender(words, Pushed(grouped, pos, wg))
  {
    var grouped' := Pushed(grouped, pos, wg);
    forall p: string, v: WordGroup | p in grouped' && v in grouped'[p]
      ensures v.reading in words && Renders(v.reading, words[v.reading], p, v)
    {
      if p == pos && !(pos in grouped && v in grouped[pos]) {
        assert v == wg;
      }
    }
  }

  lemma PushOnce(grouped: map<string, seq<WordGroup>>, pos: string, wg: WordGroup)
    requires FiledOnce(grouped)
    requires forall p :: p in grouped ==> wg.reading !in Readings(grouped[p])
    ensures FiledOnce(Pushed(grouped, pos, wg))
  {
    var grouped' := Pushed(grouped, pos, wg);
    var list := if pos in grouped then grouped[pos] else [];
    ReadingsSnoc(list, wg);
    assert NoDup(Readings(list + [wg]));
    forall p1, p2, r | p1 in grouped' && p2 in grouped' && r in Readings(grouped'[p1]) && r in Readings(grouped'[p2])
      ensures p1 == p2
    {
      PushedReadings(grouped, pos, wg, p1, r);
      PushedReadings(grouped, pos, wg, p2, r);
    }
  }

  lemma PushExactly(grouped: map<string, seq<WordGroup>>, done: set<string>, pos: string, wg: WordGroup)
    requires FiledExactly(grouped, done)
    ensures FiledExactly(Pushed(grouped, pos, wg), done + {wg.reading})
  {
    var grouped' := Pushed(grouped, pos, wg);
    forall p, r | p in grouped' && r in Readings(grouped'[p]) ensures r in done + {wg.reading} {
      PushedReadings(grouped, pos, wg, p, r);
    }
    forall q | q in done + {wg.reading} ensures Placed(grouped', q) {
      if q == wg.reading {
        PushedReadings(grouped, pos, wg, pos, q);
      } else {
        var p :| p in grouped && q in Readings(grouped[p]);
        PushedReadings(grouped, pos, wg, p, q);
      }
    }
  }

  /** Filing one more reading keeps the invariant. */
  lemma FileStep(words: map<string, RustGroup>, done: set<string>, grouped: map<string, seq<WordGroup>>,
                 sentenceMap: map<string, seq<nat>>, r: string, pos: string, wg: WordGroup, indices: seq<nat>)
    requires ConvertInv(words, done, grouped, sentenceMap)
    requires r in words && r !in done && Renders(r, words[r], pos, wg) && AscendingList(indices, words[r].indices)
    ensures ConvertInv(words, done + {r}, Pushed(grouped, pos, wg), sentenceMap[r := indices])
  {
    PushRenders(words, grouped, pos, wg);
    PushOnce(grouped, pos, wg);
    PushExactly(grouped, done, pos, wg);
    PushIndices(words, done, sentenceMap, r, indices);
  }

  lemma PushIndices(words: map<string, RustGroup>, done: set<string>, sentenceMap: map<string, seq<nat>>, r: string, indices: seq<nat>)
    requires ListsIndices(words, done, sentenceMap)
    requires r in words && AscendingList(indices, words[r].indices)
    ensures ListsIndices(words, done + {r}, sentenceMap[r := indices])
  {
  }

  lemma VisitOne<T>(all: set<T>, rest: set<T>, x: T)
    requires rest <= all && x in rest
    ensures all - (rest - {x}) == (all - rest) + {x}
  {
  }

  /** Lines 123-141: every reading becomes a `WordGroup` under its category, and its index set a sorted list. */
  method Convert(words: map<string, RustGroup>) returns (grouped: map<string, seq<WordGroup>>, sentenceMap: map<string, seq<nat>>)
    requires forall r :: r in words ==> words[r].variants != map[]
    ensures ConvertInv(words, words.Keys, grouped, sentenceMap)
  {
    grouped, sentenceMap := map[], map[];
    var rest := words.Keys;
    assert words.Keys - rest == {};
    while rest != {}
      invariant rest <= words.Keys
      invariant ConvertInv(words, words.Keys - rest, grouped, sentenceMap)
      decreases |rest|
    {
      var reading :| reading in rest;
      var pos, wordGroup := RenderGroup(reading, words[reading]);
      var indices := CollectAscending(words[reading].indices);
      FileStep(words, words.Keys - rest, grouped, sentenceMap, reading, pos, wordGroup, indices);
      VisitOne(words.Keys, rest, reading);
      grouped := Pushed(grouped, pos, wordGroup);
      sentenceMap := sentenceMap[reading := indices];
      rest := rest - {reading};
    }
    assert words.Keys - {} == words.Keys;
  }

  // ---------------------------------------------------------------------------------------
  // Step 4: sorting

  /** `|a, b| a.reading.cmp(&b.reading)`: byte order of the readings. */
  function ByReading(): (WordGroup, WordGroup) -> bool {
    (a: WordGroup, b: WordGroup) => LexLe(a.reading, b.reading)
  }

  /** `grouped_by_pos.keys().cloned().collect()`: the keys in the map's (arbitrary) order. */
  method ListKeys(grouped: map<string, seq<WordGroup>>) returns (keys: seq<string>)
    ensures forall k :: k in keys <==> k in grouped
  {
    keys := [];
    var rest := grouped.Keys;
    while rest != {}
      invariant forall k :: k in grouped <==> k in keys || k in rest
      invariant rest <= grouped.Keys
      decreases |rest|
    {
      var k :| k in rest;
      keys := keys + [k];
      rest := rest - {k};
    }
  }

  /** Lines 144-152: the categories in byte order, each category's groups sorted by reading. */
  method SortCategories(grouped: map<string, seq<WordGroup>>) returns (sorted: map<string, seq<WordGroup>>)
    ensures SortedFrom(grouped, sorted)
  {
    var keys := ListKeys(grouped);
    var sortedPosKeys := SortBy(keys, LexLe);
    assert forall k :: k in sortedPosKeys <==> k in grouped by {
      forall k ensures k in sortedPosKeys <==> k in grouped {
        assert k in keys <==> k in multiset(keys);
      }
    }
    sorted := map[];
    var i := 0;
    while i < |sortedPosKeys|
      invariant i <= |sortedPosKeys|
      invariant forall pos :: pos in sorted <==> pos in sortedPosKeys[..i]
      invariant forall pos :: pos in sorted ==> sorted[pos] == SortBy(grouped[pos], ByReading())
    {
      var pos := sortedPosKeys[i];
      PrefixSnoc(sortedPosKeys, i);
      sorted := sorted[pos := SortBy(grouped[pos], ByReading())];
      i := i + 1;
    }
    PrefixAll(sortedPosKeys);
  }

  // ---------------------------------------------------------------------------------------
  // The command

  /**
   * What the command returns for the table `words`: every reading filed exactly once, under
   * the category of its rendered group; the groups of a category in byte order of their
   * readings; a sorted sentence list for every reading and nothing else.
   */
  ghost predicate Analyzed(words: map<string, RustGroup>, grouped: map<string, seq<WordGroup>>, sentenceMap: map<string, seq<nat>>) {
    && AllRender(words, grouped)
    && FiledOnce(grouped)
    && FiledExactly(grouped, words.Keys)
    && (forall pos :: pos in grouped ==> Sorted(grouped[pos], ByReading()))
    && ListsIndices(words, words.Keys, sentenceMap)
  }

  /** `sorted` holds each category of `grouped` sorted by reading. */
  ghost predicate SortedFrom(grouped: map<string, seq<WordGroup>>, sorted: map<string, seq<WordGroup>>) {
    && sorted.Keys == grouped.Keys
    && (forall pos :: pos in sorted ==> sorted[pos] == SortBy(grouped[pos], ByReading()))
  }

  lemma SortKeepsGroups(grouped: map<string, seq<WordGroup>>, sorted: map<string, seq<WordGroup>>, pos: string)
    requires SortedFrom(grouped, sorted) && pos in sorted
    ensures multiset(sorted[pos]) == multiset(grouped[pos])
    ensures multiset(Readings(sorted[pos])) == multiset(Readings(grouped[pos]))
  {
    SortedReadings(grouped[pos]);
  }

  lemma SortKeepsReading(grouped: map<string, seq<WordGroup>>, sorted: map<string, seq<WordGroup>>, pos: string, r: string)
    requires SortedFrom(grouped, sorted) && pos in sorted
    ensures r in Readings(sorted[pos]) <==> r in Readings(grouped[pos])
  {
    SortKeepsGroups(grouped, sorted, pos);
    assert r in Readings(sorted[pos]) <==> r in multiset(Readings(sorted[pos]));
    assert r in Readings(grouped[pos]) <==> r in multiset(Readings(grouped[pos]));
  }

  lemma SortKeepsRender(words: map<string, RustGroup>, grouped: map<string, seq<WordGroup>>, sorted: map<string, seq<WordGroup>>)
    requires SortedFrom(grouped, sorted) && AllRender(words, grouped)
    ensures AllRender(words, sorted)
  {
    forall pos, wg | pos in sorted && wg in sorted[pos] ensures wg in grouped[pos] {
      SortKeepsGroups(grouped, sorted, pos);
      assert wg in multiset(sorted[pos]);
    }
  }

  lemma SortKeepsUnique(grouped: map<string, seq<WordGroup>>, sorted: map<string, seq<WordGroup>>)
    requires SortedFrom(grouped, sorted) && UniqueWithin(grouped)
    ensures UniqueWithin(sorted)
  {
    forall pos | pos in sorted ensures sorted[pos] != [] && NoDup(Readings(sorted[pos])) {
      SortKeepsGroups(grouped, sorted, pos);
      assert |sorted[pos]| == |multiset(sorted[pos])| == |multiset(grouped[pos])|;
      PermutationNoDup(Readings(grouped[pos]), Readings(sorted[pos]));
    }
  }

  lemma SortKeepsDisjoint(grouped: map<string, seq<WordGroup>>, sorted: map<string, seq<WordGroup>>)
    requires SortedFrom(grouped, sorted) && DisjointAcross(grouped)
    ensures DisjointAcross(sorted)
  {
    forall p1, p2, r | p1 in sorted && p2 in sorted && r in Readings(sorted[p1]) && r in Readings(sorted[p2]) ensures p1 == p2 {
      SortKeepsReading(grouped, sorted, p1, r);
      SortKeepsReading(grouped, sorted, p2, r);
    }
  }

  lemma SortKeepsExactly(grouped: map<string, seq<WordGroup>>, sorted: map<string, seq<WordGroup>>, done: set<string>)
    requires SortedFrom(grouped, sorted) && FiledExactly(grouped, done)
    ensures FiledExactly(sorted, done)
  {
    forall pos, r | pos in sorted && r in Readings(sorted[pos]) ensures r in done {
      SortKeepsReading(grouped, sorted, pos, r);
    }
    forall r | r in done ensures Placed(sorted, r) {
      var p :| p in grouped && r in Readings(grouped[p]);
      SortKeepsReading(grouped, sorted, p, r);
    }
  }

  /** Sorting each category keeps what was filed and puts it in byte order. */
  lemma SortKeepsFiled(words: map<string, RustGroup>, grouped: map<string, seq<WordGroup>>,
                       sorted: map<string, seq<WordGroup>>, sentenceMap: map<string, seq<nat>>)
    requires ConvertInv(words, words.Keys, grouped, sentenceMap)
    requires SortedFrom(grouped, sorted)
    ensures Analyzed(words, sorted, sentenceMap)
  {
    SortKeepsRender(words, grouped, sorted);
    SortKeepsUnique(grouped, sorted);
    SortKeepsDisjoint(grouped, sorted);
    SortKeepsExactly(grouped, sorted, words.Keys);
    forall pos | pos in sorted ensures Sorted(sorted[pos], ByReading()) {
      ReadingsSorted(grouped[pos]);
    }
  }

  lemma SortedReadings(groups: seq<WordGroup>)
    ensures multiset(Readings(SortBy(groups, ByReading()))) == multiset(Readings(groups))
  {
    var f := (g: WordGroup) => g.reading;
    MapSeqPermutation(groups, SortBy(groups, ByReading()), f);
    assert MapSeq(groups, f) == Readings(groups);
    assert MapSeq(SortBy(groups, ByReading()), f) == Readings(SortBy(groups, ByReading()));
  }

  lemma ReadingsSorted(groups: seq<WordGroup>)
    ensures Sorted(SortBy(groups, ByReading()), ByReading())
  {
    forall a, b | a in groups && b in groups ensures ByReading()(a, b) || ByReading()(b, a) {
      LexLeTotal(a.reading, b.reading);
    }
    SortBySorted(groups, ByReading());
  }

  /**
   * `analyze_text` on `text` with vibrato's tokens `tokens`; `unit` says how the ends of
   * terminated sentences are measured (`Bytes` as the command does, `Chars` as intended).
   */
  method AnalyzeText(text: string, tokens: seq<RustToken>, unit: EndUnit) returns (data: AnalyzedData)
    ensures data.sentences == DocumentSentences(text, IsRustBlank)
    ensures Analyzed(TallyOf(tokens, SentenceEnds(text, unit)), data.groupedTokens, data.sentenceMap)
  {
    var sentences, ends := SplitSentences(text, unit);
    var words := Tally(tokens, ends);
    TallyValid(tokens, ends);
    var grouped, sentenceMap := Convert(words);
    var sorted := SortCategories(grouped);
    SortKeepsFiled(words, grouped, sorted, sentenceMap);
    data := AnalyzedData(sorted, sentences, sentenceMap);
  }

  // ---------------------------------------------------------------------------------------
  // Consequences

  /** Within a category the readings strictly increase in byte order: no reading repeats. */
  lemma CategoryStrictlyOrdered(words: map<string, RustGroup>, grouped: map<string, seq<WordGroup>>,
                                sentenceMap: map<string, seq<nat>>, pos: string, i: nat)
    requires Analyzed(words, grouped, sentenceMap) && pos in grouped && i + 1 < |grouped[pos]|
    ensures LexLe(grouped[pos][i].reading, grouped[pos][i + 1].reading)
    ensures grouped[pos][i].reading != grouped[pos][i + 1].reading
  {
    assert ByReading()(grouped[pos][i], grouped[pos][i + 1]);
    assert Readings(grouped[pos])[i] != Readings(grouped[pos])[i + 1];
  }

  /**
   * Every reading some token was counted under has exactly one group in the result (there is no
   * significance filter), whose total is the number of such tokens, and a sentence list that
   * holds, in ascending order, the sentences those tokens fall in.
   */
  lemma EveryCountedReadingShown(tokens: seq<RustToken>, ends: seq<nat>, grouped: map<string, seq<WordGroup>>,
                                 sentenceMap: map<string, seq<nat>>, r: string)
    requires Analyzed(TallyOf(tokens, ends), grouped, sentenceMap)
    requires Count(tokens, r) > 0
    ensures exists pos, wg :: pos in grouped && wg in grouped[pos] && wg.reading == r && wg.totalCount == Count(tokens, r)
    ensures r in sentenceMap && Increasing(sentenceMap[r])
    ensures forall x :: x in sentenceMap[r] <==> Mentions(tokens, ends, r, x)
  {
    var words := TallyOf(tokens, ends);
    TallyHas(tokens, ends, r);
    var pos :| pos in grouped && r in Readings(grouped[pos]);
    var i :| 0 <= i < |grouped[pos]| && Readings(grouped[pos])[i] == r;
    var wg := grouped[pos][i];
    assert wg in grouped[pos];
    RenderedTotal(tokens, ends, r, pos, wg);
    forall x ensures x in sentenceMap[r] <==> Mentions(tokens, ends, r, x) {
      TallyIndices(tokens, ends, r, x);
    }
  }

  /** A group in the result belongs to a reading some token was counted under. */
  lemma ShownReadingCounted(tokens: seq<RustToken>, ends: seq<nat>, grouped: map<string, seq<WordGroup>>,
                            sentenceMap: map<string, seq<nat>>, pos: string, wg: WordGroup)
    requires Analyzed(TallyOf(tokens, ends), grouped, sentenceMap)
    requires pos in grouped && wg in grouped[pos]
    ensures Count(tokens, wg.reading) > 0
    ensures forall v :: v in wg.variants ==> v.count == FormCount(tokens, wg.reading, v.word) && v.count > 0
  {
    TallyHas(tokens, ends, wg.reading);
    forall v | v in wg.variants ensures v.count == FormCount(tokens, wg.reading, v.word) && v.count > 0 {
      TallyVariant(tokens, ends, wg.reading, v.word);
    }
  }
}
