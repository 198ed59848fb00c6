/**
 * The worker's `wordsByReading` table (src/worker.js): every kept token of every sentence is
 * counted under its reading, once more under its surface form, and the sentence's index is
 * added to the reading's set of sentences.
 *
 * The table and the groups inside it are values here: where the worker mutates a group object
 * in place, the model writes the updated group back under its reading.
 */
module WorkerAggregate {
  import opened Sequences
  import opened JsObjects
  import opened Segmentation
  import opened Worker

  /** The parts of speech the worker never counts. */
  const GrammaticalPos: seq<string> := ["助詞", "助動詞", "接続詞", "連体詞"]

  /** A token survives the filter when it has a reading and is not a grammatical word. */
  predicate IsKept(t: Token) {
    t.reading != "" && t.pos !in GrammaticalPos
  }

  /** `variants[surface_form]`: how often the form occurs, and the category and base form of its first token. */
  datatype VariantEntry = VariantEntry(count: nat, pos: string, basicForm: string)

  /** `wordsByReading[reading]`; `sentenceIndices` is the `Set` as the sequence it enumerates in. */
  datatype ReadingGroup = ReadingGroup(totalCount: nat, variants: JsObject<VariantEntry>, sentenceIndices: seq<nat>)

  /** `{ totalCount: 0, variants: {}, sentenceIndices: new Set() }`. */
  function NewGroup(): ReadingGroup {
    ReadingGroup(0, Empty(), [])
  }

  /** `Set.prototype.add`: a new member goes to the end of the enumeration order. */
  function AddIndex(s: seq<nat>, i: nat): (r: seq<nat>)
    ensures forall x :: x in r <==> x in s || x == i
    ensures NoDup(s) ==> NoDup(r)
  {
    if i in s then s else s + [i]
  }

  /** The group after counting one kept token `t` of sentence `si`. */
  function CountToken(g: ReadingGroup, t: Token, si: nat): ReadingGroup {
    var sf := t.surfaceForm;
    var vs := if sf in g.variants.entries then g.variants
              else g.variants.Put(sf, VariantEntry(0, DisplayCategory(t), t.basicForm));
    var v := vs.entries[sf];
    ReadingGroup(g.totalCount + 1, vs.Put(sf, v.(count := v.count + 1)), AddIndex(g.sentenceIndices, si))
  }

  /** The body of `tokens.forEach`: a dropped token leaves the table as it is. */
  function AddToken(words: JsObject<ReadingGroup>, t: Token, si: nat): JsObject<ReadingGroup> {
    if !IsKept(t) then words
    else
      var g := if t.reading in words.entries then words.entries[t.reading] else NewGroup();
      words.Put(t.reading, CountToken(g, t, si))
  }

  /** A token together with the index of the sentence it came from. */
  datatype Occurrence = Occurrence(token: Token, sentence: nat)

  /** The table after the occurrences `os`, taken in order, starting from an empty table. */
  function Table(os: seq<Occurrence>): JsObject<ReadingGroup> {
    if os == [] then Empty()
    else
      var o := os[|os| - 1];
      AddToken(Table(os[..|os| - 1]), o.token, o.sentence)
  }

  /** The tokens of `ts`, all from sentence `si`. */
  function Tagged(ts: seq<Token>, si: nat): seq<Occurrence> {
    seq(|ts|, i requires 0 <= i < |ts| => Occurrence(ts[i], si))
  }

  /** The tokens of the first `n` sentences, in document order, each with its sentence's index. */
  function Occurrences(sentences: seq<Sentence>, tokenize: string -> seq<Token>, n: nat): seq<Occurrence>
    requires n <= |sentences|
  {
    if n == 0 then [] else Occurrences(sentences, tokenize, n - 1) + Tagged(tokenize(sentences[n - 1].text), n - 1)
  }

  /**
   * The two nested `forEach` loops over the sentences and their tokens. `tokenize` stands for
   * kuromoji's `tokenizer.tokenize`.
   */
  method Aggregate(sentences: seq<Sentence>, tokenize: string -> seq<Token>) returns (words: JsObject<ReadingGroup>)
    ensures words == Table(Occurrences(sentences, tokenize, |sentences|))
  {
    words := Empty();
    ghost var done: seq<Occurrence> := [];
    var i := 0;
    while i < |sentences|
      invariant i <= |sentences|
      invariant done == Occurrences(sentences, tokenize, i)
      invariant words == Table(done)
    {
      var tokens := tokenize(sentences[i].text);
      words := CountSentence(words, done, tokens, i);
      done := done + Tagged(tokens, i);
      i := i + 1;
    }
  }

  /** The inner `tokens.forEach` for sentence `si`, after the occurrences `done`. */
  method CountSentence(words: JsObject<ReadingGroup>, ghost done: seq<Occurrence>, tokens: seq<Token>, si: nat)
    returns (words': JsObject<ReadingGroup>)
    requires words == Table(done)
    ensures words' == Table(done + Tagged(tokens, si))
  {
    words' := words;
    var j := 0;
    assert done + Tagged(tokens[..0], si) == done;
    while j < |tokens|
      invariant j <= |tokens|
      invariant words' == Table(done + Tagged(tokens[..j], si))
    {
      ghost var before := words';
      words' := CountInto(words', tokens[j], si);
      TableStep(done, tokens, si, j, before, words');
      j := j + 1;
    }
    assert tokens[..j] == tokens;
  }

  /** Lines 87-101 for one token `t` of sentence `si`: skip it, or count it in place. */
  method CountInto(words: JsObject<ReadingGroup>, t: Token, si: nat) returns (words': JsObject<ReadingGroup>)
    ensures words' == AddToken(words, t, si)
  {
    words' := words;
    if !IsKept(t) {
      return;
    }
    var reading := t.reading;
    if reading !in words'.entries {
      words' := words'.Put(reading, NewGroup());
    }
    var group := words'.entries[reading];
    var sf := t.surfaceForm;
    if sf !in group.variants.entries {
      group := group.(variants := group.variants.Put(sf, VariantEntry(0, DisplayCategory(t), t.basicForm)));
    }
    var v := group.variants.entries[sf];
    group := ReadingGroup(group.totalCount + 1, group.variants.Put(sf, v.(count := v.count + 1)), AddIndex(group.sentenceIndices, si));
    words' := words'.Put(reading, group);
  }

  /** One turn of the token loop adds one occurrence to the table. */
  lemma TableStep(done: seq<Occurrence>, tokens: seq<Token>, si: nat, j: nat, before: JsObject<ReadingGroup>, after: JsObject<ReadingGroup>)
    requires j < |tokens|
    requires before == Table(done + Tagged(tokens[..j], si))
    requires after == AddToken(before, tokens[j], si)
    ensures after == Table(done + Tagged(tokens[..j + 1], si))
  {
    var os := done + Tagged(tokens[..j + 1], si);
    var prev := done + Tagged(tokens[..j], si);
    TaggedLast(tokens[..j + 1], si);
    assert tokens[..j + 1][..j] == tokens[..j];
    assert os == prev + [Occurrence(tokens[j], si)];
    assert os[..|os| - 1] == prev;
  }

  lemma TaggedLast(ts: seq<Token>, si: nat)
    requires ts != []
    ensures Tagged(ts, si) == Tagged(ts[..|ts| - 1], si) + [Occurrence(ts[|ts| - 1], si)]
  {
  }

  // ---------------------------------------------------------------------------------------
  // What the table holds

  /** Occurrence `o` is counted under reading `r`. */
  predicate CountsFor(o: Occurrence, r: string) {
    IsKept(o.token) && o.token.reading == r
  }

  /** Number of occurrences counted under reading `r`. */
  function Tally(os: seq<Occurrence>, r: string): nat {
    if os == [] then 0 else Tally(os[..|os| - 1], r) + (if CountsFor(os[|os| - 1], r) then 1 else 0)
  }

  /** Occurrence `o` is counted under reading `r` and surface form `sf`. */
  predicate CountsAs(o: Occurrence, r: string, sf: string) {
    CountsFor(o, r) && o.token.surfaceForm == sf
  }

  /** Number of occurrences counted under reading `r` with surface form `sf`. */
  function FormTally(os: seq<Occurrence>, r: string, sf: string): nat {
    if os == [] then 0 else FormTally(os[..|os| - 1], r, sf) + (if CountsAs(os[|os| - 1], r, sf) then 1 else 0)
  }

  /** No occurrence is counted under `r` and `sf` when their tally is zero. */
  lemma {:induction false} FormTallyZero(os: seq<Occurrence>, r: string, sf: string)
    requires FormTally(os, r, sf) == 0
    ensures forall j :: 0 <= j < |os| ==> !CountsAs(os[j], r, sf)
  {
    if os != [] {
      FormTallyZero(os[..|os| - 1], r, sf);
      assert forall j :: 0 <= j < |os| - 1 ==> os[j] == os[..|os| - 1][j];
    }
  }

  /** Position of the first occurrence counted under `r` and `sf`. */
  function FirstIndex(os: seq<Occurrence>, r: string, sf: string): (i: nat)
    requires FormTally(os, r, sf) > 0
    ensures i < |os| && CountsAs(os[i], r, sf)
    ensures forall j :: 0 <= j < i ==> !CountsAs(os[j], r, sf)
  {
    var prefix := os[..|os| - 1];
    if FormTally(prefix, r, sf) > 0 then
      var i := FirstIndex(prefix, r, sf);
      assert forall j :: 0 <= j <= i ==> os[j] == prefix[j];
      i
    else
      FormTallyZero(prefix, r, sf);
      assert forall j :: 0 <= j < |prefix| ==> os[j] == prefix[j];
      |os| - 1
  }

  /** The group of reading `r` alone, built from the occurrences counted under `r`. */
  function Group(os: seq<Occurrence>, r: string): ReadingGroup {
    if os == [] then NewGroup()
    else
      var o := os[|os| - 1];
      var g := Group(os[..|os| - 1], r);
      if CountsFor(o, r) then CountToken(g, o.token, o.sentence) else g
  }

  /** A reading nothing was counted under still has the empty group. */
  lemma {:induction false} GroupUntouched(os: seq<Occurrence>, r: string)
    requires Tally(os, r) == 0
    ensures Group(os, r) == NewGroup()
  {
    if os != [] {
      GroupUntouched(os[..|os| - 1], r);
    }
  }

  /**
   * Each reading's group depends only on the occurrences counted under it: the table holds a
   * reading exactly when some kept token has it, and then holds its group.
   */
  lemma {:induction false} TableGroup(os: seq<Occurrence>, r: string)
    ensures r in Table(os).entries <==> Tally(os, r) > 0
    ensures r in Table(os).entries ==> Table(os).entries[r] == Group(os, r)
  {
    if os != [] {
      var prefix := os[..|os| - 1];
      TableGroup(prefix, r);
      if Tally(prefix, r) == 0 {
        GroupUntouched(prefix, r);
      }
    }
  }

  /** `totalCount` is the number of kept tokens with the reading. */
  lemma {:induction false} GroupTotal(os: seq<Occurrence>, r: string)
    ensures Group(os, r).totalCount == Tally(os, r)
  {
    if os != [] {
      GroupTotal(os[..|os| - 1], r);
    }
  }

  /**
   * A surface form is a variant of the reading exactly when some kept token has both; its
   * count is the number of such tokens, and its category and base form are those of the first.
   */
  lemma {:induction false} GroupVariant(os: seq<Occurrence>, r: string, sf: string)
    ensures var vs := Group(os, r).variants.entries;
      && (sf in vs <==> FormTally(os, r, sf) > 0)
      && (sf in vs ==> var first := os[FirstIndex(os, r, sf)].token;
                       vs[sf] == VariantEntry(FormTally(os, r, sf), DisplayCategory(first), first.basicForm))
  {
    if os != [] {
      var prefix := os[..|os| - 1];
      GroupVariant(prefix, r, sf);
      if FormTally(prefix, r, sf) > 0 {
        assert os[FirstIndex(prefix, r, sf)] == prefix[FirstIndex(prefix, r, sf)];
      }
    }
  }

  /** Some occurrence counted under `r` comes from sentence `x`. */
  ghost predicate Mentions(os: seq<Occurrence>, r: string, x: nat) {
    exists i :: 0 <= i < |os| && CountsFor(os[i], r) && os[i].sentence == x
  }

  lemma MentionsLast(os: seq<Occurrence>, r: string, x: nat)
    requires os != []
    ensures Mentions(os, r, x) <==> Mentions(os[..|os| - 1], r, x) || (CountsFor(os[|os| - 1], r) && os[|os| - 1].sentence == x)
  {
    var prefix := os[..|os| - 1];
    if Mentions(prefix, r, x) {
      var i :| 0 <= i < |prefix| && CountsFor(prefix[i], r) && prefix[i].sentence == x;
      assert os[i] == prefix[i];
    }
    if Mentions(os, r, x) {
      var i :| 0 <= i < |os| && CountsFor(os[i], r) && os[i].sentence == x;
      if i < |prefix| {
        assert os[i] == prefix[i];
      }
    }
  }

  /** The reading's sentence set holds exactly the sentences one of its tokens came from. */
  lemma {:induction false} GroupIndices(os: seq<Occurrence>, r: string, x: nat)
    ensures x in Group(os, r).sentenceIndices <==> Mentions(os, r, x)
  {
    if os != [] {
      GroupIndices(os[..|os| - 1], r, x);
      MentionsLast(os, r, x);
    }
  }

  /** Sentence tags never decrease along `os`. */
  ghost predicate InSentenceOrder(os: seq<Occurrence>) {
    forall i, j :: 0 <= i < j < |os| ==> os[i].sentence <= os[j].sentence
  }

  /**
   * Sentences are visited in index order, so each reading's sentence set enumerates its members
   * in ascending order (the `sentenceMap` entry is strictly ascending).
   */
  lemma {:induction false} GroupIndicesIncreasing(os: seq<Occurrence>, r: string)
    requires InSentenceOrder(os)
    ensures Increasing(Group(os, r).sentenceIndices)
  {
    if os != [] {
      var prefix := os[..|os| - 1];
      var o := os[|os| - 1];
      assert InSentenceOrder(prefix) by {
        assert forall i :: 0 <= i < |prefix| ==> prefix[i] == os[i];
      }
      GroupIndicesIncreasing(prefix, r);
      var s := Group(prefix, r).sentenceIndices;
      if CountsFor(o, r) && o.sentence !in s {
        forall k | 0 <= k < |s| ensures s[k] < o.sentence {
          GroupIndices(prefix, r, s[k]);
          var i :| 0 <= i < |prefix| && CountsFor(prefix[i], r) && prefix[i].sentence == s[k];
          assert prefix[i] == os[i];
        }
      }
    }
  }

  /** Sum of the counts of the variants listed in `keys`. */
  function SumCounts(keys: seq<string>, m: map<string, VariantEntry>): nat {
    if keys == [] then 0 else (if keys[0] in m then m[keys[0]].count else 0) + SumCounts(keys[1..], m)
  }

  /** Changing an entry whose key is not listed leaves the sum as it is. */
  lemma {:induction false} SumCountsOutside(keys: seq<string>, m: map<string, VariantEntry>, k: string, v: VariantEntry)
    requires k !in keys
    ensures SumCounts(keys, m[k := v]) == SumCounts(keys, m)
  {
    if keys != [] {
      SumCountsOutside(keys[1..], m, k, v);
    }
  }

  /** Changing the entry of a key listed once changes the sum by the change of its count. */
  lemma {:induction false} SumCountsUpdate(keys: seq<string>, m: map<string, VariantEntry>, k: string, v: VariantEntry)
    requires NoDup(keys) && k in keys && k in m
    ensures SumCounts(keys, m[k := v]) + m[k].count == SumCounts(keys, m) + v.count
  {
    if keys[0] == k {
      assert k !in keys[1..];
      SumCountsOutside(keys[1..], m, k, v);
    } else {
      SumCountsUpdate(keys[1..], m, k, v);
    }
  }

  /** Listing one more key adds its count. */
  lemma {:induction false} SumCountsSnoc(keys: seq<string>, k: string, m: map<string, VariantEntry>)
    ensures SumCounts(keys + [k], m) == SumCounts(keys, m) + (if k in m then m[k].count else 0)
  {
    if keys == [] {
      assert keys + [k] == [k];
    } else {
      assert (keys + [k])[1..] == keys[1..] + [k];
      SumCountsSnoc(keys[1..], k, m);
    }
  }

  /** With every listed count at least 1, the sum is at least the number of keys. */
  lemma {:induction false} SumCountsAtLeast(keys: seq<string>, m: map<string, VariantEntry>)
    requires forall k :: k in keys ==> k in m && m[k].count >= 1
    ensures SumCounts(keys, m) >= |keys|
  {
    if keys != [] {
      SumCountsAtLeast(keys[1..], m);
    }
  }

  /**
   * The invariants of a group between tokens: its variant object is well formed, `totalCount`
   * is the sum of the variant counts, no variant has count 0, and the sentence set is no larger
   * than the number of tokens counted.
   */
  ghost predicate GroupValid(g: ReadingGroup) {
    && g.variants.Valid()
    && g.totalCount == SumCounts(g.variants.inserted, g.variants.entries)
    && (forall sf :: sf in g.variants.entries ==> g.variants.entries[sf].count >= 1)
    && NoDup(g.sentenceIndices)
    && |g.sentenceIndices| <= g.totalCount
  }

  /** The first token of a surface form adds a variant with count 0, which leaves the sum as it is. */
  lemma NewVariantSum(g: ReadingGroup, sf: string, v: VariantEntry)
    requires GroupValid(g) && sf !in g.variants.entries && v.count == 0
    ensures var vs := g.variants.Put(sf, v);
      vs.Valid() && SumCounts(vs.inserted, vs.entries) == g.totalCount
  {
    var vs := g.variants.Put(sf, v);
    SumCountsSnoc(g.variants.inserted, sf, vs.entries);
    SumCountsOutside(g.variants.inserted, g.variants.entries, sf, v);
  }

  /** Counting a token keeps the group's invariants. */
  lemma CountTokenValid(g: ReadingGroup, t: Token, si: nat)
    requires GroupValid(g)
    ensures GroupValid(CountToken(g, t, si))
  {
    var sf := t.surfaceForm;
    var vs := if sf in g.variants.entries then g.variants
              else g.variants.Put(sf, VariantEntry(0, DisplayCategory(t), t.basicForm));
    if sf !in g.variants.entries {
      NewVariantSum(g, sf, VariantEntry(0, DisplayCategory(t), t.basicForm));
    }
    assert vs.Valid() && SumCounts(vs.inserted, vs.entries) == g.totalCount;
    var v := vs.entries[sf];
    SumCountsUpdate(vs.inserted, vs.entries, sf, v.(count := v.count + 1));
  }

  /** Every group the table holds keeps the invariants. */
  lemma {:induction false} GroupAlwaysValid(os: seq<Occurrence>, r: string)
    ensures GroupValid(Group(os, r))
  {
    if os != [] {
      var o := os[|os| - 1];
      GroupAlwaysValid(os[..|os| - 1], r);
      if CountsFor(o, r) {
        CountTokenValid(Group(os[..|os| - 1], r), o.token, o.sentence);
      }
    }
  }

  /** `!(totalCount <= 1 && Object.keys(variants).length <= 1)`: the reading is shown. */
  predicate Significant(g: ReadingGroup) {
    !(g.totalCount <= 1 && |g.variants.Keys()| <= 1)
  }

  /** For a valid group the test comes down to `totalCount >= 2`: two variants already make two tokens. */
  lemma SignificantIff(g: ReadingGroup)
    requires GroupValid(g)
    ensures Significant(g) <==> g.totalCount >= 2
  {
    var keys := g.variants.inserted;
    assert |g.variants.Keys()| == |keys| by {
      assert |multiset(g.variants.Keys())| == |multiset(keys)|;
    }
    SumCountsAtLeast(keys, g.variants.entries);
  }

  predicate IsKeptOccurrence(o: Occurrence) {
    IsKept(o.token)
  }

  /** Dropped tokens change nothing: the table of all tokens is the table of the kept ones. */
  lemma {:induction false} TableIgnoresDropped(os: seq<Occurrence>)
    ensures Table(os) == Table(Filter(os, IsKeptOccurrence))
  {
    if os != [] {
      var prefix, o := os[..|os| - 1], os[|os| - 1];
      TableIgnoresDropped(prefix);
      var kept := Filter(prefix, IsKeptOccurrence);
      assert os == prefix + [o];
      FilterAppend(prefix, [o], IsKeptOccurrence);
      if IsKept(o.token) {
        assert Filter([o], IsKeptOccurrence) == [o] by { FilterCons(o, [], IsKeptOccurrence); }
        var f := kept + [o];
        assert f[..|f| - 1] == kept;
      } else {
        assert Filter([o], IsKeptOccurrence) == [] by { FilterCons(o, [], IsKeptOccurrence); }
        assert kept + [] == kept;
      }
    }
  }

  /** The occurrences of the first `n` sentences come in sentence order, each from a sentence below `n`. */
  lemma {:induction false} OccurrencesOrdered(sentences: seq<Sentence>, tokenize: string -> seq<Token>, n: nat)
    requires n <= |sentences|
    ensures var os := Occurrences(sentences, tokenize, n);
      InSentenceOrder(os) && forall i :: 0 <= i < |os| ==> os[i].sentence < n
  {
    if n > 0 {
      OccurrencesOrdered(sentences, tokenize, n - 1);
      var prev := Occurrences(sentences, tokenize, n - 1);
      var here := Tagged(tokenize(sentences[n - 1].text), n - 1);
      var os := prev + here;
      assert forall i :: 0 <= i < |prev| ==> os[i] == prev[i];
      assert forall i :: |prev| <= i < |os| ==> os[i] == here[i - |prev|];
    }
  }

  /** Every group of the table keeps the invariants and has counted at least one token. */
  ghost predicate TableValid(words: JsObject<ReadingGroup>) {
    && words.Valid()
    && forall r :: r in words.entries ==> GroupValid(words.entries[r]) && words.entries[r].totalCount >= 1
  }

  lemma {:induction false} TableAlwaysValid(os: seq<Occurrence>)
    ensures TableValid(Table(os))
  {
    if os != [] {
      TableAlwaysValid(os[..|os| - 1]);
    }
    forall r | r in Table(os).entries
      ensures GroupValid(Table(os).entries[r]) && Table(os).entries[r].totalCount >= 1
    {
      TableGroup(os, r);
      GroupAlwaysValid(os, r);
      GroupTotal(os, r);
    }
  }

  /** Every occurrence is a token of the sentence it is tagged with. */
  lemma {:induction false} OccurrenceSource(sentences: seq<Sentence>, tokenize: string -> seq<Token>, n: nat, i: nat)
    requires n <= |sentences| && i < |Occurrences(sentences, tokenize, n)|
    ensures var o := Occurrences(sentences, tokenize, n)[i];
      o.sentence < n && o.token in tokenize(sentences[o.sentence].text)
  {
    var prev := Occurrences(sentences, tokenize, n - 1);
    if i < |prev| {
      OccurrenceSource(sentences, tokenize, n - 1, i);
    } else {
      var ts := tokenize(sentences[n - 1].text);
      assert Occurrences(sentences, tokenize, n)[i] == Tagged(ts, n - 1)[i - |prev|];
    }
  }

  /** Every token of every sentence among the first `n` is an occurrence. */
  lemma {:induction false} OccurrenceOf(sentences: seq<Sentence>, tokenize: string -> seq<Token>, n: nat, x: nat, t: Token)
    requires n <= |sentences| && x < n && t in tokenize(sentences[x].text)
    ensures Occurrence(t, x) in Occurrences(sentences, tokenize, n)
  {
    var prev := Occurrences(sentences, tokenize, n - 1);
    var here := Tagged(tokenize(sentences[n - 1].text), n - 1);
    if x < n - 1 {
      OccurrenceOf(sentences, tokenize, n - 1, x, t);
    } else {
      var k :| 0 <= k < |tokenize(sentences[x].text)| && tokenize(sentences[x].text)[k] == t;
      assert here[k] == Occurrence(t, x);
    }
    assert Occurrences(sentences, tokenize, n) == prev + here;
  }

  /** Some token of `ts` survives the filter and has reading `r`. */
  ghost predicate HasKeptReading(ts: seq<Token>, r: string) {
    exists t :: t in ts && IsKept(t) && t.reading == r
  }

  /** The sentence set of a reading the table holds, by the occurrences counted under it. */
  lemma TableIndices(os: seq<Occurrence>, r: string, x: nat)
    requires r in Table(os).entries
    ensures x in Table(os).entries[r].sentenceIndices <==> Mentions(os, r, x)
  {
    TableGroup(os, r);
    GroupIndices(os, r, x);
  }

  lemma TableIndicesIncreasing(os: seq<Occurrence>, r: string)
    requires r in Table(os).entries && InSentenceOrder(os)
    ensures Increasing(Table(os).entries[r].sentenceIndices)
  {
    TableGroup(os, r);
    GroupIndicesIncreasing(os, r);
  }

  lemma OccurrencesInOrder(sentences: seq<Sentence>, tokenize: string -> seq<Token>, os: seq<Occurrence>)
    requires os == Occurrences(sentences, tokenize, |sentences|)
    ensures InSentenceOrder(os)
  {
    OccurrencesOrdered(sentences, tokenize, |sentences|);
  }

  lemma MentionsSentence(sentences: seq<Sentence>, tokenize: string -> seq<Token>, os: seq<Occurrence>, r: string, x: nat)
    requires os == Occurrences(sentences, tokenize, |sentences|)
    ensures Mentions(os, r, x) <==> x < |sentences| && HasKeptReading(tokenize(sentences[x].text), r)
  {
    MentionsIff(sentences, tokenize, r, x);
  }

  /** `sentenceMap[reading]` is strictly ascending, as sentences are visited in index order. */
  lemma SentenceListIncreasing(sentences: seq<Sentence>, tokenize: string -> seq<Token>, os: seq<Occurrence>, r: string)
    requires os == Occurrences(sentences, tokenize, |sentences|)
    requires r in Table(os).entries
    ensures Increasing(Table(os).entries[r].sentenceIndices)
  {
    OccurrencesInOrder(sentences, tokenize, os);
    TableIndicesIncreasing(os, r);
  }

  /** `sentenceMap[reading]` lists exactly the sentences that hold a kept token with the reading. */
  lemma SentenceListMembers(sentences: seq<Sentence>, tokenize: string -> seq<Token>, os: seq<Occurrence>, r: string, x: nat)
    requires os == Occurrences(sentences, tokenize, |sentences|)
    requires r in Table(os).entries
    ensures x in Table(os).entries[r].sentenceIndices <==> x < |sentences| && HasKeptReading(tokenize(sentences[x].text), r)
  {
    TableIndices(os, r, x);
    MentionsSentence(sentences, tokenize, os, r, x);
  }

  /** An occurrence under `r` from sentence `x` is a kept token with reading `r` of sentence `x`. */
  lemma MentionsIff(sentences: seq<Sentence>, tokenize: string -> seq<Token>, r: string, x: nat)
    ensures Mentions(Occurrences(sentences, tokenize, |sentences|), r, x)
        <==> x < |sentences| && HasKeptReading(tokenize(sentences[x].text), r)
  {
    var os := Occurrences(sentences, tokenize, |sentences|);
    if Mentions(os, r, x) {
      var i :| 0 <= i < |os| && CountsFor(os[i], r) && os[i].sentence == x;
      OccurrenceSource(sentences, tokenize, |sentences|, i);
    } else {
      forall t | x < |sentences| && t in tokenize(sentences[x].text) ensures !(IsKept(t) && t.reading == r) {
        OccurrenceOf(sentences, tokenize, |sentences|, x, t);
        var i :| 0 <= i < |os| && os[i] == Occurrence(t, x);
        assert !CountsFor(os[i], r) || os[i].sentence != x;
      }
    }
  }
}
