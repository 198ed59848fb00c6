/**
 * The concordance of the desktop UI (`handleGroupSelect` in src/App.jsx): when a group is
 * selected, each sentence listed for its reading goes to the first variant, in the group's
 * order, whose word the sentence contains; a variant that receives nothing has no key.
 */
module Concordance {
  import opened Strings
  import opened Sequences
  import opened JsObjects
  import opened Segmentation
  import TauriOutput

  /** `sentenceMap[group.reading] || []`: the candidate sentence indices of a reading. */
  function Candidates(sentenceMap: map<string, seq<nat>>, reading: string): (cands: seq<nat>)
    ensures reading in sentenceMap ==> cands == sentenceMap[reading]
    ensures reading !in sentenceMap ==> cands == []
  {
    if reading in sentenceMap then sentenceMap[reading] else []
  }

  /** `sentence && sentence.text.includes(keyword)`: index `i` names a sentence that contains `word`. */
  predicate Matches(sentences: seq<Sentence>, i: nat, word: string) {
    i < |sentences| && Contains(sentences[i].text, word)
  }

  /**
   * The indices the inner loop takes for `word`, scanning `cands` with `used` already taken:
   * one that is neither used nor taken earlier in the scan, and names a sentence containing `word`.
   */
  function Picks(cands: seq<nat>, sentences: seq<Sentence>, word: string, used: set<nat>): (p: seq<nat>)
    ensures Below(p, |sentences|)
    decreases |cands|
  {
    if cands == [] then []
    else
      var p := Picks(cands[..|cands| - 1], sentences, word, used);
      var i := cands[|cands| - 1];
      if i in used || i in p || !Matches(sentences, i, word) then p else p + [i]
  }

  /** The sentences at `indices`, in that order. */
  function At(sentences: seq<Sentence>, indices: seq<nat>): (r: seq<Sentence>)
    requires Below(indices, |sentences|)
    ensures |r| == |indices|
    ensures forall k :: 0 <= k < |indices| ==> indices[k] < |sentences| && r[k] == sentences[indices[k]]
  {
    if indices == [] then []
    else
      assert indices[0] in indices;
      assert Below(indices[1..], |sentences|) by {
        forall i | i in indices[1..] ensures i < |sentences| {
          assert i in indices;
        }
      }
      [sentences[indices[0]]] + At(sentences, indices[1..])
  }

  /** Every index names a sentence. */
  predicate Below(indices: seq<nat>, n: nat) {
    forall i :: i in indices ==> i < n
  }

  lemma AtSnoc(sentences: seq<Sentence>, indices: seq<nat>, i: nat)
    requires Below(indices, |sentences|)
    requires i < |sentences|
    ensures At(sentences, indices + [i]) == At(sentences, indices) + [sentences[i]]
  {
  }

  /** `a` is `b` with some elements left out, the rest in their order. */
  predicate Subsequence<T(==)>(a: seq<T>, b: seq<T>)
    decreases |b|
  {
    a == [] || (b != [] && ((a[|a| - 1] == b[|b| - 1] && Subsequence(a[..|a| - 1], b[..|b| - 1])) || Subsequence(a, b[..|b| - 1])))
  }

  /** Which indices the scan for `word` takes, that it takes each once, and in the candidates' order. */
  lemma {:induction false} PicksFacts(cands: seq<nat>, sentences: seq<Sentence>, word: string, used: set<nat>)
    ensures var p := Picks(cands, sentences, word, used);
      && (forall x :: x in p <==> x in cands && x !in used && Matches(sentences, x, word))
      && NoDup(p)
      && Subsequence(p, cands)
    decreases |cands|
  {
    if cands != [] {
      var init := cands[..|cands| - 1];
      PicksFacts(init, sentences, word, used);
      var p := Picks(init, sentences, word, used);
      var i := cands[|cands| - 1];
      assert cands == init + [i];
      forall x ensures x in cands <==> x in init || x == i {
      }
      if !(i in used || i in p || !Matches(sentences, i, word)) {
        var q := p + [i];
        assert q[..|q| - 1] == p;
        forall a, b | 0 <= a < b < |q| ensures q[a] != q[b] {
          if b == |q| - 1 {
            assert q[a] in p;
          }
        }
      }
    }
  }

  // ---------------------------------------------------------------------------------------
  // The loop over the variants

  /** The state after some variants: the object built, the indices taken, and what each variant took. */
  datatype Pass = Pass(byVariant: JsObject<seq<Sentence>>, used: set<nat>, picks: seq<seq<nat>>)

  /** One turn of the outer loop, for the variant whose word is `word`. */
  function Visit(pass: Pass, cands: seq<nat>, sentences: seq<Sentence>, word: string): Pass {
    var picked := Picks(cands, sentences, word, pass.used);
    var o := pass.byVariant.Put(word, []).Put(word, At(sentences, picked));
    Pass(if |o.entries[word]| == 0 then o.Delete(word) else o, pass.used + (set x | x in picked), pass.picks + [picked])
  }

  function Run(variants: seq<TauriOutput.Variant>, cands: seq<nat>, sentences: seq<Sentence>): Pass
    decreases |variants|
  {
    if variants == [] then Pass(Empty(), {}, [])
    else Visit(Run(variants[..|variants| - 1], cands, sentences), cands, sentences, variants[|variants| - 1].word)
  }

  /** Reference definition: the position of the first variant whose word `text` contains, `|variants|` when none does. */
  function FirstMatch(variants: seq<TauriOutput.Variant>, text: string): (f: nat)
    ensures f <= |variants|
    ensures f < |variants| ==> Contains(text, variants[f].word)
    ensures forall j :: 0 <= j < f ==> !Contains(text, variants[j].word)
    decreases |variants|
  {
    if variants == [] then 0
    else
      var f := FirstMatch(variants[..|variants| - 1], text);
      if f < |variants| - 1 then f
      else if Contains(text, variants[|variants| - 1].word) then |variants| - 1
      else |variants|
  }

  /** Candidate `x` belongs to variant `j`: it names a sentence whose first matching variant is `j`. */
  predicate BelongsTo(variants: seq<TauriOutput.Variant>, cands: seq<nat>, sentences: seq<Sentence>, x: nat, j: nat) {
    x in cands && x < |sentences| && FirstMatch(variants, sentences[x].text) == j
  }

  /**
   * Variant `j` takes exactly the candidates whose first matching variant is `j`; the indices
   * taken are the candidates that match some variant.
   */
  lemma {:induction false} RunAssigns(variants: seq<TauriOutput.Variant>, cands: seq<nat>, sentences: seq<Sentence>)
    ensures var pass := Run(variants, cands, sentences);
      && |pass.picks| == |variants|
      && (forall x :: x in pass.used <==> x in cands && x < |sentences| && FirstMatch(variants, sentences[x].text) < |variants|)
      && (forall j, x :: 0 <= j < |variants| ==> (x in pass.picks[j] <==> BelongsTo(variants, cands, sentences, x, j)))
    decreases |variants|
  {
    if variants != [] {
      var n := |variants| - 1;
      var init := variants[..n];
      var w := variants[n].word;
      RunAssigns(init, cands, sentences);
      var before := Run(init, cands, sentences);
      PicksFacts(cands, sentences, w, before.used);
      var pass := Run(variants, cands, sentences);
      assert pass.picks == before.picks + [Picks(cands, sentences, w, before.used)];
      forall j: nat, x: nat | j < |variants| ensures x in pass.picks[j] <==> BelongsTo(variants, cands, sentences, x, j) {
        if x < |sentences| {
          assert FirstMatch(variants, sentences[x].text) == j <==>
            (if j < n then FirstMatch(init, sentences[x].text) == j
             else FirstMatch(init, sentences[x].text) == n && Contains(sentences[x].text, w));
        }
      }
    }
  }

  /** The words of the variants. */
  function WordSet(variants: seq<TauriOutput.Variant>): set<string> {
    set v | v in variants :: v.word
  }

  /** No two variants share a word. */
  predicate DistinctWords(variants: seq<TauriOutput.Variant>) {
    forall i, j :: 0 <= i < j < |variants| ==> variants[i].word != variants[j].word
  }

  /** What the object holds after the variants `variants` were visited, given what each took. */
  ghost predicate ObjectShape(variants: seq<TauriOutput.Variant>, sentences: seq<Sentence>, pass: Pass) {
    && |pass.picks| == |variants|
    && ObjectKeys(variants, pass)
    && ObjectEntries(variants, sentences, pass)
  }

  /** The object is well formed, and its keys are the words of the variants that took something. */
  ghost predicate ObjectKeys(variants: seq<TauriOutput.Variant>, pass: Pass)
    requires |pass.picks| == |variants|
  {
    && pass.byVariant.Valid()
    && pass.byVariant.entries.Keys <= WordSet(variants)
    && (forall j :: 0 <= j < |variants| ==> (variants[j].word in pass.byVariant.entries <==> pass.picks[j] != []))
  }

  /** A variant that took something holds the sentences it took, in the order it took them. */
  ghost predicate ObjectEntries(variants: seq<TauriOutput.Variant>, sentences: seq<Sentence>, pass: Pass)
    requires |pass.picks| == |variants|
  {
    && (forall j :: 0 <= j < |variants| ==> Below(pass.picks[j], |sentences|))
    && (forall j :: 0 <= j < |variants| && pass.picks[j] != [] ==>
          variants[j].word in pass.byVariant.entries &&
          pass.byVariant.entries[variants[j].word] == At(sentences, pass.picks[j]))
  }

  /** The object after visiting `w`: unchanged but for `w`, which holds what `w` took, if anything. */
  lemma VisitObject(before: Pass, cands: seq<nat>, sentences: seq<Sentence>, w: string)
    requires before.byVariant.Valid() && w !in before.byVariant.entries
    ensures var picked := Picks(cands, sentences, w, before.used);
      var after := Visit(before, cands, sentences, w).byVariant;
      && after.Valid()
      && after.entries.Keys == before.byVariant.entries.Keys + (if picked == [] then {} else {w})
      && (forall k :: k in before.byVariant.entries ==> after.entries[k] == before.byVariant.entries[k])
      && (picked != [] ==> after.entries[w] == At(sentences, picked))
  {
    var picked := Picks(cands, sentences, w, before.used);
    var o := before.byVariant.Put(w, []).Put(w, At(sentences, picked));
    if picked == [] {
      assert Visit(before, cands, sentences, w).byVariant.entries == before.byVariant.entries;
    }
  }

  /** The variants other than the last are those of `init`, none with the last one's word. */
  lemma SnocWords(init: seq<TauriOutput.Variant>, v: TauriOutput.Variant)
    requires v.word !in WordSet(init)
    ensures WordSet(init + [v]) == WordSet(init) + {v.word}
    ensures forall j :: 0 <= j < |init| ==> (init + [v])[j] == init[j] && init[j].word != v.word
  {
    forall j | 0 <= j < |init| ensures init[j].word != v.word {
      assert init[j] in init;
    }
  }

  /** Visiting a variant whose word no earlier variant has extends the shape. */
  lemma VisitShape(init: seq<TauriOutput.Variant>, v: TauriOutput.Variant, cands: seq<nat>, sentences: seq<Sentence>, before: Pass)
    requires ObjectShape(init, sentences, before)
    requires v.word !in WordSet(init)
    ensures ObjectShape(init + [v], sentences, Visit(before, cands, sentences, v.word))
  {
    VisitKeys(init, v, cands, sentences, before);
    VisitEntries(init, v, cands, sentences, before);
  }

  lemma VisitKeys(init: seq<TauriOutput.Variant>, v: TauriOutput.Variant, cands: seq<nat>, sentences: seq<Sentence>, before: Pass)
    requires |before.picks| == |init| && ObjectKeys(init, before)
    requires v.word !in WordSet(init)
    ensures |Visit(before, cands, sentences, v.word).picks| == |init + [v]|
    ensures ObjectKeys(init + [v], Visit(before, cands, sentences, v.word))
  {
    var w := v.word;
    var after := Visit(before, cands, sentences, w);
    assert after.picks == before.picks + [Picks(cands, sentences, w, before.used)];
    SnocWords(init, v);
    VisitObject(before, cands, sentences, w);
  }

  lemma VisitEntries(init: seq<TauriOutput.Variant>, v: TauriOutput.Variant, cands: seq<nat>, sentences: seq<Sentence>, before: Pass)
    requires |before.picks| == |init| && ObjectEntries(init, sentences, before)
    requires before.byVariant.Valid() && v.word !in before.byVariant.entries
    requires v.word !in WordSet(init)
    ensures |Visit(before, cands, sentences, v.word).picks| == |init + [v]|
    ensures ObjectEntries(init + [v], sentences, Visit(before, cands, sentences, v.word))
  {
    var w := v.word;
    var after := Visit(before, cands, sentences, w);
    assert after.picks == before.picks + [Picks(cands, sentences, w, before.used)];
    SnocWords(init, v);
    VisitObject(before, cands, sentences, w);
  }

  /** With distinct words, the last variant's word is not among the others', which are distinct too. */
  lemma LastWordFresh(variants: seq<TauriOutput.Variant>)
    requires variants != [] && DistinctWords(variants)
    ensures var n := |variants| - 1;
      DistinctWords(variants[..n]) && variants[n].word !in WordSet(variants[..n]) && variants[..n] + [variants[n]] == variants
  {
  }

  /**
   * With distinct variant words (as every group the command returns has), the object has a key
   * for exactly the variants that took something, holding the sentences they took in order,
   * and no other key.
   */
  lemma {:induction false} RunObject(variants: seq<TauriOutput.Variant>, cands: seq<nat>, sentences: seq<Sentence>)
    requires DistinctWords(variants)
    ensures ObjectShape(variants, sentences, Run(variants, cands, sentences))
    decreases |variants|
  {
    if variants != [] {
      var n := |variants| - 1;
      var init := variants[..n];
      LastWordFresh(variants);
      RunObject(init, cands, sentences);
      VisitShape(init, variants[n], cands, sentences, Run(init, cands, sentences));
    }
  }

  // ---------------------------------------------------------------------------------------
  // The handler

  /** The body of `handleGroupSelect` after `setSelectedGroup`: the object `sentencesByVariant`. */
  method SentencesByVariant(group: TauriOutput.WordGroup, sentenceMap: map<string, seq<nat>>, allSentences: seq<Sentence>)
    returns (sentencesByVariant: JsObject<seq<Sentence>>)
    ensures sentencesByVariant == Run(group.variants, Candidates(sentenceMap, group.reading), allSentences).byVariant
  {
    sentencesByVariant := Empty();
    var usedSentenceIndices: set<nat> := {};
    ghost var picks: seq<seq<nat>> := [];
    var v := 0;
    while v < |group.variants|
      invariant v <= |group.variants|
      invariant Pass(sentencesByVariant, usedSentenceIndices, picks)
             == Run(group.variants[..v], Candidates(sentenceMap, group.reading), allSentences)
    {
      assert group.variants[..v + 1][..v] == group.variants[..v];
      var keyword := group.variants[v].word;
      ghost var before := Pass(sentencesByVariant, usedSentenceIndices, picks);
      sentencesByVariant, usedSentenceIndices := CollectFor(keyword, sentenceMap, group.reading, allSentences,
                                                            sentencesByVariant, usedSentenceIndices);
      picks := picks + [Picks(Candidates(sentenceMap, group.reading), allSentences, keyword, before.used)];
      v := v + 1;
    }
    assert group.variants[..v] == group.variants;
  }

  /** One turn of the outer loop: the inner loop over the candidates, then the `delete` of an empty list. */
  method CollectFor(keyword: string, sentenceMap: map<string, seq<nat>>, reading: string, allSentences: seq<Sentence>,
                    byVariant: JsObject<seq<Sentence>>, used: set<nat>)
    returns (after: JsObject<seq<Sentence>>, usedAfter: set<nat>)
    ensures var pass := Visit(Pass(byVariant, used, []), Candidates(sentenceMap, reading), allSentences, keyword);
      after == pass.byVariant && usedAfter == pass.used
  {
    var cands := Candidates(sentenceMap, reading);
    var base := byVariant.Put(keyword, []);
    after := base;
    usedAfter := used;
    ghost var picked: seq<nat> := [];
    base.PutTwice(keyword, [], []);
    var j := 0;
    while j < |cands|
      invariant j <= |cands|
      invariant picked == Picks(cands[..j], allSentences, keyword, used)
      invariant usedAfter == used + (set x | x in picked)
      invariant after == base.Put(keyword, At(allSentences, picked))
    {
      after, usedAfter, picked := ScanOne(keyword, allSentences, cands, j, base, used, after, usedAfter, picked);
      j := j + 1;
    }
    assert cands[..j] == cands;
    if |after.entries[keyword]| == 0 {
      after := after.Delete(keyword);
    }
  }

  /** The body of the inner loop, for the candidate at position `j`. */
  method ScanOne(keyword: string, allSentences: seq<Sentence>, cands: seq<nat>, j: nat, base: JsObject<seq<Sentence>>,
                 used: set<nat>, after: JsObject<seq<Sentence>>, usedAfter: set<nat>, ghost picked: seq<nat>)
    returns (after': JsObject<seq<Sentence>>, usedAfter': set<nat>, ghost picked': seq<nat>)
    requires j < |cands|
    requires picked == Picks(cands[..j], allSentences, keyword, used)
    requires usedAfter == used + (set x | x in picked)
    requires after == base.Put(keyword, At(allSentences, picked))
    ensures picked' == Picks(cands[..j + 1], allSentences, keyword, used)
    ensures usedAfter' == used + (set x | x in picked')
    ensures after' == base.Put(keyword, At(allSentences, picked'))
  {
    PicksStep(cands, j, allSentences, keyword, used);
    after', usedAfter', picked' := after, usedAfter, picked;
    var index := cands[j];
    assert index in usedAfter <==> index in used || index in picked;
    if index !in usedAfter {
      if index < |allSentences| && Contains(allSentences[index].text, keyword) {
        PushStep(base, keyword, allSentences, picked, index);
        after' := after.Put(keyword, after.entries[keyword] + [allSentences[index]]);
        usedAfter' := usedAfter + {index};
        picked' := picked + [index];
      }
    }
  }

  /** One more candidate scanned: taken when unused, untaken so far and matching. */
  lemma PicksStep(cands: seq<nat>, j: nat, sentences: seq<Sentence>, word: string, used: set<nat>)
    requires j < |cands|
    ensures var p := Picks(cands[..j], sentences, word, used);
      var i := cands[j];
      Picks(cands[..j + 1], sentences, word, used) == if i in used || i in p || !Matches(sentences, i, word) then p else p + [i]
  {
    assert cands[..j + 1][..j] == cands[..j];
  }

  /** Pushing the sentence at `i` onto the list for `word`. */
  lemma PushStep(base: JsObject<seq<Sentence>>, word: string, sentences: seq<Sentence>, picked: seq<nat>, i: nat)
    requires Below(picked, |sentences|) && i < |sentences|
    ensures Below(picked + [i], |sentences|)
    ensures var o := base.Put(word, At(sentences, picked));
      o.Put(word, o.entries[word] + [sentences[i]]) == base.Put(word, At(sentences, picked + [i]))
  {
    base.PutTwice(word, At(sentences, picked), At(sentences, picked) + [sentences[i]]);
    AtSnoc(sentences, picked, i);
  }

  /** The part of the `App` component's state the handler reads and writes. */
  class AppState {
    var sentenceMap: map<string, seq<nat>>
    var allSentences: seq<Sentence>
    var selectedGroup: Option<TauriOutput.WordGroup>
    var groupedSentences: Option<JsObject<seq<Sentence>>>

    /** The initial `useState` values. */
    constructor ()
      ensures sentenceMap == map[] && allSentences == []
      ensures selectedGroup == None && groupedSentences == None
    {
      sentenceMap := map[];
      allSentences := [];
      selectedGroup := None;
      groupedSentences := None;
    }

    /** `handleGroupSelect(group)`: selects the group and sets its concordance. */
    method HandleGroupSelect(group: TauriOutput.WordGroup)
      modifies this
      ensures selectedGroup == Some(group)
      ensures groupedSentences == Some(Run(group.variants, Candidates(sentenceMap, group.reading), allSentences).byVariant)
      ensures sentenceMap == old(sentenceMap) && allSentences == old(allSentences)
    {
      selectedGroup := Some(group);
      var byVariant := SentencesByVariant(group, sentenceMap, allSentences);
      groupedSentences := Some(byVariant);
    }
  }
}
