/**
 * The word-list pane (src/components/LeftPane.jsx): its category order, the memoised view of
 * the grouped tokens (filtered by variation, sorted by frequency or reading), and the map of
 * expanded categories.
 */
module LeftPane {
  import opened Sequences
  import opened JsObjects
  import TauriOutput

  /** `POS_ORDER`: the categories shown first, in this order. */
  const PosOrder: seq<string> := ["名詞", "動詞", "形容詞", "形容動詞", "副詞", "連体詞", "接続詞", "感動詞", "助詞", "助動詞"]

  /** `s.indexOf(k)`: the first position of `k` in `s`, or -1. */
  function IndexIn(k: string, s: seq<string>): (i: int)
    ensures -1 <= i < |s|
    ensures i >= 0 ==> s[i] == k && forall j :: 0 <= j < i ==> s[j] != k
    ensures i == -1 <==> k !in s
  {
    if s == [] then -1
    else if s[0] == k then 0
    else
      var i := IndexIn(k, s[1..]);
      if i == -1 then -1 else i + 1
  }

  /** The comparator handed to `sort` for the category keys. */
  function PosCompare(a: string, b: string): int {
    var indexA := IndexIn(a, PosOrder);
    var indexB := IndexIn(b, PosOrder);
    if indexA == -1 then 1
    else if indexB == -1 then -1
    else indexA - indexB
  }

  /** A category's place: its position in `POS_ORDER`, every unlisted category after all of them. */
  function Rank(k: string): nat {
    var i := IndexIn(k, PosOrder);
    if i == -1 then |PosOrder| else i
  }

  function ByRank(): (string, string) -> bool {
    (a: string, b: string) => Rank(a) <= Rank(b)
  }

  lemma PosOrderDistinct()
    ensures NoDup(PosOrder)
  {
  }

  /**
   * Whenever one of the two categories is listed, the comparator orders them as their ranks do,
   * and calls them equal only when they are the same category.
   */
  lemma PosCompareAgrees(a: string, b: string)
    requires a in PosOrder || b in PosOrder
    ensures PosCompare(a, b) < 0 <==> Rank(a) < Rank(b)
    ensures PosCompare(a, b) > 0 <==> Rank(a) > Rank(b)
    ensures PosCompare(a, b) == 0 <==> a == b
  {
    PosOrderDistinct();
  }

  /** Two unlisted categories each compare greater than the other: the comparator leaves their order to the engine. */
  lemma PosCompareUnlisted(a: string, b: string)
    requires a !in PosOrder && b !in PosOrder
    ensures PosCompare(a, b) == 1 && PosCompare(b, a) == 1
  {
  }

  /** The category keys in display order; unlisted categories keep their relative order. */
  function CategoryOrder(keys: seq<string>): seq<string> {
    SortBy(keys, ByRank())
  }

  /**
   * In display order, the listed categories come in `POS_ORDER` order and every unlisted
   * category comes after all listed ones.
   */
  lemma CategoryOrderRanks(keys: seq<string>)
    ensures var order := CategoryOrder(keys);
      forall i, j :: 0 <= i < j < |order| ==>
        && (order[j] in PosOrder ==> order[i] in PosOrder && IndexIn(order[i], PosOrder) <= IndexIn(order[j], PosOrder))
        && Rank(order[i]) <= Rank(order[j])
  {
    var order := CategoryOrder(keys);
    var le := ByRank();
    SortBySorted(keys, le);
    forall i, j | 0 <= i < j < |order| ensures le(order[i], order[j]) {
      SortedChain(order, le, i, j);
    }
  }

  /** In a sequence sorted by a transitive order, every element is in order with every later one. */
  lemma {:induction false} SortedChain<T>(s: seq<T>, le: (T, T) -> bool, i: nat, j: nat)
    requires Sorted(s, le) && i <= j < |s|
    requires forall a, b, c :: le(a, b) && le(b, c) ==> le(a, c)
    requires forall a :: le(a, a)
    ensures le(s[i], s[j])
    decreases j - i
  {
    if i < j {
      SortedChain(s, le, i + 1, j);
      assert le(s[i], s[i + 1]);
    }
  }

  // ---------------------------------------------------------------------------------------
  // The memoised view

  /** The values of `sortOrder`; any other value sorts as `JPN_ORDER` does. */
  datatype SortOrder = FreqDesc | FreqAsc | JpnOrder

  /** The comparator of each sort order, as "may stay in front of". */
  function GroupLe(order: SortOrder, collate: (string, string) -> bool): (TauriOutput.WordGroup, TauriOutput.WordGroup) -> bool {
    match order
    case FreqDesc => (a: TauriOutput.WordGroup, b: TauriOutput.WordGroup) => b.totalCount <= a.totalCount
    case FreqAsc => (a: TauriOutput.WordGroup, b: TauriOutput.WordGroup) => a.totalCount <= b.totalCount
    case JpnOrder => (a: TauriOutput.WordGroup, b: TauriOutput.WordGroup) => collate(a.reading, b.reading)
  }

  function HasVariation(): TauriOutput.WordGroup -> bool {
    (g: TauriOutput.WordGroup) => |g.variants| > 1
  }

  /** The groups of a category that are shown: all of them, or those with more than one variant. */
  function Shown(groups: seq<TauriOutput.WordGroup>, showAllWords: bool): seq<TauriOutput.WordGroup> {
    if showAllWords then groups else Filter(groups, HasVariation())
  }

  /** A category stays in the view when some of its groups are shown. */
  function KeepCategory(grouped: JsObject<seq<TauriOutput.WordGroup>>, showAllWords: bool): string -> bool {
    (k: string) => k in grouped.entries && Shown(grouped.entries[k], showAllWords) != []
  }

  /**
   * `sortedAndFilteredTokens`: null for null; otherwise the categories in display order, each
   * with its shown groups sorted by the sort order, and no category whose shown list is empty.
   */
  method SortedAndFiltered(groupedTokens: Option<JsObject<seq<TauriOutput.WordGroup>>>, showAllWords: bool,
                           sortOrder: SortOrder, collate: (string, string) -> bool)
    returns (view: Option<JsObject<seq<TauriOutput.WordGroup>>>)
    requires groupedTokens.Some? ==> groupedTokens.value.Valid()
    ensures view.None? <==> groupedTokens.None?
    ensures groupedTokens.Some? ==>
      var grouped := groupedTokens.value;
      && view.value.Valid()
      && view.value.inserted == Filter(CategoryOrder(grouped.Keys()), KeepCategory(grouped, showAllWords))
      && (forall pos :: pos in view.value.entries ==>
            pos in grouped.entries &&
            view.value.entries[pos] == SortBy(Shown(grouped.entries[pos], showAllWords), GroupLe(sortOrder, collate)))
  {
    if groupedTokens.None? {
      return None;
    }
    var grouped := groupedTokens.value;
    var sortedPosKeys := SortBy(grouped.Keys(), ByRank());
    KeysInOrder(grouped, sortedPosKeys);
    var result := BuildView(grouped, sortedPosKeys, showAllWords, sortOrder, collate);
    view := Some(result);
  }

  /** The loop over the sorted keys, filling `result`. */
  method BuildView(grouped: JsObject<seq<TauriOutput.WordGroup>>, sortedPosKeys: seq<string>, showAllWords: bool,
                   sortOrder: SortOrder, collate: (string, string) -> bool)
    returns (result: JsObject<seq<TauriOutput.WordGroup>>)
    requires NoDup(sortedPosKeys) && forall k :: k in sortedPosKeys ==> k in grouped.entries
    ensures result.Valid()
    ensures result.inserted == Filter(sortedPosKeys, KeepCategory(grouped, showAllWords))
    ensures forall pos :: pos in result.entries ==>
      pos in grouped.entries &&
      result.entries[pos] == SortBy(Shown(grouped.entries[pos], showAllWords), GroupLe(sortOrder, collate))
  {
    result := Empty();
    var i := 0;
    while i < |sortedPosKeys|
      invariant i <= |sortedPosKeys|
      invariant result.Valid()
      invariant result.inserted == Filter(sortedPosKeys[..i], KeepCategory(grouped, showAllWords))
      invariant forall pos :: pos in result.entries ==>
        pos in grouped.entries &&
        result.entries[pos] == SortBy(Shown(grouped.entries[pos], showAllWords), GroupLe(sortOrder, collate))
    {
      result := ViewCategory(grouped, sortedPosKeys, i, showAllWords, sortOrder, collate, result);
      i := i + 1;
    }
    assert sortedPosKeys[..i] == sortedPosKeys;
  }

  /** The body of the loop over the sorted keys: filter, copy and sort one category. */
  method ViewCategory(grouped: JsObject<seq<TauriOutput.WordGroup>>, sortedPosKeys: seq<string>, i: nat, showAllWords: bool,
                      sortOrder: SortOrder, collate: (string, string) -> bool, result: JsObject<seq<TauriOutput.WordGroup>>)
    returns (result': JsObject<seq<TauriOutput.WordGroup>>)
    requires i < |sortedPosKeys| && NoDup(sortedPosKeys) && sortedPosKeys[i] in grouped.entries
    requires result.Valid() && result.inserted == Filter(sortedPosKeys[..i], KeepCategory(grouped, showAllWords))
    requires forall pos :: pos in result.entries ==>
      pos in grouped.entries &&
      result.entries[pos] == SortBy(Shown(grouped.entries[pos], showAllWords), GroupLe(sortOrder, collate))
    ensures result'.Valid() && result'.inserted == Filter(sortedPosKeys[..i + 1], KeepCategory(grouped, showAllWords))
    ensures forall pos :: pos in result'.entries ==>
      pos in grouped.entries &&
      result'.entries[pos] == SortBy(Shown(grouped.entries[pos], showAllWords), GroupLe(sortOrder, collate))
  {
    var pos := sortedPosKeys[i];
    ViewStep(sortedPosKeys, i, KeepCategory(grouped, showAllWords), result);
    var filtered := if showAllWords then grouped.entries[pos] else Filter(grouped.entries[pos], HasVariation());
    result' := result;
    if |filtered| != 0 {
      var sorted := SortBy(filtered, GroupLe(sortOrder, collate));
      result' := result.Put(pos, sorted);
    }
  }

  /** The sorted keys are the object's keys, each once. */
  lemma KeysInOrder(grouped: JsObject<seq<TauriOutput.WordGroup>>, sortedPosKeys: seq<string>)
    requires grouped.Valid() && sortedPosKeys == SortBy(grouped.Keys(), ByRank())
    ensures NoDup(sortedPosKeys)
    ensures forall k :: k in sortedPosKeys ==> k in grouped.entries
  {
    grouped.KeysFacts();
    assert |sortedPosKeys| == |multiset(sortedPosKeys)|;
    PermutationNoDup(grouped.Keys(), sortedPosKeys);
    forall k | k in sortedPosKeys ensures k in grouped.entries {
      assert k in multiset(sortedPosKeys);
      assert k in multiset(grouped.Keys());
    }
  }

  /** One more key of the loop: the filter of the longer prefix, and the key not yet in the view. */
  lemma ViewStep(keys: seq<string>, i: nat, keep: string -> bool, result: JsObject<seq<TauriOutput.WordGroup>>)
    requires i < |keys| && NoDup(keys) && result.Valid() && result.inserted == Filter(keys[..i], keep)
    ensures Filter(keys[..i + 1], keep) == Filter(keys[..i], keep) + (if keep(keys[i]) then [keys[i]] else [])
    ensures keys[i] !in result.entries
  {
    assert keys[..i + 1] == keys[..i] + [keys[i]];
    FilterAppend(keys[..i], [keys[i]], keep);
    assert Filter([keys[i]], keep) == (if keep(keys[i]) then [keys[i]] else []) by {
      FilterCons(keys[i], [], keep);
    }
    FilterIn(keys[..i], keep, keys[i]);
  }

  /** A category is in the view exactly when it has a group to show. */
  lemma ViewHasCategory(grouped: JsObject<seq<TauriOutput.WordGroup>>, showAllWords: bool, view: JsObject<seq<TauriOutput.WordGroup>>)
    requires grouped.Valid() && view.Valid()
    requires view.inserted == Filter(CategoryOrder(grouped.Keys()), KeepCategory(grouped, showAllWords))
    ensures forall pos :: pos in view.entries <==> pos in grouped.entries && Shown(grouped.entries[pos], showAllWords) != []
  {
    grouped.KeysFacts();
    var order := CategoryOrder(grouped.Keys());
    forall pos ensures pos in view.entries <==> pos in grouped.entries && Shown(grouped.entries[pos], showAllWords) != [] {
      FilterIn(order, KeepCategory(grouped, showAllWords), pos);
      assert pos in order <==> pos in multiset(order);
      assert pos in grouped.Keys() <==> pos in multiset(grouped.Keys());
    }
  }

  /** `showAllWords` false: only groups with more than one variant are shown; true: every group is. */
  lemma ShownGroups(groups: seq<TauriOutput.WordGroup>, showAllWords: bool, g: TauriOutput.WordGroup)
    ensures g in Shown(groups, showAllWords) <==> g in groups && (showAllWords || |g.variants| > 1)
  {
    if !showAllWords {
      FilterIn(groups, HasVariation(), g);
    }
  }

  /**
   * A category's list in the view is a permutation of its shown groups, ordered by the sort
   * order: counts non-increasing, non-decreasing, or readings in collation order.
   */
  lemma SortedGroups(shown: seq<TauriOutput.WordGroup>, sortOrder: SortOrder, collate: (string, string) -> bool)
    requires sortOrder == JpnOrder ==> forall a, b :: collate(a, b) || collate(b, a)
    ensures var sorted := SortBy(shown, GroupLe(sortOrder, collate));
      && multiset(sorted) == multiset(shown)
      && (sortOrder == FreqDesc ==> forall i :: 0 <= i < |sorted| - 1 ==> sorted[i].totalCount >= sorted[i + 1].totalCount)
      && (sortOrder == FreqAsc ==> forall i :: 0 <= i < |sorted| - 1 ==> sorted[i].totalCount <= sorted[i + 1].totalCount)
      && (sortOrder == JpnOrder ==> forall i :: 0 <= i < |sorted| - 1 ==> collate(sorted[i].reading, sorted[i + 1].reading))
  {
    var le := GroupLe(sortOrder, collate);
    forall a, b | a in shown && b in shown ensures le(a, b) || le(b, a) {
      if sortOrder == JpnOrder {
        assert collate(a.reading, b.reading) || collate(b.reading, a.reading);
      }
    }
    SortBySorted(shown, le);
  }

  // ---------------------------------------------------------------------------------------
  // Expanded categories

  /** `{ ...prev }`: a fresh object with the own keys of `prev`, in enumeration order. */
  function Spread(prev: JsObject<bool>): (copy: JsObject<bool>)
    ensures copy.entries == prev.entries
  {
    JsObject(prev.Keys(), prev.entries)
  }

  /** The copy of a well-formed object is well formed. */
  lemma SpreadValid(prev: JsObject<bool>)
    requires prev.Valid()
    ensures Spread(prev).Valid()
  {
    prev.KeysFacts();
  }

  /** `{ ...prev, [pos]: !prev[pos] }`; a missing key reads as `undefined`, whose negation is `true`. */
  function Toggled(prev: JsObject<bool>, pos: string): JsObject<bool> {
    Spread(prev).Put(pos, !(pos in prev.entries && prev.entries[pos]))
  }

  /** Toggling flips the flag of `pos` and leaves every other key as it was. */
  lemma ToggledFacts(prev: JsObject<bool>, pos: string)
    requires prev.Valid()
    ensures var next := Toggled(prev, pos);
      && next.Valid()
      && pos in next.entries
      && (pos in prev.entries ==> next.entries[pos] == !prev.entries[pos])
      && (pos !in prev.entries ==> next.entries[pos])
      && (forall k :: k != pos ==> (k in next.entries <==> k in prev.entries))
      && (forall k :: k != pos && k in prev.entries ==> next.entries[k] == prev.entries[k])
  {
    SpreadValid(prev);
  }

  /** Toggling a category twice restores its flag, and so the whole map; an absent category ends up collapsed. */
  lemma ToggleTwice(prev: JsObject<bool>, pos: string)
    ensures pos in prev.entries ==> Toggled(Toggled(prev, pos), pos).entries == prev.entries
    ensures pos !in prev.entries ==> Toggled(Toggled(prev, pos), pos).entries == prev.entries[pos := false]
  {
    ToggledEntries(prev, pos);
    ToggledEntries(Toggled(prev, pos), pos);
    FlipTwice(prev.entries, pos);
  }

  /** The flag map after a toggle of `pos`. */
  function Flip(e: map<string, bool>, pos: string): map<string, bool> {
    e[pos := !(pos in e && e[pos])]
  }

  lemma FlipTwice(e: map<string, bool>, pos: string)
    ensures pos in e ==> Flip(Flip(e, pos), pos) == e
    ensures pos !in e ==> Flip(Flip(e, pos), pos) == e[pos := false]
  {
    if pos in e {
      assert Flip(Flip(e, pos), pos) == e[pos := e[pos]];
    }
  }

  lemma ToggledEntries(prev: JsObject<bool>, pos: string)
    ensures Toggled(prev, pos).entries == Flip(prev.entries, pos)
  {
  }

  /** The `reduce` of the effect: every key of `groupedTokens` mapped to `true`, in key order. */
  method InitialExpansion(keys: seq<string>) returns (acc: JsObject<bool>)
    ensures acc.Valid()
    ensures forall k :: k in acc.entries <==> k in keys
    ensures forall k :: k in acc.entries ==> acc.entries[k]
    ensures NoDup(keys) ==> acc.inserted == keys
  {
    acc := Empty();
    var i := 0;
    while i < |keys|
      invariant i <= |keys|
      invariant acc.Valid()
      invariant forall k :: k in acc.entries <==> k in keys[..i]
      invariant forall k :: k in acc.entries ==> acc.entries[k]
      invariant NoDup(keys) ==> acc.inserted == keys[..i]
    {
      assert keys[..i + 1] == keys[..i] + [keys[i]];
      if NoDup(keys) {
        assert keys[i] !in keys[..i];
      }
      acc := acc.Put(keys[i], true);
      i := i + 1;
    }
    assert keys[..i] == keys;
  }

  /** The pane's own state. */
  class PaneState {
    var expandedPos: JsObject<bool>
    var showAllWords: bool
    var sortOrder: SortOrder

    /** The initial `useState` values. */
    constructor ()
      ensures expandedPos == Empty() && !showAllWords && sortOrder == JpnOrder
    {
      expandedPos := Empty();
      showAllWords := false;
      sortOrder := JpnOrder;
    }

    /** The effect on a new `groupedTokens`: expand every category; nothing happens for null. */
    method OnGroupedTokens(groupedTokens: Option<JsObject<seq<TauriOutput.WordGroup>>>)
      modifies this
      ensures groupedTokens.None? ==> expandedPos == old(expandedPos)
      ensures groupedTokens.Some? ==>
        && expandedPos.Valid()
        && (forall k :: k in expandedPos.entries <==> k in groupedTokens.value.Keys())
        && (forall k :: k in expandedPos.entries ==> expandedPos.entries[k])
      ensures showAllWords == old(showAllWords) && sortOrder == old(sortOrder)
    {
      if groupedTokens.Some? {
        expandedPos := InitialExpansion(groupedTokens.value.Keys());
      }
    }

    /** `togglePosExpansion(pos)`. */
    method TogglePosExpansion(pos: string)
      modifies this
      ensures expandedPos == Toggled(old(expandedPos), pos)
      ensures showAllWords == old(showAllWords) && sortOrder == old(sortOrder)
    {
      expandedPos := Toggled(expandedPos, pos);
    }
  }
}
