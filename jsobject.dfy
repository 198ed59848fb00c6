/**
 * Plain JavaScript objects used as string-keyed dictionaries.
 *
 * ECMAScript enumerates an ordinary object's own string keys (`Object.keys`, `Object.entries`,
 * `for ... in`) in a fixed order: first the keys that are array indices, by ascending numeric
 * value, then every other key in the order it was first added. A value remembers that insertion
 * order next to its entries; assigning to an existing key keeps its place, `delete` removes it.
 */
module JsObjects {
  import opened Sequences

  predicate IsDigit(c: char) {
    '0' <= c <= '9'
  }

  predicate AllDigits(s: string) {
    forall i :: 0 <= i < |s| ==> IsDigit(s[i])
  }

  /** The number a string of decimal digits denotes. */
  function DigitsValue(s: string): nat
    requires AllDigits(s)
  {
    if s == [] then 0 else 10 * DigitsValue(s[..|s| - 1]) + (s[|s| - 1] as int - '0' as int)
  }

  /** An array index: the canonical decimal form of an integer below 2^32 - 1. */
  predicate IsArrayIndex(k: string) {
    && |k| >= 1
    && AllDigits(k)
    && (k[0] != '0' || |k| == 1)
    && DigitsValue(k) < 0xFFFF_FFFF
  }

  predicate IsOtherKey(k: string) {
    !IsArrayIndex(k)
  }

  /** The numeric value of an array-index key (0 for any other key). */
  function IndexValue(k: string): nat {
    if AllDigits(k) then DigitsValue(k) else 0
  }

  predicate IndexLe(a: string, b: string) {
    IndexValue(a) <= IndexValue(b)
  }

  /** The enumeration order of the own keys of an object whose keys were first added in the order `inserted`. */
  function PropertyOrder(inserted: seq<string>): (keys: seq<string>)
    ensures multiset(keys) == multiset(inserted)
  {
    FilterPartition(inserted, IsArrayIndex, IsOtherKey);
    SortBy(Filter(inserted, IsArrayIndex), IndexLe) + Filter(inserted, IsOtherKey)
  }

  lemma {:induction false} FilterNone<T>(s: seq<T>, p: T -> bool)
    requires forall x :: x in s ==> !p(x)
    ensures Filter(s, p) == []
  {
    if s != [] {
      FilterNone(s[1..], p);
    }
  }

  lemma {:induction false} FilterAll<T>(s: seq<T>, p: T -> bool)
    requires forall x :: x in s ==> p(x)
    ensures Filter(s, p) == s
  {
    if s != [] {
      FilterAll(s[1..], p);
      assert s == [s[0]] + s[1..];
    }
  }

  /**
   * Keys that are not array indices are enumerated in insertion order, after all array
   * indices, which come in ascending numeric order.
   */
  lemma PropertyOrderShape(inserted: seq<string>)
    ensures var keys := PropertyOrder(inserted);
      var n := |Filter(inserted, IsArrayIndex)|;
      && n <= |keys|
      && (forall i :: 0 <= i < n ==> IsArrayIndex(keys[i]))
      && (forall i :: 0 <= i < n - 1 ==> IndexValue(keys[i]) <= IndexValue(keys[i + 1]))
      && keys[n..] == Filter(inserted, IsOtherKey)
  {
    var idx := Filter(inserted, IsArrayIndex);
    var sorted := SortBy(idx, IndexLe);
    assert |sorted| == |idx| by { assert |multiset(sorted)| == |multiset(idx)|; }
    SortBySorted(idx, IndexLe);
    forall i | 0 <= i < |sorted| ensures IsArrayIndex(sorted[i]) {
      assert sorted[i] in multiset(idx);
    }
  }

  /** When no key is an array index, enumeration order is insertion order. */
  lemma {:induction false} PropertyOrderNoIndices(inserted: seq<string>)
    requires forall k :: k in inserted ==> !IsArrayIndex(k)
    ensures PropertyOrder(inserted) == inserted
  {
    FilterNone(inserted, IsArrayIndex);
    FilterAll(inserted, IsOtherKey);
  }

  /** An object value: its keys in the order they were first added, and its entries. */
  datatype JsObject<V> = JsObject(inserted: seq<string>, entries: map<string, V>) {

    /** Every entry is listed exactly once in the insertion record. */
    ghost predicate Valid() {
      && NoDup(inserted)
      && (forall k :: k in inserted <==> k in entries)
    }

    /** `Object.keys(o)`. */
    function Keys(): (keys: seq<string>)
      ensures multiset(keys) == multiset(inserted)
    {
      PropertyOrder(inserted)
    }

    /** The keys of a valid object are its entries' keys, each listed once. */
    lemma KeysFacts()
      requires Valid()
      ensures |Keys()| == |inserted|
      ensures NoDup(Keys())
      ensures forall k :: k in Keys() <==> k in entries
    {
      var keys := Keys();
      assert |multiset(keys)| == |multiset(inserted)|;
      PermutationNoDup(inserted, keys);
      forall k ensures k in keys <==> k in entries {
        assert k in keys <==> k in multiset(keys);
        assert k in inserted <==> k in multiset(inserted);
      }
    }

    /** `o[k] = v`: a new key goes to the end of the insertion order, an existing one keeps its place. */
    function Put(k: string, v: V): (o: JsObject<V>)
      ensures o.entries == entries[k := v]
      ensures Valid() ==> o.Valid()
      ensures Valid() && k in entries ==> o.inserted == inserted
      ensures k !in entries ==> o.inserted == inserted + [k]
    {
      if k in entries then JsObject(inserted, entries[k := v]) else JsObject(inserted + [k], entries[k := v])
    }

    /** Assigning a key twice is assigning it once, in the place the first assignment gave it. */
    lemma PutTwice(k: string, a: V, b: V)
      ensures Put(k, a).Put(k, b) == Put(k, b)
    {
      assert entries[k := a][k := b] == entries[k := b];
    }

    /** `delete o[k]`. */
    function Delete(k: string): (o: JsObject<V>)
      ensures o.entries == entries - {k}
      ensures Valid() ==> o.Valid()
      ensures k !in o.inserted
      ensures o.inserted == Filter(inserted, (x: string) => x != k)
    {
      var keep := (x: string) => x != k;
      FilterNoDup(inserted, keep);
      forall x ensures x in Filter(inserted, keep) <==> x in inserted && x != k {
        FilterIn(inserted, keep, x);
      }
      JsObject(Filter(inserted, (x: string) => x != k), entries - {k})
    }
  }

  function Empty<V>(): (o: JsObject<V>)
    ensures o.Valid() && o.entries == map[] && o.inserted == []
  {
    JsObject([], map[])
  }
}
