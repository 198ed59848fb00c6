/**
 * Stable sorting, filtering and duplicate-freedom of sequences, and the optional value used
 * for JavaScript's `null` and Rust's `Option`.
 *
 * JavaScript's `Array.prototype.sort` and Rust's `slice::sort_by` are both stable: an element
 * moves in front of an earlier one only when the comparator says it must. `SortBy(s, le)` is
 * that sort, written as an insertion sort, where `le(a, b)` holds when the comparator lets `a`
 * stay in front of `b` (the comparator's value for `(a, b)` is not positive).
 */
module Sequences {

  /** A value that may be absent: `null` in JavaScript, `Option` in Rust. */
  datatype Option<T> = None | Some(value: T)

  /** No element occurs twice. */
  predicate NoDup<T(==)>(s: seq<T>) {
    forall i, j :: 0 <= i < j < |s| ==> s[i] != s[j]
  }

  /** A duplicate-free sequence holds each of its elements once. */
  lemma {:induction false} NoDupMultiset<T>(s: seq<T>, x: T)
    requires NoDup(s)
    ensures multiset(s)[x] == if x in s then 1 else 0
  {
    if s != [] {
      assert s == [s[0]] + s[1..];
      NoDupMultiset(s[1..], x);
    }
  }

  /** A permutation of a duplicate-free sequence is duplicate-free. */
  lemma PermutationNoDup<T>(s: seq<T>, t: seq<T>)
    requires NoDup(s) && multiset(s) == multiset(t)
    ensures NoDup(t)
  {
    forall i, j | 0 <= i < j < |t| ensures t[i] != t[j] {
      NoDupMultiset(s, t[i]);
      MultisetOfTwo(t, i, j);
    }
  }

  lemma MultisetOfTwo<T>(t: seq<T>, i: nat, j: nat)
    requires i < j < |t|
    ensures multiset(t)[t[i]] >= if t[i] == t[j] then 2 else 1
  {
    assert t == t[..i] + [t[i]] + t[i + 1..j] + [t[j]] + t[j + 1..];
  }

  /** The elements of `s` that satisfy `p`, in their order in `s`. */
  function Filter<T>(s: seq<T>, p: T -> bool): (r: seq<T>)
    ensures |r| <= |s|
    ensures forall i :: 0 <= i < |r| ==> p(r[i])
  {
    if s == [] then []
    else
      assert s == [s[0]] + s[1..];
      (if p(s[0]) then [s[0]] else []) + Filter(s[1..], p)
  }

  lemma FilterCons<T>(x: T, s: seq<T>, p: T -> bool)
    ensures Filter([x] + s, p) == (if p(x) then [x] else []) + Filter(s, p)
  {
    assert ([x] + s)[1..] == s;
  }

  lemma {:induction false} FilterAppend<T>(a: seq<T>, b: seq<T>, p: T -> bool)
    ensures Filter(a + b, p) == Filter(a, p) + Filter(b, p)
  {
    if a == [] {
      assert a + b == b;
    } else {
      assert (a + b)[1..] == a[1..] + b;
      FilterAppend(a[1..], b, p);
    }
  }

  /** Every element of `s` that satisfies `p` survives the filter. */
  lemma {:induction false} FilterKeeps<T>(s: seq<T>, p: T -> bool, x: T)
    requires x in s && p(x)
    ensures x in Filter(s, p)
  {
    if s[0] != x {
      FilterKeeps(s[1..], p, x);
    }
  }

  /** Filtering by `p` and by its negation splits `s` into two parts that together hold all of `s`. */
  lemma {:induction false} FilterPartition<T>(s: seq<T>, p: T -> bool, q: T -> bool)
    requires forall x :: q(x) == !p(x)
    ensures multiset(Filter(s, p)) + multiset(Filter(s, q)) == multiset(s)
  {
    if s != [] {
      var x, t := s[0], s[1..];
      assert s == [x] + t;
      FilterPartition(t, p, q);
      FilterCons(x, t, p);
      FilterCons(x, t, q);
    }
  }

  /** An element survives the filter exactly when it is in `s` and satisfies `p`. */
  lemma {:induction false} FilterIn<T>(s: seq<T>, p: T -> bool, x: T)
    ensures x in Filter(s, p) <==> x in s && p(x)
  {
    if s != [] {
      FilterIn(s[1..], p, x);
      FilterCons(s[0], s[1..], p);
      assert s == [s[0]] + s[1..];
    }
  }

  /** Filtering keeps a sequence duplicate-free. */
  lemma {:induction false} FilterNoDup<T>(s: seq<T>, p: T -> bool)
    ensures NoDup(s) ==> NoDup(Filter(s, p))
  {
    if s != [] && NoDup(s) {
      FilterNoDup(s[1..], p);
      FilterCons(s[0], s[1..], p);
      assert s == [s[0]] + s[1..];
      FilterIn(s[1..], p, s[0]);
      var r := Filter(s, p);
      if p(s[0]) {
        forall i, j | 0 <= i < j < |r| ensures r[i] != r[j] {
          if i == 0 {
            assert r[j] in Filter(s[1..], p);
          } else {
            assert r[i] == Filter(s[1..], p)[i - 1] && r[j] == Filter(s[1..], p)[j - 1];
          }
        }
      }
    }
  }

  /** Puts `x` in front of the first element of `s` it may stay in front of. */
  function Insert<T>(x: T, s: seq<T>, le: (T, T) -> bool): (r: seq<T>)
    ensures multiset(r) == multiset(s) + multiset{x}
  {
    if s == [] || le(x, s[0]) then [x] + s
    else
      assert s == [s[0]] + s[1..];
      [s[0]] + Insert(x, s[1..], le)
  }

  /** Stable sort of `s` under the comparator described by `le`. */
  function SortBy<T>(s: seq<T>, le: (T, T) -> bool): (r: seq<T>)
    ensures multiset(r) == multiset(s)
  {
    if s == [] then []
    else
      assert s == [s[0]] + s[1..];
      Insert(s[0], SortBy(s[1..], le), le)
  }

  /** Neighbours are in comparator order. */
  predicate Sorted<T>(s: seq<T>, le: (T, T) -> bool) {
    forall i :: 0 <= i < |s| - 1 ==> le(s[i], s[i + 1])
  }

  lemma {:induction false} InsertSorted<T>(x: T, s: seq<T>, le: (T, T) -> bool)
    requires Sorted(s, le)
    requires forall y :: y in s ==> le(x, y) || le(y, x)
    ensures Sorted(Insert(x, s, le), le)
  {
    if s != [] && !le(x, s[0]) {
      InsertSorted(x, s[1..], le);
      var t := Insert(x, s[1..], le);
      assert t[0] == x || t[0] == s[1] by {
        if s[1..] != [] && !le(x, s[1]) {
          assert t[0] == s[1];
        }
      }
    }
  }

  /**
   * The sort puts neighbours in comparator order, provided the comparator orders every two
   * elements of `s` one way or the other.
   */
  lemma {:induction false} SortBySorted<T>(s: seq<T>, le: (T, T) -> bool)
    requires forall a, b :: a in s && b in s ==> le(a, b) || le(b, a)
    ensures Sorted(SortBy(s, le), le)
  {
    if s != [] {
      SortBySorted(s[1..], le);
      forall y | y in SortBy(s[1..], le) ensures le(s[0], y) || le(y, s[0]) {
        assert y in multiset(SortBy(s[1..], le));
      }
      InsertSorted(s[0], SortBy(s[1..], le), le);
    }
  }

  lemma {:induction false} InsertStable<T>(x: T, s: seq<T>, le: (T, T) -> bool, p: T -> bool)
    requires p(x) ==> forall y :: y in s && p(y) ==> le(x, y)
    ensures Filter(Insert(x, s, le), p) == Filter([x] + s, p)
  {
    if s != [] && !le(x, s[0]) {
      var y, t := s[0], s[1..];
      assert s == [y] + t;
      assert Insert(x, s, le) == [y] + Insert(x, t, le);
      InsertStable(x, t, le, p);
      var fy := if p(y) then [y] else [];
      var fx := if p(x) then [x] else [];
      calc {
        Filter(Insert(x, s, le), p);
        { FilterCons(y, Insert(x, t, le), p); }
        fy + Filter(Insert(x, t, le), p);
        fy + Filter([x] + t, p);
        { FilterCons(x, t, p); }
        fy + (fx + Filter(t, p));
        { if p(x) { assert !p(y); } }
        fx + (fy + Filter(t, p));
        { FilterCons(y, t, p); }
        fx + Filter(s, p);
        { FilterCons(x, s, p); }
        Filter([x] + s, p);
      }
    }
  }

  /**
   * Stability: the elements that satisfy `p` keep their relative order, provided the comparator
   * lets every such element stay in front of every other.
   */
  lemma {:induction false} SortByStable<T>(s: seq<T>, le: (T, T) -> bool, p: T -> bool)
    requires forall a, b :: a in s && b in s && p(a) && p(b) ==> le(a, b)
    ensures Filter(SortBy(s, le), p) == Filter(s, p)
  {
    if s != [] {
      var x, rest := s[0], s[1..];
      assert s == [x] + rest;
      SortByStable(rest, le, p);
      var t := SortBy(rest, le);
      if p(x) {
        forall y | y in t && p(y) ensures le(x, y) {
          assert y in multiset(t);
          assert y in s;
        }
      }
      InsertStable(x, t, le, p);
      FilterCons(x, t, p);
      FilterCons(x, rest, p);
    }
  }

  /** A sort by a comparator that orders no two elements of `s` backwards leaves `s` as it is. */
  lemma {:induction false} SortBySortedInput<T>(s: seq<T>, le: (T, T) -> bool)
    requires forall i, j :: 0 <= i < j < |s| ==> le(s[i], s[j])
    ensures SortBy(s, le) == s
  {
    if s != [] {
      SortBySortedInput(s[1..], le);
      assert SortBy(s[1..], le) == s[1..];
      if |s| > 1 {
        assert le(s[0], s[1]);
      }
    }
  }

  lemma PrefixSnoc<T>(s: seq<T>, i: nat)
    requires i < |s|
    ensures s[..i + 1] == s[..i] + [s[i]]
  {
  }

  lemma PrefixAll<T>(s: seq<T>)
    ensures s[..|s|] == s
  {
  }

  lemma AppendAssoc<T>(a: seq<T>, b: seq<T>, c: seq<T>)
    ensures a + (b + c) == (a + b) + c
  {
  }

  /** Strictly ascending, hence without duplicates. */
  predicate Increasing(s: seq<int>) {
    forall i, j :: 0 <= i < j < |s| ==> s[i] < s[j]
  }

  /** Sum of `f` over the elements of `s`. */
  function SumBy<T>(s: seq<T>, f: T -> nat): nat {
    if s == [] then 0 else f(s[0]) + SumBy(s[1..], f)
  }

  /** `f` applied to every element of `s`. */
  function MapSeq<T, U>(s: seq<T>, f: T -> U): (r: seq<U>)
    ensures |r| == |s|
    ensures forall i :: 0 <= i < |s| ==> r[i] == f(s[i])
  {
    seq(|s|, i requires 0 <= i < |s| => f(s[i]))
  }

  lemma {:induction false} SumByAppend<T>(a: seq<T>, b: seq<T>, f: T -> nat)
    ensures SumBy(a + b, f) == SumBy(a, f) + SumBy(b, f)
  {
    if a == [] {
      assert a + b == b;
    } else {
      assert (a + b)[1..] == a[1..] + b;
      SumByAppend(a[1..], b, f);
    }
  }

  /** The first element of `a` sits somewhere in its permutation `b`; the rest are a permutation of what remains. */
  lemma PermutationHead<T>(a: seq<T>, b: seq<T>) returns (i: nat)
    requires a != [] && multiset(a) == multiset(b)
    ensures i < |b| && b[i] == a[0]
    ensures multiset(a[1..]) == multiset(b[..i] + b[i + 1..])
  {
    assert a[0] in multiset(b);
    i :| 0 <= i < |b| && b[i] == a[0];
    assert a == [a[0]] + a[1..];
    assert b == b[..i] + [b[i]] + b[i + 1..];
    assert multiset(a[1..]) == multiset(a) - multiset{a[0]};
    assert multiset(b[..i] + b[i + 1..]) == multiset(b) - multiset{a[0]};
  }

  /** Reordering does not change a sum. */
  lemma {:induction false} SumByPermutation<T>(a: seq<T>, b: seq<T>, f: T -> nat)
    requires multiset(a) == multiset(b)
    ensures SumBy(a, f) == SumBy(b, f)
  {
    if a == [] {
      assert |b| == |multiset(b)| == 0;
    } else {
      var i := PermutationHead(a, b);
      SumByPermutation(a[1..], b[..i] + b[i + 1..], f);
      SumByAppend(b[..i], b[i + 1..], f);
      SumByAppend(b[..i], b[i..], f);
      assert b[..i] + b[i..] == b;
      assert b[i..][1..] == b[i + 1..];
    }
  }

  lemma MapSeqAppend<T, U>(a: seq<T>, b: seq<T>, f: T -> U)
    ensures MapSeq(a + b, f) == MapSeq(a, f) + MapSeq(b, f)
  {
  }

  /** Reordering commutes with mapping: the images of two permutations are permutations. */
  lemma {:induction false} MapSeqPermutation<T, U>(a: seq<T>, b: seq<T>, f: T -> U)
    requires multiset(a) == multiset(b)
    ensures multiset(MapSeq(a, f)) == multiset(MapSeq(b, f))
  {
    if a == [] {
      assert |b| == |multiset(b)| == 0;
    } else {
      var i := PermutationHead(a, b);
      var rest := b[..i] + b[i + 1..];
      MapSeqPermutation(a[1..], rest, f);
      var fb := MapSeq(b, f);
      assert MapSeq(a, f) == [f(a[0])] + MapSeq(a[1..], f);
      assert MapSeq(rest, f) == fb[..i] + fb[i + 1..];
      assert fb == fb[..i] + [f(a[0])] + fb[i + 1..];
      assert multiset(fb) == multiset(fb[..i] + fb[i + 1..]) + multiset{f(a[0])};
    }
  }
}
