/** Character and string helpers shared by the browser worker, the Tauri command and the UI. */
module Strings {

  /** Number of occurrences of `c` in `s`. */
  function CountChar(s: string, c: char): (n: nat)
    ensures n <= |s|
  {
    if s == [] then 0 else (if s[0] == c then 1 else 0) + CountChar(s[1..], c)
  }

  /** The count is zero exactly when `c` does not occur. */
  lemma {:induction false} CountCharZero(s: string, c: char)
    ensures CountChar(s, c) == 0 <==> c !in s
  {
    if s != [] {
      CountCharZero(s[1..], c);
      assert s == [s[0]] + s[1..];
    }
  }

  lemma {:induction false} CountCharAppend(a: string, b: string, c: char)
    ensures CountChar(a + b, c) == CountChar(a, c) + CountChar(b, c)
  {
    if a == [] {
      assert a + b == b;
    } else {
      assert (a + b)[1..] == a[1..] + b;
      CountCharAppend(a[1..], b, c);
    }
  }

  /** `w` is a prefix of `s`. */
  predicate IsPrefix(w: string, s: string) {
    |w| <= |s| && s[..|w|] == w
  }

  /** JavaScript's `s.includes(w)` and Rust's `s.contains(w)`: `w` occurs in `s` as a literal substring. */
  predicate Contains(s: string, w: string)
    decreases |s|
  {
    IsPrefix(w, s) || (|s| > 0 && Contains(s[1..], w))
  }

  /** `w` occurs in `s` at offset `k`. */
  predicate OccursAt(s: string, w: string, k: int) {
    0 <= k <= |s| - |w| && s[k..k + |w|] == w
  }

  /** The recursive test agrees with the positional definition of a substring occurrence. */
  lemma {:induction false} ContainsIffOccurs(s: string, w: string)
    ensures Contains(s, w) <==> exists k :: OccursAt(s, w, k)
    decreases |s|
  {
    if IsPrefix(w, s) {
      assert OccursAt(s, w, 0);
    } else if |s| == 0 {
    } else {
      ContainsIffOccurs(s[1..], w);
      if k :| OccursAt(s, w, k) {
        if k > 0 {
          assert s[1..][k - 1..k - 1 + |w|] == s[k..k + |w|];
          assert OccursAt(s[1..], w, k - 1);
        }
      }
      if Contains(s[1..], w) {
        var k :| OccursAt(s[1..], w, k);
        assert s[1..][k..k + |w|] == s[k + 1..k + 1 + |w|];
        assert OccursAt(s, w, k + 1);
      }
    }
  }

  /** Offset of the first `c` in `s`, or `|s|` when there is none. */
  function IndexOf(s: string, c: char): (k: nat)
    ensures k <= |s|
    ensures k < |s| ==> s[k] == c
    ensures forall j :: 0 <= j < k ==> s[j] != c
  {
    if s == [] then 0
    else if s[0] == c then 0
    else 1 + IndexOf(s[1..], c)
  }

  /** `s.split(c)` (JavaScript) and `s.split(c).collect()` (Rust): never empty. */
  function Split(s: string, c: char): (parts: seq<string>)
    ensures |parts| >= 1
    decreases |s|
  {
    var k := IndexOf(s, c);
    if k == |s| then [s] else [s[..k]] + Split(s[k + 1..], c)
  }

  /** Glues `parts` back together with `c` between neighbours. */
  function Join(parts: seq<string>, c: char): string
  {
    if |parts| == 0 then [] else if |parts| == 1 then parts[0] else parts[0] + [c] + Join(parts[1..], c)
  }

  /** Split leaves no separator inside a part. */
  lemma {:induction false} SplitPartsFree(s: string, c: char)
    ensures forall i :: 0 <= i < |Split(s, c)| ==> c !in Split(s, c)[i]
    decreases |s|
  {
    var k := IndexOf(s, c);
    if k < |s| {
      SplitPartsFree(s[k + 1..], c);
    } else {
      assert s[..k] == s;
    }
  }

  /** Joining the parts of a split gives back the input. */
  lemma {:induction false} JoinSplit(s: string, c: char)
    ensures Join(Split(s, c), c) == s
    decreases |s|
  {
    var k := IndexOf(s, c);
    if k < |s| {
      JoinSplit(s[k + 1..], c);
      var rest := Split(s[k + 1..], c);
      assert Split(s, c) == [s[..k]] + rest;
      assert (Split(s, c))[1..] == rest;
      assert s == s[..k] + [c] + s[k + 1..];
    }
  }

  /** Splitting a join of separator-free parts gives back the parts. */
  lemma {:induction false} SplitJoin(parts: seq<string>, c: char)
    requires |parts| >= 1
    requires forall i :: 0 <= i < |parts| ==> c !in parts[i]
    ensures Split(Join(parts, c), c) == parts
  {
    if |parts| == 1 {
      var s := parts[0];
    } else {
      var s := Join(parts, c);
      var p0 := parts[0];
      assert s == p0 + [c] + Join(parts[1..], c);
      IndexOfAfterFree(p0, Join(parts[1..], c), c);
      assert s[..|p0|] == p0;
      assert s[|p0| + 1..] == Join(parts[1..], c);
      SplitJoin(parts[1..], c);
    }
  }

  lemma IndexOfAfterFree(p: string, rest: string, c: char)
    requires c !in p
    ensures IndexOf(p + [c] + rest, c) == |p|
  {
    var s := p + [c] + rest;
    assert s[|p|] == c;
    assert s[..|p|] == p;
  }

  /** Rust's `str` ordering compares UTF-8 bytes, which orders strings by code points, lexicographically. */
  predicate LexLe(a: string, b: string)
    decreases |a|
  {
    if a == [] then true
    else if b == [] then false
    else if a[0] < b[0] then true
    else if a[0] > b[0] then false
    else LexLe(a[1..], b[1..])
  }

  lemma {:induction false} LexLeTotal(a: string, b: string)
    ensures LexLe(a, b) || LexLe(b, a)
    decreases |a|
  {
    if a != [] && b != [] && a[0] == b[0] {
      LexLeTotal(a[1..], b[1..]);
    }
  }

  lemma {:induction false} LexLeAntisymmetric(a: string, b: string)
    requires LexLe(a, b) && LexLe(b, a)
    ensures a == b
    decreases |a|
  {
    if a != [] && b != [] {
      LexLeAntisymmetric(a[1..], b[1..]);
      assert a == [a[0]] + a[1..];
      assert b == [b[0]] + b[1..];
    }
  }

  lemma {:induction false} LexLeTransitive(a: string, b: string, c: string)
    requires LexLe(a, b) && LexLe(b, c)
    ensures LexLe(a, c)
    decreases |a|
  {
    if a != [] && b != [] && c != [] && a[0] == b[0] == c[0] {
      LexLeTransitive(a[1..], b[1..], c[1..]);
    }
  }

  /** The characters JavaScript's `String.prototype.trim` removes: WhiteSpace and LineTerminator of ECMA-262. */
  predicate IsJsWhiteSpace(c: char) {
    ('\U{0009}' <= c <= '\U{000D}') || c == '\U{0020}' || c == '\U{00A0}' || c == '\U{1680}'
    || ('\U{2000}' <= c <= '\U{200A}') || c == '\U{2028}' || c == '\U{2029}' || c == '\U{202F}'
    || c == '\U{205F}' || c == '\U{3000}' || c == '\U{FEFF}'
  }

  /** The characters Rust's `str::trim` removes: the Unicode White_Space property. */
  predicate IsRustWhiteSpace(c: char) {
    ('\U{0009}' <= c <= '\U{000D}') || c == '\U{0020}' || c == '\U{0085}' || c == '\U{00A0}' || c == '\U{1680}'
    || ('\U{2000}' <= c <= '\U{200A}') || c == '\U{2028}' || c == '\U{2029}' || c == '\U{202F}'
    || c == '\U{205F}' || c == '\U{3000}'
  }

  /** `s.trim()` is the empty string in JavaScript (so the test `if (s.trim())` fails). */
  predicate IsJsBlank(s: string) {
    s == [] || (IsJsWhiteSpace(s[0]) && IsJsBlank(s[1..]))
  }

  /** `s.trim().is_empty()` in Rust. */
  predicate IsRustBlank(s: string) {
    s == [] || (IsRustWhiteSpace(s[0]) && IsRustBlank(s[1..]))
  }

  /** Number of bytes UTF-8 uses for `c`. */
  function Utf8Width(c: char): (w: nat)
    ensures 1 <= w <= 4
  {
    if c < '\U{0080}' then 1 else if c < '\U{0800}' then 2 else if c < '\U{10000}' then 3 else 4
  }

  /** Byte offset, in the UTF-8 encoding of `s`, of the character at offset `k`. */
  function ByteOffset(s: string, k: nat): (b: nat)
    requires k <= |s|
    ensures k <= b <= 4 * k
  {
    if k == 0 then 0 else ByteOffset(s, k - 1) + Utf8Width(s[k - 1])
  }
}
