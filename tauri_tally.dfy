/**
 * Step 2 of the Tauri command `analyze_text` (src-tauri/src/main.rs): the vibrato tokens of the
 * whole document are filtered and folded into `words_by_reading`, a hash map from reading to
 * the reading's variants (surface form to count and the feature string of its first token) and
 * the ordered set of the sentence indices its tokens fall in.
 *
 * Hash maps are Dafny maps (no order) and the `BTreeSet` is a set; tokens are a parameter.
 */
module TauriTally {
  import opened Strings
  import opened Sequences
  import opened TauriSegment
  import Worker

  /** A vibrato token: its surface, its comma-separated IPADIC feature string and its start in characters. */
  datatype RustToken = RustToken(surface: string, feature: string, start: nat)

  /** `details.get(i).cloned().unwrap_or(default)`. */
  function Field(details: seq<string>, i: nat, default: string): (f: string)
    ensures i < |details| ==> f == details[i]
    ensures i >= |details| ==> f == default
  {
    if i < |details| then details[i] else default
  }

  /** Field 0 of the feature string, the major part of speech (the empty string if it were missing). */
  function MajorPos(feature: string): string {
    Field(Split(feature, ','), 0, "")
  }

  /** `get_display_category`: proper nouns and personal names get their own category, every other feature its major part of speech. */
  function DisplayCategory(feature: string): (c: string)
    ensures c == "人名" || c == "固有名詞" || c == MajorPos(feature)
  {
    var details := Split(feature, ',');
    var posMajor := Field(details, 0, "");
    if posMajor == "名詞" && |details| > 1 && details[1] == "固有名詞" then
      if |details| > 2 && details[2] == "人名" then "人名" else "固有名詞"
    else posMajor
  }

  /**
   * Both pipelines categorise a token alike: a feature string joined from comma-free fields
   * whose first three are the worker token's `pos`, `pos_detail_1` and `pos_detail_2` gets the
   * worker's category.
   */
  lemma DisplayCategoryAgrees(t: Worker.Token, parts: seq<string>)
    requires |parts| >= 3 && parts[0] == t.pos && parts[1] == t.posDetail1 && parts[2] == t.posDetail2
    requires forall i :: 0 <= i < |parts| ==> ',' !in parts[i]
    ensures DisplayCategory(Join(parts, ',')) == Worker.DisplayCategory(t)
  {
    SplitJoin(parts, ',');
  }

  /** A feature string cut short after the sub-category keeps the proper-noun category. */
  lemma DisplayCategoryShort()
    ensures DisplayCategory("名詞,固有名詞") == "固有名詞"
    ensures DisplayCategory("") == ""
  {
    SplitJoin(["名詞", "固有名詞"], ',');
    assert Join(["名詞", "固有名詞"], ',') == "名詞,固有名詞";
    assert Split("", ',') == [""];
  }

  /** Field 6: the base form, the empty string when missing. */
  function BasicForm(t: RustToken): string {
    Field(Split(t.feature, ','), 6, "")
  }

  /** Field 7: the reading, `*` when missing. */
  function Reading(t: RustToken): string {
    Field(Split(t.feature, ','), 7, "*")
  }

  /** The major parts of speech the command never counts. */
  const ExcludedPos: seq<string> := ["助詞", "助動詞", "接続詞", "連体詞", "記号"]

  /** The `continue` condition: no base form, no reading, or an excluded part of speech. */
  predicate Skipped(t: RustToken) {
    BasicForm(t) == "*" || Reading(t) == "*" || MajorPos(t.feature) in ExcludedPos
  }

  /** A token whose feature string stops before the reading is always skipped. */
  lemma ShortFeatureSkipped(t: RustToken)
    requires |Split(t.feature, ',')| <= 7
    ensures Skipped(t)
  {
  }

  /** A variant's count and the feature string of the token that first had it. */
  datatype RustVariant = RustVariant(count: nat, feature: string)

  /** `(variants_map, sentence_indices)` of one reading. */
  datatype RustGroup = RustGroup(variants: map<string, RustVariant>, indices: set<nat>)

  /** The body of the token loop for token `t`. */
  function AddTo(words: map<string, RustGroup>, t: RustToken, ends: seq<nat>): map<string, RustGroup> {
    if Skipped(t) then words
    else
      var r := Reading(t);
      var g := if r in words then words[r] else RustGroup(map[], {});
      var v := if t.surface in g.variants then g.variants[t.surface] else RustVariant(0, t.feature);
      words[r := RustGroup(g.variants[t.surface := v.(count := v.count + 1)], g.indices + {SentenceIndex(ends, t.start)})]
  }

  /** `words_by_reading` after the tokens `ts`, taken in order. */
  function TallyOf(ts: seq<RustToken>, ends: seq<nat>): map<string, RustGroup> {
    if ts == [] then map[] else AddTo(TallyOf(ts[..|ts| - 1], ends), ts[|ts| - 1], ends)
  }

  /** The token loop of step 2. */
  method Tally(tokens: seq<RustToken>, ends: seq<nat>) returns (words: map<string, RustGroup>)
    ensures words == TallyOf(tokens, ends)
  {
    words := map[];
    var i := 0;
    while i < |tokens|
      invariant i <= |tokens|
      invariant words == TallyOf(tokens[..i], ends)
    {
      var token := tokens[i];
      PrefixSnoc(tokens, i);
      if !Skipped(token) {
        var reading := Reading(token);
        var group := if reading in words then words[reading] else RustGroup(map[], {});
        var variant := if token.surface in group.variants then group.variants[token.surface] else RustVariant(0, token.feature);
        variant := variant.(count := variant.count + 1);
        group := RustGroup(group.variants[token.surface := variant], group.indices + {SentenceIndex(ends, token.start)});
        words := words[reading := group];
      }
      i := i + 1;
    }
    PrefixAll(tokens);
  }

  // ---------------------------------------------------------------------------------------
  // What the table holds

  /** Token `t` is counted under reading `r`. */
  predicate CountsUnder(t: RustToken, r: string) {
    !Skipped(t) && Reading(t) == r
  }

  /** Number of tokens counted under `r`. */
  function Count(ts: seq<RustToken>, r: string): nat {
    if ts == [] then 0 else Count(ts[..|ts| - 1], r) + (if CountsUnder(ts[|ts| - 1], r) then 1 else 0)
  }

  /** Number of tokens counted under `r` with surface `w`. */
  function FormCount(ts: seq<RustToken>, r: string, w: string): nat {
    if ts == [] then 0
    else FormCount(ts[..|ts| - 1], r, w) + (if CountsUnder(ts[|ts| - 1], r) && ts[|ts| - 1].surface == w then 1 else 0)
  }

  lemma {:induction false} FormCountZero(ts: seq<RustToken>, r: string, w: string)
    requires FormCount(ts, r, w) == 0
    ensures forall j :: 0 <= j < |ts| ==> !(CountsUnder(ts[j], r) && ts[j].surface == w)
  {
    if ts != [] {
      FormCountZero(ts[..|ts| - 1], r, w);
      assert forall j :: 0 <= j < |ts| - 1 ==> ts[j] == ts[..|ts| - 1][j];
    }
  }

  /** Position of the first token counted under `r` with surface `w`. */
  function FirstOf(ts: seq<RustToken>, r: string, w: string): (i: nat)
    requires FormCount(ts, r, w) > 0
    ensures i < |ts| && CountsUnder(ts[i], r) && ts[i].surface == w
    ensures forall j :: 0 <= j < i ==> !(CountsUnder(ts[j], r) && ts[j].surface == w)
  {
    var prefix := ts[..|ts| - 1];
    if FormCount(prefix, r, w) > 0 then
      var i := FirstOf(prefix, r, w);
      assert forall j :: 0 <= j <= i ==> ts[j] == prefix[j];
      i
    else
      FormCountZero(prefix, r, w);
      assert forall j :: 0 <= j < |prefix| ==> ts[j] == prefix[j];
      |ts| - 1
  }

  /** The table has a reading exactly when some token is counted under it. */
  lemma {:induction false} TallyHas(ts: seq<RustToken>, ends: seq<nat>, r: string)
    ensures r in TallyOf(ts, ends) <==> Count(ts, r) > 0
  {
    if ts != [] {
      TallyHas(ts[..|ts| - 1], ends, r);
    }
  }

  /**
   * A surface form is a variant of reading `r` exactly when some counted token has both; its
   * count is the number of such tokens, and its feature string that of the first.
   */
  lemma {:induction false} TallyVariant(ts: seq<RustToken>, ends: seq<nat>, r: string, w: string)
    requires r in TallyOf(ts, ends)
    ensures var vs := TallyOf(ts, ends)[r].variants;
      && (w in vs <==> FormCount(ts, r, w) > 0)
      && (w in vs ==> vs[w] == RustVariant(FormCount(ts, r, w), ts[FirstOf(ts, r, w)].feature))
  {
    var prefix := ts[..|ts| - 1];
    var t := ts[|ts| - 1];
    TallyHas(prefix, ends, r);
    if r in TallyOf(prefix, ends) {
      TallyVariant(prefix, ends, r, w);
      if FormCount(prefix, r, w) > 0 {
        assert ts[FirstOf(prefix, r, w)] == prefix[FirstOf(prefix, r, w)];
      }
    } else {
      assert Count(prefix, r) == 0;
      CountZeroForms(prefix, r, w);
    }
  }

  lemma {:induction false} CountZeroForms(ts: seq<RustToken>, r: string, w: string)
    requires Count(ts, r) == 0
    ensures FormCount(ts, r, w) == 0
  {
    if ts != [] {
      CountZeroForms(ts[..|ts| - 1], r, w);
    }
  }

  /** Some token counted under `r` falls, by its start, in sentence `x`. */
  ghost predicate Mentions(ts: seq<RustToken>, ends: seq<nat>, r: string, x: nat) {
    exists i :: 0 <= i < |ts| && FallsIn(ts[i], ends, r, x)
  }

  /** Token `t` is counted under `r` and falls in sentence `x`. */
  predicate FallsIn(t: RustToken, ends: seq<nat>, r: string, x: nat) {
    CountsUnder(t, r) && SentenceIndex(ends, t.start) == x
  }

  lemma MentionsLast(ts: seq<RustToken>, ends: seq<nat>, r: string, x: nat)
    requires ts != []
    ensures Mentions(ts, ends, r, x)
        <==> Mentions(ts[..|ts| - 1], ends, r, x) || FallsIn(ts[|ts| - 1], ends, r, x)
  {
    var prefix := ts[..|ts| - 1];
    if Mentions(prefix, ends, r, x) {
      var i :| 0 <= i < |prefix| && FallsIn(prefix[i], ends, r, x);
      assert ts[i] == prefix[i];
    }
    if Mentions(ts, ends, r, x) {
      var i :| 0 <= i < |ts| && FallsIn(ts[i], ends, r, x);
      if i < |prefix| {
        assert ts[i] == prefix[i];
      }
    }
  }

  /** The reading's index set holds exactly the sentences its tokens fall in. */
  lemma {:induction false} TallyIndices(ts: seq<RustToken>, ends: seq<nat>, r: string, x: nat)
    requires r in TallyOf(ts, ends)
    ensures x in TallyOf(ts, ends)[r].indices <==> Mentions(ts, ends, r, x)
  {
    var prefix := ts[..|ts| - 1];
    TallyHas(prefix, ends, r);
    MentionsLast(ts, ends, r, x);
    if r in TallyOf(prefix, ends) {
      TallyIndices(prefix, ends, r, x);
    } else {
      NoMentions(prefix, ends, r, x);
    }
  }

  lemma {:induction false} NoMentions(ts: seq<RustToken>, ends: seq<nat>, r: string, x: nat)
    requires Count(ts, r) == 0
    ensures !Mentions(ts, ends, r, x)
  {
    if ts != [] {
      NoMentions(ts[..|ts| - 1], ends, r, x);
      MentionsLast(ts, ends, r, x);
    }
  }

  /** Every group has a variant, every variant a positive count, and every index names a sentence or is 0. */
  ghost predicate GroupValid(g: RustGroup, ends: seq<nat>) {
    && g.variants != map[]
    && (forall w :: w in g.variants ==> g.variants[w].count >= 1)
    && (forall x :: x in g.indices ==> x < |ends| || x == 0)
  }

  lemma {:induction false} TallyValid(ts: seq<RustToken>, ends: seq<nat>)
    ensures forall r :: r in TallyOf(ts, ends) ==> GroupValid(TallyOf(ts, ends)[r], ends)
  {
    if ts != [] {
      TallyValid(ts[..|ts| - 1], ends);
    }
  }

  // ---------------------------------------------------------------------------------------
  // Counts add up

  /** Sum over the words `ws` of their form counts under `r`. */
  function FormSum(ts: seq<RustToken>, r: string, ws: seq<string>): nat {
    if ws == [] then 0 else FormCount(ts, r, ws[0]) + FormSum(ts, r, ws[1..])
  }

  /** One more token changes the sum by one exactly when it is counted and its surface is listed once. */
  lemma {:induction false} FormSumStep(ts: seq<RustToken>, r: string, ws: seq<string>)
    requires ts != [] && NoDup(ws)
    ensures var t := ts[|ts| - 1];
      FormSum(ts, r, ws) == FormSum(ts[..|ts| - 1], r, ws) + (if CountsUnder(t, r) && t.surface in ws then 1 else 0)
  {
    if ws != [] {
      FormSumStep(ts, r, ws[1..]);
      assert ws == [ws[0]] + ws[1..];
      assert NoDup(ws[1..]) by {
        forall i, j | 0 <= i < j < |ws[1..]| ensures ws[1..][i] != ws[1..][j] {
          assert ws[1..][i] == ws[i + 1] && ws[1..][j] == ws[j + 1];
        }
      }
    }
  }

  /**
   * When `ws` lists every surface form counted under `r` once, the form counts add up to the
   * number of tokens counted under `r`.
   */
  lemma {:induction false} FormSumIsCount(ts: seq<RustToken>, r: string, ws: seq<string>)
    requires NoDup(ws)
    requires forall j :: 0 <= j < |ts| && CountsUnder(ts[j], r) ==> ts[j].surface in ws
    ensures FormSum(ts, r, ws) == Count(ts, r)
  {
    if ts == [] {
      FormSumEmpty(r, ws);
    } else {
      var prefix := ts[..|ts| - 1];
      assert forall j :: 0 <= j < |prefix| ==> prefix[j] == ts[j];
      FormSumIsCount(prefix, r, ws);
      FormSumStep(ts, r, ws);
    }
  }

  lemma {:induction false} FormSumEmpty(r: string, ws: seq<string>)
    ensures FormSum([], r, ws) == 0
  {
    if ws != [] {
      FormSumEmpty(r, ws[1..]);
    }
  }
}
