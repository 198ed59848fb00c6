/**
 * The browser worker's PROCESS step (src/worker.js): it cuts the document into sentences,
 * tokenizes each sentence, folds the kept tokens into one group per reading, drops readings
 * that occur once without variation, and buckets the surviving groups by display category.
 *
 * The kuromoji tokenizer is a parameter (`tokenize`), and so is the Japanese collation behind
 * `localeCompare(…, 'ja')` (`collate(a, b)` holds when `a.localeCompare(b, 'ja') <= 0`).
 */
module Worker {
  import opened Strings
  import opened Sequences
  import opened JsObjects
  import opened Segmentation

  /** A kuromoji token; a missing `reading` is the empty string (both are falsy). */
  datatype Token = Token(
    reading: string,
    pos: string,
    posDetail1: string,
    posDetail2: string,
    surfaceForm: string,
    basicForm: string)

  /** `getDisplayCategory`: proper nouns and personal names get their own category, every other token its part of speech. */
  function DisplayCategory(t: Token): (c: string)
    ensures t.pos == "名詞" && t.posDetail1 == "固有名詞" ==> c == (if t.posDetail2 == "人名" then "人名" else "固有名詞")
    ensures !(t.pos == "名詞" && t.posDetail1 == "固有名詞") ==> c == t.pos
  {
    if t.pos == "名詞" && t.posDetail1 == "固有名詞" then
      if t.posDetail2 == "人名" then "人名" else "固有名詞"
    else t.pos
  }

  // ---------------------------------------------------------------------------------------
  // The line table

  /** Cumulative end offsets of `lines`, the line before them ending at `last`. */
  function LineEnds(lines: seq<string>, last: int): (ends: seq<int>)
    ensures |ends| == |lines|
  {
    if lines == [] then [] else [last + |lines[0]| + 1] + LineEnds(lines[1..], last + |lines[0]| + 1)
  }

  /** `lineEndPositions` of `text`, one end offset per line (the line's number is its position + 1). */
  function LineTable(text: string): seq<int> {
    LineEnds(Split(text, '\n'), -1)
  }

  function LastEnd(ends: seq<int>): int {
    if ends == [] then -1 else ends[|ends| - 1]
  }

  /** Builds `lineEndPositions` line by line, as the `forEach` over `text.split('\n')` does. */
  method BuildLineTable(text: string) returns (ends: seq<int>)
    ensures ends == LineTable(text)
  {
    var lines := Split(text, '\n');
    ends := [];
    var i := 0;
    while i < |lines|
      invariant 0 <= i <= |lines|
      invariant ends + LineEnds(lines[i..], LastEnd(ends)) == LineTable(text)
    {
      var lastEnd := LastEnd(ends);
      assert lines[i..] == [lines[i]] + lines[i + 1..];
      ends := ends + [lastEnd + |lines[i]| + 1];
      i := i + 1;
    }
  }

  /** 1 + the position of the first end at or after `p`, or 0 when every end lies before `p`. */
  function FindLine(ends: seq<int>, p: int): (line: nat)
    ensures line <= |ends|
  {
    if ends == [] then 0
    else if p <= ends[0] then 1
    else
      var r := FindLine(ends[1..], p);
      if r == 0 then 0 else r + 1
  }

  /** `findIndex(end => p <= end)`: the result is 1 + the first qualifying position, or 0 when none qualifies. */
  lemma {:induction false} FindLineFirst(ends: seq<int>, p: int)
    ensures var line := FindLine(ends, p);
      && (line > 0 ==> p <= ends[line - 1] && forall j :: 0 <= j < line - 1 ==> ends[j] < p)
      && (line == 0 ==> forall j :: 0 <= j < |ends| ==> ends[j] < p)
  {
    if ends != [] && p > ends[0] {
      FindLineFirst(ends[1..], p);
    }
  }

  /** `getLineNumber(p)`: the first line whose end is at or after `p`, or the last line. */
  function LineNumber(ends: seq<int>, p: int): nat {
    var line := FindLine(ends, p);
    if line > 0 then line else |ends|
  }

  /** Splitting at the first line feed: the first line ends there, the other lines follow. */
  lemma LineEndsAtFirstNewline(s: string, last: int)
    ensures var k := IndexOf(s, '\n');
      var ends := LineEnds(Split(s, '\n'), last);
      && (k == |s| ==> ends == [last + |s| + 1])
      && (k < |s| ==> ends == [last + k + 1] + LineEnds(Split(s[k + 1..], '\n'), last + k + 1))
  {
    var k := IndexOf(s, '\n');
    var lines := Split(s, '\n');
    if k < |s| {
      var rest := Split(s[k + 1..], '\n');
      assert lines == [s[..k]] + rest;
      assert lines[0] == s[..k] && |lines[0]| == k;
      assert lines[1..] == rest;
    } else {
      assert lines == [s];
      assert lines[1..] == [];
    }
  }

  /** Past the first end, the line is one more than among the remaining ends. */
  lemma FindLinePast(ends: seq<int>, x: int, rest: seq<int>, p: int)
    requires ends == [x] + rest && x < p && FindLine(rest, p) > 0
    ensures FindLine(ends, p) == FindLine(rest, p) + 1
  {
    assert ends[1..] == rest;
  }

  /** Before the first line feed, no line feed is counted. */
  lemma NoNewlineBefore(s: string, q: nat, k: nat)
    requires q <= k <= |s| && forall j :: 0 <= j < k ==> s[j] != '\n'
    ensures CountChar(s[..q], '\n') == 0
  {
    CountCharZero(s[..q], '\n');
  }

  /** Past a line feed at `k` with none before it, the count is one more than after it. */
  lemma NewlinesPast(s: string, q: nat, k: nat)
    requires k < q <= |s| && s[k] == '\n' && CountChar(s[..k], '\n') == 0
    ensures CountChar(s[..q], '\n') == 1 + CountChar(s[k + 1..q], '\n')
  {
    var line := s[k..q];
    assert CountChar(line, '\n') == 1 + CountChar(s[k + 1..q], '\n') by {
      assert line[0] == '\n' && line[1..] == s[k + 1..q];
    }
    assert s[..q] == s[..k] + line;
    CountCharAppend(s[..k], line, '\n');
  }

  /** The goal of `FindLineCountsNewlines`, for `s` whose lines follow a line ending at `last`. */
  ghost predicate LineOfOffset(s: string, last: int, p: int)
    requires last < p <= last + 1 + |s|
  {
    FindLine(LineEnds(Split(s, '\n'), last), p) == 1 + CountChar(s[..p - last - 1], '\n')
  }

  /** An offset on the first line. */
  lemma OnFirstLine(s: string, last: int, p: int, k: nat)
    requires k == IndexOf(s, '\n') && last < p <= last + 1 + k
    ensures LineOfOffset(s, last, p)
  {
    NoNewlineBefore(s, p - last - 1, k);
    LineEndsAtFirstNewline(s, last);
    var ends := LineEnds(Split(s, '\n'), last);
    assert ends[0] == last + k + 1;
  }

  /** An offset past the first line feed lies one line further down than within the text after it. */
  lemma PastFirstLine(s: string, last: int, p: int, k: nat, n: nat)
    requires k == IndexOf(s, '\n') && k < |s| && last + 1 + k < p
    requires FindLine(LineEnds(Split(s[k + 1..], '\n'), last + k + 1), p) == 1 + n
    ensures FindLine(LineEnds(Split(s, '\n'), last), p) == 2 + n
  {
    var rest := s[k + 1..];
    LineEndsAtFirstNewline(s, last);
    FindLinePast(LineEnds(Split(s, '\n'), last), last + k + 1, LineEnds(Split(rest, '\n'), last + k + 1), p);
  }

  lemma NewlinesPastFirst(s: string, q: nat, k: nat)
    requires k == IndexOf(s, '\n') && k < q <= |s|
    ensures CountChar(s[..q], '\n') == 1 + CountChar(s[k + 1..][..q - k - 1], '\n')
  {
    NoNewlineBefore(s, k, k);
    NewlinesPast(s, q, k);
    assert s[k + 1..][..q - k - 1] == s[k + 1..q];
  }

  /** The lines of `s`, the line before them ending at `last`: offset `p` lies on line 1 + the line feeds before it. */
  lemma {:induction false} FindLineCountsNewlines(s: string, last: int, p: int)
    requires last < p <= last + 1 + |s|
    ensures LineOfOffset(s, last, p)
    decreases |s|
  {
    var k := IndexOf(s, '\n');
    if p <= last + 1 + k {
      OnFirstLine(s, last, p, k);
    } else {
      var q := p - last - 1;
      FindLineCountsNewlines(s[k + 1..], last + k + 1, p);
      PastFirstLine(s, last, p, k, CountChar(s[k + 1..][..q - k - 1], '\n'));
      NewlinesPastFirst(s, q, k);
    }
  }

  /** The line table gives every offset up to the end of the text the line it lies on: 1 + the line feeds before it. */
  lemma LineNumberCountsNewlines(text: string, p: nat)
    requires p <= |text|
    ensures LineNumber(LineTable(text), p) == 1 + NewlinesBefore(text, p)
  {
    FindLineCountsNewlines(text, -1, p);
    NewlinesBeforeCount(text, p);
  }

  /** The same, for a table already built. */
  lemma LineOf(ends: seq<int>, text: string, p: nat)
    requires ends == LineTable(text) && p <= |text|
    ensures LineNumber(ends, p) == 1 + NewlinesBefore(text, p)
  {
    LineNumberCountsNewlines(text, p);
  }

  // ---------------------------------------------------------------------------------------
  // Sentences

  /** The sentence the loop emits for `text[from..end]` is the one the scan specifies. */
  lemma EmittedSentence(text: string, ends: seq<int>, from: nat, end: nat)
    requires ends == LineTable(text) && from < end <= |text|
    ensures SentenceOfPiece(text, Piece(from, end), IsJsBlank)
         == if IsJsBlank(text[from..end]) then [] else [Sentence(text[from..end], LineNumber(ends, from))]
  {
    LineOf(ends, text, from);
  }

  /** One turn of the segmentation loop keeps its invariant. */
  lemma SegmentStep(text: string, ends: seq<int>, before: seq<Sentence>, from: nat, k: nat, after: seq<Sentence>)
    requires ends == LineTable(text) && from <= k < |text| && k == NextTerminator(text, from)
    requires before + SentencesFrom(text, from, IsJsBlank) == DocumentSentences(text, IsJsBlank)
    requires after == before + if IsJsBlank(text[from..k + 1]) then [] else [Sentence(text[from..k + 1], LineNumber(ends, from))]
    ensures after + SentencesFrom(text, k + 1, IsJsBlank) == DocumentSentences(text, IsJsBlank)
  {
    EmittedSentence(text, ends, from, k + 1);
    SentencesFromCut(text, from, k, IsJsBlank);
    AppendAssoc(before, SentenceOfPiece(text, Piece(from, k + 1), IsJsBlank), SentencesFrom(text, k + 1, IsJsBlank));
  }

  /** After the last match, the trailing piece completes the sentences. */
  lemma SegmentEnd(text: string, ends: seq<int>, before: seq<Sentence>, from: nat, after: seq<Sentence>)
    requires ends == LineTable(text) && from < |text| && NextTerminator(text, from) == |text|
    requires before + SentencesFrom(text, from, IsJsBlank) == DocumentSentences(text, IsJsBlank)
    requires after == before + if IsJsBlank(text[from..]) then [] else [Sentence(text[from..], LineNumber(ends, from))]
    ensures after == DocumentSentences(text, IsJsBlank)
  {
    EmittedSentence(text, ends, from, |text|);
    SentencesFromEnd(text, from, IsJsBlank);
    assert text[from..] == text[from..|text|];
  }

  /**
   * The segmentation loop: every `exec` match ends a piece, the text after the last match is a
   * trailing piece, and each piece that is not blank becomes a sentence whose line number
   * comes from the line table. Sentence `i` of the result has index `i`.
   */
  method Segment(text: string) returns (sentences: seq<Sentence>)
    ensures sentences == DocumentSentences(text, IsJsBlank)
  {
    var ends := BuildLineTable(text);
    sentences := [];
    var lastIndex := 0;
    var k := NextTerminator(text, 0);
    while k < |text|
      invariant lastIndex <= k <= |text|
      invariant k == NextTerminator(text, lastIndex)
      invariant sentences + SentencesFrom(text, lastIndex, IsJsBlank) == DocumentSentences(text, IsJsBlank)
      decreases |text| - lastIndex
    {
      sentences := EmitMatch(text, ends, sentences, lastIndex, k);
      lastIndex := k + 1;
      k := NextTerminator(text, lastIndex);
    }
    sentences := EmitTail(text, ends, sentences, lastIndex);
  }

  /** The body of the `exec` loop: the piece up to and including the match at `k`. */
  method EmitMatch(text: string, ends: seq<int>, sentences: seq<Sentence>, lastIndex: nat, k: nat) returns (after: seq<Sentence>)
    requires ends == LineTable(text) && lastIndex <= k < |text| && k == NextTerminator(text, lastIndex)
    requires sentences + SentencesFrom(text, lastIndex, IsJsBlank) == DocumentSentences(text, IsJsBlank)
    ensures after + SentencesFrom(text, k + 1, IsJsBlank) == DocumentSentences(text, IsJsBlank)
  {
    var sentenceText := text[lastIndex..k + 1];
    if !IsJsBlank(sentenceText) {
      after := sentences + [Sentence(sentenceText, LineNumber(ends, lastIndex))];
    } else {
      after := sentences;
      assert after == sentences + [];
    }
    SegmentStep(text, ends, sentences, lastIndex, k, after);
  }

  /** After the loop: the text past the last match, when there is any. */
  method EmitTail(text: string, ends: seq<int>, sentences: seq<Sentence>, lastIndex: nat) returns (after: seq<Sentence>)
    requires ends == LineTable(text) && lastIndex <= |text| && NextTerminator(text, lastIndex) == |text|
    requires sentences + SentencesFrom(text, lastIndex, IsJsBlank) == DocumentSentences(text, IsJsBlank)
    ensures after == DocumentSentences(text, IsJsBlank)
  {
    after := sentences;
    if lastIndex < |text| {
      var lastSentence := text[lastIndex..];
      if !IsJsBlank(lastSentence) {
        after := sentences + [Sentence(lastSentence, LineNumber(ends, lastIndex))];
      } else {
        assert after == sentences + [];
      }
      SegmentEnd(text, ends, sentences, lastIndex, after);
    } else {
      SentencesFromEnd(text, lastIndex, IsJsBlank);
      assert sentences == sentences + [];
    }
  }
}
