/**
 * The segmentation half of the Tauri command `analyze_text` (src-tauri/src/main.rs): the scan
 * over `[。？！\n]` matches that collects the sentences and, beside them, one end offset per
 * kept sentence (`sentence_char_ends`), and the lookup that maps a token's start offset to the
 * sentence it belongs to.
 *
 * Offsets in the model count characters. The command pushes `mat.end()`, a UTF-8 byte offset,
 * for a terminated sentence, and the document's length in characters for a trailing one, while
 * token starts are character offsets; `EndUnit` selects between that behaviour (`Bytes`) and
 * the evidently intended one (`Chars`).
 */
module TauriSegment {
  import opened Strings
  import opened Sequences
  import opened Segmentation

  /** How the end of a terminated sentence is measured: as the command does, or in characters. */
  datatype EndUnit = Bytes | Chars

  /** The end pushed for a sentence cut just before character offset `end`. */
  function CutEnd(text: string, end: nat, unit: EndUnit): nat
    requires end <= |text|
  {
    if unit == Bytes then ByteOffset(text, end) else end
  }

  /** The entries of `sentence_char_ends` pushed while scanning `text[from..]`. */
  function EndsFrom(text: string, from: nat, unit: EndUnit): seq<nat>
    requires from <= |text|
    decreases |text| - from
  {
    var k := NextTerminator(text, from);
    if k < |text| then EndOfPiece(text, Piece(from, k + 1), CutEnd(text, k + 1, unit)) + EndsFrom(text, k + 1, unit)
    else if from < |text| then EndOfPiece(text, Piece(from, |text|), |text|)
    else []
  }

  /** The end a piece pushes, measured as `end`: none when the piece is blank. */
  function EndOfPiece(text: string, p: Piece, end: nat): seq<nat> {
    if IsRustBlank(PieceText(text, p)) then [] else [end]
  }

  /** `sentence_char_ends` for the whole document. */
  function SentenceEnds(text: string, unit: EndUnit): seq<nat> {
    EndsFrom(text, 0, unit)
  }

  /** The line number the command gives a sentence starting at `from`: one more than the line feeds before it. */
  function StartLine(text: string, from: nat): nat
    requires from <= |text|
  {
    CountChar(text[..from], '\n') + 1
  }

  /** The sentence one turn of the match loop pushes is the one the scan specifies. */
  lemma SplitStepSentences(text: string, before: seq<Sentence>, from: nat, k: nat, after: seq<Sentence>)
    requires from <= k < |text| && k == NextTerminator(text, from)
    requires before + SentencesFrom(text, from, IsRustBlank) == DocumentSentences(text, IsRustBlank)
    requires after == before + if IsRustBlank(text[from..k + 1]) then [] else [Sentence(text[from..k + 1], StartLine(text, from))]
    ensures after + SentencesFrom(text, k + 1, IsRustBlank) == DocumentSentences(text, IsRustBlank)
  {
    PushedSentence(text, from, k + 1);
    SentencesFromCut(text, from, k, IsRustBlank);
    AppendAssoc(before, SentenceOfPiece(text, Piece(from, k + 1), IsRustBlank), SentencesFrom(text, k + 1, IsRustBlank));
  }

  /** The sentence the loop pushes for `text[from..end]` is the one the scan specifies. */
  lemma PushedSentence(text: string, from: nat, end: nat)
    requires from < end <= |text|
    ensures SentenceOfPiece(text, Piece(from, end), IsRustBlank)
         == if IsRustBlank(text[from..end]) then [] else [Sentence(text[from..end], StartLine(text, from))]
  {
    NewlinesBeforeCount(text, from);
  }

  lemma EndsFromCut(text: string, from: nat, k: nat, unit: EndUnit)
    requires from <= k < |text| && k == NextTerminator(text, from)
    ensures EndsFrom(text, from, unit)
         == (if IsRustBlank(text[from..k + 1]) then [] else [CutEnd(text, k + 1, unit)]) + EndsFrom(text, k + 1, unit)
  {
    var p := Piece(from, k + 1);
    var e := CutEnd(text, k + 1, unit);
    assert EndsFrom(text, from, unit) == EndOfPiece(text, p, e) + EndsFrom(text, k + 1, unit);
    assert PieceText(text, p) == text[from..k + 1];
    if IsRustBlank(text[from..k + 1]) {
      assert EndOfPiece(text, p, e) == [];
    } else {
      assert EndOfPiece(text, p, e) == [e];
    }
  }

  /** The end one turn of the match loop pushes is the one the scan specifies. */
  lemma SplitStepEnds(text: string, unit: EndUnit, beforeEnds: seq<nat>, from: nat, k: nat, afterEnds: seq<nat>)
    requires from <= k < |text| && k == NextTerminator(text, from)
    requires beforeEnds + EndsFrom(text, from, unit) == SentenceEnds(text, unit)
    requires afterEnds == beforeEnds + if IsRustBlank(text[from..k + 1]) then [] else [CutEnd(text, k + 1, unit)]
    ensures afterEnds + EndsFrom(text, k + 1, unit) == SentenceEnds(text, unit)
  {
    var mine := if IsRustBlank(text[from..k + 1]) then [] else [CutEnd(text, k + 1, unit)];
    EndsFromCut(text, from, k, unit);
    AppendAssoc(beforeEnds, mine, EndsFrom(text, k + 1, unit));
  }

  /** After the last match, the trailing fragment completes both lists. */
  lemma SplitEnd(text: string, unit: EndUnit, before: seq<Sentence>, beforeEnds: seq<nat>, from: nat,
                 after: seq<Sentence>, afterEnds: seq<nat>)
    requires from < |text| && NextTerminator(text, from) == |text|
    requires before + SentencesFrom(text, from, IsRustBlank) == DocumentSentences(text, IsRustBlank)
    requires beforeEnds + EndsFrom(text, from, unit) == SentenceEnds(text, unit)
    requires var piece := text[from..];
      && after == before + (if IsRustBlank(piece) then [] else [Sentence(piece, StartLine(text, from))])
      && afterEnds == beforeEnds + (if IsRustBlank(piece) then [] else [|text|])
    ensures after == DocumentSentences(text, IsRustBlank)
    ensures afterEnds == SentenceEnds(text, unit)
  {
    assert text[from..] == text[from..|text|];
    PushedSentence(text, from, |text|);
    SentencesFromEnd(text, from, IsRustBlank);
  }

  /** What the match loop keeps: the sentences and ends so far, followed by those of the rest, are the document's. */
  ghost predicate SplitInv(text: string, unit: EndUnit, sentences: seq<Sentence>, ends: seq<nat>, from: nat)
    requires from <= |text|
  {
    && sentences + SentencesFrom(text, from, IsRustBlank) == DocumentSentences(text, IsRustBlank)
    && ends + EndsFrom(text, from, unit) == SentenceEnds(text, unit)
  }

  /** The body of `for mat in re.find_iter(text)` for the match ending just after offset `k`. */
  method SplitAtMatch(text: string, unit: EndUnit, sentences: seq<Sentence>, ends: seq<nat>, lastCharPos: nat, k: nat)
    returns (sentences': seq<Sentence>, ends': seq<nat>)
    requires lastCharPos <= k < |text| && k == NextTerminator(text, lastCharPos)
    requires SplitInv(text, unit, sentences, ends, lastCharPos)
    ensures SplitInv(text, unit, sentences', ends', k + 1)
  {
    var sentenceText := text[lastCharPos..k + 1];
    if !IsRustBlank(sentenceText) {
      var startLine := CountChar(text[..lastCharPos], '\n') + 1;
      sentences' := sentences + [Sentence(sentenceText, startLine)];
      ends' := ends + [CutEnd(text, k + 1, unit)];
    } else {
      sentences', ends' := sentences, ends;
      assert sentences' == sentences + [] && ends' == ends + [];
    }
    SplitStepSentences(text, sentences, lastCharPos, k, sentences');
    SplitStepEnds(text, unit, ends, lastCharPos, k, ends');
  }

  /** `if last_char_pos < text.len() { … }`: the trailing fragment after the last match. */
  method SplitTail(text: string, unit: EndUnit, sentences: seq<Sentence>, ends: seq<nat>, lastCharPos: nat)
    returns (sentences': seq<Sentence>, ends': seq<nat>)
    requires lastCharPos <= |text| && NextTerminator(text, lastCharPos) == |text|
    requires SplitInv(text, unit, sentences, ends, lastCharPos)
    ensures sentences' == DocumentSentences(text, IsRustBlank)
    ensures ends' == SentenceEnds(text, unit)
  {
    sentences', ends' := sentences, ends;
    if lastCharPos < |text| {
      var sentenceText := text[lastCharPos..];
      if !IsRustBlank(sentenceText) {
        var startLine := CountChar(text[..lastCharPos], '\n') + 1;
        sentences' := sentences + [Sentence(sentenceText, startLine)];
        ends' := ends + [|text|];
      } else {
        assert sentences' == sentences + [] && ends' == ends + [];
      }
      SplitEnd(text, unit, sentences, ends, lastCharPos, sentences', ends');
    } else {
      SentencesFromEnd(text, lastCharPos, IsRustBlank);
      assert sentences' == sentences + [] && ends' == ends + [];
    }
  }

  /**
   * Step 1 of `analyze_text`: every match ends a piece, the text after the last match is a
   * trailing piece, and each piece that is not blank after `trim` becomes a sentence, its line
   * number counted from the line feeds before it, with its end pushed beside it.
   */
  method SplitSentences(text: string, unit: EndUnit) returns (sentences: seq<Sentence>, ends: seq<nat>)
    ensures sentences == DocumentSentences(text, IsRustBlank)
    ensures ends == SentenceEnds(text, unit)
  {
    sentences, ends := [], [];
    var lastCharPos := 0;
    var k := NextTerminator(text, 0);
    while k < |text|
      invariant lastCharPos <= k <= |text| && k == NextTerminator(text, lastCharPos)
      invariant SplitInv(text, unit, sentences, ends, lastCharPos)
      decreases |text| - lastCharPos
    {
      sentences, ends := SplitAtMatch(text, unit, sentences, ends, lastCharPos, k);
      lastCharPos := k + 1;
      k := NextTerminator(text, lastCharPos);
    }
    sentences, ends := SplitTail(text, unit, sentences, ends, lastCharPos);
  }

  // ---------------------------------------------------------------------------------------
  // From a token's start to its sentence

  /** `ends.iter().position(|&end| start < end)`: the first end past `start`. */
  function Position(ends: seq<nat>, start: nat): (r: Option<nat>)
    ensures r.Some? ==> r.value < |ends| && start < ends[r.value]
    ensures r.Some? ==> forall j :: 0 <= j < r.value ==> ends[j] <= start
    ensures r.None? ==> forall j :: 0 <= j < |ends| ==> ends[j] <= start
  {
    if ends == [] then None
    else if start < ends[0] then Some(0)
    else match Position(ends[1..], start)
      case None => None
      case Some(i) => Some(i + 1)
  }

  /** The sentence index a token starting at `start` is counted under; 0 when no end lies past it. */
  function SentenceIndex(ends: seq<nat>, start: nat): (i: nat)
    ensures ends != [] ==> i < |ends|
  {
    match Position(ends, start)
    case None => 0
    case Some(i) => i
  }

  // ---------------------------------------------------------------------------------------
  // What the ends should be

  /** The end of each kept piece of `text[from..]`. */
  function PieceEnds(ps: seq<Piece>): (ends: seq<nat>)
    ensures |ends| == |ps|
    ensures forall i :: 0 <= i < |ps| ==> ends[i] == ps[i].end
  {
    seq(|ps|, i requires 0 <= i < |ps| => ps[i].end)
  }

  /** Measured in characters, the ends are exactly the ends of the kept pieces. */
  lemma {:induction false} CharEndsArePieceEnds(text: string, from: nat)
    requires from <= |text|
    ensures EndsFrom(text, from, Chars) == PieceEnds(KeptPieces(text, PiecesFrom(text, from), IsRustBlank))
    decreases |text| - from
  {
    var k := NextTerminator(text, from);
    if k < |text| {
      CharEndsArePieceEnds(text, k + 1);
      var p := Piece(from, k + 1);
      var rest := PiecesFrom(text, k + 1);
      assert PiecesFrom(text, from) == [p] + rest;
      KeptPiecesCons(text, p, rest, IsRustBlank);
      var mine := if IsRustBlank(PieceText(text, p)) then [] else [p];
      PieceEndsAppend(mine, KeptPieces(text, rest, IsRustBlank));
    } else if from < |text| {
      var p := Piece(from, |text|);
      assert PiecesFrom(text, from) == [p];
      assert PieceText(text, p) == text[from..];
      KeptPiecesCons(text, p, [], IsRustBlank);
      assert [p] + [] == [p];
    }
  }

  lemma PieceEndsAppend(a: seq<Piece>, b: seq<Piece>)
    ensures PieceEnds(a + b) == PieceEnds(a) + PieceEnds(b)
  {
  }

  /**
   * With ends measured in characters, a token that starts inside the `i`-th kept sentence is
   * counted under sentence `i`.
   */
  lemma CharEndsLocate(text: string, i: nat, start: nat)
    requires var kept := KeptPieces(text, Pieces(text), IsRustBlank);
      i < |kept| && kept[i].start <= start < kept[i].end
    ensures SentenceIndex(SentenceEnds(text, Chars), start) == i
  {
    var kept := KeptPieces(text, Pieces(text), IsRustBlank);
    CharEndsArePieceEnds(text, 0);
    KeptPiecesOrdered(text, 0, IsRustBlank);
    KeptPiecesStartBeforeEnd(text, kept);
    PieceEndsLocate(kept, i, start);
  }

  /** Among pieces in document order, a start inside piece `i` finds its first end past it at `i`. */
  lemma PieceEndsLocate(kept: seq<Piece>, i: nat, start: nat)
    requires i < |kept| && kept[i].start <= start < kept[i].end
    requires forall m :: 0 <= m < |kept| - 1 ==> kept[m].end <= kept[m + 1].start
    requires forall m :: 0 <= m < |kept| ==> kept[m].start < kept[m].end
    ensures SentenceIndex(PieceEnds(kept), start) == i
  {
    var ends := PieceEnds(kept);
    forall j | 0 <= j < i ensures ends[j] <= start {
      KeptEndsBefore(kept, j, i);
    }
    assert start < ends[i];
  }

  /** Every kept piece is non-empty. */
  lemma KeptPiecesStartBeforeEnd(text: string, kept: seq<Piece>)
    requires kept == KeptPieces(text, Pieces(text), IsRustBlank)
    ensures forall i :: 0 <= i < |kept| ==> kept[i].start < kept[i].end
  {
    PiecesFromTiling(text, 0);
    forall i | 0 <= i < |kept| ensures kept[i].start < kept[i].end {
      assert kept[i] in kept;
      KeptPiecesIff(text, Pieces(text), IsRustBlank, kept[i]);
    }
  }

  /** Pieces in document order: an earlier piece ends no later than a later one starts. */
  lemma {:induction false} KeptEndsBefore(kept: seq<Piece>, j: nat, i: nat)
    requires j < i < |kept|
    requires forall m :: 0 <= m < |kept| - 1 ==> kept[m].end <= kept[m + 1].start
    requires forall m :: 0 <= m < |kept| ==> kept[m].start < kept[m].end
    ensures kept[j].end <= kept[i].start
    decreases i - j
  {
    if j + 1 < i {
      KeptEndsBefore(kept, j + 1, i);
    }
  }

  /** In a pure ASCII document bytes and characters coincide, so the two units agree. */
  lemma {:induction false} AsciiEndsAgree(text: string, from: nat)
    requires from <= |text|
    requires forall j :: 0 <= j < |text| ==> text[j] < '\U{0080}'
    ensures EndsFrom(text, from, Bytes) == EndsFrom(text, from, Chars)
    decreases |text| - from
  {
    var k := NextTerminator(text, from);
    if k < |text| {
      AsciiEndsAgree(text, k + 1);
      AsciiByteOffset(text, k + 1);
    }
  }

  lemma {:induction false} AsciiByteOffset(text: string, k: nat)
    requires k <= |text|
    requires forall j :: 0 <= j < |text| ==> text[j] < '\U{0080}'
    ensures ByteOffset(text, k) == k
  {
    if k > 0 {
      AsciiByteOffset(text, k - 1);
    }
  }

  /**
   * As written, the ends of terminated sentences are byte offsets: in "あ。い。" the token い
   * starts at character 2, but the first end is byte 6, so い is counted under sentence 0
   * although it lies in sentence 1.
   */
  lemma ByteEndsMisplace()
    ensures var text := "あ。い。";
      && |DocumentSentences(text, IsRustBlank)| == 2
      && DocumentSentences(text, IsRustBlank)[1].text == "い。"
      && SentenceIndex(SentenceEnds(text, Bytes), 2) == 0
      && SentenceIndex(SentenceEnds(text, Chars), 2) == 1
  {
    var text := "あ。い。";
    assert NextTerminator(text, 3) == 3;
    assert NextTerminator(text, 2) == 3;
    assert NextTerminator(text, 1) == 1;
    assert NextTerminator(text, 0) == 1;
    assert NextTerminator(text, 4) == 4;
    assert text[0..2] == "あ。" && text[2..4] == "い。";
    assert !IsRustBlank("あ。") && !IsRustBlank("い。");
    assert ByteOffset(text, 2) == 6;
    assert ByteOffset(text, 4) == 12;
    assert SentenceEnds(text, Bytes) == [6, 12];
    assert SentenceEnds(text, Chars) == [2, 4];
  }
}
