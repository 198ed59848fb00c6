/**
 * Cutting a document into pieces at sentence terminators.
 *
 * Both pipelines scan the text for the next `。`, `？`, `！` or line feed and cut just after it;
 * whatever follows the last terminator is a trailing fragment. The worker does this with a
 * global regular expression `/[。？！]|\n/g` and `exec`, the Tauri command with `Regex::find_iter`
 * over `[。？！\n]`. Each pipeline then keeps the pieces that are not blank (under its own notion
 * of white space) and numbers the kept ones from 0.
 */
module Segmentation {
  import opened Strings

  predicate IsTerminator(c: char) {
    c == '。' || c == '？' || c == '！' || c == '\n'
  }

  /** The next regular-expression match at or after `from`: the first terminator's offset, or `|text|` if none remains. */
  function NextTerminator(text: string, from: nat): (k: nat)
    requires from <= |text|
    ensures from <= k <= |text|
    ensures k < |text| ==> IsTerminator(text[k])
    decreases |text| - from
  {
    if from == |text| || IsTerminator(text[from]) then from else NextTerminator(text, from + 1)
  }

  /** No terminator lies between `from` and the next one: the match found is the first. */
  lemma {:induction false} NextTerminatorFirst(text: string, from: nat)
    requires from <= |text|
    ensures forall j :: from <= j < NextTerminator(text, from) ==> !IsTerminator(text[j])
    decreases |text| - from
  {
    if from < |text| && !IsTerminator(text[from]) {
      NextTerminatorFirst(text, from + 1);
    }
  }

  /** A piece of the text: offsets `start` (inclusive) to `end` (exclusive). */
  datatype Piece = Piece(start: nat, end: nat)

  /** Every piece is a non-empty stretch of `text`. */
  predicate InRange(text: string, ps: seq<Piece>) {
    forall i :: 0 <= i < |ps| ==> ps[i].start < ps[i].end <= |text|
  }

  /** The pieces cut from `text[from..]`: one per terminator, then the trailing fragment if it is not empty. */
  function PiecesFrom(text: string, from: nat): (ps: seq<Piece>)
    requires from <= |text|
    decreases |text| - from
  {
    var k := NextTerminator(text, from);
    if k < |text| then [Piece(from, k + 1)] + PiecesFrom(text, k + 1)
    else if from < |text| then [Piece(from, |text|)]
    else []
  }

  function Pieces(text: string): (ps: seq<Piece>)
  {
    PiecesFrom(text, 0)
  }

  /** The text of a piece (empty for offsets outside the text, which no cut produces). */
  function PieceText(text: string, p: Piece): string {
    if p.start <= p.end <= |text| then text[p.start..p.end] else []
  }

  /** The pieces are well formed, lie in `[from, |text|]` and follow each other without gap. */
  ghost predicate Tiling(text: string, ps: seq<Piece>, from: nat) {
    && (forall i :: 0 <= i < |ps| ==> from <= ps[i].start < ps[i].end <= |text|)
    && (ps != [] ==> ps[0].start == from && ps[|ps| - 1].end == |text|)
    && (forall i :: 0 <= i < |ps| - 1 ==> ps[i].end == ps[i + 1].start)
  }

  /** The concatenation of the texts of `ps`. */
  function Concat(text: string, ps: seq<Piece>): string {
    if ps == [] then [] else PieceText(text, ps[0]) + Concat(text, ps[1..])
  }

  /**
   * Every piece ends just after a terminator, except a trailing fragment, which is the last
   * piece and holds no terminator; no piece holds a terminator anywhere else.
   */
  ghost predicate WellCut(text: string, ps: seq<Piece>) {
    && InRange(text, ps)
    && (forall i, j :: 0 <= i < |ps| && ps[i].start <= j < ps[i].end - 1 ==> !IsTerminator(text[j]))
    && (forall i :: 0 <= i < |ps| - 1 ==> IsTerminator(text[ps[i].end - 1]))
  }

  /** The pieces follow each other without gap or overlap from `from` to the end of the text. */
  lemma {:induction false} PiecesFromTiling(text: string, from: nat)
    requires from <= |text|
    ensures Tiling(text, PiecesFrom(text, from), from)
    ensures PiecesFrom(text, from) == [] <==> from == |text|
    decreases |text| - from
  {
    var k := NextTerminator(text, from);
    if k < |text| {
      PiecesFromTiling(text, k + 1);
      var rest := PiecesFrom(text, k + 1);
      var ps := PiecesFrom(text, from);
      assert ps == [Piece(from, k + 1)] + rest;
      forall i | 0 <= i < |ps| - 1 ensures ps[i].end == ps[i + 1].start {
        if i > 0 {
          assert ps[i] == rest[i - 1] && ps[i + 1] == rest[i];
        }
      }
    }
  }

  /** Putting the pieces' texts together gives back `text[from..]`. */
  lemma {:induction false} PiecesFromConcat(text: string, from: nat)
    requires from <= |text|
    ensures Tiling(text, PiecesFrom(text, from), from)
    ensures Concat(text, PiecesFrom(text, from)) == text[from..]
    decreases |text| - from
  {
    PiecesFromTiling(text, from);
    var k := NextTerminator(text, from);
    var ps := PiecesFrom(text, from);
    if k < |text| {
      PiecesFromConcat(text, k + 1);
      assert ps[1..] == PiecesFrom(text, k + 1);
      assert text[from..] == text[from..k + 1] + text[k + 1..];
    } else if from < |text| {
      assert ps[1..] == [];
    }
  }

  /** One piece: it holds no terminator before its last character, and that one is a terminator unless the piece is last. */
  lemma {:induction false} PieceAtCut(text: string, from: nat, i: nat)
    requires from <= |text|
    requires i < |PiecesFrom(text, from)|
    ensures var ps := PiecesFrom(text, from);
      && from <= ps[i].start < ps[i].end <= |text|
      && (forall j :: ps[i].start <= j < ps[i].end - 1 ==> !IsTerminator(text[j]))
      && (i < |ps| - 1 ==> IsTerminator(text[ps[i].end - 1]))
    decreases |text| - from
  {
    var k := NextTerminator(text, from);
    NextTerminatorFirst(text, from);
    if k < |text| && i > 0 {
      PieceAtCut(text, k + 1, i - 1);
      var ps := PiecesFrom(text, from);
      assert ps[i] == PiecesFrom(text, k + 1)[i - 1];
    }
  }

  /** The pieces are cut exactly at the terminators. */
  lemma PiecesFromWellCut(text: string, from: nat)
    requires from <= |text|
    ensures WellCut(text, PiecesFrom(text, from))
  {
    var ps := PiecesFrom(text, from);
    forall i | 0 <= i < |ps| {
      PieceAtCut(text, from, i);
    }
  }

  /** The pieces of the whole text tile it; the empty text has no piece. */
  lemma PiecesTile(text: string)
    ensures var ps := Pieces(text);
      && Tiling(text, ps, 0)
      && Concat(text, ps) == text
      && WellCut(text, ps)
      && (ps == [] <==> text == [])
  {
    PiecesFromTiling(text, 0);
    PiecesFromConcat(text, 0);
    PiecesFromWellCut(text, 0);
    assert text[0..] == text;
  }

  /** Number of line feeds in `text` before offset `p`: the 0-based line of offset `p` (0 past the end, where no piece starts). */
  function NewlinesBefore(text: string, p: nat): nat {
    if p == 0 || |text| < p then 0 else NewlinesBefore(text, p - 1) + (if text[p - 1] == '\n' then 1 else 0)
  }

  /** The count before `p` is the number of line feeds in `text[..p]`. */
  lemma {:induction false} NewlinesBeforeCount(text: string, p: nat)
    requires p <= |text|
    ensures NewlinesBefore(text, p) == CountChar(text[..p], '\n')
  {
    if p > 0 {
      NewlinesBeforeCount(text, p - 1);
      assert text[..p] == text[..p - 1] + [text[p - 1]];
      CountCharAppend(text[..p - 1], [text[p - 1]], '\n');
    }
  }

  /** A sentence: its text and the 1-based number of the line it starts on. */
  datatype Sentence = Sentence(text: string, lineNum: nat)

  /** The pieces of `ps` that are not blank, in their order in `ps`. */
  function KeptPieces(text: string, ps: seq<Piece>, blank: string -> bool): (kept: seq<Piece>)
    ensures |kept| <= |ps|
  {
    if ps == [] then []
    else (if blank(PieceText(text, ps[0])) then [] else [ps[0]]) + KeptPieces(text, ps[1..], blank)
  }

  /** A piece is kept exactly when it is one of the pieces and is not blank. */
  lemma {:induction false} KeptPiecesIff(text: string, ps: seq<Piece>, blank: string -> bool, p: Piece)
    ensures p in KeptPieces(text, ps, blank) <==> p in ps && !blank(PieceText(text, p))
  {
    if ps != [] {
      KeptPiecesIff(text, ps[1..], blank, p);
      assert ps == [ps[0]] + ps[1..];
    }
  }

  /** Every kept piece of `text[from..]` starts at or after `from`. */
  lemma KeptPiecesAfter(text: string, from: nat, blank: string -> bool, p: Piece)
    requires from <= |text|
    requires p in KeptPieces(text, PiecesFrom(text, from), blank)
    ensures from <= p.start
  {
    var ps := PiecesFrom(text, from);
    KeptPiecesIff(text, ps, blank, p);
    PiecesFromTiling(text, from);
  }

  /** Kept pieces appear in document order. */
  lemma {:induction false} KeptPiecesOrdered(text: string, from: nat, blank: string -> bool)
    requires from <= |text|
    ensures var kept := KeptPieces(text, PiecesFrom(text, from), blank);
      forall i :: 0 <= i < |kept| - 1 ==> kept[i].end <= kept[i + 1].start
    decreases |text| - from
  {
    var ps := PiecesFrom(text, from);
    var k := NextTerminator(text, from);
    if k < |text| {
      KeptPiecesOrdered(text, k + 1, blank);
      var rest := PiecesFrom(text, k + 1);
      assert ps == [Piece(from, k + 1)] + rest;
      assert ps[1..] == rest;
      var restKept := KeptPieces(text, rest, blank);
      var kept := KeptPieces(text, ps, blank);
      if !blank(PieceText(text, ps[0])) && restKept != [] {
        assert kept == [ps[0]] + restKept;
        KeptPiecesAfter(text, k + 1, blank, restKept[0]);
        forall i | 0 <= i < |kept| - 1 ensures kept[i].end <= kept[i + 1].start {
          if i > 0 {
            assert kept[i] == restKept[i - 1] && kept[i + 1] == restKept[i];
          }
        }
      }
    }
  }

  /** The sentences of the kept pieces: each keeps its text and starts on line 1 + the line feeds before it. */
  function SentencesOf(text: string, kept: seq<Piece>): (ss: seq<Sentence>)
    ensures |ss| == |kept|
  {
    if kept == [] then []
    else [Sentence(PieceText(text, kept[0]), 1 + NewlinesBefore(text, kept[0].start))] + SentencesOf(text, kept[1..])
  }

  lemma {:induction false} SentencesOfAt(text: string, kept: seq<Piece>, i: nat)
    requires i < |kept|
    ensures SentencesOf(text, kept)[i] == Sentence(PieceText(text, kept[i]), 1 + NewlinesBefore(text, kept[i].start))
  {
    if i > 0 {
      SentencesOfAt(text, kept[1..], i - 1);
    }
  }

  /** The sentence a piece yields under a blank test: none when it is blank. */
  function SentenceOfPiece(text: string, p: Piece, blank: string -> bool): seq<Sentence> {
    if blank(PieceText(text, p)) then [] else [Sentence(PieceText(text, p), 1 + NewlinesBefore(text, p.start))]
  }

  /**
   * The sentences of `text[from..]`, scanned terminator by terminator as both pipelines do:
   * each piece up to and including a terminator, then the trailing fragment, each yielding a
   * sentence unless it is blank.
   */
  function SentencesFrom(text: string, from: nat, blank: string -> bool): seq<Sentence>
    requires from <= |text|
    decreases |text| - from
  {
    var k := NextTerminator(text, from);
    if k < |text| then SentenceOfPiece(text, Piece(from, k + 1), blank) + SentencesFrom(text, k + 1, blank)
    else if from < |text| then SentenceOfPiece(text, Piece(from, |text|), blank)
    else []
  }

  /** The sentences of a document under a blank test. */
  function DocumentSentences(text: string, blank: string -> bool): seq<Sentence> {
    SentencesFrom(text, 0, blank)
  }

  lemma KeptPiecesCons(text: string, p: Piece, rest: seq<Piece>, blank: string -> bool)
    ensures KeptPieces(text, [p] + rest, blank)
         == (if blank(PieceText(text, p)) then [] else [p]) + KeptPieces(text, rest, blank)
  {
    assert ([p] + rest)[0] == p && ([p] + rest)[1..] == rest;
  }

  lemma SentencesOfCons(text: string, p: Piece, rest: seq<Piece>)
    ensures SentencesOf(text, [p] + rest)
         == [Sentence(PieceText(text, p), 1 + NewlinesBefore(text, p.start))] + SentencesOf(text, rest)
  {
    assert ([p] + rest)[0] == p && ([p] + rest)[1..] == rest;
  }

  /** The sentences of a piece followed by others: the piece's own, then theirs. */
  lemma SentencesOfKeptCons(text: string, p: Piece, rest: seq<Piece>, blank: string -> bool)
    ensures SentencesOf(text, KeptPieces(text, [p] + rest, blank))
         == SentenceOfPiece(text, p, blank) + SentencesOf(text, KeptPieces(text, rest, blank))
  {
    KeptPiecesCons(text, p, rest, blank);
    if !blank(PieceText(text, p)) {
      SentencesOfCons(text, p, KeptPieces(text, rest, blank));
    } else {
      assert [] + KeptPieces(text, rest, blank) == KeptPieces(text, rest, blank);
    }
  }

  lemma SentencesOfKeptSingle(text: string, p: Piece, blank: string -> bool)
    ensures SentencesOf(text, KeptPieces(text, [p], blank)) == SentenceOfPiece(text, p, blank)
  {
    assert [p][1..] == [];
    if !blank(PieceText(text, p)) {
      assert KeptPieces(text, [p], blank) == [p];
    }
  }

  lemma SentencesFromPiecesCut(text: string, from: nat, k: nat, blank: string -> bool)
    requires from <= k < |text| && NextTerminator(text, from) == k
    requires SentencesFrom(text, k + 1, blank) == SentencesOf(text, KeptPieces(text, PiecesFrom(text, k + 1), blank))
    ensures SentencesFrom(text, from, blank) == SentencesOf(text, KeptPieces(text, PiecesFrom(text, from), blank))
  {
    assert PiecesFrom(text, from) == [Piece(from, k + 1)] + PiecesFrom(text, k + 1);
    SentencesOfKeptCons(text, Piece(from, k + 1), PiecesFrom(text, k + 1), blank);
  }

  lemma SentencesFromPiecesEnd(text: string, from: nat, blank: string -> bool)
    requires from <= |text| && NextTerminator(text, from) == |text|
    ensures SentencesFrom(text, from, blank) == SentencesOf(text, KeptPieces(text, PiecesFrom(text, from), blank))
  {
    if from < |text| {
      assert PiecesFrom(text, from) == [Piece(from, |text|)];
      SentencesOfKeptSingle(text, Piece(from, |text|), blank);
    }
  }

  /** Scanning terminator by terminator yields the sentences of the kept pieces. */
  lemma {:induction false} SentencesFromPieces(text: string, from: nat, blank: string -> bool)
    requires from <= |text|
    ensures SentencesFrom(text, from, blank) == SentencesOf(text, KeptPieces(text, PiecesFrom(text, from), blank))
    decreases |text| - from
  {
    var k := NextTerminator(text, from);
    if k < |text| {
      SentencesFromPieces(text, k + 1, blank);
      SentencesFromPiecesCut(text, from, k, blank);
    } else {
      SentencesFromPiecesEnd(text, from, blank);
    }
  }

  /** A document's sentences are those of its non-blank pieces, in document order. */
  lemma DocumentSentencesPieces(text: string, blank: string -> bool)
    ensures DocumentSentences(text, blank) == SentencesOf(text, KeptPieces(text, Pieces(text), blank))
  {
    SentencesFromPieces(text, 0, blank);
  }

  /** One step of the scan: the piece up to the terminator at `k`, then the rest. */
  lemma SentencesFromCut(text: string, from: nat, k: nat, blank: string -> bool)
    requires from <= k < |text| && k == NextTerminator(text, from)
    ensures SentencesFrom(text, from, blank) == SentenceOfPiece(text, Piece(from, k + 1), blank) + SentencesFrom(text, k + 1, blank)
  {
  }

  /** The last step of the scan: the trailing fragment, if any. */
  lemma SentencesFromEnd(text: string, from: nat, blank: string -> bool)
    requires from <= |text| && NextTerminator(text, from) == |text|
    ensures SentencesFrom(text, from, blank) == if from < |text| then SentenceOfPiece(text, Piece(from, |text|), blank) else []
  {
  }
}
