/** Words, lines and blocks of formatted text: what the f formatter makes of its input. */
module TextLayout {
  // ---- Characters and words

  predicate IsBlank(c: char) {
    c == ' ' || c == '\t'
  }

  function SkipWs(s: string, i: nat): (j: nat)
    requires i <= |s|
    ensures i <= j <= |s| && (j < |s| ==> !IsBlank(s[j]))
    ensures forall k :: i <= k < j ==> IsBlank(s[k])
    decreases |s| - i
  {
    if i < |s| && IsBlank(s[i]) then SkipWs(s, i + 1) else i
  }

  /** The length of the line end at i, or 0. */
  function Crlf(s: string, i: nat): (n: nat)
    requires i <= |s|
    ensures i + n <= |s|
  {
    if i == |s| then 0
    else if s[i] == '\n' then 1
    else if s[i] == '\r' && i + 1 < |s| && s[i + 1] == '\n' then 2
    else 0
  }

  predicate AtLineEnd(s: string, i: nat)
    requires i <= |s|
  {
    i == |s| || Crlf(s, i) > 0
  }

  /** The first blank or line end from i on. */
  function WordEnd(s: string, i: nat): (j: nat)
    requires i <= |s|
    ensures i <= j <= |s| && (AtLineEnd(s, j) || IsBlank(s[j]))
    ensures !AtLineEnd(s, i) && !IsBlank(s[i]) ==> i < j
    decreases |s| - i
  {
    if AtLineEnd(s, i) || IsBlank(s[i]) then i else WordEnd(s, i + 1)
  }

  /** The words from i on: the runs without blanks and line ends. */
  function Words(s: string, i: nat): seq<string>
    requires i <= |s|
    decreases |s| - i
  {
    if i == |s| then []
    else if IsBlank(s[i]) then Words(s, i + 1)
    else if Crlf(s, i) > 0 then Words(s, i + Crlf(s, i))
    else [s[i..WordEnd(s, i)]] + Words(s, WordEnd(s, i))
  }

  // ---- Lines and blocks

  function LineEnd(s: string, i: nat): (e: nat)
    requires i <= |s|
    ensures i <= e <= |s| && AtLineEnd(s, e)
    decreases |s| - i
  {
    var u := SkipWs(s, i);
    if AtLineEnd(s, u) then u else LineEnd(s, WordEnd(s, u))
  }

  function LineWords(s: string, i: nat): seq<string>
    requires i <= |s|
    decreases |s| - i
  {
    var u := SkipWs(s, i);
    if AtLineEnd(s, u) then [] else [s[u..WordEnd(s, u)]] + LineWords(s, WordEnd(s, u))
  }

  /** The start of the next line, after its leading blanks. */
  function LineRest(s: string, i: nat): (r: nat)
    requires i <= |s|
    ensures i <= r <= |s| && (i < |s| ==> i < r) && (r < |s| ==> !IsBlank(s[r]))
  {
    var e := LineEnd(s, i);
    SkipWs(s, e + Crlf(s, e))
  }

  predicate DashAt(s: string, i: nat) {
    i < |s| && s[i] == '-'
  }

  /** A block goes on with a line that is not blank and does not start with a dash. */
  predicate Continues(s: string, i: nat)
    requires i <= |s|
  {
    !AtLineEnd(s, i) && !DashAt(s, i)
  }

  datatype Block = Block(dash: bool, words: seq<string>, lines: nat, rest: nat)

  function BlockBody(s: string, i: nat): (b: Block)
    requires i <= |s|
    ensures i <= b.rest <= |s| && (i < |s| ==> i < b.rest)
    ensures b.lines > 0 && !b.dash
    decreases |s| - i
  {
    var r := LineRest(s, i);
    if Continues(s, r) then
      var b := BlockBody(s, r);
      Block(false, LineWords(s, i) + b.words, 1 + b.lines, b.rest)
    else Block(false, LineWords(s, i), 1, r)
  }

  function SkipBlankLines(s: string, i: nat): (u: nat)
    requires i <= |s|
    ensures i <= u <= |s|
    decreases |s| - i
  {
    var u := SkipWs(s, i);
    if Crlf(s, u) > 0 then SkipBlankLines(s, u + Crlf(s, u)) else u
  }

  /** Where the lines of the block at u start: after its dash, if it has one. */
  function BodyStart(s: string, u: nat): (v: nat)
    requires u <= |s|
    ensures u <= v <= |s| && (DashAt(s, u) ==> u < v)
  {
    if DashAt(s, u) then SkipWs(s, u + 1) else u
  }

  /** The next block: blank lines, perhaps a list dash, then lines up to a blank one or a dash. */
  function BlockOf(s: string, i: nat): (b: Block)
    requires i <= |s|
    ensures i <= b.rest <= |s| && (i < |s| ==> i < b.rest)
    ensures b.lines > 0 && b.dash == DashAt(s, SkipBlankLines(s, i))
  {
    var u := SkipBlankLines(s, i);
    BlockBody(s, BodyStart(s, u)).(dash := DashAt(s, u))
  }

  // ---- Pieces of output

  datatype Piece = OpenList | CloseList
                 | Item(words: seq<string>) | Heading(words: seq<string>) | Paragraph(words: seq<string>)

  predicate HasDot(words: seq<string>) {
    exists i :: 0 <= i < |words| && '.' in words[i]
  }

  function BlockPiece(b: Block, inList: bool, headers: bool): seq<Piece> {
    if inList then [Item(b.words)]
    else if headers && !HasDot(b.words) && b.lines == 1 && 0 < |b.words| < 10 then [Heading(b.words)]
    else if |b.words| > 0 then [Paragraph(b.words)]
    else []
  }

  function Opening(list: bool, dash: bool): seq<Piece> {
    if dash && !list then [OpenList] else []
  }

  function Closing(list: bool, dash: bool): seq<Piece> {
    if list && !dash then [CloseList] else []
  }

  /** What one block contributes; list says whether a list is open before it, dash whether one comes next. */
  function BlockPieces(b: Block, list: bool, dash: bool, headers: bool): seq<Piece> {
    Opening(list, b.dash) + BlockPiece(b, list || b.dash, headers) + Closing(list || b.dash, dash)
  }

  /** The pieces from i on; the loop runs at least once, and again while text is left. */
  function Pieces(s: string, i: nat, list: bool, headers: bool): seq<Piece>
    requires i <= |s|
    decreases |s| - i
  {
    var b := BlockOf(s, i);
    BlockPieces(b, list, DashAt(s, b.rest), headers) +
    (if b.rest == |s| then [] else Pieces(s, b.rest, (list || b.dash) && DashAt(s, b.rest), headers))
  }

  // ---- Lists are balanced

  predicate MayStand(p: Piece, open: bool) {
    if p.Item? || p.CloseList? then open else !open
  }

  function OpenAfter(p: Piece, open: bool): bool {
    if p.OpenList? then true else if p.CloseList? then false else open
  }

  /** Items stand inside lists and the other blocks outside; lists do not nest, and none stays open. */
  predicate Balanced(pieces: seq<Piece>, open: bool) {
    if pieces == [] then !open
    else MayStand(pieces[0], open) && Balanced(pieces[1..], OpenAfter(pieces[0], open))
  }

  lemma {:induction false} PiecesBalanced(s: string, i: nat, list: bool, headers: bool)
    requires i <= |s| && (list ==> DashAt(s, i))
    ensures Balanced(Pieces(s, i, list, headers), list)
    decreases |s| - i
  {
    hide Balanced, BlockPieces, BlockOf;
    var b := BlockOf(s, i);
    DashStarts(s, i);
    var dash := DashAt(s, b.rest);
    var rest := if b.rest == |s| then [] else Pieces(s, b.rest, (list || b.dash) && dash, headers);
    if b.rest < |s| {
      PiecesBalanced(s, b.rest, (list || b.dash) && dash, headers);
    }
    NothingBalanced();
    BalancedPrefix(b, list, dash, headers, rest);
  }

  lemma NothingBalanced()
    ensures Balanced([], false)
  {
  }

  lemma DashStarts(s: string, i: nat)
    requires i <= |s|
    ensures DashAt(s, i) ==> BlockOf(s, i).dash
  {
  }

  lemma BalancedStep(p: seq<Piece>, rest: seq<Piece>, open: bool)
    requires |p| <= 1
    requires p != [] ==> MayStand(p[0], open)
    requires Balanced(rest, if p == [] then open else OpenAfter(p[0], open))
    ensures Balanced(p + rest, open)
  {
    if p == [] {
      assert p + rest == rest;
    } else {
      assert (p + rest)[1..] == rest;
    }
  }

  lemma BalancedPrefix(b: Block, list: bool, dash: bool, headers: bool, rest: seq<Piece>)
    requires list ==> b.dash
    requires Balanced(rest, (list || b.dash) && dash)
    ensures Balanced(BlockPieces(b, list, dash, headers) + rest, list)
  {
    hide Balanced;
    var open := Opening(list, b.dash);
    var piece := BlockPiece(b, b.dash, headers);
    var close := Closing(b.dash, dash);
    BalancedStep(close, rest, b.dash);
    BalancedStep(piece, close + rest, b.dash);
    BalancedStep(open, piece + (close + rest), list);
    assert BlockPieces(b, list, dash, headers) + rest == open + (piece + (close + rest));
  }

  // ---- The words come through

  function OwnWords(p: Piece): seq<string> {
    if p.OpenList? || p.CloseList? then [] else p.words
  }

  /** The words of the pieces, in order. */
  function PieceWords(pieces: seq<Piece>): seq<string> {
    if pieces == [] then [] else OwnWords(pieces[0]) + PieceWords(pieces[1..])
  }

  function Items(pieces: seq<Piece>): nat {
    if pieces == [] then 0 else (if pieces[0].Item? then 1 else 0) + Items(pieces[1..])
  }

  lemma {:induction false} PieceSums(a: seq<Piece>, b: seq<Piece>)
    ensures PieceWords(a + b) == PieceWords(a) + PieceWords(b)
    ensures Items(a + b) == Items(a) + Items(b)
    decreases |a|
  {
    hide OwnWords;
    if a == [] {
      assert a + b == b;
    } else {
      PieceSums(a[1..], b);
      assert (a + b)[1..] == a[1..] + b;
      assert PieceWords(a + b) == OwnWords(a[0]) + (PieceWords(a[1..]) + PieceWords(b));
    }
  }

  lemma OnePiece(p: Piece)
    ensures PieceWords([p]) == OwnWords(p)
    ensures Items([p]) == if p.Item? then 1 else 0
    ensures PieceWords([]) == [] && Items([]) == 0
  {
  }

  lemma BlockPieceSums(b: Block, list: bool, dash: bool, headers: bool)
    ensures PieceWords(BlockPieces(b, list, dash, headers)) == b.words
    ensures Items(BlockPieces(b, list, dash, headers)) == if list || b.dash then 1 else 0
  {
    hide PieceWords, Items;
    var inList := list || b.dash;
    var piece := BlockPiece(b, inList, headers);
    var open := Opening(list, b.dash);
    var close := Closing(inList, dash);
    OnePiece(OpenList);
    OnePiece(CloseList);
    if piece != [] {
      assert piece == [piece[0]];
      OnePiece(piece[0]);
    }
    PieceSums(open + piece, close);
    PieceSums(open, piece);
  }

  /** The places of the list dashes: one for each block that starts with a dash. */
  function Dashes(s: string, i: nat): (d: set<nat>)
    requires i <= |s|
    ensures forall k :: k in d ==> i <= k && DashAt(s, k)
    decreases |s| - i
  {
    var b := BlockOf(s, i);
    (if b.dash then {SkipBlankLines(s, i)} else {}) + (if b.rest == |s| then {} else Dashes(s, b.rest))
  }

  /** The text with a space in place of each list dash. */
  function Undashed(s: string): (t: string)
    ensures |t| == |s|
  {
    seq(|s|, k requires 0 <= k < |s| => if k in Dashes(s, 0) then ' ' else s[k])
  }

  lemma {:induction false} DashPerItem(s: string, i: nat, list: bool, headers: bool)
    requires i <= |s| && (list ==> DashAt(s, i))
    ensures |Dashes(s, i)| == Items(Pieces(s, i, list, headers))
    decreases |s| - i
  {
    hide BlockPieces, BlockOf, BodyStart, SkipBlankLines;
    var b, u := BlockOf(s, i), SkipBlankLines(s, i);
    DashStarts(s, i);
    BlockBeforeRest(s, i);
    var dash := DashAt(s, b.rest);
    var next := (list || b.dash) && dash;
    BlockPieceSums(b, list, dash, headers);
    if b.rest < |s| {
      DashPerItem(s, b.rest, next, headers);
      PieceSums(BlockPieces(b, list, dash, headers), Pieces(s, b.rest, next, headers));
      assert u !in Dashes(s, b.rest);
    } else {
      PieceSums(BlockPieces(b, list, dash, headers), []);
    }
  }

  lemma BlockBeforeRest(s: string, i: nat)
    requires i <= |s|
    ensures BlockOf(s, i).dash ==> SkipBlankLines(s, i) < BlockOf(s, i).rest
    ensures BodyStart(s, SkipBlankLines(s, i)) <= BlockOf(s, i).rest
    ensures BlockBody(s, BodyStart(s, SkipBlankLines(s, i))).rest == BlockOf(s, i).rest
    ensures BlockBody(s, BodyStart(s, SkipBlankLines(s, i))).words == BlockOf(s, i).words
  {
    hide BlockBody, SkipBlankLines, BodyStart;
  }

  predicate Agree(s: string, t: string, a: nat, b: nat) {
    |s| == |t| && forall k :: a <= k < b <= |s| ==> s[k] == t[k]
  }

  lemma {:induction false} BlanksPass(t: string, a: nat, b: nat)
    requires a <= b <= |t| && forall k :: a <= k < b ==> IsBlank(t[k])
    ensures Words(t, a) == Words(t, b)
    decreases b - a
  {
    if a < b {
      BlanksPass(t, a + 1, b);
    }
  }

  lemma LineEndPasses(t: string, e: nat)
    requires e <= |t|
    ensures Words(t, e) == Words(t, e + Crlf(t, e))
  {
  }

  lemma {:induction false} BlankLinesPass(s: string, t: string, i: nat)
    requires i <= |s| && Agree(s, t, i, SkipBlankLines(s, i))
    ensures Words(t, i) == Words(t, SkipBlankLines(s, i))
    decreases |s| - i
  {
    hide Words;
    var u := SkipWs(s, i);
    BlanksPass(t, i, u);
    if Crlf(s, u) > 0 {
      LineEndPasses(t, u);
      BlankLinesPass(s, t, u + Crlf(s, u));
    }
  }

  lemma {:induction false} WordAgrees(s: string, t: string, i: nat, hi: nat)
    requires i <= |s| && Agree(s, t, i, hi)
    requires var w := WordEnd(s, i);
             w + Crlf(s, w) <= hi <= |s| && (w < hi || hi == |s|)
    ensures WordEnd(t, i) == WordEnd(s, i) && s[i..WordEnd(s, i)] == t[i..WordEnd(s, i)]
    decreases |s| - i
  {
    if !AtLineEnd(s, i) && !IsBlank(s[i]) {
      WordAgrees(s, t, i + 1, hi);
    }
  }

  lemma {:induction false} BlanksAgree(s: string, t: string, i: nat, hi: nat)
    requires i <= |s| && Agree(s, t, i, hi)
    requires SkipWs(s, i) < hi <= |s| || hi == |s|
    ensures SkipWs(t, i) == SkipWs(s, i)
    decreases |s| - i
  {
    if i < |s| && IsBlank(s[i]) {
      BlanksAgree(s, t, i + 1, hi);
    }
  }

  /** Texts that agree on a line have the same words there. */
  lemma {:induction false} LineAgrees(s: string, t: string, i: nat)
    requires i <= |s| && Agree(s, t, i, LineEnd(s, i) + Crlf(s, LineEnd(s, i)))
    ensures LineEnd(t, i) == LineEnd(s, i) && LineWords(t, i) == LineWords(s, i)
    ensures Crlf(t, LineEnd(s, i)) == Crlf(s, LineEnd(s, i))
    decreases |s| - i
  {
    hide WordEnd, SkipWs;
    var u, e := SkipWs(s, i), LineEnd(s, i);
    var hi := e + Crlf(s, e);
    assert e < hi || hi == |s|;
    BlanksAgree(s, t, i, hi);
    if !AtLineEnd(s, u) {
      var w := WordEnd(s, u);
      assert e == LineEnd(s, w);
      assert Crlf(s, w) == 0 || w == e;
      WordAgrees(s, t, u, hi);
      LineAgrees(s, t, w);
    }
  }

  lemma {:induction false} WordsOfLine(t: string, i: nat)
    requires i <= |t|
    ensures Words(t, i) == LineWords(t, i) + Words(t, LineEnd(t, i))
    decreases |t| - i
  {
    hide WordEnd, SkipWs, Crlf;
    var u := SkipWs(t, i);
    BlanksPass(t, i, u);
    if !AtLineEnd(t, u) {
      WordsOfLine(t, WordEnd(t, u));
    }
  }

  lemma WordsToNextLine(s: string, t: string, i: nat)
    requires i <= |s| && Agree(s, t, i, LineRest(s, i))
    ensures Words(t, i) == LineWords(s, i) + Words(t, LineRest(s, i))
  {
    hide Words, LineWords, LineEnd, Crlf, SkipWs;
    var e := LineEnd(s, i);
    LineAgrees(s, t, i);
    WordsOfLine(t, i);
    LineEndPasses(t, e);
    BlanksPass(t, e + Crlf(s, e), LineRest(s, i));
  }

  lemma {:induction false} WordsOfBody(s: string, t: string, i: nat)
    requires i <= |s| && Agree(s, t, i, BlockBody(s, i).rest)
    ensures Words(t, i) == BlockBody(s, i).words + Words(t, BlockBody(s, i).rest)
    decreases |s| - i
  {
    hide Words, LineWords, LineRest, Crlf;
    var r := LineRest(s, i);
    WordsToNextLine(s, t, i);
    if Continues(s, r) {
      WordsOfBody(s, t, r);
    }
  }

  /** A block's words are those of its part of the text without the dash. */
  lemma WordsOfBlock(s: string, t: string, i: nat)
    requires i <= |s| == |t|
    requires var b := BlockOf(s, i);
             forall k :: i <= k < b.rest ==> t[k] == if b.dash && k == SkipBlankLines(s, i) then ' ' else s[k]
    ensures Words(t, i) == BlockOf(s, i).words + Words(t, BlockOf(s, i).rest)
  {
    BlockBeforeRest(s, i);
    hide Words, BlockBody, SkipBlankLines, BlockOf, Crlf, SkipWs;
    var u := SkipBlankLines(s, i);
    var v := BodyStart(s, u);
    assert Agree(s, t, i, u) && Agree(s, t, v, BlockOf(s, i).rest);
    BlankLinesPass(s, t, i);
    assert forall k :: u <= k < v ==> IsBlank(t[k]);
    BlanksPass(t, u, v);
    WordsOfBody(s, t, v);
  }

  lemma {:induction false} WordsFrom(s: string, t: string, i: nat, list: bool, headers: bool)
    requires i <= |s| == |t|
    requires forall k :: i <= k < |s| ==> t[k] == if k in Dashes(s, i) then ' ' else s[k]
    ensures PieceWords(Pieces(s, i, list, headers)) == Words(t, i)
    decreases |s| - i
  {
    BlockBeforeRest(s, i);
    hide BlockPieces, BlockOf, BodyStart, SkipBlankLines, PieceWords, Words, BlockBody;
    var b := BlockOf(s, i);
    var dash := DashAt(s, b.rest);
    var next := (list || b.dash) && dash;
    WordsOfBlock(s, t, i);
    BlockPieceSums(b, list, dash, headers);
    if b.rest < |s| {
      WordsFrom(s, t, b.rest, next, headers);
      PieceSums(BlockPieces(b, list, dash, headers), Pieces(s, b.rest, next, headers));
    } else {
      PieceSums(BlockPieces(b, list, dash, headers), []);
      NoWordsLeft(t);
    }
  }

  lemma NoWordsLeft(t: string)
    ensures Words(t, |t|) == [] && PieceWords([]) == []
  {
  }

  /** In order, the pieces hold exactly the words of the text without its list dashes, one dash per item. */
  lemma WordsComeThrough(s: string, headers: bool)
    ensures PieceWords(Pieces(s, 0, false, headers)) == Words(Undashed(s), 0)
    ensures |Dashes(s, 0)| == Items(Pieces(s, 0, false, headers))
  {
    hide Pieces, Dashes, Words, PieceWords, Items;
    WordsFrom(s, Undashed(s), 0, false, headers);
    DashPerItem(s, 0, false, headers);
  }
}
