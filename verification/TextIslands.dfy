/**
 Texts with islands of markup: their rendering never reads back. An island's opening bracket is lost on
 the way out, and nothing on the way back makes a new one.
 */
module TextIslands {
  import opened Wrappers
  import opened Entities
  import opened Escapes
  import opened TextLayout
  import opened TextWrap
  import opened TextFormat
  import opened TextReading

  // ---- Counting opening brackets

  function Brackets(s: string): nat {
    if s == "" then 0 else (if s[0] == '[' then 1 else 0) + Brackets(s[1..])
  }

  lemma {:induction false} BracketsSum(a: string, b: string)
    ensures Brackets(a + b) == Brackets(a) + Brackets(b)
    decreases |a|
  {
    if a == "" {
      assert a + b == b;
    } else {
      assert (a + b)[1..] == a[1..] + b;
      BracketsSum(a[1..], b);
    }
  }

  lemma {:induction false} NoBrackets(s: string)
    requires '[' !in s
    ensures Brackets(s) == 0
  {
    if s != "" {
      NoBrackets(s[1..]);
    }
  }

  function WordBrackets(words: seq<string>): nat {
    if words == [] then 0 else Brackets(words[0]) + WordBrackets(words[1..])
  }

  lemma {:induction false} WordBracketsSum(a: seq<string>, b: seq<string>)
    ensures WordBrackets(a + b) == WordBrackets(a) + WordBrackets(b)
    decreases |a|
  {
    if a == [] {
      assert a + b == b;
    } else {
      assert (a + b)[1..] == a[1..] + b;
      WordBracketsSum(a[1..], b);
    }
  }

  lemma OneWordBrackets(w: string)
    ensures WordBrackets([w]) == Brackets(w)
  {
    assert [w][1..] == [];
  }

  // ---- Reading makes no brackets

  /** No entity stands for an opening bracket. */
  lemma NoBracketEntity(name: string)
    ensures CodeOf(name) != Some('[' as int)
  {
  }

  lemma {:induction false} DecodedBrackets(s: string)
    ensures Brackets(Decoded(s)) <= Brackets(s)
    decreases |s|
  {
    hide CodeOf;
    if s != "" {
      var k := if s[0] == '&' then Semicolon(s, 1) else |s|;
      if k < |s| && CodeOf(s[1..k]).Some? && 0 <= CodeOf(s[1..k]).value < 256 {
        var c := CodeOf(s[1..k]).value as char;
        NoBracketEntity(s[1..k]);
        DecodedBrackets(s[k + 1..]);
        BracketsSum([c], Decoded(s[k + 1..]));
        NoBrackets([c]);
        assert s == s[..k + 1] + s[k + 1..];
        BracketsSum(s[..k + 1], s[k + 1..]);
      } else {
        DecodedBrackets(s[1..]);
        assert ([s[0]] + Decoded(s[1..]))[1..] == Decoded(s[1..]);
      }
    }
  }

  lemma {:induction false} ChunkBrackets(text: string)
    ensures WordBrackets(Chunks(text)) == Brackets(text)
    decreases |text|
  {
    if text == "" {
      OneWordBrackets("");
    } else {
      var n := |text| - 1;
      var init, c := Chunks(text[..n]), text[n];
      ChunkBrackets(text[..n]);
      assert text == text[..n] + [c];
      BracketsSum(text[..n], [c]);
      OneBracket(c);
      if Separates(c) {
        WordBracketsSum(init, [""]);
        OneWordBrackets("");
      } else {
        var m := |init| - 1;
        assert init == init[..m] + [init[m]];
        ChunkGrows(init[..m], init[m], c);
      }
    }
  }

  lemma OneBracket(c: char)
    ensures Brackets([c]) == if c == '[' then 1 else 0
  {
    assert [c][1..] == "";
  }

  lemma ChunkGrows(chunks: seq<string>, last: string, c: char)
    ensures WordBrackets(chunks + [last + [c]]) == WordBrackets(chunks + [last]) + Brackets([c])
  {
    hide Brackets, WordBrackets;
    WordBracketsSum(chunks, [last]);
    WordBracketsSum(chunks, [last + [c]]);
    OneWordBrackets(last);
    OneWordBrackets(last + [c]);
    BracketsSum(last, [c]);
  }

  lemma ReadWordsBrackets(text: string)
    ensures WordBrackets(ReadWords(text)) <= Brackets(text)
  {
    hide Decoded, Chunks;
    if text != "" {
      DecodedBrackets(text);
      ChunkBrackets(Decoded(text));
    }
  }

  lemma TaggedBrackets(s: string, start: string, end: string, k: nat)
    requires start != "" && ReadTagged(s, start, end, k).Some?
    ensures var (text, rest) := ReadTagged(s, start, end, k).value;
            Brackets(text) + Brackets(rest) <= Brackets(s)
  {
    hide Brackets, TagPlace;
    var (text, rest) := ReadTagged(s, start, end, k).value;
    var body := s[|start|..];
    assert s == start + body;
    assert body == text + body[|text|..] && body[|text|..] == end + rest;
    BracketsSum(start, body);
    BracketsSum(text, body[|text|..]);
    BracketsSum(end, rest);
  }

  lemma TailBrackets(s: string, n: nat)
    requires n <= |s|
    ensures Brackets(s[n..]) <= Brackets(s)
  {
    assert s == s[..n] + s[n..];
    BracketsSum(s[..n], s[n..]);
  }

  lemma ReadPieceBrackets(s: string)
    requires ReadPiece(s).Some?
    ensures var (p, rest) := ReadPiece(s).value;
            WordBrackets(OwnWords(p)) + Brackets(rest) <= Brackets(s)
  {
    hide Brackets, ReadWords, ReadTagged;
    var (p, rest) := ReadPiece(s).value;
    match p
    case OpenList =>
      TailBrackets(s, 5);
      NoWordBrackets();
    case CloseList =>
      TailBrackets(s, 6);
      NoWordBrackets();
    case Item(words) =>
      TaggedBrackets(s, "  <li>", "</li>\n", 0);
      ReadWordsBrackets(ReadTagged(s, "  <li>", "</li>\n", 0).value.0);
    case Heading(words) =>
      TaggedBrackets(s, "<h2>", "</h2>\n", 0);
      ReadWordsBrackets(ReadTagged(s, "<h2>", "</h2>\n", 0).value.0);
    case Paragraph(words) =>
      TaggedBrackets(s, "<p>", "\n</p>\n", 1);
      ReadWordsBrackets(ReadTagged(s, "<p>", "\n</p>\n", 1).value.0);
  }

  lemma NoWordBrackets()
    ensures WordBrackets([]) == 0 && PieceWords([]) == []
  {
  }

  /** The words that are read hold no more brackets than the string they are read from. */
  lemma {:induction false} ReadBrackets(s: string)
    requires ReadPieces(s).Some?
    ensures WordBrackets(PieceWords(ReadPieces(s).value)) <= Brackets(s)
    decreases |s|
  {
    hide ReadPiece, Brackets, OwnWords, WordBrackets;
    NoWordBrackets();
    if s != "" {
      var (p, rest) := ReadPiece(s).value;
      var more := ReadPieces(rest).value;
      ReadPieceBrackets(s);
      ReadBrackets(rest);
      assert ([p] + more)[1..] == more;
      WordBracketsSum(OwnWords(p), PieceWords(more));
    }
  }

  // ---- Rendering loses the bracket of an island

  lemma {:induction false} MappedBrackets(f: char -> string, s: string)
    requires forall c :: c in s ==> Brackets(f(c)) == Brackets([c])
    ensures Brackets(Mapped(f, s)) == Brackets(s)
  {
    if s != "" {
      assert s[0] in s && forall c :: c in s[1..] ==> c in s;
      MappedBrackets(f, s[1..]);
      BracketsSum(f(s[0]), Mapped(f, s[1..]));
      OneBracket(s[0]);
    }
  }

  lemma EntityBrackets(c: char)
    requires 160 <= c as int < 256
    ensures Brackets(EntityText(c)) == 0
  {
    TableAgrees(c as int - 160);
    hide EntityName, CodeOf;
    var name := EntityName(c as int - 160);
    assert '[' !in name;
    assert forall x :: x in EntityText(c) ==> x == '&' || x in name || x == ';';
    NoBrackets(EntityText(c));
  }

  lemma CharBrackets(c: char)
    requires c as int < 256
    ensures Brackets(PlainChar(c)) == Brackets([c]) && Brackets(HtmlChar(c)) == Brackets([c])
  {
    hide EntityText;
    OneBracket(c);
    if c as int >= 160 {
      EntityBrackets(c);
    } else if c == '&' || c == '<' || c == '>' || c == '\"' {
      hide Brackets;
      NoBrackets(PlainChar(c));
    }
  }

  lemma EscapedBrackets(s: string)
    requires Bytes(s)
    ensures Brackets(Mapped(PlainChar, s)) == Brackets(s) && Brackets(Mapped(HtmlChar, s)) == Brackets(s)
  {
    hide Brackets, PlainChar, HtmlChar;
    forall c | c in s
      ensures Brackets(PlainChar(c)) == Brackets([c]) && Brackets(HtmlChar(c)) == Brackets([c])
    {
      CharBrackets(c);
    }
    MappedBrackets(PlainChar, s);
    MappedBrackets(HtmlChar, s);
  }

  lemma CutBrackets(s: string, i: nat)
    requires i + 2 <= |s|
    ensures Brackets(s) == Brackets(s[..i]) + Brackets(s[i..i + 2]) + Brackets(s[i + 2..])
  {
    hide Brackets;
    assert s == s[..i] + (s[i..i + 2] + s[i + 2..]);
    BracketsSum(s[..i], s[i..i + 2] + s[i + 2..]);
    BracketsSum(s[i..i + 2], s[i + 2..]);
  }

  lemma IslandIsFound(s: string)
    requires !NoIslands(s)
    ensures FindPair(s, '[', '<', 0) < |s|
  {
  }

  lemma PairBrackets(s: string, i: nat)
    requires PairAt(s, '[', '<', i)
    ensures Brackets(s[i..i + 2]) == 1
  {
    assert s[i..i + 2] == ['['] + ['<'];
    BracketsSum(['['], ['<']);
    OneBracket('[');
    OneBracket('<');
  }

  lemma {:induction false} TextBrackets(s: string)
    requires Bytes(s)
    ensures Brackets(TextWithIslands(s)) <= Brackets(s)
    ensures !NoIslands(s) ==> Brackets(TextWithIslands(s)) < Brackets(s)
    decreases |s|, 0
  {
    hide Mapped, FindPair, PlainChar, TextWithIslands, Island, Brackets, NoIslands;
    Parts(s);
    if !NoIslands(s) {
      IslandIsFound(s);
    }
    var i := FindPair(s, '[', '<', 0);
    EscapedBrackets(s[..i]);
    if i < |s| {
      CutBrackets(s, i);
      PairBrackets(s, i);
      IslandBrackets(s[i + 2..]);
      BracketsSum(Mapped(PlainChar, s[..i]), Island(s[i + 2..]));
    } else {
      assert s[..i] == s && Mapped(PlainChar, s) + "" == Mapped(PlainChar, s);
    }
  }

  lemma {:induction false} IslandBrackets(s: string)
    requires Bytes(s)
    ensures Brackets(Island(s)) <= Brackets(s)
    decreases |s|, 0
  {
    Parts(s);
    var i := FindPair(s, '>', ']', 0);
    hide Mapped, FindPair, HtmlChar, TextWithIslands, Island;
    EscapedBrackets(s[..i]);
    if i < |s| {
      CutBrackets(s, i);
      hide Brackets;
      TextBrackets(s[i + 2..]);
      BracketsSum(Mapped(HtmlChar, s[..i]), TextWithIslands(s[i + 2..]));
    } else {
      assert s[..i] == s;
      BracketsSum(Mapped(HtmlChar, s[..i]), "");
    }
  }

  lemma {:induction false} LaidBrackets(words: seq<string>)
    ensures Brackets(Lay(words)) == WordBrackets(words)
    decreases |words|
  {
    if words == [] {
      assert Lay(words) == "";
    } else {
      hide Brackets, WordBrackets, Lay, LastLine;
      var n := |words| - 1;
      var before := Lay(words[..n]);
      var sep := Separator(before, n == 0);
      LaidBrackets(words[..n]);
      LayLast(words);
      assert words == words[..n] + [words[n]];
      WordBracketsSum(words[..n], [words[n]]);
      OneWordBrackets(words[n]);
      NoBrackets(sep);
      BracketsSum(before, sep);
      BracketsSum(before + sep, words[n]);
    }
  }

  predicate IsByteText(p: Piece) {
    Bytes(Lay(OwnWords(p)))
  }

  lemma NothingHasNoIslands()
    ensures Lay([]) == "" && NoIslands("")
  {
  }

  lemma PieceBrackets(p: Piece)
    requires IsByteText(p)
    ensures Brackets(RenderPiece(p)) <= WordBrackets(OwnWords(p))
    ensures !NoIslands(Lay(OwnWords(p))) ==> Brackets(RenderPiece(p)) < WordBrackets(OwnWords(p))
  {
    hide Brackets, WordBrackets, Lay, TextWithIslands, NoIslands;
    var words := OwnWords(p);
    LaidBrackets(words);
    match p
    case OpenList =>
      NoBrackets("<ul>\n");
      NothingHasNoIslands();
    case CloseList =>
      NoBrackets("</ul>\n");
      NothingHasNoIslands();
    case Item(_) =>
      TaggedTextBrackets("  <li>", words, "</li>\n");
    case Heading(_) =>
      TaggedTextBrackets("<h2>", words, "</h2>\n");
    case Paragraph(_) =>
      TaggedTextBrackets("<p>", words, "\n</p>\n");
  }

  lemma TaggedTextBrackets(start: string, words: seq<string>, end: string)
    requires Bytes(Lay(words)) && '[' !in start && '[' !in end
    ensures Brackets(Tagged(start, words, end)) <= WordBrackets(words)
    ensures !NoIslands(Lay(words)) ==> Brackets(Tagged(start, words, end)) < WordBrackets(words)
  {
    hide Brackets, WordBrackets, Lay, TextWithIslands, NoIslands;
    var text := PlainText(Lay(words), true);
    LaidBrackets(words);
    TextBrackets(Lay(words));
    NoBrackets(start);
    NoBrackets(end);
    BracketsSum(start, text);
    BracketsSum(start + text, end);
  }

  /** What is rendered holds no more brackets than the words, and fewer if some text has an island. */
  lemma {:induction false} RenderedBrackets(pieces: seq<Piece>)
    requires forall p :: p in pieces ==> IsByteText(p)
    ensures Brackets(Render(pieces)) <= WordBrackets(PieceWords(pieces))
    ensures (exists p :: p in pieces && !NoIslands(Lay(OwnWords(p)))) ==>
              Brackets(Render(pieces)) < WordBrackets(PieceWords(pieces))
    decreases |pieces|
  {
    hide Brackets, WordBrackets, Lay, NoIslands, IsByteText, RenderPiece, OwnWords;
    if pieces == [] {
      NoBrackets("");
    } else {
      var p, more := pieces[0], pieces[1..];
      PieceBrackets(p);
      RenderedBrackets(more);
      BracketsSum(RenderPiece(p), Render(more));
      WordBracketsSum(OwnWords(p), PieceWords(more));
      assert pieces == [p] + more;
    }
  }

  // ---- An island of the text is one of a piece

  predicate AllBytes(words: seq<string>) {
    forall i :: 0 <= i < |words| ==> Bytes(words[i])
  }

  lemma {:induction false} WordsAreBytes(t: string, i: nat)
    requires Bytes(t) && i <= |t|
    ensures AllBytes(Words(t, i))
    decreases |t| - i
  {
    hide WordEnd;
    if i < |t| {
      var next := if IsBlank(t[i]) then i + 1 else if Crlf(t, i) > 0 then i + Crlf(t, i) else WordEnd(t, i);
      WordsAreBytes(t, next);
    }
  }

  /** A bracket pair has no place to break in, so it lies within one word. */
  lemma {:induction false} PairInWord(t: string, j: nat, i: nat)
    requires j <= i && PairAt(t, '[', '<', i)
    ensures exists w :: w in Words(t, j) && !NoIslands(w)
    decreases |t| - j
  {
    hide WordEnd, NoIslands;
    if IsBlank(t[j]) {
      PairInWord(t, j + 1, i);
    } else if Crlf(t, j) > 0 {
      PairInWord(t, j + Crlf(t, j), i);
    } else {
      var e := WordEnd(t, j);
      assert Words(t, j) == [t[j..e]] + Words(t, e);
      if i < e {
        assert e != i + 1;
        PairInSlice(t, j, e, i);
        assert t[j..e] in Words(t, j);
      } else {
        PairInWord(t, e, i);
      }
    }
  }

  lemma PairInSlice(t: string, j: nat, e: nat, i: nat)
    requires PairAt(t, '[', '<', i) && j <= i && i + 1 < e <= |t|
    ensures !NoIslands(t[j..e])
  {
    assert PairAt(t[j..e], '[', '<', i - j);
  }

  lemma SumHasPair(a: string, w: string, b: string)
    requires !NoIslands(w)
    ensures !NoIslands(a + w + b)
  {
    var i: nat :| i < |w| && PairAt(w, '[', '<', i);
    assert PairAt(a + w + b, '[', '<', |a| + i);
  }

  lemma {:induction false} LaidHasPair(words: seq<string>, w: string)
    requires w in words && !NoIslands(w)
    ensures !NoIslands(Lay(words))
    decreases |words|
  {
    hide NoIslands, Lay, Separator;
    var n := |words| - 1;
    var before, sep := Lay(words[..n]), Separator(Lay(words[..n]), n == 0);
    LayLast(words);
    if w == words[n] {
      SumHasPair(before + sep, w, "");
      assert before + sep + w + "" == Lay(words);
    } else {
      LaidHasPair(words[..n], w);
      SumHasPair("", before, sep + words[n]);
      assert "" + before + (sep + words[n]) == Lay(words);
    }
  }

  lemma {:induction false} WordOfPiece(pieces: seq<Piece>, w: string)
    requires w in PieceWords(pieces)
    ensures exists p :: p in pieces && w in OwnWords(p)
    decreases |pieces|
  {
    hide OwnWords;
    if w in OwnWords(pieces[0]) {
      assert pieces[0] in pieces;
    } else {
      WordOfPiece(pieces[1..], w);
    }
  }

  lemma {:induction false} PieceOfWords(pieces: seq<Piece>, p: Piece)
    requires p in pieces && AllBytes(PieceWords(pieces))
    ensures AllBytes(OwnWords(p))
    decreases |pieces|
  {
    hide OwnWords, Bytes;
    var own, more := OwnWords(pieces[0]), PieceWords(pieces[1..]);
    assert forall i :: 0 <= i < |own| ==> own[i] == PieceWords(pieces)[i];
    assert forall i :: 0 <= i < |more| ==> more[i] == PieceWords(pieces)[|own| + i];
    if p != pieces[0] {
      PieceOfWords(pieces[1..], p);
    }
  }

  lemma {:induction false} LaidBytes(words: seq<string>)
    requires AllBytes(words)
    ensures Bytes(Lay(words))
    decreases |words|
  {
    if words != [] {
      hide Lay, LastLine;
      LaidBytes(words[..|words| - 1]);
      LayLast(words);
    }
  }

  lemma UndashedKeepsPair(s: string, i: nat)
    requires PairAt(s, '[', '<', i)
    ensures PairAt(Undashed(s), '[', '<', i)
  {
    hide Dashes;
    assert i !in Dashes(s, 0) && i + 1 !in Dashes(s, 0);
  }

  lemma UndashedIsBytes(s: string)
    requires Bytes(s)
    ensures Bytes(Undashed(s))
  {
    hide Dashes;
  }

  lemma PiecesAreByteTexts(s: string, headers: bool)
    requires Bytes(s)
    ensures forall p :: p in Pieces(s, 0, false, headers) ==> IsByteText(p)
  {
    hide Pieces, PieceWords, OwnWords, AllBytes, Bytes, Undashed, Words, Lay;
    var pieces := Pieces(s, 0, false, headers);
    UndashedIsBytes(s);
    WordsAreBytes(Undashed(s), 0);
    WordsComeThrough(s, headers);
    forall p | p in pieces
      ensures IsByteText(p)
    {
      PieceOfWords(pieces, p);
      LaidBytes(OwnWords(p));
    }
  }

  lemma IslandInPiece(s: string, headers: bool)
    requires !NoIslands(s)
    ensures exists p :: p in Pieces(s, 0, false, headers) && !NoIslands(Lay(OwnWords(p)))
  {
    var i: nat :| i < |s| && PairAt(s, '[', '<', i);
    hide Pieces, PieceWords, OwnWords, NoIslands, Undashed, Words, Lay, PairAt;
    UndashedKeepsPair(s, i);
    PairInWord(Undashed(s), 0, i);
    WordsComeThrough(s, headers);
    var w :| w in PieceWords(Pieces(s, 0, false, headers)) && !NoIslands(w);
    WordOfPiece(Pieces(s, 0, false, headers), w);
    var p :| p in Pieces(s, 0, false, headers) && w in OwnWords(p);
    LaidHasPair(OwnWords(p), w);
  }

  /** Reading what the formatter renders for a text of bytes gives back the pieces exactly if it has no island. */
  lemma FormattedReadsBack(s: string, headers: bool)
    requires Bytes(s)
    ensures ReadPieces(Render(Pieces(s, 0, false, headers))) == Some(Pieces(s, 0, false, headers)) <==> NoIslands(s)
  {
    hide Pieces, Render, ReadPieces, NoIslands, PieceWords, WordBrackets, Brackets, OwnWords, Lay, IsByteText;
    var pieces := Pieces(s, 0, false, headers);
    if NoIslands(s) {
      PlainTextReadsBack(s, headers);
    } else {
      PiecesAreByteTexts(s, headers);
      IslandInPiece(s, headers);
      RenderedBrackets(pieces);
      if ReadPieces(Render(pieces)) == Some(pieces) {
        ReadBrackets(Render(pieces));
        assert false;
      }
    }
  }

  // ---- A text with an island

  lemma RenderWord(w: string, text: string)
    requires PlainText(w, true) == text
    ensures Render([Paragraph([w])]) == "<p>" + text + "\n</p>\n"
  {
    hide PlainText;
    LayLast([w]);
    assert Lay([w]) == w;
    hide Lay;
    RenderOne(Paragraph([w]));
    hide Render;
  }

  lemma {:induction false} WholeWord(s: string, i: nat)
    requires i <= |s| && forall k :: i <= k < |s| ==> !IsBlank(s[k]) && s[k] != '\n' && s[k] != '\r'
    ensures WordEnd(s, i) == |s|
    decreases |s| - i
  {
    if i < |s| {
      WholeWord(s, i + 1);
    }
  }

  lemma OneWordBlock(s: string)
    requires s != "" && s[0] != '-'
    requires forall k :: 0 <= k < |s| ==> !IsBlank(s[k]) && s[k] != '\n' && s[k] != '\r'
    ensures BlockOf(s, 0) == Block(false, [s], 1, |s|)
  {
    WholeWord(s, 0);
    assert s[0..|s|] == s;
    assert LineEnd(s, |s|) == |s| && LineWords(s, |s|) == [];
    assert LineEnd(s, 0) == |s| && LineWords(s, 0) == [s];
    assert LineRest(s, 0) == |s|;
  }

  lemma ListTagIsKept()
    ensures Mapped(HtmlChar, "<ul>") == "<ul>"
  {
    assert "<ul>"[1..] == "ul>" && "ul>"[1..] == "l>" && "l>"[1..] == ">" && ">"[1..] == "";
    assert Mapped(HtmlChar, ">") == ">" && Mapped(HtmlChar, "l>") == "l>" && Mapped(HtmlChar, "ul>") == "ul>";
  }

  lemma NothingWritten()
    ensures TextWithIslands("") == "" && Mapped(PlainChar, "") == ""
  {
    NothingLeft("");
  }

  lemma IslandAtStart(s: string)
    requires FindPair(s, '[', '<', 0) == 0 && |s| >= 2
    ensures TextWithIslands(s) == Island(s[2..])
  {
    hide FindPair, TextWithIslands, Island, Mapped;
    Parts(s);
    NothingWritten();
    assert s[..0] == "" && "" + Island(s[2..]) == Island(s[2..]);
  }

  lemma IslandToEnd(s: string)
    requires |s| >= 2 && FindPair(s, '>', ']', 0) == |s| - 2
    ensures Island(s) == Mapped(HtmlChar, s[..|s| - 2])
  {
    hide FindPair, TextWithIslands, Island, Mapped;
    Parts(s);
    NothingWritten();
    assert s[|s| - 2 + 2..] == "";
    var m := Mapped(HtmlChar, s[..|s| - 2]);
    assert m + "" == m;
  }

  /** A text that is one island is its markup. */
  lemma OneIsland(s: string, markup: string)
    requires s == "[<" + markup + ">]" && forall i: nat | i < |markup| :: !PairAt(markup + ">]", '>', ']', i)
    ensures PlainText(s, true) == Mapped(HtmlChar, markup)
  {
    hide FindPair, TextWithIslands, Island, Mapped, PairAt;
    IslandParts(s, markup);
    IslandAtStart(s);
    IslandToEnd(markup + ">]");
  }

  lemma IslandParts(s: string, markup: string)
    requires s == "[<" + markup + ">]" && forall i: nat | i < |markup| :: !PairAt(markup + ">]", '>', ']', i)
    ensures var inside := markup + ">]";
            s[..0] == "" && s[2..] == inside && inside[..|markup|] == markup && inside[|markup| + 2..] == "" &&
            FindPair(s, '[', '<', 0) == 0 && FindPair(inside, '>', ']', 0) == |markup|
  {
    hide FindPair;
    PairFound(s, '[', '<', 0, 0);
    PairFound(markup + ">]", '>', ']', 0, |markup|);
  }

  /** A word that is one island is a paragraph, and between its tags stands the markup of the island. */
  lemma IslandBringsMarkup(s: string, markup: string)
    requires s == "[<" + markup + ">]" && forall i: nat | i < |markup| :: !PairAt(markup + ">]", '>', ']', i)
    requires forall k :: 0 <= k < |markup| ==> !IsBlank(markup[k]) && markup[k] != '\n' && markup[k] != '\r'
    ensures Pieces(s, 0, false, false) == [Paragraph([s])]
    ensures Render(Pieces(s, 0, false, false)) == "<p>" + Mapped(HtmlChar, markup) + "\n</p>\n"
  {
    hide PlainText, Mapped, Lay, Render, PairAt;
    OneIsland(s, markup);
    IslandPiece(s);
    RenderWord(s, Mapped(HtmlChar, markup));
  }

  lemma IslandPiece(s: string)
    requires s != "" && s[0] != '-'
    requires forall k :: 0 <= k < |s| ==> !IsBlank(s[k]) && s[k] != '\n' && s[k] != '\r'
    ensures Pieces(s, 0, false, false) == [Paragraph([s])]
  {
    OneWordBlock(s);
    hide BlockOf;
  }

  /** A list that no dash opened and nothing closes. */
  lemma ListInIsland()
    ensures Pieces("[<<ul>>]", 0, false, false) == [Paragraph(["[<<ul>>]"])]
    ensures Render(Pieces("[<<ul>>]", 0, false, false)) == "<p>" + "<ul>" + "\n</p>\n"
  {
    hide Pieces, Render, Mapped;
    ListTagIsKept();
    assert "<ul>" + ">]" == "<ul>>]";
    assert "[<" + "<ul>" + ">]" == "[<<ul>>]";
    IslandBringsMarkup("[<<ul>>]", "<ul>");
  }

  /** A paragraph whose text starts with markup of its own, whatever that is, is not taken by the reader. */
  lemma MarkupIsNotRead(t: string, rest: string)
    requires t != "" && t[0] == '<'
    ensures ReadPieces("<p>" + t + rest) == None
  {
    var s := "<p>" + t + rest;
    assert s[0] == '<' && s[1] == 'p' && s[3..] == t + rest;
    StartsDiffer(s);
    NotTagged(s, "  <li>", "</li>\n", 0);
    NotTagged(s, "<h2>", "</h2>\n", 0);
    assert ReadTagged(s, "<p>", "\n</p>\n", 1) == None;
  }
}
