/** The f and F formatters: paragraphs, headings and lists, written with the two global buffers. */
module TextFormat {
  import opened CharBuffer
  import opened Escapes
  import opened TextLayout
  import opened TextWrap

  function Tagged(start: string, words: seq<string>, end: string): string {
    start + PlainText(Lay(words), true) + end
  }

  function RenderPiece(p: Piece): string {
    match p
    case OpenList => "<ul>\n"
    case CloseList => "</ul>\n"
    case Item(words) => Tagged("  <li>", words, "</li>\n")
    case Heading(words) => Tagged("<h2>", words, "</h2>\n")
    case Paragraph(words) => Tagged("<p>", words, "\n</p>\n")
  }

  function Render(pieces: seq<Piece>): string {
    if pieces == [] then "" else RenderPiece(pieces[0]) + Render(pieces[1..])
  }

  lemma {:induction false} RenderSum(a: seq<Piece>, b: seq<Piece>)
    ensures Render(a + b) == Render(a) + Render(b)
    decreases |a|
  {
    hide RenderPiece;
    if a == [] {
      assert a + b == b;
    } else {
      RenderSum(a[1..], b);
      assert (a + b)[1..] == a[1..] + b;
      assert Render(a + b) == RenderPiece(a[0]) + (Render(a[1..]) + Render(b));
    }
  }

  lemma RenderOne(p: Piece)
    ensures Render([p]) == RenderPiece(p) && Render([]) == ""
  {
    hide RenderPiece;
    assert [p][1..] == [];
  }

  lemma HasDotNext(words: seq<string>, w: string)
    ensures HasDot(words + [w]) <==> HasDot(words) || '.' in w
  {
    var all := words + [w];
    if HasDot(words) {
      var i :| 0 <= i < |words| && '.' in words[i];
      assert all[i] == words[i];
    }
    assert all[|words|] == w;
  }

  lemma WordAdded(words: seq<string>, w: string)
    ensures Lay(words + [w]) == Lay(words) + Separator(Lay(words), words == []) + w
    ensures HasDot(words + [w]) <==> HasDot(words) || '.' in w
  {
    hide Lay, Separator, HasDot;
    var now := words + [w];
    HasDotNext(words, w);
    LayLast(now);
    assert now[..|now| - 1] == words;
  }

  lemma DotNext(s: string, i: nat, j: nat)
    requires i <= j < |s|
    ensures s[i..j + 1] == s[i..j] + [s[j]]
    ensures '.' in s[i..j + 1] <==> '.' in s[i..j] || s[j] == '.'
  {
  }

  lemma WordGoesOn(s: string, j: nat)
    requires j < |s| && !IsBlank(s[j]) && Crlf(s, j) == 0
    ensures WordEnd(s, j + 1) == WordEnd(s, j)
  {
  }

  lemma WordStops(s: string, j: nat)
    requires j <= |s| && (j == |s| || IsBlank(s[j]) || Crlf(s, j) > 0)
    ensures WordEnd(s, j) == j
  {
  }

  lemma RenderBlock(b: Block, list: bool, dash: bool, headers: bool)
    ensures Render(BlockPieces(b, list, dash, headers)) ==
            Render(Opening(list, b.dash)) + Render(BlockPiece(b, list || b.dash, headers)) +
            Render(Closing(list || b.dash, dash))
  {
    hide Render, BlockPiece;
    var start, piece := Opening(list, b.dash), BlockPiece(b, list || b.dash, headers);
    RenderSum(start, piece);
    RenderSum(start + piece, Closing(list || b.dash, dash));
  }

  lemma LineStep(s: string, i: nat)
    requires i <= |s|
    ensures var u := SkipWs(s, i);
            SkipWs(s, u) == u && LineEnd(s, u) == LineEnd(s, i) && LineWords(s, u) == LineWords(s, i) &&
            if AtLineEnd(s, u) then LineEnd(s, u) == u && LineWords(s, u) == []
            else
              LineEnd(s, u) == LineEnd(s, WordEnd(s, u)) &&
              LineWords(s, u) == [s[u..WordEnd(s, u)]] + LineWords(s, WordEnd(s, u))
  {
    hide WordEnd, Crlf;
    assert SkipWs(s, SkipWs(s, i)) == SkipWs(s, i);
  }

  lemma BlankLineStep(s: string, i: nat)
    requires i <= |s|
    ensures var u := SkipWs(s, i);
            SkipWs(s, u) == u && SkipBlankLines(s, u) == SkipBlankLines(s, i) &&
            SkipBlankLines(s, u) == if Crlf(s, u) > 0 then SkipBlankLines(s, u + Crlf(s, u)) else u
  {
    hide Crlf;
    assert SkipWs(s, SkipWs(s, i)) == SkipWs(s, i);
  }

  /** The text of a piece is wrapped greedily and holds exactly its words. */
  ghost predicate WellLaid(p: Piece) {
    p.OpenList? || p.CloseList? ||
    (Wrapped(Lay(p.words)) && |WithoutLastWord(LastLine(Lay(p.words)))| <= 70 &&
     (p.words != [] ==> Chunks(Lay(p.words)) == p.words))
  }

  /** What AddText renders: balanced lists around well laid texts that hold the input's words in order. */
  lemma FormattedText(s: string, headers: bool)
    ensures var pieces := Pieces(s, 0, false, headers);
            Balanced(pieces, false) && PieceWords(pieces) == Words(Undashed(s), 0) &&
            |Dashes(s, 0)| == Items(pieces) && forall p :: p in pieces ==> WellLaid(p)
  {
    hide Pieces, Balanced, PieceWords, Words, Dashes, Items, Wrapped, Lay, Chunks, LastLine, WithoutLastWord, AllWords;
    PiecesBalanced(s, 0, false, headers);
    WordsComeThrough(s, headers);
    PiecesHoldWords(s, 0, false, headers);
    forall p | p in Pieces(s, 0, false, headers)
      ensures WellLaid(p)
    {
      if !p.OpenList? && !p.CloseList? {
        WrapsGreedily(p.words);
        if p.words != [] {
          LaidWordsComeBack(p.words);
        }
      }
    }
  }

  class Formatter {
    const fmt: Buffer
    const acc: Buffer
    var acccol: nat
    var accline: nat
    var accword: nat
    var accpara: bool
    var acclist: nat

    ghost function Repr(): set<object>
      reads fmt, acc
    {
      {this} + fmt.Repr + acc.Repr
    }

    ghost predicate Valid()
      reads fmt, acc, fmt.Repr, acc.Repr
    {
      fmt.Valid() && acc.Valid() && fmt.Repr !! acc.Repr && this !in fmt.Repr && this !in acc.Repr
    }

    constructor ()
      ensures Valid() && fresh(Repr()) && fmt.Contents == []
    {
      var f := new Buffer();
      var a := new Buffer();
      fmt, acc := f, a;
      acccol, accline, accword, accpara, acclist := 0, 0, 0, false, 0;
    }

    /** The accumulator's column is the length of its last line. */
    ghost predicate Columns()
      reads this`acccol, acc
    {
      acccol == |LastLine(acc.Contents)| && Bytes(acc.Contents)
    }

    /** The accumulator holds these words of the block, wrapped. */
    ghost predicate Holds(words: seq<string>)
      reads this`acccol, this`accword, this`accpara, acc
    {
      Columns() && acc.Contents == Lay(words) && accword == |words| && accpara == HasDot(words)
    }

    method AccChar(ch: char)
      requires Valid() && Columns() && ch as int < 256
      modifies this`acccol, acc.Repr
      ensures Valid() && fresh(acc.Repr - old(acc.Repr)) && Columns()
      ensures acc.Contents == old(acc.Contents) + [ch]
    {
      acc.Add(ch);
      if ch == '\n' {
        acccol := 0;
      } else {
        acccol := acccol + 1;
      }
      assert acc.Contents[..|acc.Contents| - 1] == old(acc.Contents);
    }

    /** One character of a word; a dot keeps the block from being a heading. */
    method AccLetter(ch: char)
      requires Valid() && Columns() && ch as int < 256
      modifies this`acccol, this`accpara, acc.Repr
      ensures Valid() && fresh(acc.Repr - old(acc.Repr)) && Columns()
      ensures acc.Contents == old(acc.Contents) + [ch]
      ensures accpara == (old(accpara) || ch == '.')
    {
      hide LastLine;
      if ch == '.' {
        accpara := true;
      }
      AccChar(ch);
    }

    /** The characters of one word. */
    method AccLetters(s: string, i: nat) returns (j: nat)
      requires Valid() && Bytes(s) && i <= |s| && Columns()
      modifies this`acccol, this`accpara, acc.Repr
      ensures Valid() && fresh(acc.Repr - old(acc.Repr)) && Columns()
      ensures i <= j == WordEnd(s, i) <= |s|
      ensures acc.Contents == old(acc.Contents) + s[i..j]
      ensures accpara == (old(accpara) || '.' in s[i..j])
    {
      hide Columns, Valid, WordEnd;
      j := i;
      assert s[i..i] == "";
      while j < |s| && s[j] != ' ' && s[j] != '\t' && Crlf(s, j) == 0
        invariant i <= j <= |s| && WordEnd(s, j) == WordEnd(s, i)
        invariant Valid() && fresh(acc.Repr - old(acc.Repr)) && Columns()
        invariant acc.Contents == old(acc.Contents) + s[i..j]
        invariant accpara == (old(accpara) || '.' in s[i..j])
      {
        AccLetter(s[j]);
        DotNext(s, i, j);
        WordGoesOn(s, j);
        j := j + 1;
      }
      WordStops(s, j);
    }

    /** One word of a line, after the space or newline that keeps it from the one before. */
    method AccWord(s: string, i: nat, ghost words: seq<string>) returns (j: nat)
      requires Valid() && Bytes(s) && i < |s| && Holds(words)
      modifies this`acccol, this`accword, this`accpara, acc.Repr
      ensures Valid() && fresh(acc.Repr - old(acc.Repr))
      ensures i <= j == WordEnd(s, i) <= |s| && Holds(words + [s[i..j]])
    {
      hide LastLine, HasDot, Lay, WordEnd;
      ghost var sep := Separator(acc.Contents, words == []);
      if accword > 0 {
        AccChar(if acccol > 70 then '\n' else ' ');
      }
      accword := accword + 1;
      assert acc.Contents == Lay(words) + sep;
      j := AccLetters(s, i);
      WordAdded(words, s[i..j]);
    }

    /** The words of one line; gives the start of the next. */
    method DoLine(s: string, i: nat, ghost words: seq<string>) returns (j: nat)
      requires Valid() && Bytes(s) && i <= |s| && Holds(words)
      modifies this`acccol, this`accword, this`accpara, acc.Repr
      ensures Valid() && fresh(acc.Repr - old(acc.Repr))
      ensures j == LineRest(s, i) && Holds(words + LineWords(s, i))
    {
      hide Holds, Valid, WordEnd, SkipWs, LineEnd, LineWords, Crlf, Bytes;
      ghost var all := words;
      j := SkipWs(s, i);
      LineStep(s, i);
      while j < |s| && Crlf(s, j) == 0
        invariant i <= j <= |s| && SkipWs(s, j) == j
        invariant LineEnd(s, j) == LineEnd(s, i)
        invariant all + LineWords(s, j) == words + LineWords(s, i)
        invariant Valid() && fresh(acc.Repr - old(acc.Repr)) && Holds(all)
        decreases |s| - j
      {
        ghost var w := [s[j..WordEnd(s, j)]];
        LineStep(s, j);
        var k := AccWord(s, j, all);
        LineStep(s, k);
        assert all + w + LineWords(s, k) == all + (w + LineWords(s, k));
        all := all + w;
        j := SkipWs(s, k);
      }
      LineStep(s, j);
      assert all + [] == all;
      j := j + Crlf(s, j);
      j := SkipWs(s, j);
    }

    /** The accumulated text without the NUL at its end, between two tags. */
    method AddTagged(start: string, end: string, ghost words: seq<string>)
      requires Valid() && Bytes(acc.Contents) && acc.Contents == Lay(words) + ['\0']
      modifies fmt.Repr
      ensures Valid() && fresh(fmt.Repr - old(fmt.Repr))
      ensures fmt.Contents == old(fmt.Contents) + Tagged(start, words, end)
    {
      hide Lay, PlainText;
      var text := acc.data[..acc.len - 1];
      assert text == Lay(words);
      fmt.AddAll(start);
      AddPlain(fmt, text, true);
      fmt.AddAll(end);
    }

    /** Empties the accumulator and its counters. */
    method ResetBlock()
      requires Valid()
      modifies this`acccol, this`accline, this`accword, this`accpara, acc.Repr
      ensures Valid() && acc.Repr == old(acc.Repr) && Holds([]) && accline == 0
    {
      acc.Clear();
      accline, accword, acccol, accpara := 0, 0, 0, false;
    }

    method SkipBlank(s: string, i: nat) returns (u: nat)
      requires i <= |s|
      ensures u == SkipBlankLines(s, i)
    {
      hide SkipWs, Crlf, SkipBlankLines;
      u := SkipWs(s, i);
      BlankLineStep(s, i);
      while Crlf(s, u) > 0
        invariant i <= u <= |s| && SkipWs(s, u) == u
        invariant SkipBlankLines(s, u) == SkipBlankLines(s, i)
        decreases |s| - u
      {
        var v := u + Crlf(s, u);
        BlankLineStep(s, u);
        u := SkipWs(s, v);
        BlankLineStep(s, v);
      }
      BlankLineStep(s, u);
    }

    /** The lines of a block. */
    method DoBody(s: string, i: nat) returns (j: nat)
      requires Valid() && Bytes(s) && i <= |s| && Holds([]) && accline == 0
      modifies this`acccol, this`accline, this`accword, this`accpara, acc.Repr
      ensures Valid() && fresh(acc.Repr - old(acc.Repr))
      ensures j == BlockBody(s, i).rest && Holds(BlockBody(s, i).words) && accline == BlockBody(s, i).lines
    {
      hide LineWords, LineRest, Crlf, DashAt, HasDot, Lay, LastLine;
      ghost var all := LineWords(s, i);
      ghost var body := BlockBody(s, i);
      accline := 1;
      j := DoLine(s, i, []);
      assert [] + all == all;
      while Continues(s, j)
        invariant i <= j <= |s| && Valid() && fresh(acc.Repr - old(acc.Repr)) && Holds(all)
        invariant if Continues(s, j) then
                    all + BlockBody(s, j).words == body.words && accline + BlockBody(s, j).lines == body.lines &&
                    BlockBody(s, j).rest == body.rest
                  else all == body.words && accline == body.lines && j == body.rest
        decreases |s| - j
      {
        ghost var now := LineWords(s, j);
        accline := accline + 1;
        var k := DoLine(s, j, all);
        BodyStep(s, j, all);
        all := all + now;
        j := k;
      }
    }

    /** The piece that the finished block becomes. */
    method AddPiece(headers: bool, ghost b: Block)
      requires Valid() && Holds(b.words) && accline == b.lines
      modifies this`acccol, acc.Repr, fmt.Repr
      ensures Valid() && fresh(acc.Repr - old(acc.Repr)) && fresh(fmt.Repr - old(fmt.Repr))
      ensures fmt.Contents == old(fmt.Contents) + Render(BlockPiece(b, acclist > 0, headers))
    {
      hide Lay, Tagged, HasDot, LastLine, Render;
      ghost var pieces := BlockPiece(b, acclist > 0, headers);
      if pieces != [] {
        RenderOne(pieces[0]);
      }
      RenderOne(OpenList);
      AccChar('\0');
      if acclist > 0 {
        AddTagged("  <li>", "</li>\n", b.words);
      } else if headers && !accpara && accline == 1 && accword > 0 && accword < 10 {
        AddTagged("<h2>", "</h2>\n", b.words);
      } else if accword > 0 {
        AddTagged("<p>", "\n</p>\n", b.words);
      }
    }

    /** Blank lines and the dash, which opens a list if none is open. */
    method StartBlock(s: string, i: nat) returns (v: nat)
      requires Valid() && i <= |s|
      modifies this`acclist, fmt.Repr
      ensures Valid() && fresh(fmt.Repr - old(fmt.Repr))
      ensures v == BodyStart(s, SkipBlankLines(s, i))
      ensures var dash := DashAt(s, SkipBlankLines(s, i));
              (acclist > 0) == (old(acclist) > 0 || dash) &&
              fmt.Contents == old(fmt.Contents) + Render(Opening(old(acclist) > 0, dash))
    {
      hide SkipBlankLines, Render, SkipWs;
      RenderOne(OpenList);
      v := SkipBlank(s, i);
      if DashAt(s, v) {
        if acclist == 0 {
          fmt.AddAll("<ul>\n");
        }
        acclist := acclist + 1;
        v := SkipWs(s, v + 1);
      }
    }

    /** Closes the list if it does not go on. */
    method EndBlock(dash: bool)
      requires Valid()
      modifies this`acclist, fmt.Repr
      ensures Valid() && fresh(fmt.Repr - old(fmt.Repr))
      ensures (acclist > 0) == (old(acclist) > 0 && dash)
      ensures fmt.Contents == old(fmt.Contents) + Render(Closing(old(acclist) > 0, dash))
    {
      hide Render;
      RenderOne(CloseList);
      if acclist > 0 && !dash {
        acclist := 0;
        fmt.AddAll("</ul>\n");
      }
    }

    /** The first half of a round: the block's lines are laid out in the accumulator. */
    method LayBlock(s: string, i: nat) returns (j: nat)
      requires Valid() && Bytes(s) && i <= |s|
      modifies Repr()
      ensures Valid() && fresh(Repr() - old(Repr()))
      ensures var b := BlockOf(s, i);
              j == b.rest && Holds(b.words) && accline == b.lines && (acclist > 0) == (old(acclist) > 0 || b.dash) &&
              fmt.Contents == old(fmt.Contents) + Render(Opening(old(acclist) > 0, b.dash))
    {
      hide BlockBody, SkipBlankLines, BodyStart, Render, Opening, Holds, Bytes;
      ResetBlock();
      var v := StartBlock(s, i);
      j := DoBody(s, v);
    }

    /** One round of the formatter's outer loop. */
    method AddBlock(s: string, i: nat, headers: bool) returns (j: nat)
      requires Valid() && Bytes(s) && i <= |s|
      modifies Repr()
      ensures Valid() && fresh(Repr() - old(Repr()))
      ensures var b := BlockOf(s, i);
              j == b.rest && (acclist > 0) == ((old(acclist) > 0 || b.dash) && DashAt(s, j)) &&
              fmt.Contents == old(fmt.Contents) + Render(BlockPieces(b, old(acclist) > 0, DashAt(s, j), headers))
    {
      hide BlockOf, Render, BlockPiece, BlockPieces, Opening, Closing, Holds, Bytes, DashAt;
      ghost var b, list := BlockOf(s, i), acclist > 0;
      j := LayBlock(s, i);
      AddPiece(headers, b);
      EndBlock(DashAt(s, j));
      RenderBlock(b, list, DashAt(s, j), headers);
    }

    /** One round writes what it takes off the rest of the output. */
    method AddRound(s: string, i: nat, headers: bool) returns (j: nat)
      requires Valid() && Bytes(s) && i <= |s|
      modifies Repr()
      ensures Valid() && fresh(Repr() - old(Repr()))
      ensures i <= j <= |s| && (i < |s| ==> i < j)
      ensures fmt.Contents + RenderFrom(s, j, acclist > 0, headers) ==
              old(fmt.Contents) + Render(Pieces(s, i, old(acclist) > 0, headers))
    {
      hide BlockOf, BlockPieces, Render, Pieces, DashAt, RenderFrom, Valid;
      PiecesStep(s, i, acclist > 0, headers);
      j := AddBlock(s, i, headers);
    }

    /** The whole formatter: its output is the rendering of the text's pieces. */
    method AddText(s: string, headers: bool)
      requires Valid() && Bytes(s)
      modifies Repr()
      ensures Valid() && fresh(Repr() - old(Repr()))
      ensures fmt.Contents == old(fmt.Contents) + Render(Pieces(s, 0, false, headers))
    {
      hide Render, Pieces, Bytes;
      acclist := 0;
      var i := AddRound(s, 0, headers);
      while i < |s|
        invariant i <= |s| && Valid() && fresh(Repr() - old(Repr()))
        invariant fmt.Contents + RenderFrom(s, i, acclist > 0, headers) ==
                  old(fmt.Contents) + Render(Pieces(s, 0, false, headers))
      {
        i := AddRound(s, i, headers);
      }
    }
  }

  lemma BodyStep(s: string, j: nat, all: seq<string>)
    requires j <= |s|
    ensures var r, b := LineRest(s, j), BlockBody(s, j);
            if Continues(s, r) then
              all + b.words == all + LineWords(s, j) + BlockBody(s, r).words &&
              b.lines == 1 + BlockBody(s, r).lines && b.rest == BlockBody(s, r).rest
            else b.words == LineWords(s, j) && b.lines == 1 && b.rest == r
  {
    hide LineWords, LineRest, Crlf, DashAt;
  }

  /** What the rounds from i on still have to write. */
  function RenderFrom(s: string, i: nat, list: bool, headers: bool): string
    requires i <= |s|
  {
    if i == |s| then "" else Render(Pieces(s, i, list, headers))
  }

  lemma PiecesStep(s: string, i: nat, list: bool, headers: bool)
    requires i <= |s|
    ensures var b := BlockOf(s, i);
            Render(Pieces(s, i, list, headers)) ==
            Render(BlockPieces(b, list, DashAt(s, b.rest), headers)) +
            RenderFrom(s, b.rest, (list || b.dash) && DashAt(s, b.rest), headers)
  {
    hide BlockOf, BlockPieces, Render;
    var b := BlockOf(s, i);
    var dash := DashAt(s, b.rest);
    RenderOne(OpenList);
    RenderSum(BlockPieces(b, list, dash, headers),
              if b.rest == |s| then [] else Pieces(s, b.rest, (list || b.dash) && dash, headers));
  }
}
