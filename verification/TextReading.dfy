/** A reader for formatted text: from the rendered string back to the pieces and their words. */
module TextReading {
  import opened Wrappers
  import opened Entities
  import opened Escapes
  import opened TextLayout
  import opened TextWrap
  import opened TextFormat

  /** Nowhere in the text does an island of markup start. */
  predicate NoIslands(s: string) {
    forall i: nat | i < |s| :: !PairAt(s, '[', '<', i)
  }

  // ---- The reader

  /** The first '<', or the length. */
  function TagPlace(s: string): (n: nat)
    ensures n <= |s|
  {
    if s == "" || s[0] == '<' then 0 else 1 + TagPlace(s[1..])
  }

  /** The text between two tags, the second of which has its '<' at place k, and what follows. */
  function ReadTagged(s: string, start: string, end: string, k: nat): (r: Option<(string, string)>)
    requires start != ""
    ensures r.Some? ==> |r.value.1| < |s|
  {
    if !(start <= s) then None
    else
      var body := s[|start|..];
      var n := TagPlace(body);
      if n < k || !(end <= body[n - k..]) then None
      else Some((body[..n - k], body[n - k + |end|..]))
  }

  /** The words of a piece: its text with the entity references decoded, cut at spaces and newlines. */
  function ReadWords(text: string): seq<string> {
    if text == "" then [] else Chunks(Decoded(text))
  }

  function ReadPiece(s: string): (r: Option<(Piece, string)>)
    ensures r.Some? ==> |r.value.1| < |s|
  {
    if "<ul>\n" <= s then Some((OpenList, s[5..]))
    else if "</ul>\n" <= s then Some((CloseList, s[6..]))
    else
      match ReadTagged(s, "  <li>", "</li>\n", 0)
      case Some((text, rest)) => Some((Item(ReadWords(text)), rest))
      case None =>
        match ReadTagged(s, "<h2>", "</h2>\n", 0)
        case Some((text, rest)) => Some((Heading(ReadWords(text)), rest))
        case None =>
          match ReadTagged(s, "<p>", "\n</p>\n", 1)
          case Some((text, rest)) => Some((Paragraph(ReadWords(text)), rest))
          case None => None
  }

  function ReadPieces(s: string): Option<seq<Piece>>
    decreases |s|
  {
    if s == "" then Some([])
    else
      match ReadPiece(s)
      case None => None
      case Some((p, rest)) =>
        match ReadPieces(rest)
        case None => None
        case Some(more) => Some([p] + more)
  }

  // ---- Reading a piece

  lemma {:induction false} TagPlaceAfter(t: string, more: string)
    requires '<' !in t
    ensures TagPlace(t + more) == |t| + TagPlace(more)
    decreases |t|
  {
    if t == "" {
      assert t + more == more;
    } else {
      assert (t + more)[1..] == t[1..] + more;
      TagPlaceAfter(t[1..], more);
    }
  }

  lemma TaggedRead(start: string, t: string, end: string, k: nat, rest: string)
    requires start != "" && '<' !in t && k < |end| && end[k] == '<' && '<' !in end[..k]
    ensures ReadTagged(start + t + end + rest, start, end, k) == Some((t, rest))
  {
    var s := start + t + end + rest;
    var body := t + end + rest;
    assert s == start + body && s[|start|..] == body;
    var more := end[k..] + rest;
    assert body == (t + end[..k]) + more && TagPlace(more) == 0;
    TagPlaceAfter(t + end[..k], more);
    assert body[|t|..] == end + rest;
    assert body[..|t|] == t && body[|t| + |end|..] == rest;
  }

  lemma PlainCharHasNoTag(c: char)
    requires c as int < 256
    ensures '<' !in PlainChar(c)
  {
    if c as int >= 160 {
      TableAgrees(c as int - 160);
      hide EntityName, CodeOf;
      var name := EntityName(c as int - 160);
      assert '<' !in name;
      assert forall x :: x in EntityText(c) ==> x == '&' || x in name || x == ';';
    }
  }

  lemma {:induction false} EscapedHasNoTag(s: string)
    requires Bytes(s)
    ensures '<' !in Mapped(PlainChar, s)
  {
    hide PlainChar;
    if s != "" {
      PlainCharHasNoTag(s[0]);
      EscapedHasNoTag(s[1..]);
    }
  }

  /** What a piece's text has to be for the reader: words of bytes, and no island when laid out. */
  predicate Legible(p: Piece) {
    p.OpenList? || p.CloseList? || (AllWords(p.words) && Bytes(Lay(p.words)) && NoIslands(Lay(p.words)))
  }

  lemma PlainWithoutIslands(s: string)
    requires NoIslands(s)
    ensures PlainText(s, true) == Mapped(PlainChar, s)
  {
    hide Mapped;
    var i := FindPair(s, '[', '<', 0);
  }

  lemma LaidWordsRead(words: seq<string>)
    requires AllWords(words) && Bytes(Lay(words)) && NoIslands(Lay(words))
    ensures var text := PlainText(Lay(words), true);
            ReadWords(text) == words && '<' !in text
  {
    PlainWithoutIslands(Lay(words));
    EscapedHasNoTag(Lay(words));
    PlainRoundTrip(Lay(words));
    hide Mapped, PlainText, Chunks, Decoded, Lay;
    NothingLaid();
    if words != [] {
      LaidWordsComeBack(words);
      LaidIsSomething(words);
    }
  }

  lemma NothingLaid()
    ensures Lay([]) == "" && Mapped(PlainChar, "") == "" && Decoded("") == ""
  {
  }

  lemma LaidIsSomething(words: seq<string>)
    requires AllWords(words) && words != []
    ensures Lay(words) != ""
  {
    LayLast(words);
  }

  lemma NoPrefix(s: string, start: string, at: nat)
    requires at < |start| && at < |s| && s[at] != start[at]
    ensures !(start <= s)
  {
  }

  /** The first two characters tell the pieces apart. */
  lemma StartsDiffer(s: string)
    requires |s| > 1
    ensures s[0] == ' ' || s[1] != 'u' ==> !("<ul>\n" <= s)
    ensures s[0] == ' ' || s[1] != '/' ==> !("</ul>\n" <= s)
    ensures s[0] != ' ' ==> !("  <li>" <= s)
    ensures s[0] == ' ' || s[1] != 'h' ==> !("<h2>" <= s)
  {
    if s[0] == ' ' {
      NoPrefix(s, "<ul>\n", 0);
      NoPrefix(s, "</ul>\n", 0);
      NoPrefix(s, "<h2>", 0);
    } else {
      NoPrefix(s, "  <li>", 0);
    }
    if s[1] != 'u' {
      NoPrefix(s, "<ul>\n", 1);
    }
    if s[1] != '/' {
      NoPrefix(s, "</ul>\n", 1);
    }
    if s[1] != 'h' {
      NoPrefix(s, "<h2>", 1);
    }
  }

  lemma NotTagged(s: string, start: string, end: string, k: nat)
    requires start != "" && !(start <= s)
    ensures ReadTagged(s, start, end, k) == None
  {
  }

  lemma PieceRead(p: Piece, rest: string)
    requires Legible(p)
    ensures ReadPiece(RenderPiece(p) + rest) == Some((p, rest))
  {
    hide PlainText, Lay, ReadTagged, ReadWords;
    var s := RenderPiece(p) + rest;
    match p
    case OpenList =>
      assert s == "<ul>\n" + rest && s[5..] == rest;
    case CloseList =>
      assert s[1] == '/';
      StartsDiffer(s);
      assert s == "</ul>\n" + rest && s[6..] == rest;
    case Item(words) =>
      LaidWordsRead(words);
      assert s[0] == ' ';
      StartsDiffer(s);
      TaggedRead("  <li>", PlainText(Lay(words), true), "</li>\n", 0, rest);
    case Heading(words) =>
      LaidWordsRead(words);
      assert s[0] == '<' && s[1] == 'h';
      StartsDiffer(s);
      NotTagged(s, "  <li>", "</li>\n", 0);
      TaggedRead("<h2>", PlainText(Lay(words), true), "</h2>\n", 0, rest);
    case Paragraph(words) =>
      LaidWordsRead(words);
      assert s[0] == '<' && s[1] == 'p';
      StartsDiffer(s);
      NotTagged(s, "  <li>", "</li>\n", 0);
      NotTagged(s, "<h2>", "</h2>\n", 0);
      TaggedRead("<p>", PlainText(Lay(words), true), "\n</p>\n", 1, rest);
  }

  lemma {:induction false} RenderedRead(pieces: seq<Piece>)
    requires forall p :: p in pieces ==> Legible(p)
    ensures ReadPieces(Render(pieces)) == Some(pieces)
    decreases |pieces|
  {
    hide RenderPiece, ReadPiece, Legible;
    if pieces != [] {
      PieceRead(pieces[0], Render(pieces[1..]));
      RenderedRead(pieces[1..]);
      assert pieces == [pieces[0]] + pieces[1..];
    }
  }

  // ---- The pieces of a text without islands are legible

  predicate Fit(s: string) {
    Bytes(s) && NoIslands(s)
  }

  predicate AllFit(words: seq<string>) {
    forall i :: 0 <= i < |words| ==> Fit(words[i])
  }

  lemma SliceFits(s: string, i: nat, j: nat)
    requires Fit(s) && i <= j <= |s|
    ensures Fit(s[i..j])
  {
    forall k: nat | k < j - i
      ensures !PairAt(s[i..j], '[', '<', k)
    {
      assert !PairAt(s, '[', '<', i + k);
    }
  }

  lemma {:induction false} LineFits(s: string, i: nat)
    requires Fit(s) && i <= |s|
    ensures AllFit(LineWords(s, i))
    decreases |s| - i
  {
    hide Fit, WordEnd, SkipWs;
    var u := SkipWs(s, i);
    if !AtLineEnd(s, u) {
      SliceFits(s, u, WordEnd(s, u));
      LineFits(s, WordEnd(s, u));
    }
  }

  lemma {:induction false} BlockFits(s: string, i: nat)
    requires Fit(s) && i <= |s|
    ensures AllFit(BlockBody(s, i).words)
    decreases |s| - i
  {
    hide Fit, LineWords, LineRest;
    LineFits(s, i);
    if Continues(s, LineRest(s, i)) {
      BlockFits(s, LineRest(s, i));
    }
  }

  predicate PieceFits(p: Piece) {
    p.OpenList? || p.CloseList? || AllFit(p.words)
  }

  lemma {:induction false} PiecesFit(s: string, i: nat, list: bool, headers: bool)
    requires Fit(s) && i <= |s|
    ensures forall p :: p in Pieces(s, i, list, headers) ==> PieceFits(p)
    decreases |s| - i
  {
    hide Fit, BlockBody, SkipBlankLines, AllFit, BodyStart, DashAt;
    BlockFits(s, BodyStart(s, SkipBlankLines(s, i)));
    var b := BlockOf(s, i);
    if b.rest < |s| {
      PiecesFit(s, b.rest, (list || b.dash) && DashAt(s, b.rest), headers);
    }
  }

  lemma SumFits(a: string, sep: string, w: string)
    requires Fit(a) && Fit(w) && (sep == " " || sep == "\n" || (sep == "" && a == ""))
    ensures Fit(a + sep + w)
  {
    var s := a + sep + w;
    forall i: nat | i < |s|
      ensures !PairAt(s, '[', '<', i)
    {
      if i < |a| {
        assert !PairAt(a, '[', '<', i);
      } else if i >= |a| + |sep| {
        assert !PairAt(w, '[', '<', i - |a| - |sep|);
      }
    }
  }

  lemma {:induction false} LaidFits(words: seq<string>)
    requires AllFit(words)
    ensures Fit(Lay(words))
    decreases |words|
  {
    if words != [] {
      hide Fit, Lay, LastLine;
      var n := |words| - 1;
      LaidFits(words[..n]);
      LayLast(words);
      var before := Lay(words[..n]);
      SumFits(before, Separator(before, n == 0), words[n]);
    }
  }

  /**
   Reading what the formatter renders for a text of bytes without islands gives back the pieces: the
   markup is the formatter's own, and every block's words come through escaping and wrapping.
   */
  lemma PlainTextReadsBack(s: string, headers: bool)
    requires Bytes(s) && NoIslands(s)
    ensures ReadPieces(Render(Pieces(s, 0, false, headers))) == Some(Pieces(s, 0, false, headers))
  {
    hide Pieces, Render, ReadPieces, AllWords, AllFit, Lay;
    PiecesFit(s, 0, false, headers);
    PiecesHoldWords(s, 0, false, headers);
    forall p | p in Pieces(s, 0, false, headers)
      ensures Legible(p)
    {
      if !p.OpenList? && !p.CloseList? {
        LaidFits(p.words);
      }
    }
    RenderedRead(Pieces(s, 0, false, headers));
  }
}
