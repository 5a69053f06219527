/** Where blocks of text begin and end, and which of them become headings. */
module TextHeadings {
  import opened TextLayout

  // ---- What separates words and lines

  /** The character at k is a space, a tab, a newline or the carriage return before one. */
  predicate Separates(s: string, k: nat)
    requires k < |s|
  {
    s[k] == ' ' || s[k] == '\t' || s[k] == '\n' || (s[k] == '\r' && k + 1 < |s| && s[k + 1] == '\n')
  }

  /** A word goes as far as nothing separates. */
  lemma {:induction false} WordIsRun(s: string, i: nat)
    requires i <= |s|
    ensures forall k :: i <= k < WordEnd(s, i) ==> !Separates(s, k)
    ensures WordEnd(s, i) < |s| ==> Separates(s, WordEnd(s, i))
    decreases |s| - i
  {
    if !AtLineEnd(s, i) && !IsBlank(s[i]) {
      WordIsRun(s, i + 1);
    }
  }

  /** Only separators are skipped before a block, and no blank line is left. */
  lemma {:induction false} BlankLinesSkipped(s: string, i: nat)
    requires i <= |s|
    ensures var u := SkipBlankLines(s, i);
            (forall k :: i <= k < u ==> Separates(s, k)) &&
            (u < |s| ==> !Separates(s, u))
    decreases |s| - i
  {
    var u := SkipWs(s, i);
    if Crlf(s, u) > 0 {
      BlankLinesSkipped(s, u + Crlf(s, u));
    }
  }

  // ---- Blocks are runs of lines

  /** A line begins at j, after a line break. */
  predicate Break(s: string, j: nat) {
    0 < j <= |s| && s[j - 1] == '\n'
  }

  predicate OneLine(s: string, a: nat, b: nat) {
    forall k :: a <= k < b <= |s| ==> s[k] != '\n'
  }

  lemma {:induction false} WordOnOneLine(s: string, i: nat)
    requires i <= |s|
    ensures OneLine(s, i, WordEnd(s, i))
    decreases |s| - i
  {
    if !AtLineEnd(s, i) && !IsBlank(s[i]) {
      WordOnOneLine(s, i + 1);
    }
  }

  lemma {:induction false} LineOnOneLine(s: string, i: nat)
    requires i <= |s|
    ensures OneLine(s, i, LineEnd(s, i))
    decreases |s| - i
  {
    hide WordEnd, SkipWs;
    var u := SkipWs(s, i);
    if !AtLineEnd(s, u) {
      WordOnOneLine(s, u);
      LineOnOneLine(s, WordEnd(s, u));
    }
  }

  /** From inside a line, the first break leads to where the rest begins, and there is no other before that. */
  lemma FirstBreak(s: string, i: nat)
    requires i <= |s|
    ensures LineRest(s, i) < |s| ==> exists j: nat :: Break(s, j) && i < j && SkipWs(s, j) == LineRest(s, i)
    ensures forall j: nat :: Break(s, j) && i < j <= LineRest(s, i) ==> SkipWs(s, j) == LineRest(s, i)
  {
    hide LineEnd, SkipWs;
    var e := LineEnd(s, i);
    LineOnOneLine(s, i);
    var j := e + Crlf(s, e);
    if e < |s| {
      assert Break(s, j) && SkipWs(s, j) == LineRest(s, i);
    }
  }

  /** Where the line that begins at j goes on with the text before it: it is not blank and has no dash. */
  predicate GoesOn(s: string, j: nat)
    requires j <= |s|
  {
    var k := SkipWs(s, j);
    k < |s| && s[k] != '\n' && !(s[k] == '\r' && k + 1 < |s| && s[k + 1] == '\n') && s[k] != '-'
  }

  /**
   The lines of a block from i on: every line that begins before its end goes on with it, and it ends with the
   text or before a line that does not go on.
   */
  lemma {:induction false} BodyIsRun(s: string, i: nat)
    requires i <= |s|
    ensures var r := BlockBody(s, i).rest;
            (forall j: nat :: Break(s, j) && i < j && SkipWs(s, j) < r ==> GoesOn(s, j)) &&
            (r < |s| ==> exists j: nat :: Break(s, j) && i < j && SkipWs(s, j) == r && !GoesOn(s, j)) &&
            (BlockBody(s, i).lines == 1 <==> forall j: nat :: Break(s, j) && i < j ==> SkipWs(s, j) >= r)
    decreases |s| - i
  {
    hide SkipWs, LineRest, LineWords;
    var r, b := LineRest(s, i), BlockBody(s, i);
    FirstBreak(s, i);
    if Continues(s, r) {
      BodyIsRun(s, r);
      var j: nat :| Break(s, j) && i < j && SkipWs(s, j) == r;
    }
    forall j: nat | Break(s, j) && i < j && SkipWs(s, j) < b.rest
      ensures GoesOn(s, j)
    {
      if j > r {
        assert Continues(s, r);
      }
    }
  }

  // ---- Which blocks become headings

  lemma {:induction false} DotsInWords(s: string, i: nat)
    requires i <= |s|
    ensures HasDot(Words(s, i)) <==> '.' in s[i..]
    decreases |s| - i
  {
    hide HasDot, WordEnd, Crlf;
    if i == |s| {
      NoDots();
      assert s[i..] == [];
    } else if IsBlank(s[i]) {
      DotsInWords(s, i + 1);
      assert s[i..] == [s[i]] + s[i + 1..];
    } else if Crlf(s, i) > 0 {
      var n := Crlf(s, i);
      DotsInWords(s, i + n);
      BreakHasNoDot(s, i);
      assert s[i..] == s[i..i + n] + s[i + n..];
    } else {
      var e := WordEnd(s, i);
      DotsInWords(s, e);
      DotFirst(s[i..e], Words(s, e));
      assert s[i..] == s[i..e] + s[e..];
    }
  }

  lemma NoDots()
    ensures !HasDot([])
  {
  }

  lemma BreakHasNoDot(s: string, i: nat)
    requires i <= |s|
    ensures '.' !in s[i..i + Crlf(s, i)]
  {
  }

  lemma DotFirst(word: string, words: seq<string>)
    ensures HasDot([word] + words) <==> '.' in word || HasDot(words)
  {
    var all := [word] + words;
    if HasDot(words) {
      var i :| 0 <= i < |words| && '.' in words[i];
      assert all[i + 1] == words[i];
    }
    if '.' in word {
      assert all[0] == word;
    }
    if HasDot(all) && '.' !in word {
      var i :| 0 <= i < |all| && '.' in all[i];
      assert words[i - 1] == all[i];
    }
  }

  /** A text without line breaks is one line. */
  lemma {:induction false} WholeLine(s: string, i: nat)
    requires i <= |s| && '\n' !in s
    ensures LineEnd(s, i) == |s| && LineWords(s, i) == Words(s, i) && Crlf(s, i) == 0
    decreases |s| - i
  {
    hide WordEnd, SkipWs;
    var u := SkipWs(s, i);
    BlanksPass(s, i, u);
    if !AtLineEnd(s, u) {
      WholeLine(s, WordEnd(s, u));
    }
  }

  /**
   A text of one line with words and no dash in front is one heading of its words exactly if headings are asked
   for, it has no dot and fewer than ten words; otherwise it is one paragraph of them.
   */
  lemma OneLineText(s: string, headers: bool)
    requires '\n' !in s && Words(s, 0) != [] && (SkipWs(s, 0) < |s| ==> s[SkipWs(s, 0)] != '-')
    ensures Pieces(s, 0, false, headers) ==
            if headers && '.' !in s && |Words(s, 0)| < 10 then [Heading(Words(s, 0))] else [Paragraph(Words(s, 0))]
  {
    hide HasDot;
    var u := SkipWs(s, 0);
    WholeLine(s, 0);
    WholeLine(s, u);
    WholeLine(s, |s|);
    BlanksPass(s, 0, u);
    DotsInWords(s, 0);
    assert s[0..] == s;
    hide Words, LineWords, LineEnd, Crlf;
    assert !DashAt(s, u);
    assert LineRest(s, u) == |s|;
    assert BlockOf(s, 0) == Block(false, Words(s, 0), 1, |s|);
  }

  /** The lines of the block that begins at i are one. */
  ghost predicate IsOneLine(s: string, i: nat)
    requires i <= |s|
  {
    var v := BodyStart(s, SkipBlankLines(s, i));
    forall j: nat :: Break(s, j) && v < j ==> SkipWs(s, j) >= BlockOf(s, i).rest
  }

  lemma HeadingBlock(b: Block, list: bool, dash: bool, headers: bool, p: Piece)
    requires p in BlockPieces(b, list, dash, headers) && p.Heading?
    ensures headers && 0 < |p.words| < 10 && !HasDot(p.words) && b.lines == 1 && !b.dash && p.words == b.words
  {
    hide HasDot;
  }

  /** Every heading of any text is a block of one line with one to nine words, none of which has a dot. */
  lemma {:induction false} HeadingsAreShort(s: string, i: nat, list: bool, headers: bool, p: Piece)
    requires i <= |s| && p in Pieces(s, i, list, headers) && p.Heading?
    ensures headers && 0 < |p.words| < 10 && !HasDot(p.words)
    ensures exists k: nat :: k <= |s| && BlockOf(s, k).words == p.words && !BlockOf(s, k).dash && IsOneLine(s, k)
    decreases |s| - i
  {
    hide HasDot, BlockOf, IsOneLine, BlockPieces;
    var b := BlockOf(s, i);
    var dash := DashAt(s, b.rest);
    if p in BlockPieces(b, list, dash, headers) {
      HeadingBlock(b, list, dash, headers, p);
      OneLineBlock(s, i);
    } else {
      HeadingsAreShort(s, b.rest, (list || b.dash) && dash, headers, p);
    }
  }

  lemma OneLineBlock(s: string, i: nat)
    requires i <= |s| && BlockOf(s, i).lines == 1
    ensures IsOneLine(s, i)
  {
    BodyIsRun(s, BodyStart(s, SkipBlankLines(s, i)));
  }
}
