/** The greedy wrapping of a block's words into lines. */
module TextWrap {
  import opened TextLayout

  /** The unfinished line at the end of the text. */
  function LastLine(text: string): (line: string)
    ensures |line| <= |text|
    decreases |text|
  {
    if text == "" then ""
    else
      var n := |text| - 1;
      if text[n] == '\n' then "" else LastLine(text[..n]) + [text[n]]
  }

  function Separator(before: string, first: bool): string {
    if first then "" else if |LastLine(before)| > 70 then "\n" else " "
  }

  /** The words one after the other; a new line starts once the current one is longer than 70. */
  function Lay(words: seq<string>): string {
    if words == [] then ""
    else
      var n := |words| - 1;
      var before := Lay(words[..n]);
      before + Separator(before, n == 0) + words[n]
  }

  predicate IsWord(w: string) {
    w != "" && forall i :: 0 <= i < |w| ==> !IsBlank(w[i]) && w[i] != '\n'
  }

  predicate AllWords(words: seq<string>) {
    forall i :: 0 <= i < |words| ==> IsWord(words[i])
  }

  // ---- Lines

  /** A line without its last word and the space before that. */
  function WithoutLastWord(line: string): (r: string)
    decreases |line|
  {
    if line == "" then ""
    else
      var n := |line| - 1;
      if line[n] == ' ' then line[..n] else WithoutLastWord(line[..n])
  }

  predicate WrappedAt(text: string, k: nat)
    requires k <= |text|
  {
    |LastLine(text[..k])| > 70 && |WithoutLastWord(LastLine(text[..k]))| <= 70
  }

  lemma {:induction false} LastLineAfter(text: string, w: string)
    requires '\n' !in w
    ensures LastLine(text + w) == LastLine(text) + w
    decreases |w|
  {
    if w == "" {
      assert text + w == text && LastLine(text) + w == LastLine(text);
    } else {
      var n := |w| - 1;
      LastLineAfter(text, w[..n]);
      assert (text + w)[..|text + w| - 1] == text + w[..n];
      assert w == w[..n] + [w[n]];
    }
  }

  lemma {:induction false} WithoutWord(line: string, w: string)
    requires ' ' !in w
    ensures WithoutLastWord(line + " " + w) == line
    ensures WithoutLastWord(w) == ""
    decreases |w|
  {
    var all := line + " " + w;
    if w == "" {
      assert all[..|all| - 1] == line;
    } else {
      var n := |w| - 1;
      WithoutWord(line, w[..n]);
      assert all[..|all| - 1] == line + " " + w[..n];
    }
  }

  lemma LastLineNext(before: string, first: bool, w: string)
    requires IsWord(w) && (first ==> before == "")
    ensures LastLine(before + Separator(before, first) + w) ==
            (if Separator(before, first) == " " then LastLine(before) + " " + w else w)
  {
    var sep := Separator(before, first);
    if sep == " " {
      LastLineAfter(before, " " + w);
      assert before + sep + w == before + (" " + w) && LastLine(before) + " " + w == LastLine(before) + (" " + w);
    } else {
      LastLineAfter(before + sep, w);
      assert sep == "\n" ==> LastLine(before + sep) == "";
      assert "" + w == w;
    }
  }

  lemma LayLast(words: seq<string>)
    requires words != []
    ensures var n := |words| - 1;
            Lay(words) == Lay(words[..n]) + Separator(Lay(words[..n]), n == 0) + words[n]
    ensures |words| == 1 ==> Lay(words[..0]) == ""
  {
    hide Separator;
  }

  predicate Wrapped(text: string) {
    forall k :: 0 <= k < |text| && text[k] == '\n' ==> WrappedAt(text, k)
  }

  lemma BreakPlace(before: string, sep: string, w: string, k: nat)
    requires |sep| <= 1 && '\n' !in w
    requires var text := before + sep + w;
             |before| <= k < |text| && text[k] == '\n'
    ensures k == |before| && sep == "\n"
  {
  }

  lemma WrappedNext(before: string, sep: string, w: string)
    requires Wrapped(before) && IsWord(w)
    requires |sep| <= 1 && (sep == "\n" ==> WrappedAt(before, |before|))
    ensures Wrapped(before + sep + w)
  {
    hide LastLine, WithoutLastWord;
    var text := before + sep + w;
    assert '\n' !in w;
    forall k | 0 <= k < |text| && text[k] == '\n'
      ensures WrappedAt(text, k)
    {
      if k < |before| {
        assert text[..k] == before[..k];
        assert WrappedAt(before, k);
      } else {
        BreakPlace(before, sep, w, k);
        assert text[..k] == before && before[..|before|] == before;
      }
    }
  }

  /** Every finished line exceeds 70 columns, and without its last word no line does. */
  lemma {:induction false} WrapsGreedily(words: seq<string>)
    requires AllWords(words)
    ensures Wrapped(Lay(words))
    ensures |WithoutLastWord(LastLine(Lay(words)))| <= 70
    decreases |words|
  {
    if words != [] {
      hide LastLine, WithoutLastWord, Lay, Wrapped, IsWord;
      var n := |words| - 1;
      var before, w := Lay(words[..n]), words[n];
      var sep := Separator(before, n == 0);
      WrapsGreedily(words[..n]);
      LayLast(words);
      assert before[..|before|] == before;
      WrappedNext(before, sep, w);
      LastLineNext(before, n == 0, w);
      NoSpace(w);
      WithoutWord(LastLine(before), w);
    } else {
      assert Lay(words) == "" && LastLine("") == "";
    }
  }

  lemma NoSpace(w: string)
    requires IsWord(w)
    ensures ' ' !in w
  {
  }

  // ---- The words come back

  predicate Separates(c: char) {
    c == ' ' || c == '\n'
  }

  /** The text cut at every space and newline. */
  function Chunks(text: string): (r: seq<string>)
    ensures r != []
    decreases |text|
  {
    if text == "" then [""]
    else
      var n := |text| - 1;
      var init := Chunks(text[..n]);
      if Separates(text[n]) then init + [""] else init[..|init| - 1] + [init[|init| - 1] + [text[n]]]
  }

  lemma {:induction false} ChunksAfter(text: string, c: char, w: string)
    requires Separates(c) && IsWord(w)
    ensures Chunks(text + [c] + w) == Chunks(text) + [w]
    decreases |w|
  {
    var n := |w| - 1;
    var all := text + [c] + w;
    assert all[..|all| - 1] == text + [c] + w[..n] && w == w[..n] + [w[n]];
    if n == 0 {
      assert text + [c] + w[..0] == text + [c] && (text + [c])[..|text|] == text;
    } else {
      ChunksAfter(text, c, w[..n]);
    }
  }

  lemma {:induction false} OneChunk(w: string)
    requires IsWord(w)
    ensures Chunks(w) == [w]
    decreases |w|
  {
    var n := |w| - 1;
    assert w == w[..n] + [w[n]];
    if n > 0 {
      OneChunk(w[..n]);
    }
  }

  /** The laid out text holds exactly the words, in order. */
  lemma {:induction false} LaidWordsComeBack(words: seq<string>)
    requires AllWords(words) && words != []
    ensures Chunks(Lay(words)) == words
    decreases |words|
  {
    hide Chunks, LastLine, Lay, IsWord;
    var n := |words| - 1;
    var before := Lay(words[..n]);
    var sep := Separator(before, n == 0);
    LayLast(words);
    if n == 0 {
      OneChunk(words[0]);
      assert Lay(words) == words[0] && words == [words[0]];
    } else {
      LaidWordsComeBack(words[..n]);
      assert sep == [sep[0]];
      ChunksAfter(before, sep[0], words[n]);
      assert words == words[..n] + [words[n]];
    }
  }

  // ---- The words of a text are words

  lemma {:induction false} WordHasNoBreaks(s: string, i: nat)
    requires i <= |s|
    ensures forall k :: i <= k < WordEnd(s, i) ==> !IsBlank(s[k]) && s[k] != '\n'
    decreases |s| - i
  {
    if !AtLineEnd(s, i) && !IsBlank(s[i]) {
      WordHasNoBreaks(s, i + 1);
    }
  }

  lemma {:induction false} LineHoldsWords(s: string, i: nat)
    requires i <= |s|
    ensures AllWords(LineWords(s, i))
    decreases |s| - i
  {
    hide WordEnd, SkipWs;
    var u := SkipWs(s, i);
    if !AtLineEnd(s, u) {
      var e := WordEnd(s, u);
      WordHasNoBreaks(s, u);
      LineHoldsWords(s, e);
      assert forall k :: 0 <= k < e - u ==> s[u..e][k] == s[u + k];
      assert IsWord(s[u..e]);
    }
  }

  lemma {:induction false} BlockHoldsWords(s: string, i: nat)
    requires i <= |s|
    ensures AllWords(BlockBody(s, i).words)
    decreases |s| - i
  {
    hide LineWords, LineRest, IsWord;
    LineHoldsWords(s, i);
    if Continues(s, LineRest(s, i)) {
      BlockHoldsWords(s, LineRest(s, i));
    }
  }

  predicate HoldsWords(p: Piece) {
    p.OpenList? || p.CloseList? || AllWords(p.words)
  }

  /** Every piece of a text holds proper words, so the two results above apply to each of them. */
  lemma {:induction false} PiecesHoldWords(s: string, i: nat, list: bool, headers: bool)
    requires i <= |s|
    ensures forall p :: p in Pieces(s, i, list, headers) ==> HoldsWords(p)
    decreases |s| - i
  {
    hide BlockBody, SkipBlankLines, AllWords;
    BlockHoldsWords(s, BodyStart(s, SkipBlankLines(s, i)));
    var b := BlockOf(s, i);
    if b.rest < |s| {
      PiecesHoldWords(s, b.rest, (list || b.dash) && DashAt(s, b.rest), headers);
    }
  }
}
