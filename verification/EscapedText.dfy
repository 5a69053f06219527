/** Which characters escaped text is made of, and which text escaping leaves alone. */
module EscapedText {
  import opened Entities
  import opened Escapes

  /** Text none of whose characters is replaced stays as it is. */
  lemma {:induction false} MappedKeeps(f: char -> string, s: string)
    requires forall c :: c in s ==> f(c) == [c]
    ensures Mapped(f, s) == s
  {
    if s != "" {
      MappedKeeps(f, s[1..]);
      assert s == [s[0]] + s[1..];
    }
  }

  /** If every image is made of allowed characters, so is the whole. */
  lemma {:induction false} MappedAllows(f: char -> string, s: string, allowed: char -> bool)
    requires forall c, d :: c in s && d in f(c) ==> allowed(d)
    ensures forall d :: d in Mapped(f, s) ==> allowed(d)
  {
    if s != "" {
      MappedAllows(f, s[1..], allowed);
      forall d | d in Mapped(f, s)
        ensures allowed(d)
      {
        assert d in f(s[0]) || d in Mapped(f, s[1..]);
        assert s[0] in s;
      }
    }
  }

  // ---- Percent encoding

  predicate IsHex(c: char) {
    '0' <= c <= '9' || 'A' <= c <= 'F'
  }

  predicate IsUnreserved(c: char) {
    '0' <= c <= '9' || 'A' <= c <= 'Z' || 'a' <= c <= 'z'
  }

  /** Letters, digits, and percent signs with two hexadecimal digits behind them. */
  predicate IsEncoded(t: string)
    decreases |t|
  {
    t == "" || (IsUnreserved(t[0]) && IsEncoded(t[1..])) ||
    (|t| >= 3 && t[0] == '%' && IsHex(t[1]) && IsHex(t[2]) && IsEncoded(t[3..]))
  }

  /** Percent encoding leaves nothing else, and keeps the letters and digits. */
  lemma {:induction false} UrlIsEncoded(s: string)
    requires Bytes(s)
    ensures IsEncoded(Mapped(UrlChar, s))
    ensures (forall c :: c in s ==> IsUnreserved(c)) ==> Mapped(UrlChar, s) == s
  {
    if s != "" {
      var rest := Mapped(UrlChar, s[1..]);
      UrlIsEncoded(s[1..]);
      OneEncoded(s[0], rest);
      assert s == [s[0]] + s[1..];
      assert IsUnreserved(s[0]) ==> UrlChar(s[0]) == [s[0]];
    }
  }

  lemma OneEncoded(c: char, rest: string)
    requires c as int < 256 && IsEncoded(rest)
    ensures IsEncoded(UrlChar(c) + rest)
  {
    var t := UrlChar(c) + rest;
    if c == '\n' {
      assert t[3..] == "%0A" + rest && ("%0A" + rest)[3..] == rest;
      assert IsEncoded("%0A" + rest);
    } else if IsUnreserved(c) {
      assert t[1..] == rest;
    } else {
      assert t[3..] == rest;
    }
  }

  // ---- Entities and quoting

  /** The characters that stand for markup. */
  predicate IsMarkup(c: char) {
    c == '<' || c == '>' || c == '\"'
  }

  predicate InPlainText(c: char) {
    !IsMarkup(c) && c as int < 160
  }

  lemma EntityIsPlain(c: char, d: char)
    requires 160 <= c as int < 256 && d in EntityText(c)
    ensures InPlainText(d)
  {
    hide EntityName;
    TableAgrees(c as int - 160);
    assert EntityText(c) == "&" + EntityName(c as int - 160) + ";";
  }

  /** Plain text has no markup and no byte of the upper half, and keeps everything else but the ampersand. */
  lemma PlainIsClean(s: string)
    requires Bytes(s)
    ensures forall d :: d in Mapped(PlainChar, s) ==> InPlainText(d)
    ensures (forall c :: c in s ==> InPlainText(c) && c != '&') ==> Mapped(PlainChar, s) == s
  {
    forall c, d | c in s && d in PlainChar(c)
      ensures InPlainText(d)
    {
      if c as int >= 160 {
        EntityIsPlain(c, d);
      }
    }
    MappedAllows(PlainChar, s, InPlainText);
    if forall c :: c in s ==> InPlainText(c) && c != '&' {
      MappedKeeps(PlainChar, s);
    }
  }

  /** Entity replacement alone leaves no byte of the upper half, and keeps everything below it, markup included. */
  lemma HtmlIsClean(s: string)
    requires Bytes(s)
    ensures forall d :: d in Mapped(HtmlChar, s) ==> d as int < 160
    ensures (forall c :: c in s ==> c as int < 160) ==> Mapped(HtmlChar, s) == s
  {
    forall c, d | c in s && d in HtmlChar(c)
      ensures d as int < 160
    {
      if c as int >= 160 {
        EntityIsPlain(c, d);
      }
    }
    MappedAllows(HtmlChar, s, d => d as int < 160);
    if forall c :: c in s ==> c as int < 160 {
      MappedKeeps(HtmlChar, s);
    }
  }

  /** A literal's text is only changed where it has quotes or backslashes. */
  lemma SqlKeeps(s: string)
    requires forall c :: c in s ==> c != '\'' && c != '\"' && c != '\\'
    ensures Mapped(SqlChar, s) == s
  {
    MappedKeeps(SqlChar, s);
  }
}
