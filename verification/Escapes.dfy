/** The formatter's escapers, and the readers that take their output back. */
module Escapes {
  import opened Wrappers
  import opened Entities
  import opened CharBuffer

  /** Strings of bytes. */
  predicate Bytes(s: string) {
    forall i :: 0 <= i < |s| ==> s[i] as int < 256
  }

  /** Each character replaced by its image. */
  function Mapped(f: char -> string, s: string): string {
    if s == "" then "" else f(s[0]) + Mapped(f, s[1..])
  }

  lemma {:induction false} MappedSum(f: char -> string, a: string, b: string)
    ensures Mapped(f, a + b) == Mapped(f, a) + Mapped(f, b)
    decreases |a|
  {
    if a == "" {
      assert a + b == b;
    } else {
      assert (a + b)[1..] == a[1..] + b;
      MappedSum(f, a[1..], b);
    }
  }

  lemma MappedNext(f: char -> string, s: string, i: nat)
    requires i < |s|
    ensures Mapped(f, s[..i + 1]) == Mapped(f, s[..i]) + f(s[i])
  {
    assert s[..i + 1] == s[..i] + [s[i]];
    MappedSum(f, s[..i], [s[i]]);
    assert Mapped(f, [s[i]]) == f(s[i]) + Mapped(f, []);
  }

  // ---- SQL literals

  function SqlChar(c: char): string {
    if c == '\'' then "\\'" else if c == '\"' then "\\\"" else if c == '\\' then "\\\\" else [c]
  }

  function CleanSqlChar(c: char): string {
    if c == '\n' then "" else SqlChar(c)
  }

  method AddSqlChar(out: Buffer, c: char)
    requires out.Valid()
    modifies out.Repr
    ensures out.Valid() && fresh(out.Repr - old(out.Repr))
    ensures out.Contents == old(out.Contents) + SqlChar(c)
  {
    if c == '\'' {
      out.AddAll("\\'");
    } else if c == '\"' {
      out.AddAll("\\\"");
    } else if c == '\\' {
      out.AddAll("\\\\");
    } else {
      out.Add(c);
    }
  }

  method AddSql(out: Buffer, s: string)
    requires out.Valid()
    modifies out.Repr
    ensures out.Valid() && fresh(out.Repr - old(out.Repr))
    ensures out.Contents == old(out.Contents) + Mapped(SqlChar, s)
  {
    hide SqlChar;
    var i := 0;
    while i < |s|
      invariant i <= |s| && out.Valid() && fresh(out.Repr - old(out.Repr))
      invariant out.Contents == old(out.Contents) + Mapped(SqlChar, s[..i])
    {
      MappedNext(SqlChar, s, i);
      AddSqlChar(out, s[i]);
      i := i + 1;
    }
    assert s[..i] == s;
  }

  method AddCleanSqlChar(out: Buffer, c: char)
    requires out.Valid()
    modifies out.Repr
    ensures out.Valid() && fresh(out.Repr - old(out.Repr))
    ensures out.Contents == old(out.Contents) + CleanSqlChar(c)
  {
    if c == '\'' {
      out.AddAll("\\'");
    } else if c == '\"' {
      out.AddAll("\\\"");
    } else if c == '\\' {
      out.AddAll("\\\\");
    } else if c != '\n' {
      out.Add(c);
    }
  }

  method AddCleanSql(out: Buffer, s: string)
    requires out.Valid()
    modifies out.Repr
    ensures out.Valid() && fresh(out.Repr - old(out.Repr))
    ensures out.Contents == old(out.Contents) + Mapped(CleanSqlChar, s)
  {
    hide CleanSqlChar;
    var i := 0;
    while i < |s|
      invariant i <= |s| && out.Valid() && fresh(out.Repr - old(out.Repr))
      invariant out.Contents == old(out.Contents) + Mapped(CleanSqlChar, s[..i])
    {
      MappedNext(CleanSqlChar, s, i);
      AddCleanSqlChar(out, s[i]);
      i := i + 1;
    }
    assert s[..i] == s;
  }

  function Quoted(s: string): string {
    "'" + Mapped(SqlChar, s) + "'"
  }

  /** The q formatter. */
  method FormatQuoted(out: Buffer, s: string)
    requires out.Valid()
    modifies out.Repr
    ensures out.Valid() && fresh(out.Repr - old(out.Repr))
    ensures out.Contents == old(out.Contents) + Quoted(s)
  {
    out.Add('\'');
    AddSql(out, s);
    out.Add('\'');
  }

  /** The value of a literal from after its opening quote, and what follows its closing quote. */
  function LiteralBody(s: string): Option<(string, string)>
    decreases |s|
  {
    if s == "" then None
    else if s[0] == '\'' then Some(("", s[1..]))
    else if s[0] == '\\' then
      if |s| == 1 then None
      else
        match LiteralBody(s[2..])
        case None => None
        case Some((v, rest)) => Some(([s[1]] + v, rest))
    else
      match LiteralBody(s[1..])
      case None => None
      case Some((v, rest)) => Some(([s[0]] + v, rest))
  }

  function ReadLiteral(s: string): Option<(string, string)> {
    if s != "" && s[0] == '\'' then LiteralBody(s[1..]) else None
  }

  lemma {:induction false} LiteralBodyOf(s: string, rest: string)
    ensures LiteralBody(Mapped(SqlChar, s) + "'" + rest) == Some((s, rest))
  {
    var whole := Mapped(SqlChar, s) + "'" + rest;
    if s == "" {
      assert whole == "'" + rest && whole[1..] == rest;
    } else {
      hide SqlChar, LiteralBody;
      var more := Mapped(SqlChar, s[1..]) + "'" + rest;
      LiteralBodyOf(s[1..], rest);
      assert whole == SqlChar(s[0]) + more;
      LiteralStep(s[0], more);
      assert s == [s[0]] + s[1..];
    }
  }

  lemma LiteralStep(c: char, more: string)
    ensures LiteralBody(SqlChar(c) + more) ==
            match LiteralBody(more)
            case None => None
            case Some((v, rest)) => Some(([c] + v, rest))
  {
    assert (SqlChar(c) + more)[|SqlChar(c)|..] == more;
  }

  /** A quoted string is one literal, ends at its last quote, and has the string as its value. */
  lemma QuotedRoundTrip(s: string, rest: string)
    ensures ReadLiteral(Quoted(s) + rest) == Some((s, rest))
  {
    LiteralBodyOf(s, rest);
    assert (Quoted(s) + rest)[1..] == Mapped(SqlChar, s) + "'" + rest;
  }

  function WithoutNewlines(s: string): string {
    if s == "" then "" else (if s[0] == '\n' then "" else [s[0]]) + WithoutNewlines(s[1..])
  }

  lemma {:induction false} CleanIsSqlWithoutNewlines(s: string)
    ensures Mapped(CleanSqlChar, s) == Mapped(SqlChar, WithoutNewlines(s))
  {
    if s != "" {
      CleanIsSqlWithoutNewlines(s[1..]);
      var clean := WithoutNewlines(s[1..]);
      if s[0] == '\n' {
        assert "" + clean == clean && "" + Mapped(CleanSqlChar, s[1..]) == Mapped(CleanSqlChar, s[1..]);
      } else {
        assert ([s[0]] + clean)[1..] == clean;
      }
    }
  }

  // ---- Percent encoding

  function HexDigit(n: int): char
    requires 0 <= n < 16
  {
    if n < 10 then ('0' as int + n) as char else ('A' as int + n - 10) as char
  }

  function UrlChar(c: char): string {
    if c == '\n' then "%0D%0A"
    else if IsLetterOrDigit(c) then [c]
    else ['%', HexDigit((c as int / 16) % 16), HexDigit(c as int % 16)]
  }

  method AddUrlChar(out: Buffer, c: char)
    requires out.Valid() && c as int < 256
    modifies out.Repr
    ensures out.Valid() && fresh(out.Repr - old(out.Repr))
    ensures out.Contents == old(out.Contents) + UrlChar(c)
  {
    hide HexDigit;
    if c == '\n' {
      out.AddAll("%0D%0A");
    } else if IsLetterOrDigit(c) {
      out.Add(c);
    } else {
      out.Add('%');
      out.Add(HexDigit((c as int / 16) % 16));
      out.Add(HexDigit(c as int % 16));
    }
  }

  /** The u formatter. */
  method FormatUrl(out: Buffer, s: string)
    requires out.Valid() && Bytes(s)
    modifies out.Repr
    ensures out.Valid() && fresh(out.Repr - old(out.Repr))
    ensures out.Contents == old(out.Contents) + Mapped(UrlChar, s)
  {
    hide UrlChar;
    var i := 0;
    while i < |s|
      invariant i <= |s| && out.Valid() && fresh(out.Repr - old(out.Repr))
      invariant out.Contents == old(out.Contents) + Mapped(UrlChar, s[..i])
    {
      MappedNext(UrlChar, s, i);
      AddUrlChar(out, s[i]);
      i := i + 1;
    }
    assert s[..i] == s;
  }

  function HexValue(c: char): Option<int> {
    if '0' <= c <= '9' then Some(c as int - '0' as int)
    else if 'A' <= c <= 'F' then Some(c as int - 'A' as int + 10)
    else if 'a' <= c <= 'f' then Some(c as int - 'a' as int + 10)
    else None
  }

  /** Percent decoding (section 2.1 of RFC 3986); a stray percent sign stands for itself. */
  function PercentDecoded(s: string): string
    decreases |s|
  {
    if s == "" then ""
    else if s[0] == '%' && |s| >= 3 && HexValue(s[1]).Some? && HexValue(s[2]).Some? then
      HexRange(s[1]);
      HexRange(s[2]);
      [(16 * HexValue(s[1]).value + HexValue(s[2]).value) as char] + PercentDecoded(s[3..])
    else [s[0]] + PercentDecoded(s[1..])
  }

  lemma HexRange(c: char)
    ensures HexValue(c).Some? ==> 0 <= HexValue(c).value < 16
  {
  }

  /** Each newline as carriage return and newline. */
  function CrLfChar(c: char): string {
    if c == '\n' then "\r\n" else [c]
  }

  lemma DecodeTriple(n: int, rest: string)
    requires 0 <= n < 256
    ensures PercentDecoded(['%', HexDigit(n / 16), HexDigit(n % 16)] + rest) == [n as char] + PercentDecoded(rest)
  {
    var s := ['%', HexDigit(n / 16), HexDigit(n % 16)] + rest;
    assert HexValue(s[1]) == Some(n / 16) && HexValue(s[2]) == Some(n % 16);
    assert s[3..] == rest;
  }

  lemma DecodePlain(c: char, rest: string)
    requires c != '%'
    ensures PercentDecoded([c] + rest) == [c] + PercentDecoded(rest)
  {
    assert ([c] + rest)[1..] == rest;
  }

  lemma HexDigits()
    ensures HexDigit(0) == '0' && HexDigit(10) == 'A' && HexDigit(13) == 'D'
    ensures PercentDecoded("") == ""
  {
  }

  lemma DecodeUrlChar(c: char, rest: string)
    requires c as int < 256
    ensures PercentDecoded(UrlChar(c) + rest) == CrLfChar(c) + PercentDecoded(rest)
  {
    HexDigits();
    hide HexDigit, PercentDecoded;
    var n := c as int;
    if c == '\n' {
      DecodeTriple(13, "%0A" + rest);
      DecodeTriple(10, rest);
      assert "%0D%0A" + rest == ['%', HexDigit(0), HexDigit(13)] + ("%0A" + rest);
      assert "%0A" + rest == ['%', HexDigit(0), HexDigit(10)] + rest;
      assert [13 as char] + ([10 as char] + PercentDecoded(rest)) == "\r\n" + PercentDecoded(rest);
    } else if IsLetterOrDigit(c) {
      DecodePlain(c, rest);
    } else {
      assert (n / 16) % 16 == n / 16;
      DecodeTriple(n, rest);
    }
  }

  /** Percent decoding gives the bytes back, with each newline as carriage return and newline. */
  lemma {:induction false} UrlRoundTrip(s: string)
    requires Bytes(s)
    ensures PercentDecoded(Mapped(UrlChar, s)) == Mapped(CrLfChar, s)
  {
    hide UrlChar, CrLfChar;
    if s != "" {
      UrlRoundTrip(s[1..]);
      DecodeUrlChar(s[0], Mapped(UrlChar, s[1..]));
    }
  }

  /** Carriage return and newline back to newline; other carriage returns stay. */
  function NewlinesOnly(s: string): string
    decreases |s|
  {
    if s == "" then ""
    else if |s| > 1 && s[0] == '\r' && s[1] == '\n' then "\n" + NewlinesOnly(s[2..])
    else [s[0]] + NewlinesOnly(s[1..])
  }

  lemma {:induction false} NewlinesRestored(s: string)
    ensures NewlinesOnly(Mapped(CrLfChar, s)) == s
    ensures s != "" ==> Mapped(CrLfChar, s) != "" && Mapped(CrLfChar, s)[0] != '\n'
  {
    if s != "" {
      NewlinesRestored(s[1..]);
      var rest := Mapped(CrLfChar, s[1..]);
      assert s == [s[0]] + s[1..];
      if s[0] == '\n' {
        assert ("\r\n" + rest)[2..] == rest;
      } else {
        assert ([s[0]] + rest)[1..] == rest;
        assert s[1..] == "" ==> rest == "";
      }
    }
  }

  /** Different texts have different encodings. */
  lemma UrlInjective(s: string, t: string)
    requires Bytes(s) && Bytes(t) && Mapped(UrlChar, s) == Mapped(UrlChar, t)
    ensures s == t
  {
    UrlRoundTrip(s);
    UrlRoundTrip(t);
    NewlinesRestored(s);
    NewlinesRestored(t);
  }

  // ---- HTML text

  function EntityText(c: char): string
    requires 160 <= c as int < 256
  {
    "&" + EntityName(c as int - 160) + ";"
  }

  /** Inside islands: only the upper half is replaced. */
  function HtmlChar(c: char): string {
    if 160 <= c as int < 256 then EntityText(c) else [c]
  }

  function PlainChar(c: char): string {
    if c == '&' then "&amp;"
    else if c == '<' then "&lt;"
    else if c == '>' then "&gt;"
    else if c == '\"' then "&quot;"
    else HtmlChar(c)
  }

  method AddEntity(out: Buffer, c: char)
    requires out.Valid() && 160 <= c as int < 256
    modifies out.Repr
    ensures out.Valid() && fresh(out.Repr - old(out.Repr))
    ensures out.Contents == old(out.Contents) + EntityText(c)
  {
    hide EntityName;
    out.Add('&');
    out.AddAll(EntityName(c as int - 160));
    out.Add(';');
  }

  method AddHtmlChar(out: Buffer, c: char)
    requires out.Valid() && c as int < 256
    modifies out.Repr
    ensures out.Valid() && fresh(out.Repr - old(out.Repr))
    ensures out.Contents == old(out.Contents) + HtmlChar(c)
  {
    if c as int >= 160 {
      AddEntity(out, c);
    } else {
      out.Add(c);
    }
  }

  method AddPlainChar(out: Buffer, c: char)
    requires out.Valid() && c as int < 256
    modifies out.Repr
    ensures out.Valid() && fresh(out.Repr - old(out.Repr))
    ensures out.Contents == old(out.Contents) + PlainChar(c)
  {
    if c == '&' {
      out.AddAll("&amp;");
    } else if c == '<' {
      out.AddAll("&lt;");
    } else if c == '>' {
      out.AddAll("&gt;");
    } else if c == '\"' {
      out.AddAll("&quot;");
    } else if c as int >= 160 {
      AddEntity(out, c);
    } else {
      out.Add(c);
    }
  }

  method AddHtml(out: Buffer, s: string)
    requires out.Valid() && Bytes(s)
    modifies out.Repr
    ensures out.Valid() && fresh(out.Repr - old(out.Repr))
    ensures out.Contents == old(out.Contents) + Mapped(HtmlChar, s)
  {
    hide Mapped, HtmlChar;
    NothingMapped(s, 0);
    assert s[..0] == s[0..0];
    for i := 0 to |s|
      invariant out.Valid() && fresh(out.Repr - old(out.Repr))
      invariant out.Contents == old(out.Contents) + Mapped(HtmlChar, s[..i])
    {
      MappedNext(HtmlChar, s, i);
      AddHtmlChar(out, s[i]);
    }
    assert s[..|s|] == s;
  }

  /** The first place from on where a and b stand next to each other, or the length. */
  function FindPair(s: string, a: char, b: char, from: nat): (k: nat)
    requires from <= |s|
    ensures from <= k <= |s|
    ensures k < |s| ==> PairAt(s, a, b, k)
    ensures forall i :: from <= i < k ==> !PairAt(s, a, b, i)
    decreases |s| - from
  {
    if from == |s| || PairAt(s, a, b, from) then from else FindPair(s, a, b, from + 1)
  }

  predicate PairAt(s: string, a: char, b: char, i: nat) {
    i + 1 < |s| && s[i] == a && s[i + 1] == b
  }

  /** Plain text up to the first "[<", then an island. */
  function TextWithIslands(s: string): string
    decreases |s|, 0
  {
    var i := FindPair(s, '[', '<', 0);
    if i == |s| then Mapped(PlainChar, s) else Mapped(PlainChar, s[..i]) + Island(s[i + 2..])
  }

  /** Markup up to the first ">]", or to the end, then text again. */
  function Island(s: string): string
    decreases |s|, 0
  {
    var i := FindPair(s, '>', ']', 0);
    if i == |s| then Mapped(HtmlChar, s) else Mapped(HtmlChar, s[..i]) + TextWithIslands(s[i + 2..])
  }

  function PlainText(s: string, html: bool): string {
    if html then TextWithIslands(s) else Mapped(PlainChar, s)
  }

  /** Escapes from byte i on, in html mode up to the next "[<". */
  method AddPlainPart(out: Buffer, s: string, i: nat, html: bool) returns (j: nat)
    requires out.Valid() && Bytes(s) && i <= |s|
    modifies out.Repr
    ensures out.Valid() && fresh(out.Repr - old(out.Repr))
    ensures i <= j <= |s| && j == if html then FindPair(s, '[', '<', i) else |s|
    ensures out.Contents == old(out.Contents) + Mapped(PlainChar, s[i..j])
  {
    hide PlainChar, Mapped;
    j := i;
    NothingMapped(s, i);
    while j < |s| && (!html || !PairAt(s, '[', '<', j))
      invariant i <= j <= |s| && out.Valid() && fresh(out.Repr - old(out.Repr))
      invariant html ==> FindPair(s, '[', '<', i) == FindPair(s, '[', '<', j)
      invariant out.Contents == old(out.Contents) + Mapped(PlainChar, s[i..j])
    {
      MappedSlice(PlainChar, s, i, j);
      AddPlainChar(out, s[j]);
      j := j + 1;
    }
  }

  /** Copies from byte i on up to the next ">]", replacing only the upper half. */
  method AddIslandPart(out: Buffer, s: string, i: nat) returns (j: nat)
    requires out.Valid() && Bytes(s) && i <= |s|
    modifies out.Repr
    ensures out.Valid() && fresh(out.Repr - old(out.Repr))
    ensures i <= j <= |s| && j == FindPair(s, '>', ']', i)
    ensures out.Contents == old(out.Contents) + Mapped(HtmlChar, s[i..j])
  {
    hide HtmlChar, Mapped;
    j := i;
    NothingMapped(s, i);
    while j < |s| && !PairAt(s, '>', ']', j)
      invariant i <= j <= |s| && out.Valid() && fresh(out.Repr - old(out.Repr))
      invariant FindPair(s, '>', ']', i) == FindPair(s, '>', ']', j)
      invariant out.Contents == old(out.Contents) + Mapped(HtmlChar, s[i..j])
    {
      MappedSlice(HtmlChar, s, i, j);
      AddHtmlChar(out, s[j]);
      j := j + 1;
    }
  }

  lemma NothingMapped(s: string, i: nat)
    requires i <= |s|
    ensures Mapped(PlainChar, s[i..i]) == "" && Mapped(HtmlChar, s[i..i]) == ""
  {
  }

  lemma MappedSlice(f: char -> string, s: string, i: nat, j: nat)
    requires i <= j < |s|
    ensures Mapped(f, s[i..j + 1]) == Mapped(f, s[i..j]) + f(s[j])
  {
    assert s[i..][..j - i] == s[i..j] && s[i..][..j + 1 - i] == s[i..j + 1];
    MappedNext(f, s[i..], j - i);
  }

  lemma {:induction false} PairFound(s: string, a: char, b: char, from: nat, k: nat)
    requires from <= k <= |s| && (k < |s| ==> PairAt(s, a, b, k))
    requires forall i :: from <= i < k ==> !PairAt(s, a, b, i)
    ensures FindPair(s, a, b, from) == k
    decreases k - from
  {
    if from < k {
      PairFound(s, a, b, from + 1, k);
    }
  }

  lemma PairInSuffix(s: string, a: char, b: char, i: nat)
    requires i <= |s|
    ensures FindPair(s[i..], a, b, 0) + i == FindPair(s, a, b, i)
  {
    var k := FindPair(s, a, b, i);
    assert forall x: nat :: PairAt(s[i..], a, b, x) <==> PairAt(s, a, b, i + x);
    PairFound(s[i..], a, b, 0, k - i);
  }

  lemma Parts(s: string)
    ensures var i := FindPair(s, '[', '<', 0);
            TextWithIslands(s) == Mapped(PlainChar, s[..i]) + if i == |s| then "" else Island(s[i + 2..])
    ensures var i := FindPair(s, '>', ']', 0);
            Island(s) == Mapped(HtmlChar, s[..i]) + if i == |s| then "" else TextWithIslands(s[i + 2..])
  {
    hide Mapped, FindPair, PlainChar, HtmlChar;
    assert s[..|s|] == s;
  }

  /** Cutting the suffix of s at i, at the place j of s. */
  lemma SuffixCut(s: string, i: nat, j: nat)
    requires i <= j <= |s|
    ensures s[i..][..j - i] == s[i..j]
    ensures j + 2 <= |s| ==> s[i..][j - i + 2..] == s[j + 2..]
  {
  }

  lemma IslandFrom(s: string, i: nat)
    requires i <= |s|
    ensures var k := FindPair(s, '>', ']', i);
            Island(s[i..]) == Mapped(HtmlChar, s[i..k]) + if k == |s| then "" else TextWithIslands(s[k + 2..])
  {
    hide Mapped, FindPair, PlainChar, HtmlChar, TextWithIslands, Island;
    PairInSuffix(s, '>', ']', i);
    Parts(s[i..]);
    SuffixCut(s, i, FindPair(s, '>', ']', i));
  }

  /** What is printed from byte i on: text, then perhaps an island, then the rest. */
  lemma TextFrom(s: string, i: nat)
    requires i <= |s|
    ensures var j := FindPair(s, '[', '<', i);
            if j == |s| then TextWithIslands(s[i..]) == Mapped(PlainChar, s[i..j])
            else
              var k := FindPair(s, '>', ']', j + 2);
              TextWithIslands(s[i..]) == Mapped(PlainChar, s[i..j]) +
                (Mapped(HtmlChar, s[j + 2..k]) + if k == |s| then "" else TextWithIslands(s[k + 2..]))
  {
    hide Mapped, FindPair, PlainChar, HtmlChar, Island, TextWithIslands;
    var j := FindPair(s, '[', '<', i);
    PairInSuffix(s, '[', '<', i);
    Parts(s[i..]);
    SuffixCut(s, i, j);
    if j < |s| {
      IslandFrom(s, j + 2);
    }
  }

  method AddPlain(out: Buffer, s: string, html: bool)
    requires out.Valid() && Bytes(s)
    modifies out.Repr
    ensures out.Valid() && fresh(out.Repr - old(out.Repr))
    ensures out.Contents == old(out.Contents) + PlainText(s, html)
  {
    hide Island, PlainChar, HtmlChar, Mapped, FindPair, TextWithIslands;
    var i := 0;
    assert s[0..] == s;
    while i < |s|
      invariant i <= |s| && out.Valid() && fresh(out.Repr - old(out.Repr))
      invariant html ==> out.Contents + TextWithIslands(s[i..]) == old(out.Contents) + TextWithIslands(s)
      invariant !html ==>
        if i == 0 then out.Contents == old(out.Contents)
        else i == |s| && out.Contents == old(out.Contents) + Mapped(PlainChar, s)
    {
      TextFrom(s, i);
      NothingLeft(s);
      assert !html ==> s[i..|s|] == s;
      i := AddPlainPart(out, s, i, html);
      if i < |s| && html && PairAt(s, '[', '<', i) {
        i := AddIslandPart(out, s, i + 2);
      }
      if i < |s| && html && PairAt(s, '>', ']', i) {
        i := i + 2;
      }
    }
    NothingLeft(s);
  }

  lemma NothingLeft(s: string)
    ensures TextWithIslands(s[|s|..]) == ""
    ensures s == "" ==> Mapped(PlainChar, s) == "" && TextWithIslands(s) == ""
  {
  }

  // ---- Reading escaped text back

  /** The place of the first semicolon from on, or the length. */
  function Semicolon(s: string, from: nat): (k: nat)
    requires from <= |s|
    ensures from <= k <= |s|
    decreases |s| - from
  {
    if from == |s| || s[from] == ';' then from else Semicolon(s, from + 1)
  }

  /** Replaces each entity reference by its character; anything else stands for itself. */
  function Decoded(s: string): string
    decreases |s|
  {
    if s == "" then ""
    else if s[0] != '&' then [s[0]] + Decoded(s[1..])
    else
      var k := Semicolon(s, 1);
      if k < |s| && CodeOf(s[1..k]).Some? && 0 <= CodeOf(s[1..k]).value < 256 then
        [CodeOf(s[1..k]).value as char] + Decoded(s[k + 1..])
      else [s[0]] + Decoded(s[1..])
  }

  lemma {:induction false} SemicolonAfter(s: string, from: nat, k: nat)
    requires from <= k < |s| && s[k] == ';' && forall i :: from <= i < k ==> s[i] != ';'
    ensures Semicolon(s, from) == k
    decreases k - from
  {
    if from < k {
      SemicolonAfter(s, from + 1, k);
    }
  }

  lemma DecodeReference(name: string, code: int, rest: string)
    requires IsName(name) && CodeOf(name) == Some(code) && 0 <= code < 256
    ensures Decoded("&" + name + ";" + rest) == [code as char] + Decoded(rest)
  {
    hide CodeOf;
    var s := "&" + name + ";" + rest;
    var k := |name| + 1;
    assert s[1..k] == name && s[k] == ';' && s[k + 1..] == rest;
    assert forall i :: 1 <= i < k ==> s[i] == name[i - 1];
    SemicolonAfter(s, 1, k);
  }

  lemma DecodePlainChar(c: char, rest: string)
    requires c as int < 256
    ensures Decoded(PlainChar(c) + rest) == [c] + Decoded(rest)
  {
    MarkupNames();
    hide CodeOf, EntityName, IsName;
    if c == '&' {
      assert "&amp;" == "&" + "amp" + ";";
      DecodeReference("amp", '&' as int, rest);
    } else if c == '<' {
      assert "&lt;" == "&" + "lt" + ";";
      DecodeReference("lt", '<' as int, rest);
    } else if c == '>' {
      assert "&gt;" == "&" + "gt" + ";";
      DecodeReference("gt", '>' as int, rest);
    } else if c == '\"' {
      assert "&quot;" == "&" + "quot" + ";";
      DecodeReference("quot", '\"' as int, rest);
    } else if c as int >= 160 {
      TableAgrees(c as int - 160);
      DecodeReference(EntityName(c as int - 160), c as int, rest);
    } else {
      assert ([c] + rest)[1..] == rest;
    }
  }

  /** Decoding plain output gives the original bytes. */
  lemma {:induction false} PlainRoundTrip(s: string)
    requires Bytes(s)
    ensures Decoded(Mapped(PlainChar, s)) == s
  {
    hide PlainChar;
    if s != "" {
      PlainRoundTrip(s[1..]);
      DecodePlainChar(s[0], Mapped(PlainChar, s[1..]));
      assert s == [s[0]] + s[1..];
    }
  }
}
