/** The HTML entities of the formatter: the printing table, and the names with their characters from HTML 4.01. */
module Entities {
  import opened Wrappers

  predicate IsLetterOrDigit(c: char) {
    '0' <= c <= '9' || 'a' <= c <= 'z' || 'A' <= c <= 'Z'
  }

  predicate IsName(s: string) {
    s != "" && forall i :: 0 <= i < |s| ==> IsLetterOrDigit(s[i])
  }

  // ---- The formatter's table for the bytes from 160 on

  function Row0(k: nat): string {
    match k
    case 0 => "nbsp"
    case 1 => "iexcl"
    case 2 => "cent"
    case 3 => "pound"
    case 4 => "curren"
    case 5 => "yen"
    case 6 => "brvbar"
    case _ => "sect"
  }

  function Row1(k: nat): string {
    match k
    case 0 => "uml"
    case 1 => "copy"
    case 2 => "ordf"
    case 3 => "laquo"
    case 4 => "not"
    case 5 => "shy"
    case 6 => "reg"
    case _ => "macr"
  }

  function Row2(k: nat): string {
    match k
    case 0 => "deg"
    case 1 => "plusmn"
    case 2 => "sup2"
    case 3 => "sup3"
    case 4 => "acute"
    case 5 => "micro"
    case 6 => "para"
    case _ => "middot"
  }

  function Row3(k: nat): string {
    match k
    case 0 => "cedil"
    case 1 => "sup1"
    case 2 => "ordm"
    case 3 => "raquo"
    case 4 => "frac14"
    case 5 => "frac12"
    case 6 => "frac34"
    case _ => "iquest"
  }

  function Row4(k: nat): string {
    match k
    case 0 => "Agrave"
    case 1 => "Aacute"
    case 2 => "Acirc"
    case 3 => "Atilde"
    case 4 => "Auml"
    case 5 => "Aring"
    case 6 => "AElig"
    case _ => "Ccedil"
  }

  function Row5(k: nat): string {
    match k
    case 0 => "Egrave"
    case 1 => "Eacute"
    case 2 => "Ecirc"
    case 3 => "Euml"
    case 4 => "Igrave"
    case 5 => "Iacute"
    case 6 => "Icirc"
    case _ => "Iuml"
  }

  function Row6(k: nat): string {
    match k
    case 0 => "ETH"
    case 1 => "Ntilde"
    case 2 => "Ograve"
    case 3 => "Oacute"
    case 4 => "Ocirc"
    case 5 => "Otilde"
    case 6 => "Ouml"
    case _ => "times"
  }

  function Row7(k: nat): string {
    match k
    case 0 => "Oslash"
    case 1 => "Ugrave"
    case 2 => "Uacute"
    case 3 => "Ucirc"
    case 4 => "Uuml"
    case 5 => "Yacute"
    case 6 => "THORN"
    case _ => "szlig"
  }

  function Row8(k: nat): string {
    match k
    case 0 => "agrave"
    case 1 => "aacute"
    case 2 => "acirc"
    case 3 => "atilde"
    case 4 => "auml"
    case 5 => "aring"
    case 6 => "aelig"
    case _ => "ccedil"
  }

  function Row9(k: nat): string {
    match k
    case 0 => "egrave"
    case 1 => "eacute"
    case 2 => "ecirc"
    case 3 => "euml"
    case 4 => "igrave"
    case 5 => "iacute"
    case 6 => "icirc"
    case _ => "iuml"
  }

  function Row10(k: nat): string {
    match k
    case 0 => "eth"
    case 1 => "ntilde"
    case 2 => "ograve"
    case 3 => "oacute"
    case 4 => "ocirc"
    case 5 => "otilde"
    case 6 => "ouml"
    case _ => "divide"
  }

  function Row11(k: nat): string {
    match k
    case 0 => "oslash"
    case 1 => "ugrave"
    case 2 => "uacute"
    case 3 => "ucirc"
    case 4 => "uuml"
    case 5 => "yacute"
    case 6 => "thorn"
    case _ => "yuml"
  }

  function EntityName(k: nat): string
    requires k < 96
  {
    match k / 8
    case 0 => Row0(k % 8)
    case 1 => Row1(k % 8)
    case 2 => Row2(k % 8)
    case 3 => Row3(k % 8)
    case 4 => Row4(k % 8)
    case 5 => Row5(k % 8)
    case 6 => Row6(k % 8)
    case 7 => Row7(k % 8)
    case 8 => Row8(k % 8)
    case 9 => Row9(k % 8)
    case 10 => Row10(k % 8)
    case _ => Row11(k % 8)
  }

  // ---- Sections 24.2 and 24.4 of HTML 4.01, by first letter

  function NamesA(name: string): Option<int> {
    if name == "AElig" then Some(198)
    else if name == "Aacute" then Some(193)
    else if name == "Acirc" then Some(194)
    else if name == "Agrave" then Some(192)
    else if name == "Aring" then Some(197)
    else if name == "Atilde" then Some(195)
    else if name == "Auml" then Some(196)
    else None
  }

  function NamesC(name: string): Option<int> {
    if name == "Ccedil" then Some(199)
    else None
  }

  function NamesE(name: string): Option<int> {
    if name == "ETH" then Some(208)
    else if name == "Eacute" then Some(201)
    else if name == "Ecirc" then Some(202)
    else if name == "Egrave" then Some(200)
    else if name == "Euml" then Some(203)
    else None
  }

  function NamesI(name: string): Option<int> {
    if name == "Iacute" then Some(205)
    else if name == "Icirc" then Some(206)
    else if name == "Igrave" then Some(204)
    else if name == "Iuml" then Some(207)
    else None
  }

  function NamesN(name: string): Option<int> {
    if name == "Ntilde" then Some(209)
    else None
  }

  function NamesO(name: string): Option<int> {
    if name == "Oacute" then Some(211)
    else if name == "Ocirc" then Some(212)
    else if name == "Ograve" then Some(210)
    else if name == "Oslash" then Some(216)
    else if name == "Otilde" then Some(213)
    else if name == "Ouml" then Some(214)
    else None
  }

  function NamesT(name: string): Option<int> {
    if name == "THORN" then Some(222)
    else None
  }

  function NamesU(name: string): Option<int> {
    if name == "Uacute" then Some(218)
    else if name == "Ucirc" then Some(219)
    else if name == "Ugrave" then Some(217)
    else if name == "Uuml" then Some(220)
    else None
  }

  function NamesY(name: string): Option<int> {
    if name == "Yacute" then Some(221)
    else None
  }

  function NamesLowerA(name: string): Option<int> {
    if name == "aacute" then Some(225)
    else if name == "acirc" then Some(226)
    else if name == "acute" then Some(180)
    else if name == "aelig" then Some(230)
    else if name == "agrave" then Some(224)
    else if name == "amp" then Some(38)
    else if name == "aring" then Some(229)
    else if name == "atilde" then Some(227)
    else if name == "auml" then Some(228)
    else None
  }

  function NamesLowerB(name: string): Option<int> {
    if name == "brvbar" then Some(166)
    else None
  }

  function NamesLowerC(name: string): Option<int> {
    if name == "ccedil" then Some(231)
    else if name == "cedil" then Some(184)
    else if name == "cent" then Some(162)
    else if name == "copy" then Some(169)
    else if name == "curren" then Some(164)
    else None
  }

  function NamesLowerD(name: string): Option<int> {
    if name == "deg" then Some(176)
    else if name == "divide" then Some(247)
    else None
  }

  function NamesLowerE(name: string): Option<int> {
    if name == "eacute" then Some(233)
    else if name == "ecirc" then Some(234)
    else if name == "egrave" then Some(232)
    else if name == "eth" then Some(240)
    else if name == "euml" then Some(235)
    else None
  }

  function NamesLowerF(name: string): Option<int> {
    if name == "frac12" then Some(189)
    else if name == "frac14" then Some(188)
    else if name == "frac34" then Some(190)
    else None
  }

  function NamesLowerG(name: string): Option<int> {
    if name == "gt" then Some(62)
    else None
  }

  function NamesLowerI(name: string): Option<int> {
    if name == "iacute" then Some(237)
    else if name == "icirc" then Some(238)
    else if name == "iexcl" then Some(161)
    else if name == "igrave" then Some(236)
    else if name == "iquest" then Some(191)
    else if name == "iuml" then Some(239)
    else None
  }

  function NamesLowerL(name: string): Option<int> {
    if name == "laquo" then Some(171)
    else if name == "lt" then Some(60)
    else None
  }

  function NamesLowerM(name: string): Option<int> {
    if name == "macr" then Some(175)
    else if name == "micro" then Some(181)
    else if name == "middot" then Some(183)
    else None
  }

  function NamesLowerN(name: string): Option<int> {
    if name == "nbsp" then Some(160)
    else if name == "not" then Some(172)
    else if name == "ntilde" then Some(241)
    else None
  }

  function NamesLowerO(name: string): Option<int> {
    if name == "oacute" then Some(243)
    else if name == "ocirc" then Some(244)
    else if name == "ograve" then Some(242)
    else if name == "ordf" then Some(170)
    else if name == "ordm" then Some(186)
    else if name == "oslash" then Some(248)
    else if name == "otilde" then Some(245)
    else if name == "ouml" then Some(246)
    else None
  }

  function NamesLowerP(name: string): Option<int> {
    if name == "para" then Some(182)
    else if name == "plusmn" then Some(177)
    else if name == "pound" then Some(163)
    else None
  }

  function NamesLowerQ(name: string): Option<int> {
    if name == "quot" then Some(34)
    else None
  }

  function NamesLowerR(name: string): Option<int> {
    if name == "raquo" then Some(187)
    else if name == "reg" then Some(174)
    else None
  }

  function NamesLowerS(name: string): Option<int> {
    if name == "sect" then Some(167)
    else if name == "shy" then Some(173)
    else if name == "sup1" then Some(185)
    else if name == "sup2" then Some(178)
    else if name == "sup3" then Some(179)
    else if name == "szlig" then Some(223)
    else None
  }

  function NamesLowerT(name: string): Option<int> {
    if name == "thorn" then Some(254)
    else if name == "times" then Some(215)
    else None
  }

  function NamesLowerU(name: string): Option<int> {
    if name == "uacute" then Some(250)
    else if name == "ucirc" then Some(251)
    else if name == "ugrave" then Some(249)
    else if name == "uml" then Some(168)
    else if name == "uuml" then Some(252)
    else None
  }

  function NamesLowerY(name: string): Option<int> {
    if name == "yacute" then Some(253)
    else if name == "yen" then Some(165)
    else if name == "yuml" then Some(255)
    else None
  }

  /** The code of the character that an entity name stands for. */
  function CodeOf(name: string): Option<int> {
    if name == "" then None
    else
      match name[0]
      case 'A' => NamesA(name)
      case 'C' => NamesC(name)
      case 'E' => NamesE(name)
      case 'I' => NamesI(name)
      case 'N' => NamesN(name)
      case 'O' => NamesO(name)
      case 'T' => NamesT(name)
      case 'U' => NamesU(name)
      case 'Y' => NamesY(name)
      case 'a' => NamesLowerA(name)
      case 'b' => NamesLowerB(name)
      case 'c' => NamesLowerC(name)
      case 'd' => NamesLowerD(name)
      case 'e' => NamesLowerE(name)
      case 'f' => NamesLowerF(name)
      case 'g' => NamesLowerG(name)
      case 'i' => NamesLowerI(name)
      case 'l' => NamesLowerL(name)
      case 'm' => NamesLowerM(name)
      case 'n' => NamesLowerN(name)
      case 'o' => NamesLowerO(name)
      case 'p' => NamesLowerP(name)
      case 'q' => NamesLowerQ(name)
      case 'r' => NamesLowerR(name)
      case 's' => NamesLowerS(name)
      case 't' => NamesLowerT(name)
      case 'u' => NamesLowerU(name)
      case 'y' => NamesLowerY(name)
      case _ => None
  }

  lemma Row0Known(k: nat)
    requires k < 8
    ensures IsName(Row0(k)) && CodeOf(Row0(k)) == Some(160 + k)
  {
  }

  lemma Row1Known(k: nat)
    requires k < 8
    ensures IsName(Row1(k)) && CodeOf(Row1(k)) == Some(168 + k)
  {
  }

  lemma Row2Known(k: nat)
    requires k < 8
    ensures IsName(Row2(k)) && CodeOf(Row2(k)) == Some(176 + k)
  {
  }

  lemma Row3Known(k: nat)
    requires k < 8
    ensures IsName(Row3(k)) && CodeOf(Row3(k)) == Some(184 + k)
  {
  }

  lemma Row4Known(k: nat)
    requires k < 8
    ensures IsName(Row4(k)) && CodeOf(Row4(k)) == Some(192 + k)
  {
  }

  lemma Row5Known(k: nat)
    requires k < 8
    ensures IsName(Row5(k)) && CodeOf(Row5(k)) == Some(200 + k)
  {
  }

  lemma Row6Known(k: nat)
    requires k < 8
    ensures IsName(Row6(k)) && CodeOf(Row6(k)) == Some(208 + k)
  {
  }

  lemma Row7Known(k: nat)
    requires k < 8
    ensures IsName(Row7(k)) && CodeOf(Row7(k)) == Some(216 + k)
  {
  }

  lemma Row8Known(k: nat)
    requires k < 8
    ensures IsName(Row8(k)) && CodeOf(Row8(k)) == Some(224 + k)
  {
  }

  lemma Row9Known(k: nat)
    requires k < 8
    ensures IsName(Row9(k)) && CodeOf(Row9(k)) == Some(232 + k)
  {
  }

  lemma Row10Known(k: nat)
    requires k < 8
    ensures IsName(Row10(k)) && CodeOf(Row10(k)) == Some(240 + k)
  {
  }

  lemma Row11Known(k: nat)
    requires k < 8
    ensures IsName(Row11(k)) && CodeOf(Row11(k)) == Some(248 + k)
  {
  }

  /** The printing table gives each byte the name that HTML 4.01 gives its character. */
  lemma TableAgrees(k: nat)
    requires k < 96
    ensures IsName(EntityName(k)) && CodeOf(EntityName(k)) == Some(160 + k)
  {
    hide CodeOf, IsName;
    var i := k % 8;
    Row0Known(i);
    Row1Known(i);
    Row2Known(i);
    Row3Known(i);
    Row4Known(i);
    Row5Known(i);
    Row6Known(i);
    Row7Known(i);
    Row8Known(i);
    Row9Known(i);
    Row10Known(i);
    Row11Known(i);
    hide Row0, Row1, Row2, Row3, Row4, Row5, Row6, Row7, Row8, Row9, Row10, Row11;
  }

  lemma MarkupNames()
    ensures CodeOf("amp") == Some('&' as int) && CodeOf("lt") == Some('<' as int)
    ensures CodeOf("gt") == Some('>' as int) && CodeOf("quot") == Some('\"' as int)
    ensures IsName("amp") && IsName("lt") && IsName("gt") && IsName("quot")
  {
  }
}
