/**
 Search conditions as SQL reads them: a token string is parsed with AND binding tighter than OR
 and parentheses overriding both (section 8.12 of SQL-92), and the tree is evaluated under a
 truth assignment to the elementary conditions.
 */
module Sql {
  import opened Wrappers

  datatype Column = Column(table: string, field: string)

  /** An elementary condition: the equality of two columns, or any other comparison as its text. */
  datatype Condition = Equates(left: Column, right: Column) | Comparison(text: string)

  /** Truth is the text 1=1; Word and Number are the tokens outside search conditions. */
  datatype Token = Open | Close | AndWord | OrWord | Truth | Test(condition: Condition) | Word(text: string)
                 | Number(value: nat)

  type Valuation = Condition -> bool

  // ---- Syntax trees

  datatype Factor = Always | Atom(condition: Condition) | Paren(expr: Expr)
  datatype Term = Single(factor: Factor) | Conj(factor: Factor, rest: Term)
  datatype Expr = Just(term: Term) | Disj(term: Term, rest: Expr)

  predicate EvalFactor(f: Factor, v: Valuation) {
    match f
    case Always => true
    case Atom(c) => v(c)
    case Paren(e) => EvalExpr(e, v)
  }

  predicate EvalTerm(t: Term, v: Valuation) {
    match t
    case Single(f) => EvalFactor(f, v)
    case Conj(f, rest) => EvalFactor(f, v) && EvalTerm(rest, v)
  }

  predicate EvalExpr(e: Expr, v: Valuation) {
    match e
    case Just(t) => EvalTerm(t, v)
    case Disj(t, rest) => EvalTerm(t, v) || EvalExpr(rest, v)
  }

  // ---- The parser: each function returns a tree and the tokens after it

  function ParseFactor(ts: seq<Token>): (r: Option<(Factor, seq<Token>)>)
    ensures r.Some? ==> |r.value.1| < |ts|
    decreases |ts|, 0
  {
    if ts == [] then None
    else if ts[0] == Truth then Some((Always, ts[1..]))
    else if ts[0].Test? then Some((Atom(ts[0].condition), ts[1..]))
    else if ts[0] == Open then
      match ParseExpr(ts[1..])
      case Some((e, rest)) => if rest != [] && rest[0] == Close then Some((Paren(e), rest[1..])) else None
      case None => None
    else None
  }

  function ParseTerm(ts: seq<Token>): (r: Option<(Term, seq<Token>)>)
    ensures r.Some? ==> |r.value.1| < |ts|
    decreases |ts|, 1
  {
    match ParseFactor(ts)
    case None => None
    case Some((f, rest)) => ThenTerm(Single(f), rest)
  }

  function ParseExpr(ts: seq<Token>): (r: Option<(Expr, seq<Token>)>)
    ensures r.Some? ==> |r.value.1| < |ts|
    decreases |ts|, 2
  {
    match ParseTerm(ts)
    case None => None
    case Some((t, rest)) => ThenExpr(Just(t), rest)
  }

  /** Continues the conjunction t if AND comes next. */
  function ThenTerm(t: Term, rest: seq<Token>): (r: Option<(Term, seq<Token>)>)
    ensures r.Some? ==> |r.value.1| <= |rest|
    decreases |rest|, 3
  {
    if rest == [] || rest[0] != AndWord then Some((t, rest))
    else
      match ParseTerm(rest[1..])
      case None => None
      case Some((u, r)) => Some((Append(t, u), r))
  }

  /** Continues the disjunction e if OR comes next. */
  function ThenExpr(e: Expr, rest: seq<Token>): (r: Option<(Expr, seq<Token>)>)
    ensures r.Some? ==> |r.value.1| <= |rest|
    decreases |rest|, 3
  {
    if rest == [] || rest[0] != OrWord then Some((e, rest))
    else
      match ParseExpr(rest[1..])
      case None => None
      case Some((f, r)) => Some((Alternatives(e, f), r))
  }

  function Append(t: Term, u: Term): Term {
    match t
    case Single(f) => Conj(f, u)
    case Conj(f, rest) => Conj(f, Append(rest, u))
  }

  function Alternatives(e: Expr, f: Expr): Expr {
    match e
    case Just(t) => Disj(t, f)
    case Disj(t, rest) => Disj(t, Alternatives(rest, f))
  }

  lemma EvalAppend(t: Term, u: Term, v: Valuation)
    ensures EvalTerm(Append(t, u), v) == (EvalTerm(t, v) && EvalTerm(u, v))
  {
  }

  lemma EvalAlternatives(e: Expr, f: Expr, v: Valuation)
    ensures EvalExpr(Alternatives(e, f), v) == (EvalExpr(e, v) || EvalExpr(f, v))
  {
  }

  lemma AppendAssociates(t: Term, u: Term, w: Term)
    ensures Append(Append(t, u), w) == Append(t, Append(u, w))
  {
  }

  lemma AlternativesAssociate(e: Expr, f: Expr, g: Expr)
    ensures Alternatives(Alternatives(e, f), g) == Alternatives(e, Alternatives(f, g))
  {
  }

  // ---- Token strings that keep their meaning in any context

  /** ts contributes exactly the conjuncts t, whatever follows it. */
  ghost predicate IsChain(ts: seq<Token>, t: Term) {
    forall rest :: ParseTerm(ts + rest) == ThenTerm(t, rest)
  }

  predicate NoAnd(rest: seq<Token>) {
    rest == [] || rest[0] != AndWord
  }

  /** ts contributes exactly the alternatives e, whatever follows it except AND. */
  ghost predicate IsDisjunction(ts: seq<Token>, e: Expr) {
    forall rest :: NoAnd(rest) ==> ParseExpr(ts + rest) == ThenExpr(e, rest)
  }

  lemma ChainOfTest(c: Condition)
    ensures IsChain([Test(c)], Single(Atom(c)))
  {
    forall rest
      ensures ParseTerm([Test(c)] + rest) == ThenTerm(Single(Atom(c)), rest)
    {
      assert ([Test(c)] + rest)[1..] == rest;
    }
  }

  lemma ChainOfTruth()
    ensures IsChain([Truth], Single(Always))
  {
    forall rest
      ensures ParseTerm([Truth] + rest) == ThenTerm(Single(Always), rest)
    {
      assert ([Truth] + rest)[1..] == rest;
    }
  }

  lemma ChainAnd(a: seq<Token>, t: Term, b: seq<Token>, u: Term)
    requires IsChain(a, t) && IsChain(b, u)
    ensures IsChain(a + [AndWord] + b, Append(t, u))
  {
    hide ParseExpr, ParseTerm, ParseFactor, ThenExpr;
    forall rest
      ensures ParseTerm(a + [AndWord] + b + rest) == ThenTerm(Append(t, u), rest)
    {
      var more := [AndWord] + (b + rest);
      assert a + [AndWord] + b + rest == a + more && more[1..] == b + rest;
      assert ParseTerm(a + more) == ThenTerm(t, more);
      assert ParseTerm(b + rest) == ThenTerm(u, rest);
      if !NoAnd(rest) && ParseTerm(rest[1..]).Some? {
        AppendAssociates(t, u, ParseTerm(rest[1..]).value.0);
      }
    }
  }

  lemma ChainIsDisjunction(ts: seq<Token>, t: Term)
    requires IsChain(ts, t)
    ensures IsDisjunction(ts, Just(t))
  {
    forall rest | NoAnd(rest)
      ensures ParseExpr(ts + rest) == ThenExpr(Just(t), rest)
    {
      assert ParseTerm(ts + rest) == ThenTerm(t, rest);
    }
  }

  lemma DisjunctionOr(a: seq<Token>, e: Expr, b: seq<Token>, f: Expr)
    requires IsDisjunction(a, e) && IsDisjunction(b, f)
    ensures IsDisjunction(a + [OrWord] + b, Alternatives(e, f))
  {
    hide ParseExpr, ThenExpr, Alternatives;
    forall rest | NoAnd(rest)
      ensures ParseExpr(a + [OrWord] + b + rest) == ThenExpr(Alternatives(e, f), rest)
    {
      var more := [OrWord] + (b + rest);
      assert a + [OrWord] + b + rest == a + more && NoAnd(more);
      assert ParseExpr(a + more) == ThenExpr(e, more);
      assert ParseExpr(b + rest) == ThenExpr(f, rest);
      ThenOr(e, f, b + rest, rest);
    }
  }

  lemma ThenOr(e: Expr, f: Expr, more: seq<Token>, rest: seq<Token>)
    requires ParseExpr(more) == ThenExpr(f, rest)
    ensures ThenExpr(e, [OrWord] + more) == ThenExpr(Alternatives(e, f), rest)
  {
    hide ParseExpr, Alternatives;
    assert ([OrWord] + more)[1..] == more;
    if rest != [] && rest[0] == OrWord && ParseExpr(rest[1..]).Some? {
      AlternativesAssociate(e, f, ParseExpr(rest[1..]).value.0);
    }
  }

  lemma ParenthesesChain(ts: seq<Token>, e: Expr)
    requires IsDisjunction(ts, e)
    ensures IsChain([Open] + ts + [Close], Single(Paren(e)))
  {
    forall rest
      ensures ParseTerm([Open] + ts + [Close] + rest) == ThenTerm(Single(Paren(e)), rest)
    {
      var whole := [Open] + ts + [Close] + rest;
      assert whole[1..] == ts + ([Close] + rest) && NoAnd([Close] + rest);
      assert ParseExpr(whole[1..]) == ThenExpr(e, [Close] + rest);
      assert ([Close] + rest)[1..] == rest;
    }
  }

  // ---- Lists joined by one connective

  function Join(connective: Token, items: seq<seq<Token>>): seq<Token> {
    if |items| == 0 then []
    else if |items| == 1 then items[0]
    else Join(connective, items[..|items| - 1]) + [connective] + items[|items| - 1]
  }

  function ConjunctionOf(terms: seq<Term>): Term
    requires terms != []
  {
    if |terms| == 1 then terms[0] else Append(ConjunctionOf(terms[..|terms| - 1]), terms[|terms| - 1])
  }

  function DisjunctionOf(terms: seq<Term>): Expr
    requires terms != []
  {
    if |terms| == 1 then Just(terms[0])
    else Alternatives(DisjunctionOf(terms[..|terms| - 1]), Just(terms[|terms| - 1]))
  }

  lemma {:induction false} JoinAnd(items: seq<seq<Token>>, terms: seq<Term>)
    requires 0 < |items| == |terms|
    requires forall i :: 0 <= i < |items| ==> IsChain(items[i], terms[i])
    ensures IsChain(Join(AndWord, items), ConjunctionOf(terms))
  {
    var n := |items| - 1;
    if n > 0 {
      JoinAnd(items[..n], terms[..n]);
      ChainAnd(Join(AndWord, items[..n]), ConjunctionOf(terms[..n]), items[n], terms[n]);
    }
  }

  lemma {:induction false} JoinOr(items: seq<seq<Token>>, terms: seq<Term>)
    requires 0 < |items| == |terms|
    requires forall i :: 0 <= i < |items| ==> IsChain(items[i], terms[i])
    ensures IsDisjunction(Join(OrWord, items), DisjunctionOf(terms))
  {
    var n := |items| - 1;
    ChainIsDisjunction(items[n], terms[n]);
    if n > 0 {
      JoinOr(items[..n], terms[..n]);
      DisjunctionOr(Join(OrWord, items[..n]), DisjunctionOf(terms[..n]), items[n], Just(terms[n]));
    }
  }

  lemma {:induction false} EvalConjunction(terms: seq<Term>, v: Valuation)
    requires terms != []
    ensures EvalTerm(ConjunctionOf(terms), v) <==> forall t :: t in terms ==> EvalTerm(t, v)
  {
    var n := |terms| - 1;
    assert terms == terms[..n] + [terms[n]];
    if n > 0 {
      EvalConjunction(terms[..n], v);
      EvalAppend(ConjunctionOf(terms[..n]), terms[n], v);
    }
  }

  lemma {:induction false} EvalDisjunction(terms: seq<Term>, v: Valuation)
    requires terms != []
    ensures EvalExpr(DisjunctionOf(terms), v) <==> exists t :: t in terms && EvalTerm(t, v)
  {
    var n := |terms| - 1;
    assert terms == terms[..n] + [terms[n]];
    assert terms[n] in terms && forall t :: t in terms[..n] ==> t in terms;
    if n > 0 {
      EvalDisjunction(terms[..n], v);
      EvalAlternatives(DisjunctionOf(terms[..n]), Just(terms[n]), v);
    }
  }
}
