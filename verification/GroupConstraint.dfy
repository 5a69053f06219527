/** Printing of nested AND/OR constraint groups as search conditions. */
module GroupConstraint {
  import opened Sql
  import opened Wrappers

  datatype Connective = And | Or

  /** A constraint with the join conditions that belong to it. */
  datatype Constraint = Constraint(condition: Condition, joins: seq<Condition>)

  datatype Group = Group(connective: Connective, constraints: seq<Constraint>, nested: seq<Group>)

  function WordOf(c: Connective): Token {
    if c == And then AndWord else OrWord
  }

  // ---- What a group means

  predicate JoinsHold(constraints: seq<Constraint>, v: Valuation) {
    forall c, j :: c in constraints && j in c.joins ==> v(j)
  }

  /**
   An empty group holds; a lone constraint is just its condition; otherwise the connective ranges
   over the constraints and the nested groups, and the joins of the constraints hold as well.
   */
  ghost predicate Meaning(g: Group, v: Valuation) {
    if g.constraints == [] && g.nested == [] then true
    else if |g.constraints| == 1 && g.nested == [] then v(g.constraints[0].condition)
    else
      (if g.connective == And then
         (forall c :: c in g.constraints ==> v(c.condition)) && (forall n :: n in g.nested ==> Meaning(n, v))
       else
         (exists c :: c in g.constraints && v(c.condition)) || (exists n :: n in g.nested && Meaning(n, v)))
      && JoinsHold(g.constraints, v)
  }

  // ---- What is printed

  function Tests(constraints: seq<Constraint>): seq<seq<Token>> {
    seq(|constraints|, i requires 0 <= i < |constraints| => [Test(constraints[i].condition)])
  }

  function Items(g: Group): (items: seq<seq<Token>>)
    ensures |items| == |g.constraints| + |g.nested|
    decreases g, 0
  {
    Tests(g.constraints) + seq(|g.nested|, i requires 0 <= i < |g.nested| => Printed(g.nested[i]))
  }

  /** AND j for each join condition j. */
  function AndEach(joins: seq<Condition>): seq<Token> {
    if joins == [] then [] else AndEach(joins[..|joins| - 1]) + [AndWord, Test(joins[|joins| - 1])]
  }

  function JoinList(constraints: seq<Constraint>): seq<Condition> {
    if constraints == [] then []
    else JoinList(constraints[..|constraints| - 1]) + constraints[|constraints| - 1].joins
  }

  function Printed(g: Group): seq<Token>
    decreases g, 1
  {
    if g.constraints == [] && g.nested == [] then [Truth]
    else if |g.constraints| == 1 && g.nested == [] then [Test(g.constraints[0].condition)]
    else [Open] + Join(WordOf(g.connective), Items(g)) + [Close] + AndEach(JoinList(g.constraints))
  }

  class GString {
    var tokens: seq<Token>

    constructor ()
      ensures tokens == []
    {
      tokens := [];
    }

    method Append(t: Token)
      modifies this
      ensures tokens == old(tokens) + [t]
    {
      tokens := tokens + [t];
    }
  }

  lemma JoinExtend(w: Token, items: seq<seq<Token>>, i: nat)
    requires i < |items|
    ensures Join(w, items[..i + 1]) == Join(w, items[..i]) + (if i > 0 then [w] else []) + items[i]
  {
    assert items[..i + 1][..i] == items[..i];
  }

  method AddSql(group: Group, sql: GString)
    modifies sql
    ensures sql.tokens == old(sql.tokens) + Printed(group)
    decreases group, 1
  {
    hide Join, Items, AndEach, JoinList;
    if |group.constraints| == 0 && |group.nested| == 0 {
      sql.Append(Truth);
      return;
    }
    if |group.constraints| == 1 && |group.nested| == 0 {
      sql.Append(Test(group.constraints[0].condition));
      return;
    }
    sql.Append(Open);
    AddItems(group, sql);
    sql.Append(Close);
    AddJoins(group.constraints, sql);
  }

  method AddItems(group: Group, sql: GString)
    modifies sql
    ensures sql.tokens == old(sql.tokens) + Join(WordOf(group.connective), Items(group))
    decreases group, 0
  {
    hide Printed, Join, Tests;
    var i := 0;
    ghost var before, w, items := sql.tokens, WordOf(group.connective), Items(group);
    JoinNone(w, items);
    while i < |group.constraints|
      invariant i <= |group.constraints|
      invariant sql.tokens == before + Join(w, items[..i])
    {
      JoinExtend(w, items, i);
      ItemIs(group, i);
      if i > 0 {
        sql.Append(WordOf(group.connective));
      }
      sql.Append(Test(group.constraints[i].condition));
      i := i + 1;
    }
    var k := 0;
    while k < |group.nested|
      invariant k <= |group.nested| && i == |group.constraints| + k
      invariant sql.tokens == before + Join(w, items[..i])
    {
      JoinExtend(w, items, i);
      ItemIs(group, i);
      if i > 0 {
        sql.Append(WordOf(group.connective));
      }
      AddSql(group.nested[k], sql);
      i, k := i + 1, k + 1;
    }
    assert items[..i] == items;
  }

  lemma JoinNone(w: Token, items: seq<seq<Token>>)
    ensures Join(w, items[..0]) == []
  {
  }

  lemma ItemIs(g: Group, i: nat)
    requires i < |g.constraints| + |g.nested|
    ensures Items(g)[i] == if i < |g.constraints| then [Test(g.constraints[i].condition)]
                           else Printed(g.nested[i - |g.constraints|])
  {
    hide Printed;
  }

  method AppendEach(joins: seq<Condition>, sql: GString)
    modifies sql
    ensures sql.tokens == old(sql.tokens) + AndEach(joins)
  {
    ghost var before := sql.tokens;
    for k := 0 to |joins|
      invariant sql.tokens == before + AndEach(joins[..k])
    {
      assert joins[..k + 1][..k] == joins[..k];
      sql.Append(AndWord);
      sql.Append(Test(joins[k]));
    }
    assert joins[..|joins|] == joins;
  }

  lemma {:induction false} AndEachSum(a: seq<Condition>, b: seq<Condition>)
    ensures AndEach(a + b) == AndEach(a) + AndEach(b)
    decreases |b|
  {
    if b == [] {
      assert a + b == a;
    } else {
      var n := |b| - 1;
      assert (a + b)[..|a| + n] == a + b[..n];
      AndEachSum(a, b[..n]);
    }
  }

  lemma JoinListNext(constraints: seq<Constraint>, i: nat)
    requires i < |constraints|
    ensures JoinList(constraints[..i + 1]) == JoinList(constraints[..i]) + constraints[i].joins
  {
    assert constraints[..i + 1][..i] == constraints[..i];
  }

  lemma NoJoins()
    ensures AndEach(JoinList([])) == []
  {
  }

  method AddJoins(constraints: seq<Constraint>, sql: GString)
    modifies sql
    ensures sql.tokens == old(sql.tokens) + AndEach(JoinList(constraints))
  {
    hide AndEach, JoinList;
    ghost var before := sql.tokens;
    NoJoins();
    assert constraints[..0] == [];
    for i := 0 to |constraints|
      invariant sql.tokens == before + AndEach(JoinList(constraints[..i]))
    {
      AppendEach(constraints[i].joins, sql);
      JoinListNext(constraints, i);
      AndEachSum(JoinList(constraints[..i]), constraints[i].joins);
    }
    assert constraints[..|constraints|] == constraints;
  }

  // ---- The intended tree, and that printing parses to it

  function TestTerms(constraints: seq<Constraint>): seq<Term> {
    seq(|constraints|, i requires 0 <= i < |constraints| => Single(Atom(constraints[i].condition)))
  }

  function ItemTerms(g: Group): seq<Term>
    decreases g, 0
  {
    TestTerms(g.constraints) + seq(|g.nested|, i requires 0 <= i < |g.nested| => TermOf(g.nested[i]))
  }

  function WithJoins(t: Term, joins: seq<Condition>): Term {
    if joins == [] then t else Append(WithJoins(t, joins[..|joins| - 1]), Single(Atom(joins[|joins| - 1])))
  }

  function TermOf(g: Group): Term
    decreases g, 1
  {
    if g.constraints == [] && g.nested == [] then Single(Always)
    else if |g.constraints| == 1 && g.nested == [] then Single(Atom(g.constraints[0].condition))
    else
      var terms := ItemTerms(g);
      var inner := if g.connective == And then Just(ConjunctionOf(terms)) else DisjunctionOf(terms);
      WithJoins(Single(Paren(inner)), JoinList(g.constraints))
  }

  lemma {:induction false} ChainWithJoins(ts: seq<Token>, t: Term, joins: seq<Condition>)
    requires IsChain(ts, t)
    ensures IsChain(ts + AndEach(joins), WithJoins(t, joins))
  {
    if joins == [] {
      assert ts + AndEach(joins) == ts;
    } else {
      var n := |joins| - 1;
      ChainWithJoins(ts, t, joins[..n]);
      ChainOfTest(joins[n]);
      ChainAnd(ts + AndEach(joins[..n]), WithJoins(t, joins[..n]), [Test(joins[n])], Single(Atom(joins[n])));
      assert ts + AndEach(joins) == ts + AndEach(joins[..n]) + [AndWord] + [Test(joins[n])];
    }
  }

  /** A printed group contributes exactly the conjuncts of its tree, in any surrounding text. */
  lemma {:induction false} PrintedChain(g: Group)
    ensures IsChain(Printed(g), TermOf(g))
  {
    if g.constraints == [] && g.nested == [] {
      ChainOfTruth();
    } else if |g.constraints| == 1 && g.nested == [] {
      ChainOfTest(g.constraints[0].condition);
    } else {
      var items, terms := Items(g), ItemTerms(g);
      forall i | 0 <= i < |items|
        ensures IsChain(items[i], terms[i])
      {
        if i < |g.constraints| {
          ChainOfTest(g.constraints[i].condition);
        } else {
          PrintedChain(g.nested[i - |g.constraints|]);
        }
      }
      var joined := Join(WordOf(g.connective), items);
      if g.connective == And {
        JoinAnd(items, terms);
        ChainIsDisjunction(joined, ConjunctionOf(terms));
        ParenthesesChain(joined, Just(ConjunctionOf(terms)));
        ChainWithJoins([Open] + joined + [Close], Single(Paren(Just(ConjunctionOf(terms)))), JoinList(g.constraints));
      } else {
        JoinOr(items, terms);
        ParenthesesChain(joined, DisjunctionOf(terms));
        ChainWithJoins([Open] + joined + [Close], Single(Paren(DisjunctionOf(terms))), JoinList(g.constraints));
      }
    }
  }

  lemma {:induction false} EvalWithJoins(t: Term, joins: seq<Condition>, v: Valuation)
    ensures EvalTerm(WithJoins(t, joins), v) <==> EvalTerm(t, v) && forall j :: j in joins ==> v(j)
  {
    if joins != [] {
      var n := |joins| - 1;
      assert joins == joins[..n] + [joins[n]];
      EvalWithJoins(t, joins[..n], v);
      EvalAppend(WithJoins(t, joins[..n]), Single(Atom(joins[n])), v);
    }
  }

  lemma {:induction false} JoinListMembers(constraints: seq<Constraint>, v: Valuation)
    ensures (forall j :: j in JoinList(constraints) ==> v(j)) <==> JoinsHold(constraints, v)
  {
    if constraints != [] {
      var n := |constraints| - 1;
      assert constraints == constraints[..n] + [constraints[n]];
      JoinListMembers(constraints[..n], v);
    }
  }

  lemma {:induction false} TermMeaning(g: Group, v: Valuation)
    ensures EvalTerm(TermOf(g), v) <==> Meaning(g, v)
  {
    if (g.constraints != [] || g.nested != []) && (|g.constraints| != 1 || g.nested != []) {
      forall n | n in g.nested
        ensures EvalTerm(TermOf(n), v) <==> Meaning(n, v)
      {
        TermMeaning(n, v);
      }
      CompoundMeaning(g, v);
    }
  }

  lemma CompoundMeaning(g: Group, v: Valuation)
    requires (g.constraints != [] || g.nested != []) && (|g.constraints| != 1 || g.nested != [])
    requires forall n :: n in g.nested ==> (EvalTerm(TermOf(n), v) <==> Meaning(n, v))
    ensures EvalTerm(TermOf(g), v) <==> Meaning(g, v)
  {
    hide EvalTerm;
    var terms := ItemTerms(g);
    JoinListMembers(g.constraints, v);
    if g.connective == And {
      AllItems(g, v);
      EvalConjunction(terms, v);
      EvalParenthesized(Just(ConjunctionOf(terms)), v);
      EvalJust(ConjunctionOf(terms), v);
      EvalWithJoins(Single(Paren(Just(ConjunctionOf(terms)))), JoinList(g.constraints), v);
    } else {
      SomeItem(g, v);
      EvalDisjunction(terms, v);
      EvalParenthesized(DisjunctionOf(terms), v);
      EvalWithJoins(Single(Paren(DisjunctionOf(terms))), JoinList(g.constraints), v);
    }
  }

  lemma EvalParenthesized(e: Expr, v: Valuation)
    ensures EvalTerm(Single(Paren(e)), v) == EvalExpr(e, v)
  {
  }

  lemma EvalJust(t: Term, v: Valuation)
    ensures EvalExpr(Just(t), v) == EvalTerm(t, v)
  {
  }

  lemma ItemOf(g: Group, v: Valuation, t: Term)
    requires forall n :: n in g.nested ==> (EvalTerm(TermOf(n), v) <==> Meaning(n, v))
    requires t in ItemTerms(g)
    ensures (exists c :: c in g.constraints && v(c.condition) == EvalTerm(t, v)) ||
            (exists n :: n in g.nested && Meaning(n, v) == EvalTerm(t, v))
  {
    hide Meaning, TermOf;
    var i :| 0 <= i < |ItemTerms(g)| && ItemTerms(g)[i] == t;
    if i < |g.constraints| {
      assert v(g.constraints[i].condition) == EvalTerm(t, v);
    } else {
      assert g.nested[i - |g.constraints|] in g.nested;
    }
  }

  lemma ConstraintItem(g: Group, v: Valuation, c: Constraint)
    requires c in g.constraints
    ensures exists t :: t in ItemTerms(g) && EvalTerm(t, v) == v(c.condition)
  {
    hide TermOf;
    var i :| 0 <= i < |g.constraints| && g.constraints[i] == c;
    assert ItemTerms(g)[i] == Single(Atom(c.condition));
    assert EvalTerm(ItemTerms(g)[i], v) == v(c.condition);
  }

  lemma NestedItem(g: Group, n: Group)
    requires n in g.nested
    ensures TermOf(n) in ItemTerms(g)
  {
    hide TermOf;
    var i :| 0 <= i < |g.nested| && g.nested[i] == n;
    assert ItemTerms(g)[|g.constraints| + i] == TermOf(n);
  }

  lemma AllItems(g: Group, v: Valuation)
    requires forall n :: n in g.nested ==> (EvalTerm(TermOf(n), v) <==> Meaning(n, v))
    ensures (forall t :: t in ItemTerms(g) ==> EvalTerm(t, v)) <==>
            (forall c :: c in g.constraints ==> v(c.condition)) && (forall n :: n in g.nested ==> Meaning(n, v))
  {
    hide EvalTerm, Meaning, TermOf, ItemTerms;
    forall t | t in ItemTerms(g)
      ensures (exists c :: c in g.constraints && v(c.condition) == EvalTerm(t, v)) ||
              (exists n :: n in g.nested && Meaning(n, v) == EvalTerm(t, v))
    {
      ItemOf(g, v, t);
    }
    forall c | c in g.constraints
      ensures exists t :: t in ItemTerms(g) && EvalTerm(t, v) == v(c.condition)
    {
      ConstraintItem(g, v, c);
    }
    forall n | n in g.nested
      ensures TermOf(n) in ItemTerms(g)
    {
      NestedItem(g, n);
    }
  }

  lemma SomeItem(g: Group, v: Valuation)
    requires forall n :: n in g.nested ==> (EvalTerm(TermOf(n), v) <==> Meaning(n, v))
    ensures (exists t :: t in ItemTerms(g) && EvalTerm(t, v)) <==>
            (exists c :: c in g.constraints && v(c.condition)) || (exists n :: n in g.nested && Meaning(n, v))
  {
    hide EvalTerm, Meaning, TermOf, ItemTerms;
    if t :| t in ItemTerms(g) && EvalTerm(t, v) {
      ItemOf(g, v, t);
    }
    if c :| c in g.constraints && v(c.condition) {
      ConstraintItem(g, v, c);
    }
    if n :| n in g.nested && Meaning(n, v) {
      NestedItem(g, n);
    }
  }

  /** The printed text is one well-formed search condition with the group's meaning. */
  lemma PrintedMeans(g: Group)
    ensures ParseExpr(Printed(g)) == Some((Just(TermOf(g)), []))
    ensures forall v :: EvalExpr(Just(TermOf(g)), v) <==> Meaning(g, v)
  {
    PrintedChain(g);
    ChainIsDisjunction(Printed(g), TermOf(g));
    assert Printed(g) + [] == Printed(g);
    assert NoAnd([]);
    forall v
      ensures EvalExpr(Just(TermOf(g)), v) <==> Meaning(g, v)
    {
      TermMeaning(g, v);
    }
  }

  // ---- Joins that printing leaves out

  predicate IsLone(g: Group) {
    |g.constraints| == 1 && g.nested == []
  }

  /** What a group would mean if the joins of its direct constraints were always part of it. */
  ghost predicate WithAllJoins(g: Group, v: Valuation) {
    if g.constraints == [] && g.nested == [] then true
    else
      (if g.connective == And then
         (forall c :: c in g.constraints ==> v(c.condition)) && (forall n :: n in g.nested ==> WithAllJoins(n, v))
       else
         (exists c :: c in g.constraints && v(c.condition)) || (exists n :: n in g.nested && WithAllJoins(n, v)))
      && JoinsHold(g.constraints, v)
  }

  /** No group of the tree consists of one constraint that has a join besides its own condition. */
  predicate NothingLeftOut(g: Group) {
    (IsLone(g) ==> forall j :: j in g.constraints[0].joins ==> j == g.constraints[0].condition) &&
    forall n :: n in g.nested ==> NothingLeftOut(n)
  }

  /** The group and every group inside it mean the same with all joins. */
  ghost predicate JoinsNeverMatter(g: Group) {
    (forall v :: Meaning(g, v) <==> WithAllJoins(g, v)) && forall n :: n in g.nested ==> JoinsNeverMatter(n)
  }

  lemma LoneGroup(g: Group, v: Valuation)
    requires IsLone(g)
    ensures Meaning(g, v) <==> v(g.constraints[0].condition)
    ensures WithAllJoins(g, v) <==>
            v(g.constraints[0].condition) && forall j :: j in g.constraints[0].joins ==> v(j)
  {
    var c := g.constraints[0];
    assert g.constraints == [c];
    assert c in g.constraints;
  }

  lemma CompoundGroup(g: Group, v: Valuation)
    requires !IsLone(g) && forall n :: n in g.nested ==> (Meaning(n, v) <==> WithAllJoins(n, v))
    ensures Meaning(g, v) <==> WithAllJoins(g, v)
  {
  }

  /**
   The printed tree and all its parts have the uniform meaning exactly if no lone constraint has a join
   besides its own condition.
   */
  lemma {:induction false} JoinsLeftOutExactly(g: Group)
    ensures JoinsNeverMatter(g) <==> NothingLeftOut(g)
    decreases g
  {
    hide Meaning, WithAllJoins;
    forall n | n in g.nested
      ensures JoinsNeverMatter(n) <==> NothingLeftOut(n)
    {
      JoinsLeftOutExactly(n);
    }
    if IsLone(g) {
      var c := g.constraints[0].condition;
      forall v
        ensures Meaning(g, v) <==> v(c)
        ensures WithAllJoins(g, v) <==> v(c) && forall j :: j in g.constraints[0].joins ==> v(j)
      {
        LoneGroup(g, v);
      }
      var only: Valuation := d => d == c;
      assert Meaning(g, only);
      assert JoinsNeverMatter(g) ==> WithAllJoins(g, only);
    } else if forall n :: n in g.nested ==> JoinsNeverMatter(n) {
      forall v
        ensures Meaning(g, v) <==> WithAllJoins(g, v)
      {
        CompoundGroup(g, v);
      }
    }
  }
}
