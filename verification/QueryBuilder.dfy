/** The query builder: its lists of conditions and tables, and the SELECT statement it writes. */
module QueryBuilder {
  import opened Sequences
  import opened Sql
  import opened Wrappers
  import opened GroupConstraint

  /** An ordering with the join conditions its property needed. */
  datatype Order = Order(joins: seq<Condition>, sql: string)

  const MAX_UINT := 0xffff_ffff
  const SELECT_COUNT := 3

  // ---- The WHERE clause as one list of conjuncts

  function ConstraintItem(c: Constraint): seq<Token> {
    [Test(c.condition)] + AndEach(c.joins)
  }

  /** What stands between WHERE and the trailing join conditions. */
  function BaseItems(constraints: seq<Constraint>, groups: seq<Group>): (items: seq<seq<Token>>)
    ensures |items| == if constraints == [] && groups == [] then 1 else |constraints| + |groups|
  {
    if constraints == [] && groups == [] then [[Truth]]
    else
      seq(|constraints|, i requires 0 <= i < |constraints| => ConstraintItem(constraints[i])) +
      seq(|groups|, i requires 0 <= i < |groups| => Printed(groups[i]))
  }

  function BaseTerms(constraints: seq<Constraint>, groups: seq<Group>): seq<Term> {
    if constraints == [] && groups == [] then [Single(Always)]
    else
      seq(|constraints|, i requires 0 <= i < |constraints| =>
        WithJoins(Single(Atom(constraints[i].condition)), constraints[i].joins)) +
      seq(|groups|, i requires 0 <= i < |groups| => TermOf(groups[i]))
  }

  function OrderJoins(orders: seq<Order>): seq<Condition> {
    if orders == [] then [] else OrderJoins(orders[..|orders| - 1]) + orders[|orders| - 1].joins
  }

  function WhereTokens(constraints: seq<Constraint>, groups: seq<Group>, trailing: seq<Condition>): seq<Token> {
    Join(AndWord, BaseItems(constraints, groups)) + AndEach(trailing)
  }

  function WhereTerm(constraints: seq<Constraint>, groups: seq<Group>, trailing: seq<Condition>): Term {
    WithJoins(ConjunctionOf(BaseTerms(constraints, groups)), trailing)
  }

  /** Every constraint with its joins, every group, and every trailing condition. */
  ghost predicate WhereMeaning(constraints: seq<Constraint>, groups: seq<Group>, trailing: seq<Condition>,
                               v: Valuation)
  {
    (forall c :: c in constraints ==> v(c.condition)) && JoinsHold(constraints, v) &&
    (forall g :: g in groups ==> Meaning(g, v)) &&
    (forall j :: j in trailing ==> v(j))
  }

  lemma ConstraintItemChain(c: Constraint)
    ensures IsChain(ConstraintItem(c), WithJoins(Single(Atom(c.condition)), c.joins))
  {
    ChainOfTest(c.condition);
    ChainWithJoins([Test(c.condition)], Single(Atom(c.condition)), c.joins);
  }

  lemma WhereChain(constraints: seq<Constraint>, groups: seq<Group>, trailing: seq<Condition>)
    ensures IsChain(WhereTokens(constraints, groups, trailing), WhereTerm(constraints, groups, trailing))
  {
    hide IsChain;
    var items, terms := BaseItems(constraints, groups), BaseTerms(constraints, groups);
    forall i | 0 <= i < |items|
      ensures IsChain(items[i], terms[i])
    {
      if constraints == [] && groups == [] {
        ChainOfTruth();
      } else if i < |constraints| {
        ConstraintItemChain(constraints[i]);
      } else {
        PrintedChain(groups[i - |constraints|]);
      }
    }
    JoinAnd(items, terms);
    ChainWithJoins(Join(AndWord, items), ConjunctionOf(terms), trailing);
  }

  lemma BaseTermMeaning(constraints: seq<Constraint>, groups: seq<Group>, v: Valuation)
    ensures (forall t :: t in BaseTerms(constraints, groups) ==> EvalTerm(t, v)) <==>
            (forall c :: c in constraints ==> v(c.condition)) && JoinsHold(constraints, v) &&
            (forall g :: g in groups ==> Meaning(g, v))
  {
    hide EvalTerm, Meaning, TermOf, WithJoins;
    var terms := BaseTerms(constraints, groups);
    if constraints == [] && groups == [] {
      assert EvalTerm(Single(Always), v) by { EvalAlways(v); }
      return;
    }
    forall i | 0 <= i < |terms|
      ensures EvalTerm(terms[i], v) <==>
              if i < |constraints| then v(constraints[i].condition) && forall j :: j in constraints[i].joins ==> v(j)
              else Meaning(groups[i - |constraints|], v)
    {
      if i < |constraints| {
        EvalWithJoins(Single(Atom(constraints[i].condition)), constraints[i].joins, v);
        EvalAtom(constraints[i].condition, v);
      } else {
        TermMeaning(groups[i - |constraints|], v);
      }
    }
    if forall t :: t in terms ==> EvalTerm(t, v) {
      forall c | c in constraints
        ensures v(c.condition) && forall j :: j in c.joins ==> v(j)
      {
        var i :| 0 <= i < |constraints| && constraints[i] == c;
        assert terms[i] in terms;
      }
      forall g | g in groups
        ensures Meaning(g, v)
      {
        var i :| 0 <= i < |groups| && groups[i] == g;
        assert terms[|constraints| + i] in terms;
      }
    } else {
      var t :| t in terms && !EvalTerm(t, v);
      var i :| 0 <= i < |terms| && terms[i] == t;
      if i < |constraints| {
        assert constraints[i] in constraints;
      } else {
        assert groups[i - |constraints|] in groups;
      }
    }
  }

  lemma EvalAlways(v: Valuation)
    ensures EvalTerm(Single(Always), v)
  {
  }

  lemma EvalAtom(c: Condition, v: Valuation)
    ensures EvalTerm(Single(Atom(c)), v) == v(c)
  {
  }

  lemma WhereTermMeaning(constraints: seq<Constraint>, groups: seq<Group>, trailing: seq<Condition>, v: Valuation)
    ensures EvalTerm(WhereTerm(constraints, groups, trailing), v) <==> WhereMeaning(constraints, groups, trailing, v)
  {
    var terms := BaseTerms(constraints, groups);
    BaseTermMeaning(constraints, groups, v);
    EvalConjunction(terms, v);
    EvalWithJoins(ConjunctionOf(terms), trailing, v);
  }

  /** Something that may follow the search condition: nothing, or a token that is not AND or OR. */
  predicate EndsCondition(rest: seq<Token>) {
    rest == [] || rest[0].Word?
  }

  /** The clause parses as one condition, which ends where it should and means the conjunction. */
  lemma WhereClauseMeans(constraints: seq<Constraint>, groups: seq<Group>, trailing: seq<Condition>, rest: seq<Token>)
    requires EndsCondition(rest)
    ensures ParseExpr(WhereTokens(constraints, groups, trailing) + rest) ==
            Some((Just(WhereTerm(constraints, groups, trailing)), rest))
    ensures forall v :: EvalExpr(Just(WhereTerm(constraints, groups, trailing)), v) <==>
                        WhereMeaning(constraints, groups, trailing, v)
  {
    WhereChain(constraints, groups, trailing);
    ChainIsDisjunction(WhereTokens(constraints, groups, trailing), WhereTerm(constraints, groups, trailing));
    assert NoAnd(rest);
    forall v
      ensures EvalExpr(Just(WhereTerm(constraints, groups, trailing)), v) <==>
              WhereMeaning(constraints, groups, trailing, v)
    {
      WhereTermMeaning(constraints, groups, trailing, v);
    }
  }

  /** Writing the groups in the other order gives another text with the same meaning. */
  lemma ReversedGroupsMeanTheSame(constraints: seq<Constraint>, groups: seq<Group>, trailing: seq<Condition>)
    ensures forall v :: WhereMeaning(constraints, Reversed(groups), trailing, v) <==>
                        WhereMeaning(constraints, groups, trailing, v)
    ensures forall v :: EvalTerm(WhereTerm(constraints, Reversed(groups), trailing), v) <==>
                        EvalTerm(WhereTerm(constraints, groups, trailing), v)
  {
    forall g
      ensures g in Reversed(groups) <==> g in groups
    {
      if g in groups {
        var i :| 0 <= i < |groups| && groups[i] == g;
        assert Reversed(groups)[|groups| - 1 - i] == g;
      }
    }
    forall v
      ensures EvalTerm(WhereTerm(constraints, Reversed(groups), trailing), v) <==>
              EvalTerm(WhereTerm(constraints, groups, trailing), v)
    {
      WhereTermMeaning(constraints, Reversed(groups), trailing, v);
      WhereTermMeaning(constraints, groups, trailing, v);
    }
  }

  // ---- The whole statement

  function Words(texts: seq<string>): seq<seq<Token>> {
    seq(|texts|, i requires 0 <= i < |texts| => [Word(texts[i])])
  }

  function Head(distinct: bool, select: string, tables: seq<string>): seq<Token> {
    [Word("SELECT")] + (if distinct then [Word("DISTINCT")] else []) + [Word(select), Word("FROM")] +
    Join(Word(","), Words(tables)) + [Word("WHERE")]
  }

  function OrderTexts(orders: seq<Order>): seq<string> {
    seq(|orders|, i requires 0 <= i < |orders| => orders[i].sql)
  }

  function Ending(mode: nat, orders: seq<Order>, limit: nat, offset: nat): seq<Token> {
    (if orders == [] then [] else [Word("ORDER BY")] + Join(Word(","), Words(OrderTexts(orders)))) +
    (if mode < SELECT_COUNT && limit != MAX_UINT then [Word("LIMIT"), Number(limit)] else []) +
    (if offset != 0 then [Word("OFFSET"), Number(offset)] else [])
  }

  /**
   The search condition of a whole statement: from behind the head it parses up to the ending, and it
   means the conjunction of everything the builder holds, whichever way round the groups are.
   */
  lemma StatementMeans(head: seq<Token>, constraints: seq<Constraint>, groups: seq<Group>, trailing: seq<Condition>,
                       mode: nat, orders: seq<Order>, limit: nat, offset: nat)
    ensures var ending := Ending(mode, orders, limit, offset);
            var sql := head + WhereTokens(constraints, Reversed(groups), trailing) + ending;
            var e := Just(WhereTerm(constraints, Reversed(groups), trailing));
            ParseExpr(sql[|head|..]) == Some((e, ending)) &&
            forall v :: EvalExpr(e, v) <==> WhereMeaning(constraints, groups, trailing, v)
  {
    hide WhereTokens, WhereTerm, ParseExpr, EvalExpr, Join, WhereMeaning, Reversed;
    var ending := Ending(mode, orders, limit, offset);
    var clause := WhereTokens(constraints, Reversed(groups), trailing);
    assert (head + clause + ending)[|head|..] == clause + ending;
    WhereClauseMeans(constraints, Reversed(groups), trailing, ending);
    ReversedGroupsMeanTheSame(constraints, groups, trailing);
  }

  /** The keyword stands in the tokens with the number behind it. */
  ghost predicate Says(tokens: seq<Token>, keyword: string, n: nat) {
    exists i :: 0 <= i < |tokens| - 1 && tokens[i] == Word(keyword) && tokens[i + 1] == Number(n)
  }

  predicate NoNumbers(tokens: seq<Token>) {
    forall i :: 0 <= i < |tokens| ==> !tokens[i].Number?
  }

  lemma {:induction false} JoinedWords(texts: seq<string>)
    ensures NoNumbers(Join(Word(","), Words(texts)))
  {
    if texts != [] {
      var n := |texts| - 1;
      JoinedWords(texts[..n]);
      assert Words(texts)[..n] == Words(texts[..n]);
    }
  }

  lemma SaysInPair(before: seq<Token>, pair: seq<Token>, keyword: string, n: nat)
    requires |pair| == 2 && pair[0].Word? && pair[1].Number?
    ensures Says(before + pair, keyword, n) <==> Says(before, keyword, n) || pair == [Word(keyword), Number(n)]
  {
    var all := before + pair;
    if Says(before, keyword, n) {
      var i :| 0 <= i < |before| - 1 && before[i] == Word(keyword) && before[i + 1] == Number(n);
      assert all[i] == Word(keyword) && all[i + 1] == Number(n);
    }
    if pair == [Word(keyword), Number(n)] {
      assert all[|before|] == Word(keyword) && all[|before| + 1] == Number(n);
    }
    if Says(all, keyword, n) {
      var i :| 0 <= i < |all| - 1 && all[i] == Word(keyword) && all[i + 1] == Number(n);
      if i + 1 < |before| {
        assert before[i] == Word(keyword) && before[i + 1] == Number(n);
      }
    }
  }

  /** The statement is limited exactly if a limit is set and it is no count, and has an offset exactly if one is set. */
  lemma EndingSays(mode: nat, orders: seq<Order>, limit: nat, offset: nat, n: nat)
    ensures Says(Ending(mode, orders, limit, offset), "LIMIT", n) <==>
            mode < SELECT_COUNT && limit != MAX_UINT && n == limit
    ensures Says(Ending(mode, orders, limit, offset), "OFFSET", n) <==> offset != 0 && n == offset
  {
    hide Join, Words, Says;
    var order := if orders == [] then [] else [Word("ORDER BY")] + Join(Word(","), Words(OrderTexts(orders)));
    assert NoNumbers(order) by { JoinedWords(OrderTexts(orders)); }
    NothingSaid(order, "LIMIT", n);
    NothingSaid(order, "OFFSET", n);
    var limited := order;
    if mode < SELECT_COUNT && limit != MAX_UINT {
      limited := order + [Word("LIMIT"), Number(limit)];
      SaysInPair(order, [Word("LIMIT"), Number(limit)], "LIMIT", n);
      SaysInPair(order, [Word("LIMIT"), Number(limit)], "OFFSET", n);
    }
    if offset != 0 {
      SaysInPair(limited, [Word("OFFSET"), Number(offset)], "LIMIT", n);
      SaysInPair(limited, [Word("OFFSET"), Number(offset)], "OFFSET", n);
      assert Ending(mode, orders, limit, offset) == limited + [Word("OFFSET"), Number(offset)];
    } else {
      assert Ending(mode, orders, limit, offset) == limited;
    }
  }

  lemma NothingSaid(tokens: seq<Token>, keyword: string, n: nat)
    requires NoNumbers(tokens)
    ensures !Says(tokens, keyword, n)
  {
  }

  /** The texts in their order, a comma between each two. */
  lemma {:induction false} JoinedAt(texts: seq<string>, i: nat)
    requires i < |texts|
    ensures var list := Join(Word(","), Words(texts));
            |list| == 2 * |texts| - 1 && list[2 * i] == Word(texts[i]) &&
            (i + 1 < |texts| ==> list[2 * i + 1] == Word(","))
  {
    var n := |texts| - 1;
    assert Words(texts)[..n] == Words(texts[..n]);
    if n > 0 {
      JoinedAt(texts[..n], if i < n then i else 0);
    }
  }

  /** Behind ORDER BY stand the orderings, the first one first. */
  lemma EndingOrders(mode: nat, orders: seq<Order>, limit: nat, offset: nat, i: nat)
    requires i < |orders|
    ensures var ending := Ending(mode, orders, limit, offset);
            2 * |orders| <= |ending| && ending[0] == Word("ORDER BY") && ending[1 + 2 * i] == Word(orders[i].sql)
  {
    hide Join;
    JoinedAt(OrderTexts(orders), i);
    hide Words;
  }

  lemma {:induction false} OrderJoinsHold(orders: seq<Order>, v: Valuation)
    ensures (forall j :: j in OrderJoins(orders) ==> v(j)) <==> forall o, j :: o in orders && j in o.joins ==> v(j)
  {
    if orders != [] {
      var n := |orders| - 1;
      assert orders == orders[..n] + [orders[n]];
      OrderJoinsHold(orders[..n], v);
    }
  }

  ghost predicate Lists(s: seq<string>, elements: set<string>) {
    (forall i, j :: 0 <= i < j < |s| ==> s[i] != s[j]) && (forall x :: x in s <==> x in elements)
  }

  class Builder {
    const table: string
    const deletedField: Option<string>
    var constraints: seq<Constraint>
    var groups: seq<Group>
    var orders: seq<Order>
    var joins: seq<Condition>
    var tables: set<string>
    var selectDistinct: bool
    var includeDeleted: bool
    var blobJoinExists: bool
    var paramJoinExists: bool
    var limit: nat
    var offset: nat
    var error: int

    /** A new builder starts with all tables of its class in the FROM set. */
    constructor (table: string, tables: set<string>, deletedField: Option<string>)
      ensures this.table == table && this.deletedField == deletedField
      ensures constraints == [] && groups == [] && orders == [] && joins == [] && this.tables == tables
      ensures !selectDistinct && !includeDeleted && !blobJoinExists && !paramJoinExists && error == 0
    {
      this.table, this.deletedField := table, deletedField;
      constraints, groups, orders, joins := [], [], [], [];
      this.tables := tables;
      selectDistinct, includeDeleted, blobJoinExists, paramJoinExists := false, false, false, false;
      limit, offset, error := MAX_UINT, 0, 0;
    }

    function NotDeleted(): seq<Condition>
      reads this
    {
      if !includeDeleted && deletedField.Some? then [Comparison(table + "." + deletedField.value + " = FALSE")] else []
    }

    /** The conditions after the groups: order joins, builder joins, the not-deleted filter. */
    function Trailing(): seq<Condition>
      reads this
    {
      OrderJoins(orders) + joins + NotDeleted()
    }

    method AddConstraints(sql: GString)
      modifies sql
      ensures constraints != [] ==> sql.tokens == old(sql.tokens) + Join(AndWord, BaseItems(constraints, []))
      ensures constraints == [] && groups == [] ==> sql.tokens == old(sql.tokens) + [Truth]
      ensures constraints == [] && groups != [] ==> sql.tokens == old(sql.tokens)
    {
      hide Join, AndEach;
      ghost var before, items := sql.tokens, BaseItems(constraints, []);
      JoinNone(AndWord, items);
      var j := 0;
      while j < |constraints|
        invariant j <= |constraints|
        invariant sql.tokens == before + Join(AndWord, items[..j])
      {
        JoinExtend(AndWord, items, j);
        if j > 0 {
          sql.Append(AndWord);
        }
        sql.Append(Test(constraints[j].condition));
        AppendEach(constraints[j].joins, sql);
        j := j + 1;
      }
      assert constraints != [] ==> items[..j] == items;
      if constraints == [] && groups == [] {
        sql.Append(Truth);
      }
    }

    method AddGroups(sql: GString)
      modifies sql
      ensures groups == [] ==> sql.tokens == old(sql.tokens)
      ensures groups != [] ==>
              sql.tokens == old(sql.tokens) + (if constraints != [] then [AndWord] else []) +
                            Join(AndWord, BaseItems([], groups))
    {
      hide Join, Printed, BaseItems;
      if groups != [] {
        if constraints != [] {
          sql.Append(AndWord);
        }
        ghost var before, items := sql.tokens, BaseItems([], groups);
        JoinNone(AndWord, items);
        var i := 0;
        while i < |groups|
          invariant i <= |groups|
          invariant sql.tokens == before + Join(AndWord, items[..i])
        {
          JoinExtend(AndWord, items, i);
          GroupItem(groups, i);
          if i > 0 {
            sql.Append(AndWord);
          }
          AddSql(groups[i], sql);
          i := i + 1;
        }
        assert items[..i] == items;
      }
    }

    method AddTrailing(sql: GString)
      modifies sql
      ensures sql.tokens == old(sql.tokens) + AndEach(Trailing())
    {
      hide AndEach;
      AddOrderJoins(sql);
      AppendEach(joins, sql);
      AndEachSum(OrderJoins(orders), joins);
      AndEachSum(OrderJoins(orders) + joins, NotDeleted());
      AndEachUpToOne(NotDeleted());
      if !includeDeleted {
        if deletedField.Some? {
          sql.Append(AndWord);
          sql.Append(Test(Comparison(table + "." + deletedField.value + " = FALSE")));
        }
      }
    }

    method AddOrderJoins(sql: GString)
      modifies sql
      ensures sql.tokens == old(sql.tokens) + AndEach(OrderJoins(orders))
    {
      hide AndEach;
      ghost var before := sql.tokens;
      AndEachUpToOne(OrderJoins(orders[..0]));
      for i := 0 to |orders|
        invariant sql.tokens == before + AndEach(OrderJoins(orders[..i]))
      {
        assert orders[..i + 1][..i] == orders[..i];
        AppendEach(orders[i].joins, sql);
        AndEachSum(OrderJoins(orders[..i]), orders[i].joins);
      }
      assert orders[..|orders|] == orders;
    }

    method AddTables(sql: GString) returns (ghost listing: seq<string>)
      modifies sql
      ensures Lists(listing, tables)
      ensures sql.tokens == old(sql.tokens) + Join(Word(","), Words(listing))
    {
      hide Join;
      ghost var before := sql.tokens;
      listing := [];
      JoinNone(Word(","), Words([]));
      assert Words([])[..0] == Words([]);
      var rest, l := tables, 0;
      while rest != {}
        invariant rest <= tables && l == |listing| && Lists(listing, tables - rest)
        invariant sql.tokens == before + Join(Word(","), Words(listing))
        decreases rest
      {
        var t :| t in rest;
        ghost var longer := listing + [t];
        assert Words(longer)[..l] == Words(listing) && Words(longer)[..l + 1] == Words(longer);
        JoinExtend(Word(","), Words(longer), l);
        if l >= 1 {
          sql.Append(Word(","));
        }
        sql.Append(Word(t));
        rest := rest - {t};
        listing, l := longer, l + 1;
      }
    }

    method AddEnding(mode: nat, sql: GString)
      modifies sql
      ensures sql.tokens == old(sql.tokens) + Ending(mode, orders, limit, offset)
    {
      hide Join;
      if orders != [] {
        sql.Append(Word("ORDER BY"));
        ghost var before, items := sql.tokens, Words(OrderTexts(orders));
        JoinNone(Word(","), items);
        var i := 0;
        while i < |orders|
          invariant i <= |orders|
          invariant sql.tokens == before + Join(Word(","), items[..i])
        {
          JoinExtend(Word(","), items, i);
          if i > 0 {
            sql.Append(Word(","));
          }
          sql.Append(Word(orders[i].sql));
          i := i + 1;
        }
        assert items[..i] == items;
      }
      if mode < SELECT_COUNT && limit != MAX_UINT {
        sql.Append(Word("LIMIT"));
        sql.Append(Number(limit));
      }
      if offset != 0 {
        sql.Append(Word("OFFSET"));
        sql.Append(Number(offset));
      }
    }

    method AddWhere(sql: GString)
      modifies this`groups, sql
      ensures groups == Reversed(old(groups))
      ensures sql.tokens == old(sql.tokens) + WhereTokens(constraints, groups, Trailing())
    {
      hide Join, AndEach, BaseItems, WhereTokens;
      AddConstraints(sql);
      groups := Reversed(groups);
      AddGroups(sql);
      AddTrailing(sql);
      WhereAssembled(constraints, groups, Trailing());
    }

    method AddHead(select: string, sql: GString) returns (ghost listing: seq<string>)
      modifies sql
      ensures Lists(listing, tables)
      ensures sql.tokens == old(sql.tokens) + Head(selectDistinct, select, listing)
    {
      hide Join;
      sql.Append(Word("SELECT"));
      if selectDistinct {
        sql.Append(Word("DISTINCT"));
      }
      sql.Append(Word(select));
      sql.Append(Word("FROM"));
      listing := AddTables(sql);
      sql.Append(Word("WHERE"));
    }

    /**
     The statement text; the list of groups is left reversed. Behind the head stands a condition e that means
     everything the builder holds: the constraints and groups, the joins of the orderings and of the builder, and,
     unless deleted objects are included, that the object is not deleted.
     */
    method GetSql(mode: nat, select: string)
      returns (r: Option<seq<Token>>, ghost listing: seq<string>, ghost e: Expr)
      modifies this`groups
      ensures r.None? <==> error != 0
      ensures r.None? ==> groups == old(groups)
      ensures r.Some? ==> groups == Reversed(old(groups)) && Lists(listing, tables)
      ensures r.Some? ==> r.value == Head(selectDistinct, select, listing) +
                                     WhereTokens(constraints, groups, Trailing()) +
                                     Ending(mode, orders, limit, offset)
      ensures r.Some? ==> [Word("SELECT")] + (if selectDistinct then [Word("DISTINCT"), Word(select), Word("FROM")]
                                              else [Word(select), Word("FROM")]) <= r.value
      ensures r.Some? ==> ParseExpr(r.value[|Head(selectDistinct, select, listing)|..]) ==
                          Some((e, Ending(mode, orders, limit, offset)))
      ensures r.Some? ==> forall v :: EvalExpr(e, v) <==>
                WhereMeaning(constraints, old(groups), [], v) &&
                (forall o, j :: o in orders && j in o.joins ==> v(j)) && (forall j :: j in joins ==> v(j)) &&
                (!includeDeleted && deletedField.Some? ==>
                  v(Comparison(table + "." + deletedField.value + " = FALSE")))
    {
      hide Head, WhereTokens, Ending, WhereTerm, ParseExpr, EvalExpr, WhereMeaning;
      listing, e := [], Just(WhereTerm(constraints, Reversed(groups), Trailing()));
      if error != 0 {
        return None, listing, e;
      }
      ghost var given := groups;
      var sql := new GString();
      listing := AddHead(select, sql);
      AddWhere(sql);
      AddEnding(mode, sql);
      r := Some(sql.tokens);
      HeadStarts(selectDistinct, select, listing);
      ghost var head := Head(selectDistinct, select, listing);
      StatementMeans(head, constraints, given, Trailing(), mode, orders, limit, offset);
      forall v
        ensures WhereMeaning(constraints, given, Trailing(), v) <==>
                WhereMeaning(constraints, given, [], v) &&
                (forall o, j :: o in orders && j in o.joins ==> v(j)) && (forall j :: j in joins ==> v(j)) &&
                (!includeDeleted && deletedField.Some? ==>
                  v(Comparison(table + "." + deletedField.value + " = FALSE")))
      {
        TrailingMeans(constraints, given, v);
      }
    }

    lemma TrailingMeans(constraints: seq<Constraint>, groups: seq<Group>, v: Valuation)
      ensures WhereMeaning(constraints, groups, Trailing(), v) <==>
              WhereMeaning(constraints, groups, [], v) &&
              (forall o, j :: o in orders && j in o.joins ==> v(j)) && (forall j :: j in joins ==> v(j)) &&
              (!includeDeleted && deletedField.Some? ==>
                v(Comparison(table + "." + deletedField.value + " = FALSE")))
    {
      hide Meaning, JoinsHold, OrderJoins;
      OrderJoinsHold(orders, v);
    }
  }

  lemma HeadStarts(distinct: bool, select: string, tables: seq<string>)
    ensures [Word("SELECT")] + (if distinct then [Word("DISTINCT"), Word(select), Word("FROM")]
                                else [Word(select), Word("FROM")]) <= Head(distinct, select, tables)
  {
    hide Join;
  }

  /** The three parts of the clause: constraints, groups, and the joins and filter at its end. */
  lemma WhereAssembled(constraints: seq<Constraint>, groups: seq<Group>, trailing: seq<Condition>)
    ensures var all := WhereTokens(constraints, groups, trailing);
            (constraints == [] && groups == [] ==> all == [Truth] + AndEach(trailing)) &&
            (constraints != [] && groups == [] ==>
               all == Join(AndWord, BaseItems(constraints, [])) + AndEach(trailing)) &&
            (constraints == [] && groups != [] ==> all == Join(AndWord, BaseItems([], groups)) + AndEach(trailing)) &&
            (constraints != [] && groups != [] ==>
               all == Join(AndWord, BaseItems(constraints, [])) + ([AndWord] + Join(AndWord, BaseItems([], groups))) +
                      AndEach(trailing))
  {
    hide Join, AndEach, BaseItems;
    JoinBase(constraints, groups);
  }

  lemma GroupItem(groups: seq<Group>, i: nat)
    requires i < |groups|
    ensures BaseItems([], groups)[i] == Printed(groups[i])
  {
    hide Printed;
  }

  lemma AndEachUpToOne(a: seq<Condition>)
    ensures a == [] ==> AndEach(a) == []
    ensures |a| == 1 ==> AndEach(a) == [AndWord, Test(a[0])]
  {
  }

  lemma {:induction false} JoinSum(w: Token, a: seq<seq<Token>>, b: seq<seq<Token>>)
    requires a != [] && b != []
    ensures Join(w, a + b) == Join(w, a) + [w] + Join(w, b)
    decreases |b|
  {
    var n := |b| - 1;
    assert (a + b)[..|a| + n] == a + b[..n];
    if n == 0 {
      assert a + b[..0] == a;
    } else {
      JoinSum(w, a, b[..n]);
    }
  }

  lemma JoinBase(constraints: seq<Constraint>, groups: seq<Group>)
    ensures constraints == [] && groups == [] ==> Join(AndWord, BaseItems([], [])) == [Truth]
    ensures constraints != [] && groups != [] ==>
            Join(AndWord, BaseItems(constraints, groups)) ==
            Join(AndWord, BaseItems(constraints, [])) + [AndWord] + Join(AndWord, BaseItems([], groups))
  {
    if constraints != [] && groups != [] {
      assert BaseItems(constraints, groups) == BaseItems(constraints, []) + BaseItems([], groups);
      JoinSum(AndWord, BaseItems(constraints, []), BaseItems([], groups));
    }
  }
}
