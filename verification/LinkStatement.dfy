/**
 Which rows a statement with a link path among its constraints selects, compared with what the query
 means: its conditions under AND and OR, where the path's comparison holds if the links lead to a match.
 */
module LinkStatement {
  import opened Sequences
  import opened Sql
  import opened Wrappers
  import opened GroupConstraint
  import opened QueryBuilder
  import opened LinkPath

  type Test = Option<string> -> bool

  // ---- The two readings of the conditions

  /** What the query means: joins are no conditions of its own, and the path's comparison p has the value b. */
  function PathValuation(p: Condition, joins: seq<Condition>, other: Valuation, b: bool): Valuation {
    c => if c == p then b else c in joins || other(c)
  }

  /** What the database sees when it has chosen one row for each table. */
  function ChoiceValuation(p: Condition, joins: seq<Condition>, final: Column, test: Test, other: Valuation,
                           choice: Choice): Valuation
  {
    c => if c == p then FinalPasses(final, test, choice) else if c in joins then JoinHolds(c, choice) else other(c)
  }

  predicate FinalPasses(final: Column, test: Test, choice: Choice) {
    final.table in choice && test(ValueOf(choice[final.table], final.field))
  }

  /**
   Some choice of rows, with row for the base table, satisfies the condition e; the conditions that are
   neither p nor joins are about the base row and have the values in other.
   */
  ghost predicate RowSelected(e: Expr, p: Condition, joins: seq<Condition>, tables: set<string>, base: string,
                              final: Column, db: Database, row: Row, test: Test, other: Valuation)
  {
    exists choice: Choice :: RowChosen(e, p, joins, tables, base, final, db, row, test, other, choice)
  }

  ghost predicate RowChosen(e: Expr, p: Condition, joins: seq<Condition>, tables: set<string>, base: string,
                            final: Column, db: Database, row: Row, test: Test, other: Valuation, choice: Choice)
  {
    ChosenFrom(choice, tables, db) && base in choice && choice[base] == row && final.table in choice &&
    EvalExpr(e, ChoiceValuation(p, joins, final, test, other, choice))
  }

  // ---- The clause does not negate

  lemma {:induction false} MeaningGrows(g: Group, v: Valuation, w: Valuation)
    requires Meaning(g, v) && forall c :: v(c) ==> w(c)
    ensures Meaning(g, w)
  {
    forall n | n in g.nested && Meaning(n, v)
      ensures Meaning(n, w)
    {
      MeaningGrows(n, v, w);
    }
  }

  lemma WhereGrows(constraints: seq<Constraint>, groups: seq<Group>, trailing: seq<Condition>, v: Valuation,
                   w: Valuation)
    requires WhereMeaning(constraints, groups, trailing, v) && forall c :: v(c) ==> w(c)
    ensures WhereMeaning(constraints, groups, trailing, w)
  {
    hide Meaning;
    forall g | g in groups
      ensures Meaning(g, w)
    {
      MeaningGrows(g, v, w);
    }
  }

  lemma SameMeaning(constraints: seq<Constraint>, groups: seq<Group>, trailing: seq<Condition>, v: Valuation,
                    w: Valuation)
    requires forall c :: v(c) == w(c)
    ensures WhereMeaning(constraints, groups, trailing, v) == WhereMeaning(constraints, groups, trailing, w)
  {
    hide WhereMeaning;
    if WhereMeaning(constraints, groups, trailing, v) {
      WhereGrows(constraints, groups, trailing, v, w);
    }
    if WhereMeaning(constraints, groups, trailing, w) {
      WhereGrows(constraints, groups, trailing, w, v);
    }
  }

  // ---- What a choice of rows satisfies

  /** The clause holds for a choice exactly if its joins do and the query does with what the choice compares. */
  lemma ClauseOfChoice(constraints: seq<Constraint>, groups: seq<Group>, trailing: seq<Condition>, p: Condition,
                       joins: seq<Condition>, final: Column, test: Test, other: Valuation, choice: Choice)
    requires p !in joins && forall j :: j in joins ==> j in trailing
    ensures WhereMeaning(constraints, groups, trailing, ChoiceValuation(p, joins, final, test, other, choice)) <==>
            (forall j :: j in joins ==> JoinHolds(j, choice)) &&
            WhereMeaning(constraints, groups, trailing,
                         PathValuation(p, joins, other, FinalPasses(final, test, choice)))
  {
    hide JoinHolds, FinalPasses, Meaning, JoinsHold;
    var v := ChoiceValuation(p, joins, final, test, other, choice);
    var w := PathValuation(p, joins, other, FinalPasses(final, test, choice));
    if WhereMeaning(constraints, groups, trailing, v) {
      forall j | j in joins
        ensures JoinHolds(j, choice)
      {
        assert v(j);
      }
    }
    if forall j :: j in joins ==> JoinHolds(j, choice) {
      hide WhereMeaning;
      SameMeaning(constraints, groups, trailing, v, w);
    }
  }

  /** The statement selects a row if a matching or, where no match is needed, any choice of joined rows is there. */
  lemma SelectedTwoWays(e: Expr, constraints: seq<Constraint>, groups: seq<Group>, trailing: seq<Condition>,
                        p: Condition, joins: seq<Condition>, tables: set<string>, base: string, final: Column,
                        db: Database, row: Row, test: Test, other: Valuation)
    requires forall v :: EvalExpr(e, v) <==> WhereMeaning(constraints, groups, trailing, v)
    requires p !in joins && forall j :: j in joins ==> j in trailing
    ensures RowSelected(e, p, joins, tables, base, final, db, row, test, other) <==>
            (Selected(joins, tables, base, final, db, row, test) &&
             WhereMeaning(constraints, groups, trailing, PathValuation(p, joins, other, true))) ||
            (Selected(joins, tables, base, final, db, row, _ => true) &&
             WhereMeaning(constraints, groups, trailing, PathValuation(p, joins, other, false)))
  {
    hide WhereMeaning, EvalExpr, ChosenFrom, JoinHolds, ChoiceValuation, PathValuation;
    if RowSelected(e, p, joins, tables, base, final, db, row, test, other) {
      var choice: Choice :| RowChosen(e, p, joins, tables, base, final, db, row, test, other, choice);
      ClauseOfChoice(constraints, groups, trailing, p, joins, final, test, other, choice);
      assert Selects(joins, tables, base, final, db, row, _ => true, choice);
      if FinalPasses(final, test, choice) {
        assert Selects(joins, tables, base, final, db, row, test, choice);
      }
    }
    if Selected(joins, tables, base, final, db, row, test) &&
       WhereMeaning(constraints, groups, trailing, PathValuation(p, joins, other, true)) {
      var choice: Choice :| Selects(joins, tables, base, final, db, row, test, choice);
      ClauseOfChoice(constraints, groups, trailing, p, joins, final, test, other, choice);
      assert RowChosen(e, p, joins, tables, base, final, db, row, test, other, choice);
    }
    if Selected(joins, tables, base, final, db, row, _ => true) &&
       WhereMeaning(constraints, groups, trailing, PathValuation(p, joins, other, false)) {
      var choice: Choice :| Selects(joins, tables, base, final, db, row, _ => true, choice);
      ClauseOfChoice(constraints, groups, trailing, p, joins, final, test, other, choice);
      PathGrows(constraints, groups, trailing, p, joins, other, FinalPasses(final, test, choice));
      assert RowChosen(e, p, joins, tables, base, final, db, row, test, other, choice);
    }
  }

  lemma PathGrows(constraints: seq<Constraint>, groups: seq<Group>, trailing: seq<Condition>, p: Condition,
                  joins: seq<Condition>, other: Valuation, b: bool)
    requires WhereMeaning(constraints, groups, trailing, PathValuation(p, joins, other, false))
    ensures WhereMeaning(constraints, groups, trailing, PathValuation(p, joins, other, b))
  {
    hide WhereMeaning;
    WhereGrows(constraints, groups, trailing, PathValuation(p, joins, other, false),
               PathValuation(p, joins, other, b));
  }

  // ---- What the statement selects

  /** The row meets the query, and the links lead on in place, to a match unless the query is met without one. */
  ghost predicate MetAlongLinks(constraints: seq<Constraint>, groups: seq<Group>, trailing: seq<Condition>,
                                schema: Schema, klass: string, tokens: seq<string>, p: Condition,
                                joins: seq<Condition>, db: Database, row: Row, test: Test, other: Valuation)
    requires IsLinkPath(schema, klass, tokens)
  {
    (ReachesInPlace(schema, db, klass, tokens, row, test) &&
     WhereMeaning(constraints, groups, trailing, PathValuation(p, joins, other, true))) ||
    (ReachesInPlace(schema, db, klass, tokens, row, _ => true) &&
     WhereMeaning(constraints, groups, trailing, PathValuation(p, joins, other, false)))
  }

  /** The condition of a statement selects the rows that meet the query along the links. */
  lemma SelectsAlongLinks(e: Expr, constraints: seq<Constraint>, groups: seq<Group>, trailing: seq<Condition>,
                          schema: Schema, klass: string, tokens: seq<string>, p: Condition, joins: seq<Condition>,
                          tables: set<string>, db: Database, row: Row, test: Test, other: Valuation)
    requires forall v :: EvalExpr(e, v) <==> WhereMeaning(constraints, groups, trailing, v)
    requires IsLinkPath(schema, klass, tokens) && EmittedFor(schema, klass, tokens, joins, tables)
    requires p !in joins && forall j :: j in joins ==> j in trailing
    ensures RowSelected(e, p, joins, tables, schema[klass].table, FinalColumn(schema, klass, tokens), db, row, test,
                        other) <==>
            HasRows(db, schema[klass].tables) &&
            MetAlongLinks(constraints, groups, trailing, schema, klass, tokens, p, joins, db, row, test, other)
  {
    hide WhereMeaning, EvalExpr, RowSelected, Selected, ReachesInPlace, FinalColumn, EmittedFor, HasRows;
    hide PathValuation;
    var base, final := schema[klass].table, FinalColumn(schema, klass, tokens);
    SelectedTwoWays(e, constraints, groups, trailing, p, joins, tables, base, final, db, row, test, other);
    PathSelects(schema, klass, tokens, joins, tables, db, row, test);
    PathSelects(schema, klass, tokens, joins, tables, db, row, _ => true);
  }

  /**
   Row by row, the statement selects what the query means exactly if a row that meets the query without a
   match has linked rows all the same.
   */
  lemma RowFollowsExactly(e: Expr, constraints: seq<Constraint>, groups: seq<Group>, trailing: seq<Condition>,
                          schema: Schema, klass: string, tokens: seq<string>, p: Condition, joins: seq<Condition>,
                          tables: set<string>, db: Database, row: Row, test: Test, other: Valuation)
    requires forall v :: EvalExpr(e, v) <==> WhereMeaning(constraints, groups, trailing, v)
    requires IsLinkPath(schema, klass, tokens) && EmittedFor(schema, klass, tokens, joins, tables)
    requires p !in joins && forall j :: j in joins ==> j in trailing
    requires HasRows(db, schema[klass].tables)
    ensures (RowSelected(e, p, joins, tables, schema[klass].table, FinalColumn(schema, klass, tokens), db, row, test,
                         other) <==>
             WhereMeaning(constraints, groups, trailing,
                          PathValuation(p, joins, other, ReachesInPlace(schema, db, klass, tokens, row, test)))) <==>
            (WhereMeaning(constraints, groups, trailing, PathValuation(p, joins, other, false)) ==>
             ReachesInPlace(schema, db, klass, tokens, row, _ => true))
  {
    hide WhereMeaning, EvalExpr, RowSelected, FinalColumn, EmittedFor, HasRows, PathValuation, ReachesInPlace;
    SelectsAlongLinks(e, constraints, groups, trailing, schema, klass, tokens, p, joins, tables, db, row, test, other);
    InPlaceForAny(schema, db, klass, tokens, row, test);
    if WhereMeaning(constraints, groups, trailing, PathValuation(p, joins, other, false)) {
      PathGrows(constraints, groups, trailing, p, joins, other, true);
    }
  }

  lemma InPlaceForAny(schema: Schema, db: Database, klass: string, tokens: seq<string>, row: Row, test: Test)
    requires IsLinkPath(schema, klass, tokens)
    ensures ReachesInPlace(schema, db, klass, tokens, row, test) ==>
              ReachesInPlace(schema, db, klass, tokens, row, _ => true)
  {
    hide PathTables, LinkJoins, FinalColumn, RowsFrom, Linked;
    if ReachesInPlace(schema, db, klass, tokens, row, test) {
      var rows: seq<Row> :| Leads(schema, db, klass, tokens, row, test, rows) &&
                            OneRowPerTable(PathTables(schema, klass, tokens), rows);
      assert Leads(schema, db, klass, tokens, row, _ => true, rows);
    }
  }

  /** For every row of the base table, comparison and truth of the other conditions: selected as the query means. */
  ghost predicate FollowsLinks(e: Expr, constraints: seq<Constraint>, groups: seq<Group>, trailing: seq<Condition>,
                               schema: Schema, klass: string, tokens: seq<string>, p: Condition,
                               joins: seq<Condition>, tables: set<string>)
    requires IsLinkPath(schema, klass, tokens)
  {
    forall db: Database, row: Row, test: Test, other: Valuation |
      HasRows(db, schema[klass].tables) && schema[klass].table in db && row in db[schema[klass].table] ::
      RowSelected(e, p, joins, tables, schema[klass].table, FinalColumn(schema, klass, tokens), db, row, test,
                  other) <==>
      WhereMeaning(constraints, groups, trailing,
                   PathValuation(p, joins, other, ReachesInPlace(schema, db, klass, tokens, row, test)))
  }

  lemma NoLinksLead(schema: Schema, db: Database, klass: string, tokens: seq<string>, row: Row)
    requires IsLinkPath(schema, klass, tokens) && |tokens| == 1
    requires schema[klass].table in db && row in db[schema[klass].table]
    ensures ReachesInPlace(schema, db, klass, tokens, row, _ => true)
  {
    assert PathTables(schema, klass, tokens) == [schema[klass].table];
    assert Leads(schema, db, klass, tokens, row, _ => true, [row]);
  }

  lemma EmptyRowLeadsNowhere(schema: Schema, db: Database, klass: string, tokens: seq<string>, test: Test)
    requires IsLinkPath(schema, klass, tokens) && |tokens| > 1
    ensures !ReachesInPlace(schema, db, klass, tokens, map[], test)
  {
    hide PathTables, FinalColumn, RowsFrom;
    var joins := LinkJoins(schema, klass, tokens);
    assert 0 < |joins|;
    forall rows: seq<Row> | Linked(joins, rows)
      ensures rows[0] != map[]
    {
      assert SameValue(rows[0], joins[0].left.field, rows[1], joins[0].right.field);
    }
  }

  /** If the clause can hold with only p false, a row without links shows it. */
  lemma LostRow(e: Expr, constraints: seq<Constraint>, groups: seq<Group>, trailing: seq<Condition>,
                schema: Schema, klass: string, tokens: seq<string>, p: Condition, joins: seq<Condition>,
                tables: set<string>)
    requires forall v :: EvalExpr(e, v) <==> WhereMeaning(constraints, groups, trailing, v)
    requires IsLinkPath(schema, klass, tokens) && EmittedFor(schema, klass, tokens, joins, tables)
    requires p !in joins && forall j :: j in joins ==> j in trailing
    requires |tokens| > 1 && WhereMeaning(constraints, groups, trailing, c => c != p)
    ensures !FollowsLinks(e, constraints, groups, trailing, schema, klass, tokens, p, joins, tables)
  {
    hide WhereMeaning, EvalExpr, RowSelected, FinalColumn, ReachesInPlace, LinkJoins, PathTables;
    var db: Database := map t | t in tables :: {map[]};
    var base, other := schema[klass].table, (c: Condition) => true;
    JoinsAlong(schema, klass, tokens);
    assert base in Members(PathTables(schema, klass, tokens));
    assert map[] in db[base];
    SameMeaning(constraints, groups, trailing, c => c != p, PathValuation(p, joins, other, false));
    EmptyRowLeadsNowhere(schema, db, klass, tokens, _ => true);
    RowFollowsExactly(e, constraints, groups, trailing, schema, klass, tokens, p, joins, tables, db, map[], _ => true,
                      other);
  }

  /**
   Every emitted statement whose trailing conditions hold a link path's joins: behind WHERE stands a condition
   that selects the rows the query means, whatever the database, exactly if the path has no links or the clause
   cannot hold with only the path's comparison false.
   */
  lemma StatementFollowsExactly(head: seq<Token>, constraints: seq<Constraint>, groups: seq<Group>,
                                trailing: seq<Condition>, mode: nat, orders: seq<Order>, limit: nat, offset: nat,
                                schema: Schema, klass: string, tokens: seq<string>, p: Condition,
                                joins: seq<Condition>, tables: set<string>)
    returns (e: Expr)
    requires IsLinkPath(schema, klass, tokens) && EmittedFor(schema, klass, tokens, joins, tables)
    requires p !in joins && forall j :: j in joins ==> j in trailing
    ensures var ending := Ending(mode, orders, limit, offset);
            var sql := head + WhereTokens(constraints, Reversed(groups), trailing) + ending;
            ParseExpr(sql[|head|..]) == Some((e, ending))
    ensures forall v :: EvalExpr(e, v) <==> WhereMeaning(constraints, groups, trailing, v)
    ensures FollowsLinks(e, constraints, groups, trailing, schema, klass, tokens, p, joins, tables) <==>
            |tokens| == 1 || !WhereMeaning(constraints, groups, trailing, c => c != p)
  {
    hide WhereMeaning, EvalExpr, ParseExpr, WhereTokens, WhereTerm, Ending, RowSelected, ReachesInPlace, FinalColumn;
    hide EmittedFor, HasRows, PathValuation;
    StatementMeans(head, constraints, groups, trailing, mode, orders, limit, offset);
    e := Just(WhereTerm(constraints, Reversed(groups), trailing));
    if |tokens| == 1 || !WhereMeaning(constraints, groups, trailing, c => c != p) {
      var base := schema[klass].table;
      forall db: Database, row: Row, test: Test, other: Valuation |
        HasRows(db, schema[klass].tables) && base in db && row in db[base]
        ensures RowSelected(e, p, joins, tables, base, FinalColumn(schema, klass, tokens), db, row, test, other) <==>
                WhereMeaning(constraints, groups, trailing,
                             PathValuation(p, joins, other, ReachesInPlace(schema, db, klass, tokens, row, test)))
      {
        RowFollowsExactly(e, constraints, groups, trailing, schema, klass, tokens, p, joins, tables, db, row, test,
                          other);
        if |tokens| == 1 {
          NoLinksLead(schema, db, klass, tokens, row);
        } else {
          PathNeeded(constraints, groups, trailing, p, joins, other);
        }
      }
    } else {
      LostRow(e, constraints, groups, trailing, schema, klass, tokens, p, joins, tables);
    }
  }

  lemma PathNeeded(constraints: seq<Constraint>, groups: seq<Group>, trailing: seq<Condition>, p: Condition,
                   joins: seq<Condition>, other: Valuation)
    requires !WhereMeaning(constraints, groups, trailing, c => c != p)
    ensures !WhereMeaning(constraints, groups, trailing, PathValuation(p, joins, other, false))
  {
    hide WhereMeaning;
    if WhereMeaning(constraints, groups, trailing, PathValuation(p, joins, other, false)) {
      WhereGrows(constraints, groups, trailing, PathValuation(p, joins, other, false), c => c != p);
    }
  }

  /** Every statement that compares the path in a constraint outside all groups selects what the query means. */
  lemma TopConstraintFollows(head: seq<Token>, constraints: seq<Constraint>, groups: seq<Group>,
                             trailing: seq<Condition>, mode: nat, orders: seq<Order>, limit: nat, offset: nat,
                             schema: Schema, klass: string, tokens: seq<string>, c: Constraint,
                             joins: seq<Condition>, tables: set<string>)
    returns (e: Expr)
    requires IsLinkPath(schema, klass, tokens) && EmittedFor(schema, klass, tokens, joins, tables)
    requires c in constraints && c.condition !in joins && forall j :: j in joins ==> j in trailing
    ensures var ending := Ending(mode, orders, limit, offset);
            var sql := head + WhereTokens(constraints, Reversed(groups), trailing) + ending;
            ParseExpr(sql[|head|..]) == Some((e, ending))
    ensures FollowsLinks(e, constraints, groups, trailing, schema, klass, tokens, c.condition, joins, tables)
  {
    hide Meaning, EmittedFor, FollowsLinks, WhereTokens, ParseExpr, Ending, EvalExpr;
    e := StatementFollowsExactly(head, constraints, groups, trailing, mode, orders, limit, offset, schema, klass,
                                 tokens, c.condition, joins, tables);
    var v: Valuation := d => d != c.condition;
    assert !v(c.condition);
  }

  // ---- Deleted rows

  /** The filter on deleted objects reads the boolean column of the row. */
  predicate ReadsDeleted(other: Valuation, table: string, field: string, row: Row) {
    other(Comparison(table + "." + field + " = FALSE")) <==> field in row && row[field] == "FALSE"
  }

  /**
   No statement that asks for it selects a row whose deleted column is not false, whatever else it asks for
   and whatever the row is joined with.
   */
  lemma DeletedRowIsNotSelected(e: Expr, p: Condition, joins: seq<Condition>, tables: set<string>, base: string,
                                final: Column, db: Database, row: Row, test: Test, other: Valuation, field: string)
    requires var filter := Comparison(base + "." + field + " = FALSE");
             filter != p && filter !in joins && forall v :: EvalExpr(e, v) ==> v(filter)
    requires ReadsDeleted(other, base, field, row)
    requires RowSelected(e, p, joins, tables, base, final, db, row, test, other)
    ensures field in row && row[field] == "FALSE"
  {
    hide EvalExpr, ChosenFrom, FinalPasses;
    var choice: Choice :| RowChosen(e, p, joins, tables, base, final, db, row, test, other, choice);
    var v := ChoiceValuation(p, joins, final, test, other, choice);
    assert v(Comparison(base + "." + field + " = FALSE"));
  }

  // ---- A path inside an OR group

  /** Persons with a link to the city they live in. */
  function TownSchema(): Schema {
    map["person" := Class("persons", {"persons"}, map[
          "name" := Property(Some("persons"), "name", None),
          "city" := Property(Some("persons"), "city", Some(Link("city", "id")))]),
        "city" := Class("cities", {"cities"}, map[
          "id" := Property(Some("cities"), "id", None),
          "name" := Property(Some("cities"), "name", None)])]
  }

  const IS_ANN := Comparison("persons.name = 'Ann'")
  const IN_OSLO := Comparison("cities.name = 'Oslo'")

  /** Named Ann, or living in Oslo. */
  function AnnOrOslo(): Group {
    Group(Or, [Constraint(IS_ANN, []), Constraint(IN_OSLO, [])], [])
  }

  function LivesIn(): seq<Condition> {
    [Equates(Column("persons", "city"), Column("cities", "id"))]
  }

  function Ann(): Row {
    map["name" := "Ann"]
  }

  function Town(): Database {
    map["persons" := {Ann()}, "cities" := {map["id" := "1", "name" := "Oslo"]}]
  }

  lemma TownPath()
    ensures var tokens, joins := ["city", "name"], LivesIn();
            IsLinkPath(TownSchema(), "person", tokens) &&
            LinkJoins(TownSchema(), "person", tokens) == joins &&
            EmittedFor(TownSchema(), "person", tokens, joins, {"persons", "cities"})
  {
    var tokens := ["city", "name"];
    assert tokens[1..] == ["name"];
    assert IsLinkPath(TownSchema(), "city", ["name"]);
    assert IsLinkPath(TownSchema(), "person", tokens);
    assert PathTables(TownSchema(), "city", ["name"]) == ["cities"];
    assert PathTables(TownSchema(), "person", tokens) == ["persons", "cities"];
    assert LinkJoins(TownSchema(), "city", ["name"]) == [];
  }

  lemma AnnMeetsTheQuery()
    ensures WhereMeaning([], [AnnOrOslo()], LivesIn(), PathValuation(IN_OSLO, LivesIn(), c => c == IS_ANN, false))
  {
    var v := PathValuation(IN_OSLO, LivesIn(), c => c == IS_ANN, false);
    assert AnnOrOslo().constraints[0] in AnnOrOslo().constraints && v(IS_ANN);
  }

  lemma AnnHasNoCity(test: Test)
    requires IsLinkPath(TownSchema(), "person", ["city", "name"])
    requires LinkJoins(TownSchema(), "person", ["city", "name"]) == LivesIn()
    ensures !ReachesInPlace(TownSchema(), Town(), "person", ["city", "name"], Ann(), test)
  {
    hide LinkJoins, PathTables, FinalColumn, RowsFrom, IsLinkPath;
    forall rows: seq<Row> | Linked(LivesIn(), rows)
      ensures rows[0] != Ann()
    {
      assert SameValue(rows[0], "city", rows[1], "id");
    }
  }

  /** Ann, who lives nowhere, meets the query, and no statement for it selects her. */
  lemma OrGroupLosesRow(e: Expr, test: Test)
    requires forall v :: EvalExpr(e, v) <==> WhereMeaning([], [AnnOrOslo()], LivesIn(), v)
    ensures var tokens, tables := ["city", "name"], {"persons", "cities"};
            IsLinkPath(TownSchema(), "person", tokens) &&
            EmittedFor(TownSchema(), "person", tokens, LivesIn(), tables) &&
            !RowSelected(e, IN_OSLO, LivesIn(), tables, "persons", FinalColumn(TownSchema(), "person", tokens),
                         Town(), Ann(), test, c => c == IS_ANN) &&
            WhereMeaning([], [AnnOrOslo()], LivesIn(),
                         PathValuation(IN_OSLO, LivesIn(), c => c == IS_ANN,
                                       ReachesInPlace(TownSchema(), Town(), "person", tokens, Ann(), test)))
  {
    hide WhereMeaning, EvalExpr, RowSelected, ReachesInPlace, EmittedFor, FinalColumn, LinkJoins;
    TownPath();
    AnnMeetsTheQuery();
    AnnHasNoCity(test);
    AnnHasNoCity(_ => true);
    SelectsAlongLinks(e, [], [AnnOrOslo()], LivesIn(), TownSchema(), "person", ["city", "name"], IN_OSLO, LivesIn(),
                      {"persons", "cities"}, Town(), Ann(), test, c => c == IS_ANN);
  }
}
