/**
 When following a link path and selecting by its joins are the same for every database: exactly if the
 path can be folded onto one place for each table without changing what the links compare.
 */
module LinkNavigation {
  import opened Sql
  import opened Wrappers
  import opened LinkPath

  // ---- What the columns along a path have in common

  /** The number of the value that link k compares; a link from the column just reached goes on with its value. */
  function Tag(joins: seq<Condition>, k: nat): nat
    requires k < |joins| && forall i :: 0 <= i < |joins| ==> joins[i].Equates?
  {
    if k > 0 && joins[k - 1].right.field == joins[k].left.field then Tag(joins, k - 1) else k + 1
  }

  /** The value that the links and the final comparison ask for in a column of the row at place k, if any. */
  function Cell(joins: seq<Condition>, final: string, k: nat, field: string): Option<nat>
    requires k <= |joins| && forall i :: 0 <= i < |joins| ==> joins[i].Equates?
  {
    if k < |joins| && field == joins[k].left.field then Some(Tag(joins, k))
    else if k > 0 && field == joins[k - 1].right.field then Some(Tag(joins, k - 1))
    else if k == |joins| && field == final then Some(0)
    else None
  }

  lemma LinkCells(joins: seq<Condition>, final: string, k: nat)
    requires k < |joins| && forall i :: 0 <= i < |joins| ==> joins[i].Equates?
    ensures Cell(joins, final, k, joins[k].left.field) == Some(Tag(joins, k))
    ensures Cell(joins, final, k + 1, joins[k].right.field) == Some(Tag(joins, k))
  {
  }

  lemma FinalCell(joins: seq<Condition>, final: string)
    requires forall i :: 0 <= i < |joins| ==> joins[i].Equates?
    ensures Cell(joins, final, |joins|, final).Some?
  {
  }

  /** Each place goes to a place of the same table, one for each table, and the first to itself. */
  predicate Places(tables: seq<string>, fold: seq<nat>) {
    0 < |fold| == |tables| && fold[0] == 0 &&
    (forall i :: 0 <= i < |fold| ==> fold[i] < |tables| && tables[fold[i]] == tables[i]) &&
    (forall i, j :: 0 <= i < j < |fold| && tables[i] == tables[j] ==> fold[i] == fold[j])
  }

  lemma PlacesBound(tables: seq<string>, fold: seq<nat>)
    requires Places(tables, fold)
    ensures |fold| == |tables| && forall i :: 0 <= i < |fold| ==> fold[i] < |tables|
  {
  }

  /** Link i compares the same value at places a and b. */
  predicate KeepsValue(joins: seq<Condition>, final: string, a: nat, b: nat, i: nat)
    requires a <= |joins| && b <= |joins| && i < |joins| && forall k :: 0 <= k < |joins| ==> joins[k].Equates?
  {
    Cell(joins, final, a, joins[i].left.field).Some? &&
    Cell(joins, final, a, joins[i].left.field) == Cell(joins, final, b, joins[i].right.field)
  }

  /** The links and the final comparison find at the new places values that are the same where they were. */
  predicate Folding(joins: seq<Condition>, tables: seq<string>, final: string, fold: seq<nat>)
    requires Along(joins, tables)
  {
    Places(tables, fold) && (forall i :: 0 <= i < |joins| ==> KeepsValue(joins, final, fold[i], fold[i + 1], i)) &&
    Cell(joins, final, fold[|joins|], final) == Cell(joins, final, |joins|, final)
  }

  /** The path can be followed with one row for each table, whatever rows following it went through. */
  ghost predicate Folds(schema: Schema, klass: string, tokens: seq<string>)
    requires IsLinkPath(schema, klass, tokens)
  {
    var joins, tables := LinkJoins(schema, klass, tokens), PathTables(schema, klass, tokens);
    Along(joins, tables) &&
    exists fold: seq<nat> :: Folding(joins, tables, FinalColumn(schema, klass, tokens).field, fold)
  }

  // ---- A folded path is followed in place

  /** The value that a tag stands for in a chain of rows. */
  function TagValue(joins: seq<Condition>, final: string, rows: seq<Row>, tag: nat): Option<string>
    requires Linked(joins, rows) && tag <= |joins|
  {
    if tag == 0 then ValueOf(rows[|joins|], final) else ValueOf(rows[tag - 1], joins[tag - 1].left.field)
  }

  lemma {:induction false} LinkValue(joins: seq<Condition>, final: string, rows: seq<Row>, k: nat)
    requires Linked(joins, rows) && k < |joins|
    ensures 0 < Tag(joins, k) <= |joins| && TagValue(joins, final, rows, Tag(joins, k)).Some?
    ensures ValueOf(rows[k], joins[k].left.field) == TagValue(joins, final, rows, Tag(joins, k))
    ensures ValueOf(rows[k + 1], joins[k].right.field) == TagValue(joins, final, rows, Tag(joins, k))
  {
    assert SameValue(rows[k], joins[k].left.field, rows[k + 1], joins[k].right.field);
    if k > 0 {
      LinkValue(joins, final, rows, k - 1);
    }
  }

  lemma CellValue(joins: seq<Condition>, final: string, rows: seq<Row>, k: nat, field: string)
    requires Linked(joins, rows) && k <= |joins| && Cell(joins, final, k, field).Some?
    ensures Cell(joins, final, k, field).value <= |joins|
    ensures ValueOf(rows[k], field) == TagValue(joins, final, rows, Cell(joins, final, k, field).value)
    ensures ValueOf(rows[|joins|], final).Some? ==> ValueOf(rows[k], field).Some?
  {
    hide Linked;
    if k < |joins| {
      LinkValue(joins, final, rows, k);
    }
    if k > 0 {
      LinkValue(joins, final, rows, k - 1);
    }
  }

  function Folded(rows: seq<Row>, fold: seq<nat>): seq<Row>
    requires forall i :: 0 <= i < |fold| ==> fold[i] < |rows|
  {
    seq(|fold|, i requires 0 <= i < |fold| => rows[fold[i]])
  }

  lemma FoldedLinked(joins: seq<Condition>, tables: seq<string>, final: string, fold: seq<nat>, rows: seq<Row>)
    requires Along(joins, tables) && Folding(joins, tables, final, fold) && Linked(joins, rows)
    requires ValueOf(rows[|joins|], final).Some?
    ensures Linked(joins, Folded(rows, fold))
    ensures ValueOf(Folded(rows, fold)[|joins|], final) == ValueOf(rows[|joins|], final)
  {
    hide Cell;
    var folded := Folded(rows, fold);
    forall i | 0 <= i < |joins|
      ensures SameValue(folded[i], joins[i].left.field, folded[i + 1], joins[i].right.field)
    {
      assert KeepsValue(joins, final, fold[i], fold[i + 1], i);
      CellValue(joins, final, rows, fold[i], joins[i].left.field);
      CellValue(joins, final, rows, fold[i + 1], joins[i].right.field);
    }
    FinalCell(joins, final);
    CellValue(joins, final, rows, |joins|, final);
    CellValue(joins, final, rows, fold[|joins|], final);
  }

  lemma FoldedInPlace(tables: seq<string>, db: Database, fold: seq<nat>, rows: seq<Row>)
    requires RowsFrom(db, tables, rows) && Places(tables, fold)
    ensures RowsFrom(db, tables, Folded(rows, fold)) && OneRowPerTable(tables, Folded(rows, fold))
  {
  }

  /** Where a path folds, the rows that lead to a match can be replaced by ones that do so in place. */
  lemma FoldReaches(schema: Schema, db: Database, klass: string, tokens: seq<string>, row: Row,
                    test: Option<string> -> bool)
    requires IsLinkPath(schema, klass, tokens) && Folds(schema, klass, tokens) && !test(None)
    requires Reaches(schema, db, klass, tokens, row, test)
    ensures ReachesInPlace(schema, db, klass, tokens, row, test)
  {
    hide LinkJoins, PathTables, FinalColumn, IsLinkPath, RowsFrom, Linked;
    var joins, tables := LinkJoins(schema, klass, tokens), PathTables(schema, klass, tokens);
    var final := FinalColumn(schema, klass, tokens).field;
    var fold: seq<nat> :| Folding(joins, tables, final, fold);
    var rows: seq<Row> :| Leads(schema, db, klass, tokens, row, test, rows);
    LinkedLength(joins, rows);
    FoldedLinked(joins, tables, final, fold, rows);
    FoldedInPlace(tables, db, fold, rows);
    assert Leads(schema, db, klass, tokens, row, test, Folded(rows, fold));
  }

  // ---- A database in which only folding helps

  function Mark(tag: nat): string {
    if tag == 0 then "" else Mark(tag - 1) + "x"
  }

  lemma {:induction false} MarksDiffer(tag: nat)
    ensures |Mark(tag)| == tag
  {
    if tag > 0 {
      MarksDiffer(tag - 1);
    }
  }

  /** Row k has the values that are asked for, and nothing else. */
  function FreeRow(joins: seq<Condition>, final: string, k: nat): (row: Row)
    requires k <= |joins| && forall i :: 0 <= i < |joins| ==> joins[i].Equates?
    ensures forall f :: f in row <==> Cell(joins, final, k, f).Some?
    ensures forall f :: f in row ==> row[f] == Mark(Cell(joins, final, k, f).value)
  {
    (if k == |joins| then map[final := Mark(0)] else map[]) +
    (if k > 0 then map[joins[k - 1].right.field := Mark(Tag(joins, k - 1))] else map[]) +
    (if k < |joins| then map[joins[k].left.field := Mark(Tag(joins, k))] else map[])
  }

  function FreeRows(joins: seq<Condition>, tables: seq<string>, final: string, t: string): set<Row>
    requires Along(joins, tables)
  {
    set k: nat | k < |tables| && tables[k] == t :: FreeRow(joins, final, k)
  }

  /** The free rows in their tables, and an empty row in each other table. */
  function FreeDatabase(joins: seq<Condition>, tables: seq<string>, final: string, from: set<string>): Database
    requires Along(joins, tables)
  {
    map t | t in from :: if t in tables then FreeRows(joins, tables, final, t) else {map[]}
  }

  function FreeChain(joins: seq<Condition>, final: string): seq<Row>
    requires forall i :: 0 <= i < |joins| ==> joins[i].Equates?
  {
    seq(|joins| + 1, k requires 0 <= k <= |joins| => FreeRow(joins, final, k))
  }

  lemma FreeChainLinked(joins: seq<Condition>, final: string)
    requires forall i :: 0 <= i < |joins| ==> joins[i].Equates?
    ensures Linked(joins, FreeChain(joins, final))
  {
    hide Mark, Cell, FreeRow;
    forall i | 0 <= i < |joins|
      ensures SameValue(FreeRow(joins, final, i), joins[i].left.field,
                        FreeRow(joins, final, i + 1), joins[i].right.field)
    {
      LinkCells(joins, final, i);
    }
  }

  lemma FreeChainIsThere(joins: seq<Condition>, tables: seq<string>, final: string, from: set<string>)
    requires Along(joins, tables) && Members(tables) <= from
    ensures var db := FreeDatabase(joins, tables, final, from);
            RowsFrom(db, tables, FreeChain(joins, final)) && HasRows(db, from)
  {
    hide FreeRow;
    var db := FreeDatabase(joins, tables, final, from);
    forall i | 0 <= i < |tables|
      ensures tables[i] in db && FreeRow(joins, final, i) in db[tables[i]]
    {
      assert tables[i] in Members(tables);
    }
    forall t | t in from
      ensures t in db && db[t] != {}
    {
      if t in tables {
        var i :| 0 <= i < |tables| && tables[i] == t;
        assert FreeRow(joins, final, i) in db[t];
      } else {
        assert map[] in db[t];
      }
    }
  }

  /** The place that a row of the free database comes from: the first place if it may, else any. */
  ghost function PlaceOfRow(joins: seq<Condition>, tables: seq<string>, final: string, t: string, row: Row): (k: nat)
    requires Along(joins, tables) && row in FreeRows(joins, tables, final, t)
    ensures k < |tables| && tables[k] == t && row == FreeRow(joins, final, k)
    ensures t == tables[0] && row == FreeRow(joins, final, 0) ==> k == 0
  {
    if t == tables[0] && row == FreeRow(joins, final, 0) then 0
    else
      var k: nat :| k < |tables| && tables[k] == t && row == FreeRow(joins, final, k);
      k
  }

  lemma SameCells(joins: seq<Condition>, final: string, a: nat, f: string, b: nat, g: string)
    requires a <= |joins| && b <= |joins| && forall i :: 0 <= i < |joins| ==> joins[i].Equates?
    requires SameValue(FreeRow(joins, final, a), f, FreeRow(joins, final, b), g)
    ensures Cell(joins, final, a, f).Some? && Cell(joins, final, a, f) == Cell(joins, final, b, g)
  {
    hide Mark, Cell, FreeRow;
    MarksDiffer(Cell(joins, final, a, f).value);
    MarksDiffer(Cell(joins, final, b, g).value);
  }

  /** Where the rows of one choice in the free database come from. */
  lemma RowPlaces(joins: seq<Condition>, tables: seq<string>, final: string, from: set<string>, rows: seq<Row>)
    returns (fold: seq<nat>)
    requires Along(joins, tables) && Members(tables) <= from
    requires RowsFrom(FreeDatabase(joins, tables, final, from), tables, rows)
    requires OneRowPerTable(tables, rows) && rows[0] == FreeRow(joins, final, 0)
    ensures Places(tables, fold) && forall i :: 0 <= i < |fold| ==> rows[i] == FreeRow(joins, final, fold[i])
  {
    hide FreeRow, FreeRows;
    forall i | 0 <= i < |tables|
      ensures rows[i] in FreeRows(joins, tables, final, tables[i])
    {
      assert tables[i] in Members(tables);
    }
    fold := seq(|tables|, i requires 0 <= i < |tables| => PlaceOfRow(joins, tables, final, tables[i], rows[i]));
  }

  /** Rows of the free database that lead in place from its first row to its last value are a folding. */
  lemma InPlaceIsFolding(joins: seq<Condition>, tables: seq<string>, final: string, from: set<string>, rows: seq<Row>)
    requires Along(joins, tables) && Members(tables) <= from
    requires RowsFrom(FreeDatabase(joins, tables, final, from), tables, rows) && Linked(joins, rows)
    requires OneRowPerTable(tables, rows) && rows[0] == FreeRow(joins, final, 0)
    requires final in FreeRow(joins, final, |joins|)
    requires ValueOf(rows[|joins|], final) == Some(FreeRow(joins, final, |joins|)[final])
    ensures exists fold :: Folding(joins, tables, final, fold)
  {
    hide Cell, FreeRow, FreeDatabase, RowsFrom, OneRowPerTable, SameValue, Places;
    var fold := RowPlaces(joins, tables, final, from, rows);
    PlacesBound(tables, fold);
    forall i | 0 <= i < |joins|
      ensures KeepsValue(joins, final, fold[i], fold[i + 1], i)
    {
      SameCells(joins, final, fold[i], joins[i].left.field, fold[i + 1], joins[i].right.field);
    }
    var n := |joins|;
    assert SameValue(FreeRow(joins, final, fold[n]), final, FreeRow(joins, final, n), final) by {
      EqualValues(rows[n], final, FreeRow(joins, final, n), final);
    }
    SameCells(joins, final, fold[n], final, n, final);
    assert Folding(joins, tables, final, fold);
  }

  lemma EqualValues(a: Row, f: string, b: Row, g: string)
    requires g in b && ValueOf(a, f) == Some(b[g])
    ensures SameValue(a, f, b, g)
  {
  }

  /** Equality with the last value of the free chain. */
  ghost function FreeTest(joins: seq<Condition>, final: string): (test: Option<string> -> bool)
    requires forall i :: 0 <= i < |joins| ==> joins[i].Equates?
    ensures !test(None)
  {
    (v: Option<string>) => v.Some? && v == ValueOf(FreeRow(joins, final, |joins|), final)
  }

  lemma FreeReaches(schema: Schema, klass: string, tokens: seq<string>)
    requires IsLinkPath(schema, klass, tokens)
    ensures var joins, tables := LinkJoins(schema, klass, tokens), PathTables(schema, klass, tokens);
            var final := FinalColumn(schema, klass, tokens).field;
            Along(joins, tables) &&
            var db := FreeDatabase(joins, tables, final, Members(tables) + schema[klass].tables);
            var row, test := FreeRow(joins, final, 0), FreeTest(joins, final);
            Reaches(schema, db, klass, tokens, row, test) && HasRows(db, schema[klass].tables) &&
            (ReachesInPlace(schema, db, klass, tokens, row, test) ==> Folds(schema, klass, tokens))
  {
    hide LinkJoins, PathTables, FinalColumn, FreeRow, FreeDatabase, RowsFrom, Linked, HasRows, Folding, Cell;
    var joins, tables := LinkJoins(schema, klass, tokens), PathTables(schema, klass, tokens);
    var final := FinalColumn(schema, klass, tokens).field;
    JoinsAlong(schema, klass, tokens);
    var from := Members(tables) + schema[klass].tables;
    var db := FreeDatabase(joins, tables, final, from);
    var row, test := FreeRow(joins, final, 0), FreeTest(joins, final);
    FreeChainIsThere(joins, tables, final, from);
    HasMoreRows(db, Members(tables), schema[klass].tables);
    FreeChainLinked(joins, final);
    FinalCell(joins, final);
    assert Leads(schema, db, klass, tokens, row, test, FreeChain(joins, final));
    if ReachesInPlace(schema, db, klass, tokens, row, test) {
      var rows: seq<Row> :| Leads(schema, db, klass, tokens, row, test, rows) && OneRowPerTable(tables, rows);
      LinkedLength(joins, rows);
      InPlaceIsFolding(joins, tables, final, from, rows);
    }
  }

  // ---- The exact condition

  /**
   For every comparison, none of which holds of NULL, the joins select the rows from which the links
   lead to a match.
   */
  ghost predicate Compares(schema: Schema, klass: string, tokens: seq<string>, joins: seq<Condition>,
                           tables: set<string>)
    requires IsLinkPath(schema, klass, tokens)
  {
    forall db: Database, row: Row, test: Option<string> -> bool | !test(None) ::
      Selected(joins, tables, schema[klass].table, FinalColumn(schema, klass, tokens), db, row, test) <==>
      Reaches(schema, db, klass, tokens, row, test) && HasRows(db, schema[klass].tables)
  }

  /** The emitted joins and tables select what the links reach, for every database, exactly if the path folds. */
  lemma ComparesExactly(schema: Schema, klass: string, tokens: seq<string>, joins: seq<Condition>,
                        tables: set<string>)
    requires IsLinkPath(schema, klass, tokens) && EmittedFor(schema, klass, tokens, joins, tables)
    ensures Compares(schema, klass, tokens, joins, tables) <==> Folds(schema, klass, tokens)
  {
    hide LinkJoins, PathTables, FinalColumn, EmittedFor, Selected, Reaches, ReachesInPlace, Folds, HasRows;
    hide FreeRow, FreeDatabase;
    var base, final := schema[klass].table, FinalColumn(schema, klass, tokens);
    if Folds(schema, klass, tokens) {
      forall db: Database, row: Row, test: Option<string> -> bool | !test(None)
        ensures Selected(joins, tables, base, final, db, row, test) <==>
                Reaches(schema, db, klass, tokens, row, test) && HasRows(db, schema[klass].tables)
      {
        PathSelects(schema, klass, tokens, joins, tables, db, row, test);
        InPlaceReaches(schema, db, klass, tokens, row, test);
        if Reaches(schema, db, klass, tokens, row, test) {
          FoldReaches(schema, db, klass, tokens, row, test);
        }
      }
    }
    if Compares(schema, klass, tokens, joins, tables) {
      FreeReaches(schema, klass, tokens);
      var links, along := LinkJoins(schema, klass, tokens), PathTables(schema, klass, tokens);
      var db := FreeDatabase(links, along, final.field, Members(along) + schema[klass].tables);
      var row, test := FreeRow(links, final.field, 0), FreeTest(links, final.field);
      PathSelects(schema, klass, tokens, joins, tables, db, row, test);
    }
  }

  lemma InPlaceReaches(schema: Schema, db: Database, klass: string, tokens: seq<string>, row: Row,
                       test: Option<string> -> bool)
    requires IsLinkPath(schema, klass, tokens)
    ensures ReachesInPlace(schema, db, klass, tokens, row, test) ==> Reaches(schema, db, klass, tokens, row, test)
  {
    hide Leads, PathTables;
  }

  // ---- Paths that fold

  /** No link compares a column with itself, and none starts from the column by which its row was reached. */
  predicate PlainLinks(joins: seq<Condition>) {
    (forall i :: 0 <= i < |joins| ==> joins[i].Equates? && joins[i].left != joins[i].right) &&
    (forall i :: 0 < i < |joins| ==> joins[i - 1].right.field != joins[i].left.field)
  }

  lemma PlainTag(joins: seq<Condition>, k: nat)
    requires PlainLinks(joins) && k < |joins|
    ensures Tag(joins, k) == k + 1
  {
  }

  /** The value of plain link i is only at its two ends, and of these only the second is where it leads. */
  lemma PlainNext(joins: seq<Condition>, tables: seq<string>, final: string, i: nat, k: nat)
    requires Along(joins, tables) && PlainLinks(joins) && i < |joins| && k < |tables| && tables[k] == tables[i + 1]
    requires Cell(joins, final, k, joins[i].right.field) == Some(Tag(joins, i))
    ensures k == i + 1
  {
    hide Tag;
    PlainTag(joins, i);
    if k > 0 {
      PlainTag(joins, k - 1);
    }
    if k < |joins| {
      PlainTag(joins, k);
    }
  }

  lemma {:induction false} PlainFoldingStays(joins: seq<Condition>, tables: seq<string>, final: string,
                                             fold: seq<nat>, n: nat)
    requires Along(joins, tables) && PlainLinks(joins) && Folding(joins, tables, final, fold) && n < |tables|
    ensures fold[n] == n
  {
    hide Cell, PlainLinks, KeepsValue, Tag;
    if n > 0 {
      hide Along;
      PlainFoldingStays(joins, tables, final, fold, n - 1);
      assert KeepsValue(joins, final, fold[n - 1], fold[n], n - 1);
      PlainStep(joins, tables, final, n - 1, fold[n]);
    }
  }

  lemma PlainStep(joins: seq<Condition>, tables: seq<string>, final: string, i: nat, k: nat)
    requires Along(joins, tables) && PlainLinks(joins) && i < |joins| && k < |tables| && tables[k] == tables[i + 1]
    requires KeepsValue(joins, final, i, k, i)
    ensures k == i + 1
  {
    hide Cell, PlainLinks;
    LinkCells(joins, final, i);
    PlainNext(joins, tables, final, i, k);
  }

  lemma DistinctFolds(joins: seq<Condition>, tables: seq<string>, final: string)
    requires Along(joins, tables) && Distinct(tables)
    ensures exists fold :: Folding(joins, tables, final, fold)
  {
    hide Cell;
    var fold: seq<nat> := seq(|tables|, (i: nat) => i);
    forall i | 0 <= i < |joins|
      ensures KeepsValue(joins, final, fold[i], fold[i + 1], i)
    {
      LinkCells(joins, final, i);
    }
    assert Folding(joins, tables, final, fold);
  }

  /** A path over plain links folds exactly if it visits no table twice. */
  lemma PlainFoldsExactly(schema: Schema, klass: string, tokens: seq<string>)
    requires IsLinkPath(schema, klass, tokens)
    ensures Distinct(PathTables(schema, klass, tokens)) ==> Folds(schema, klass, tokens)
    ensures PlainLinks(LinkJoins(schema, klass, tokens)) && Folds(schema, klass, tokens) ==>
              Distinct(PathTables(schema, klass, tokens))
  {
    hide LinkJoins, PathTables, FinalColumn, IsLinkPath, Folding, PlainLinks;
    var joins, tables := LinkJoins(schema, klass, tokens), PathTables(schema, klass, tokens);
    var final := FinalColumn(schema, klass, tokens).field;
    JoinsAlong(schema, klass, tokens);
    if Distinct(tables) {
      DistinctFolds(joins, tables, final);
    }
    if PlainLinks(joins) && Folds(schema, klass, tokens) {
      var fold: seq<nat> :| Folding(joins, tables, final, fold);
      PlainDistinct(joins, tables, final, fold);
    }
  }

  lemma PlainDistinct(joins: seq<Condition>, tables: seq<string>, final: string, fold: seq<nat>)
    requires Along(joins, tables) && PlainLinks(joins) && Folding(joins, tables, final, fold)
    ensures Distinct(tables)
  {
    hide Cell, PlainLinks;
    forall i, j | 0 <= i < j < |tables|
      ensures tables[i] != tables[j]
    {
      PlainFoldingStays(joins, tables, final, fold, i);
      PlainFoldingStays(joins, tables, final, fold, j);
    }
  }

  /**
   Over plain links, the emitted joins and tables select what the links reach, for every database and any
   test, exactly if the path visits no table twice.
   */
  lemma NavigatesExactly(schema: Schema, klass: string, tokens: seq<string>, joins: seq<Condition>,
                         tables: set<string>)
    requires IsLinkPath(schema, klass, tokens) && EmittedFor(schema, klass, tokens, joins, tables)
    requires PlainLinks(LinkJoins(schema, klass, tokens))
    ensures Navigates(schema, klass, tokens, joins, tables, FinalColumn(schema, klass, tokens)) <==>
            Distinct(PathTables(schema, klass, tokens))
  {
    hide LinkJoins, PathTables, FinalColumn, PlainLinks, EmittedFor, Selected, Reaches, Distinct, Folds, HasRows;
    EmittedSelects(schema, klass, tokens, joins, tables);
    PlainFoldsExactly(schema, klass, tokens);
    ComparesExactly(schema, klass, tokens, joins, tables);
  }

  /**
   A link from a property to itself, compared on that property, visits its table twice; the path folds, and
   the joins select what it reaches.
   */
  lemma OwnColumnFolds(schema: Schema, klass: string, name: string)
    requires IsLinkPath(schema, klass, [name, name])
    requires schema[klass].properties[name].link == Some(Link(klass, name))
    requires name == "guid" ==> schema[klass].properties[name].field == "guid"
    ensures !Distinct(PathTables(schema, klass, [name, name])) && Folds(schema, klass, [name, name])
  {
    var tokens, p := [name, name], schema[klass].properties[name];
    assert tokens[1..] == [name] && IsLinkPath(schema, klass, [name]);
    assert PathTables(schema, klass, [name]) == [schema[klass].table];
    var joins, tables := LinkJoins(schema, klass, tokens), PathTables(schema, klass, tokens);
    assert tables == [schema[klass].table, schema[klass].table] && tables[0] == tables[1];
    assert LinkJoins(schema, klass, [name]) == [] && joins == [LinkCondition(schema, p)];
    assert Folding(joins, tables, FinalColumn(schema, klass, tokens).field, [0, 0]);
  }
}
