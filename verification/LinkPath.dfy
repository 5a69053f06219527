/**
 Dotted property paths: link properties on the way become join conditions on the builder, and
 the last property names the column that is compared.
 */
module LinkPath {
  import opened Sql
  import opened Wrappers
  import opened GroupConstraint
  import opened QueryBuilder
  import Text

  // ---- Classes

  datatype Link = Link(target: string, property: string)
  datatype Property = Property(table: Option<string>, field: string, link: Option<Link>)
  /** A class with its own table, all tables that its properties are kept in, and its properties. */
  datatype Class = Class(table: string, tables: set<string>, properties: map<string, Property>)
  type Schema = map<string, Class>

  const METADATA := "metadata"
  const ATTACHMENT := "attachment"
  const PARAMETER := "parameter"
  const METADATA_CLASS := "MidgardMetadata"
  const ATTACHMENT_CLASS := "midgard_attachment"
  const PARAMETER_CLASS := "midgard_parameter"
  const BLOB_TABLE := "blobs"
  const PARAMETER_TABLE := "record_extension"

  predicate Reserved(name: string) {
    name == METADATA || name == ATTACHMENT || name == PARAMETER
  }

  /** The reserved classes are registered, and links lead to registered properties that have tables. */
  predicate WellFormed(schema: Schema) {
    METADATA_CLASS in schema && ATTACHMENT_CLASS in schema && PARAMETER_CLASS in schema &&
    forall k, p :: k in schema && p in schema[k].properties && schema[k].properties[p].link.Some? ==>
      LinkResolves(schema, schema[k].properties[p])
  }

  predicate LinkResolves(schema: Schema, property: Property)
    requires property.link.Some?
  {
    var link := property.link.value;
    property.table.Some? && link.target in schema && link.property in schema[link.target].properties &&
    schema[link.target].properties[link.property].table.Some?
  }

  /** left.field = right.field between a link property and its target. */
  function LinkCondition(schema: Schema, property: Property): Condition
    requires property.link.Some? && LinkResolves(schema, property)
  {
    var target := schema[property.link.value.target].properties[property.link.value.property];
    Equates(Column(property.table.value, property.field), Column(target.table.value, target.field))
  }

  function AddedJoin(joins: seq<Condition>, c: Condition): seq<Condition> {
    if c in joins then joins else joins + [c]
  }

  function ReferenceConstraints(src: string, ref: string): seq<Constraint> {
    [Constraint(Equates(Column(ref, "parent_guid"), Column(src, "guid")), []),
     Constraint(Comparison(ref + ".metadata_deleted = 0"), [])]
  }

  // ---- What parsing keeps

  /** No join condition twice, and the tables of every join among the FROM tables. */
  predicate JoinsConsistent(joins: seq<Condition>, tables: set<string>) {
    (forall i, j :: 0 <= i < j < |joins| ==> joins[i] != joins[j]) &&
    (forall c :: c in joins ==> c.Equates? && c.left.table in tables && c.right.table in tables)
  }

  /** The part of a constraint that parsing its property fills in. */
  class PropertyRef {
    var klass: string
    var property: string
    var table: string
    var field: Option<string>

    constructor (klass: string)
      ensures this.klass == klass && field == None
    {
      this.klass, property, table, field := klass, "", "", None;
    }
  }

  // ---- The walk over the classes

  /**
   Where parsing stands between two tokens: the class that the next token belongs to, what the constraint
   refers to so far, and what the builder holds.
   */
  datatype Walk = Walk(
    klass: string, owner: string, property: string, table: string, field: Option<string>,
    joins: seq<Condition>, tables: set<string>, constraints: seq<Constraint>,
    blobs: bool, params: bool, distinct: bool)

  function WalkOf(builder: Builder, ref: PropertyRef, klass: string): Walk
    reads builder, ref
  {
    Walk(klass, ref.klass, ref.property, ref.table, ref.field, builder.joins, builder.tables, builder.constraints,
         builder.blobJoinExists, builder.paramJoinExists, builder.selectDistinct)
  }

  /** A token is a reserved name, whatever the class, or a property of the class. */
  predicate Known(schema: Schema, klass: string, name: string)
    requires klass in schema
  {
    Reserved(name) || name in schema[klass].properties
  }

  /** One known token; the last one is not followed. */
  function Stepped(schema: Schema, w: Walk, name: string, last: bool): (to: Walk)
    requires WellFormed(schema) && w.klass in schema && Known(schema, w.klass, name)
    ensures to.klass in schema
  {
    var at := w.(owner := w.klass, property := name);
    if name == METADATA then at.(klass := METADATA_CLASS)
    else if name == ATTACHMENT then
      at.(klass := ATTACHMENT_CLASS, table := BLOB_TABLE, blobs := true,
          constraints := w.constraints + if w.blobs then [] else ReferenceConstraints(w.table, BLOB_TABLE))
    else if name == PARAMETER then
      at.(klass := PARAMETER_CLASS, table := PARAMETER_TABLE, params := true, distinct := true,
          constraints := w.constraints + if w.params then [] else ReferenceConstraints(w.table, PARAMETER_TABLE))
    else
      var p := schema[w.klass].properties[name];
      if p.link.Some? && !last then
        var c := LinkCondition(schema, p);
        at.(klass := p.link.value.target, table := schema[p.link.value.target].table,
            joins := AddedJoin(w.joins, c), tables := w.tables + {c.left.table, c.right.table})
      else if name == "guid" then at.(table := schema[w.klass].table, field := Some("guid"))
      else at.(table := if p.table.Some? then p.table.value else w.table, field := Some(p.field))
  }

  /** All tokens up to the first unknown one; the flag says whether there is none. */
  function Through(schema: Schema, w: Walk, tokens: seq<string>): (bool, Walk)
    requires WellFormed(schema) && w.klass in schema
    decreases |tokens|
  {
    if tokens == [] then (true, w)
    else if !Known(schema, w.klass, tokens[0]) then (false, w.(owner := w.klass, property := tokens[0]))
    else Through(schema, Stepped(schema, w, tokens[0], |tokens| == 1), tokens[1..])
  }

  method AddJoin(builder: Builder, c: Condition) returns (added: bool)
    modifies builder`joins
    ensures builder.joins == AddedJoin(old(builder.joins), c)
    ensures added <==> c !in old(builder.joins)
  {
    var found := false;
    for i := 0 to |builder.joins|
      invariant builder.joins == old(builder.joins)
      invariant found <==> c in builder.joins[..i]
    {
      if builder.joins[i] == c {
        found := true;
      }
    }
    assert builder.joins[..|builder.joins|] == builder.joins;
    if !found {
      builder.joins := builder.joins + [c];
      return true;
    }
    return false;
  }

  method JoinReference(builder: Builder, src: string, ref: string)
    modifies builder`constraints
    ensures builder.constraints == old(builder.constraints) + ReferenceConstraints(src, ref)
  {
    var reference := Constraint(Equates(Column(ref, "parent_guid"), Column(src, "guid")), []);
    builder.constraints := builder.constraints + [reference];
    var notDeleted := Constraint(Comparison(ref + ".metadata_deleted = 0"), []);
    builder.constraints := builder.constraints + [notDeleted];
  }

  /** Joins the class that a link leads to. */
  method FollowLink(schema: Schema, builder: Builder, ref: PropertyRef, property: Property) returns (next: string)
    requires property.link.Some? && LinkResolves(schema, property)
    requires JoinsConsistent(builder.joins, builder.tables)
    modifies ref`table, builder`joins, builder`tables
    ensures JoinsConsistent(builder.joins, builder.tables) && next in schema
    ensures old(builder.joins) <= builder.joins && old(builder.tables) <= builder.tables
    ensures var c := LinkCondition(schema, property);
            builder.joins == AddedJoin(old(builder.joins), c) &&
            builder.tables == old(builder.tables) + {c.left.table, c.right.table} &&
            next == property.link.value.target && ref.table == schema[next].table
  {
    var c := LinkCondition(schema, property);
    builder.tables := builder.tables + {c.left.table};
    builder.tables := builder.tables + {c.right.table};
    var _ := AddJoin(builder, c);
    next := property.link.value.target;
    ref.table := schema[next].table;
  }

  /** Handles one token of a path; the result is false for an unknown property. */
  method SetPropertyAttr(schema: Schema, builder: Builder, ref: PropertyRef, klass: string, name: string,
                         doLink: bool)
    returns (ok: bool, next: string)
    requires WellFormed(schema) && klass in schema
    requires JoinsConsistent(builder.joins, builder.tables)
    modifies ref, builder`joins, builder`tables, builder`constraints
    modifies builder`blobJoinExists, builder`paramJoinExists, builder`selectDistinct
    ensures JoinsConsistent(builder.joins, builder.tables) && next in schema
    ensures old(builder.joins) <= builder.joins && old(builder.tables) <= builder.tables
    ensures ok <==> Known(schema, klass, name)
    ensures WalkOf(builder, ref, next) ==
            if ok then Stepped(schema, old(WalkOf(builder, ref, klass)), name, !doLink)
            else old(WalkOf(builder, ref, klass)).(owner := klass, property := name)
  {
    hide JoinsConsistent, AddedJoin, ReferenceConstraints, LinkCondition;
    ref.klass, ref.property := klass, name;
    if name == METADATA {
      return true, METADATA_CLASS;
    }
    if name == ATTACHMENT {
      if !builder.blobJoinExists {
        JoinReference(builder, ref.table, BLOB_TABLE);
        builder.blobJoinExists := true;
      }
      ref.table := BLOB_TABLE;
      return true, ATTACHMENT_CLASS;
    }
    if name == PARAMETER {
      if !builder.paramJoinExists {
        JoinReference(builder, ref.table, PARAMETER_TABLE);
        builder.paramJoinExists := true;
      }
      ref.table := PARAMETER_TABLE;
      builder.selectDistinct := true;
      return true, PARAMETER_CLASS;
    }
    if name !in schema[klass].properties {
      return false, klass;
    }
    var property := schema[klass].properties[name];
    if property.link.Some? && doLink {
      next := FollowLink(schema, builder, ref, property);
      return true, next;
    }
    ReferToProperty(schema, ref, klass, name);
    return true, klass;
  }

  method ReferToProperty(schema: Schema, ref: PropertyRef, klass: string, name: string)
    requires klass in schema && name in schema[klass].properties
    modifies ref`table, ref`field
    ensures var p := schema[klass].properties[name];
            ref.field == Some(if name == "guid" then "guid" else p.field) &&
            ref.table == if name == "guid" then schema[klass].table
                         else if p.table.Some? then p.table.value else old(ref.table)
  {
    var property := schema[klass].properties[name];
    if name == "guid" {
      ref.table := schema[klass].table;
      ref.field := Some("guid");
    } else {
      if property.table.Some? {
        ref.table := property.table.value;
      }
      ref.field := Some(property.field);
    }
  }

  // ---- Paths of links

  /**
   Every token but the last is a link property, no token is reserved, and each class on the way keeps
   its properties in its own table.
   */
  predicate IsLinkPath(schema: Schema, klass: string, tokens: seq<string>)
    decreases |tokens|
  {
    tokens != [] && klass in schema && !Reserved(tokens[0]) && tokens[0] in schema[klass].properties &&
    var p := schema[klass].properties[tokens[0]];
    p.table == Some(schema[klass].table) &&
    (|tokens| > 1 ==>
      p.link.Some? && LinkResolves(schema, p) &&
      LinkCondition(schema, p).right.table == schema[p.link.value.target].table &&
      IsLinkPath(schema, p.link.value.target, tokens[1..]))
  }

  function Target(schema: Schema, klass: string, token: string): string
    requires klass in schema && token in schema[klass].properties && schema[klass].properties[token].link.Some?
  {
    schema[klass].properties[token].link.value.target
  }

  function LinkJoins(schema: Schema, klass: string, tokens: seq<string>): seq<Condition>
    requires IsLinkPath(schema, klass, tokens)
    decreases |tokens|
  {
    if |tokens| == 1 then []
    else
      [LinkCondition(schema, schema[klass].properties[tokens[0]])] +
      LinkJoins(schema, Target(schema, klass, tokens[0]), tokens[1..])
  }

  function FinalColumn(schema: Schema, klass: string, tokens: seq<string>): Column
    requires IsLinkPath(schema, klass, tokens)
    decreases |tokens|
  {
    if |tokens| == 1 then
      Column(schema[klass].table, if tokens[0] == "guid" then "guid" else schema[klass].properties[tokens[0]].field)
    else FinalColumn(schema, Target(schema, klass, tokens[0]), tokens[1..])
  }

  function PathTables(schema: Schema, klass: string, tokens: seq<string>): seq<string>
    requires IsLinkPath(schema, klass, tokens)
    decreases |tokens|
  {
    [schema[klass].table] +
    (if |tokens| == 1 then [] else PathTables(schema, Target(schema, klass, tokens[0]), tokens[1..]))
  }

  function AddedJoins(joins: seq<Condition>, more: seq<Condition>): seq<Condition>
    decreases |more|
  {
    if more == [] then joins else AddedJoins(AddedJoin(joins, more[0]), more[1..])
  }

  function TablesOf(joins: seq<Condition>): set<string> {
    if joins == [] then {}
    else (if joins[0].Equates? then {joins[0].left.table, joins[0].right.table} else {}) + TablesOf(joins[1..])
  }

  /** Link paths are one case: their joins are added once each, and the last column is the one to compare. */
  lemma {:induction false} LinkPathThrough(schema: Schema, w: Walk, tokens: seq<string>)
    requires WellFormed(schema) && w.klass in schema && IsLinkPath(schema, w.klass, tokens)
    ensures var (ok, to) := Through(schema, w, tokens);
            ok && to.joins == AddedJoins(w.joins, LinkJoins(schema, w.klass, tokens)) &&
            to.tables == w.tables + TablesOf(LinkJoins(schema, w.klass, tokens)) && to.constraints == w.constraints &&
            to.field.Some? && Column(to.table, to.field.value) == FinalColumn(schema, w.klass, tokens)
    decreases |tokens|
  {
    hide WellFormed;
    if |tokens| > 1 {
      hide AddedJoin;
      LinkPathThrough(schema, Stepped(schema, w, tokens[0], false), tokens[1..]);
    } else {
      assert tokens[1..] == [];
    }
  }

  /** Over more than one token, the last class is one that a join leads to. */
  lemma {:induction false} FinalTableJoined(schema: Schema, klass: string, tokens: seq<string>)
    requires IsLinkPath(schema, klass, tokens) && |tokens| > 1
    ensures FinalColumn(schema, klass, tokens).table in TablesOf(LinkJoins(schema, klass, tokens))
    decreases |tokens|
  {
    var next := Target(schema, klass, tokens[0]);
    if |tokens| > 2 {
      FinalTableJoined(schema, next, tokens[1..]);
    } else {
      assert FinalColumn(schema, next, tokens[1..]).table == schema[next].table;
    }
  }

  lemma ThroughNext(schema: Schema, w: Walk, tokens: seq<string>, j: nat)
    requires WellFormed(schema) && w.klass in schema && j < |tokens|
    ensures Through(schema, w, tokens[j..]) ==
            if Known(schema, w.klass, tokens[j]) then
              Through(schema, Stepped(schema, w, tokens[j], j + 1 == |tokens|), tokens[j + 1..])
            else (false, w.(owner := w.klass, property := tokens[j]))
  {
    hide Stepped, WellFormed;
    assert tokens[j..][1..] == tokens[j + 1..];
  }

  method ParseTokens(schema: Schema, builder: Builder, ref: PropertyRef, klass: string, tokens: seq<string>)
    returns (ok: bool)
    requires WellFormed(schema) && klass in schema
    requires JoinsConsistent(builder.joins, builder.tables)
    modifies ref, builder`joins, builder`tables, builder`constraints
    modifies builder`blobJoinExists, builder`paramJoinExists, builder`selectDistinct
    ensures JoinsConsistent(builder.joins, builder.tables)
    ensures old(builder.joins) <= builder.joins && old(builder.tables) <= builder.tables
    ensures var (known, to) := Through(schema, old(WalkOf(builder, ref, klass)), tokens);
            ok == known && WalkOf(builder, ref, to.klass) == to
  {
    hide JoinsConsistent, WellFormed, Stepped, Through, Known, Reserved;
    ghost var start := WalkOf(builder, ref, klass);
    var current, j := klass, 0;
    assert tokens[0..] == tokens;
    while j < |tokens|
      invariant j <= |tokens| && current in schema
      invariant JoinsConsistent(builder.joins, builder.tables)
      invariant old(builder.joins) <= builder.joins && old(builder.tables) <= builder.tables
      invariant Through(schema, WalkOf(builder, ref, current), tokens[j..]) == Through(schema, start, tokens)
    {
      ThroughNext(schema, WalkOf(builder, ref, current), tokens, j);
      ok, current := SetPropertyAttr(schema, builder, ref, current, tokens[j], j + 1 != |tokens|);
      if !ok {
        return false;
      }
      j := j + 1;
    }
    assert tokens[j..] == [];
    NothingLeft(schema, WalkOf(builder, ref, current));
    return true;
  }

  lemma NothingLeft(schema: Schema, w: Walk)
    requires WellFormed(schema) && w.klass in schema
    ensures Through(schema, w, []) == (true, w)
  {
  }

  /** A property that is named without dots has a table; the FROM set takes no other. */
  predicate HasTable(schema: Schema, klass: string, name: string)
    requires klass in schema
  {
    Text.StrSplit(name, '.') == [name] && name in schema[klass].properties ==>
      schema[klass].properties[name].table.Some?
  }

  /**
   What a name without dots amounts to: its own column of the class's property, with the table among the
   FROM tables; no reserved name is looked for.
   */
  function Named(schema: Schema, w: Walk, name: string): (bool, Walk)
    requires w.klass in schema && HasTable(schema, w.klass, name) && Text.StrSplit(name, '.') == [name]
  {
    var at := w.(table := schema[w.klass].table);
    if name !in schema[w.klass].properties then (false, at)
    else
      var p := schema[w.klass].properties[name];
      (true, at.(owner := w.klass, property := name, table := p.table.value,
                 field := Some(if name == "guid" then "guid" else p.field), tables := w.tables + {p.table.value}))
  }

  lemma NamedFrom(schema: Schema, w: Walk, name: string)
    requires w.klass in schema && HasTable(schema, w.klass, name)
    ensures Text.StrSplit(name, '.') == [name] ==>
              Named(schema, w.(table := schema[w.klass].table), name) == Named(schema, w, name) &&
              Named(schema, w, name).1.klass == w.klass
  {
    hide Text.StrSplit;
  }

  /** What any name amounts to. */
  function Parsed(schema: Schema, w: Walk, name: string): (bool, Walk)
    requires WellFormed(schema) && w.klass in schema && HasTable(schema, w.klass, name)
  {
    var tokens := Text.StrSplit(name, '.');
    if |tokens| == 1 then
      OnlyToken(name);
      Named(schema, w, name)
    else if |tokens| > 3 then (false, w.(table := schema[w.klass].table))
    else Through(schema, w.(table := schema[w.klass].table), tokens)
  }

  lemma OnlyToken(name: string)
    requires |Text.StrSplit(name, '.')| == 1
    ensures Text.StrSplit(name, '.') == [name]
  {
    Text.JoinOfSplit(name, '.');
  }

  method ParseName(schema: Schema, builder: Builder, ref: PropertyRef, klass: string, name: string)
    returns (ok: bool)
    requires klass in schema && HasTable(schema, klass, name) && Text.StrSplit(name, '.') == [name]
    requires ref.table == schema[klass].table && JoinsConsistent(builder.joins, builder.tables)
    modifies ref, builder`tables
    ensures JoinsConsistent(builder.joins, builder.tables) && old(builder.tables) <= builder.tables
    ensures (ok, WalkOf(builder, ref, klass)) == Named(schema, old(WalkOf(builder, ref, klass)), name)
  {
    hide Text.StrSplit;
    if name !in schema[klass].properties {
      return false;
    }
    var property := schema[klass].properties[name];
    ref.field := Some(property.field);
    ref.table := property.table.value;
    builder.tables := builder.tables + {property.table.value};
    ref.klass, ref.property := klass, name;
    if name == "guid" {
      ref.field := Some("guid");
    }
    return true;
  }

  /** Parses a path; at most three tokens. */
  method ParseProperty(schema: Schema, builder: Builder, ref: PropertyRef, klass: string, name: string)
    returns (ok: bool)
    requires WellFormed(schema) && klass in schema
    requires HasTable(schema, klass, name)
    requires JoinsConsistent(builder.joins, builder.tables)
    modifies ref, builder`joins, builder`tables, builder`constraints
    modifies builder`blobJoinExists, builder`paramJoinExists, builder`selectDistinct
    ensures JoinsConsistent(builder.joins, builder.tables)
    ensures old(builder.joins) <= builder.joins && old(builder.tables) <= builder.tables
    ensures var (known, to) := Parsed(schema, old(WalkOf(builder, ref, klass)), name);
            ok == known && WalkOf(builder, ref, to.klass) == to
  {
    ghost var start := WalkOf(builder, ref, klass);
    ref.table := schema[klass].table;
    var tokens := Text.StrSplit(name, '.');
    hide JoinsConsistent, WellFormed, Through, Named, HasTable, Text.StrSplit;
    NamedFrom(schema, start, name);
    if |tokens| == 1 {
      OnlyToken(name);
      ok := ParseName(schema, builder, ref, klass, name);
      return ok;
    }
    if |tokens| > 3 {
      return false;
    }
    ok := ParseTokens(schema, builder, ref, klass, tokens);
  }

  /** On a link path, parsing adds the path's joins and tables and yields its last column. */
  lemma LinkPathParsed(schema: Schema, w: Walk, name: string)
    requires WellFormed(schema) && w.klass in schema && HasTable(schema, w.klass, name)
    requires |Text.StrSplit(name, '.')| <= 3 && IsLinkPath(schema, w.klass, Text.StrSplit(name, '.'))
    ensures var (ok, to) := Parsed(schema, w, name);
            var tokens := Text.StrSplit(name, '.');
            ok && to.joins == AddedJoins(w.joins, LinkJoins(schema, w.klass, tokens)) &&
            to.tables == w.tables + TablesOf(LinkJoins(schema, w.klass, tokens)) +
                         {FinalColumn(schema, w.klass, tokens).table} &&
            to.constraints == w.constraints &&
            to.field.Some? && Column(to.table, to.field.value) == FinalColumn(schema, w.klass, tokens)
  {
    var tokens := Text.StrSplit(name, '.');
    if |tokens| > 1 {
      hide LinkJoins, FinalColumn, TablesOf, AddedJoins, Through;
      LinkPathThrough(schema, w.(table := schema[w.klass].table), tokens);
      FinalTableJoined(schema, w.klass, tokens);
    } else {
      OnlyToken(name);
    }
  }

  // ---- What a parsed path selects

  type Row = map<string, string>
  type Database = map<string, set<Row>>
  /** One row for each table of the FROM list. */
  type Choice = map<string, Row>

  /** A column without a value is NULL, which equals nothing. */
  predicate SameValue(a: Row, f: string, b: Row, g: string) {
    f in a && g in b && a[f] == b[g]
  }

  predicate JoinHolds(c: Condition, choice: Choice) {
    c.Equates? && c.left.table in choice && c.right.table in choice &&
    SameValue(choice[c.left.table], c.left.field, choice[c.right.table], c.right.field)
  }

  function ValueOf(row: Row, field: string): Option<string> {
    if field in row then Some(row[field]) else None
  }

  predicate ChosenFrom(choice: Choice, tables: set<string>, db: Database) {
    choice.Keys == tables && forall t :: t in tables ==> t in db && choice[t] in db[t]
  }

  /** Every one of the tables has a row; if one has none, FROM selects nothing. */
  predicate HasRows(db: Database, tables: set<string>) {
    forall t :: t in tables ==> t in db && db[t] != {}
  }

  /** One row for each table, with row for the base table, such that every join and the comparison hold. */
  ghost predicate Selects(joins: seq<Condition>, tables: set<string>, base: string, final: Column, db: Database,
                          row: Row, test: Option<string> -> bool, choice: Choice)
  {
    ChosenFrom(choice, tables, db) && base in choice && choice[base] == row &&
    (forall c :: c in joins ==> JoinHolds(c, choice)) &&
    final.table in choice && test(ValueOf(choice[final.table], final.field))
  }

  /** Some choice of joined rows selects the row of the base table. */
  ghost predicate Selected(joins: seq<Condition>, tables: set<string>, base: string, final: Column, db: Database,
                           row: Row, test: Option<string> -> bool)
  {
    exists choice: Choice :: Selects(joins, tables, base, final, db, row, test, choice)
  }

  ghost predicate RowsFrom(db: Database, tables: seq<string>, rows: seq<Row>) {
    |rows| == |tables| && forall i :: 0 <= i < |tables| ==> tables[i] in db && rows[i] in db[tables[i]]
  }

  /** Each row has in its link column what the next one has in the link's target column. */
  predicate Linked(joins: seq<Condition>, rows: seq<Row>) {
    |rows| == |joins| + 1 &&
    forall i :: 0 <= i < |joins| ==>
      joins[i].Equates? && SameValue(rows[i], joins[i].left.field, rows[i + 1], joins[i].right.field)
  }

  /** The rows are what following the path's links from row may lead through, to one that passes the test. */
  ghost predicate Leads(schema: Schema, db: Database, klass: string, tokens: seq<string>, row: Row,
                        test: Option<string> -> bool, rows: seq<Row>)
    requires IsLinkPath(schema, klass, tokens)
  {
    RowsFrom(db, PathTables(schema, klass, tokens), rows) && Linked(LinkJoins(schema, klass, tokens), rows) &&
    rows[0] == row && test(ValueOf(rows[|rows| - 1], FinalColumn(schema, klass, tokens).field))
  }

  /** Following the links row by row reaches a row that passes the test. */
  ghost predicate Reaches(schema: Schema, db: Database, klass: string, tokens: seq<string>, row: Row,
                          test: Option<string> -> bool)
    requires IsLinkPath(schema, klass, tokens)
  {
    exists rows: seq<Row> :: Leads(schema, db, klass, tokens, row, test, rows)
  }

  predicate OneRowPerTable(tables: seq<string>, rows: seq<Row>) {
    |tables| == |rows| && forall i, j :: 0 <= i < j < |tables| && tables[i] == tables[j] ==> rows[i] == rows[j]
  }

  /** The same along rows that are one and the same wherever the path comes back to a table. */
  ghost predicate ReachesInPlace(schema: Schema, db: Database, klass: string, tokens: seq<string>, row: Row,
                                 test: Option<string> -> bool)
    requires IsLinkPath(schema, klass, tokens)
  {
    exists rows: seq<Row> ::
      Leads(schema, db, klass, tokens, row, test, rows) && OneRowPerTable(PathTables(schema, klass, tokens), rows)
  }

  predicate Distinct(s: seq<string>) {
    forall i, j :: 0 <= i < j < |s| ==> s[i] != s[j]
  }

  function Members(s: seq<string>): set<string> {
    set t | t in s
  }

  /** Join i leads from table i to the next one. */
  predicate Along(joins: seq<Condition>, tables: seq<string>) {
    |tables| == |joins| + 1 &&
    forall i :: 0 <= i < |joins| ==>
      joins[i].Equates? && joins[i].left.table == tables[i] && joins[i].right.table == tables[i + 1]
  }

  lemma {:induction false} JoinsAlong(schema: Schema, klass: string, tokens: seq<string>)
    requires IsLinkPath(schema, klass, tokens)
    ensures var tables := PathTables(schema, klass, tokens);
            Along(LinkJoins(schema, klass, tokens), tables) && tables[0] == schema[klass].table &&
            FinalColumn(schema, klass, tokens).table == tables[|tables| - 1]
    decreases |tokens|
  {
    if |tokens| > 1 {
      JoinsAlong(schema, Target(schema, klass, tokens[0]), tokens[1..]);
    }
  }

  lemma {:induction false} TablesAlong(joins: seq<Condition>, tables: seq<string>)
    requires Along(joins, tables)
    ensures {tables[0]} + TablesOf(joins) == Members(tables)
    decreases |joins|
  {
    assert tables == [tables[0]] + tables[1..];
    assert Members(tables) == {tables[0]} + Members(tables[1..]);
    if joins == [] {
      assert tables[1..] == [];
    } else {
      TablesAlong(joins[1..], tables[1..]);
      assert {tables[0]} + TablesOf(joins) == {tables[0]} + ({tables[1]} + TablesOf(joins[1..]));
    }
  }

  lemma LastTable(joins: seq<Condition>, tables: seq<string>)
    requires Along(joins, tables)
    ensures TablesOf(joins) + {tables[|tables| - 1]} == Members(tables)
  {
    TablesAlong(joins, tables);
    assert tables[|tables| - 1] in Members(tables);
    if joins != [] {
      assert tables[0] in TablesOf(joins);
    }
  }

  lemma {:induction false} AddedMembers(joins: seq<Condition>, more: seq<Condition>, c: Condition)
    ensures c in AddedJoins(joins, more) <==> c in joins || c in more
    decreases |more|
  {
    if more != [] {
      AddedMembers(AddedJoin(joins, more[0]), more[1..], c);
      assert more == [more[0]] + more[1..];
    }
  }

  /** A choice that satisfies the joins is a chain of linked rows, read off along the path. */
  lemma ChoiceIsChain(joins: seq<Condition>, tables: seq<string>, from: set<string>, db: Database, choice: Choice)
    returns (rows: seq<Row>)
    requires Along(joins, tables) && Members(tables) <= from && ChosenFrom(choice, from, db)
    requires forall c :: c in joins ==> JoinHolds(c, choice)
    ensures RowsFrom(db, tables, rows) && Linked(joins, rows) && OneRowPerTable(tables, rows)
    ensures rows[0] == choice[tables[0]] && rows[|joins|] == choice[tables[|joins|]]
  {
    assert forall i :: 0 <= i < |tables| ==> tables[i] in Members(tables);
    rows := seq(|tables|, i requires 0 <= i < |tables| => choice[tables[i]]);
    forall i | 0 <= i < |joins|
      ensures SameValue(rows[i], joins[i].left.field, rows[i + 1], joins[i].right.field)
    {
      assert JoinHolds(joins[i], choice);
    }
  }

  /** A chain that uses one row for each table is a choice, with any rows for the other tables. */
  lemma ChainIsChoice(joins: seq<Condition>, tables: seq<string>, from: set<string>, db: Database, rows: seq<Row>)
    returns (choice: Choice)
    requires Along(joins, tables) && RowsFrom(db, tables, rows) && Linked(joins, rows) && OneRowPerTable(tables, rows)
    requires Members(tables) <= from && HasRows(db, from)
    ensures ChosenFrom(choice, from, db) && forall c :: c in joins ==> JoinHolds(c, choice)
    ensures forall i :: 0 <= i < |tables| ==> tables[i] in choice && choice[tables[i]] == rows[i]
  {
    choice := ChosenRows(tables, from, db, rows);
    hide ChosenFrom, RowsFrom, OneRowPerTable, SameValue, HasRows;
    forall c | c in joins
      ensures JoinHolds(c, choice)
    {
      var i :| 0 <= i < |joins| && joins[i] == c;
      assert choice[tables[i]] == rows[i] && choice[tables[i + 1]] == rows[i + 1];
    }
  }

  lemma ChosenRows(tables: seq<string>, from: set<string>, db: Database, rows: seq<Row>) returns (choice: Choice)
    requires RowsFrom(db, tables, rows) && OneRowPerTable(tables, rows)
    requires Members(tables) <= from && HasRows(db, from)
    ensures ChosenFrom(choice, from, db)
    ensures forall i :: 0 <= i < |tables| ==> tables[i] in choice && choice[tables[i]] == rows[i]
  {
    choice := map t | t in from :: if t in tables then rows[PlaceOf(tables, t)] else SomeRow(db[t]);
    forall i | 0 <= i < |tables|
      ensures tables[i] in choice && choice[tables[i]] == rows[i]
    {
      assert tables[i] in Members(tables);
      var k := PlaceOf(tables, tables[i]);
      assert tables[k] == tables[i];
    }
  }

  ghost function SomeRow(rows: set<Row>): (row: Row)
    requires rows != {}
    ensures row in rows
  {
    var row :| row in rows;
    row
  }

  function PlaceOf(s: seq<string>, t: string): (i: nat)
    requires t in s
    ensures i < |s| && s[i] == t
  {
    if s[0] == t then 0 else 1 + PlaceOf(s[1..], t)
  }

  /** The join list is the path's, and the tables are the path's and the class's. */
  ghost predicate EmittedFor(schema: Schema, klass: string, tokens: seq<string>, joins: seq<Condition>,
                             tables: set<string>)
    requires IsLinkPath(schema, klass, tokens)
  {
    (forall c :: c in joins <==> c in LinkJoins(schema, klass, tokens)) &&
    tables == Members(PathTables(schema, klass, tokens)) + schema[klass].tables
  }

  /** What parsing a link path into a new builder leaves there is what belongs to the path. */
  lemma ParsedIsEmitted(schema: Schema, klass: string, tokens: seq<string>)
    requires IsLinkPath(schema, klass, tokens)
    ensures var joins := LinkJoins(schema, klass, tokens);
            EmittedFor(schema, klass, tokens, AddedJoins([], joins),
                       schema[klass].tables + TablesOf(joins) + {FinalColumn(schema, klass, tokens).table})
  {
    hide LinkJoins, PathTables, TablesOf, AddedJoins, FinalColumn, IsLinkPath;
    var joins, tables := LinkJoins(schema, klass, tokens), PathTables(schema, klass, tokens);
    JoinsAlong(schema, klass, tokens);
    TablesAlong(joins, tables);
    LastTable(joins, tables);
    forall c
      ensures c in AddedJoins([], joins) <==> c in joins
    {
      AddedMembers([], joins, c);
    }
  }

  /**
   On any link path the emitted joins and tables select exactly the rows from which the links lead to a
   match through rows that are the same wherever the path comes back to a table, unless a table of the
   class has no row at all.
   */
  lemma PathSelects(schema: Schema, klass: string, tokens: seq<string>, joins: seq<Condition>, tables: set<string>,
                    db: Database, row: Row, test: Option<string> -> bool)
    requires IsLinkPath(schema, klass, tokens) && EmittedFor(schema, klass, tokens, joins, tables)
    ensures Selected(joins, tables, schema[klass].table, FinalColumn(schema, klass, tokens), db, row, test) <==>
            ReachesInPlace(schema, db, klass, tokens, row, test) && HasRows(db, schema[klass].tables)
  {
    var base, final := schema[klass].table, FinalColumn(schema, klass, tokens);
    hide LinkJoins, PathTables, FinalColumn, IsLinkPath, JoinHolds, RowsFrom, Linked, ChosenFrom, OneRowPerTable;
    hide HasRows;
    var links, along := LinkJoins(schema, klass, tokens), PathTables(schema, klass, tokens);
    JoinsAlong(schema, klass, tokens);
    if Selected(joins, tables, base, final, db, row, test) {
      var choice: Choice :| Selects(joins, tables, base, final, db, row, test, choice);
      ChosenHasRows(choice, tables, db);
      HasMoreRows(db, Members(along), schema[klass].tables);
      var rows := ChoiceIsChain(links, along, tables, db, choice);
      LinkedLength(links, rows);
      assert Leads(schema, db, klass, tokens, row, test, rows);
    }
    if ReachesInPlace(schema, db, klass, tokens, row, test) && HasRows(db, schema[klass].tables) {
      var rows: seq<Row> :| Leads(schema, db, klass, tokens, row, test, rows) && OneRowPerTable(along, rows);
      LinkedLength(links, rows);
      RowsAreThere(db, along, rows);
      HasMoreRows(db, Members(along), schema[klass].tables);
      var choice := ChainIsChoice(links, along, tables, db, rows);
      assert Selects(joins, tables, base, final, db, row, test, choice);
    }
  }

  lemma ChosenHasRows(choice: Choice, tables: set<string>, db: Database)
    requires ChosenFrom(choice, tables, db)
    ensures HasRows(db, tables)
  {
  }

  lemma HasMoreRows(db: Database, tables: set<string>, more: set<string>)
    ensures HasRows(db, tables + more) <==> HasRows(db, tables) && HasRows(db, more)
  {
  }

  lemma RowsAreThere(db: Database, tables: seq<string>, rows: seq<Row>)
    requires RowsFrom(db, tables, rows)
    ensures HasRows(db, Members(tables))
  {
  }

  lemma LinkedLength(joins: seq<Condition>, rows: seq<Row>)
    requires Linked(joins, rows)
    ensures |rows| == |joins| + 1
  {
  }

  /** Over distinct tables they select exactly the rows whose links lead to a match. */
  lemma PathNavigates(schema: Schema, klass: string, tokens: seq<string>, joins: seq<Condition>, tables: set<string>,
                      db: Database, row: Row, test: Option<string> -> bool)
    requires IsLinkPath(schema, klass, tokens) && EmittedFor(schema, klass, tokens, joins, tables)
    requires Distinct(PathTables(schema, klass, tokens))
    ensures Selected(joins, tables, schema[klass].table, FinalColumn(schema, klass, tokens), db, row, test) <==>
            Reaches(schema, db, klass, tokens, row, test) && HasRows(db, schema[klass].tables)
  {
    hide LinkJoins, FinalColumn, IsLinkPath, Linked, PathTables, Distinct;
    PathSelects(schema, klass, tokens, joins, tables, db, row, test);
    InPlaceIfDistinct(schema, db, klass, tokens, row, test);
  }

  lemma InPlaceIfDistinct(schema: Schema, db: Database, klass: string, tokens: seq<string>, row: Row,
                          test: Option<string> -> bool)
    requires IsLinkPath(schema, klass, tokens) && Distinct(PathTables(schema, klass, tokens))
    ensures ReachesInPlace(schema, db, klass, tokens, row, test) <==> Reaches(schema, db, klass, tokens, row, test)
  {
    hide LinkJoins, FinalColumn, IsLinkPath, Linked, PathTables;
    if Reaches(schema, db, klass, tokens, row, test) {
      var rows: seq<Row> :| Leads(schema, db, klass, tokens, row, test, rows);
      assert OneRowPerTable(PathTables(schema, klass, tokens), rows);
    }
  }

  /**
   For every row and test, and every database with rows in the class's tables, the joins select the rows
   that the links lead on from in place; from other databases they select none.
   */
  ghost predicate SelectsInPlace(schema: Schema, klass: string, tokens: seq<string>, joins: seq<Condition>,
                                 tables: set<string>, final: Column)
    requires IsLinkPath(schema, klass, tokens)
  {
    forall db: Database, row: Row, test: Option<string> -> bool ::
      Selected(joins, tables, schema[klass].table, final, db, row, test) <==>
      ReachesInPlace(schema, db, klass, tokens, row, test) && HasRows(db, schema[klass].tables)
  }

  /** The same with the rows from which the links lead to a match, in place or not. */
  ghost predicate Navigates(schema: Schema, klass: string, tokens: seq<string>, joins: seq<Condition>,
                            tables: set<string>, final: Column)
    requires IsLinkPath(schema, klass, tokens)
  {
    forall db: Database, row: Row, test: Option<string> -> bool ::
      Selected(joins, tables, schema[klass].table, final, db, row, test) <==>
      Reaches(schema, db, klass, tokens, row, test) && HasRows(db, schema[klass].tables)
  }

  lemma EmittedSelects(schema: Schema, klass: string, tokens: seq<string>, joins: seq<Condition>, tables: set<string>)
    requires IsLinkPath(schema, klass, tokens) && EmittedFor(schema, klass, tokens, joins, tables)
    ensures SelectsInPlace(schema, klass, tokens, joins, tables, FinalColumn(schema, klass, tokens))
    ensures Distinct(PathTables(schema, klass, tokens)) ==>
              Navigates(schema, klass, tokens, joins, tables, FinalColumn(schema, klass, tokens))
  {
    var base, final := schema[klass].table, FinalColumn(schema, klass, tokens);
    hide LinkJoins, PathTables, FinalColumn, IsLinkPath, EmittedFor, Selected, Reaches, ReachesInPlace, Distinct;
    hide HasRows;
    forall db: Database, row: Row, test: Option<string> -> bool
      ensures Selected(joins, tables, base, final, db, row, test) <==>
              ReachesInPlace(schema, db, klass, tokens, row, test) && HasRows(db, schema[klass].tables)
    {
      PathSelects(schema, klass, tokens, joins, tables, db, row, test);
    }
    if Distinct(PathTables(schema, klass, tokens)) {
      forall db: Database, row: Row, test: Option<string> -> bool
        ensures Selected(joins, tables, base, final, db, row, test) <==>
                Reaches(schema, db, klass, tokens, row, test) && HasRows(db, schema[klass].tables)
      {
        PathNavigates(schema, klass, tokens, joins, tables, db, row, test);
      }
    }
  }

  /** One link path parsed into a new builder: what the builder then holds selects what the links reach. */
  method ParsePath(schema: Schema, klass: string, name: string, deletedField: Option<string>)
    returns (builder: Builder, ref: PropertyRef, ok: bool)
    requires WellFormed(schema) && klass in schema && HasTable(schema, klass, name)
    ensures fresh(builder) && fresh(ref) && JoinsConsistent(builder.joins, builder.tables)
    ensures builder.table == schema[klass].table
    ensures var tokens := Text.StrSplit(name, '.');
            |tokens| <= 3 && IsLinkPath(schema, klass, tokens) ==>
              ok && ref.field.Some? &&
              var final := Column(ref.table, ref.field.value);
              final == FinalColumn(schema, klass, tokens) &&
              EmittedFor(schema, klass, tokens, builder.joins, builder.tables) &&
              SelectsInPlace(schema, klass, tokens, builder.joins, builder.tables, final) &&
              (Distinct(PathTables(schema, klass, tokens)) ==>
                Navigates(schema, klass, tokens, builder.joins, builder.tables, final))
  {
    builder := new Builder(schema[klass].table, schema[klass].tables, deletedField);
    ref := new PropertyRef(klass);
    hide LinkJoins, PathTables, TablesOf, AddedJoins, FinalColumn, IsLinkPath, EmittedFor, Navigates, SelectsInPlace;
    hide Distinct, WellFormed, HasTable, Parsed;
    ghost var start := WalkOf(builder, ref, klass);
    ok := ParseProperty(schema, builder, ref, klass, name);
    ghost var tokens := Text.StrSplit(name, '.');
    if |tokens| <= 3 && IsLinkPath(schema, klass, tokens) {
      LinkPathParsed(schema, start, name);
      ParsedIsEmitted(schema, klass, tokens);
      EmittedSelects(schema, klass, tokens, builder.joins, builder.tables);
    }
  }

  /** Any names, one after the other, parsed into one new builder. */
  method ParseAll(schema: Schema, klass: string, names: seq<string>, deletedField: Option<string>)
    returns (builder: Builder, oks: seq<bool>)
    requires WellFormed(schema) && klass in schema
    requires forall i :: 0 <= i < |names| ==> HasTable(schema, klass, names[i])
    ensures fresh(builder) && |oks| == |names| && JoinsConsistent(builder.joins, builder.tables)
    ensures forall i :: 0 <= i < |names| ==> Holds(schema, klass, names[i], builder.joins, builder.tables)
  {
    hide JoinsConsistent, WellFormed, Parsed, Named, Through, Stepped, AddedJoins, AddedJoin, Text.StrSplit;
    builder := new Builder(schema[klass].table, schema[klass].tables, deletedField);
    oks := [];
    assert JoinsConsistent(builder.joins, builder.tables) by {
      NoJoinsConsistent(builder.tables);
    }
    for i := 0 to |names|
      invariant |oks| == i && fresh(builder) && JoinsConsistent(builder.joins, builder.tables)
      invariant forall k :: 0 <= k < i ==> Holds(schema, klass, names[k], builder.joins, builder.tables)
    {
      var ref := new PropertyRef(klass);
      ghost var joins, tables, start := builder.joins, builder.tables, WalkOf(builder, ref, klass);
      var ok := ParseProperty(schema, builder, ref, klass, names[i]);
      PathParsed(schema, start, names[i]);
      PathHeld(schema, klass, names[i], joins, tables, builder.joins, builder.tables);
      HoldsStay(schema, klass, names[..i], joins, tables, builder.joins, builder.tables);
      oks := oks + [ok];
    }
  }

  lemma NoJoinsConsistent(tables: set<string>)
    ensures JoinsConsistent([], tables)
  {
  }

  /** If the name is a link path, its joins are in the list and its tables in the FROM set. */
  ghost predicate Holds(schema: Schema, klass: string, name: string, joins: seq<Condition>, tables: set<string>) {
    var tokens := Text.StrSplit(name, '.');
    |tokens| <= 3 && IsLinkPath(schema, klass, tokens) ==>
      (forall c :: c in LinkJoins(schema, klass, tokens) ==> c in joins) &&
      TablesOf(LinkJoins(schema, klass, tokens)) + {FinalColumn(schema, klass, tokens).table} <= tables
  }

  lemma PathParsed(schema: Schema, w: Walk, name: string)
    requires WellFormed(schema) && w.klass in schema && HasTable(schema, w.klass, name)
    ensures var (_, to) := Parsed(schema, w, name);
            var tokens := Text.StrSplit(name, '.');
            |tokens| <= 3 && IsLinkPath(schema, w.klass, tokens) ==>
              to.joins == AddedJoins(w.joins, LinkJoins(schema, w.klass, tokens)) &&
              to.tables == w.tables + TablesOf(LinkJoins(schema, w.klass, tokens)) +
                           {FinalColumn(schema, w.klass, tokens).table}
  {
    hide WellFormed, HasTable, Parsed, LinkJoins, TablesOf, FinalColumn;
    if |Text.StrSplit(name, '.')| <= 3 && IsLinkPath(schema, w.klass, Text.StrSplit(name, '.')) {
      LinkPathParsed(schema, w, name);
    }
  }

  lemma PathHeld(schema: Schema, klass: string, name: string, before: seq<Condition>, tables0: set<string>,
                 joins: seq<Condition>, tables: set<string>)
    requires var tokens := Text.StrSplit(name, '.');
             |tokens| <= 3 && IsLinkPath(schema, klass, tokens) ==>
               joins == AddedJoins(before, LinkJoins(schema, klass, tokens)) &&
               tables == tables0 + TablesOf(LinkJoins(schema, klass, tokens)) +
                         {FinalColumn(schema, klass, tokens).table}
    ensures Holds(schema, klass, name, joins, tables)
  {
    hide LinkJoins, TablesOf, AddedJoins, FinalColumn, IsLinkPath;
    var tokens := Text.StrSplit(name, '.');
    if |tokens| <= 3 && IsLinkPath(schema, klass, tokens) {
      forall c | c in LinkJoins(schema, klass, tokens)
        ensures c in joins
      {
        AddedMembers(before, LinkJoins(schema, klass, tokens), c);
      }
    }
  }

  lemma HoldsStay(schema: Schema, klass: string, names: seq<string>, before: seq<Condition>, tables0: set<string>,
                  joins: seq<Condition>, tables: set<string>)
    requires before <= joins && tables0 <= tables
    requires forall k :: 0 <= k < |names| ==> Holds(schema, klass, names[k], before, tables0)
    ensures forall k :: 0 <= k < |names| ==> Holds(schema, klass, names[k], joins, tables)
  {
    hide LinkJoins, TablesOf, FinalColumn, IsLinkPath;
    assert forall c :: c in before ==> c in joins;
  }

  // ---- A link back into its own table

  /** Nodes with a link to a parent node of the same table. */
  function TreeSchema(): Schema {
    map["node" := Class("nodes", {"nodes"}, map[
      "up" := Property(Some("nodes"), "up", Some(Link("node", "id"))),
      "id" := Property(Some("nodes"), "id", None),
      "name" := Property(Some("nodes"), "name", None)])]
  }

  function Child(): Row {
    map["id" := "2", "up" := "1", "name" := "child"]
  }

  function Parent(): Row {
    map["id" := "1", "name" := "parent"]
  }

  /** The distinctness of the tables matters: a row whose parent matches is reached but not selected. */
  lemma OwnTableIsNotNavigated()
    ensures var tokens := ["up", "name"];
            var db: Database := map["nodes" := {Child(), Parent()}];
            var test := (v: Option<string>) => v == Some("parent");
            IsLinkPath(TreeSchema(), "node", tokens) &&
            Reaches(TreeSchema(), db, "node", tokens, Child(), test) &&
            forall joins, tables | EmittedFor(TreeSchema(), "node", tokens, joins, tables) ::
              !Selected(joins, tables, "nodes", FinalColumn(TreeSchema(), "node", tokens), db, Child(), test)
  {
    var tokens := ["up", "name"];
    var db: Database := map["nodes" := {Child(), Parent()}];
    var test := (v: Option<string>) => v == Some("parent");
    assert tokens[1..] == ["name"];
    assert IsLinkPath(TreeSchema(), "node", ["name"]);
    assert IsLinkPath(TreeSchema(), "node", tokens);
    assert PathTables(TreeSchema(), "node", tokens) == ["nodes", "nodes"];
    assert LinkJoins(TreeSchema(), "node", tokens) == [Equates(Column("nodes", "up"), Column("nodes", "id"))];
    assert Leads(TreeSchema(), db, "node", tokens, Child(), test, [Child(), Parent()]);
    assert !ReachesInPlace(TreeSchema(), db, "node", tokens, Child(), test);
    forall joins, tables | EmittedFor(TreeSchema(), "node", tokens, joins, tables)
      ensures !Selected(joins, tables, "nodes", FinalColumn(TreeSchema(), "node", tokens), db, Child(), test)
    {
      PathSelects(TreeSchema(), "node", tokens, joins, tables, db, Child(), test);
    }
  }
}
