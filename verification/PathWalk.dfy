/**
 Which class each token of a dotted path belongs to, and what that makes of any path: when it is known, and
 which column, joins and constraints come out.
 */
module PathWalk {
  import opened Sql
  import opened Wrappers
  import opened GroupConstraint
  import opened LinkPath
  import Text

  // ---- The class of each token

  /** Where a token leads: a reserved name to its class, a link to its target, any other name nowhere else. */
  function Leading(schema: Schema, klass: string, name: string): string {
    if name == METADATA then METADATA_CLASS
    else if name == ATTACHMENT then ATTACHMENT_CLASS
    else if name == PARAMETER then PARAMETER_CLASS
    else if klass in schema && name in schema[klass].properties && schema[klass].properties[name].link.Some? then
      schema[klass].properties[name].link.value.target
    else klass
  }

  /** The class that token i belongs to: the one that the tokens before it lead to. */
  function ClassAt(schema: Schema, klass: string, tokens: seq<string>, i: nat): string
    requires i <= |tokens|
  {
    if i == 0 then klass else Leading(schema, ClassAt(schema, klass, tokens, i - 1), tokens[i - 1])
  }

  predicate KnownAt(schema: Schema, klass: string, tokens: seq<string>, i: nat)
    requires i < |tokens|
  {
    var c := ClassAt(schema, klass, tokens, i);
    c in schema && Known(schema, c, tokens[i])
  }

  lemma {:induction false} ClassAfterFirst(schema: Schema, klass: string, tokens: seq<string>, i: nat)
    requires 0 < i <= |tokens|
    ensures ClassAt(schema, klass, tokens, i) ==
            ClassAt(schema, Leading(schema, klass, tokens[0]), tokens[1..], i - 1)
  {
    if i > 1 {
      ClassAfterFirst(schema, klass, tokens, i - 1);
      assert tokens[1..][i - 2] == tokens[i - 1];
    }
  }

  lemma SteppedClass(schema: Schema, w: Walk, name: string)
    requires WellFormed(schema) && w.klass in schema && Known(schema, w.klass, name)
    ensures Stepped(schema, w, name, false).klass == Leading(schema, w.klass, name)
    ensures Stepped(schema, w, name, false).owner == Stepped(schema, w, name, true).owner == w.klass
  {
  }

  /** A path is known exactly if each of its tokens is reserved or a property of the class it belongs to. */
  lemma {:induction false} ThroughKnown(schema: Schema, w: Walk, tokens: seq<string>)
    requires WellFormed(schema) && w.klass in schema
    ensures Through(schema, w, tokens).0 <==>
            forall i :: 0 <= i < |tokens| ==> KnownAt(schema, w.klass, tokens, i)
    decreases |tokens|
  {
    hide WellFormed, Stepped, Leading;
    if tokens == [] {
    } else if !Known(schema, w.klass, tokens[0]) {
      assert !KnownAt(schema, w.klass, tokens, 0);
    } else if |tokens| == 1 {
      assert tokens[1..] == [];
      assert KnownAt(schema, w.klass, tokens, 0);
    } else {
      var next := Stepped(schema, w, tokens[0], false);
      SteppedClass(schema, w, tokens[0]);
      ThroughKnown(schema, next, tokens[1..]);
      assert KnownAt(schema, w.klass, tokens, 0);
      forall i | 0 < i < |tokens|
        ensures KnownAt(schema, w.klass, tokens, i) <==> KnownAt(schema, next.klass, tokens[1..], i - 1)
      {
        ClassAfterFirst(schema, w.klass, tokens, i);
      }
      if forall i :: 0 <= i < |tokens| ==> KnownAt(schema, w.klass, tokens, i) {
        forall i | 0 <= i < |tokens[1..]|
          ensures KnownAt(schema, next.klass, tokens[1..], i)
        {
          assert KnownAt(schema, w.klass, tokens, i + 1);
        }
      }
    }
  }

  // ---- What comes out of a known path

  /** The table that the constraint refers to before token i. */
  function TableAt(schema: Schema, klass: string, table: string, tokens: seq<string>, i: nat): string
    requires i <= |tokens|
  {
    if i == 0 then table
    else
      var before, c, name := TableAt(schema, klass, table, tokens, i - 1), ClassAt(schema, klass, tokens, i - 1),
                             tokens[i - 1];
      if name == METADATA then before
      else if name == ATTACHMENT then BLOB_TABLE
      else if name == PARAMETER then PARAMETER_TABLE
      else if c !in schema || name !in schema[c].properties then before
      else if schema[c].properties[name].link.Some? && Leading(schema, c, name) in schema then
        schema[Leading(schema, c, name)].table
      else OwnTable(schema, c, name, before)
  }

  /** The table of a property that is compared and not followed. */
  function OwnTable(schema: Schema, c: string, name: string, before: string): string
    requires c in schema && name in schema[c].properties
  {
    if name == "guid" then schema[c].table
    else if schema[c].properties[name].table.Some? then schema[c].properties[name].table.value else before
  }

  predicate Follows(schema: Schema, klass: string, tokens: seq<string>, i: nat)
    requires i < |tokens|
  {
    var c := ClassAt(schema, klass, tokens, i);
    !Reserved(tokens[i]) && c in schema && tokens[i] in schema[c].properties &&
    schema[c].properties[tokens[i]].link.Some?
  }

  /** The conditions of the links among the first i tokens. */
  function LinksUpTo(schema: Schema, klass: string, tokens: seq<string>, i: nat): seq<Condition>
    requires WellFormed(schema) && i <= |tokens|
  {
    if i == 0 then []
    else
      LinksUpTo(schema, klass, tokens, i - 1) +
      if Follows(schema, klass, tokens, i - 1) then
        [LinkCondition(schema, schema[ClassAt(schema, klass, tokens, i - 1)].properties[tokens[i - 1]])]
      else []
  }

  /** The constraints of the first attachment and the first parameter token among the first i, if not there before. */
  function ReferencesUpTo(schema: Schema, klass: string, table: string, blobs: bool, params: bool,
                          tokens: seq<string>, i: nat): seq<Constraint>
    requires i <= |tokens|
  {
    if i == 0 then []
    else
      ReferencesUpTo(schema, klass, table, blobs, params, tokens, i - 1) +
      if tokens[i - 1] == ATTACHMENT && !blobs && ATTACHMENT !in tokens[..i - 1] then
        ReferenceConstraints(TableAt(schema, klass, table, tokens, i - 1), BLOB_TABLE)
      else if tokens[i - 1] == PARAMETER && !params && PARAMETER !in tokens[..i - 1] then
        ReferenceConstraints(TableAt(schema, klass, table, tokens, i - 1), PARAMETER_TABLE)
      else []
  }

  /** Where the walk stands after i tokens that are not the last. */
  predicate StandsAt(schema: Schema, w: Walk, tokens: seq<string>, i: nat, at: Walk)
    requires WellFormed(schema) && i <= |tokens|
  {
    at.klass == ClassAt(schema, w.klass, tokens, i) && at.table == TableAt(schema, w.klass, w.table, tokens, i) &&
    JoinsAt(schema, w, tokens, i, at) && ReferencesAt(schema, w, tokens, i, at)
  }

  predicate JoinsAt(schema: Schema, w: Walk, tokens: seq<string>, i: nat, at: Walk)
    requires WellFormed(schema) && i <= |tokens|
  {
    at.joins == AddedJoins(w.joins, LinksUpTo(schema, w.klass, tokens, i)) &&
    at.tables == w.tables + TablesOf(LinksUpTo(schema, w.klass, tokens, i))
  }

  predicate ReferencesAt(schema: Schema, w: Walk, tokens: seq<string>, i: nat, at: Walk)
    requires i <= |tokens|
  {
    at.constraints == w.constraints + ReferencesUpTo(schema, w.klass, w.table, w.blobs, w.params, tokens, i) &&
    at.blobs == (w.blobs || ATTACHMENT in tokens[..i]) && at.params == (w.params || PARAMETER in tokens[..i]) &&
    at.distinct == (w.distinct || PARAMETER in tokens[..i])
  }

  lemma {:induction false} AddedOneMore(joins: seq<Condition>, more: seq<Condition>, c: Condition)
    ensures AddedJoins(joins, more + [c]) == AddedJoin(AddedJoins(joins, more), c)
    decreases |more|
  {
    if more == [] {
      assert [] + [c] == [c] && [c][1..] == [];
    } else {
      AddedOneMore(AddedJoin(joins, more[0]), more[1..], c);
      assert (more + [c])[1..] == more[1..] + [c];
    }
  }

  lemma {:induction false} TablesOneMore(more: seq<Condition>, c: Condition)
    requires c.Equates?
    ensures TablesOf(more + [c]) == TablesOf(more) + {c.left.table, c.right.table}
  {
    if more == [] {
      assert [] + [c] == [c] && [c][1..] == [];
    } else {
      TablesOneMore(more[1..], c);
      assert (more + [c])[1..] == more[1..] + [c];
    }
  }

  lemma StandsNext(schema: Schema, w: Walk, tokens: seq<string>, i: nat, at: Walk)
    requires WellFormed(schema) && i < |tokens| && at.klass in schema && Known(schema, at.klass, tokens[i])
    requires StandsAt(schema, w, tokens, i, at)
    ensures StandsAt(schema, w, tokens, i + 1, Stepped(schema, at, tokens[i], false))
  {
    hide JoinsAt, ReferencesAt, ReferenceConstraints, AddedJoin, LinkCondition;
    JoinsNext(schema, w, tokens, i, at);
    ReferencesNext(schema, w, tokens, i, at);
  }

  lemma JoinsNext(schema: Schema, w: Walk, tokens: seq<string>, i: nat, at: Walk)
    requires WellFormed(schema) && i < |tokens| && at.klass in schema && Known(schema, at.klass, tokens[i])
    requires StandsAt(schema, w, tokens, i, at)
    ensures JoinsAt(schema, w, tokens, i + 1, Stepped(schema, at, tokens[i], false))
  {
    hide AddedJoins, TablesOf, AddedJoin, ReferenceConstraints, ReferencesAt, TableAt;
    var links := LinksUpTo(schema, w.klass, tokens, i);
    if Follows(schema, w.klass, tokens, i) {
      var c := LinkCondition(schema, schema[at.klass].properties[tokens[i]]);
      AddedOneMore(w.joins, links, c);
      TablesOneMore(links, c);
    } else {
      assert links + [] == links;
    }
  }

  lemma ReferencesNext(schema: Schema, w: Walk, tokens: seq<string>, i: nat, at: Walk)
    requires WellFormed(schema) && i < |tokens| && at.klass in schema && Known(schema, at.klass, tokens[i])
    requires StandsAt(schema, w, tokens, i, at)
    ensures ReferencesAt(schema, w, tokens, i + 1, Stepped(schema, at, tokens[i], false))
  {
    hide ReferenceConstraints, JoinsAt, TableAt, AddedJoin, LinkCondition, WellFormed, ClassAt;
    assert tokens[..i + 1] == tokens[..i] + [tokens[i]];
  }

  /**
   The last token, the class it belongs to and its column; the joins of the links before it; and the
   constraints of attachments and parameters.
   */
  predicate Yields(schema: Schema, w: Walk, tokens: seq<string>, to: Walk)
    requires WellFormed(schema) && tokens != []
  {
    var n := |tokens| - 1;
    var c, name := ClassAt(schema, w.klass, tokens, n), tokens[n];
    to.owner == c && to.property == name &&
    to.joins == AddedJoins(w.joins, LinksUpTo(schema, w.klass, tokens, n)) &&
    to.tables == w.tables + TablesOf(LinksUpTo(schema, w.klass, tokens, n)) &&
    to.constraints ==
      w.constraints + ReferencesUpTo(schema, w.klass, w.table, w.blobs, w.params, tokens, |tokens|) &&
    to.blobs == (w.blobs || ATTACHMENT in tokens) && to.params == (w.params || PARAMETER in tokens) &&
    to.distinct == (w.distinct || PARAMETER in tokens) &&
    (!Reserved(name) ==>
      c in schema && name in schema[c].properties &&
      to.field == Some(if name == "guid" then "guid" else schema[c].properties[name].field) &&
      to.table == OwnTable(schema, c, name, TableAt(schema, w.klass, w.table, tokens, n)))
  }

  /** What a known path of any kind of tokens amounts to. */
  lemma ThroughYields(schema: Schema, w: Walk, tokens: seq<string>)
    requires WellFormed(schema) && w.klass in schema && tokens != []
    requires forall i :: 0 <= i < |tokens| ==> KnownAt(schema, w.klass, tokens, i)
    ensures Yields(schema, w, tokens, Through(schema, w, tokens).1)
  {
    hide WellFormed, Stepped, ClassAt, Known, StandsAt, Yields, Through;
    var n := |tokens| - 1;
    StandsFirst(schema, w, tokens);
    var at, i := w, 0;
    assert tokens[0..] == tokens;
    while i < n
      invariant i <= n && at.klass in schema && StandsAt(schema, w, tokens, i, at)
      invariant Through(schema, at, tokens[i..]) == Through(schema, w, tokens)
    {
      StandsClass(schema, w, tokens, i, at);
      assert KnownAt(schema, w.klass, tokens, i);
      ThroughNext(schema, at, tokens, i);
      StandsNext(schema, w, tokens, i, at);
      at := Stepped(schema, at, tokens[i], false);
      i := i + 1;
    }
    StandsClass(schema, w, tokens, n, at);
    assert KnownAt(schema, w.klass, tokens, n);
    ThroughNext(schema, at, tokens, n);
    assert tokens[n + 1..] == [];
    NothingLeft(schema, Stepped(schema, at, tokens[n], true));
    LastStep(schema, w, tokens, at);
  }

  lemma StandsFirst(schema: Schema, w: Walk, tokens: seq<string>)
    requires WellFormed(schema)
    ensures StandsAt(schema, w, tokens, 0, w)
  {
    assert tokens[..0] == [];
  }

  lemma StandsClass(schema: Schema, w: Walk, tokens: seq<string>, i: nat, at: Walk)
    requires WellFormed(schema) && i <= |tokens| && StandsAt(schema, w, tokens, i, at)
    ensures at.klass == ClassAt(schema, w.klass, tokens, i)
  {
  }

  lemma LastStep(schema: Schema, w: Walk, tokens: seq<string>, at: Walk)
    requires WellFormed(schema) && tokens != [] && at.klass in schema
    requires var n := |tokens| - 1; Known(schema, at.klass, tokens[n]) && StandsAt(schema, w, tokens, n, at)
    ensures Yields(schema, w, tokens, Stepped(schema, at, tokens[|tokens| - 1], true))
  {
    hide WellFormed, AddedJoins, TablesOf, LinksUpTo, ReferenceConstraints, TableAt, ClassAt, ReferencesUpTo;
    var n := |tokens| - 1;
    assert tokens == tokens[..n] + [tokens[n]];
    LastReference(schema, w, tokens);
  }

  lemma LastReference(schema: Schema, w: Walk, tokens: seq<string>)
    requires tokens != []
    ensures var n := |tokens| - 1;
            ReferencesUpTo(schema, w.klass, w.table, w.blobs, w.params, tokens, |tokens|) ==
            ReferencesUpTo(schema, w.klass, w.table, w.blobs, w.params, tokens, n) +
            if tokens[n] == ATTACHMENT && !w.blobs && ATTACHMENT !in tokens[..n] then
              ReferenceConstraints(TableAt(schema, w.klass, w.table, tokens, n), BLOB_TABLE)
            else if tokens[n] == PARAMETER && !w.params && PARAMETER !in tokens[..n] then
              ReferenceConstraints(TableAt(schema, w.klass, w.table, tokens, n), PARAMETER_TABLE)
            else []
  {
    hide ReferenceConstraints, TableAt;
  }

  /**
   Any name: without dots it has to be a property of the class; with two or three tokens each of them has to be
   known in the class it belongs to; more are refused, and none are taken as they are.
   */
  lemma ParsedYields(schema: Schema, w: Walk, name: string)
    requires WellFormed(schema) && w.klass in schema && HasTable(schema, w.klass, name)
    ensures var (ok, to) := Parsed(schema, w, name);
            var tokens := Text.StrSplit(name, '.');
            var start := w.(table := schema[w.klass].table);
            (ok <==> |tokens| <= 3 && if |tokens| == 1 then name in schema[w.klass].properties
                                      else forall i :: 0 <= i < |tokens| ==> KnownAt(schema, w.klass, tokens, i)) &&
            (ok && |tokens| > 1 ==> Yields(schema, start, tokens, to)) &&
            (ok && |tokens| == 1 ==>
              var p := schema[w.klass].properties[name];
              p.table.Some? &&
              to == start.(owner := w.klass, property := name, table := p.table.value,
                           field := Some(if name == "guid" then "guid" else p.field),
                           tables := w.tables + {p.table.value})) &&
            (|tokens| > 3 || tokens == [] ==> to == start)
  {
    hide Through, Yields, KnownAt, WellFormed;
    var tokens := Text.StrSplit(name, '.');
    var start := w.(table := schema[w.klass].table);
    if |tokens| == 1 {
      OnlyToken(name);
    } else if |tokens| <= 3 {
      ThroughKnown(schema, start, tokens);
      if tokens == [] {
        NothingLeft(schema, start);
      } else if forall i :: 0 <= i < |tokens| ==> KnownAt(schema, w.klass, tokens, i) {
        ThroughYields(schema, start, tokens);
      }
    }
  }

  // ---- Reserved names

  lemma TwoTokens(schema: Schema, w: Walk, tokens: seq<string>)
    requires WellFormed(schema) && w.klass in schema && |tokens| == 2 && Known(schema, w.klass, tokens[0])
    ensures var at := Stepped(schema, w, tokens[0], false);
            Through(schema, w, tokens) ==
            if Known(schema, at.klass, tokens[1]) then (true, Stepped(schema, at, tokens[1], true))
            else (false, at.(owner := at.klass, property := tokens[1]))
  {
    hide WellFormed, Stepped, Known;
    assert tokens[0..] == tokens && tokens[2..] == [];
    ThroughNext(schema, w, tokens, 0);
    var at := Stepped(schema, w, tokens[0], false);
    ThroughNext(schema, at, tokens, 1);
    if Known(schema, at.klass, tokens[1]) {
      NothingLeft(schema, Stepped(schema, at, tokens[1], true));
    }
  }

  /** metadata names a property of the metadata class in the table that was meant before, and joins nothing. */
  lemma MetadataPath(schema: Schema, w: Walk, name: string)
    requires WellFormed(schema) && w.klass in schema && !Reserved(name)
    ensures var (ok, to) := Through(schema, w, [METADATA, name]);
            (ok <==> name in schema[METADATA_CLASS].properties) &&
            (ok ==>
              to.owner == METADATA_CLASS && to.joins == w.joins && to.tables == w.tables &&
              to.constraints == w.constraints && to.field.Some? &&
              (name != "guid" ==> to.field.value == schema[METADATA_CLASS].properties[name].field) &&
              (name != "guid" && schema[METADATA_CLASS].properties[name].table.None? ==> to.table == w.table))
  {
    var tokens := [METADATA, name];
    TwoTokens(schema, w, tokens);
  }

  /** The two constraints tie a row of ref to the row of src that it belongs to, and to rows that are not deleted. */
  lemma ReferenceMeans(src: string, ref: string, choice: Choice)
    requires src in choice && ref in choice
    ensures var cs := ReferenceConstraints(src, ref);
            |cs| == 2 && cs[0].joins == [] && cs[1].joins == [] &&
            (JoinHolds(cs[0].condition, choice) <==>
             "parent_guid" in choice[ref] && "guid" in choice[src] &&
             choice[ref]["parent_guid"] == choice[src]["guid"]) &&
            (ref == "blobs" ==> cs[1].condition == Comparison("blobs.metadata_deleted = 0")) &&
            (ref == "record_extension" ==>
              cs[1].condition == Comparison("record_extension.metadata_deleted = 0"))
  {
    assert "blobs" + ".metadata_deleted = 0" == "blobs.metadata_deleted = 0";
    assert "record_extension" + ".metadata_deleted = 0" == "record_extension.metadata_deleted = 0";
  }

  /** A parameter's property is compared in record_extension, over rows of the object and without doubles. */
  lemma ParameterPath(schema: Schema, w: Walk, name: string)
    requires WellFormed(schema) && w.klass in schema && !Reserved(name) && !w.params
    ensures var (ok, to) := Through(schema, w, ["parameter", name]);
            (ok <==> name in schema["midgard_parameter"].properties) &&
            (ok ==>
              to.owner == "midgard_parameter" && to.distinct && to.params && to.joins == w.joins &&
              to.constraints == w.constraints + ReferenceConstraints(w.table, "record_extension") &&
              (name != "guid" && schema["midgard_parameter"].properties[name].table.None? ==>
                to.table == "record_extension"))
  {
    var tokens := [PARAMETER, name];
    TwoTokens(schema, w, tokens);
    hide ReferenceConstraints, Through;
  }
}
