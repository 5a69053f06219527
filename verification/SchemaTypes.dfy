/**
 Declared types and what inheritance makes of them, as values: a recursive specification that
 does not mention visiting order.
 */
module SchemaTypes {
  import opened Wrappers

  datatype GType = StringType | TimestampType | UintType | IntType | FloatType | BooleanType | OtherType

  /** A property's attributes; is_private and is_unique are the ones an inheriting type does not copy. */
  datatype PropertyAttr = PropertyAttr(
    name: string, gtype: GType, field: Option<string>, table: Option<string>, link: Option<string>,
    userValues: map<string, string>, isPrimary: bool, isPrivate: bool, isUnique: bool)

  /** The single-valued attributes that a parent passes on whenever it has them. */
  datatype Scalar = ParentField | UpField | Parent | Primary | PrimaryField | PropertyUp | PropertyParent
                  | UniqueName | MetadataClass

  datatype TypeValue = TypeValue(
    table: Option<string>, tables: Option<string>, scalars: map<Scalar, string>,
    properties: map<string, PropertyAttr>, order: seq<string>)

  datatype Declaration = Declaration(parents: seq<string>, own: TypeValue)
  type Declarations = map<string, Declaration>

  /** Every parent is declared, and rank shows that extending is acyclic. */
  ghost predicate Ranked(ds: Declarations, rank: map<string, nat>) {
    rank.Keys == ds.Keys &&
    forall n, i :: n in ds && 0 <= i < |ds[n].parents| ==>
      ds[n].parents[i] in ds && rank[ds[n].parents[i]] < rank[n]
  }

  function Copied(p: PropertyAttr): PropertyAttr {
    p.(isPrivate := false, isUnique := false)
  }

  function FirstOf(a: Option<string>, b: Option<string>): Option<string> {
    if a.Some? then a else b
  }

  function LowerChar(c: char): char {
    if 'A' <= c <= 'Z' then (c as int + 32) as char else c
  }

  function Lower(s: string): string {
    seq(|s|, i requires 0 <= i < |s| => LowerChar(s[i]))
  }

  predicate Listed(order: seq<string>, name: string) {
    exists i :: 0 <= i < |order| && Lower(order[i]) == Lower(name)
  }

  /** Puts each name that is not listed yet, whatever its case, in front. */
  function Prepended(order: seq<string>, names: seq<string>): seq<string>
    decreases |names|
  {
    if names == [] then order
    else
      var before := Prepended(order, names[..|names| - 1]);
      var name := names[|names| - 1];
      if Listed(before, name) then before else [name] + before
  }

  function WithMissing(child: map<string, PropertyAttr>, parent: map<string, PropertyAttr>): map<string, PropertyAttr> {
    map k | k in child.Keys + parent.Keys :: if k in child then child[k] else Copied(parent[k])
  }

  /** One parent's contribution to a type. */
  function Absorb(child: TypeValue, parent: TypeValue): TypeValue {
    TypeValue(
      FirstOf(child.table, parent.table), FirstOf(child.tables, parent.tables), child.scalars + parent.scalars,
      WithMissing(child.properties, parent.properties), Prepended(child.order, parent.order))
  }

  function AbsorbAll(child: TypeValue, parents: seq<TypeValue>): TypeValue {
    if parents == [] then child else Absorb(AbsorbAll(child, parents[..|parents| - 1]), parents[|parents| - 1])
  }

  /** What a type amounts to once inheritance is resolved. */
  ghost function Final(ds: Declarations, rank: map<string, nat>, n: string): TypeValue
    requires Ranked(ds, rank) && n in ds
    decreases rank[n], 1
  {
    AbsorbAll(ds[n].own, FinalParents(ds, rank, n))
  }

  ghost function FinalParents(ds: Declarations, rank: map<string, nat>, n: string): (parents: seq<TypeValue>)
    requires Ranked(ds, rank) && n in ds
    ensures |parents| == |ds[n].parents|
    decreases rank[n], 0
  {
    seq(|ds[n].parents|, i requires 0 <= i < |ds[n].parents| => Final(ds, rank, ds[n].parents[i]))
  }

  // ---- What wins

  /** A type's own property, else a copy of the first listed parent's that has one. */
  ghost function PropertyOf(ds: Declarations, rank: map<string, nat>, n: string, key: string): Option<PropertyAttr>
    requires Ranked(ds, rank) && n in ds
    decreases rank[n], |ds[n].parents| + 1
  {
    if key in ds[n].own.properties then Some(ds[n].own.properties[key])
    else FirstInherited(ds, rank, n, key, 0)
  }

  ghost function FirstInherited(ds: Declarations, rank: map<string, nat>, n: string, key: string, i: nat)
    : Option<PropertyAttr>
    requires Ranked(ds, rank) && n in ds && i <= |ds[n].parents|
    decreases rank[n], |ds[n].parents| - i
  {
    if i == |ds[n].parents| then None
    else
      match PropertyOf(ds, rank, ds[n].parents[i], key)
      case Some(p) => Some(Copied(p))
      case None => FirstInherited(ds, rank, n, key, i + 1)
  }

  /** The type's own table, else the first listed parent's that has one. */
  ghost function TableOf(ds: Declarations, rank: map<string, nat>, n: string): Option<string>
    requires Ranked(ds, rank) && n in ds
    decreases rank[n], |ds[n].parents| + 1
  {
    if ds[n].own.table.Some? then ds[n].own.table else FirstTable(ds, rank, n, 0)
  }

  ghost function FirstTable(ds: Declarations, rank: map<string, nat>, n: string, i: nat): Option<string>
    requires Ranked(ds, rank) && n in ds && i <= |ds[n].parents|
    decreases rank[n], |ds[n].parents| - i
  {
    if i == |ds[n].parents| then None
    else FirstOf(TableOf(ds, rank, ds[n].parents[i]), FirstTable(ds, rank, n, i + 1))
  }

  /** The last listed parent's attribute if any parent has one, else the type's own. */
  ghost function ScalarOf(ds: Declarations, rank: map<string, nat>, n: string, s: Scalar): Option<string>
    requires Ranked(ds, rank) && n in ds
    decreases rank[n], |ds[n].parents| + 1
  {
    LastScalar(ds, rank, n, s, |ds[n].parents|)
  }

  ghost function LastScalar(ds: Declarations, rank: map<string, nat>, n: string, s: Scalar, i: nat): Option<string>
    requires Ranked(ds, rank) && n in ds && i <= |ds[n].parents|
    decreases rank[n], i
  {
    if i == 0 then (if s in ds[n].own.scalars then Some(ds[n].own.scalars[s]) else None)
    else FirstOf(ScalarOf(ds, rank, ds[n].parents[i - 1], s), LastScalar(ds, rank, n, s, i - 1))
  }

  function Lookup<K, V>(m: map<K, V>, k: K): Option<V> {
    if k in m then Some(m[k]) else None
  }

  lemma AbsorbScalar(t: TypeValue, p: TypeValue, s: Scalar)
    ensures Lookup(Absorb(t, p).scalars, s) == FirstOf(Lookup(p.scalars, s), Lookup(t.scalars, s))
  {
  }

  lemma AbsorbNext(ds: Declarations, rank: map<string, nat>, n: string, i: nat)
    requires Ranked(ds, rank) && n in ds && 0 < i <= |ds[n].parents|
    ensures AbsorbAll(ds[n].own, FinalParents(ds, rank, n)[..i]) ==
            Absorb(AbsorbAll(ds[n].own, FinalParents(ds, rank, n)[..i - 1]), Final(ds, rank, ds[n].parents[i - 1]))
  {
    hide Absorb;
    var parents := FinalParents(ds, rank, n);
    assert parents[..i][..i - 1] == parents[..i - 1];
  }

  lemma {:induction false} FinalProperty(ds: Declarations, rank: map<string, nat>, n: string, key: string)
    requires Ranked(ds, rank) && n in ds
    ensures Lookup(Final(ds, rank, n).properties, key) == PropertyOf(ds, rank, n, key)
    decreases rank[n], |ds[n].parents| + 1
  {
    var parents := FinalParents(ds, rank, n);
    PropertyAfterParents(ds, rank, n, key, |parents|);
    assert parents[..|parents|] == parents;
  }

  lemma {:induction false} PropertyAfterParents(ds: Declarations, rank: map<string, nat>, n: string, key: string,
                                                i: nat)
    requires Ranked(ds, rank) && n in ds && i <= |ds[n].parents|
    ensures var t := AbsorbAll(ds[n].own, FinalParents(ds, rank, n)[..i]);
            PropertyOf(ds, rank, n, key) ==
            if key in t.properties then Some(t.properties[key]) else FirstInherited(ds, rank, n, key, i)
    decreases rank[n], i
  {
    if i == 0 {
      assert FinalParents(ds, rank, n)[..0] == [];
    } else {
      PropertyAfterParents(ds, rank, n, key, i - 1);
      FinalProperty(ds, rank, ds[n].parents[i - 1], key);
      AbsorbNext(ds, rank, n, i);
      hide Final, FinalParents, AbsorbAll, Prepended;
    }
  }

  /** The type itself if it declares the property, else the one that the first listed parent with it has it from. */
  ghost function Origin(ds: Declarations, rank: map<string, nat>, n: string, key: string): (m: Option<string>)
    requires Ranked(ds, rank) && n in ds
    ensures m.Some? ==> m.value in ds && key in ds[m.value].own.properties && rank[m.value] <= rank[n]
    decreases rank[n], |ds[n].parents| + 1
  {
    if key in ds[n].own.properties then Some(n) else FirstOrigin(ds, rank, n, key, 0)
  }

  ghost function FirstOrigin(ds: Declarations, rank: map<string, nat>, n: string, key: string, i: nat)
    : (m: Option<string>)
    requires Ranked(ds, rank) && n in ds && i <= |ds[n].parents|
    ensures m.Some? ==> m.value in ds && key in ds[m.value].own.properties && rank[m.value] < rank[n]
    decreases rank[n], |ds[n].parents| - i
  {
    if i == |ds[n].parents| then None
    else
      var m := Origin(ds, rank, ds[n].parents[i], key);
      if m.Some? then m else FirstOrigin(ds, rank, n, key, i + 1)
  }

  /** p says what q declares about the property itself. */
  predicate SaysTheSame(p: PropertyAttr, q: PropertyAttr) {
    p.name == q.name && p.gtype == q.gtype && p.field == q.field && p.table == q.table && p.link == q.link &&
    p.userValues == q.userValues && p.isPrimary == q.isPrimary
  }

  /**
   A resolved type has a property exactly if the walk finds a declaration of it. An own declaration is kept as it
   is; an inherited one says the same but is neither private nor unique.
   */
  lemma FinalSaysTheSame(ds: Declarations, rank: map<string, nat>, n: string, key: string)
    requires Ranked(ds, rank) && n in ds
    ensures var m, properties := Origin(ds, rank, n, key), Final(ds, rank, n).properties;
            (key in properties <==> m.Some?) &&
            (m.Some? ==>
              var p, q := properties[key], ds[m.value].own.properties[key];
              SaysTheSame(p, q) && (m.value == n <==> key in ds[n].own.properties) &&
              if m.value == n then p == q else !p.isPrivate && !p.isUnique)
  {
    hide Final;
    FinalProperty(ds, rank, n, key);
    PropertySaysTheSame(ds, rank, n, key);
    hide SaysTheSame, PropertyOf;
  }

  lemma {:induction false} PropertySaysTheSame(ds: Declarations, rank: map<string, nat>, n: string, key: string)
    requires Ranked(ds, rank) && n in ds
    ensures var m, p := Origin(ds, rank, n, key), PropertyOf(ds, rank, n, key);
            (p.Some? <==> m.Some?) &&
            (m.Some? ==>
              SaysTheSame(p.value, ds[m.value].own.properties[key]) &&
              (m.value == n <==> key in ds[n].own.properties) &&
              if m.value == n then p.value == ds[n].own.properties[key] else !p.value.isPrivate && !p.value.isUnique)
    decreases rank[n], |ds[n].parents| + 1
  {
    if key !in ds[n].own.properties {
      InheritedSaysTheSame(ds, rank, n, key, 0);
    }
  }

  lemma {:induction false} InheritedSaysTheSame(ds: Declarations, rank: map<string, nat>, n: string, key: string,
                                                i: nat)
    requires Ranked(ds, rank) && n in ds && i <= |ds[n].parents|
    ensures var m, p := FirstOrigin(ds, rank, n, key, i), FirstInherited(ds, rank, n, key, i);
            (p.Some? <==> m.Some?) &&
            (m.Some? ==>
              SaysTheSame(p.value, ds[m.value].own.properties[key]) && !p.value.isPrivate && !p.value.isUnique)
    decreases rank[n], |ds[n].parents| - i
  {
    if i < |ds[n].parents| {
      PropertySaysTheSame(ds, rank, ds[n].parents[i], key);
      if PropertyOf(ds, rank, ds[n].parents[i], key).None? {
        InheritedSaysTheSame(ds, rank, n, key, i + 1);
      }
    }
  }

  lemma {:induction false} FinalTable(ds: Declarations, rank: map<string, nat>, n: string)
    requires Ranked(ds, rank) && n in ds
    ensures Final(ds, rank, n).table == TableOf(ds, rank, n)
    decreases rank[n], |ds[n].parents| + 1
  {
    var parents := FinalParents(ds, rank, n);
    TableAfterParents(ds, rank, n, |parents|);
    assert parents[..|parents|] == parents;
  }

  lemma {:induction false} TableAfterParents(ds: Declarations, rank: map<string, nat>, n: string, i: nat)
    requires Ranked(ds, rank) && n in ds && i <= |ds[n].parents|
    ensures var t := AbsorbAll(ds[n].own, FinalParents(ds, rank, n)[..i]);
            TableOf(ds, rank, n) == FirstOf(t.table, FirstTable(ds, rank, n, i))
    decreases rank[n], i
  {
    if i == 0 {
      assert FinalParents(ds, rank, n)[..0] == [];
    } else {
      TableAfterParents(ds, rank, n, i - 1);
      FinalTable(ds, rank, ds[n].parents[i - 1]);
      AbsorbNext(ds, rank, n, i);
      hide Final, FinalParents, AbsorbAll, Prepended;
    }
  }

  lemma {:induction false} FinalScalar(ds: Declarations, rank: map<string, nat>, n: string, s: Scalar)
    requires Ranked(ds, rank) && n in ds
    ensures Lookup(Final(ds, rank, n).scalars, s) == ScalarOf(ds, rank, n, s)
    decreases rank[n], |ds[n].parents| + 1
  {
    var parents := FinalParents(ds, rank, n);
    ScalarAfterParents(ds, rank, n, s, |parents|);
    assert parents[..|parents|] == parents;
  }

  lemma {:induction false} ScalarAfterParents(ds: Declarations, rank: map<string, nat>, n: string, s: Scalar, i: nat)
    requires Ranked(ds, rank) && n in ds && i <= |ds[n].parents|
    ensures var t := AbsorbAll(ds[n].own, FinalParents(ds, rank, n)[..i]);
            Lookup(t.scalars, s) == LastScalar(ds, rank, n, s, i)
    decreases rank[n], i
  {
    hide PropertyOf, TableOf, Final;
    if i == 0 {
      assert FinalParents(ds, rank, n)[..0] == [];
    } else {
      hide FinalParents, AbsorbAll;
      ScalarAfterParents(ds, rank, n, s, i - 1);
      FinalScalar(ds, rank, ds[n].parents[i - 1], s);
      AbsorbNext(ds, rank, n, i);
      hide Final, FinalParents, AbsorbAll, Absorb, Lookup, ScalarOf;
      AbsorbScalar(AbsorbAll(ds[n].own, FinalParents(ds, rank, n)[..i - 1]), Final(ds, rank, ds[n].parents[i - 1]), s);
    }
  }

  // ---- Absorbing the same parents again changes nothing

  predicate Covers(t: TypeValue, parent: TypeValue) {
    (parent.table.Some? ==> t.table.Some?) && (parent.tables.Some? ==> t.tables.Some?) &&
    parent.properties.Keys <= t.properties.Keys &&
    forall i :: 0 <= i < |parent.order| ==> Listed(t.order, parent.order[i])
  }

  lemma {:induction false} PrependedLists(order: seq<string>, names: seq<string>)
    ensures forall x :: Listed(order, x) ==> Listed(Prepended(order, names), x)
    ensures forall i :: 0 <= i < |names| ==> Listed(Prepended(order, names), names[i])
    decreases |names|
  {
    if names != [] {
      var n := |names| - 1;
      PrependedLists(order, names[..n]);
      var before, after := Prepended(order, names[..n]), Prepended(order, names);
      if after != before {
        forall x | Listed(before, x)
          ensures Listed(after, x)
        {
          var i :| 0 <= i < |before| && Lower(before[i]) == Lower(x);
          assert after[i + 1] == before[i];
        }
        assert after[0] == names[n];
      }
      forall i | 0 <= i < |names|
        ensures Listed(after, names[i])
      {
        assert i < n ==> names[..n][i] == names[i];
      }
    }
  }

  lemma {:induction false} PrependedNothing(order: seq<string>, names: seq<string>)
    requires forall i :: 0 <= i < |names| ==> Listed(order, names[i])
    ensures Prepended(order, names) == order
    decreases |names|
  {
    if names != [] {
      PrependedNothing(order, names[..|names| - 1]);
    }
  }

  lemma ListedBehind(front: seq<string>, order: seq<string>, name: string)
    ensures Listed(order, name) ==> Listed(front + order, name)
  {
    if Listed(order, name) {
      var i :| 0 <= i < |order| && Lower(order[i]) == Lower(name);
      assert (front + order)[|front| + i] == order[i];
    }
  }

  /** Names are only put in front, and only names of the list that is taken over. */
  lemma {:induction false} PrependedInFront(order: seq<string>, names: seq<string>) returns (front: seq<string>)
    ensures Prepended(order, names) == front + order && forall x :: x in front ==> x in names && !Listed(order, x)
    decreases |names|
  {
    if names == [] {
      front := [];
    } else {
      var n := |names| - 1;
      front := PrependedInFront(order, names[..n]);
      var before := Prepended(order, names[..n]);
      if !Listed(before, names[n]) {
        ListedBehind(front, order, names[n]);
        assert [names[n]] + before == ([names[n]] + front) + order;
        front := [names[n]] + front;
      }
    }
  }

  /** A resolved type's list ends with the names in the order in which the type declares them. */
  lemma FinalOrder(ds: Declarations, rank: map<string, nat>, n: string) returns (front: seq<string>)
    requires Ranked(ds, rank) && n in ds
    ensures Final(ds, rank, n).order == front + ds[n].own.order
    ensures forall x :: x in front ==> !Listed(ds[n].own.order, x)
  {
    front := AbsorbedInFront(ds[n].own, FinalParents(ds, rank, n));
  }

  lemma {:induction false} AbsorbedInFront(t: TypeValue, parents: seq<TypeValue>) returns (front: seq<string>)
    ensures AbsorbAll(t, parents).order == front + t.order && forall x :: x in front ==> !Listed(t.order, x)
  {
    if parents == [] {
      front := [];
    } else {
      var n := |parents| - 1;
      var before := AbsorbedInFront(t, parents[..n]);
      var more := PrependedInFront(before + t.order, parents[n].order);
      front := more + before;
      assert more + (before + t.order) == front + t.order;
      forall x | x in front
        ensures !Listed(t.order, x)
      {
        ListedBehind(before, t.order, x);
      }
    }
  }

  lemma AbsorbCovers(t: TypeValue, p: TypeValue)
    ensures Covers(Absorb(t, p), p)
    ensures forall q :: Covers(t, q) ==> Covers(Absorb(t, p), q)
  {
    PrependedLists(t.order, p.order);
  }

  lemma {:induction false} AbsorbAllCovers(t: TypeValue, parents: seq<TypeValue>)
    ensures forall i :: 0 <= i < |parents| ==> Covers(AbsorbAll(t, parents), parents[i])
  {
    if parents != [] {
      var n := |parents| - 1;
      AbsorbAllCovers(t, parents[..n]);
      AbsorbCovers(AbsorbAll(t, parents[..n]), parents[n]);
      forall i | 0 <= i < |parents|
        ensures Covers(AbsorbAll(t, parents), parents[i])
      {
        assert i < n ==> parents[..n][i] == parents[i];
      }
    }
  }

  function ScalarsOf(parents: seq<TypeValue>): map<Scalar, string> {
    if parents == [] then map[] else ScalarsOf(parents[..|parents| - 1]) + parents[|parents| - 1].scalars
  }

  lemma MapSum<K, V>(a: map<K, V>, b: map<K, V>, c: map<K, V>)
    ensures a + b + c == a + (b + c)
  {
  }

  lemma AbsorbScalars(t: TypeValue, p: TypeValue)
    ensures Absorb(t, p).scalars == t.scalars + p.scalars
  {
  }

  lemma {:induction false} AbsorbAllScalars(t: TypeValue, parents: seq<TypeValue>)
    ensures AbsorbAll(t, parents).scalars == t.scalars + ScalarsOf(parents)
  {
    if parents != [] {
      var n := |parents| - 1;
      AbsorbAllScalars(t, parents[..n]);
      MapSum(t.scalars, ScalarsOf(parents[..n]), parents[n].scalars);
      AbsorbScalars(AbsorbAll(t, parents[..n]), parents[n]);
      hide Absorb;
    } else {
      assert t.scalars + map[] == t.scalars;
    }
  }

  lemma AbsorbOneCovered(t: TypeValue, scalars: map<Scalar, string>, p: TypeValue)
    requires Covers(t, p)
    ensures Absorb(t.(scalars := scalars), p) == t.(scalars := scalars + p.scalars)
  {
    PrependedNothing(t.order, p.order);
    assert WithMissing(t.properties, p.properties) == t.properties;
  }

  lemma {:induction false} AbsorbCovered(t: TypeValue, parents: seq<TypeValue>)
    requires forall i :: 0 <= i < |parents| ==> Covers(t, parents[i])
    ensures AbsorbAll(t, parents) == t.(scalars := t.scalars + ScalarsOf(parents))
  {
    hide Covers, Absorb;
    if parents == [] {
      assert t.scalars + ScalarsOf(parents) == t.scalars;
    } else {
      var n := |parents| - 1;
      AbsorbCovered(t, parents[..n]);
      AbsorbOneCovered(t, t.scalars + ScalarsOf(parents[..n]), parents[n]);
      MapSum(t.scalars, ScalarsOf(parents[..n]), parents[n].scalars);
    }
  }

  /** Extending a resolved type once more leaves it as it is. */
  lemma AbsorbingAgain(t: TypeValue, parents: seq<TypeValue>)
    ensures AbsorbAll(AbsorbAll(t, parents), parents) == AbsorbAll(t, parents)
  {
    var once := AbsorbAll(t, parents);
    AbsorbAllCovers(t, parents);
    AbsorbCovered(once, parents);
    AbsorbAllScalars(t, parents);
    assert once.scalars + ScalarsOf(parents) == once.scalars;
  }
}
