/** Resolving inheritance in place: types extend their parents recursively, in whatever order they are visited. */
module SchemaExtend {
  import opened Wrappers
  import opened SchemaTypes

  class TypeAttr {
    const name: string
    const parents: seq<string>
    var table: Option<string>
    var tables: Option<string>
    var scalars: map<Scalar, string>
    var prophash: map<string, PropertyAttr>
    var propertiesList: seq<string>
    var numProperties: nat

    constructor (name: string, d: Declaration)
      ensures this.name == name && parents == d.parents && Value() == d.own && numProperties == 0
    {
      this.name, parents := name, d.parents;
      table, tables, scalars := d.own.table, d.own.tables, d.own.scalars;
      prophash, propertiesList, numProperties := d.own.properties, d.own.order, 0;
    }

    function Value(): TypeValue
      reads this
    {
      TypeValue(table, tables, scalars, prophash, propertiesList)
    }

    /** Each attribute the source has replaces this type's. */
    method AttrExtend(src: TypeAttr)
      requires src != this
      modifies this`scalars
      ensures scalars == old(scalars) + src.scalars
    {
      hide Overridden;
      ghost var before := scalars;
      NoneOverridden(before, src.scalars);
      ghost var d1 := Override(src, ParentField, before, {});
      ghost var d2 := Override(src, UpField, before, d1);
      ghost var d3 := Override(src, Parent, before, d2);
      ghost var d4 := Override(src, Primary, before, d3);
      ghost var d5 := Override(src, PrimaryField, before, d4);
      ghost var d6 := Override(src, PropertyUp, before, d5);
      ghost var d7 := Override(src, PropertyParent, before, d6);
      ghost var d8 := Override(src, UniqueName, before, d7);
      ghost var d9 := Override(src, MetadataClass, before, d8);
      forall s: Scalar
        ensures s in d9
      {
        match s
        case ParentField => case UpField => case Parent => case Primary => case PrimaryField =>
        case PropertyUp => case PropertyParent => case UniqueName => case MetadataClass =>
      }
      AllOverridden(before, src.scalars, d9);
    }

    /** Copies one attribute if the source has it; done are the attributes handled before. */
    method Override(src: TypeAttr, s: Scalar, ghost before: map<Scalar, string>, ghost done: set<Scalar>)
      returns (ghost done': set<Scalar>)
      requires src != this
      requires scalars == Overridden(before, src.scalars, done)
      modifies this`scalars
      ensures done' == done + {s} && scalars == Overridden(before, src.scalars, done')
    {
      done' := done + {s};
      if s in src.scalars {
        scalars := scalars[s := src.scalars[s]];
      }
    }

    method Find(name: string) returns (found: bool)
      ensures found <==> Listed(propertiesList, name)
    {
      found := false;
      for i := 0 to |propertiesList|
        invariant found <==> Listed(propertiesList[..i], name)
      {
        assert forall k :: 0 <= k < i ==> propertiesList[..i + 1][k] == propertiesList[..i][k];
        assert propertiesList[..i + 1][i] == propertiesList[i];
        if Lower(propertiesList[i]) == Lower(name) {
          found := true;
        }
      }
      assert propertiesList[..|propertiesList|] == propertiesList;
    }

    method InheritList(src: TypeAttr)
      requires src != this
      modifies this`propertiesList
      ensures propertiesList == Prepended(old(propertiesList), src.propertiesList)
    {
      ghost var before := propertiesList;
      for i := 0 to |src.propertiesList|
        invariant propertiesList == Prepended(before, src.propertiesList[..i])
      {
        assert src.propertiesList[..i + 1][..i] == src.propertiesList[..i];
        var found := Find(src.propertiesList[i]);
        if !found {
          propertiesList := [src.propertiesList[i]] + propertiesList;
        }
      }
      assert src.propertiesList[..|src.propertiesList|] == src.propertiesList;
    }

    /** The copy is stored under its own name. */
    method PropertyCopy(p: PropertyAttr)
      modifies this`prophash
      ensures prophash == old(prophash)[p.name := Copied(p)]
      ensures SaysTheSame(prophash[p.name], p) && !prophash[p.name].isPrivate && !prophash[p.name].isUnique
    {
      var copy := PropertyAttr(p.name, p.gtype, p.field, p.table, p.link, p.userValues, p.isPrimary, false, false);
      prophash := prophash[copy.name := copy];
    }

    /** Visits the source's properties in the order of a hash table, which is any order. */
    method InheritProperties(src: TypeAttr)
      requires src != this && Named(src.prophash)
      modifies this`prophash
      ensures prophash == WithMissing(old(prophash), src.prophash)
    {
      ghost var before := prophash;
      var rest := src.prophash.Keys;
      while rest != {}
        invariant rest <= src.prophash.Keys
        invariant prophash.Keys == before.Keys + (src.prophash.Keys - rest)
        invariant forall k :: k in prophash ==>
                    prophash[k] == if k in before then before[k] else Copied(src.prophash[k])
        decreases rest
      {
        var key :| key in rest;
        if key !in prophash {
          PropertyCopy(src.prophash[key]);
        }
        rest := rest - {key};
      }
    }

    method Absorb(src: TypeAttr)
      requires src != this && Named(src.prophash)
      modifies this`table, this`tables, this`scalars, this`prophash, this`propertiesList
      ensures Value() == SchemaTypes.Absorb(old(Value()), src.Value())
    {
      AttrExtend(src);
      if table == None {
        table := src.table;
      }
      if tables == None {
        tables := src.tables;
      }
      InheritList(src);
      InheritProperties(src);
    }
  }

  /** before with the attributes in done taken from src where src has them. */
  function Overridden(before: map<Scalar, string>, src: map<Scalar, string>, done: set<Scalar>): map<Scalar, string> {
    map s | s in before.Keys + src.Keys * done :: if s in done && s in src then src[s] else before[s]
  }

  lemma NoneOverridden(before: map<Scalar, string>, src: map<Scalar, string>)
    ensures Overridden(before, src, {}) == before
  {
  }

  lemma AllOverridden(before: map<Scalar, string>, src: map<Scalar, string>, done: set<Scalar>)
    requires forall s: Scalar :: s in done
    ensures Overridden(before, src, done) == before + src
  {
  }

  /** Each property is stored under its own name. */
  predicate Named(properties: map<string, PropertyAttr>) {
    forall k :: k in properties ==> properties[k].name == k
  }

  ghost predicate NamedDeclarations(ds: Declarations) {
    forall n :: n in ds ==> Named(ds[n].own.properties)
  }

  lemma {:induction false} FinalNamed(ds: Declarations, rank: map<string, nat>, n: string)
    requires Ranked(ds, rank) && n in ds && NamedDeclarations(ds)
    ensures Named(Final(ds, rank, n).properties)
    decreases rank[n], |ds[n].parents| + 1
  {
    FinalNamedAfter(ds, rank, n, |ds[n].parents|);
    assert FinalParents(ds, rank, n)[..|ds[n].parents|] == FinalParents(ds, rank, n);
  }

  lemma {:induction false} FinalNamedAfter(ds: Declarations, rank: map<string, nat>, n: string, i: nat)
    requires Ranked(ds, rank) && n in ds && NamedDeclarations(ds) && i <= |ds[n].parents|
    ensures Named(AbsorbAll(ds[n].own, FinalParents(ds, rank, n)[..i]).properties)
    decreases rank[n], i
  {
    if i == 0 {
      assert FinalParents(ds, rank, n)[..0] == [];
    } else {
      FinalNamedAfter(ds, rank, n, i - 1);
      FinalNamed(ds, rank, ds[n].parents[i - 1]);
      AbsorbNext(ds, rank, n, i);
    }
  }

  // ---- The type table

  /** The table holds one object for each declared type. */
  ghost predicate Represents(types: map<string, TypeAttr>, ds: Declarations) {
    types.Keys == ds.Keys &&
    (forall n :: n in types ==> types[n].parents == ds[n].parents) &&
    (forall m, n :: m in types && n in types && m != n ==> types[m] != types[n])
  }

  ghost function Objects(types: map<string, TypeAttr>): set<object> {
    set n | n in types :: types[n]
  }

  /** A type is as declared or fully resolved, never in between. */
  ghost predicate Settled(types: map<string, TypeAttr>, ds: Declarations, rank: map<string, nat>, n: string)
    requires Represents(types, ds) && Ranked(ds, rank) && n in ds
    reads if n in types then {types[n]} else {}
  {
    types[n].Value() == ds[n].own || types[n].Value() == Final(ds, rank, n)
  }

  ghost predicate Resolved(types: map<string, TypeAttr>, ds: Declarations, rank: map<string, nat>, n: string)
    requires Represents(types, ds) && Ranked(ds, rank) && n in ds
    reads if n in types then {types[n]} else {}
  {
    types[n].Value() == Final(ds, rank, n)
  }

  lemma NoParents(ds: Declarations, rank: map<string, nat>, n: string)
    requires Ranked(ds, rank) && n in ds && ds[n].parents == []
    ensures Final(ds, rank, n) == ds[n].own
  {
    assert FinalParents(ds, rank, n) == [];
  }

  lemma FinalIsFixed(ds: Declarations, rank: map<string, nat>, n: string)
    requires Ranked(ds, rank) && n in ds
    ensures AbsorbAll(ds[n].own, FinalParents(ds, rank, n)) == Final(ds, rank, n)
    ensures AbsorbAll(Final(ds, rank, n), FinalParents(ds, rank, n)) == Final(ds, rank, n)
  {
    AbsorbingAgain(ds[n].own, FinalParents(ds, rank, n));
  }

  lemma FinalParentAt(ds: Declarations, rank: map<string, nat>, n: string, i: nat)
    requires Ranked(ds, rank) && n in ds && i < |ds[n].parents|
    ensures FinalParents(ds, rank, n)[i] == Final(ds, rank, ds[n].parents[i])
  {
  }

  lemma AbsorbNone(t: TypeValue, finals: seq<TypeValue>)
    ensures AbsorbAll(t, finals[..0]) == t
  {
  }

  lemma AbsorbOneMore(t: TypeValue, finals: seq<TypeValue>, i: nat)
    requires i < |finals|
    ensures AbsorbAll(t, finals[..i + 1]) == SchemaTypes.Absorb(AbsorbAll(t, finals[..i]), finals[i])
  {
    assert finals[..i + 1][..i] == finals[..i];
  }

  method ExtendType(types: map<string, TypeAttr>, n: string, ghost ds: Declarations, ghost rank: map<string, nat>)
    requires Represents(types, ds) && Ranked(ds, rank) && NamedDeclarations(ds) && n in ds
    requires forall m :: m in ds && rank[m] < rank[n] ==> Settled(types, ds, rank, m)
    requires Settled(types, ds, rank, n)
    modifies Objects(types)
    ensures Resolved(types, ds, rank, n)
    ensures forall m :: m in ds && rank[m] < rank[n] ==> Settled(types, ds, rank, m)
    ensures forall m :: m in ds && old(Resolved(types, ds, rank, m)) ==> Resolved(types, ds, rank, m)
    ensures forall m :: m in ds && m != n && rank[m] >= rank[n] ==> unchanged(types[m])
    decreases rank[n], 1
  {
    hide Final, FinalParents, AbsorbAll, SchemaTypes.Absorb, NamedDeclarations, Named;
    var self := types[n];
    ghost var start, finals := self.Value(), FinalParents(ds, rank, n);
    FinalIsFixed(ds, rank, n);
    if self.parents == [] {
      NoParents(ds, rank, n);
      return;
    }
    AbsorbNone(start, finals);
    for i := 0 to |self.parents|
      invariant self.Value() == AbsorbAll(start, finals[..i])
      invariant forall m :: m in ds && rank[m] < rank[n] ==> Settled(types, ds, rank, m)
      invariant forall m :: m in ds && m != n && old(Resolved(types, ds, rank, m)) ==> Resolved(types, ds, rank, m)
      invariant forall m :: m in ds && m != n && rank[m] >= rank[n] ==> unchanged(types[m])
    {
      ExtendFrom(types, n, self.parents[i], ds, rank);
      FinalParentAt(ds, rank, n, i);
      AbsorbOneMore(start, finals, i);
    }
    assert finals[..|self.parents|] == finals;
  }

  /** Resolves one parent and takes over what it has. */
  method ExtendFrom(types: map<string, TypeAttr>, n: string, parent: string, ghost ds: Declarations,
                    ghost rank: map<string, nat>)
    requires Represents(types, ds) && Ranked(ds, rank) && NamedDeclarations(ds) && n in ds && parent in ds[n].parents
    requires forall m :: m in ds && rank[m] < rank[n] ==> Settled(types, ds, rank, m)
    modifies Objects(types)
    ensures types[n].Value() == SchemaTypes.Absorb(old(types[n].Value()), Final(ds, rank, parent))
    ensures forall m :: m in ds && rank[m] < rank[n] ==> Settled(types, ds, rank, m)
    ensures forall m :: m in ds && m != n && old(Resolved(types, ds, rank, m)) ==> Resolved(types, ds, rank, m)
    ensures forall m :: m in ds && m != n && rank[m] >= rank[n] ==> unchanged(types[m])
    decreases rank[n], 0
  {
    hide Final, FinalParents, AbsorbAll, SchemaTypes.Absorb, NamedDeclarations, Named;
    ExtendType(types, parent, ds, rank);
    FinalNamed(ds, rank, parent);
    types[n].Absorb(types[parent]);
  }

  /** Visits the types in the order of a hash table, which is any order; the outcome is always the same. */
  /** Every property in a hash says what the declaration that it comes from says. */
  ghost predicate SaysDeclared(types: map<string, TypeAttr>, ds: Declarations, rank: map<string, nat>)
    requires Represents(types, ds) && Ranked(ds, rank)
    reads Objects(types)
  {
    forall m, key | m in ds && key in types[m].prophash ::
      Origin(ds, rank, m, key).Some? &&
      SaysTheSame(types[m].prophash[key], ds[Origin(ds, rank, m, key).value].own.properties[key])
  }

  lemma AllSayDeclared(types: map<string, TypeAttr>, ds: Declarations, rank: map<string, nat>)
    requires Represents(types, ds) && Ranked(ds, rank)
    requires forall m :: m in ds ==> Resolved(types, ds, rank, m)
    ensures SaysDeclared(types, ds, rank)
  {
    hide Final, Origin, SaysTheSame;
    forall m, key | m in ds && key in types[m].prophash
      ensures Origin(ds, rank, m, key).Some?
      ensures SaysTheSame(types[m].prophash[key], ds[Origin(ds, rank, m, key).value].own.properties[key])
    {
      FinalSaysTheSame(ds, rank, m, key);
    }
  }

  method ExtendAll(types: map<string, TypeAttr>, ghost ds: Declarations, ghost rank: map<string, nat>)
    requires Represents(types, ds) && Ranked(ds, rank) && NamedDeclarations(ds)
    requires forall m :: m in ds ==> types[m].Value() == ds[m].own
    modifies Objects(types)
    ensures forall m :: m in ds ==> Resolved(types, ds, rank, m)
    ensures SaysDeclared(types, ds, rank)
  {
    forall m | m in ds
      ensures Settled(types, ds, rank, m)
    {
    }
    hide Final, FinalParents, AbsorbAll, SchemaTypes.Absorb, NamedDeclarations, Settled, Resolved, SaysDeclared;
    var rest := types.Keys;
    while rest != {}
      invariant rest <= types.Keys
      invariant forall m :: m in ds ==> Settled(types, ds, rank, m)
      invariant forall m :: m in ds && m !in rest ==> Resolved(types, ds, rank, m)
      decreases rest
    {
      var n :| n in rest;
      ExtendOne(types, n, ds, rank);
      rest := rest - {n};
    }
    AllSayDeclared(types, ds, rank);
  }

  method ExtendOne(types: map<string, TypeAttr>, n: string, ghost ds: Declarations, ghost rank: map<string, nat>)
    requires Represents(types, ds) && Ranked(ds, rank) && NamedDeclarations(ds) && n in ds
    requires forall m :: m in ds ==> Settled(types, ds, rank, m)
    modifies Objects(types)
    ensures Resolved(types, ds, rank, n)
    ensures forall m :: m in ds ==> Settled(types, ds, rank, m)
    ensures forall m :: m in ds && old(Resolved(types, ds, rank, m)) ==> Resolved(types, ds, rank, m)
  {
    hide Final, FinalParents, AbsorbAll, SchemaTypes.Absorb, NamedDeclarations;
    if types[n].parents == [] {
      NoParents(ds, rank, n);
    } else {
      ExtendType(types, n, ds, rank);
    }
  }
}
