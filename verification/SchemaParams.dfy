/** The ordered property list against the property hash, and the parameter specifications made from both. */
module SchemaParams {
  import opened Wrappers
  import opened SchemaTypes
  import opened SchemaExtend

  predicate NoDuplicates(s: seq<string>) {
    forall i, j :: 0 <= i < j < |s| ==> s[i] != s[j]
  }

  function Members(s: seq<string>): set<string> {
    set x | x in s
  }

  /** The list holds each key of the hash once. */
  predicate Consistent(t: TypeValue) {
    NoDuplicates(t.order) && Members(t.order) == t.properties.Keys
  }

  // ---- Parsing

  method AddProperty(attr: TypeAttr, p: PropertyAttr) returns (ok: bool)
    requires Consistent(attr.Value())
    modifies attr`prophash, attr`propertiesList
    ensures Consistent(attr.Value())
    ensures ok <==> p.name !in Members(old(attr.propertiesList))
    ensures ok ==> attr.propertiesList == old(attr.propertiesList) + [p.name]
    ensures ok ==> attr.prophash == old(attr.prophash)[p.name := p]
  {
    ghost var list := attr.propertiesList;
    if p.name in attr.prophash {
      return false;
    }
    ok := true;
    attr.prophash := attr.prophash[p.name := p];
    attr.propertiesList := attr.propertiesList + [p.name];
    assert Members(list + [p.name]) == Members(list) + {p.name};
    assert forall i :: 0 <= i < |list| ==> list[i] in Members(list);
  }

  /**
   Adds a type's declared properties, hash entry and list entry together; a name that is there
   already is a fatal error.
   */
  method AddProperties(attr: TypeAttr, declared: seq<PropertyAttr>) returns (ok: bool)
    requires Consistent(attr.Value())
    modifies attr`prophash, attr`propertiesList
    ensures Consistent(attr.Value())
    ensures ok <==> NoDuplicates(old(attr.propertiesList) + Names(declared))
    ensures ok ==> attr.propertiesList == old(attr.propertiesList) + Names(declared)
    ensures ok ==> forall i :: 0 <= i < |declared| ==>
                     declared[i].name in attr.prophash && attr.prophash[declared[i].name] == declared[i]
  {
    hide Members, Names;
    ghost var before := attr.propertiesList;
    NamesNone(declared);
    assert before + [] == before;
    for i := 0 to |declared|
      invariant Consistent(attr.Value())
      invariant attr.propertiesList == before + Names(declared[..i])
      invariant forall k :: 0 <= k < i ==>
                  declared[k].name in attr.prophash && attr.prophash[declared[k].name] == declared[k]
    {
      NamesNext(declared, i);
      NameAdded(attr.propertiesList, declared[i].name, before, Names(declared), i);
      ListedNames(before, declared, i);
      hide Consistent, NoDuplicates;
      var added := AddProperty(attr, declared[i]);
      if !added {
        return false;
      }
      assert before + Names(declared[..i]) + [declared[i].name] == before + Names(declared[..i + 1]);
    }
    assert declared[..|declared|] == declared;
    ok := true;
  }

  lemma NamesNone(ps: seq<PropertyAttr>)
    ensures Names(ps[..0]) == []
  {
  }

  /** The names added so far are in the list. */
  lemma ListedNames(before: seq<string>, ps: seq<PropertyAttr>, i: nat)
    requires i <= |ps|
    ensures forall k :: 0 <= k < i ==> ps[k].name in Members(before + Names(ps[..i]))
  {
    var names := Names(ps[..i]);
    forall k | 0 <= k < i
      ensures ps[k].name in Members(before + names)
    {
      assert (before + names)[|before| + k] == names[k] == ps[k].name;
    }
  }

  function Names(ps: seq<PropertyAttr>): (names: seq<string>)
    ensures |names| == |ps|
  {
    seq(|ps|, i requires 0 <= i < |ps| => ps[i].name)
  }

  lemma NamesNext(ps: seq<PropertyAttr>, i: nat)
    requires i < |ps|
    ensures Names(ps[..i + 1]) == Names(ps[..i]) + [ps[i].name]
    ensures Names(ps[..i]) == Names(ps)[..i] && Names(ps)[i] == ps[i].name
  {
  }

  /** A name that is in the list already makes the whole list repeat itself. */
  lemma NameAdded(list: seq<string>, name: string, before: seq<string>, names: seq<string>, i: nat)
    requires i < |names| && name == names[i] && list == before + names[..i]
    ensures name in Members(list) ==> !NoDuplicates(before + names)
  {
    var all := before + names;
    assert forall k :: 0 <= k < |list| ==> list[k] == all[k];
    assert all[|list|] == name;
  }

  // ---- Inheriting

  predicate AllListed(t: TypeValue) {
    forall k :: k in t.properties.Keys ==> Listed(t.order, k)
  }

  /** Names that differ only by case are both among own. */
  predicate OnlyOwnClashes(own: set<string>, names: set<string>) {
    forall a, b :: a in names && b in names && Lower(a) == Lower(b) && a != b ==> a in own && b in own
  }

  /** What absorbing parents keeps of a type that declared own. */
  predicate Shaped(own: set<string>, t: TypeValue) {
    own <= Members(t.order) <= t.properties.Keys && NoDuplicates(t.order) && AllListed(t) &&
    OnlyOwnClashes(own, Members(t.order))
  }

  lemma {:induction false} PrependedMembers(own: set<string>, order: seq<string>, names: seq<string>)
    requires NoDuplicates(order) && own <= Members(order) && OnlyOwnClashes(own, Members(order))
    ensures NoDuplicates(Prepended(order, names)) && OnlyOwnClashes(own, Members(Prepended(order, names)))
    ensures Members(order) <= Members(Prepended(order, names)) <= Members(order) + Members(names)
    decreases |names|
  {
    if names != [] {
      var n := |names| - 1;
      hide OnlyOwnClashes, NoDuplicates;
      PrependedMembers(own, order, names[..n]);
      assert names == names[..n] + [names[n]];
      assert Members(names) == Members(names[..n]) + {names[n]};
      if !Listed(Prepended(order, names[..n]), names[n]) {
        OnePrepended(own, Prepended(order, names[..n]), names[n]);
      }
    }
  }

  lemma OnePrepended(own: set<string>, order: seq<string>, name: string)
    requires NoDuplicates(order) && OnlyOwnClashes(own, Members(order)) && !Listed(order, name)
    ensures NoDuplicates([name] + order) && OnlyOwnClashes(own, Members([name] + order))
    ensures Members([name] + order) == {name} + Members(order)
  {
    hide Lower;
    var all := [name] + order;
    assert forall i :: 0 < i < |all| ==> all[i] == order[i - 1];
    assert Members(all) == {name} + Members(order) by {
      assert all[0] == name;
      assert forall i :: 0 <= i < |order| ==> all[i + 1] == order[i];
    }
    forall a | a in Members(order)
      ensures Lower(a) != Lower(name)
    {
      var i :| 0 <= i < |order| && order[i] == a;
    }
  }

  lemma AbsorbListed(t: TypeValue, p: TypeValue)
    requires AllListed(t) && AllListed(p)
    ensures AllListed(Absorb(t, p))
  {
    PrependedLists(t.order, p.order);
    var r := Absorb(t, p);
    forall k | k in r.properties.Keys
      ensures Listed(r.order, k)
    {
      if k !in t.properties.Keys {
        assert Listed(p.order, k);
        var i :| 0 <= i < |p.order| && Lower(p.order[i]) == Lower(k);
        assert Listed(r.order, p.order[i]);
      } else {
        assert Listed(t.order, k);
      }
    }
  }

  lemma AbsorbShaped(own: set<string>, t: TypeValue, p: TypeValue)
    requires Shaped(own, t) && AllListed(p) && Members(p.order) <= p.properties.Keys
    ensures Shaped(own, Absorb(t, p))
  {
    AbsorbListed(t, p);
    PrependedMembers(own, t.order, p.order);
    assert Absorb(t, p).properties.Keys == t.properties.Keys + p.properties.Keys;
  }

  /** The list is as it should be exactly if only declared names differ by nothing but case. */
  lemma ShapedConsistent(own: set<string>, t: TypeValue)
    requires Shaped(own, t)
    ensures Consistent(t) <==> OnlyOwnClashes(own, t.properties.Keys)
  {
    hide Lower;
    if OnlyOwnClashes(own, t.properties.Keys) {
      forall k | k in t.properties.Keys
        ensures k in Members(t.order)
      {
        assert Listed(t.order, k);
        var i :| 0 <= i < |t.order| && Lower(t.order[i]) == Lower(k);
        assert t.order[i] in Members(t.order);
      }
    }
  }

  ghost predicate DeclaredConsistently(ds: Declarations) {
    forall n :: n in ds ==> Consistent(ds[n].own)
  }

  lemma ConsistentShaped(t: TypeValue)
    requires Consistent(t)
    ensures Shaped(t.properties.Keys, t)
  {
    hide Lower;
    forall k | k in t.properties.Keys
      ensures Listed(t.order, k)
    {
      assert k in Members(t.order);
      var i :| 0 <= i < |t.order| && t.order[i] == k;
    }
  }

  /** The type or one of its ancestors declares a property of this name. */
  ghost predicate Declares(ds: Declarations, rank: map<string, nat>, n: string, key: string)
    requires Ranked(ds, rank) && n in ds
    decreases rank[n]
  {
    key in ds[n].own.properties ||
    exists i :: 0 <= i < |ds[n].parents| && Declares(ds, rank, ds[n].parents[i], key)
  }

  lemma {:induction false} PropertyIsDeclared(ds: Declarations, rank: map<string, nat>, n: string, key: string)
    requires Ranked(ds, rank) && n in ds
    ensures PropertyOf(ds, rank, n, key).Some? <==> Declares(ds, rank, n, key)
    decreases rank[n], |ds[n].parents| + 1
  {
    InheritedIsDeclared(ds, rank, n, key, 0);
  }

  lemma {:induction false} InheritedIsDeclared(ds: Declarations, rank: map<string, nat>, n: string, key: string, i: nat)
    requires Ranked(ds, rank) && n in ds && i <= |ds[n].parents|
    ensures FirstInherited(ds, rank, n, key, i).Some? <==>
            exists j :: i <= j < |ds[n].parents| && Declares(ds, rank, ds[n].parents[j], key)
    decreases rank[n], |ds[n].parents| - i
  {
    if i < |ds[n].parents| {
      hide Declares;
      PropertyIsDeclared(ds, rank, ds[n].parents[i], key);
      InheritedIsDeclared(ds, rank, n, key, i + 1);
    }
  }

  /** Of the names that the type and its ancestors declare, only names of the type's own differ by nothing but case. */
  ghost predicate OnlyOwnNamesClash(ds: Declarations, rank: map<string, nat>, n: string)
    requires Ranked(ds, rank) && n in ds
  {
    forall a, b | Declares(ds, rank, n, a) && Declares(ds, rank, n, b) && Lower(a) == Lower(b) && a != b ::
      a in ds[n].own.properties && b in ds[n].own.properties
  }

  lemma ClashesAreDeclared(ds: Declarations, rank: map<string, nat>, n: string)
    requires Ranked(ds, rank) && n in ds
    ensures OnlyOwnNamesClash(ds, rank, n) <==>
            OnlyOwnClashes(ds[n].own.properties.Keys, Final(ds, rank, n).properties.Keys)
  {
    hide Declares, Final, Lower, PropertyOf;
    forall key
      ensures Declares(ds, rank, n, key) <==> key in Final(ds, rank, n).properties.Keys
    {
      PropertyIsDeclared(ds, rank, n, key);
      FinalProperty(ds, rank, n, key);
    }
  }

  /** Resolving inheritance keeps list and hash together exactly if no other declared names clash. */
  lemma FinalConsistent(ds: Declarations, rank: map<string, nat>, n: string)
    requires Ranked(ds, rank) && n in ds && DeclaredConsistently(ds)
    ensures Consistent(Final(ds, rank, n)) <==> OnlyOwnNamesClash(ds, rank, n)
  {
    hide Final, FinalParents, Ranked, Shaped, Consistent, OnlyOwnClashes, OnlyOwnNamesClash;
    FinalShaped(ds, rank, n);
    ShapedConsistent(ds[n].own.properties.Keys, Final(ds, rank, n));
    ClashesAreDeclared(ds, rank, n);
  }

  lemma {:induction false} FinalShaped(ds: Declarations, rank: map<string, nat>, n: string)
    requires Ranked(ds, rank) && n in ds && DeclaredConsistently(ds)
    ensures Shaped(ds[n].own.properties.Keys, Final(ds, rank, n))
    decreases rank[n], |ds[n].parents| + 1
  {
    hide Shaped;
    var finals := FinalParents(ds, rank, n);
    assert finals[..|finals|] == finals;
    ShapedAfter(ds, rank, n, |finals|);
  }

  lemma {:induction false} ShapedAfter(ds: Declarations, rank: map<string, nat>, n: string, i: nat)
    requires Ranked(ds, rank) && n in ds && DeclaredConsistently(ds) && i <= |ds[n].parents|
    ensures Shaped(ds[n].own.properties.Keys, AbsorbAll(ds[n].own, FinalParents(ds, rank, n)[..i]))
    decreases rank[n], i
  {
    hide Consistent, Shaped, Final, Absorb, FinalParents;
    if i == 0 {
      assert FinalParents(ds, rank, n)[..0] == [];
      ConsistentShaped(ds[n].own);
    } else {
      AbsorbNext(ds, rank, n, i);
      hide AbsorbAll;
      var parent := ds[n].parents[i - 1];
      ShapedAfter(ds, rank, n, i - 1);
      FinalShaped(ds, rank, parent);
      ShapedIsListed(ds[parent].own.properties.Keys, Final(ds, rank, parent));
      var t := AbsorbAll(ds[n].own, FinalParents(ds, rank, n)[..i - 1]);
      AbsorbShaped(ds[n].own.properties.Keys, t, Final(ds, rank, parent));
    }
  }

  lemma ShapedIsListed(own: set<string>, t: TypeValue)
    requires Shaped(own, t)
    ensures AllListed(t) && Members(t.order) <= t.properties.Keys
  {
  }

  // ---- Parameter specifications

  datatype Kind = StringKind | TimestampKind | UintKind | IntKind | FloatKind | BooleanKind
  datatype ParamSpec = ParamSpec(property: string, kind: Kind)

  /** The kind has the property's own type; strings also stand for all types without a kind of their own. */
  predicate Fits(kind: Kind, gtype: GType) {
    (kind == TimestampKind <==> gtype == TimestampType) && (kind == UintKind <==> gtype == UintType) &&
    (kind == IntKind <==> gtype == IntType) && (kind == FloatKind <==> gtype == FloatType) &&
    (kind == BooleanKind <==> gtype == BooleanType) &&
    (kind == StringKind <==> gtype == StringType || gtype == OtherType)
  }

  function KindOf(gtype: GType): (kind: Kind)
    ensures Fits(kind, gtype)
  {
    match gtype
    case StringType => StringKind
    case TimestampType => TimestampKind
    case UintType => UintKind
    case IntType => IntKind
    case FloatType => FloatKind
    case BooleanType => BooleanKind
    case OtherType => StringKind
  }

  /** How many list entries precede the first one without a hash entry. */
  function Found(t: TypeValue, i: nat): (k: nat)
    requires i <= |t.order|
    ensures i <= k <= |t.order|
    decreases |t.order| - i
  {
    if i < |t.order| && t.order[i] in t.properties then Found(t, i + 1) else i
  }

  /**
   Fills one slot for each listed property until one is missing from the hash. A list without
   repetition keeps the writes inside the allocation.
   */
  method InitializeParamspec(attr: TypeAttr) returns (params: array?<Option<ParamSpec>>)
    requires attr.numProperties == 0 && NoDuplicates(attr.propertiesList)
    modifies attr`numProperties
    ensures params == null <==> |attr.prophash| < 1
    ensures params == null ==> attr.numProperties == 0
    ensures params != null ==>
              params.Length == |attr.prophash| + 1 && attr.numProperties == Found(attr.Value(), 0) <= |attr.prophash| &&
              forall i :: 0 <= i < attr.numProperties ==>
                attr.propertiesList[i] in attr.prophash &&
                params[i] == Some(ParamSpec(attr.propertiesList[i],
                                            KindOf(attr.prophash[attr.propertiesList[i]].gtype)))
    ensures params != null ==>
              forall i :: 0 <= i < attr.numProperties ==>
                params[i].Some? && Fits(params[i].value.kind, attr.prophash[attr.propertiesList[i]].gtype)
    ensures params != null && Consistent(attr.Value()) ==>
              attr.numProperties == |attr.prophash| == |attr.propertiesList|
  {
    hide Consistent, Members, Fits;
    var n := |attr.prophash|;
    if n < 1 {
      return null;
    }
    ghost var t := attr.Value();
    var list := attr.propertiesList;
    if Consistent(t) {
      ConsistentLength(t);
    }
    params := new Option<ParamSpec>[n + 1](_ => None);
    var i := 0;
    while i < |list|
      invariant i <= |list| && attr.numProperties == i && Found(t, 0) == Found(t, i)
      invariant fresh(params) && params.Length == n + 1 && i <= n
      invariant forall k :: 0 <= k < i ==> list[k] in attr.prophash
      invariant forall k :: 0 <= k < i ==> params[k] == Some(ParamSpec(list[k], KindOf(attr.prophash[list[k]].gtype)))
    {
      PrefixFits(t, i);
      var property := list[i];
      if property !in attr.prophash {
        if Consistent(t) {
          ListedHasEntry(t, i);
        }
        return;
      }
      PrefixFits(t, i + 1);
      attr.numProperties := attr.numProperties + 1;
      params[attr.numProperties - 1] := Some(ParamSpec(property, KindOf(attr.prophash[property].gtype)));
      i := i + 1;
    }
    PrefixFits(t, i);
  }

  lemma {:induction false} DistinctCount(s: seq<string>)
    requires NoDuplicates(s)
    ensures |Members(s)| == |s|
  {
    if s != [] {
      var n := |s| - 1;
      DistinctCount(s[..n]);
      assert s == s[..n] + [s[n]];
      assert Members(s) == Members(s[..n]) + {s[n]};
    }
  }

  lemma SubsetCount(a: set<string>, b: set<string>)
    requires a <= b
    ensures |a| <= |b|
  {
    assert b == a + (b - a);
  }

  lemma ConsistentLength(t: TypeValue)
    requires Consistent(t)
    ensures |t.order| == |t.properties|
  {
    DistinctCount(t.order);
    assert |t.properties| == |t.properties.Keys|;
  }

  lemma ListedHasEntry(t: TypeValue, i: nat)
    requires Consistent(t) && i < |t.order|
    ensures t.order[i] in t.properties
  {
    assert t.order[i] in Members(t.order);
  }

  lemma PrefixFits(t: TypeValue, i: nat)
    requires NoDuplicates(t.order) && i <= |t.order|
    requires forall k :: 0 <= k < i ==> t.order[k] in t.properties
    ensures i <= |t.properties|
  {
    DistinctCount(t.order[..i]);
    assert Members(t.order[..i]) <= t.properties.Keys;
    SubsetCount(Members(t.order[..i]), t.properties.Keys);
    assert |t.properties| == |t.properties.Keys|;
  }

  lemma {:induction false} AllFound(t: TypeValue, i: nat)
    requires Members(t.order) <= t.properties.Keys && i <= |t.order|
    ensures Found(t, i) == |t.order|
    decreases |t.order| - i
  {
    if i < |t.order| {
      assert t.order[i] in Members(t.order);
      AllFound(t, i + 1);
    }
  }

  lemma FullSubset(a: set<string>, b: set<string>)
    requires a <= b && |a| == |b|
    ensures a == b
  {
    assert b == a + (b - a);
    assert |b - a| == 0;
  }

  /** A resolved type gets a slot for every property exactly if no declared names clash but its own. */
  lemma SlotsForAll(ds: Declarations, rank: map<string, nat>, n: string)
    requires Ranked(ds, rank) && n in ds && DeclaredConsistently(ds)
    ensures var t := Final(ds, rank, n);
            NoDuplicates(t.order) && Found(t, 0) <= |t.properties| &&
            (Found(t, 0) == |t.properties| <==> OnlyOwnNamesClash(ds, rank, n))
  {
    hide Final, Ranked, Members, OnlyOwnClashes, OnlyOwnNamesClash;
    var t := Final(ds, rank, n);
    FinalShaped(ds, rank, n);
    FinalConsistent(ds, rank, n);
    AllFound(t, 0);
    DistinctCount(t.order);
    SubsetCount(Members(t.order), t.properties.Keys);
    assert |t.properties| == |t.properties.Keys|;
    if |Members(t.order)| == |t.properties.Keys| {
      FullSubset(Members(t.order), t.properties.Keys);
    }
  }

  // ---- Names that differ only by case

  function Plain(name: string): PropertyAttr {
    PropertyAttr(name, StringType, None, None, None, map[], false, false, false)
  }

  function TypeWith(name: string): TypeValue {
    TypeValue(None, None, map[], map[name := Plain(name)], [name])
  }

  function TitleTypes(): Declarations {
    map["child" := Declaration(["parent"], TypeWith("Title")), "parent" := Declaration([], TypeWith("title"))]
  }

  /** A child's Title hides its parent's title from the list but not from the hash. */
  lemma CaseClashBreaksList()
    ensures var ds, rank := TitleTypes(), map["child" := 1, "parent" := 0];
            Ranked(ds, rank) && DeclaredConsistently(ds) &&
            var t := Final(ds, rank, "child");
            |t.properties| == 2 && t.order == ["Title"] && !Consistent(t)
  {
    var ds, rank := TitleTypes(), map["child" := 1, "parent" := 0];
    TitlesClash();
    assert FinalParents(ds, rank, "parent") == [];
    assert FinalParents(ds, rank, "child") == [TypeWith("title")];
    assert AbsorbAll(TypeWith("Title"), [TypeWith("title")][..0]) == TypeWith("Title");
    hide Absorb;
    assert Final(ds, rank, "child") == Absorb(TypeWith("Title"), TypeWith("title"));
  }

  lemma TitlesClash()
    ensures Consistent(TypeWith("Title")) && Consistent(TypeWith("title"))
    ensures var t := Absorb(TypeWith("Title"), TypeWith("title"));
            |t.properties| == 2 && t.order == ["Title"] && !Consistent(t)
  {
    var child, parent := TypeWith("Title"), TypeWith("title");
    assert "Title"[0] == 'T' && "title"[0] == 't';
    assert Lower("Title") == "title" && Lower("title") == "title";
    assert Listed(["Title"], "title") by { assert Lower(["Title"][0]) == Lower("title"); }
    assert Prepended(["Title"], ["title"][..0]) == ["Title"];
    var t := Absorb(child, parent);
    assert t.order == ["Title"];
    assert t.properties.Keys == {"Title", "title"};
    assert |t.properties| == |t.properties.Keys|;
    assert "title" !in Members(t.order);
  }
}
