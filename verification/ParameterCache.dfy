/**
 An object's parameters: rows of a parameter table in the database, cached one domain at a time in
 collectors that are filled on the first read of the domain and updated beside every write.
 */
module ParameterCache {
  import opened Wrappers

  datatype Row = Row(parentGuid: string, domain: string, name: string, value: string, deleted: bool)
  type Rows = map<nat, Row>

  /** A collector's two-level content: for each key the values of its subkeys. */
  type Datalist = map<string, map<string, string>>

  /** The properties of the parameter class itself. */
  const CLASS_PROPERTIES := {"guid", "id", "domain", "name", "value", "parentguid"}

  /** The properties of the metadata class, which are accepted as well. */
  const METADATA_PROPERTIES := {
    "creator", "created", "revisor", "revised", "revision", "locker", "locked", "approver", "approved",
    "authors", "owner", "schedulestart", "scheduleend", "hidden", "navnoentry", "size", "published",
    "score", "exported", "imported", "deleted", "isapproved", "islocked", "connection"
  }

  /** The title of the key column in a collector's query; it is no property. */
  const KEY_COLUMN := "midgard_collector_key"

  // ---- What the cache should say

  predicate Live(row: Row, guid: string, domain: string) {
    row.parentGuid == guid && row.domain == domain && !row.deleted
  }

  predicate LiveNamed(row: Row, guid: string, domain: string, name: string) {
    Live(row, guid, domain) && row.name == name
  }

  /** At most one live row for each name of an object's domain. */
  ghost predicate Unique(rows: Rows, guid: string, domain: string) {
    forall i, j :: i in rows && j in rows && Live(rows[i], guid, domain) && Live(rows[j], guid, domain) && i != j ==>
      rows[i].name != rows[j].name
  }

  /** The answer of an uncached query. */
  ghost predicate Answers(rows: Rows, guid: string, domain: string, name: string, answer: Option<string>) {
    match answer
    case Some(value) => exists i :: i in rows && LiveNamed(rows[i], guid, domain, name) && rows[i].value == value
    case None => forall i :: i in rows ==> !LiveNamed(rows[i], guid, domain, name)
  }

  function Cached(d: Datalist, name: string): Option<string> {
    if name in d && "value" in d[name] then Some(d[name]["value"]) else None
  }

  /** The cached content gives the database's answer for every name. */
  ghost predicate Mirrors(d: Datalist, rows: Rows, guid: string, domain: string) {
    forall name :: Answers(rows, guid, domain, name, Cached(d, name))
  }

  ghost predicate NoneLive(rows: Rows, guid: string, domain: string) {
    forall i :: i in rows ==> !Live(rows[i], guid, domain)
  }

  /** An empty collector is right exactly when there is nothing to read. */
  lemma EmptyMirrors(rows: Rows, guid: string, domain: string)
    ensures Mirrors(map[], rows, guid, domain) <==> NoneLive(rows, guid, domain)
  {
    if !NoneLive(rows, guid, domain) {
      var i :| i in rows && Live(rows[i], guid, domain);
      assert LiveNamed(rows[i], guid, domain, rows[i].name);
      assert !Answers(rows, guid, domain, rows[i].name, Cached(map[], rows[i].name));
    }
  }

  function SetValue(d: Datalist, key: string, subkey: string, value: string): Datalist {
    d[key := if key in d then d[key][subkey := value] else map[subkey := value]]
  }

  // ---- Writes beside a right collector

  lemma CreateMirrors(d: Datalist, rows: Rows, id: nat, guid: string, domain: string, name: string, value: string)
    requires id !in rows && Unique(rows, guid, domain) && Mirrors(d, rows, guid, domain) && Cached(d, name) == None
    ensures var rows' := rows[id := Row(guid, domain, name, value, false)];
            Unique(rows', guid, domain) && Mirrors(SetValue(d, name, "value", value), rows', guid, domain)
  {
    var rows' := rows[id := Row(guid, domain, name, value, false)];
    assert Answers(rows, guid, domain, name, None);
    forall other
      ensures Answers(rows', guid, domain, other, Cached(SetValue(d, name, "value", value), other))
    {
      assert Answers(rows, guid, domain, other, Cached(d, other));
      assert LiveNamed(rows'[id], guid, domain, name);
      if other != name && Cached(d, other).Some? {
        var i :| i in rows && LiveNamed(rows[i], guid, domain, other) && rows[i].value == Cached(d, other).value;
        assert rows'[i] == rows[i];
      }
    }
  }

  lemma UpdateMirrors(d: Datalist, rows: Rows, id: nat, guid: string, domain: string, name: string, value: string)
    requires id in rows && LiveNamed(rows[id], guid, domain, name)
    requires Unique(rows, guid, domain) && Mirrors(d, rows, guid, domain)
    ensures var rows' := rows[id := rows[id].(value := value)];
            Unique(rows', guid, domain) && Mirrors(SetValue(d, name, "value", value), rows', guid, domain)
  {
    var rows' := rows[id := rows[id].(value := value)];
    forall other
      ensures Answers(rows', guid, domain, other, Cached(SetValue(d, name, "value", value), other))
    {
      assert Answers(rows, guid, domain, other, Cached(d, other));
      assert LiveNamed(rows'[id], guid, domain, name);
      if other != name && Cached(d, other).Some? {
        var i :| i in rows && LiveNamed(rows[i], guid, domain, other) && rows[i].value == Cached(d, other).value;
        assert rows'[i] == rows[i];
      }
    }
  }

  lemma DeleteMirrors(d: Datalist, rows: Rows, id: nat, guid: string, domain: string, name: string)
    requires id in rows && LiveNamed(rows[id], guid, domain, name)
    requires Unique(rows, guid, domain) && Mirrors(d, rows, guid, domain)
    ensures var rows' := rows[id := rows[id].(deleted := true)];
            Unique(rows', guid, domain) && Mirrors(d - {name}, rows', guid, domain)
  {
    var rows' := rows[id := rows[id].(deleted := true)];
    forall other
      ensures Answers(rows', guid, domain, other, Cached(d - {name}, other))
    {
      assert Answers(rows, guid, domain, other, Cached(d, other));
      if other != name && Cached(d, other).Some? {
        var i :| i in rows && LiveNamed(rows[i], guid, domain, other) && rows[i].value == Cached(d, other).value;
        assert rows'[i] == rows[i];
      }
    }
  }

  // ---- Writes beside a collector that a failed load left empty

  /** A live row that the collector does not know, or that another live row has the name of. */
  ghost predicate Missed(d: Datalist, rows: Rows, guid: string, domain: string, i: nat) {
    i in rows && Live(rows[i], guid, domain) &&
    (Cached(d, rows[i].name) == None ||
     exists j :: j in rows && j != i && LiveNamed(rows[j], guid, domain, rows[i].name))
  }

  ghost predicate Stale(d: Datalist, rows: Rows, guid: string, domain: string) {
    exists i: nat :: Missed(d, rows, guid, domain, i)
  }

  lemma StaleIsWrong(d: Datalist, rows: Rows, guid: string, domain: string)
    requires Stale(d, rows, guid, domain)
    ensures !Unique(rows, guid, domain) || !Mirrors(d, rows, guid, domain)
  {
    var i: nat :| Missed(d, rows, guid, domain, i);
    assert Cached(d, rows[i].name) == None ==> !Answers(rows, guid, domain, rows[i].name, Cached(d, rows[i].name));
  }

  lemma FailedLoadIsStale(rows: Rows, guid: string, domain: string)
    requires !NoneLive(rows, guid, domain)
    ensures Stale(map[], rows, guid, domain)
  {
    var i :| i in rows && Live(rows[i], guid, domain);
    assert Missed(map[], rows, guid, domain, i);
  }

  /** A creation leaves the row unknown, or gives it a double. */
  lemma CreateStaysStale(d: Datalist, rows: Rows, id: nat, guid: string, domain: string, name: string, value: string)
    requires id !in rows && Stale(d, rows, guid, domain)
    ensures Stale(SetValue(d, name, "value", value), rows[id := Row(guid, domain, name, value, false)], guid, domain)
  {
    var rows' := rows[id := Row(guid, domain, name, value, false)];
    var i: nat :| Missed(d, rows, guid, domain, i);
    assert rows'[i] == rows[i];
    if rows[i].name == name {
      assert id != i && LiveNamed(rows'[id], guid, domain, name);
    } else if Cached(d, rows[i].name).Some? {
      var j :| j in rows && j != i && LiveNamed(rows[j], guid, domain, rows[i].name);
      assert rows'[j] == rows[j];
    }
    assert Missed(SetValue(d, name, "value", value), rows', guid, domain, i);
  }

  lemma UpdateStaysStale(d: Datalist, rows: Rows, id: nat, guid: string, domain: string, name: string, value: string)
    requires id in rows && LiveNamed(rows[id], guid, domain, name) && Cached(d, name).Some?
    requires Stale(d, rows, guid, domain)
    ensures Stale(SetValue(d, name, "value", value), rows[id := rows[id].(value := value)], guid, domain)
  {
    var rows' := rows[id := rows[id].(value := value)];
    var i: nat :| Missed(d, rows, guid, domain, i);
    if Cached(d, rows[i].name).Some? {
      var j :| j in rows && j != i && LiveNamed(rows[j], guid, domain, rows[i].name);
      assert LiveNamed(rows'[j], guid, domain, rows'[i].name);
    }
    assert Missed(SetValue(d, name, "value", value), rows', guid, domain, i);
  }

  /** Deleting one of two rows forgets the other. */
  lemma DeleteStaysStale(d: Datalist, rows: Rows, id: nat, guid: string, domain: string, name: string)
    requires id in rows && LiveNamed(rows[id], guid, domain, name) && Cached(d, name).Some?
    requires Stale(d, rows, guid, domain)
    ensures Stale(d - {name}, rows[id := rows[id].(deleted := true)], guid, domain)
  {
    var rows' := rows[id := rows[id].(deleted := true)];
    var i: nat :| Missed(d, rows, guid, domain, i);
    var left := i;
    if Cached(d, rows[i].name).Some? {
      var j :| j in rows && j != i && LiveNamed(rows[j], guid, domain, rows[i].name);
      if i == id {
        left := j;
      } else if rows[i].name != name {
        assert LiveNamed(rows'[j], guid, domain, rows'[i].name);
      }
    }
    assert Missed(d - {name}, rows', guid, domain, left);
  }

  // ---- Other domains and other objects

  predicate SameLive(before: Rows, after: Rows, guid: string, domain: string) {
    (forall i :: i in before && Live(before[i], guid, domain) ==> i in after && after[i] == before[i]) &&
    forall i :: i in after && Live(after[i], guid, domain) ==> i in before && after[i] == before[i]
  }

  /** What a collector says, and whether it is stale, depends only on the rows of its own object and domain. */
  lemma MirrorsFrame(d: Datalist, before: Rows, after: Rows, guid: string, domain: string)
    requires SameLive(before, after, guid, domain)
    ensures Mirrors(d, before, guid, domain) ==> Mirrors(d, after, guid, domain)
    ensures Unique(before, guid, domain) ==> Unique(after, guid, domain)
    ensures Stale(d, before, guid, domain) ==> Stale(d, after, guid, domain)
  {
    if Mirrors(d, before, guid, domain) {
      forall name
        ensures Answers(after, guid, domain, name, Cached(d, name))
      {
        assert Answers(before, guid, domain, name, Cached(d, name));
      }
    }
    if Stale(d, before, guid, domain) {
      var i: nat :| Missed(d, before, guid, domain, i);
      if Cached(d, before[i].name).Some? {
        var j :| j in before && j != i && LiveNamed(before[j], guid, domain, before[i].name);
        assert LiveNamed(after[j], guid, domain, after[i].name);
      }
      assert Missed(d, after, guid, domain, i);
    }
  }

  /** Only rows of one object, domain and name differ. */
  ghost predicate OnlyTouched(before: Rows, after: Rows, guid: string, domain: string, name: string) {
    (forall i :: i in before ==>
      i in after &&
      (after[i] != before[i] ==>
        LiveNamed(before[i], guid, domain, name) &&
        after[i] == before[i].(value := after[i].value, deleted := after[i].deleted))) &&
    forall i :: i in after && i !in before ==> LiveNamed(after[i], guid, domain, name)
  }

  lemma NothingTouched(rows: Rows, guid: string, domain: string, name: string)
    ensures OnlyTouched(rows, rows, guid, domain, name)
  {
  }

  /** What a collector of another object or another domain says stays as right or as wrong as it was. */
  lemma OthersStay(before: Rows, after: Rows, guid: string, domain: string, name: string, d: Datalist,
                   otherGuid: string, otherDomain: string)
    requires OnlyTouched(before, after, guid, domain, name) && (otherGuid != guid || otherDomain != domain)
    ensures Mirrors(d, before, otherGuid, otherDomain) <==> Mirrors(d, after, otherGuid, otherDomain)
    ensures Unique(before, otherGuid, otherDomain) <==> Unique(after, otherGuid, otherDomain)
    ensures Stale(d, before, otherGuid, otherDomain) <==> Stale(d, after, otherGuid, otherDomain)
  {
    hide Mirrors, Unique, Stale;
    MirrorsFrame(d, before, after, otherGuid, otherDomain);
    MirrorsFrame(d, after, before, otherGuid, otherDomain);
  }

  // ---- The database

  /** The parameter table; each write may fail and then changes nothing. */
  class Database {
    var rows: Rows

    constructor ()
      ensures rows == map[]
    {
      rows := map[];
    }

    method Create(row: Row, id: nat, succeeds: bool) returns (ok: bool)
      requires id !in rows
      modifies this
      ensures ok == succeeds && rows == if ok then old(rows)[id := row] else old(rows)
    {
      if succeeds {
        rows := rows[id := row];
      }
      return succeeds;
    }

    /** A row number that is not in use. */
    method NextId() returns (id: nat)
      ensures id !in rows
    {
      id := 0;
      var rest := rows.Keys;
      while rest != {}
        invariant rest <= rows.Keys
        invariant forall k :: k in rows && k !in rest ==> k < id
        decreases rest
      {
        var k :| k in rest;
        if k >= id {
          id := k + 1;
        }
        rest := rest - {k};
      }
    }

    method Update(id: nat, value: string, succeeds: bool) returns (ok: bool)
      requires id in rows
      modifies this
      ensures ok == succeeds && rows == if ok then old(rows)[id := old(rows)[id].(value := value)] else old(rows)
    {
      if succeeds {
        rows := rows[id := rows[id].(value := value)];
      }
      return succeeds;
    }

    method Delete(id: nat, succeeds: bool) returns (ok: bool)
      requires id in rows
      modifies this
      ensures ok == succeeds && rows == if ok then old(rows)[id := old(rows)[id].(deleted := true)] else old(rows)
    {
      if succeeds {
        rows := rows[id := rows[id].(deleted := true)];
      }
      return succeeds;
    }
  }

  // ---- Collectors

  class Collector {
    var datalist: Datalist

    constructor ()
      ensures datalist == map[]
    {
      datalist := map[];
    }

    method Set(key: string, subkey: string, value: string) returns (ok: bool)
      modifies this
      ensures ok <==> subkey in CLASS_PROPERTIES + METADATA_PROPERTIES
      ensures datalist == if ok then SetValue(old(datalist), key, subkey, value) else old(datalist)
    {
      if subkey !in CLASS_PROPERTIES + METADATA_PROPERTIES {
        return false;
      }
      var values := if key in datalist then datalist[key] else map[];
      values := values[subkey := value];
      datalist := datalist[key := values];
      return true;
    }

    method GetSubkey(key: string, subkey: string) returns (value: Option<string>)
      ensures subkey == "value" ==> value == Cached(datalist, key)
    {
      if subkey !in CLASS_PROPERTIES + METADATA_PROPERTIES {
        return None;
      }
      if key !in datalist {
        return None;
      }
      return if subkey in datalist[key] then Some(datalist[key][subkey]) else None;
    }

    method RemoveKey(key: string) returns (ok: bool)
      modifies this
      ensures ok <==> key in old(datalist)
      ensures datalist == old(datalist) - {key}
    {
      if key !in datalist {
        return false;
      }
      datalist := datalist - {key};
      return true;
    }

    /** A row of the query's result: the setter refuses the key column and takes the value. */
    method LoadRow(row: Row)
      modifies this
      ensures datalist == SetValue(old(datalist), row.name, "value", row.value)
    {
      hide SetValue;
      var _ := Set(row.name, KEY_COLUMN, row.name);
      var _ := Set(row.name, "value", row.value);
    }

    /** Loads the live rows of one object and domain, in any order; a failed query loads nothing. */
    method Execute(db: Database, guid: string, domain: string, succeeds: bool) returns (ok: bool)
      requires datalist == map[]
      modifies this
      ensures ok == succeeds
      ensures if ok then Mirrors(datalist, db.rows, guid, domain) else datalist == map[]
    {
      if !succeeds {
        return false;
      }
      hide Mirrors, SetValue, LoadedFrom;
      var found := set i | i in db.rows && Live(db.rows[i], guid, domain);
      var rest := found;
      NothingLoaded(db.rows);
      assert found - rest == {};
      while rest != {}
        invariant rest <= found
        invariant LoadedFrom(datalist, db.rows, found - rest)
        decreases rest
      {
        var i :| i in rest;
        LoadOneMore(datalist, db.rows, found - rest, i);
        assert found - (rest - {i}) == (found - rest) + {i};
        LoadRow(db.rows[i]);
        rest := rest - {i};
      }
      assert found - {} == found;
      LoadMirrors(datalist, db.rows, guid, domain);
      return true;
    }
  }

  /** The content is made of the given rows: every name has a value, and every value is one of its rows'. */
  ghost predicate LoadedFrom(d: Datalist, rows: Rows, part: set<nat>) {
    (forall i :: i in part ==> i in rows && rows[i].name in d) &&
    forall k :: k in d ==>
      exists i :: i in part && i in rows && rows[i].name == k && Cached(d, k) == Some(rows[i].value)
  }

  lemma NothingLoaded(rows: Rows)
    ensures LoadedFrom(map[], rows, {})
  {
  }

  lemma LoadOneMore(d: Datalist, rows: Rows, part: set<nat>, i: nat)
    requires LoadedFrom(d, rows, part) && i in rows
    ensures LoadedFrom(SetValue(d, rows[i].name, "value", rows[i].value), rows, part + {i})
  {
    var d' := SetValue(d, rows[i].name, "value", rows[i].value);
    forall k | k in d'
      ensures exists j :: j in part + {i} && j in rows && rows[j].name == k && Cached(d', k) == Some(rows[j].value)
    {
      if k == rows[i].name {
        assert Cached(d', k) == Some(rows[i].value);
      } else {
        var j :| j in part && j in rows && rows[j].name == k && Cached(d, k) == Some(rows[j].value);
        assert j in part + {i};
      }
    }
  }

  lemma LoadMirrors(d: Datalist, rows: Rows, guid: string, domain: string)
    requires LoadedFrom(d, rows, set i | i in rows && Live(rows[i], guid, domain))
    ensures Mirrors(d, rows, guid, domain)
  {
    var found := set i | i in rows && Live(rows[i], guid, domain);
    forall name
      ensures Answers(rows, guid, domain, name, Cached(d, name))
    {
      if name in d {
        var i :| i in found && rows[i].name == name && Cached(d, name) == Some(rows[i].value);
      } else {
        forall i | i in rows
          ensures !LiveNamed(rows[i], guid, domain, name)
        {
          assert Live(rows[i], guid, domain) ==> i in found;
        }
      }
    }
  }

  lemma CachedIsFound(d: Datalist, rows: Rows, guid: string, domain: string, name: string, found: set<nat>)
    requires Mirrors(d, rows, guid, domain) && Cached(d, name).Some?
    requires found == set i | i in rows && LiveNamed(rows[i], guid, domain, name)
    ensures found != {} && !Answers(rows, guid, domain, name, None)
  {
    assert Answers(rows, guid, domain, name, Cached(d, name));
    var i: nat :| i in rows && LiveNamed(rows[i], guid, domain, name);
    assert i in found;
  }

  // ---- Objects

  /** A call on an object, with what the database makes of it: whether loads, lookups and writes succeed. */
  datatype Call = Get(domain: string, name: string, loads: bool)
                | Set(domain: string, name: string, value: string, loads: bool, finds: bool, writes: bool)

  /** What a call may do to the rows and what it has to answer. */
  ghost predicate Served(before: Rows, after: Rows, guid: string, call: Call, answer: Option<string>) {
    match call
    case Get(domain, name, _) => Answers(before, guid, domain, name, answer)
    case Set(domain, name, value, _, finds, writes) =>
      (answer.None? ==> after == before) &&
      (answer.Some? ==> Answers(after, guid, domain, name, if value == "" then None else Some(value))) &&
      (finds && writes ==> (answer.Some? <==> value != "" || !Answers(before, guid, domain, name, None)))
  }

  /** A read changes nothing, and a write only rows of its own name. */
  ghost predicate Confined(before: Rows, after: Rows, guid: string, call: Call) {
    if call.Get? then after == before else OnlyTouched(before, after, guid, call.domain, call.name)
  }

  /**
   Call k is the first on the domain, which still has to be loaded; the load fails although there are
   rows to read.
   */
  ghost predicate LoadFails(loaded: set<string>, calls: seq<Call>, history: seq<Rows>, guid: string,
                            domain: string, k: nat)
    requires k < |calls| && k < |history|
  {
    domain !in loaded && calls[k].domain == domain && (forall j :: 0 <= j < k ==> calls[j].domain != domain) &&
    !calls[k].loads && !NoneLive(history[k], guid, domain)
  }

  /** The domain's load fails within the first n calls. */
  ghost predicate Spoiled(loaded: set<string>, calls: seq<Call>, history: seq<Rows>, guid: string,
                          domain: string, n: nat)
    requires n <= |calls| && n <= |history|
  {
    exists k :: 0 <= k < n && LoadFails(loaded, calls, history, guid, domain, k)
  }

  /** Whether a load fails within n calls does not depend on what happens later. */
  lemma SpoiledExtended(loaded: set<string>, calls: seq<Call>, history: seq<Rows>, next: Rows, guid: string,
                        domain: string, n: nat)
    requires n <= |calls| && n <= |history|
    ensures Spoiled(loaded, calls, history + [next], guid, domain, n) <==>
            Spoiled(loaded, calls, history, guid, domain, n)
  {
    hide LoadFails;
    forall k: nat | k < n
      ensures LoadFails(loaded, calls, history + [next], guid, domain, k) <==>
              LoadFails(loaded, calls, history, guid, domain, k)
    {
      LoadFailsExtended(loaded, calls, history, next, guid, domain, k);
    }
  }

  lemma SpoiledNext(loaded: set<string>, calls: seq<Call>, history: seq<Rows>, guid: string, domain: string, n: nat)
    requires n < |calls| && n < |history|
    ensures Spoiled(loaded, calls, history, guid, domain, n + 1) <==>
            Spoiled(loaded, calls, history, guid, domain, n) || LoadFails(loaded, calls, history, guid, domain, n)
  {
    hide LoadFails;
  }

  /**
   Every call on a domain that was right and is not spoiled is served, and until it is spoiled no name
   of it has two rows.
   */
  ghost predicate Faithful(loaded: set<string>, right: iset<string>, calls: seq<Call>, history: seq<Rows>,
                           answers: seq<Option<string>>, guid: string, n: nat)
    requires n == |answers| <= |calls| && |history| == n + 1
  {
    (forall i | 0 <= i < n && calls[i].domain in right &&
                !Spoiled(loaded, calls, history, guid, calls[i].domain, i + 1) ::
       Served(history[i], history[i + 1], guid, calls[i], answers[i])) &&
    (forall d, i | 0 <= i <= n && d in right && !Spoiled(loaded, calls, history, guid, d, i) ::
       Unique(history[i], guid, d))
  }

  lemma FaithfulNext(loaded: set<string>, right: iset<string>, calls: seq<Call>, history: seq<Rows>,
                     answers: seq<Option<string>>, guid: string, n: nat, next: Rows, answer: Option<string>)
    requires n == |answers| < |calls| && |history| == n + 1
    requires Faithful(loaded, right, calls, history, answers, guid, n)
    requires var d := calls[n].domain;
             (d in right && !Spoiled(loaded, calls, history, guid, d, n) &&
              !LoadFails(loaded, calls, history, guid, d, n))
             ==> Served(history[n], next, guid, calls[n], answer)
    requires forall d | d in right && !Spoiled(loaded, calls, history, guid, d, n) &&
                        !LoadFails(loaded, calls, history, guid, d, n) :: Unique(next, guid, d)
    ensures Faithful(loaded, right, calls, history + [next], answers + [answer], guid, n + 1)
    ensures forall d :: Spoiled(loaded, calls, history + [next], guid, d, n + 1) <==>
                        Spoiled(loaded, calls, history, guid, d, n) || LoadFails(loaded, calls, history, guid, d, n)
  {
    hide Served, Unique, Spoiled, LoadFails;
    forall d, i: nat | i <= n
      ensures Spoiled(loaded, calls, history + [next], guid, d, i) <==> Spoiled(loaded, calls, history, guid, d, i)
    {
      SpoiledExtended(loaded, calls, history, next, guid, d, i);
    }
    forall d
      ensures Spoiled(loaded, calls, history + [next], guid, d, n + 1) <==>
              Spoiled(loaded, calls, history, guid, d, n) || LoadFails(loaded, calls, history, guid, d, n)
    {
      SpoiledNext(loaded, calls, history + [next], guid, d, n);
      LoadFailsExtended(loaded, calls, history, next, guid, d, n);
    }
  }

  lemma LoadFailsExtended(loaded: set<string>, calls: seq<Call>, history: seq<Rows>, next: Rows, guid: string,
                          domain: string, k: nat)
    requires k < |calls| && k < |history|
    ensures LoadFails(loaded, calls, history + [next], guid, domain, k) <==>
            LoadFails(loaded, calls, history, guid, domain, k)
  {
  }

  lemma NoneSpoiled(loaded: set<string>, calls: seq<Call>, history: seq<Rows>, guid: string)
    ensures forall d :: !Spoiled(loaded, calls, history, guid, d, 0)
  {
  }

  class MidgardObject {
    const guid: string
    const guidValid: bool
    var params: Option<map<string, Collector?>>

    constructor (guid: string, guidValid: bool)
      ensures this.guid == guid && this.guidValid == guidValid && params == None
      ensures Separate() && Domains() == {}
    {
      this.guid, this.guidValid, params := guid, guidValid, None;
    }

    /** The domains that have a collector. */
    ghost function Domains(): set<string>
      reads this
    {
      if params.Some? then set d | d in params.value && params.value[d] != null else {}
    }

    ghost function Collectors(): set<Collector>
      reads this
    {
      set d | d in Domains() :: params.value[d]
    }

    ghost function ContentOf(domain: string): Datalist
      requires domain in Domains()
      reads this, Collectors()
    {
      assert params.value[domain] in Collectors();
      params.value[domain].datalist
    }

    /** Each loaded domain has a collector of its own. */
    ghost predicate Separate()
      reads this
    {
      forall d, e :: d in Domains() && e in Domains() && d != e ==> params.value[d] != params.value[e]
    }

    /** The domain's rows have different names, and its collector, if it has one, gives the database's answers. */
    ghost predicate Right(db: Database, domain: string)
      reads this, db, Collectors()
    {
      Unique(db.rows, guid, domain) && (domain in Domains() ==> Mirrors(ContentOf(domain), db.rows, guid, domain))
    }

    /** The domain has a collector that misses a row. */
    ghost predicate Wrong(db: Database, domain: string)
      reads this, db, Collectors()
    {
      domain in Domains() && Stale(ContentOf(domain), db.rows, guid, domain)
    }

    /** The domain's collector; the first call only makes the table. */
    method GetCollector(domain: string) returns (c: Collector?)
      modifies this
      ensures c != null <==> domain in Domains()
      ensures c != null ==> c == params.value[domain]
      ensures params.Some? && Domains() == old(Domains())
      ensures forall d :: d in Domains() ==> params.value[d] == old(params).value[d]
    {
      if params == None {
        params := Some(map[domain := null]);
        return null;
      }
      return if domain in params.value then params.value[domain] else null;
    }

    method Register(domain: string, c: Collector)
      modifies this
      ensures params == if old(params).Some? then Some(old(params).value[domain := c]) else None
    {
      if params.Some? {
        params := Some(params.value[domain := c]);
      }
    }

    /**
     Answers from the cache, loading the domain first if needed. A failed load leaves an empty
     collector behind, so the domain stays right exactly when the load succeeds or has nothing to read.
     */
    method GetParameter(db: Database, domain: string, name: string, loads: bool) returns (answer: Option<string>)
      requires Separate()
      modifies this
      ensures Separate()
      ensures !guidValid ==> answer == None && params == old(params)
      ensures guidValid ==> Domains() == old(Domains()) + {domain} && answer == Cached(ContentOf(domain), name)
      ensures forall d :: d in old(Domains()) ==> d in Domains() && params.value[d] == old(params).value[d]
      ensures forall d :: d in Domains() && d !in old(Domains()) ==> fresh(params.value[d])
      ensures guidValid && old(Right(db, domain)) ==>
                (Right(db, domain) <==> domain in old(Domains()) || loads || NoneLive(db.rows, guid, domain))
      ensures guidValid && domain !in old(Domains()) && !loads && !NoneLive(db.rows, guid, domain) ==> Wrong(db, domain)
      ensures guidValid && Right(db, domain) ==> Answers(db.rows, guid, domain, name, answer)
    {
      hide Answers, NoneLive, Unique, Cached, Stale;
      if !guidValid {
        return None;
      }
      var c := GetCollector(domain);
      if c == null {
        var mc := new Collector();
        var _ := mc.Execute(db, guid, domain, loads);
        EmptyMirrors(db.rows, guid, domain);
        if !NoneLive(db.rows, guid, domain) {
          FailedLoadIsStale(db.rows, guid, domain);
        }
        answer := mc.GetSubkey(name, "value");
        Register(domain, mc);
      } else {
        answer := c.GetSubkey(name, "value");
      }
    }

    /** The write to the database and the matching change of the domain's collector. */
    method CreateParameter(db: Database, domain: string, name: string, value: string, c: Collector, writes: bool,
                           id: nat) returns (ok: bool)
      requires id !in db.rows && domain in Domains() && c == params.value[domain] && Cached(c.datalist, name) == None
      modifies db, c
      ensures OnlyTouched(old(db.rows), db.rows, guid, domain, name)
      ensures old(Right(db, domain)) ==> Right(db, domain)
      ensures old(Wrong(db, domain)) ==> Wrong(db, domain)
      ensures ok <==> writes
      ensures !ok ==> db.rows == old(db.rows)
      ensures ok ==> Answers(db.rows, guid, domain, name, Some(value))
    {
      var row := Row(guid, domain, name, value, false);
      ok := db.Create(row, id, writes);
      if ok {
        if old(Right(db, domain)) {
          CreateMirrors(c.datalist, old(db.rows), id, guid, domain, name, value);
        }
        if old(Wrong(db, domain)) {
          CreateStaysStale(c.datalist, old(db.rows), id, guid, domain, name, value);
        }
        var _ := c.Set(name, "value", value);
        assert LiveNamed(db.rows[id], guid, domain, name);
      }
    }

    method UpdateParameter(db: Database, domain: string, name: string, value: string, c: Collector, writes: bool,
                           id: nat) returns (ok: bool)
      requires domain in Domains() && c == params.value[domain] && Cached(c.datalist, name).Some?
      requires id in db.rows && LiveNamed(db.rows[id], guid, domain, name)
      modifies db, c
      ensures OnlyTouched(old(db.rows), db.rows, guid, domain, name)
      ensures old(Right(db, domain)) ==> Right(db, domain)
      ensures old(Wrong(db, domain)) ==> Wrong(db, domain)
      ensures ok <==> writes
      ensures !ok ==> db.rows == old(db.rows)
      ensures ok ==> Answers(db.rows, guid, domain, name, Some(value))
    {
      ok := db.Update(id, value, writes);
      if ok {
        if old(Right(db, domain)) {
          UpdateMirrors(c.datalist, old(db.rows), id, guid, domain, name, value);
        }
        if old(Wrong(db, domain)) {
          UpdateStaysStale(c.datalist, old(db.rows), id, guid, domain, name, value);
        }
        var _ := c.Set(name, "value", value);
        assert LiveNamed(db.rows[id], guid, domain, name);
      }
    }

    method DeleteParameter(db: Database, domain: string, name: string, c: Collector, writes: bool, id: nat)
      returns (ok: bool)
      requires domain in Domains() && c == params.value[domain] && Cached(c.datalist, name).Some?
      requires id in db.rows && LiveNamed(db.rows[id], guid, domain, name)
      modifies db, c
      ensures OnlyTouched(old(db.rows), db.rows, guid, domain, name)
      ensures old(Right(db, domain)) ==> Right(db, domain)
      ensures old(Wrong(db, domain)) ==> Wrong(db, domain)
      ensures ok <==> writes
      ensures !ok ==> db.rows == old(db.rows)
      ensures ok && old(Right(db, domain)) ==> Answers(db.rows, guid, domain, name, None)
    {
      ok := db.Delete(id, writes);
      if ok {
        if old(Right(db, domain)) {
          DeleteMirrors(c.datalist, old(db.rows), id, guid, domain, name);
        }
        if old(Wrong(db, domain)) {
          DeleteStaysStale(c.datalist, old(db.rows), id, guid, domain, name);
        }
        var _ := c.RemoveKey(name);
        assert old(Right(db, domain)) ==> Answers(db.rows, guid, domain, name, Cached(c.datalist, name));
      }
    }

    /**
     Creates, updates or (for an empty value) deletes a parameter, and the cached value with it. The
     domain stays right under the same condition as for a read, whether or not the write succeeds.
     */
    method SetParameter(db: Database, domain: string, name: string, value: string,
                        loads: bool, finds: bool, writes: bool, id: nat) returns (ok: bool)
      requires Separate() && id !in db.rows
      modifies this, db, Collectors()
      ensures Separate()
      ensures OnlyTouched(old(db.rows), db.rows, guid, domain, name)
      ensures !guidValid ==> !ok && params == old(params) && unchanged(Collectors())
      ensures guidValid ==> Domains() == old(Domains()) + {domain}
      ensures forall d :: d in old(Domains()) ==> d in Domains() && params.value[d] == old(params).value[d]
      ensures forall d :: d in Domains() && d !in old(Domains()) ==> fresh(params.value[d])
      ensures forall d :: d in old(Domains()) && d != domain ==> ContentOf(d) == old(ContentOf(d))
      ensures guidValid && old(Right(db, domain)) ==>
                (Right(db, domain) <==> domain in old(Domains()) || loads || old(NoneLive(db.rows, guid, domain)))
      ensures guidValid && domain !in old(Domains()) && !loads && !old(NoneLive(db.rows, guid, domain)) ==>
                Wrong(db, domain)
      ensures old(Wrong(db, domain)) ==> Wrong(db, domain)
      ensures !ok ==> db.rows == old(db.rows)
      ensures guidValid && old(Right(db, domain)) && Right(db, domain) ==>
                Served(old(db.rows), db.rows, guid, Set(domain, name, value, loads, finds, writes),
                       if ok then Some(value) else None)
    {
      NothingTouched(db.rows, guid, domain, name);
      hide OnlyTouched, Unique, Stale, Mirrors, Cached, NoneLive, Answers, Served;
      if !guidValid {
        return false;
      }
      var cached := GetParameter(db, domain, name, loads);
      var c := GetCollector(domain);
      ok := WriteParameter(db, domain, name, value, cached, c, loads, finds, writes, id);
      if Wrong(db, domain) {
        StaleIsWrong(ContentOf(domain), db.rows, guid, domain);
      }
    }

    /** The write, once the domain has a collector and the cached value is known. */
    method WriteParameter(db: Database, domain: string, name: string, value: string, cached: Option<string>,
                          c: Collector, ghost loads: bool, finds: bool, writes: bool, id: nat) returns (ok: bool)
      requires domain in Domains() && c == params.value[domain] && cached == Cached(c.datalist, name) && id !in db.rows
      modifies db, c
      ensures OnlyTouched(old(db.rows), db.rows, guid, domain, name)
      ensures old(Right(db, domain)) ==> Right(db, domain)
      ensures old(Wrong(db, domain)) ==> Wrong(db, domain)
      ensures !ok ==> db.rows == old(db.rows)
      ensures old(Right(db, domain)) ==>
                Served(old(db.rows), db.rows, guid, Set(domain, name, value, loads, finds, writes),
                       if ok then Some(value) else None)
    {
      NothingTouched(db.rows, guid, domain, name);
      hide OnlyTouched, Unique, Stale, Cached;
      if cached == None && value == "" {
        return false;
      }
      if cached == None {
        ok := CreateParameter(db, domain, name, value, c, writes, id);
        return ok;
      }
      ok := ChangeParameter(db, domain, name, value, c, finds, writes);
    }

    /** Looks the parameter up and deletes or updates the first row found; any row may come first. */
    method ChangeParameter(db: Database, domain: string, name: string, value: string, c: Collector,
                           finds: bool, writes: bool) returns (ok: bool)
      requires domain in Domains() && c == params.value[domain] && Cached(c.datalist, name).Some?
      modifies db, c
      ensures OnlyTouched(old(db.rows), db.rows, guid, domain, name)
      ensures old(Right(db, domain)) ==> Right(db, domain)
      ensures old(Wrong(db, domain)) ==> Wrong(db, domain)
      ensures !ok ==> db.rows == old(db.rows)
      ensures old(Right(db, domain)) ==>
                !old(Answers(db.rows, guid, domain, name, None)) && (finds && writes ==> ok) &&
                (ok ==> Answers(db.rows, guid, domain, name, if value == "" then None else Some(value)))
    {
      NothingTouched(db.rows, guid, domain, name);
      hide OnlyTouched, Unique, Stale;
      var found := set i | i in db.rows && LiveNamed(db.rows[i], guid, domain, name);
      if Right(db, domain) {
        CachedIsFound(c.datalist, db.rows, guid, domain, name, found);
      }
      if !finds || found == {} {
        return false;
      }
      var first :| first in found;
      if value == "" {
        ok := DeleteParameter(db, domain, name, c, writes, first);
      } else {
        ok := UpdateParameter(db, domain, name, value, c, writes, first);
      }
    }

    /** One call; what is right or wrong in other domains stays so. */
    method Serve(db: Database, call: Call) returns (answer: Option<string>)
      requires Separate()
      modifies this, db, Collectors()
      ensures Separate() && Confined(old(db.rows), db.rows, guid, call)
      ensures !guidValid ==> answer == None && db.rows == old(db.rows)
      ensures forall c :: c in Collectors() ==> c in old(Collectors()) || fresh(c)
      ensures guidValid ==> Domains() == old(Domains()) + {call.domain}
      ensures guidValid ==> forall d :: d != call.domain ==>
                (Right(db, d) <==> old(Right(db, d))) && (Wrong(db, d) <==> old(Wrong(db, d)))
      ensures guidValid && old(Wrong(db, call.domain)) ==> Wrong(db, call.domain)
      ensures guidValid && call.domain !in old(Domains()) && !call.loads ==>
                old(NoneLive(db.rows, guid, call.domain)) || Wrong(db, call.domain)
      ensures guidValid && old(Right(db, call.domain)) &&
              (call.domain in old(Domains()) || call.loads || old(NoneLive(db.rows, guid, call.domain))) ==>
                Right(db, call.domain) && Served(old(db.rows), db.rows, guid, call, answer)
    {
      hide NoneLive, OnlyTouched, Unique, Stale, Mirrors, Answers;
      match call
      case Get(domain, name, loads) =>
        answer := GetParameter(db, domain, name, loads);
      case Set(domain, name, value, loads, finds, writes) =>
        var id := db.NextId();
        var ok := SetParameter(db, domain, name, value, loads, finds, writes, id);
        answer := if ok then Some(value) else None;
        forall d | d != domain
          ensures Right(db, d) <==> old(Right(db, d))
          ensures Wrong(db, d) <==> old(Wrong(db, d))
        {
          if d in Domains() {
            OthersStay(old(db.rows), db.rows, guid, domain, name, ContentOf(d), guid, d);
          } else {
            OthersStay(old(db.rows), db.rows, guid, domain, name, map[], guid, d);
          }
        }
    }

    ghost function RightDomains(db: Database): iset<string>
      reads this, db, Collectors()
    {
      iset d | Right(db, d)
    }

    /** What holds after the first calls of a run, with the answers given so far. */
    ghost predicate Follows(db: Database, loaded: set<string>, right: iset<string>, calls: seq<Call>,
                            history: seq<Rows>, answers: seq<Option<string>>)
      reads this, db, Collectors()
    {
      var n := |answers|;
      n <= |calls| && |history| == n + 1 && history[n] == db.rows &&
      (forall d :: d in Domains() <==> d in loaded || exists k :: 0 <= k < n && calls[k].domain == d) &&
      Faithful(loaded, right, calls, history, answers, guid, n) &&
      forall d :: d in right ==>
        if Spoiled(loaded, calls, history, guid, d, n) then Wrong(db, d) else Right(db, d)
    }

    method ServeNext(db: Database, ghost loaded: set<string>, ghost right: iset<string>, calls: seq<Call>,
                     ghost history: seq<Rows>, answers: seq<Option<string>>) returns (answer: Option<string>)
      requires Separate() && |answers| < |calls|
      requires guidValid ==> Follows(db, loaded, right, calls, history, answers)
      modifies this, db, Collectors()
      ensures Separate() && Confined(old(db.rows), db.rows, guid, calls[|answers|])
      ensures forall c :: c in Collectors() ==> c in old(Collectors()) || fresh(c)
      ensures !guidValid ==> answer == None && db.rows == old(db.rows)
      ensures guidValid ==> Follows(db, loaded, right, calls, history + [db.rows], answers + [answer])
      ensures guidValid ==> forall d :: old(Wrong(db, d)) ==> Wrong(db, d)
    {
      hide Served, Unique, Mirrors, Stale, Confined, NoneLive, Spoiled, Faithful;
      var n := |answers|;
      answer := Serve(db, calls[n]);
      if guidValid {
        assert forall d :: LoadFails(loaded, calls, history, guid, d, n) <==>
          d == calls[n].domain && d !in old(Domains()) && !calls[n].loads && !old(NoneLive(db.rows, guid, d));
        hide LoadFails;
        FaithfulNext(loaded, right, calls, history, answers, guid, n, db.rows, answer);
      }
    }

    /**
     Any interleaving of reads and writes, with any loads, lookups and writes failing. Each domain is
     judged by itself: up to a failed load over rows that are there, every call on it is served from the
     database of that moment and no name has two rows; after such a load it is wrong for good.
     */
    method Run(db: Database, calls: seq<Call>) returns (answers: seq<Option<string>>, ghost history: seq<Rows>)
      requires Separate()
      modifies this, db, Collectors()
      ensures Separate() && |answers| == |calls| && |history| == |calls| + 1
      ensures history[0] == old(db.rows) && history[|calls|] == db.rows
      ensures forall i :: 0 <= i < |calls| ==> Confined(history[i], history[i + 1], guid, calls[i])
      ensures !guidValid ==> forall i :: 0 <= i < |calls| ==> answers[i] == None && history[i + 1] == history[i]
      ensures guidValid ==> Faithful(old(Domains()), old(RightDomains(db)), calls, history, answers, guid, |calls|)
      ensures guidValid ==> forall d :: d in old(RightDomains(db)) ==>
                (Right(db, d) <==> !Spoiled(old(Domains()), calls, history, guid, d, |calls|))
      ensures guidValid ==> forall d :: old(Wrong(db, d)) ==> Wrong(db, d)
    {
      hide Confined, Spoiled, Faithful, Right, Wrong, Follows, RightDomains;
      ghost var loaded, right := Domains(), RightDomains(db);
      answers, history := [], [db.rows];
      FollowsStart(db, calls);
      for i := 0 to |calls|
        invariant Separate() && |answers| == i && |history| == i + 1
        invariant history[0] == old(db.rows) && history[i] == db.rows
        invariant forall k :: 0 <= k < i ==> Confined(history[k], history[k + 1], guid, calls[k])
        invariant !guidValid ==> forall k :: 0 <= k < i ==> answers[k] == None && history[k + 1] == history[k]
        invariant forall c :: c in Collectors() ==> c in old(Collectors()) || fresh(c)
        invariant guidValid ==> Follows(db, loaded, right, calls, history, answers)
        invariant guidValid ==> forall d :: old(Wrong(db, d)) ==> Wrong(db, d)
      {
        var answer := ServeNext(db, loaded, right, calls, history, answers);
        answers, history := answers + [answer], history + [db.rows];
      }
      if guidValid {
        FollowsEnd(db, loaded, right, calls, history, answers);
      }
    }

    lemma FollowsStart(db: Database, calls: seq<Call>)
      ensures Follows(db, Domains(), RightDomains(db), calls, [db.rows], [])
    {
      hide Spoiled, Unique, Served;
      NoneSpoiled(Domains(), calls, [db.rows], guid);
    }

    lemma FollowsEnd(db: Database, loaded: set<string>, right: iset<string>, calls: seq<Call>, history: seq<Rows>,
                     answers: seq<Option<string>>)
      requires Follows(db, loaded, right, calls, history, answers)
      ensures Faithful(loaded, right, calls, history, answers, guid, |answers|)
      ensures forall d :: d in right ==> (Right(db, d) <==> !Spoiled(loaded, calls, history, guid, d, |answers|))
    {
      hide Spoiled, Faithful, Right, Wrong;
      forall d | Wrong(db, d)
        ensures !Right(db, d)
      {
        WrongIsNotRight(db, d);
      }
    }

    lemma WrongIsNotRight(db: Database, domain: string)
      requires Wrong(db, domain)
      ensures !Right(db, domain)
    {
      StaleIsWrong(ContentOf(domain), db.rows, guid, domain);
    }
  }
}
