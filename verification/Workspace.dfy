/** The workspace tree over a flat table of rows: lookups, ancestor walks and path resolution. */
module Workspace {
  import opened Sequences
  import opened Wrappers
  import Text

  /** up is 0 for a root. */
  datatype Row = Row(id: nat, up: nat, name: string)
  type Table = seq<Row>

  /** No table has been read yet, or the rows of the last query. */
  type Model = Option<Table>

  function RowsOf(model: Model): Table {
    if model.Some? then model.value else []
  }

  // ---- Lookups

  /** The first row from on with the id, or the table's length. */
  function FirstId(rows: Table, id: nat, from: nat): (k: nat)
    requires from <= |rows|
    ensures from <= k <= |rows|
    ensures k < |rows| ==> rows[k].id == id
    ensures forall i :: from <= i < k ==> rows[i].id != id
    decreases |rows| - from
  {
    if from == |rows| || rows[from].id == id then from else FirstId(rows, id, from + 1)
  }

  /** The first row from on with the name under up, or the table's length. */
  function FirstChild(rows: Table, up: nat, name: string, from: nat): (k: nat)
    requires from <= |rows|
    ensures from <= k <= |rows|
    ensures k < |rows| ==> rows[k].up == up && rows[k].name == name
    ensures forall i :: from <= i < k ==> rows[i].up != up || rows[i].name != name
    decreases |rows| - from
  {
    if from == |rows| || (rows[from].up == up && rows[from].name == name) then from
    else FirstChild(rows, up, name, from + 1)
  }

  function RowWithId(rows: Table, id: nat): Option<Row> {
    var k := FirstId(rows, id, 0);
    if k < |rows| then Some(rows[k]) else None
  }

  function ChildNamed(rows: Table, up: nat, name: string): Option<Row> {
    var k := FirstChild(rows, up, name, 0);
    if k < |rows| then Some(rows[k]) else None
  }

  method GetRowById(model: Model, id: nat) returns (r: Option<Row>, rowId: nat)
    ensures r == RowWithId(RowsOf(model), id)
    ensures r.Some? ==> rowId < |RowsOf(model)| && RowsOf(model)[rowId] == r.value
    ensures r.None? ==> rowId == 0
  {
    rowId := 0;
    if model.None? || |model.value| == 0 {
      return None, rowId;
    }
    var rows := model.value;
    for row := 0 to |rows|
      invariant FirstId(rows, id, 0) == FirstId(rows, id, row)
    {
      if rows[row].id == id {
        return Some(rows[row]), row;
      }
    }
    return None, 0;
  }

  /** The id of the row called name under up, or -1. */
  method GetIdByName(model: Model, name: string, up: nat) returns (id: int, rowId: nat)
    ensures match ChildNamed(RowsOf(model), up, name)
            case Some(r) => id == r.id && rowId < |RowsOf(model)| && RowsOf(model)[rowId] == r
            case None => id == -1 && rowId == 0
  {
    rowId := 0;
    if model.None? || |model.value| == 0 {
      return -1, 0;
    }
    var rows := model.value;
    for row := 0 to |rows|
      invariant FirstChild(rows, up, name, 0) == FirstChild(rows, up, name, row)
    {
      if rows[row].up == up {
        if rows[row].name == name {
          return rows[row].id, row;
        }
      }
    }
    return -1, 0;
  }

  predicate Known(rows: Table, id: nat) {
    RowWithId(rows, id).Some?
  }

  // ---- Ancestors, as far as n links lead

  /** The id and its ancestors, nearest first, up to a root or a parent that is not in the table. */
  function Chain(rows: Table, id: nat, n: nat): seq<nat>
    decreases n
  {
    if n == 0 then []
    else
      match RowWithId(rows, id)
      case None => []
      case Some(r) => [id] + (if r.up == 0 then [] else Chain(rows, r.up, n - 1))
  }

  /** The names of the chain, from the top down. */
  function Names(rows: Table, id: nat, n: nat): seq<string>
    decreases n
  {
    if n == 0 then []
    else
      match RowWithId(rows, id)
      case None => []
      case Some(r) => (if r.up == 0 then [] else Names(rows, r.up, n - 1)) + [r.name]
  }

  /** At most n links, all through rows of the table, lead from id to a root and past it. */
  predicate ReachesRoot(rows: Table, id: nat, n: nat)
    decreases n
  {
    n > 0 &&
    match RowWithId(rows, id)
    case None => false
    case Some(r) => r.up == 0 || ReachesRoot(rows, r.up, n - 1)
  }

  // ---- The loops

  /** Whether the name loop is still going after n rounds from up; named: some name was found before. */
  predicate NameWalkRuns(rows: Table, up: nat, named: bool, n: nat)
    decreases n
  {
    n == 0 ||
    match RowWithId(rows, up)
    case None => named && NameWalkRuns(rows, up, named, n - 1)
    case Some(r) => r.up != 0 && NameWalkRuns(rows, r.up, true, n - 1)
  }

  /** The same for the id loop, which also ends at a parent that is not in the table. */
  predicate IdWalkRuns(rows: Table, up: nat, n: nat)
    decreases n
  {
    n == 0 ||
    match RowWithId(rows, up)
    case None => false
    case Some(r) => r.up != 0 && IdWalkRuns(rows, r.up, n - 1)
  }

  /** The rounds that the name loop makes, if it ends within n. */
  function NameRounds(rows: Table, up: nat, named: bool, n: nat): (k: nat)
    requires !NameWalkRuns(rows, up, named, n)
    ensures 0 < k <= n
    decreases n
  {
    match RowWithId(rows, up)
    case None => NeverEnds(rows, up, n); 1
    case Some(r) => if r.up == 0 then 1 else 1 + NameRounds(rows, r.up, true, n - 1)
  }

  /** They are the first number of rounds after which the loop no longer runs. */
  lemma {:induction false} NameRoundsAreLeast(rows: Table, up: nat, named: bool, n: nat, m: nat)
    requires !NameWalkRuns(rows, up, named, n)
    ensures NameWalkRuns(rows, up, named, m) <==> m < NameRounds(rows, up, named, n)
    decreases n
  {
    NeverEnds(rows, up, n);
    NeverEnds(rows, up, m);
    hide RowWithId;
    var r := RowWithId(rows, up);
    if m > 0 && r.Some? && r.value.up != 0 {
      NameRoundsAreLeast(rows, r.value.up, true, n - 1, m - 1);
    }
  }

  /** The names from the top down, in exactly those rounds. */
  method GetParentNames(model: Model, id: nat, ghost n: nat) returns (list: seq<string>, ghost rounds: nat)
    requires id != 0 ==> !NameWalkRuns(RowsOf(model), id, false, n)
    ensures list == if id == 0 then [] else Names(RowsOf(model), id, n)
    ensures rounds == if id == 0 then 0 else NameRounds(RowsOf(model), id, false, n)
  {
    hide RowWithId, Names, NameWalkRuns, NameRounds;
    ghost var rows := RowsOf(model);
    list, rounds := [], 0;
    var up := id;
    if up == 0 {
      return;
    }
    while true
      invariant up != 0 && rounds < n
      invariant !NameWalkRuns(rows, up, list != [], n - rounds)
      invariant NameRounds(rows, id, false, n) == rounds + NameRounds(rows, up, list != [], n - rounds)
      invariant Names(rows, id, n) == Names(rows, up, n - rounds) + list
      decreases n - rounds
    {
      var row, _ := GetRowById(model, up);
      NameStep(rows, up, list != [], n - rounds);
      rounds := rounds + 1;
      if row.None? {
        return;
      }
      list := [row.value.name] + list;
      if row.value.up == 0 {
        return;
      }
      up := row.value.up;
    }
  }

  /** One round of the name loop. */
  lemma NameStep(rows: Table, up: nat, named: bool, n: nat)
    requires !NameWalkRuns(rows, up, named, n)
    ensures match RowWithId(rows, up)
            case None => Names(rows, up, n) == [] && NameRounds(rows, up, named, n) == 1
            case Some(r) =>
              if r.up == 0 then Names(rows, up, n) == [r.name] && NameRounds(rows, up, named, n) == 1
              else
                !NameWalkRuns(rows, r.up, true, n - 1) && Names(rows, up, n) == Names(rows, r.up, n - 1) + [r.name] &&
                NameRounds(rows, up, named, n) == 1 + NameRounds(rows, r.up, true, n - 1)
  {
  }

  /** An unknown id ends the name walk at once, or never if a name was found before. */
  lemma {:induction false} NeverEnds(rows: Table, up: nat, n: nat)
    ensures !Known(rows, up) ==> NameWalkRuns(rows, up, true, n)
    ensures !Known(rows, up) ==> (NameWalkRuns(rows, up, false, n) <==> n == 0)
    decreases n
  {
    if n > 0 {
      NeverEnds(rows, up, n - 1);
    }
  }

  /**
   From a known row the name walk ends within n rounds exactly if a root is that near: a dangling parent
   never ends it.
   */
  lemma {:induction false} WalkEndsExactly(rows: Table, up: nat, named: bool, n: nat)
    requires Known(rows, up)
    ensures !NameWalkRuns(rows, up, named, n) <==> ReachesRoot(rows, up, n)
    decreases n
  {
    if n > 0 {
      var parent := RowWithId(rows, up).value.up;
      if parent != 0 {
        if Known(rows, parent) {
          WalkEndsExactly(rows, parent, true, n - 1);
        } else {
          NeverEnds(rows, parent, n - 1);
        }
      }
    }
  }

  /** The rounds that the id loop makes. */
  function Rounds(rows: Table, id: nat, n: nat): (k: nat)
    requires !IdWalkRuns(rows, id, n)
    ensures 0 < k <= n
    decreases n
  {
    match RowWithId(rows, id)
    case None => 1
    case Some(r) => if r.up == 0 then 1 else 1 + Rounds(rows, r.up, n - 1)
  }

  lemma {:induction false} RoundsAreLeast(rows: Table, id: nat, n: nat, m: nat)
    requires !IdWalkRuns(rows, id, n)
    ensures !IdWalkRuns(rows, id, m) <==> m >= Rounds(rows, id, n)
    decreases n
  {
    hide RowWithId;
    var r := RowWithId(rows, id);
    if m > 0 && r.Some? && r.value.up != 0 {
      RoundsAreLeast(rows, r.value.up, n - 1, m - 1);
    }
  }

  /** Ids from the top down, as the loop prepends them. */
  method GetParentIds(model: Model, id: nat, ghost n: nat) returns (list: seq<nat>, ghost rounds: nat)
    requires id != 0 ==> !IdWalkRuns(RowsOf(model), id, n)
    ensures list == if id == 0 then [] else Reversed(Chain(RowsOf(model), id, n))
    ensures rounds == if id == 0 then 0 else Rounds(RowsOf(model), id, n)
  {
    hide RowWithId, Reversed, Chain, IdWalkRuns, Rounds;
    ghost var rows := RowsOf(model);
    list, rounds := [], 0;
    var up := id;
    if up == 0 {
      return;
    }
    while true
      invariant up != 0 && rounds < n
      invariant !IdWalkRuns(rows, up, n - rounds)
      invariant Rounds(rows, id, n) == rounds + Rounds(rows, up, n - rounds)
      invariant Reversed(Chain(rows, id, n)) == Reversed(Chain(rows, up, n - rounds)) + list
      decreases n - rounds
    {
      var row, _ := GetRowById(model, up);
      IdStep(rows, up, n - rounds);
      rounds := rounds + 1;
      if row.None? {
        return;
      }
      list := [row.value.id] + list;
      if row.value.up == 0 {
        return;
      }
      up := row.value.up;
    }
  }

  /** One round of the id loop. */
  lemma IdStep(rows: Table, id: nat, n: nat)
    requires !IdWalkRuns(rows, id, n)
    ensures match RowWithId(rows, id)
            case None => Reversed(Chain(rows, id, n)) == [] && Rounds(rows, id, n) == 1
            case Some(r) =>
              r.id == id &&
              if r.up == 0 then Reversed(Chain(rows, id, n)) == [id] && Rounds(rows, id, n) == 1
              else
                !IdWalkRuns(rows, r.up, n - 1) && Rounds(rows, id, n) == 1 + Rounds(rows, r.up, n - 1) &&
                Reversed(Chain(rows, id, n)) == Reversed(Chain(rows, r.up, n - 1)) + [id]
  {
    NoChain();
    if Known(rows, id) {
      ReversedChain(rows, id, n);
    }
  }

  lemma NoChain()
    ensures Reversed<nat>([]) == []
  {
  }

  lemma ReversedChain(rows: Table, id: nat, n: nat)
    requires n > 0 && Known(rows, id)
    ensures var up := RowWithId(rows, id).value.up;
            Reversed(Chain(rows, id, n)) == (if up == 0 then [] else Reversed(Chain(rows, up, n - 1))) + [id]
  {
    hide RowWithId;
    var up := RowWithId(rows, id).value.up;
    ReversedSum([id], if up == 0 then [] else Chain(rows, up, n - 1));
    NoChain();
    assert Reversed([id]) == [id];
  }

  /** The id itself, then its ancestors, nearest first; an unknown id stands alone. */
  method GetContextIds(model: Model, id: nat, ghost n: nat) returns (list: seq<nat>)
    requires id != 0 ==> !IdWalkRuns(RowsOf(model), id, n)
    ensures id == 0 ==> list == []
    ensures id != 0 ==> list == if Known(RowsOf(model), id) then Chain(RowsOf(model), id, n) else [id]
  {
    hide RowWithId, Reversed;
    if id == 0 {
      return [];
    }
    var row, _ := GetRowById(model, id);
    var up := if row.Some? then row.value.up else 0;
    var above, _ := GetParentIds(model, up, if n > 0 then n - 1 else 0);
    list := [id] + Reversed(above);
    NoChain();
    if up != 0 {
      ReversedTwice(Chain(RowsOf(model), up, n - 1));
    }
  }

  // ---- What the chain is

  predicate IsTop(rows: Table, id: nat) {
    match RowWithId(rows, id)
    case None => true
    case Some(r) => r.up == 0 || !Known(rows, r.up)
  }

  /** Starts at the id and goes up by the links through known rows, to a root or to below a missing parent. */
  predicate IsAncestry(rows: Table, chain: seq<nat>, id: nat) {
    chain != [] && chain[0] == id && IsTop(rows, chain[|chain| - 1]) &&
    (forall i :: 0 <= i < |chain| ==> Known(rows, chain[i])) &&
    (forall i :: 0 <= i < |chain| - 1 ==> RowWithId(rows, chain[i]).value.up == chain[i + 1])
  }

  lemma AncestryStep(rows: Table, id: nat, up: nat, rest: seq<nat>)
    requires Known(rows, id) && RowWithId(rows, id).value.up == up && IsAncestry(rows, rest, up)
    ensures IsAncestry(rows, [id] + rest, id)
  {
    hide RowWithId, IsTop;
    var chain := [id] + rest;
    assert forall i :: 1 <= i < |chain| ==> chain[i] == rest[i - 1];
  }

  /** On any table on which the walk ends, the chain is the ancestry of the id. */
  lemma {:induction false} ChainIsAncestry(rows: Table, id: nat, n: nat)
    requires Known(rows, id) && !IdWalkRuns(rows, id, n)
    ensures IsAncestry(rows, Chain(rows, id, n), id)
    decreases n
  {
    hide RowWithId;
    var up := RowWithId(rows, id).value.up;
    if up != 0 && Known(rows, up) {
      hide IsAncestry;
      ChainIsAncestry(rows, up, n - 1);
      AncestryStep(rows, id, up, Chain(rows, up, n - 1));
    } else {
      assert up != 0 ==> Chain(rows, up, n - 1) == [];
      assert Chain(rows, id, n) == [id];
    }
  }

  /** Each member of the chain is one round nearer to the end than the one before. */
  lemma {:induction false} ChainRounds(rows: Table, id: nat, n: nat, i: nat)
    requires !IdWalkRuns(rows, id, n) && i < |Chain(rows, id, n)|
    ensures i < n && !IdWalkRuns(rows, Chain(rows, id, n)[i], n - i)
    ensures Rounds(rows, Chain(rows, id, n)[i], n - i) == Rounds(rows, id, n) - i
    decreases n
  {
    hide RowWithId;
    if i > 0 {
      ChainRounds(rows, RowWithId(rows, id).value.up, n - 1, i - 1);
    }
  }

  /** So it meets nothing twice. */
  lemma ChainHasNoRepeats(rows: Table, id: nat, n: nat)
    requires !IdWalkRuns(rows, id, n)
    ensures var chain := Chain(rows, id, n);
            forall i, j :: 0 <= i < j < |chain| ==> chain[i] != chain[j]
  {
    hide RowWithId, Chain, IdWalkRuns, Rounds;
    var chain := Chain(rows, id, n);
    forall i, j | 0 <= i < j < |chain|
      ensures chain[i] != chain[j]
    {
      ChainRounds(rows, id, n, i);
      ChainRounds(rows, id, n, j);
      if chain[i] == chain[j] {
        var k := Rounds(rows, chain[j], n - j);
        RoundsAreLeast(rows, chain[j], n - j, k);
        RoundsAreLeast(rows, chain[i], n - i, k);
      }
    }
  }

  method GetChildrenIds(model: Model, id: nat) returns (list: seq<nat>)
    ensures list == if id == 0 then [] else ChildIds(RowsOf(model), id)
  {
    list := [];
    if id == 0 || model.None? {
      return;
    }
    var rows := model.value;
    for row := 0 to |rows|
      invariant list == ChildIds(rows[..row], id)
    {
      assert rows[..row + 1][..row] == rows[..row];
      if rows[row].up == id {
        list := list + [rows[row].id];
      }
    }
    assert rows[..|rows|] == rows;
  }

  function ChildIds(rows: Table, id: nat): seq<nat> {
    if rows == [] then []
    else
      var n := |rows| - 1;
      ChildIds(rows[..n], id) + (if rows[n].up == id then [rows[n].id] else [])
  }

  lemma {:induction false} ChildIdsMembers(rows: Table, id: nat, child: nat)
    ensures child in ChildIds(rows, id) <==> exists i :: 0 <= i < |rows| && rows[i].up == id && rows[i].id == child
  {
    if rows != [] {
      var n := |rows| - 1;
      ChildIdsMembers(rows[..n], id, child);
      if i :| 0 <= i < n && rows[i].up == id && rows[i].id == child {
        assert rows[..n][i] == rows[i];
      }
    }
  }

  function PlacesUnder(rows: Table, id: nat): set<nat> {
    set i: nat | i < |rows| && rows[i].up == id
  }

  lemma PlacesUnderNext(rows: Table, id: nat)
    requires rows != []
    ensures var n := |rows| - 1;
            PlacesUnder(rows, id) == PlacesUnder(rows[..n], id) + (if rows[n].up == id then {n} else {}) &&
            n !in PlacesUnder(rows[..n], id)
  {
  }

  /** There is one id for each row under the given one, and it comes right behind those of the rows before. */
  lemma {:induction false} ChildIdsInOrder(rows: Table, id: nat, i: nat)
    ensures |ChildIds(rows, id)| == |PlacesUnder(rows, id)|
    ensures i < |rows| && rows[i].up == id ==> ChildIds(rows[..i], id) + [rows[i].id] <= ChildIds(rows, id)
  {
    if rows != [] {
      var n := |rows| - 1;
      ChildIdsInOrder(rows[..n], id, i);
      PlacesUnderNext(rows, id);
      if i < n {
        assert rows[..n][..i] == rows[..i];
      }
    }
  }

  lemma RowIsKnown(rows: Table, i: nat)
    requires i < |rows|
    ensures Known(rows, rows[i].id)
  {
    assert FirstId(rows, rows[i].id, 0) <= i;
  }

  /** The children of a known row are exactly the rows whose chain has it in second place. */
  lemma ChildrenHaveParentNext(rows: Table, id: nat, child: nat, n: nat)
    requires forall i, j :: 0 <= i < j < |rows| ==> rows[i].id != rows[j].id
    requires id != 0 && Known(rows, id) && n > 1
    ensures child in ChildIds(rows, id) <==> |Chain(rows, child, n)| > 1 && Chain(rows, child, n)[1] == id
  {
    ChildIdsMembers(rows, id, child);
    if i :| 0 <= i < |rows| && rows[i].up == id && rows[i].id == child {
      RowIsKnown(rows, i);
      assert FirstId(rows, child, 0) == i;
    }
  }

  // ---- Paths

  datatype Lookup = InvalidPath | NotExists | PathExists(id: nat)

  function Resolve(rows: Table, names: seq<string>, up: nat): Lookup
    decreases |names|
  {
    if names == [] then PathExists(up)
    else
      match ChildNamed(rows, up, names[0])
      case None => NotExists
      case Some(r) => Resolve(rows, names[1..], r.id)
  }

  /** What a path names: empty elements are invalid, except before a leading slash. */
  function PathLookup(rows: Table, path: string): Lookup {
    if path == "" then InvalidPath
    else
      var tokens := Text.Split(path, '/');
      var names := if tokens[0] == "" then tokens[1..] else tokens;
      if "" in names then InvalidPath else Resolve(rows, names, 0)
  }

  /** Returns the id, or -1; found also tells an existing path from the two kinds of failure. */
  method GetIdByPath(model: Model, path: string) returns (id: int, found: Lookup)
    ensures found == PathLookup(RowsOf(model), path)
    ensures id == if found.PathExists? then found.id else -1
  {
    hide Resolve, Text.Split;
    if path == "" {
      return -1, InvalidPath;
    }
    var tokens := Text.StrSplit(path, '/');
    var i := if tokens[0] == "" then 1 else 0;
    var j := i;
    ghost var names := tokens[i..];
    while i < |tokens|
      invariant j <= i <= |tokens|
      invariant "" !in tokens[j..i]
    {
      if tokens[i] == "" {
        assert names[i - j] == "";
        return -1, InvalidPath;
      }
      i := i + 1;
    }
    assert tokens[j..i] == names;
    id, found := FollowTokens(model, tokens, j);
  }

  /** Looks one token up after the other, each under the row found before. */
  method FollowTokens(model: Model, tokens: seq<string>, start: nat) returns (id: int, found: Lookup)
    requires start <= |tokens|
    ensures found == Resolve(RowsOf(model), tokens[start..], 0) && !found.InvalidPath?
    ensures id == if found.PathExists? then found.id else -1
  {
    hide ChildNamed;
    var j := start;
    id := 0;
    var up: nat := 0;
    while j < |tokens|
      invariant start <= j <= |tokens| && id == up
      invariant Resolve(RowsOf(model), tokens[j..], up) == Resolve(RowsOf(model), tokens[start..], 0)
    {
      assert tokens[j..][0] == tokens[j] && tokens[j..][1..] == tokens[j + 1..];
      var rowId;
      id, rowId := GetIdByName(model, tokens[j], up);
      if id == -1 {
        return -1, NotExists;
      }
      up := id;
      j := j + 1;
    }
    return id, PathExists(up);
  }

  lemma {:induction false} ResolveAppend(rows: Table, names: seq<string>, last: string, up: nat)
    ensures Resolve(rows, names + [last], up) ==
            match Resolve(rows, names, up)
            case PathExists(id) => Resolve(rows, [last], id)
            case _ => Resolve(rows, names, up)
    decreases |names|
  {
    if names == [] {
      assert names + [last] == [last];
    } else {
      assert (names + [last])[1..] == names[1..] + [last];
      if ChildNamed(rows, up, names[0]).Some? {
        ResolveAppend(rows, names[1..], last, ChildNamed(rows, up, names[0]).value.id);
      }
    }
  }

  predicate DoubleSlash(path: string) {
    exists i :: 0 <= i < |path| - 1 && path[i] == '/' && path[i + 1] == '/'
  }

  lemma DoubleSlashNext(s: string)
    requires s != ""
    ensures DoubleSlash(s) <==> DoubleSlash(s[1..]) || (|s| > 1 && s[0] == '/' && s[1] == '/')
  {
    if DoubleSlash(s) {
      var i :| 0 <= i < |s| - 1 && s[i] == '/' && s[i + 1] == '/';
      assert i > 0 ==> s[1..][i - 1] == '/' && s[1..][i] == '/';
    }
    if DoubleSlash(s[1..]) {
      var i :| 0 <= i < |s[1..]| - 1 && s[1..][i] == '/' && s[1..][i + 1] == '/';
      assert s[i + 1] == '/' && s[i + 2] == '/';
    }
  }

  /** An empty part behind the first one comes from a slash at the end or from two slashes next to each other. */
  lemma {:induction false} EmptyParts(s: string)
    ensures Text.Split(s, '/')[0] == "" <==> s == "" || s[0] == '/'
    ensures "" in Text.Split(s, '/')[1..] <==> s != "" && (s[|s| - 1] == '/' || DoubleSlash(s))
  {
    if s != "" {
      var rest := Text.Split(s[1..], '/');
      EmptyParts(s[1..]);
      DoubleSlashNext(s);
      assert rest == [rest[0]] + rest[1..];
      if s[0] == '/' {
        assert ([""] + rest)[1..] == rest;
      } else {
        assert ([[s[0]] + rest[0]] + rest[1..])[1..] == rest[1..];
      }
    }
  }

  lemma {:induction false} ResolveIsValid(rows: Table, names: seq<string>, up: nat)
    ensures Resolve(rows, names, up) != InvalidPath
    decreases |names|
  {
    if names != [] && ChildNamed(rows, up, names[0]).Some? {
      ResolveIsValid(rows, names[1..], ChildNamed(rows, up, names[0]).value.id);
    }
  }

  /** A path is refused exactly if it is empty, ends with a slash or has two slashes next to each other. */
  lemma InvalidPathExactly(rows: Table, path: string)
    ensures PathLookup(rows, path) == InvalidPath <==> path == "" || path[|path| - 1] == '/' || DoubleSlash(path)
  {
    hide DoubleSlash, Resolve;
    if path != "" {
      var tokens := Text.Split(path, '/');
      EmptyParts(path);
      assert tokens == [tokens[0]] + tokens[1..];
      ResolveIsValid(rows, if tokens[0] == "" then tokens[1..] else tokens, 0);
    }
  }

  /** Ids are positive and unique, no two children have the same name, and names are fit for paths. */
  predicate Tidy(rows: Table) {
    (forall i :: 0 <= i < |rows| ==> 0 < rows[i].id && rows[i].name != "" && '/' !in rows[i].name) &&
    (forall i, j :: 0 <= i < j < |rows| ==> rows[i].id != rows[j].id) &&
    (forall i, j :: 0 <= i < j < |rows| ==> rows[i].up != rows[j].up || rows[i].name != rows[j].name)
  }

  lemma KnownRow(rows: Table, id: nat)
    requires Tidy(rows) && Known(rows, id)
    ensures var r := RowWithId(rows, id).value;
            r.id == id && 0 < id && r.name != "" && '/' !in r.name && ChildNamed(rows, r.up, r.name) == Some(r)
  {
    var k := FirstId(rows, id, 0);
    assert FirstChild(rows, rows[k].up, rows[k].name, 0) == k;
  }

  lemma ChildRow(rows: Table, up: nat, name: string)
    requires Tidy(rows) && ChildNamed(rows, up, name).Some?
    ensures var r := ChildNamed(rows, up, name).value;
            r.up == up && r.name == name && 0 < r.id && RowWithId(rows, r.id) == Some(r)
  {
    var k := FirstChild(rows, up, name, 0);
    assert FirstId(rows, rows[k].id, 0) == k;
  }

  lemma {:induction false} NamesResolve(rows: Table, id: nat, n: nat)
    requires Tidy(rows) && ReachesRoot(rows, id, n)
    ensures Resolve(rows, Names(rows, id, n), 0) == PathExists(id)
    ensures Names(rows, id, n) != []
    ensures forall x :: x in Names(rows, id, n) ==> x != "" && '/' !in x
    decreases n
  {
    KnownRow(rows, id);
    hide RowWithId, ChildNamed, Tidy;
    var r := RowWithId(rows, id).value;
    if r.up != 0 {
      NamesResolve(rows, r.up, n - 1);
      ResolveAppend(rows, Names(rows, r.up, n - 1), r.name, 0);
    } else {
      assert Names(rows, id, n) == [r.name];
    }
    assert [r.name][1..] == [];
    assert Resolve(rows, [r.name], r.up) == PathExists(id);
  }

  lemma {:induction false} ResolvedNames(rows: Table, names: seq<string>, id: nat)
    requires Tidy(rows) && names != [] && Resolve(rows, names, 0) == PathExists(id)
    ensures 0 < id && ReachesRoot(rows, id, |names|) && Names(rows, id, |names|) == names
    decreases |names|
  {
    hide RowWithId, ChildNamed, Tidy;
    var n := |names| - 1;
    assert names == names[..n] + [names[n]];
    ResolveAppend(rows, names[..n], names[n], 0);
    var up := Resolve(rows, names[..n], 0).id;
    assert [names[n]][1..] == [];
    assert Resolve(rows, [names[n]], up) == PathExists(id);
    ChildRow(rows, up, names[n]);
    if n > 0 {
      ResolvedNames(rows, names[..n], up);
    } else {
      assert names[..n] == [] && up == 0;
    }
  }

  /** How far the root is makes no difference to the names. */
  lemma {:induction false} NamesStable(rows: Table, id: nat, m: nat, n: nat)
    requires ReachesRoot(rows, id, m) && ReachesRoot(rows, id, n)
    ensures Names(rows, id, m) == Names(rows, id, n)
    decreases n
  {
    hide RowWithId;
    var up := RowWithId(rows, id).value.up;
    if up != 0 {
      NamesStable(rows, up, m - 1, n - 1);
    }
  }

  predicate Spells(path: string, names: seq<string>) {
    path == Text.Join(names, '/') || path == "/" + Text.Join(names, '/')
  }

  /**
   On a tidy table a path leads to an id exactly when a root can be reached from the id and the path
   spells the names down to it, with or without a leading slash.
   */
  lemma PathsAreNames(rows: Table, path: string, id: nat)
    requires Tidy(rows)
    ensures PathLookup(rows, path) == PathExists(id) <==>
            exists n: nat :: ReachesRoot(rows, id, n) && Spells(path, Names(rows, id, n))
  {
    hide Tidy, Resolve, Names, ReachesRoot, Text.Join, Text.Split;
    if n: nat :| ReachesRoot(rows, id, n) && Spells(path, Names(rows, id, n)) {
      SpelledPathResolves(rows, id, n);
    }
    if PathLookup(rows, path) == PathExists(id) {
      var tokens := Text.Split(path, '/');
      var names := if tokens[0] == "" then tokens[1..] else tokens;
      SplitSpells(path);
      ResolvedNames(rows, names, id);
      assert Spells(path, Names(rows, id, |names|));
    }
  }

  /** For an id that reaches the root, the names are those that the name walk gives. */
  lemma RootedPathsAreNames(rows: Table, path: string, id: nat, n: nat)
    requires Tidy(rows) && ReachesRoot(rows, id, n)
    ensures PathLookup(rows, path) == PathExists(id) <==> Spells(path, Names(rows, id, n))
  {
    hide Tidy, PathLookup, Names, ReachesRoot, Spells;
    PathsAreNames(rows, path, id);
    if m: nat :| ReachesRoot(rows, id, m) && Spells(path, Names(rows, id, m)) {
      NamesStable(rows, id, m, n);
    }
  }

  lemma SplitSpells(path: string)
    requires path != ""
    ensures var tokens := Text.Split(path, '/');
            var names := if tokens[0] == "" then tokens[1..] else tokens;
            names != [] && Spells(path, names)
  {
    var tokens := Text.Split(path, '/');
    Text.JoinOfSplit(path, '/');
    hide Text.Split;
    assert |tokens| == 1 ==> Text.Join(tokens, '/') == tokens[0];
    if tokens[0] == "" {
      assert tokens == [""] + tokens[1..];
    }
  }

  lemma SpelledPathResolves(rows: Table, id: nat, n: nat)
    requires Tidy(rows) && ReachesRoot(rows, id, n)
    ensures var p := Text.Join(Names(rows, id, n), '/');
            PathLookup(rows, p) == PathExists(id) && PathLookup(rows, "/" + p) == PathExists(id)
  {
    hide Tidy, Resolve, Names, ReachesRoot;
    var names := Names(rows, id, n);
    var p := Text.Join(names, '/');
    NamesResolve(rows, id, n);
    Text.SplitOfJoin(names, '/');
    assert names[0] in names;
    Text.SplitAtSeparator("", '/', p);
    assert "" + ['/'] + p == "/" + p;
    assert ([""] + names)[1..] == names;
    assert p == "" ==> Text.Split(p, '/') == [""];
  }

  // ---- Closed and acyclic tables

  /** Every parent is in the table, one level closer to a root at least. */
  ghost predicate Forest(rows: Table, depth: map<nat, nat>) {
    forall id :: Known(rows, id) ==>
      id in depth &&
      var up := RowWithId(rows, id).value.up;
      up == 0 || (Known(rows, up) && up in depth && depth[up] < depth[id])
  }

  /** There both walks end, from every row. */
  lemma {:induction false} ForestWalksEnd(rows: Table, depth: map<nat, nat>, id: nat)
    requires Forest(rows, depth) && Known(rows, id)
    ensures ReachesRoot(rows, id, depth[id] + 1)
    ensures !NameWalkRuns(rows, id, false, depth[id] + 1) && !IdWalkRuns(rows, id, depth[id] + 1)
    decreases depth[id]
  {
    ForestReaches(rows, depth, id, depth[id] + 1);
    WalkEndsExactly(rows, id, false, depth[id] + 1);
    RootedIdWalkEnds(rows, id, depth[id] + 1);
  }

  lemma {:induction false} ForestReaches(rows: Table, depth: map<nat, nat>, id: nat, n: nat)
    requires Forest(rows, depth) && Known(rows, id) && depth[id] < n
    ensures ReachesRoot(rows, id, n)
    decreases n
  {
    hide RowWithId;
    var up := RowWithId(rows, id).value.up;
    if up != 0 {
      ForestReaches(rows, depth, up, n - 1);
    }
  }

  lemma {:induction false} RootedIdWalkEnds(rows: Table, id: nat, n: nat)
    requires ReachesRoot(rows, id, n)
    ensures !IdWalkRuns(rows, id, n)
    decreases n
  {
    hide RowWithId;
    var up := RowWithId(rows, id).value.up;
    if up != 0 {
      RootedIdWalkEnds(rows, up, n - 1);
    }
  }
}
