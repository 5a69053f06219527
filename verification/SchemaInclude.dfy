/** Reading schema files and the files they include, with a table of the files already read. */
module SchemaInclude {
  /** An include element: its name may fail to convert, be absolute, or be relative to the including file. */
  datatype Include = Unconvertible | Absolute(path: string) | Relative(name: string)

  /** A file's XML: unparsable, not a schema document, or a schema with its include elements in order. */
  datatype Document = Malformed | Invalid | SchemaDocument(includes: seq<Include>)

  datatype Entry = Directory(names: seq<string>) | File(document: Document)

  /** The file system, how a relative name is resolved against a file, and how a name is looked up in a directory. */
  datatype World = World(
    entries: map<string, Entry>, sibling: (string, string) -> string, member: (string, string) -> string)
  {
    predicate Valid(file: string) {
      file in entries && entries[file].File? && entries[file].document.SchemaDocument?
    }

    predicate Includes(file: string, i: nat, path: string)
      requires Valid(file) && i < |entries[file].document.includes|
    {
      match entries[file].document.includes[i]
      case Unconvertible => false
      case Absolute(p) => path == p
      case Relative(name) => path == sibling(file, name)
    }

    ghost predicate Edge(file: string, path: string) {
      Valid(file) && exists i: nat :: i < |entries[file].document.includes| && Includes(file, i, path)
    }

    /** A chain of valid files, each included by the one before. */
    ghost predicate IsChain(chain: seq<string>) {
      chain != [] && (forall i :: 0 <= i < |chain| ==> Valid(chain[i])) &&
      forall i :: 0 <= i < |chain| - 1 ==> Edge(chain[i], chain[i + 1])
    }

    ghost predicate Reachable(root: string, file: string) {
      exists chain :: IsChain(chain) && chain[0] == root && chain[|chain| - 1] == file
    }

    predicate IsDirectory(path: string) {
      path in entries && entries[path].Directory?
    }

    /** Directories, each a visible member of the one before. */
    ghost predicate IsDescent(directories: seq<string>) {
      directories != [] && (forall i :: 0 <= i < |directories| ==> IsDirectory(directories[i])) &&
      forall i :: 0 <= i < |directories| - 1 ==> Holds(directories[i], directories[i + 1])
    }

    ghost predicate Holds(directory: string, path: string)
      requires IsDirectory(directory)
    {
      exists name :: name in entries[directory].names && !Hidden(name) && path == member(directory, name)
    }

    /** A valid schema file with the suffix .xml in the directory or in a visible directory below it. */
    ghost predicate XmlBelow(directory: string, file: string) {
      Valid(file) &&
      exists directories :: IsDescent(directories) && directories[0] == directory &&
                            HoldsXml(directories[|directories| - 1], file)
    }

    ghost predicate HoldsXml(directory: string, file: string)
      requires IsDirectory(directory)
    {
      exists name ::
        name in entries[directory].names && !Hidden(name) && IsXml(name) && file == member(directory, name)
    }

    /** What reading a directory should do: add those files and everything they include. */
    ghost predicate AsDocumented(directory: string, before: set<string>, after: set<string>) {
      forall f :: f in after <==> f in before || exists x :: XmlBelow(directory, x) && Reachable(x, f)
    }
  }

  predicate Hidden(name: string) {
    "." <= name || "#" <= name
  }

  predicate IsXml(name: string) {
    |name| >= 4 && name[|name| - 4..] == ".xml"
  }

  lemma ReachableSelf(w: World, file: string)
    requires w.Valid(file)
    ensures w.Reachable(file, file)
  {
    assert w.IsChain([file]) && [file][|[file]| - 1] == file;
  }

  lemma ReachableStep(w: World, root: string, next: string, file: string)
    requires w.Edge(root, next) && w.Reachable(next, file)
    ensures w.Reachable(root, file)
  {
    var chain :| w.IsChain(chain) && chain[0] == next && chain[|chain| - 1] == file;
    var longer := [root] + chain;
    assert forall i :: 0 <= i < |longer| - 1 ==> i == 0 || (longer[i] == chain[i - 1] && longer[i + 1] == chain[i]);
    assert w.IsChain(longer) && longer[|longer| - 1] == file;
  }

  class FileTable {
    var docs: map<string, Document>
    /** The files in the order they were entered. */
    ghost var entered: seq<string>

    constructor ()
      ensures docs == map[] && entered == []
    {
      docs, entered := map[], [];
    }

    /** Each file in the table was entered once, with its own document. */
    ghost predicate Sound(w: World)
      reads this
    {
      (forall f :: f in docs ==> w.Valid(f) && docs[f] == w.entries[f].document) &&
      (forall f :: f in entered <==> f in docs) &&
      (forall i, j :: 0 <= i < j < |entered| ==> entered[i] != entered[j])
    }

    /** Every valid file that file includes is in the table. */
    ghost predicate Closed(w: World, file: string)
      reads this
    {
      forall path :: w.Edge(file, path) && w.Valid(path) ==> path in docs
    }

    method Insert(file: string, doc: Document)
      requires file !in docs
      modifies this
      ensures docs == old(docs)[file := doc] && entered == old(entered) + [file]
    {
      docs := docs[file := doc];
      entered := entered + [file];
    }

    method ReadFile(w: World, file: string)
      requires Sound(w)
      modifies this
      ensures Sound(w) && old(docs).Keys <= docs.Keys
      ensures w.Valid(file) ==> file in docs
      ensures !w.Valid(file) ==> docs == old(docs) && entered == old(entered)
      ensures forall f :: f in docs && f !in old(docs) ==> w.Reachable(file, f) && Closed(w, f)
      decreases w.entries.Keys - docs.Keys, 1, 0
    {
      if file in docs {
        return;
      }
      if file !in w.entries || !w.entries[file].File? || w.entries[file].document.Malformed? {
        return;
      }
      var doc := w.entries[file].document;
      if doc.Invalid? {
        return;
      }
      Insert(file, doc);
      ReachableSelf(w, file);
      for i := 0 to |doc.includes|
        invariant Sound(w) && file in docs && old(docs).Keys <= docs.Keys
        invariant forall f :: f in docs && f !in old(docs) ==> w.Reachable(file, f) && (f == file || Closed(w, f))
        invariant forall k: nat, path :: k < i && w.Includes(file, k, path) && w.Valid(path) ==> path in docs
      {
        match doc.includes[i]
        case Unconvertible =>
        case Absolute(path) => FollowInclude(w, file, i, path, old(docs).Keys);
        case Relative(name) => FollowInclude(w, file, i, w.sibling(file, name), old(docs).Keys);
      }
    }

    /** Reads one included path; before are the files that were in the table when the including file came. */
    method FollowInclude(w: World, file: string, i: nat, path: string, ghost before: set<string>)
      requires Sound(w) && w.Valid(file) && i < |w.entries[file].document.includes| && w.Includes(file, i, path)
      requires file in docs
      requires forall f :: f in docs && f !in before ==> w.Reachable(file, f) && (f == file || Closed(w, f))
      modifies this
      ensures Sound(w) && old(docs).Keys <= docs.Keys
      ensures w.Valid(path) ==> path in docs
      ensures forall f :: f in docs && f !in before ==> w.Reachable(file, f) && (f == file || Closed(w, f))
      decreases w.entries.Keys - docs.Keys, 4, 0
    {
      assert w.Edge(file, path);
      ReadPath(w, path);
      forall f | f in docs && f !in old(docs)
        ensures w.Reachable(file, f)
      {
        ReachableStep(w, file, path, f);
      }
    }

    method ReadPath(w: World, path: string)
      requires Sound(w)
      modifies this
      ensures Sound(w) && old(docs).Keys <= docs.Keys
      ensures w.Valid(path) ==> path in docs
      ensures forall f :: f in docs && f !in old(docs) ==> w.Reachable(path, f) && Closed(w, f)
      decreases w.entries.Keys - docs.Keys, 3, 0
    {
      if w.IsDirectory(path) {
        ReadDirectory(w, path);
      } else if path in w.entries {
        ReadFile(w, path);
      }
    }

    /**
     The directory test on the entries is the wrong way round: plain files are opened as directories,
     which fails, and only directories named *.xml are read as files, which fails too.
     */
    method ReadDirectory(w: World, directory: string)
      requires Sound(w)
      modifies this
      ensures docs == old(docs) && entered == old(entered)
      ensures (forall f :: f in docs ==> Closed(w, f)) ==>
                (w.AsDocumented(directory, old(docs.Keys), docs.Keys) <==>
                 forall x :: w.XmlBelow(directory, x) ==> x in docs)
      decreases w.entries.Keys - docs.Keys, 2,
                if w.IsDirectory(directory) then 1 else 0
    {
      if w.IsDirectory(directory) {
        var names := w.entries[directory].names;
        for i := 0 to |names|
          invariant docs == old(docs) && entered == old(entered)
        {
          var path := w.member(directory, names[i]);
          if Hidden(names[i]) {
            // hidden and backup files
          } else if !w.IsDirectory(path) {
            ReadDirectory(w, path);
          } else if IsXml(names[i]) {
            ReadFile(w, path);
          }
        }
      }
      if forall f :: f in docs ==> Closed(w, f) {
        NothingReadIsDocumented(w, directory);
      }
    }

    /** Leaving a closed table as it is, is as documented exactly if it holds the directory's files already. */
    lemma NothingReadIsDocumented(w: World, directory: string)
      requires forall f :: f in docs ==> Closed(w, f)
      ensures w.AsDocumented(directory, docs.Keys, docs.Keys) <==>
              forall x :: w.XmlBelow(directory, x) ==> x in docs
    {
      hide World.Reachable;
      forall x | w.XmlBelow(directory, x)
        ensures w.Reachable(x, x)
      {
        ReachableSelf(w, x);
      }
      if forall x :: w.XmlBelow(directory, x) ==> x in docs {
        forall f, x | w.XmlBelow(directory, x) && w.Reachable(x, f)
          ensures f in docs
        {
          ClosedHoldsReachable(w, x, f);
        }
      }
    }

    lemma ClosedHoldsReachable(w: World, root: string, file: string)
      requires root in docs && w.Reachable(root, file) && forall f :: f in docs ==> Closed(w, f)
      ensures file in docs
    {
      var chain :| w.IsChain(chain) && chain[0] == root && chain[|chain| - 1] == file;
      ClosedReaches(w, this, chain, |chain| - 1);
    }
  }

  /** Reads everything that path leads to; a directory leads to nothing, which is as documented if it holds nothing. */
  method ReadSchemaFiles(w: World, path: string) returns (table: FileTable)
    ensures fresh(table) && table.Sound(w)
    ensures forall f :: f in table.docs <==> w.Reachable(path, f)
    ensures w.IsDirectory(path) ==>
              (w.AsDocumented(path, {}, table.docs.Keys) <==> forall x :: !w.XmlBelow(path, x))
  {
    table := new FileTable();
    table.ReadPath(w, path);
    forall f | w.Reachable(path, f)
      ensures f in table.docs
    {
      table.ClosedHoldsReachable(w, path, f);
    }
    if w.IsDirectory(path) {
      assert forall f :: f !in table.docs;
      assert table.docs.Keys == {};
      table.NothingReadIsDocumented(w, path);
    }
  }

  /** A directory with one schema file, which reading the directory therefore misses. */
  lemma FileInDirectory()
    ensures var w := World(map["d" := Directory(["a.xml"]), "d/a.xml" := File(SchemaDocument([]))],
                           (file, name) => name, (directory, name) => directory + "/" + name);
            w.IsDirectory("d") && w.XmlBelow("d", "d/a.xml")
  {
    var w := World(map["d" := Directory(["a.xml"]), "d/a.xml" := File(SchemaDocument([]))],
                   (file, name) => name, (directory, name) => directory + "/" + name);
    assert "a.xml"[0] == 'a' && !Hidden("a.xml");
    assert "a.xml"[1..] == ".xml";
    assert "a.xml" in w.entries["d"].names && w.member("d", "a.xml") == "d/a.xml";
    assert w.HoldsXml("d", "d/a.xml");
    assert w.IsDescent(["d"]);
  }

  /** A closed table that holds the start of a chain holds all of it. */
  lemma {:induction false} ClosedReaches(w: World, table: FileTable, chain: seq<string>, i: nat)
    requires w.IsChain(chain) && chain[0] in table.docs && i < |chain|
    requires forall f :: f in table.docs ==> table.Closed(w, f)
    ensures chain[i] in table.docs
  {
    if i > 0 {
      ClosedReaches(w, table, chain, i - 1);
      assert w.Edge(chain[i - 1], chain[i]);
    }
  }
}
