/** Node backups over an abstract file tree: inventory, creation, verification and restoring. */
module Backup {
  import opened Core
  import opened Sorting

  newtype Byte = n: int | 0 <= n < 0x100

  type Contents = seq<Byte>

  /** What a directory entry is. `Special` is a link, a device or anything else that is neither. */
  datatype Node = File(contents: Contents) | Directory(entries: seq<Entry>) | Special

  datatype Entry = Entry(name: string, node: Node)

  /** One file of a manifest. */
  datatype BackupFile = BackupFile(path: string, bytes: nat, sha256: string)

  datatype Manifest = Manifest(createdAt: string, files: seq<BackupFile>)

  /** How manifests are written and read, file contents digested, and names ordered. */
  datatype Tools = Tools(
    write: Manifest -> Contents,
    read: Contents -> Option<Manifest>,
    digest: Contents -> string,
    before: (string, string) -> bool)

  const BACKUP_MANIFEST_FILE: string := "peer-hours-node-backup.json"

  const MAX_SAFE_INTEGER: nat := 0x1F_FFFF_FFFF_FFFF

  predicate IsSha256(text: string) {
    |text| == 64 && forall i | 0 <= i < 64 :: '0' <= text[i] <= '9' || 'a' <= text[i] <= 'f'
  }

  /** Manifests read back as written, and digests have their usual form. */
  ghost predicate Dependable(tools: Tools) {
    (forall m :: tools.read(tools.write(m)) == Some(m)) && forall c :: IsSha256(tools.digest(c))
  }

  // ---- paths ------------------------------------------------------------------------------------------

  /** `path.split("/")`. */
  function Split(path: string): (r: seq<string>)
    ensures r != []
  {
    if path == "" then [""]
    else
      var rest := Split(path[1..]);
      if path[0] == '/' then [""] + rest else [[path[0]] + rest[0]] + rest[1..]
  }

  predicate IsSafeSegment(segment: string) { segment != "" && segment != "." && segment != ".." }

  predicate IsSafeBackupPath(path: string) {
    path != "" && path[0] != '/' && forall s | s in Split(path) :: IsSafeSegment(s)
  }

  /** A name as a file system lists it. */
  predicate IsName(name: string) { IsSafeSegment(name) && '/' !in name }

  lemma {:induction false} SplitName(name: string, rest: string)
    requires '/' !in name
    ensures Split(name) == [name]
    ensures Split(name + "/" + rest) == [name] + Split(rest)
  {
    if name == "" {
      assert name + "/" + rest == "/" + rest;
      assert ("/" + rest)[1..] == rest;
    } else {
      SplitName(name[1..], rest);
      assert (name + "/" + rest)[1..] == name[1..] + "/" + rest;
      assert [name[0]] + name[1..] == name;
    }
  }

  lemma SafeName(name: string, rest: string)
    requires IsName(name)
    ensures IsSafeBackupPath(name)
    ensures IsSafeBackupPath(rest) ==> rest != "" && IsSafeBackupPath(name + "/" + rest)
  {
    SplitName(name, rest);
    assert name[0] in name;
  }

  /** Paths that begin with different names are different. */
  lemma {:induction false} NamesSeparate(a: string, b: string, s: string, t: string)
    requires '/' !in a && '/' !in b && a + s == b + t
    requires (s == "" || s[0] == '/') && (t == "" || t[0] == '/')
    ensures a == b
  {
    HeadOf(a, s);
    HeadOf(b, t);
    if a != "" && b != "" {
      assert (a + s)[1..] == a[1..] + s && (b + t)[1..] == b[1..] + t;
      NamesSeparate(a[1..], b[1..], s, t);
      assert a == [a[0]] + a[1..] && b == [b[0]] + b[1..];
    }
  }

  lemma HeadOf(a: string, s: string)
    ensures a == "" ==> a + s == s
    ensures a != "" ==> (a + s)[0] == a[0] && a[0] in a
  {
  }

  // ---- the files of a tree --------------------------------------------------------------------------------

  /** A file with its path from the root of a tree. */
  datatype SourceFile = SourceFile(path: string, contents: Contents)

  function NameOf(e: Entry): string { e.name }

  function ByName(tools: Tools): (Entry, Entry) -> bool { (a: Entry, b: Entry) => tools.before(a.name, b.name) }

  function Depth(node: Node): nat
    decreases node, 1
  {
    match node
    case Directory(entries) => 1 + MaxDepth(entries)
    case _ => 0
  }

  function MaxDepth(entries: seq<Entry>): (d: nat)
    ensures forall e | e in entries :: Depth(e.node) <= d
    decreases entries, 0
  {
    if entries == [] then 0
    else
      assert entries == [entries[0]] + entries[1..];
      var a, b := Depth(entries[0].node), MaxDepth(entries[1..]);
      if a < b then b else a
  }

  lemma {:induction false} MaxDepthBound(entries: seq<Entry>, bound: nat)
    requires forall e | e in entries :: Depth(e.node) <= bound
    ensures MaxDepth(entries) <= bound
  {
    if entries != [] { MaxDepthBound(entries[1..], bound); }
  }

  /** The entries in the order in which a walk visits them. */
  function Sorted(tools: Tools, entries: seq<Entry>): (r: seq<Entry>)
    ensures forall e :: e in r <==> e in entries
    ensures MaxDepth(r) <= MaxDepth(entries)
  {
    SortElements(ByName(tools), entries);
    MaxDepthBound(Sort(ByName(tools), entries), MaxDepth(entries));
    Sort(ByName(tools), entries)
  }

  /** The files below entries that a walk visits in this order, with their paths. */
  function Files(tools: Tools, prefix: string, entries: seq<Entry>): seq<SourceFile>
    decreases MaxDepth(entries), |entries|, 1
  {
    if entries == [] then []
    else
      MaxDepthBound(entries[..|entries| - 1], MaxDepth(entries));
      Files(tools, prefix, entries[..|entries| - 1]) + EntryFiles(tools, prefix, entries[|entries| - 1])
  }

  function EntryFiles(tools: Tools, prefix: string, e: Entry): seq<SourceFile>
    decreases Depth(e.node), 0, 0
  {
    match e.node
    case File(contents) => [SourceFile(prefix + e.name, contents)]
    case Directory(entries) => Files(tools, prefix + e.name + "/", Sorted(tools, entries))
    case Special => []
  }

  /** No entry of the tree is a link or a device. */
  predicate NoSpecial(entries: seq<Entry>)
    decreases entries
  {
    forall i | 0 <= i < |entries| ::
      !entries[i].node.Special? && (entries[i].node.Directory? ==> NoSpecial(entries[i].node.entries))
  }

  /** A tree as a file system holds it: proper names, each once in its directory. */
  ghost predicate ValidTree(entries: seq<Entry>)
    decreases entries
  {
    && NoDuplicates(Map(entries, NameOf))
    && forall i | 0 <= i < |entries| ::
         && IsName(entries[i].name)
         && (entries[i].node.Directory? ==> ValidTree(entries[i].node.entries))
  }

  // ---- inventory ------------------------------------------------------------------------------------------

  function Describe(tools: Tools, f: SourceFile): BackupFile {
    BackupFile(f.path, |f.contents|, tools.digest(f.contents))
  }

  function Describing(tools: Tools): SourceFile -> BackupFile { (f: SourceFile) => Describe(tools, f) }

  function Kept(ignored: set<string>): SourceFile -> bool { (f: SourceFile) => f.path !in ignored }

  /** What `inventoryFiles` returns for entries visited in this order. */
  function Inventory(tools: Tools, ignored: set<string>, prefix: string, entries: seq<Entry>): Result<seq<BackupFile>> {
    if NoSpecial(entries) then Ok(Map(Filter(Files(tools, prefix, entries), Kept(ignored)), Describing(tools))) else Error
  }

  lemma MapAppend<T, U>(a: seq<T>, b: seq<T>, f: T -> U)
    ensures Map(a + b, f) == Map(a, f) + Map(b, f)
  {
  }

  lemma InventoryStep(tools: Tools, ignored: set<string>, prefix: string, entries: seq<Entry>, n: nat)
    requires n < |entries|
    ensures NoSpecial(entries[..n + 1]) <==> NoSpecial(entries[..n]) && NoSpecial([entries[n]])
    ensures Map(Filter(Files(tools, prefix, entries[..n + 1]), Kept(ignored)), Describing(tools))
         == Map(Filter(Files(tools, prefix, entries[..n]), Kept(ignored)), Describing(tools))
            + Map(Filter(EntryFiles(tools, prefix, entries[n]), Kept(ignored)), Describing(tools))
  {
    hide EntryFiles;
    TakeNext(entries, n);
    var front, last := Files(tools, prefix, entries[..n]), EntryFiles(tools, prefix, entries[n]);
    assert Files(tools, prefix, entries[..n + 1]) == front + last;
    FilterAppend(front, last, Kept(ignored));
    MapAppend(Filter(front, Kept(ignored)), Filter(last, Kept(ignored)), Describing(tools));
    SpecialStep(entries, n);
  }

  lemma SpecialStep(entries: seq<Entry>, n: nat)
    requires n < |entries|
    ensures NoSpecial(entries[..n + 1]) <==> NoSpecial(entries[..n]) && NoSpecial([entries[n]])
  {
    var a, b, c := entries[..n + 1], entries[..n], [entries[n]];
    assert a == b + c;
    assert forall i | 0 <= i < |b| :: b[i] == a[i];
    assert a[n] == c[0];
  }

  lemma NoSpecialAnyOrder(tools: Tools, entries: seq<Entry>)
    ensures NoSpecial(Sorted(tools, entries)) <==> NoSpecial(entries)
  {
    var sorted := Sorted(tools, entries);
    if NoSpecial(entries) {
      forall i | 0 <= i < |sorted| ensures !sorted[i].node.Special? && (sorted[i].node.Directory? ==> NoSpecial(sorted[i].node.entries)) {
        assert sorted[i] in entries;
      }
    }
    if NoSpecial(sorted) {
      forall i | 0 <= i < |entries| ensures !entries[i].node.Special? && (entries[i].node.Directory? ==> NoSpecial(entries[i].node.entries)) {
        assert entries[i] in sorted;
      }
    }
  }

  /** The walk of `inventoryFiles` below one directory whose listing has been sorted. */
  method Visit(tools: Tools, ignored: set<string>, prefix: string, entries: seq<Entry>) returns (r: Result<seq<BackupFile>>)
    ensures r == Inventory(tools, ignored, prefix, entries)
    decreases MaxDepth(entries)
  {
    hide Files, NoSpecial, Sorted, Filter, Map, Describing, Kept;
    var files: seq<BackupFile> := [];
    NothingVisited(tools, ignored, prefix);
    for i := 0 to |entries|
      invariant Inventory(tools, ignored, prefix, entries[..i]) == Ok(files)
    {
      var e := entries[i];
      InventoryStep(tools, ignored, prefix, entries, i);
      NoSpecialOne(e);
      match e.node {
        case Directory(inner) =>
          assert e in entries;
          NoSpecialAnyOrder(tools, inner);
          var below := Visit(tools, ignored, prefix + e.name + "/", Sorted(tools, inner));
          if below.Error? {
            SpecialStays(entries, i + 1);
            return Error;
          }
          files := files + below.value;
        case File(contents) =>
          var path := prefix + e.name;
          OneFileVisited(tools, ignored, SourceFile(path, contents));
          assert files + [] == files;
          if path !in ignored { files := files + [BackupFile(path, |contents|, tools.digest(contents))]; }
        case Special =>
          SpecialStays(entries, i + 1);
          return Error;
      }
    }
    TakeAll(entries);
    r := Ok(files);
  }

  lemma NothingVisited(tools: Tools, ignored: set<string>, prefix: string)
    ensures Inventory(tools, ignored, prefix, []) == Ok([])
  {
  }

  lemma OneFileVisited(tools: Tools, ignored: set<string>, f: SourceFile)
    ensures Map(Filter([f], Kept(ignored)), Describing(tools)) == if f.path in ignored then [] else [Describe(tools, f)]
  {
    assert [f][..0] == [];
  }

  lemma NoSpecialOne(e: Entry)
    ensures NoSpecial([e]) <==> !e.node.Special? && (e.node.Directory? ==> NoSpecial(e.node.entries))
  {
    assert [e][0] == e;
  }

  lemma SpecialStays(entries: seq<Entry>, n: nat)
    requires n <= |entries| && !NoSpecial(entries[..n])
    ensures !NoSpecial(entries)
  {
    if NoSpecial(entries) {
      assert forall i | 0 <= i < n :: entries[..n][i] == entries[i];
    }
  }

  lemma {:induction false} FilesMembers(tools: Tools, prefix: string, entries: seq<Entry>)
    ensures forall f :: f in Files(tools, prefix, entries) <==> exists e :: e in entries && f in EntryFiles(tools, prefix, e)
    decreases |entries|
  {
    hide EntryFiles;
    if entries != [] {
      var front, last := entries[..|entries| - 1], entries[|entries| - 1];
      FrontLast(entries);
      MaxDepthBound(front, MaxDepth(entries));
      FilesMembers(tools, prefix, front);
      assert Files(tools, prefix, entries) == Files(tools, prefix, front) + EntryFiles(tools, prefix, last);
      assert forall e :: e in entries <==> e in front || e == last;
    }
  }

  predicate Under(path: string, prefix: string, name: string) {
    path == prefix + name || (|path| > |prefix + name| && path[..|prefix + name| + 1] == prefix + name + "/")
  }

  /** Where the files of an entry are, and that their paths are safe. */
  lemma {:induction false} EntryFileShape(tools: Tools, prefix: string, e: Entry, f: SourceFile)
    requires f in EntryFiles(tools, prefix, e) && ValidTree([e])
    ensures exists rest :: f.path == prefix + rest && IsSafeBackupPath(rest)
    ensures Under(f.path, prefix, e.name)
    decreases Depth(e.node)
  {
    hide Split, IsSafeSegment, IsSafeBackupPath, Sorted, Files, ValidTree;
    ValidOne(e);
    match e.node {
      case File(_) =>
        SafeName(e.name, "");
        assert f.path == prefix + e.name;
      case Directory(entries) =>
        var inner := prefix + e.name + "/";
        FilesMembers(tools, inner, Sorted(tools, entries));
        var d := EntryHolding(tools, inner, entries, f);
        ValidEntry(entries, d);
        EntryFileShape(tools, inner, d, f);
        var rest :| f.path == inner + rest && IsSafeBackupPath(rest);
        SafeName(e.name, rest);
        InnerPath(prefix, e.name, rest);
    }
  }

  lemma ValidOne(e: Entry)
    requires ValidTree([e])
    ensures IsName(e.name) && (e.node.Directory? ==> ValidTree(e.node.entries))
  {
    assert [e][0] == e;
  }

  lemma EntryHolding(tools: Tools, prefix: string, entries: seq<Entry>, f: SourceFile) returns (d: Entry)
    requires f in Files(tools, prefix, Sorted(tools, entries))
    ensures d in entries && f in EntryFiles(tools, prefix, d)
  {
    hide Files, EntryFiles;
    FilesMembers(tools, prefix, Sorted(tools, entries));
    d :| d in Sorted(tools, entries) && f in EntryFiles(tools, prefix, d);
  }

  lemma InnerPath(prefix: string, name: string, rest: string)
    ensures prefix + name + "/" + rest == prefix + (name + "/" + rest)
    ensures rest != "" ==> Under(prefix + name + "/" + rest, prefix, name)
  {
    var whole := prefix + name + "/";
    assert (whole + rest)[..|whole|] == whole;
  }

  lemma ValidEntry(entries: seq<Entry>, e: Entry)
    requires ValidTree(entries) && e in entries
    ensures ValidTree([e])
  {
    var i :| 0 <= i < |entries| && entries[i] == e;
    assert [e][0] == e;
  }

  lemma SeparateNames(path: string, prefix: string, a: string, b: string)
    requires Under(path, prefix, a) && Under(path, prefix, b) && '/' !in a && '/' !in b
    ensures a == b
  {
    var tail := path[|prefix|..];
    assert path == prefix + tail;
    var s, t := tail[|a|..], tail[|b|..];
    assert tail == a + s by { UnderTail(path, prefix, a); }
    assert tail == b + t by { UnderTail(path, prefix, b); }
    UnderTail(path, prefix, a);
    UnderTail(path, prefix, b);
    NamesSeparate(a, b, s, t);
  }

  lemma UnderTail(path: string, prefix: string, name: string)
    requires Under(path, prefix, name)
    ensures |path| >= |prefix| + |name| && path[..|prefix|] == prefix
    ensures path[|prefix|..][..|name|] == name
    ensures var s := path[|prefix|..][|name|..]; s == "" || s[0] == '/'
  {
    var whole := prefix + name;
    assert path[..|whole|] == whole by {
      if path != whole { assert path[..|whole|] == path[..|whole| + 1][..|whole|] == (whole + "/")[..|whole|]; }
    }
    assert path[..|prefix|] == path[..|whole|][..|prefix|];
    assert path[|prefix|..][..|name|] == path[..|whole|][|prefix|..];
    if path != whole { assert path[|whole|] == path[..|whole| + 1][|whole|]; }
  }

  function PathOf(f: SourceFile): string { f.path }

  /** A walk never gives one path twice. */
  lemma {:induction false} PathsDistinct(tools: Tools, prefix: string, entries: seq<Entry>)
    requires ValidTree(entries)
    ensures NoDuplicates(Map(Files(tools, prefix, entries), PathOf))
    decreases MaxDepth(entries), |entries|, 1
  {
    hide EntryFiles, IsName, Sorted;
    if entries != [] {
      var front, last := entries[..|entries| - 1], entries[|entries| - 1];
      FrontLast(entries);
      ValidFront(entries);
      ValidEntry(entries, last);
      MaxDepthBound(front, MaxDepth(entries));
      PathsDistinct(tools, prefix, front);
      EntryPathsDistinct(tools, prefix, last);
      FilesMembers(tools, prefix, front);
      forall f, g | f in Files(tools, prefix, front) && g in EntryFiles(tools, prefix, last)
        ensures f.path != g.path
      {
        var e :| e in front && f in EntryFiles(tools, prefix, e);
        ValidEntry(front, e);
        EntryFileShape(tools, prefix, e, f);
        EntryFileShape(tools, prefix, last, g);
        DistinctNames(entries, e);
        if f.path == g.path { SeparateNames(f.path, prefix, e.name, last.name); }
      }
      DistinctTogether(Files(tools, prefix, front), EntryFiles(tools, prefix, last));
    }
  }

  lemma EntryPathsDistinct(tools: Tools, prefix: string, e: Entry)
    requires ValidTree([e])
    ensures NoDuplicates(Map(EntryFiles(tools, prefix, e), PathOf))
    decreases Depth(e.node), 0, 0
  {
    assert [e][0] == e;
    if e.node.Directory? {
      ValidSorted(tools, e.node.entries);
      PathsDistinct(tools, prefix + e.name + "/", Sorted(tools, e.node.entries));
    }
  }

  lemma ValidSorted(tools: Tools, entries: seq<Entry>)
    requires ValidTree(entries)
    ensures ValidTree(Sorted(tools, entries))
  {
    hide Sort, IsName;
    var sorted := Sorted(tools, entries);
    DistinctEntries(entries);
    SortElements(ByName(tools), entries);
    forall i, j | 0 <= i < j < |sorted|
      ensures Map(sorted, NameOf)[i] != Map(sorted, NameOf)[j]
    {
      assert sorted[i] in sorted && sorted[j] in sorted && sorted[i] != sorted[j];
    }
    forall i | 0 <= i < |sorted|
      ensures IsName(sorted[i].name)
      ensures sorted[i].node.Directory? ==> ValidTree(sorted[i].node.entries)
    {
      assert sorted[i] in entries;
    }
  }

  lemma DistinctEntries(entries: seq<Entry>)
    requires NoDuplicates(Map(entries, NameOf))
    ensures NoDuplicates(entries)
    ensures forall d, e | d in entries && e in entries && d.name == e.name :: d == e
  {
    var names := Map(entries, NameOf);
    forall i, j | 0 <= i < j < |entries| ensures entries[i] != entries[j] { assert names[i] != names[j]; }
    forall d, e | d in entries && e in entries && d.name == e.name
      ensures d == e
    {
      var i :| 0 <= i < |entries| && entries[i] == d;
      var j :| 0 <= j < |entries| && entries[j] == e;
      assert names[i] == names[j];
    }
  }

  lemma ValidFront(entries: seq<Entry>)
    requires ValidTree(entries) && entries != []
    ensures ValidTree(entries[..|entries| - 1])
  {
    var front := entries[..|entries| - 1];
    assert forall i | 0 <= i < |front| :: front[i] == entries[i] && Map(front, NameOf)[i] == Map(entries, NameOf)[i];
  }

  lemma DistinctNames(entries: seq<Entry>, e: Entry)
    requires ValidTree(entries) && entries != [] && e in entries[..|entries| - 1]
    ensures IsName(e.name) && IsName(entries[|entries| - 1].name) && e.name != entries[|entries| - 1].name
  {
    var front := entries[..|entries| - 1];
    var i :| 0 <= i < |front| && front[i] == e;
    assert Map(entries, NameOf)[i] == e.name && Map(entries, NameOf)[|entries| - 1] == entries[|entries| - 1].name;
  }

  lemma DistinctTogether(a: seq<SourceFile>, b: seq<SourceFile>)
    requires NoDuplicates(Map(a, PathOf)) && NoDuplicates(Map(b, PathOf))
    requires forall f, g | f in a && g in b :: f.path != g.path
    ensures NoDuplicates(Map(a + b, PathOf))
  {
    var all := a + b;
    forall i, j | 0 <= i < j < |all|
      ensures Map(all, PathOf)[i] != Map(all, PathOf)[j]
    {
      if j < |a| {
        assert Map(a, PathOf)[i] != Map(a, PathOf)[j];
      } else if i >= |a| {
        assert Map(b, PathOf)[i - |a|] != Map(b, PathOf)[j - |a|];
      } else {
        assert all[i] in a && all[j] in b;
      }
    }
  }

  // ---- verification ---------------------------------------------------------------------------------------

  function FilePath(f: BackupFile): string { f.path }

  /** A manifest with distinct paths describes exactly these files. */
  ghost predicate DescribesExactly(declared: seq<BackupFile>, actual: seq<BackupFile>) {
    NoDuplicates(Map(declared, FilePath)) && Elems(declared) == Elems(actual)
  }

  lemma DistinctPathsDistinctFiles(files: seq<BackupFile>)
    requires NoDuplicates(Map(files, FilePath))
    ensures NoDuplicates(files)
    ensures forall f, g | f in files && g in files && f.path == g.path :: f == g
  {
    forall i, j | 0 <= i < j < |files| ensures files[i] != files[j] { assert Map(files, FilePath)[i] != Map(files, FilePath)[j]; }
    forall f, g | f in files && g in files && f.path == g.path
      ensures f == g
    {
      var i :| 0 <= i < |files| && files[i] == f;
      var j :| 0 <= j < |files| && files[j] == g;
      assert Map(files, FilePath)[i] == Map(files, FilePath)[j];
    }
  }

  /** Finding every walked file among as many declared ones finds every declared one. */
  lemma FoundAllIffSame(declared: seq<BackupFile>, actual: seq<BackupFile>)
    requires NoDuplicates(Map(declared, FilePath)) && NoDuplicates(Map(actual, FilePath))
    ensures Elems(declared) == Elems(actual) <==> |declared| == |actual| && forall f | f in actual :: f in declared
  {
    DistinctPathsDistinctFiles(declared);
    DistinctPathsDistinctFiles(actual);
    DistinctCount(declared);
    DistinctCount(actual);
    if forall f | f in actual :: f in declared {
      assert Elems(actual) <= Elems(declared);
      SubsetCount(Elems(actual), Elems(declared));
    }
    if Elems(declared) == Elems(actual) {
      forall f | f in actual ensures f in declared { assert f in Elems(actual); }
    }
  }

  /** `new Map(files.map((file) => [file.path, file]))`: a later file replaces an earlier one of its path. */
  method IndexByPath(files: seq<BackupFile>) returns (expected: map<string, BackupFile>)
    ensures |expected| == |files| <==> NoDuplicates(Map(files, FilePath))
    ensures forall p | p in expected :: expected[p] in files && expected[p].path == p
    ensures forall f | f in files :: f.path in expected
    ensures NoDuplicates(Map(files, FilePath)) ==> forall f | f in files :: expected[f.path] == f
  {
    expected := map[];
    for i := 0 to |files|
      invariant forall p | p in expected :: expected[p] in files[..i] && expected[p].path == p
      invariant expected.Keys == Elems(Map(files[..i], FilePath))
    {
      TakeNext(files, i);
      MapNext(files, i);
      expected := expected[files[i].path := files[i]];
    }
    TakeAll(files);
    IndexedAll(files, expected);
  }

  /** An index with every path holds as many entries as there are files exactly when no path repeats. */
  lemma IndexedAll(files: seq<BackupFile>, expected: map<string, BackupFile>)
    requires forall p | p in expected :: expected[p] in files && expected[p].path == p
    requires expected.Keys == Elems(Map(files, FilePath))
    ensures |expected| == |files| <==> NoDuplicates(Map(files, FilePath))
    ensures forall f | f in files :: f.path in expected
    ensures NoDuplicates(Map(files, FilePath)) ==> forall f | f in files :: expected[f.path] == f
  {
    hide NoDuplicates;
    DistinctCount(Map(files, FilePath));
    assert |expected| == |expected.Keys|;
    forall f | f in files
      ensures f.path in expected
    {
      var i :| 0 <= i < |files| && files[i] == f;
      assert Map(files, FilePath)[i] == f.path;
    }
    if NoDuplicates(Map(files, FilePath)) { DistinctPathsDistinctFiles(files); }
  }

  lemma MapNext(files: seq<BackupFile>, i: nat)
    requires i < |files|
    ensures Map(files[..i + 1], FilePath) == Map(files[..i], FilePath) + [files[i].path]
  {
  }

  /** The checks of `verifyNodeBackup` between a manifest and a walk: a count and a lookup for each walked
      file, which amount to equality of the two sets of files. */
  method CheckFiles(declared: seq<BackupFile>, actual: seq<BackupFile>) returns (ok: bool)
    requires NoDuplicates(Map(actual, FilePath))
    ensures ok <==> DescribesExactly(declared, actual)
  {
    var expected := IndexByPath(declared);
    if |expected| != |declared| { return false; }
    DistinctPathsDistinctFiles(declared);
    FoundAllIffSame(declared, actual);
    if |actual| != |expected| { return false; }
    for i := 0 to |actual|
      invariant forall k | 0 <= k < i :: actual[k] in declared
    {
      var f := actual[i];
      if f.path !in expected || expected[f.path] != f {
        assert f in actual && f !in declared;
        return false;
      }
    }
    ok := true;
  }

  /** The contents of a regular file directly below the root. */
  function ReadRootFile(root: seq<Entry>, name: string): Option<Contents> {
    if root == [] then None
    else if root[0].name == name then (if root[0].node.File? then Some(root[0].node.contents) else None)
    else ReadRootFile(root[1..], name)
  }

  predicate IsValidFile(f: BackupFile) {
    IsSafeBackupPath(f.path) && f.bytes <= MAX_SAFE_INTEGER && IsSha256(f.sha256)
  }

  function ReadManifest(tools: Tools, root: seq<Entry>): Result<Manifest> {
    match ReadRootFile(root, BACKUP_MANIFEST_FILE)
    case None => Error
    case Some(contents) =>
      match tools.read(contents)
      case None => Error
      case Some(m) => if forall f | f in m.files :: IsValidFile(f) then Ok(m) else Error
  }

  /** What `verifyNodeBackup` decides about a directory. */
  ghost function Verified(tools: Tools, root: seq<Entry>): Result<Manifest> {
    var m :- ReadManifest(tools, root);
    var actual :- Inventory(tools, {BACKUP_MANIFEST_FILE}, "", Sorted(tools, root));
    if DescribesExactly(m.files, actual) then Ok(m) else Error
  }

  lemma {:induction false} FilterPaths(files: seq<SourceFile>, keep: SourceFile -> bool)
    requires NoDuplicates(Map(files, PathOf))
    ensures NoDuplicates(Map(Filter(files, keep), PathOf))
  {
    if files != [] {
      var front, last := files[..|files| - 1], files[|files| - 1];
      FrontLast(files);
      assert forall i | 0 <= i < |front| :: Map(front, PathOf)[i] == Map(files, PathOf)[i];
      FilterPaths(front, keep);
      forall f, g | f in Filter(front, keep) && g in [last]
        ensures f.path != g.path
      {
        var i :| 0 <= i < |front| && front[i] == f;
        assert Map(files, PathOf)[i] != Map(files, PathOf)[|front|];
      }
      DistinctTogether(Filter(front, keep), [last]);
    }
  }

  lemma InventoryPathsDistinct(tools: Tools, ignored: set<string>, entries: seq<Entry>)
    requires ValidTree(entries) && NoSpecial(Sorted(tools, entries))
    ensures NoDuplicates(Map(Inventory(tools, ignored, "", Sorted(tools, entries)).value, FilePath))
  {
    hide ValidTree, Files, Filter, Sorted, NoSpecial;
    ValidSorted(tools, entries);
    var files := Files(tools, "", Sorted(tools, entries));
    PathsDistinct(tools, "", Sorted(tools, entries));
    FilterPaths(files, Kept(ignored));
    var kept := Filter(files, Kept(ignored));
    assert Map(Map(kept, Describing(tools)), FilePath) == Map(kept, PathOf);
  }

  method VerifyNodeBackup(tools: Tools, root: seq<Entry>) returns (r: Result<Manifest>)
    requires ValidTree(root)
    ensures r == Verified(tools, root)
  {
    hide ReadManifest, Inventory, DescribesExactly, ValidTree, Sorted;
    r := ReadManifest(tools, root);
    if r.Error? { return; }
    var actual := Visit(tools, {BACKUP_MANIFEST_FILE}, "", Sorted(tools, root));
    if actual.Error? { return Error; }
    InventoryOk(tools, {BACKUP_MANIFEST_FILE}, Sorted(tools, root));
    InventoryPathsDistinct(tools, {BACKUP_MANIFEST_FILE}, root);
    var ok := CheckFiles(r.value.files, actual.value);
    if !ok { return Error; }
  }

  lemma InventoryOk(tools: Tools, ignored: set<string>, entries: seq<Entry>)
    ensures Inventory(tools, ignored, "", entries).Ok? <==> NoSpecial(entries)
  {
  }

  // ---- creating and restoring -------------------------------------------------------------------------------

  predicate HasEntry(root: seq<Entry>, name: string) { exists e :: e in root && e.name == name }

  /** Every file is small enough for a manifest to state its size. */
  predicate SizesFit(tools: Tools, root: seq<Entry>) {
    forall f | f in Files(tools, "", Sorted(tools, root)) :: |f.contents| <= MAX_SAFE_INTEGER
  }

  function WithManifest(tools: Tools, source: seq<Entry>, m: Manifest): seq<Entry> {
    source + [Entry(BACKUP_MANIFEST_FILE, File(tools.write(m)))]
  }

  lemma WithManifestValid(tools: Tools, source: seq<Entry>, m: Manifest)
    requires ValidTree(source) && !HasEntry(source, BACKUP_MANIFEST_FILE)
    ensures ValidTree(WithManifest(tools, source, m))
    ensures ReadRootFile(WithManifest(tools, source, m), BACKUP_MANIFEST_FILE) == Some(tools.write(m))
  {
    hide ValidTree, HasEntry, ReadRootFile;
    var last := Entry(BACKUP_MANIFEST_FILE, File(tools.write(m)));
    ReadsLast(source, last);
    ManifestNameIsName();
    AppendValid(source, last);
  }

  lemma ManifestNameIsName()
    ensures IsName(BACKUP_MANIFEST_FILE)
  {
  }

  lemma AppendValid(source: seq<Entry>, last: Entry)
    requires ValidTree(source) && !HasEntry(source, last.name) && IsName(last.name) && last.node.File?
    ensures ValidTree(source + [last])
  {
    hide IsName;
    var all := source + [last];
    forall i, j | 0 <= i < j < |all|
      ensures Map(all, NameOf)[i] != Map(all, NameOf)[j]
    {
      assert i < |source| && all[i] == source[i] && all[i] in source;
      if j < |source| { assert Map(source, NameOf)[i] != Map(source, NameOf)[j]; }
    }
    assert forall i | 0 <= i < |source| :: all[i] == source[i];
  }

  lemma {:induction false} ReadsLast(source: seq<Entry>, last: Entry)
    requires !HasEntry(source, last.name) && last.node.File?
    ensures ReadRootFile(source + [last], last.name) == Some(last.node.contents)
  {
    if source == [] {
      assert source + [last] == [last];
    } else {
      assert source[0] in source;
      assert forall e | e in source[1..] :: e in source;
      ReadsLast(source[1..], last);
      assert (source + [last])[1..] == source[1..] + [last];
    }
  }

  /** What a walk of a tree finds, as a set of files. */
  lemma InventoryMembers(tools: Tools, ignored: set<string>, entries: seq<Entry>, b: BackupFile)
    requires NoSpecial(Sorted(tools, entries))
    ensures b in Inventory(tools, ignored, "", Sorted(tools, entries)).value <==>
              exists f :: f in Files(tools, "", Sorted(tools, entries)) && f.path !in ignored && b == Describe(tools, f)
  {
    hide Files, Sorted, NoSpecial;
    var files := Files(tools, "", Sorted(tools, entries));
    var kept := Filter(files, Kept(ignored));
    var found := Map(kept, Describing(tools));
    if b in found {
      var i :| 0 <= i < |found| && found[i] == b;
      assert kept[i] in files;
    }
    if f :| f in files && f.path !in ignored && b == Describe(tools, f) {
      var i :| 0 <= i < |kept| && kept[i] == f;
      assert found[i] == b;
    }
  }

  /** The files of a tree are those of its entries. */
  lemma TreeFiles(tools: Tools, entries: seq<Entry>)
    ensures forall f :: f in Files(tools, "", Sorted(tools, entries)) <==> exists e :: e in entries && f in EntryFiles(tools, "", e)
  {
    hide Files, EntryFiles;
    FilesMembers(tools, "", Sorted(tools, entries));
  }

  /** In a tree, only the root entry with the manifest's name lies at the manifest's path. */
  lemma ManifestPath(tools: Tools, entries: seq<Entry>, e: Entry, f: SourceFile)
    requires ValidTree(entries) && e in entries && f in EntryFiles(tools, "", e)
    ensures f.path == BACKUP_MANIFEST_FILE ==> e.name == BACKUP_MANIFEST_FILE
    ensures e.name == BACKUP_MANIFEST_FILE && e.node.File? ==> f.path == BACKUP_MANIFEST_FILE
  {
    hide ValidTree, EntryFiles, Split;
    ValidEntry(entries, e);
    ValidOne(e);
    EntryFileShape(tools, "", e, f);
    assert "" + BACKUP_MANIFEST_FILE == BACKUP_MANIFEST_FILE;
    if f.path == BACKUP_MANIFEST_FILE { SeparateNames(f.path, "", e.name, BACKUP_MANIFEST_FILE); }
    ManifestEntryPath(tools, e, f);
  }

  lemma ManifestEntryPath(tools: Tools, e: Entry, f: SourceFile)
    requires f in EntryFiles(tools, "", e)
    ensures e.node.File? ==> f.path == "" + e.name
  {
  }

  predicate NotManifest(e: Entry) { e.name != BACKUP_MANIFEST_FILE }

  /** A restored tree: everything but the manifest at the root. */
  function WithoutManifest(root: seq<Entry>): seq<Entry> { Filter(root, NotManifest) }

  lemma RestoredFiles(tools: Tools, root: seq<Entry>, f: SourceFile)
    requires ValidTree(root) && ReadRootFile(root, BACKUP_MANIFEST_FILE).Some?
    ensures f in Files(tools, "", Sorted(tools, WithoutManifest(root))) <==>
              f in Files(tools, "", Sorted(tools, root)) && f.path != BACKUP_MANIFEST_FILE
  {
    hide Files, EntryFiles, ValidTree, Sorted;
    TreeFiles(tools, root);
    TreeFiles(tools, WithoutManifest(root));
    if e :| e in root && f in EntryFiles(tools, "", e) {
      ManifestPath(tools, root, e, f);
      if f.path != BACKUP_MANIFEST_FILE {
        ManifestIsFile(root, e);
        assert e in WithoutManifest(root);
      } else {
        forall d | d in WithoutManifest(root) ensures f !in EntryFiles(tools, "", d) {
          if f in EntryFiles(tools, "", d) { ManifestPath(tools, root, d, f); }
        }
      }
    }
    assert forall e | e in WithoutManifest(root) :: e in root;
  }

  lemma {:induction false} ManifestIsFile(root: seq<Entry>, e: Entry)
    requires ValidTree(root) && e in root && ReadRootFile(root, BACKUP_MANIFEST_FILE).Some?
    ensures e.name == BACKUP_MANIFEST_FILE ==> e.node.File?
    decreases |root|
  {
    var i :| 0 <= i < |root| && root[i] == e;
    if root[0].name != BACKUP_MANIFEST_FILE {
      if i > 0 {
        var rest := root[1..];
        assert forall j | 0 <= j < |rest| :: rest[j] == root[j + 1] && Map(rest, NameOf)[j] == Map(root, NameOf)[j + 1];
        assert rest[i - 1] == e;
        ManifestIsFile(rest, e);
      }
    } else if i > 0 {
      assert Map(root, NameOf)[0] != Map(root, NameOf)[i];
    }
  }

  lemma RestoresSource(source: seq<Entry>, last: Entry)
    requires !HasEntry(source, BACKUP_MANIFEST_FILE) && last.name == BACKUP_MANIFEST_FILE
    ensures WithoutManifest(source + [last]) == source
  {
    assert (source + [last])[..|source|] == source;
    KeepsAll(source);
  }

  lemma {:induction false} KeepsAll(source: seq<Entry>)
    requires !HasEntry(source, BACKUP_MANIFEST_FILE)
    ensures Filter(source, NotManifest) == source
  {
    if source != [] {
      FrontLast(source);
      assert source[|source| - 1] in source;
      assert forall e | e in source[..|source| - 1] :: e in source;
      KeepsAll(source[..|source| - 1]);
    }
  }

  lemma NoSpecialAppend(source: seq<Entry>, last: Entry)
    requires last.node.File?
    ensures NoSpecial(source + [last]) <==> NoSpecial(source)
  {
    var all := source + [last];
    TakeAll(all);
    assert all[..|source|] == source;
    SpecialStep(all, |source|);
    NoSpecialOne(last);
  }

  /** A fresh backup holds, besides its manifest, the files that the manifest lists. */
  lemma FreshBackupDescribed(tools: Tools, source: seq<Entry>, m: Manifest)
    requires Dependable(tools) && ValidTree(source) && NoSpecial(source) && !HasEntry(source, BACKUP_MANIFEST_FILE)
    requires Inventory(tools, {}, "", Sorted(tools, source)) == Ok(m.files)
    ensures var root := WithManifest(tools, source, m);
            && Inventory(tools, {BACKUP_MANIFEST_FILE}, "", Sorted(tools, root)).Ok?
            && DescribesExactly(m.files, Inventory(tools, {BACKUP_MANIFEST_FILE}, "", Sorted(tools, root)).value)
  {
    hide ValidTree, NoSpecial, Sorted, Files, Inventory, ReadRootFile, Dependable, HasEntry;
    var root, last := WithManifest(tools, source, m), Entry(BACKUP_MANIFEST_FILE, File(tools.write(m)));
    WithManifestValid(tools, source, m);
    NoSpecialAppend(source, last);
    NoSpecialAnyOrder(tools, source);
    NoSpecialAnyOrder(tools, root);
    InventoryOk(tools, {BACKUP_MANIFEST_FILE}, Sorted(tools, root));
    InventoryPathsDistinct(tools, {}, source);
    RestoresSource(source, last);
    var actual := Inventory(tools, {BACKUP_MANIFEST_FILE}, "", Sorted(tools, root)).value;
    forall b
      ensures b in m.files <==> b in actual
    {
      InventoryMembers(tools, {}, source, b);
      InventoryMembers(tools, {BACKUP_MANIFEST_FILE}, root, b);
      forall f
        ensures f in Files(tools, "", Sorted(tools, source)) <==>
                  f in Files(tools, "", Sorted(tools, root)) && f.path != BACKUP_MANIFEST_FILE
      {
        RestoredFiles(tools, root, f);
      }
    }
  }

  /** Every path that a walk gives is one that a manifest may hold. */
  lemma WalkedFilesValid(tools: Tools, source: seq<Entry>, files: seq<BackupFile>)
    requires Dependable(tools) && ValidTree(source) && Inventory(tools, {}, "", Sorted(tools, source)) == Ok(files)
    ensures SizesFit(tools, source) <==> forall b | b in files :: IsValidFile(b)
  {
    hide ValidTree, NoSpecial, Sorted, Files, Inventory, IsSafeBackupPath;
    InventoryOk(tools, {}, Sorted(tools, source));
    forall b | b in files
      ensures exists f :: f in Files(tools, "", Sorted(tools, source)) && b == Describe(tools, f)
      ensures IsSafeBackupPath(b.path) && IsSha256(b.sha256)
    {
      InventoryMembers(tools, {}, source, b);
      var f :| f in Files(tools, "", Sorted(tools, source)) && b == Describe(tools, f);
      WalkedPathSafe(tools, source, f);
    }
    forall f | f in Files(tools, "", Sorted(tools, source))
      ensures Describe(tools, f) in files
    {
      InventoryMembers(tools, {}, source, Describe(tools, f));
    }
  }

  lemma WalkedPathSafe(tools: Tools, source: seq<Entry>, f: SourceFile)
    requires ValidTree(source) && f in Files(tools, "", Sorted(tools, source))
    ensures IsSafeBackupPath(f.path)
  {
    hide ValidTree, Files, EntryFiles, IsSafeBackupPath;
    TreeFiles(tools, source);
    var e :| e in source && f in EntryFiles(tools, "", e);
    ValidEntry(source, e);
    EntryFileShape(tools, "", e, f);
    var rest :| f.path == "" + rest && IsSafeBackupPath(rest);
    assert "" + rest == rest;
  }

  /** `createNodeBackup` on a stopped node: copy, walk, write the manifest beside the files, verify. */
  method CreateNodeBackup(tools: Tools, source: seq<Entry>, createdAt: string) returns (r: Result<seq<Entry>>)
    requires Dependable(tools) && ValidTree(source)
    ensures r.Ok? <==> NoSpecial(source) && !HasEntry(source, BACKUP_MANIFEST_FILE) && SizesFit(tools, source)
    ensures r.Ok? ==> Inventory(tools, {}, "", Sorted(tools, source)).Ok?
                      && var m := Manifest(createdAt, Inventory(tools, {}, "", Sorted(tools, source)).value);
                         r.value == WithManifest(tools, source, m) && Verified(tools, r.value) == Ok(m)
  {
    hide ValidTree, NoSpecial, Sorted, Inventory, HasEntry, SizesFit, DescribesExactly, IsValidFile, ReadRootFile;
    InventoryOk(tools, {}, Sorted(tools, source));
    NoSpecialAnyOrder(tools, source);
    var files := Visit(tools, {}, "", Sorted(tools, source));
    if files.Error? { return Error; }
    WalkedFilesValid(tools, source, files.value);
    if HasEntry(source, BACKUP_MANIFEST_FILE) { return Error; }
    var m := Manifest(createdAt, files.value);
    var backup := WithManifest(tools, source, m);
    WithManifestValid(tools, source, m);
    FreshBackupDescribed(tools, source, m);
    var verification := VerifyNodeBackup(tools, backup);
    r := if verification.Ok? then Ok(backup) else Error;
  }

  /** `restoreNodeBackup`: verify, then copy everything but the manifest. */
  method RestoreNodeBackup(tools: Tools, backup: seq<Entry>) returns (r: Result<seq<Entry>>)
    requires ValidTree(backup)
    ensures r == if Verified(tools, backup).Ok? then Ok(WithoutManifest(backup)) else Error
  {
    var verification := VerifyNodeBackup(tools, backup);
    r := if verification.Ok? then Ok(WithoutManifest(backup)) else Error;
  }

  /** Creating a backup and restoring it gives back the source tree itself, empty directories included. */
  method BackUpAndRestore(tools: Tools, source: seq<Entry>, createdAt: string) returns (r: Result<seq<Entry>>)
    requires Dependable(tools) && ValidTree(source)
    ensures r == if NoSpecial(source) && !HasEntry(source, BACKUP_MANIFEST_FILE) && SizesFit(tools, source) then Ok(source) else Error
  {
    hide ValidTree, NoSpecial, Sorted, Inventory, HasEntry, SizesFit, Verified, WithoutManifest, Dependable;
    r := CreateNodeBackup(tools, source, createdAt);
    if r.Error? { return; }
    ghost var m := Manifest(createdAt, Inventory(tools, {}, "", Sorted(tools, source)).value);
    WithManifestValid(tools, source, m);
    RestoresSource(source, Entry(BACKUP_MANIFEST_FILE, File(tools.write(m))));
    r := RestoreNodeBackup(tools, r.value);
  }

  /** The digest tells the files of two trees apart. */
  ghost predicate NoCollision(tools: Tools, a: seq<Entry>, b: seq<Entry>) {
    forall f, g | f in Files(tools, "", Sorted(tools, a)) && g in Files(tools, "", Sorted(tools, b)) ::
      tools.digest(f.contents) == tools.digest(g.contents) && |f.contents| == |g.contents| ==> f.contents == g.contents
  }

  /** Whatever has happened to a backup directory, when it verifies against the manifest of a source tree
      and the digest does not collide, restoring it gives exactly the files of that source. */
  lemma VerifiedBackupHoldsTheSource(tools: Tools, source: seq<Entry>, root: seq<Entry>, m: Manifest)
    requires ValidTree(source) && ValidTree(root) && Inventory(tools, {}, "", Sorted(tools, source)) == Ok(m.files)
    requires Verified(tools, root) == Ok(m) && NoCollision(tools, source, root)
    ensures Elems(Files(tools, "", Sorted(tools, WithoutManifest(root)))) == Elems(Files(tools, "", Sorted(tools, source)))
  {
    hide ValidTree, NoSpecial, Sorted, Files, Inventory, ReadRootFile, WithoutManifest;
    var actual := Inventory(tools, {BACKUP_MANIFEST_FILE}, "", Sorted(tools, root)).value;
    InventoryOk(tools, {}, Sorted(tools, source));
    InventoryOk(tools, {BACKUP_MANIFEST_FILE}, Sorted(tools, root));
    forall f
      ensures f in Files(tools, "", Sorted(tools, WithoutManifest(root))) <==> f in Files(tools, "", Sorted(tools, source))
    {
      var b := Describe(tools, f);
      RestoredFiles(tools, root, f);
      InventoryMembers(tools, {}, source, b);
      InventoryMembers(tools, {BACKUP_MANIFEST_FILE}, root, b);
      assert b in m.files <==> b in Elems(m.files);
      assert b in actual <==> b in Elems(actual);
    }
  }
}
