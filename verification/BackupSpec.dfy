/** Backups in the plain terms of a tree: what lies at which path, what a manifest lists and in what order, and which
    directories verify. */
module BackupSpec {
  import opened Core
  import opened Sorting
  import opened Backup

  /** Following these names from a directory leads to this node. */
  ghost predicate LiesAt(entries: seq<Entry>, names: seq<string>, node: Node)
    decreases |names|
  {
    names != [] && exists e :: e in entries && Leads(e, names, node)
  }

  ghost predicate Leads(e: Entry, names: seq<string>, node: Node)
    requires names != []
    decreases |names|, 0
  {
    e.name == names[0] && if |names| == 1 then e.node == node else e.node.Directory? && LiesAt(e.node.entries, names[1..], node)
  }

  /** Names with slashes between them. */
  ghost function Join(names: seq<string>): string {
    if names == [] then "" else if |names| == 1 then names[0] else names[0] + "/" + Join(names[1..])
  }

  /** The file lies in the tree, and its path spells the names that lead to it. */
  ghost predicate FileOf(entries: seq<Entry>, prefix: string, f: SourceFile) {
    exists names :: LiesAt(entries, names, File(f.contents)) && f.path == prefix + Join(names)
  }

  ghost predicate FileUnder(e: Entry, prefix: string, f: SourceFile) {
    exists names :: names != [] && Leads(e, names, File(f.contents)) && f.path == prefix + Join(names)
  }

  lemma FileOfEntry(entries: seq<Entry>, prefix: string, f: SourceFile)
    ensures FileOf(entries, prefix, f) <==> exists e :: e in entries && FileUnder(e, prefix, f)
  {
    hide Leads;
    if FileOf(entries, prefix, f) {
      var names :| LiesAt(entries, names, File(f.contents)) && f.path == prefix + Join(names);
      var e :| e in entries && Leads(e, names, File(f.contents));
      assert FileUnder(e, prefix, f);
    }
    if e :| e in entries && FileUnder(e, prefix, f) {
      var names :| names != [] && Leads(e, names, File(f.contents)) && f.path == prefix + Join(names);
      assert LiesAt(entries, names, File(f.contents));
    }
  }

  lemma FileUnderIff(e: Entry, prefix: string, f: SourceFile)
    ensures FileUnder(e, prefix, f) <==>
              match e.node
              case File(contents) => f == SourceFile(prefix + e.name, contents)
              case Directory(entries) => FileOf(entries, prefix + e.name + "/", f)
              case Special => false
  {
    match e.node {
      case File(contents) =>
        if f == SourceFile(prefix + e.name, contents) { assert Leads(e, [e.name], File(f.contents)) && Join([e.name]) == e.name; }
      case Directory(entries) =>
        if FileUnder(e, prefix, f) {
          var names :| names != [] && Leads(e, names, File(f.contents)) && f.path == prefix + Join(names);
          assert prefix + Join(names) == prefix + e.name + "/" + Join(names[1..]);
        }
        if FileOf(entries, prefix + e.name + "/", f) {
          var names :| LiesAt(entries, names, File(f.contents)) && f.path == prefix + e.name + "/" + Join(names);
          var more := [e.name] + names;
          assert more[1..] == names && Leads(e, more, File(f.contents));
          assert prefix + Join(more) == prefix + e.name + "/" + Join(names);
        }
      case Special =>
    }
  }

  /** A walk finds exactly the files of the tree. */
  lemma {:induction false} EntryFilesIff(tools: Tools, prefix: string, e: Entry, f: SourceFile)
    ensures f in EntryFiles(tools, prefix, e) <==> FileUnder(e, prefix, f)
    decreases Depth(e.node)
  {
    hide FileOf, FileUnder, Files, Sorted;
    FileUnderIff(e, prefix, f);
    match e.node {
      case File(contents) =>
      case Directory(entries) =>
        var inner := prefix + e.name + "/";
        FilesMembers(tools, inner, Sorted(tools, entries));
        SortedMembers(tools, entries);
        forall d | d in entries ensures f in EntryFiles(tools, inner, d) <==> FileUnder(d, inner, f) {
          EntryFilesIff(tools, inner, d, f);
        }
        FileOfEntry(entries, inner, f);
      case Special =>
    }
  }

  lemma SortedMembers(tools: Tools, entries: seq<Entry>)
    ensures forall e :: e in Sorted(tools, entries) <==> e in entries
  {
  }

  /** A walk of a tree finds exactly its files, whatever names lead to them. */
  lemma WalkFindsFiles(tools: Tools, entries: seq<Entry>, f: SourceFile)
    ensures f in Files(tools, "", Sorted(tools, entries)) <==>
              exists names :: LiesAt(entries, names, File(f.contents)) && f.path == Join(names)
  {
    hide FileUnder, Files, EntryFiles, LiesAt, Join;
    TreeFiles(tools, entries);
    forall e ensures f in EntryFiles(tools, "", e) <==> FileUnder(e, "", f) { EntryFilesIff(tools, "", e, f); }
    FileOfEntry(entries, "", f);
    if FileOf(entries, "", f) {
      var names :| LiesAt(entries, names, File(f.contents)) && f.path == "" + Join(names);
      assert f.path == Join(names);
    }
    if names :| LiesAt(entries, names, File(f.contents)) && f.path == Join(names) { assert f.path == "" + Join(names); }
  }

  lemma WalkFinds(tools: Tools, entries: seq<Entry>, names: seq<string>, c: Contents)
    requires LiesAt(entries, names, File(c))
    ensures SourceFile(Join(names), c) in Files(tools, "", Sorted(tools, entries))
  {
    hide Files, Sorted;
    WalkFindsFiles(tools, entries, SourceFile(Join(names), c));
  }

  lemma NamesOf(tools: Tools, entries: seq<Entry>, f: SourceFile) returns (names: seq<string>)
    requires f in Files(tools, "", Sorted(tools, entries))
    ensures LiesAt(entries, names, File(f.contents)) && f.path == Join(names)
  {
    hide Files, Sorted;
    WalkFindsFiles(tools, entries, f);
    names :| LiesAt(entries, names, File(f.contents)) && f.path == Join(names);
  }

  // ---- links and devices ----------------------------------------------------------------------------

  ghost predicate Reaches(entries: seq<Entry>, node: Node) { exists names :: LiesAt(entries, names, node) }

  ghost predicate ReachesUnder(e: Entry, node: Node) { exists names :: names != [] && Leads(e, names, node) }

  lemma ReachesIff(entries: seq<Entry>, node: Node)
    ensures Reaches(entries, node) <==> exists e :: e in entries && ReachesUnder(e, node)
  {
    hide Leads;
    if Reaches(entries, node) {
      var names :| LiesAt(entries, names, node);
      var e :| e in entries && Leads(e, names, node);
      assert ReachesUnder(e, node);
    }
    if e :| e in entries && ReachesUnder(e, node) {
      var names :| names != [] && Leads(e, names, node);
      assert LiesAt(entries, names, node);
    }
  }

  lemma SpecialUnder(e: Entry)
    ensures ReachesUnder(e, Special) <==> e.node.Special? || (e.node.Directory? && Reaches(e.node.entries, Special))
  {
    if e.node.Special? { assert Leads(e, [e.name], Special); }
    if e.node.Directory? && Reaches(e.node.entries, Special) {
      var names :| LiesAt(e.node.entries, names, Special);
      var more := [e.name] + names;
      assert more[1..] == names && Leads(e, more, Special);
    }
    if ReachesUnder(e, Special) {
      var names :| names != [] && Leads(e, names, Special);
      assert |names| > 1 ==> LiesAt(e.node.entries, names[1..], Special);
    }
  }

  lemma {:induction false} NoSpecialReached(entries: seq<Entry>)
    ensures NoSpecial(entries) <==> !Reaches(entries, Special)
    decreases entries
  {
    hide Reaches, ReachesUnder;
    forall i | 0 <= i < |entries|
      ensures ReachesUnder(entries[i], Special) <==>
                entries[i].node.Special? || (entries[i].node.Directory? && !NoSpecial(entries[i].node.entries))
    {
      SpecialUnder(entries[i]);
      if entries[i].node.Directory? { NoSpecialReached(entries[i].node.entries); }
    }
    ReachesIff(entries, Special);
  }

  /** Creating and verifying refuse exactly the trees in which some path leads to a link or a device. */
  lemma NoSpecialIff(entries: seq<Entry>)
    ensures NoSpecial(entries) <==> forall names :: !LiesAt(entries, names, Special)
  {
    hide NoSpecial;
    NoSpecialReached(entries);
    if names :| LiesAt(entries, names, Special) { assert Reaches(entries, Special); }
    if Reaches(entries, Special) {
      var names :| LiesAt(entries, names, Special);
      assert LiesAt(entries, names, Special);
    }
  }

  // ---- the order of a manifest ------------------------------------------------------------------------

  /** Where the names first differ, the first of them comes before the second. */
  ghost predicate WalkedBefore(tools: Tools, p: seq<string>, q: seq<string>) {
    exists k :: 0 <= k < |p| && k < |q| && p[..k] == q[..k] && tools.before(p[k], q[k])
  }

  ghost predicate InWalkOrder(tools: Tools, entries: seq<Entry>, prefix: string, f: SourceFile, g: SourceFile) {
    exists p, q :: LiesAt(entries, p, File(f.contents)) && LiesAt(entries, q, File(g.contents))
                   && f.path == prefix + Join(p) && g.path == prefix + Join(q) && WalkedBefore(tools, p, q)
  }

  ghost predicate Walked(tools: Tools, entries: seq<Entry>, prefix: string, files: seq<SourceFile>) {
    forall i, j | 0 <= i < j < |files| :: InWalkOrder(tools, entries, prefix, files[i], files[j])
  }

  lemma OneNameFurther(e: Entry, prefix: string, names: seq<string>, node: Node)
    requires e.node.Directory? && LiesAt(e.node.entries, names, node)
    ensures LiesAt([e], [e.name] + names, node)
    ensures prefix + Join([e.name] + names) == prefix + e.name + "/" + Join(names)
  {
    var more := [e.name] + names;
    assert more[1..] == names;
    assert e in [e] && Leads(e, more, node);
  }

  lemma WalkedBeforeUnder(tools: Tools, name: string, p: seq<string>, q: seq<string>)
    requires WalkedBefore(tools, p, q)
    ensures WalkedBefore(tools, [name] + p, [name] + q)
  {
    var k :| 0 <= k < |p| && k < |q| && p[..k] == q[..k] && tools.before(p[k], q[k]);
    var x, y := [name] + p, [name] + q;
    assert x[..k + 1] == [name] + p[..k] && y[..k + 1] == [name] + q[..k] && x[k + 1] == p[k] && y[k + 1] == q[k];
  }

  lemma OrderUnder(tools: Tools, e: Entry, prefix: string, f: SourceFile, g: SourceFile)
    requires e.node.Directory? && InWalkOrder(tools, e.node.entries, prefix + e.name + "/", f, g)
    ensures InWalkOrder(tools, [e], prefix, f, g)
  {
    hide Join, WalkedBefore, Leads;
    var inner := prefix + e.name + "/";
    var p, q :| LiesAt(e.node.entries, p, File(f.contents)) && LiesAt(e.node.entries, q, File(g.contents))
                && f.path == inner + Join(p) && g.path == inner + Join(q) && WalkedBefore(tools, p, q);
    OneNameFurther(e, prefix, p, File(f.contents));
    OneNameFurther(e, prefix, q, File(g.contents));
    WalkedBeforeUnder(tools, e.name, p, q);
  }

  lemma WiderOrder(tools: Tools, few: seq<Entry>, many: seq<Entry>, prefix: string, f: SourceFile, g: SourceFile)
    requires InWalkOrder(tools, few, prefix, f, g) && forall e | e in few :: e in many
    ensures InWalkOrder(tools, many, prefix, f, g)
  {
    hide Join, WalkedBefore, Leads;
    var p, q :| LiesAt(few, p, File(f.contents)) && LiesAt(few, q, File(g.contents))
                && f.path == prefix + Join(p) && g.path == prefix + Join(q) && WalkedBefore(tools, p, q);
    assert LiesAt(many, p, File(f.contents)) && LiesAt(many, q, File(g.contents));
  }

  /** Files of different entries are walked in the order of the entries' names. */
  lemma OrderAcross(tools: Tools, entries: seq<Entry>, prefix: string, d: Entry, e: Entry, f: SourceFile, g: SourceFile)
    requires d in entries && e in entries && tools.before(d.name, e.name) && FileUnder(d, prefix, f) && FileUnder(e, prefix, g)
    ensures InWalkOrder(tools, entries, prefix, f, g)
  {
    hide Join;
    var p :| p != [] && Leads(d, p, File(f.contents)) && f.path == prefix + Join(p);
    var q :| q != [] && Leads(e, q, File(g.contents)) && g.path == prefix + Join(q);
    assert p[..0] == q[..0] && p[0] == d.name && q[0] == e.name;
    assert WalkedBefore(tools, p, q) && LiesAt(entries, p, File(f.contents)) && LiesAt(entries, q, File(g.contents));
  }

  /** A walk of entries in the order of their names gives their files in the order of their paths, name by name. */
  lemma {:induction false} FilesInOrder(tools: Tools, prefix: string, entries: seq<Entry>)
    requires ValidTree(entries) && StrictTotalOrder(tools.before)
    requires forall i, j | 0 <= i < j < |entries| :: tools.before(entries[i].name, entries[j].name)
    ensures Walked(tools, entries, prefix, Files(tools, prefix, entries))
    decreases MaxDepth(entries), |entries|, 1
  {
    hide EntryFiles, IsName, Sorted, StrictTotalOrder, InWalkOrder, FileUnder, ValidTree;
    if entries != [] {
      var front, last := entries[..|entries| - 1], entries[|entries| - 1];
      FrontLast(entries);
      ValidFront(entries);
      ValidEntry(entries, last);
      MaxDepthBound(front, MaxDepth(entries));
      FilesInOrder(tools, prefix, front);
      EntryInOrder(tools, prefix, last);
      FrontBeforeLast(tools, prefix, entries);
      WalkedTogether(tools, entries, front, last, prefix, Files(tools, prefix, front), EntryFiles(tools, prefix, last));
    }
  }

  lemma FrontBeforeLast(tools: Tools, prefix: string, entries: seq<Entry>)
    requires entries != [] && forall i, j | 0 <= i < j < |entries| :: tools.before(entries[i].name, entries[j].name)
    ensures forall f, g | f in Files(tools, prefix, entries[..|entries| - 1]) && g in EntryFiles(tools, prefix, entries[|entries| - 1]) ::
              InWalkOrder(tools, entries, prefix, f, g)
  {
    hide EntryFiles, Files, InWalkOrder, FileUnder;
    var front, last := entries[..|entries| - 1], entries[|entries| - 1];
    FilesMembers(tools, prefix, front);
    forall f, g | f in Files(tools, prefix, front) && g in EntryFiles(tools, prefix, last)
      ensures InWalkOrder(tools, entries, prefix, f, g)
    {
      var e :| e in front && f in EntryFiles(tools, prefix, e);
      var i :| 0 <= i < |front| && front[i] == e;
      assert tools.before(entries[i].name, last.name);
      EntryFilesIff(tools, prefix, e, f);
      EntryFilesIff(tools, prefix, last, g);
      OrderAcross(tools, entries, prefix, e, last, f, g);
    }
  }

  lemma WalkedTogether(tools: Tools, entries: seq<Entry>, front: seq<Entry>, last: Entry, prefix: string,
                       some: seq<SourceFile>, more: seq<SourceFile>)
    requires entries == front + [last] && Walked(tools, front, prefix, some) && Walked(tools, [last], prefix, more)
    requires forall f, g | f in some && g in more :: InWalkOrder(tools, entries, prefix, f, g)
    ensures Walked(tools, entries, prefix, some + more)
  {
    hide InWalkOrder;
    var all := some + more;
    forall i, j | 0 <= i < j < |all|
      ensures InWalkOrder(tools, entries, prefix, all[i], all[j])
    {
      if j < |some| {
        WiderOrder(tools, front, entries, prefix, all[i], all[j]);
      } else if i >= |some| {
        assert InWalkOrder(tools, [last], prefix, more[i - |some|], more[j - |some|]);
        WiderOrder(tools, [last], entries, prefix, all[i], all[j]);
      } else {
        assert all[i] in some && all[j] in more;
      }
    }
  }

  lemma EntryInOrder(tools: Tools, prefix: string, e: Entry)
    requires ValidTree([e]) && StrictTotalOrder(tools.before)
    ensures Walked(tools, [e], prefix, EntryFiles(tools, prefix, e))
    decreases Depth(e.node), 0, 0
  {
    hide StrictTotalOrder, InWalkOrder, ValidTree, Sorted;
    if e.node.Directory? {
      var sorted, inner := Sorted(tools, e.node.entries), prefix + e.name + "/";
      ValidOne(e);
      ValidSorted(tools, e.node.entries);
      SortedAscend(tools, e.node.entries);
      FilesInOrder(tools, inner, sorted);
      var files := Files(tools, inner, sorted);
      forall i, j | 0 <= i < j < |files|
        ensures InWalkOrder(tools, [e], prefix, files[i], files[j])
      {
        WiderOrder(tools, sorted, e.node.entries, inner, files[i], files[j]);
        OrderUnder(tools, e, prefix, files[i], files[j]);
      }
    }
  }

  lemma SortedAscend(tools: Tools, entries: seq<Entry>)
    requires ValidTree(entries) && StrictTotalOrder(tools.before)
    ensures var r := Sorted(tools, entries); forall i, j | 0 <= i < j < |r| :: tools.before(r[i].name, r[j].name)
  {
    hide StrictTotalOrder, Sort, IsName;
    DistinctEntries(entries);
    forall a, b | a in entries && b in entries && a != b ensures a.name != b.name { }
    NamesTotal(tools, entries);
    SortAscends(ByName(tools), entries);
    SortElements(ByName(tools), entries);
  }

  lemma NamesTotal(tools: Tools, entries: seq<Entry>)
    requires StrictTotalOrder(tools.before) && forall a, b | a in entries && b in entries && a != b :: a.name != b.name
    ensures TotalOn(ByName(tools), entries)
  {
  }

  /** The files of a walk, and so the lines of a manifest, follow the names that lead to them. */
  lemma WalkFollowsNames(tools: Tools, entries: seq<Entry>)
    requires ValidTree(entries) && StrictTotalOrder(tools.before)
    ensures Walked(tools, entries, "", Files(tools, "", Sorted(tools, entries)))
  {
    hide ValidTree, StrictTotalOrder, Sorted, Files, InWalkOrder;
    var sorted := Sorted(tools, entries);
    ValidSorted(tools, entries);
    SortedAscend(tools, entries);
    FilesInOrder(tools, "", sorted);
    var files := Files(tools, "", sorted);
    forall i, j | 0 <= i < j < |files|
      ensures InWalkOrder(tools, entries, "", files[i], files[j])
    {
      WiderOrder(tools, sorted, entries, "", files[i], files[j]);
    }
  }

  // ---- which directories verify -------------------------------------------------------------------------

  ghost predicate DigestText(text: string) {
    |text| == 64 && forall i | 0 <= i < 64 :: '0' <= text[i] <= '9' || 'a' <= text[i] <= 'f'
  }

  /** The manifest is what a directory's manifest file holds. */
  ghost predicate HoldsManifest(tools: Tools, root: seq<Entry>, m: Manifest) {
    exists e, c :: e in root && e.name == "peer-hours-node-backup.json" && e.node == File(c) && tools.read(c) == Some(m)
  }

  /** The line gives the path, the size and the digest of a file of the tree. */
  ghost predicate DescribesFile(tools: Tools, root: seq<Entry>, b: BackupFile) {
    exists names, c :: LiesAt(root, names, File(c)) && b == BackupFile(Join(names), |c|, tools.digest(c))
  }

  /** The manifest lists exactly the files of the directory, but for the manifest itself, with their sizes and digests. */
  ghost predicate ListsFiles(tools: Tools, root: seq<Entry>, m: Manifest) {
    forall b :: b in m.files <==>
      b.path != "peer-hours-node-backup.json"
      && DescribesFile(tools, root, b)
  }

  /** A directory verifies exactly when it holds a manifest whose entries are well formed, no path leads to a link or a
      device, no path is listed twice, and the listed files are those that the directory holds. */
  lemma VerifiesIff(tools: Tools, root: seq<Entry>, m: Manifest)
    requires ValidTree(root)
    ensures Verified(tools, root) == Ok(m) <==>
              && HoldsManifest(tools, root, m)
              && (forall b | b in m.files :: b.bytes <= 9007199254740991 && DigestText(b.sha256))
              && (forall names :: !LiesAt(root, names, Special))
              && (forall i, j | 0 <= i < j < |m.files| :: m.files[i].path != m.files[j].path)
              && ListsFiles(tools, root, m)
  {
    hide LiesAt, Inventory, ValidTree, NoSpecial, Sorted, Files, IsSafeBackupPath, ListsFiles, HoldsManifest, DescribesExactly,
         ReadManifest;
    NoSpecialIff(root);
    NoSpecialAnyOrder(tools, root);
    InventoryOk(tools, {BACKUP_MANIFEST_FILE}, Sorted(tools, root));
    ManifestIff(tools, root, m);
    if NoSpecial(root) {
      DescribesIff(tools, root, m);
      if ListsFiles(tools, root, m) { ListedPathsSafe(tools, root, m); }
    }
    assert ReadManifest(tools, root).Ok? ==> (ReadManifest(tools, root) == Ok(m) <==> ReadManifest(tools, root).value == m);
  }

  lemma ManifestIff(tools: Tools, root: seq<Entry>, m: Manifest)
    requires ValidTree(root)
    ensures ReadManifest(tools, root) == Ok(m) <==>
              HoldsManifest(tools, root, m)
              && forall b | b in m.files :: IsSafeBackupPath(b.path) && b.bytes <= 9007199254740991 && DigestText(b.sha256)
  {
    hide IsSafeBackupPath, ValidTree;
    RootFileIff(root, "peer-hours-node-backup.json");
  }

  lemma RestOfTree(root: seq<Entry>)
    requires ValidTree(root) && root != []
    ensures ValidTree(root[1..]) && forall e | e in root[1..] :: e.name != root[0].name
  {
    hide IsName;
    var rest := root[1..];
    assert forall j | 0 <= j < |rest| :: rest[j] == root[j + 1] && Map(rest, NameOf)[j] == Map(root, NameOf)[j + 1];
    forall e | e in rest
      ensures e.name != root[0].name
    {
      var j :| 0 <= j < |rest| && rest[j] == e;
      assert Map(root, NameOf)[0] != Map(root, NameOf)[j + 1];
    }
  }

  lemma {:induction false} RootFileIff(root: seq<Entry>, name: string)
    requires ValidTree(root)
    ensures forall c :: ReadRootFile(root, name) == Some(c) <==> exists e :: e in root && e.name == name && e.node == File(c)
    decreases |root|
  {
    hide ValidTree;
    if root != [] {
      var rest := root[1..];
      assert root == [root[0]] + rest;
      RestOfTree(root);
      RootFileIff(rest, name);
    }
  }

  lemma ListedPathsSafe(tools: Tools, root: seq<Entry>, m: Manifest)
    requires ValidTree(root) && ListsFiles(tools, root, m)
    ensures forall b | b in m.files :: IsSafeBackupPath(b.path)
  {
    hide ValidTree, Sorted, Files, IsSafeBackupPath, Join;
    forall b | b in m.files
      ensures IsSafeBackupPath(b.path)
    {
      var names, c :| LiesAt(root, names, File(c)) && b == BackupFile(Join(names), |c|, tools.digest(c));
      var f := SourceFile(Join(names), c);
      WalkFinds(tools, root, names, c);
      WalkedPathSafe(tools, root, f);
    }
  }

  lemma InventoryIff(tools: Tools, root: seq<Entry>, b: BackupFile)
    requires NoSpecial(Sorted(tools, root))
    ensures b in Inventory(tools, {BACKUP_MANIFEST_FILE}, "", Sorted(tools, root)).value <==>
              b.path != "peer-hours-node-backup.json"
              && DescribesFile(tools, root, b)
  {
    hide Inventory, NoSpecial, Sorted, Files, Join;
    InventoryMembers(tools, {BACKUP_MANIFEST_FILE}, root, b);
    if f :| f in Files(tools, "", Sorted(tools, root)) && f.path !in {BACKUP_MANIFEST_FILE} && b == Describe(tools, f) {
      var names := NamesOf(tools, root, f);
    }
    if names, c :| b.path != BACKUP_MANIFEST_FILE && LiesAt(root, names, File(c)) && b == BackupFile(Join(names), |c|, tools.digest(c)) {
      WalkFinds(tools, root, names, c);
      assert b == Describe(tools, SourceFile(Join(names), c));
    }
  }

  lemma DescribesIff(tools: Tools, root: seq<Entry>, m: Manifest)
    requires ValidTree(root) && NoSpecial(Sorted(tools, root)) && Inventory(tools, {BACKUP_MANIFEST_FILE}, "", Sorted(tools, root)).Ok?
    ensures DescribesExactly(m.files, Inventory(tools, {BACKUP_MANIFEST_FILE}, "", Sorted(tools, root)).value) <==>
              (forall i, j | 0 <= i < j < |m.files| :: m.files[i].path != m.files[j].path) && ListsFiles(tools, root, m)
  {
    hide LiesAt, Inventory, ValidTree, NoSpecial, Sorted, Files, Join;
    var actual := Inventory(tools, {BACKUP_MANIFEST_FILE}, "", Sorted(tools, root)).value;
    forall b
      ensures b in actual <==>
                b.path != "peer-hours-node-backup.json"
                && DescribesFile(tools, root, b)
    {
      InventoryIff(tools, root, b);
    }
    assert Elems(m.files) == Elems(actual) <==> forall b :: b in m.files <==> b in actual by { SameElems(m.files, actual); }
    assert NoDuplicates(Map(m.files, FilePath)) <==> forall i, j | 0 <= i < j < |m.files| :: m.files[i].path != m.files[j].path;
  }

  lemma SameElems<T>(a: seq<T>, b: seq<T>)
    ensures Elems(a) == Elems(b) <==> forall x :: x in a <==> x in b
  {
    assert forall x :: x in Elems(a) <==> x in a;
    assert forall x :: x in Elems(b) <==> x in b;
  }

  // ---- what is created -------------------------------------------------------------------------------------

  /** A backup can be created exactly of a tree without links and devices, without an entry that has the manifest's name,
      and with files of sizes that a manifest can state. */
  lemma CreatableIff(tools: Tools, source: seq<Entry>)
    ensures NoSpecial(source) && !HasEntry(source, BACKUP_MANIFEST_FILE) && SizesFit(tools, source) <==>
              && (forall names :: !LiesAt(source, names, Special))
              && (forall e | e in source :: e.name != "peer-hours-node-backup.json")
              && SmallFiles(source)
  {
    hide Files, Sorted, NoSpecial, Join;
    NoSpecialIff(source);
    SizesIff(tools, source);
  }

  /** Every file has at most two to the fifty-third bytes, less one. */
  ghost predicate SmallFiles(source: seq<Entry>) {
    forall names, c | LiesAt(source, names, File(c)) :: |c| <= 9007199254740991
  }

  lemma SizesIff(tools: Tools, source: seq<Entry>)
    ensures SizesFit(tools, source) <==> SmallFiles(source)
  {
    hide Files, Sorted, Join;
    if SizesFit(tools, source) {
      forall names, c | LiesAt(source, names, File(c)) ensures |c| <= 9007199254740991 { WalkFinds(tools, source, names, c); }
    }
    if SmallFiles(source) {
      forall f | f in Files(tools, "", Sorted(tools, source)) ensures |f.contents| <= 9007199254740991 {
        var names := NamesOf(tools, source, f);
        assert LiesAt(source, names, File(f.contents));
      }
    }
  }

  /** One line of a manifest comes before another. */
  ghost predicate LinesInOrder(tools: Tools, source: seq<Entry>, a: BackupFile, b: BackupFile) {
    exists p, q, c, d :: LiesAt(source, p, File(c)) && LiesAt(source, q, File(d)) && WalkedBefore(tools, p, q)
                         && a == BackupFile(Join(p), |c|, tools.digest(c)) && b == BackupFile(Join(q), |d|, tools.digest(d))
  }

  /** The manifest of a new backup lists every file of the source with its size and digest, in the order of a walk. */
  lemma ManifestListsTree(tools: Tools, source: seq<Entry>)
    requires ValidTree(source) && NoSpecial(source) && StrictTotalOrder(tools.before)
    ensures Inventory(tools, {}, "", Sorted(tools, source)).Ok?
    ensures var files := Inventory(tools, {}, "", Sorted(tools, source)).value;
            && (forall b :: b in files <==>
                  DescribesFile(tools, source, b))
            && forall i, j | 0 <= i < j < |files| :: LinesInOrder(tools, source, files[i], files[j])
  {
    hide Files, Sorted, NoSpecial, ValidTree, StrictTotalOrder, Inventory, LinesInOrder, DescribesFile;
    NoSpecialAnyOrder(tools, source);
    InventoryOk(tools, {}, Sorted(tools, source));
    WalkFollowsNames(tools, source);
    WholeInventory(tools, source);
    var all := Files(tools, "", Sorted(tools, source));
    forall b
      ensures b in Map(all, Describing(tools)) <==>
                DescribesFile(tools, source, b)
    {
      DescribedIff(tools, source, b);
    }
    forall i, j | 0 <= i < j < |all|
      ensures LinesInOrder(tools, source, Describe(tools, all[i]), Describe(tools, all[j]))
    {
      DescribeInOrder(tools, source, all[i], all[j]);
    }
  }

  lemma DescribedIff(tools: Tools, source: seq<Entry>, b: BackupFile)
    ensures b in Map(Files(tools, "", Sorted(tools, source)), Describing(tools)) <==>
              DescribesFile(tools, source, b)
  {
    hide Files, Sorted, Join;
    var all := Files(tools, "", Sorted(tools, source));
    if b in Map(all, Describing(tools)) {
      MapMember(all, Describing(tools), b);
      var f :| f in all && Describing(tools)(f) == b;
      var names := NamesOf(tools, source, f);
    }
    if names, c :| LiesAt(source, names, File(c)) && b == BackupFile(Join(names), |c|, tools.digest(c)) {
      WalkFinds(tools, source, names, c);
      MemberMap(all, Describing(tools), SourceFile(Join(names), c));
    }
  }

  lemma DescribeInOrder(tools: Tools, source: seq<Entry>, f: SourceFile, g: SourceFile)
    requires InWalkOrder(tools, source, "", f, g)
    ensures LinesInOrder(tools, source, Describe(tools, f), Describe(tools, g))
  {
    hide Join, WalkedBefore;
    var p, q :| LiesAt(source, p, File(f.contents)) && LiesAt(source, q, File(g.contents))
                && f.path == "" + Join(p) && g.path == "" + Join(q) && WalkedBefore(tools, p, q);
    assert f.path == Join(p) && g.path == Join(q);
  }

  lemma WholeInventory(tools: Tools, source: seq<Entry>)
    requires NoSpecial(Sorted(tools, source))
    ensures Inventory(tools, {}, "", Sorted(tools, source)) == Ok(Map(Files(tools, "", Sorted(tools, source)), Describing(tools)))
  {
    hide Files, Sorted, NoSpecial;
    KeptAll(Files(tools, "", Sorted(tools, source)));
  }

  lemma {:induction false} KeptAll(files: seq<SourceFile>)
    ensures Filter(files, Kept({})) == files
  {
    if files != [] {
      FrontLast(files);
      KeptAll(files[..|files| - 1]);
    }
  }
}
