/**
 The checked workspace as a tree of directories and parsed, unparsable or unreadable files, and
 the enumeration of its Rust sources.
 */
module SourceTree {
  import opened Wrappers
  import opened Order
  import opened Scanner
  import opened UseTrees

  datatype Field = Field(name: Option<string>, renamed: bool)

  /** Top-level items. Of a struct's attributes only their evaluation is kept, of other items the name. */
  datatype Item =
    | Fn(name: string, attrs: seq<Attribute>)
    | Use(line: nat, tree: UseTree)
    | Struct(name: string, line: nat, derives: set<string>, camelCase: bool, fields: seq<Field>)
    | Other(name: string)

  datatype Source = Unreadable | Unparsable(text: string) | Parsed(text: string, items: seq<Item>)

  datatype Node = File(source: Source) | Dir(listable: bool, entries: seq<Entry>)
  datatype Entry = Entry(name: string, node: Node)

  type Path = seq<string>

  /** The entry called `name`, by position. */
  function Find(entries: seq<Entry>, name: string): (r: Option<nat>)
    ensures r.Some? ==> r.value < |entries| && entries[r.value].name == name
    ensures r.None? ==> forall e | e in entries :: e.name != name
  {
    if entries == [] then None
    else if entries[0].name == name then Some(0)
    else match Find(entries[1..], name)
      case None => None
      case Some(k) => Some(k + 1)
  }

  function Child(node: Node, name: string): Option<Node> {
    if node.File? then None
    else match Find(node.entries, name)
      case None => None
      case Some(k) => Some(node.entries[k].node)
  }

  /** What opening a path below `node` reaches; `listedOnly` asks for a path on which every
      directory can be listed, which is how an enumeration gets there. */
  function At(node: Node, path: Path, listedOnly: bool): Option<Node>
    decreases |path|
  {
    if path == [] then Some(node)
    else if node.File? || (listedOnly && !node.listable) then None
    else match Child(node, path[0])
      case None => None
      case Some(child) => At(child, path[1..], listedOnly)
  }

  lemma {:induction false} AtBelow(node: Node, dir: Path, rest: Path)
    requires At(node, dir, false).Some?
    ensures At(node, dir + rest, false) == At(At(node, dir, false).value, rest, false)
    decreases |dir|
  {
    if dir == [] {
      assert dir + rest == rest;
    } else {
      assert (dir + rest)[1..] == dir[1..] + rest;
      AtBelow(Child(node, dir[0]).value, dir[1..], rest);
    }
  }

  /** No directory has two entries of the same name. */
  ghost predicate WellFormed(node: Node)
    decreases node
  {
    node.Dir? ==> WellFormedEntries(node.entries)
  }

  ghost predicate WellFormedEntries(entries: seq<Entry>)
    decreases entries
  {
    entries != [] ==>
      && WellFormed(entries[0].node) && WellFormedEntries(entries[1..])
      && forall e | e in entries[1..] :: e.name != entries[0].name
  }

  function Last(path: Path): string
    requires path != []
  {
    path[|path| - 1]
  }

  /** `Path::extension() == "rs"`: a dot file called `.rs` has no extension. */
  predicate HasRsExtension(name: string) {
    |name| > 3 && name[|name| - 3..] == ".rs"
  }

  /** A Rust source below `node`, at a path an enumeration reaches. */
  predicate IsRustFile(node: Node, path: Path) {
    && path != [] && HasRsExtension(Last(path))
    && At(node, path, true).Some? && At(node, path, true).value.File?
  }

  // ---------------------------------------------------------------- enumeration

  function RustPaths(prefix: Path, node: Node): seq<Path>
    decreases node
  {
    if node.Dir? && node.listable then RustPathsIn(prefix, node.entries) else []
  }

  function RustPathsIn(prefix: Path, entries: seq<Entry>): seq<Path>
    decreases entries
  {
    if entries == [] then [] else
      var path := prefix + [entries[0].name];
      (if entries[0].node.Dir? then RustPaths(path, entries[0].node)
       else if HasRsExtension(entries[0].name) then [path] else [])
      + RustPathsIn(prefix, entries[1..])
  }

  class Collector {
    var out: seq<Path>

    constructor ()
      ensures out == []
    {
      out := [];
    }

    /** `collect_rs_files` */
    method Collect(prefix: Path, node: Node)
      modifies this
      ensures out == old(out) + RustPaths(prefix, node)
      decreases node
    {
      if node.File? || !node.listable {
        return;
      }
      var entries := node.entries;
      assert entries[0..] == entries;
      for i := 0 to |entries|
        invariant out + RustPathsIn(prefix, entries[i..]) == old(out) + RustPathsIn(prefix, entries)
      {
        assert entries[i..][1..] == entries[i + 1..];
        var entry := entries[i];
        var path := prefix + [entry.name];
        if entry.node.Dir? {
          Collect(path, entry.node);
        } else if HasRsExtension(entry.name) {
          out := out + [path];
        }
      }
    }
  }

  /** The sorted Rust sources below `dir`; none if `dir` cannot be opened. */
  function SourcesUnder(root: Node, dir: Path): seq<Path> {
    match At(root, dir, false)
    case None => []
    case Some(node) => Sort(PathLess, RustPaths(dir, node))
  }

  /** `rs_files_under` */
  method RsFilesUnder(root: Node, dir: Path) returns (files: seq<Path>)
    ensures files == SourcesUnder(root, dir)
  {
    var collector := new Collector();
    var start := At(root, dir, false);
    if start.Some? {
      collector.Collect(dir, start.value);
      assert collector.out == RustPaths(dir, start.value);
    }
    files := Sort(PathLess, collector.out);
  }

  /** The path leads into the first entry of that name. */
  ghost predicate RustFileIn(entries: seq<Entry>, path: Path) {
    && path != [] && Find(entries, path[0]).Some?
    && var node := entries[Find(entries, path[0]).value].node;
       if |path| == 1 then HasRsExtension(path[0]) && node.File? else node.Dir? && IsRustFile(node, path[1..])
  }

  lemma RustFileUnfold(node: Node, path: Path)
    requires node.Dir? && node.listable
    ensures IsRustFile(node, path) <==> RustFileIn(node.entries, path)
  {
    if path == [] {
    } else if Find(node.entries, path[0]).None? {
      assert At(node, path, true).None?;
    } else {
      var child, rest := node.entries[Find(node.entries, path[0]).value].node, path[1..];
      assert At(node, path, true) == At(child, rest, true);
      if rest == [] {
        assert |path| == 1 && Last(path) == path[0];
        assert At(child, rest, true) == Some(child);
      } else {
        assert Last(rest) == Last(path);
        assert child.File? ==> At(child, rest, true).None?;
      }
    }
  }

  /** The enumeration finds every Rust source on a listable path and nothing else. */
  lemma {:induction false} RustPathsExact(prefix: Path, node: Node, p: Path)
    requires WellFormed(node)
    ensures p in RustPaths(prefix, node) <==> exists rel :: p == prefix + rel && IsRustFile(node, rel) && node.Dir?
    decreases node
  {
    if node.Dir? && node.listable {
      RustPathsInExact(prefix, node.entries, p);
      if p in RustPathsIn(prefix, node.entries) {
        var rel :| p == prefix + rel && RustFileIn(node.entries, rel);
        RustFileUnfold(node, rel);
      }
      if rel :| p == prefix + rel && IsRustFile(node, rel) {
        RustFileUnfold(node, rel);
      }
    }
  }

  lemma {:induction false} RustPathsInExact(prefix: Path, entries: seq<Entry>, p: Path)
    requires WellFormedEntries(entries)
    ensures p in RustPathsIn(prefix, entries) <==> exists rel :: p == prefix + rel && RustFileIn(entries, rel)
    decreases entries
  {
    if entries != [] {
      var e, rest := entries[0], entries[1..];
      RustPathsInExact(prefix, rest, p);
      if e.node.Dir? {
        RustPathsExact(prefix + [e.name], e.node, p);
      }
      RustFileInCons(prefix, entries, p);
    }
  }

  /** A Rust file among entries is the first entry, lies below it, or is among the rest. */
  ghost predicate RustFileSplit(prefix: Path, entries: seq<Entry>, p: Path)
    requires entries != []
  {
    var e := entries[0];
    || (e.node.File? && HasRsExtension(e.name) && p == prefix + [e.name])
    || (e.node.Dir? && exists rel :: p == prefix + [e.name] + rel && IsRustFile(e.node, rel))
    || (exists rel :: p == prefix + rel && RustFileIn(entries[1..], rel))
  }

  lemma RustFileInCons(prefix: Path, entries: seq<Entry>, p: Path)
    requires entries != [] && WellFormedEntries(entries)
    ensures (exists rel :: p == prefix + rel && RustFileIn(entries, rel)) <==> RustFileSplit(prefix, entries, p)
  {
    if rel :| p == prefix + rel && RustFileIn(entries, rel) {
      RustFileInSplits(prefix, entries, rel);
    }
    if RustFileSplit(prefix, entries, p) {
      var rel := SplitIsRustFileIn(prefix, entries, p);
    }
  }

  lemma RustFileInSplits(prefix: Path, entries: seq<Entry>, rel: Path)
    requires entries != [] && RustFileIn(entries, rel)
    ensures RustFileSplit(prefix, entries, prefix + rel)
  {
    var e, rest := entries[0], entries[1..];
    if rel[0] != e.name {
      assert RustFileIn(rest, rel);
    } else if |rel| == 1 {
      assert rel == [e.name];
    } else {
      assert prefix + rel == prefix + [e.name] + rel[1..];
    }
  }

  lemma SplitIsRustFileIn(prefix: Path, entries: seq<Entry>, p: Path) returns (rel: Path)
    requires entries != [] && WellFormedEntries(entries) && RustFileSplit(prefix, entries, p)
    ensures p == prefix + rel && RustFileIn(entries, rel)
  {
    hide HasRsExtension, At;
    var e, rest := entries[0], entries[1..];
    if e.node.File? && HasRsExtension(e.name) && p == prefix + [e.name] {
      rel := [e.name];
    } else if below :| e.node.Dir? && p == prefix + [e.name] + below && IsRustFile(e.node, below) {
      rel := [e.name] + below;
      assert rel[1..] == below;
    } else {
      rel :| p == prefix + rel && RustFileIn(rest, rel);
      assert rest[Find(rest, rel[0]).value] in rest;
    }
  }

  // ---------------------------------------------------------------- order and repetition

  lemma {:induction false} RustPathsExtendPrefix(prefix: Path, node: Node)
    ensures forall p | p in RustPaths(prefix, node) :: |p| > |prefix| && p[..|prefix|] == prefix
    decreases node
  {
    if node.Dir? {
      RustPathsInExtendPrefix(prefix, node.entries);
    }
  }

  lemma {:induction false} RustPathsInExtendPrefix(prefix: Path, entries: seq<Entry>)
    ensures forall p | p in RustPathsIn(prefix, entries) ::
              |p| > |prefix| && p[..|prefix|] == prefix && exists e :: e in entries && e.name == p[|prefix|]
    decreases entries
  {
    if entries != [] {
      var name := entries[0].name;
      RustPathsExtendPrefix(prefix + [name], entries[0].node);
      RustPathsInExtendPrefix(prefix, entries[1..]);
      forall p | p in RustPathsIn(prefix, entries)
        ensures |p| > |prefix| && p[..|prefix|] == prefix && exists e :: e in entries && e.name == p[|prefix|]
      {
        if p in RustPathsIn(prefix, entries[1..]) {
          var e :| e in entries[1..] && e.name == p[|prefix|];
          assert e in entries;
        } else {
          assert p[..|prefix| + 1] == prefix + [name];
          assert p[..|prefix|] == p[..|prefix| + 1][..|prefix|];
          assert p[|prefix|] == p[..|prefix| + 1][|prefix|] == name;
          assert entries[0] in entries;
        }
      }
    }
  }

  ghost predicate Distinct<T>(s: seq<T>) {
    forall i, j | 0 <= i < j < |s| :: s[i] != s[j]
  }

  /** No file is enumerated twice, so sorting each path once sorts them all. */
  lemma {:induction false} RustPathsDistinct(prefix: Path, node: Node)
    requires WellFormed(node)
    ensures Distinct(RustPaths(prefix, node))
    decreases node
  {
    if node.Dir? {
      RustPathsInDistinct(prefix, node.entries);
    }
  }

  lemma {:induction false} RustPathsInDistinct(prefix: Path, entries: seq<Entry>)
    requires WellFormedEntries(entries)
    ensures Distinct(RustPathsIn(prefix, entries))
    decreases entries
  {
    if entries != [] {
      var path, e := prefix + [entries[0].name], entries[0];
      RustPathsDistinct(path, e.node);
      RustPathsExtendPrefix(path, e.node);
      RustPathsInDistinct(prefix, entries[1..]);
      RustPathsInExtendPrefix(prefix, entries[1..]);
      var first := if e.node.Dir? then RustPaths(path, e.node) else if HasRsExtension(e.name) then [path] else [];
      BranchesApart(prefix, e.name, first, RustPathsIn(prefix, entries[1..]));
    }
  }

  lemma BranchesApart(prefix: Path, name: string, first: seq<Path>, rest: seq<Path>)
    requires Distinct(first) && Distinct(rest)
    requires forall p | p in first :: |p| > |prefix| && p[..|prefix| + 1] == prefix + [name]
    requires forall p | p in rest :: |p| > |prefix| && p[|prefix|] != name
    ensures Distinct(first + rest)
  {
    forall i, j | 0 <= i < |first| && 0 <= j < |rest| ensures first[i] != rest[j] {
      assert first[i] in first && rest[j] in rest;
      assert first[i][|prefix|] == first[i][..|prefix| + 1][|prefix|] == name;
    }
  }

  /** `p` is a Rust source of the workspace below `dir`. */
  predicate IsSource(root: Node, dir: Path, p: Path) {
    && dir <= p && At(root, dir, false).Some?
    && At(root, dir, false).value.Dir? && IsRustFile(At(root, dir, false).value, p[|dir|..])
  }

  /** The passes see exactly the sources, in ascending order, each once. */
  lemma SourcesExact(root: Node, dir: Path)
    requires At(root, dir, false).Some? ==> WellFormed(At(root, dir, false).value)
    ensures forall p :: p in SourcesUnder(root, dir) <==> IsSource(root, dir, p)
    ensures Ascending(PathLess, SourcesUnder(root, dir))
  {
    PathsAreOrdered();
    if At(root, dir, false).Some? {
      var node := At(root, dir, false).value;
      SortSorts(PathLess, RustPaths(dir, node));
      forall p ensures p in SourcesUnder(root, dir) <==> IsSource(root, dir, p) {
        RustPathsExact(dir, node, p);
        if rel :| p == dir + rel && IsRustFile(node, rel) {
          assert p[|dir|..] == rel;
        }
        if IsSource(root, dir, p) {
          assert p == dir + p[|dir|..];
        }
      }
    }
  }

  lemma {:induction false} WellFormedBelow(node: Node, path: Path)
    requires WellFormed(node) && At(node, path, false).Some?
    ensures WellFormed(At(node, path, false).value)
    decreases |path|
  {
    if path != [] {
      WellFormedEntry(node.entries, Find(node.entries, path[0]).value);
      WellFormedBelow(Child(node, path[0]).value, path[1..]);
    }
  }

  lemma {:induction false} WellFormedEntry(entries: seq<Entry>, k: nat)
    requires WellFormedEntries(entries) && k < |entries|
    ensures WellFormed(entries[k].node)
    ensures Find(entries, entries[k].name) == Some(k)
  {
    if k > 0 {
      WellFormedEntry(entries[1..], k - 1);
      assert entries[1..][k - 1] == entries[k] && entries[k] in entries[1..];
    }
  }

  /** The enumeration does not depend on the order in which directories are read: two trees with
      the same sources are enumerated alike. */
  lemma EnumerationIgnoresReadOrder(a: Node, b: Node, dir: Path)
    requires WellFormed(a) && WellFormed(b)
    requires forall p :: IsSource(a, dir, p) <==> IsSource(b, dir, p)
    ensures SourcesUnder(a, dir) == SourcesUnder(b, dir)
  {
    if At(a, dir, false).Some? {
      WellFormedBelow(a, dir);
    }
    if At(b, dir, false).Some? {
      WellFormedBelow(b, dir);
    }
    SourcesExact(a, dir);
    SourcesExact(b, dir);
    PathsAreOrdered();
    AscendingIsUnique(PathLess, SourcesUnder(a, dir), SourcesUnder(b, dir));
  }

  /** An unlistable directory hides what is below it: of the paths that can be opened, the
      enumeration reaches exactly those on which every directory can be listed. */
  lemma {:induction false} ReachedIffListable(node: Node, path: Path)
    requires At(node, path, false).Some?
    ensures At(node, path, true) == At(node, path, false) <==>
            forall k | 0 <= k < |path| :: ListableAt(node, path[..k])
    ensures At(node, path, true).None? || At(node, path, true) == At(node, path, false)
    decreases |path|
  {
    if path != [] {
      var child := Child(node, path[0]).value;
      ReachedIffListable(child, path[1..]);
      assert ListableAt(node, path[..0]) == node.listable;
      forall k | 0 < k < |path| ensures ListableAt(node, path[..k]) == ListableAt(child, path[1..][..k - 1]) {
        assert path[..k][1..] == path[1..][..k - 1] && path[..k][0] == path[0];
      }
      if forall k | 0 <= k < |path| :: ListableAt(node, path[..k]) {
        forall k | 0 <= k < |path| - 1 ensures ListableAt(child, path[1..][..k]) {
          assert ListableAt(node, path[..k + 1]);
        }
      }
    }
  }

  predicate ListableAt(node: Node, dir: Path) {
    match At(node, dir, false)
    case Some(Dir(listable, _)) => listable
    case _ => false
  }

  // ---------------------------------------------------------------- writing a file

  /** The directory with `child` under `name`, in place of what was there. */
  function WithChild(node: Node, name: string, child: Node): Node
    requires node.Dir?
  {
    match Find(node.entries, name)
    case None => node.(entries := node.entries + [Entry(name, child)])
    case Some(k) => node.(entries := node.entries[k := Entry(name, child)])
  }

  /** `fs::write`: every directory on the way must exist, and the path must not be one. */
  function Write(node: Node, path: Path, source: Source): Option<Node>
    decreases |path|
  {
    if node.File? || path == [] then None
    else
      var child := Child(node, path[0]);
      if |path| == 1 then
        if child.Some? && child.value.Dir? then None else Some(WithChild(node, path[0], File(source)))
      else if child.None? then None
      else match Write(child.value, path[1..], source)
        case None => None
        case Some(inner) => Some(WithChild(node, path[0], inner))
  }

  lemma {:induction false} FindAfterReplace(entries: seq<Entry>, k: nat, node: Node, other: string)
    requires k < |entries|
    ensures Find(entries[k := Entry(entries[k].name, node)], other) == Find(entries, other)
  {
    var changed := entries[k := Entry(entries[k].name, node)];
    if k > 0 {
      FindAfterReplace(entries[1..], k - 1, node, other);
      assert changed[1..] == entries[1..][k - 1 := Entry(entries[k].name, node)];
    } else {
      assert changed[1..] == entries[1..];
    }
  }

  lemma {:induction false} FindAfterAppend(entries: seq<Entry>, last: Entry, other: string)
    requires Find(entries, last.name).None?
    ensures Find(entries + [last], other) == if other == last.name then Some(|entries|) else Find(entries, other)
  {
    if entries == [] {
      assert entries + [last] == [last];
    } else {
      FindAfterAppend(entries[1..], last, other);
      assert (entries + [last])[1..] == entries[1..] + [last];
    }
  }

  lemma ChildAfter(node: Node, name: string, child: Node, other: string)
    requires node.Dir?
    ensures Child(WithChild(node, name, child), other) == if other == name then Some(child) else Child(node, other)
  {
    match Find(node.entries, name)
    case None => FindAfterAppend(node.entries, Entry(name, child), other);
    case Some(k) => FindAfterReplace(node.entries, k, child, other);
  }

  /** What opening `q` reaches, as far as a reader of files cares. */
  function FileAt(node: Node, q: Path, listedOnly: bool): Option<Source> {
    match At(node, q, listedOnly)
    case Some(File(source)) => Some(source)
    case _ => None
  }

  lemma NothingBelowFile(node: Node, path: Path, listedOnly: bool)
    requires node.File? && path != []
    ensures At(node, path, listedOnly).None?
  {
  }

  lemma WriteInDirectory(node: Node, name: string, source: Source, q: Path, listedOnly: bool)
    requires Write(node, [name], source).Some?
    ensures var after := WithChild(node, name, File(source));
            && FileAt(after, [name], false) == Some(source)
            && (q != [name] ==> FileAt(after, q, listedOnly) == FileAt(node, q, listedOnly))
  {
    var after := WithChild(node, name, File(source));
    ChildAfter(node, name, File(source), name);
    assert At(after, [name], false) == At(File(source), [], false);
    if q != [] {
      ChildAfter(node, name, File(source), q[0]);
      if q[0] == name && q != [name] {
        assert q == [name] + q[1..];
        NothingBelowFile(File(source), q[1..], listedOnly);
        if Child(node, name).Some? {
          NothingBelowFile(Child(node, name).value, q[1..], listedOnly);
        }
      }
    }
  }

  lemma WriteBelow(node: Node, name: string, inner: Node, q: Path, listedOnly: bool)
    requires node.Dir? && Child(node, name).Some? && q != []
    requires q[0] == name ==> FileAt(inner, q[1..], listedOnly) == FileAt(Child(node, name).value, q[1..], listedOnly)
    ensures FileAt(WithChild(node, name, inner), q, listedOnly) == FileAt(node, q, listedOnly)
  {
    ChildAfter(node, name, inner, q[0]);
  }

  /** A write puts its source at its path and changes no other file. */
  lemma {:induction false} WriteChangesOneFile(node: Node, path: Path, source: Source, q: Path, listedOnly: bool)
    requires Write(node, path, source).Some?
    ensures var after := Write(node, path, source).value;
            && FileAt(after, path, false) == Some(source)
            && (q != path ==> FileAt(after, q, listedOnly) == FileAt(node, q, listedOnly))
            && after.Dir? && node.Dir? && after.listable == node.listable
    decreases |path|
  {
    var name, after := path[0], Write(node, path, source).value;
    assert path == [name] + path[1..];
    if |path| == 1 {
      assert path == [name];
      WriteInDirectory(node, name, source, q, listedOnly);
    } else {
      var child := Child(node, name).value;
      var inner := Write(child, path[1..], source).value;
      ChildAfter(node, name, inner, name);
      WriteChangesOneFile(child, path[1..], source, if q != [] then q[1..] else [], listedOnly);
      assert At(after, path, false) == At(inner, path[1..], false);
      if q != [] && q != path {
        assert q == [q[0]] + q[1..];
        WriteBelow(node, name, inner, q, listedOnly);
      }
    }
  }

  // ---------------------------------------------------------------- the workspace root

  /** A `Cargo.toml` file and a `src/features` directory. */
  predicate IsWorkspaceRoot(disk: Node, dir: Path) {
    && FileAt(disk, dir + ["Cargo.toml"], false).Some?
    && At(disk, dir + ["src", "features"], false).Some? && At(disk, dir + ["src", "features"], false).value.Dir?
  }

  /** `workspace_root`: the nearest ancestor of `cwd`, itself included, that is a root; `None`
      stands for the fallback to the current directory. */
  method WorkspaceRoot(disk: Node, cwd: Path) returns (dir: Option<Path>)
    ensures dir.Some? ==> && dir.value <= cwd && IsWorkspaceRoot(disk, dir.value)
                          && forall a | dir.value < a <= cwd :: !IsWorkspaceRoot(disk, a)
    ensures dir.None? ==> forall a | a <= cwd :: !IsWorkspaceRoot(disk, a)
  {
    hide IsWorkspaceRoot;
    var here := cwd;
    while true
      invariant here <= cwd
      invariant forall a | here < a <= cwd :: !IsWorkspaceRoot(disk, a)
      decreases |here|
    {
      if IsWorkspaceRoot(disk, here) {
        return Some(here);
      }
      if here == [] {
        return None;
      }
      ghost var above := here[..|here| - 1];
      forall a | above < a <= cwd ensures !IsWorkspaceRoot(disk, a) {
        if |a| == |here| {
          assert a == here;
        } else {
          assert here < a;
        }
      }
      here := here[..|here| - 1];
    }
  }
}
