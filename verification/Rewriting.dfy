/**
 Rewriting one file of the checked tree: what stays as it was for the passes, and that splitting a
 grouped import in a file changes no import violation of the workspace.
 */
module Rewriting {
  import opened Wrappers
  import opened Order
  import opened UseTrees
  import opened SourceTree
  import opened Tidy

  /** Writing below a directory is writing in that directory. */
  lemma {:induction false} WriteReaches(node: Node, dir: Path, rest: Path, source: Source)
    requires rest != [] && Write(node, dir + rest, source).Some?
    ensures At(node, dir, false).Some? && Write(At(node, dir, false).value, rest, source).Some?
    ensures At(Write(node, dir + rest, source).value, dir, false)
         == Write(At(node, dir, false).value, rest, source)
    decreases |dir|
  {
    if dir == [] {
      assert dir + rest == rest;
    } else {
      assert (dir + rest)[1..] == dir[1..] + rest && (dir + rest)[0] == dir[0];
      var child := Child(node, dir[0]).value;
      WriteReaches(child, dir[1..], rest, source);
      ChildAfter(node, dir[0], Write(child, dir[1..] + rest, source).value, dir[0]);
    }
  }

  lemma {:induction false} UpdateKeepsWellFormed(entries: seq<Entry>, name: string, node: Node)
    requires WellFormedEntries(entries) && WellFormed(node)
    ensures Find(entries, name).None? ==> WellFormedEntries(entries + [Entry(name, node)])
    ensures Find(entries, name).Some? ==> WellFormedEntries(entries[Find(entries, name).value := Entry(name, node)])
  {
    if entries == [] {
      assert entries + [Entry(name, node)] == [Entry(name, node)];
    } else {
      var rest := entries[1..];
      UpdateKeepsWellFormed(rest, name, node);
      if Find(entries, name).None? {
        var longer := entries + [Entry(name, node)];
        assert longer[1..] == rest + [Entry(name, node)] && longer[0] == entries[0];
        assert entries[0] in entries;
      } else if entries[0].name == name {
        assert entries[0 := Entry(name, node)][1..] == rest;
      } else {
        var k := Find(rest, name).value;
        var changed := rest[k := Entry(name, node)];
        assert entries[k + 1 := Entry(name, node)][1..] == changed;
        forall e | e in changed ensures e.name != entries[0].name {
          if e != Entry(name, node) {
            assert e in rest;
          }
        }
      }
    }
  }

  lemma {:induction false} WriteKeepsWellFormed(node: Node, path: Path, source: Source)
    requires WellFormed(node) && Write(node, path, source).Some?
    ensures WellFormed(Write(node, path, source).value)
    decreases |path|
  {
    if |path| == 1 {
      UpdateKeepsWellFormed(node.entries, path[0], File(source));
    } else {
      WellFormedEntry(node.entries, Find(node.entries, path[0]).value);
      var child := Child(node, path[0]).value;
      WriteKeepsWellFormed(child, path[1..], source);
      UpdateKeepsWellFormed(node.entries, path[0], Write(child, path[1..], source).value);
    }
  }

  /** A write reaches a file just as an enumeration reached it before. */
  lemma {:induction false} WriteKeepsReach(node: Node, path: Path, source: Source)
    requires Write(node, path, source).Some? && FileAt(node, path, false).Some?
    ensures At(Write(node, path, source).value, path, true).Some? <==> At(node, path, true).Some?
    ensures At(node, path, true).Some? ==>
              At(node, path, true).value.File? && At(Write(node, path, source).value, path, true).value.File?
    decreases |path|
  {
    var after, child := Write(node, path, source).value, Child(node, path[0]).value;
    if |path| == 1 {
      ChildAfter(node, path[0], File(source), path[0]);
      assert path[1..] == [];
      assert At(after, path, true) == if after.listable then At(File(source), [], true) else None;
    } else {
      WriteKeepsReach(child, path[1..], source);
      ChildAfter(node, path[0], Write(child, path[1..], source).value, path[0]);
    }
  }

  /** Writing one file below `dir` neither adds, removes nor changes another source below it. */
  lemma OtherSourcesStay(root: Node, path: Path, source: Source, dir: Path, file: Path)
    requires Write(root, path, source).Some? && dir < path && file != path
    ensures var after := Write(root, path, source).value;
            && (IsSource(after, dir, file) <==> IsSource(root, dir, file))
            && SourceAt(after, file) == SourceAt(root, file)
  {
    var after, rest := Write(root, path, source).value, path[|dir|..];
    assert path == dir + rest && rest != [];
    WriteReaches(root, dir, rest, source);
    WriteChangesOneFile(root, path, source, file, false);
    if dir <= file {
      var rel := file[|dir|..];
      assert file == dir + rel && rel != rest;
      var node := At(root, dir, false).value;
      WriteChangesOneFile(node, rest, source, rel, true);
      assert FileAt(Write(node, rest, source).value, rel, true) == FileAt(node, rel, true);
    }
  }

  /** Rewriting a file that exists does not change which sources there are. */
  lemma SourcesStay(root: Node, path: Path, source: Source, dir: Path, file: Path)
    requires Write(root, path, source).Some? && dir < path && FileAt(root, path, false).Some?
    ensures IsSource(Write(root, path, source).value, dir, file) <==> IsSource(root, dir, file)
  {
    if file == path {
      var rest := path[|dir|..];
      assert path == dir + rest && rest != [];
      WriteReaches(root, dir, rest, source);
      var node := At(root, dir, false).value;
      AtBelow(root, dir, rest);
      WriteKeepsReach(node, rest, source);
    } else {
      OtherSourcesStay(root, path, source, dir, file);
    }
  }

  // ---------------------------------------------------------------- splitting an import in its file

  /** The items with the `use` item at `k` written out as single ones. */
  function SplitAt(items: seq<Item>, k: nat): seq<Item>
    requires k < |items| && items[k].Use?
  {
    items[..k] + UseItems(items[k].line, Split(items[k].tree)) + items[k + 1..]
  }

  lemma {:induction false} UseItemsAreUses(line: nat, trees: seq<UseTree>)
    ensures forall item | item in UseItems(line, trees) :: item.Use?
  {
    if trees != [] {
      UseItemsAreUses(line, trees[..|trees| - 1]);
    }
  }

  lemma SplitKeepsRouteAttributes(items: seq<Item>, k: nat)
    requires k < |items| && items[k].Use?
    ensures HasRouteAttribute(SplitAt(items, k)) == HasRouteAttribute(items)
  {
    UseItemsAreUses(items[k].line, Split(items[k].tree));
    assert items == items[..k] + [items[k]] + items[k + 1..];
    forall item: Item | !item.Use? ensures item in SplitAt(items, k) <==> item in items {
    }
  }

  lemma SplittingKeepsItemImports(file: Path, entities: bool, http: bool, items: seq<Item>, k: nat)
    requires k < |items| && items[k].Use?
    ensures FlatMap(ItemImports(file, entities, http), SplitAt(items, k))
         == FlatMap(ItemImports(file, entities, http), items)
  {
    hide ItemImports, FlatMap, UseItems, Split;
    var f := ItemImports(file, entities, http);
    var first, split, last := items[..k], UseItems(items[k].line, Split(items[k].tree)), items[k + 1..];
    FlatMapAppend(f, first + split, last);
    FlatMapAppend(f, first, split);
    assert items[k] == Use(items[k].line, items[k].tree);
    SplittingKeepsViolations(file, items[k].line, entities, http, items[k].tree);
    assert items == first + [items[k]] + last;
    FlatMapAppend(f, first + [items[k]], last);
    FlatMapAppend(f, first, [items[k]]);
    FlatMapOne(f, items[k]);
  }

  lemma {:induction false} FlatMapAgrees<S, T>(f: S -> seq<T>, g: S -> seq<T>, s: seq<S>)
    requires forall x | x in s :: f(x) == g(x)
    ensures FlatMap(f, s) == FlatMap(g, s)
  {
    if s != [] {
      FlatMapAgrees(f, g, s[..|s| - 1]);
    }
  }

  /** Splitting a grouped import in a file of the workspace changes no import violation, neither of
      that file nor of the whole run of the pass. */
  lemma SplittingInAFile(root: Node, file: Path, text: string, k: nat)
    requires WellFormed(root) && SRC < file && ItemsAt(root, file).Some?
    requires k < |ItemsAt(root, file).value| && ItemsAt(root, file).value[k].Use?
    requires Write(root, file, Parsed(text, SplitAt(ItemsAt(root, file).value, k))).Some?
    ensures var after := Write(root, file, Parsed(text, SplitAt(ItemsAt(root, file).value, k))).value;
            && FileImports(after)(file) == FileImports(root)(file)
            && ImportViolations(after) == ImportViolations(root)
  {
    var items := ItemsAt(root, file).value;
    var source := Parsed(text, SplitAt(items, k));
    var after := Write(root, file, source).value;
    WriteChangesOneFile(root, file, source, [], false);
    assert ItemsAt(after, file) == Some(SplitAt(items, k));
    SplitKeepsRouteAttributes(items, k);
    SplittingKeepsItemImports(file, AllowsEntities(file), AllowsHttpError(file, items), items, k);
    WriteKeepsWellFormed(root, file, source);
    hide IsSource, SourcesUnder, ItemImports, FlatMap, Write, WellFormed, AllowsEntities, AllowsHttpError;
    forall p { SourcesStay(root, file, source, SRC, p); }
    EnumerationIgnoresReadOrder(after, root, SRC);
    forall p ensures FileImports(after)(p) == FileImports(root)(p) {
      if p != file {
        OtherSourcesStay(root, file, source, SRC, p);
      }
    }
    FlatMapAgrees(FileImports(after), FileImports(root), SourcesUnder(root, SRC));
  }
}
