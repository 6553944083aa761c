/**
 The checker as the program text has it: passes that loop over files and items and push onto one
 list, and a run that may rewrite `declared_paths.rs` half-way. Each pass is proved to append the
 violations `Tidy` defines.
 */
module Checker {
  import opened Wrappers
  import opened Order
  import opened Scanner
  import opened UseTrees
  import opened DeclaredPaths
  import opened RoutePaths
  import opened SourceTree
  import opened Tidy

  /** The generated file as parsed: a constant, no function. */
  function Generated(text: string): Source {
    Parsed(text, [Other("DECLARED_API_PATHS")])
  }

  /** The tree after rewriting the generated file, if it can be written. */
  function Regenerated(root: Node): Option<Node> {
    Write(root, DECLARED, Generated(Text(DeclaredListing(root))))
  }

  class Checker {
    var root: Node
    var violations: seq<Violation>

    constructor (root: Node)
      ensures this.root == root && violations == []
    {
      this.root, violations := root, [];
    }

    /** `parse_file`, which records a file it cannot read or parse. */
    method ParseFile(file: Path) returns (items: Option<seq<Item>>)
      modifies this`violations
      ensures items == ItemsAt(root, file)
      ensures violations == old(violations) + if items.None? then [BadSource(file)] else []
    {
      items := ItemsAt(root, file);
      if items.None? {
        violations := violations + [BadSource(file)];
      }
    }

    method CheckSliceShape()
      modifies this`violations
      ensures violations == old(violations) + ShapeViolations(root)
    {
      hide FeatureShape;
      var listing := FeatureEntries(root);
      if listing.None? {
        violations := violations + [MissingFeatures];
        return;
      }
      var entries := listing.value;
      for i := 0 to |entries|
        invariant violations == old(violations) + FlatMap(FeatureShape(root), entries[..i])
      {
        FlatMapSnoc(FeatureShape(root), entries, i);
        CheckFeature(entries[i]);
      }
      assert entries[..|entries|] == entries;
    }

    method CheckFeature(feature: Entry)
      modifies this`violations
      ensures violations == old(violations) + FeatureShape(root)(feature)
    {
      hide VerbShape, FlatMap, ItemsAt, DeclaresFn, FeatureMod;
      if feature.node.File? {
        return;
      }
      var parsed := ParseFile(FeatureMod(feature.name));
      if parsed.None? {
        return;
      }
      var routes := DeclaresFn(parsed.value, "routes");
      if !routes {
        violations := violations + [NoRoutesFn(feature.name)];
      }
      ghost var first := if !routes then [NoRoutesFn(feature.name)] else [];
      assert violations == old(violations) + first;
      if feature.node.listable {
        CheckVerbs(feature.name, feature.node.entries);
      }
    }

    method CheckVerbs(feature: string, verbs: seq<Entry>)
      modifies this`violations
      ensures violations == old(violations) + FlatMap(VerbShape(root, feature), verbs)
    {
      hide VerbShape;
      for i := 0 to |verbs|
        invariant violations == old(violations) + FlatMap(VerbShape(root, feature), verbs[..i])
      {
        FlatMapSnoc(VerbShape(root, feature), verbs, i);
        CheckVerb(feature, verbs[i]);
      }
      assert verbs[..|verbs|] == verbs;
    }

    method CheckVerb(feature: string, verb: Entry)
      modifies this`violations
      ensures violations == old(violations) + VerbShape(root, feature)(verb)
    {
      if verb.node.File? {
        return;
      }
      var path := VerbMod(feature, verb.name);
      if FileAt(root, path, false).None? {
        violations := violations + [MissingVerbMod(feature, verb.name)];
      }
      var parsed := ParseFile(path);
      if parsed.Some? && !DeclaresFn(parsed.value, "route") {
        violations := violations + [NoRouteFn(feature, verb.name)];
      }
    }

    method CheckImports()
      modifies this`violations
      ensures violations == old(violations) + ImportViolations(root)
    {
      hide FileImports;
      var files := RsFilesUnder(root, SRC);
      for i := 0 to |files|
        invariant violations == old(violations) + FlatMap(FileImports(root), files[..i])
      {
        FlatMapSnoc(FileImports(root), files, i);
        CheckFileImports(files[i]);
      }
      assert files[..|files|] == files;
    }

    method CheckFileImports(file: Path)
      modifies this`violations
      ensures violations == old(violations) + FileImports(root)(file)
    {
      var parsed := ParseFile(file);
      if parsed.None? {
        return;
      }
      CheckUses(file, parsed.value);
    }

    method CheckUses(file: Path, items: seq<Item>)
      modifies this`violations
      ensures violations == old(violations)
                            + FlatMap(ItemImports(file, AllowsEntities(file), AllowsHttpError(file, items)), items)
    {
      hide ItemImports;
      var entities, http := AllowsEntities(file), AllowsHttpError(file, items);
      for i := 0 to |items|
        invariant violations == old(violations) + FlatMap(ItemImports(file, entities, http), items[..i])
      {
        FlatMapSnoc(ItemImports(file, entities, http), items, i);
        CheckUse(file, items[i], entities, http);
      }
      assert items[..|items|] == items;
    }

    method CheckUse(file: Path, item: Item, entities: bool, http: bool)
      modifies this`violations
      ensures violations == old(violations) + ItemImports(file, entities, http)(item)
    {
      if !item.Use? {
        return;
      }
      hide LeafViolations, Leaves;
      var leaves := ImportLeaves(item.tree);
      for i := 0 to |leaves|
        invariant violations == old(violations) + FlatMap(LeafViolations(file, item.line, entities, http), leaves[..i])
      {
        FlatMapSnoc(LeafViolations(file, item.line, entities, http), leaves, i);
        CheckLeaf(file, item.line, leaves[i], entities, http);
      }
      assert leaves[..|leaves|] == leaves;
    }

    method CheckLeaf(file: Path, line: nat, leaf: Leaf, entities: bool, http: bool)
      modifies this`violations
      ensures violations == old(violations) + LeafViolations(file, line, entities, http)(leaf)
    {
      if IsEntityImport(leaf) && !entities {
        violations := violations + [EntityImport(file, line, leaf)];
      }
      if IsHttpErrorImport(leaf) && !http {
        violations := violations + [HttpErrorImport(file, line)];
      }
    }

    /** `utoipa_facts` */
    static method UtoipaFacts(items: seq<Item>) returns (facts: Facts)
      ensures fresh(facts)
      ensures facts.paths == FlatMap(AsPath(), RoutesOf(items))
      ensures facts.tagsWithoutSecurity == FlatMap(AsUnprotected(), RoutesOf(items))
    {
      facts := new Facts();
      for i := 0 to |items|
        invariant fresh(facts)
        invariant facts.paths == FlatMap(AsPath(), RoutesOf(items[..i]))
        invariant facts.tagsWithoutSecurity == FlatMap(AsUnprotected(), RoutesOf(items[..i]))
      {
        FlatMapSnoc(ItemRoutes(), items, i);
        FlatMapAppend(AsPath(), RoutesOf(items[..i]), ItemRoutes()(items[i]));
        FlatMapAppend(AsUnprotected(), RoutesOf(items[..i]), ItemRoutes()(items[i]));
        if items[i].Fn? {
          CollectAttributes(items[i].attrs, facts);
        }
      }
      assert items[..|items|] == items;
    }

    static method CollectAttributes(attrs: seq<Attribute>, facts: Facts)
      modifies facts
      ensures facts.paths == old(facts.paths) + FlatMap(AsPath(), FlatMap(AttributeRoutes(), attrs))
      ensures facts.tagsWithoutSecurity ==
              old(facts.tagsWithoutSecurity) + FlatMap(AsUnprotected(), FlatMap(AttributeRoutes(), attrs))
    {
      hide AttributeRoutes, AsPath, AsUnprotected;
      ghost var routes: seq<Route> := [];
      for i := 0 to |attrs|
        invariant routes == FlatMap(AttributeRoutes(), attrs[..i])
        invariant facts.paths == old(facts.paths) + FlatMap(AsPath(), routes)
        invariant facts.tagsWithoutSecurity == old(facts.tagsWithoutSecurity) + FlatMap(AsUnprotected(), routes)
      {
        FlatMapSnoc(AttributeRoutes(), attrs, i);
        ghost var more := AttributeRoutes()(attrs[i]);
        FlatMapAppend(AsPath(), routes, more);
        FlatMapAppend(AsUnprotected(), routes, more);
        CollectAttribute(attrs[i], facts);
        routes := routes + more;
      }
      assert attrs[..|attrs|] == attrs;
    }

    static method CollectAttribute(a: Attribute, facts: Facts)
      modifies facts
      ensures facts.paths == old(facts.paths) + FlatMap(AsPath(), AttributeRoutes()(a))
      ensures facts.tagsWithoutSecurity ==
              old(facts.tagsWithoutSecurity) + FlatMap(AsUnprotected(), AttributeRoutes()(a))
    {
      AttributeFacts(a);
      hide AttributeRoutes, AsPath, AsUnprotected, FlatMap, RouteOf;
      if a.path == ["utoipa", "path"] {
        facts.Collect(a);
      }
    }

    static lemma AttributeFacts(a: Attribute)
      ensures var route := if a.path == ["utoipa", "path"] && a.tokens.Some? then RouteOf(a.tokens.value) else None;
              && FlatMap(AsPath(), AttributeRoutes()(a)) ==
                 (if route.Some? then [(route.value.line, route.value.path)] else [])
              && FlatMap(AsUnprotected(), AttributeRoutes()(a)) ==
                 (if route.Some? && route.value.unprotected then [route.value.line] else [])
    {
    }

    /** The loop of `check_utoipa` over one file: the declared set grows, and so may the list. */
    method CheckFileRoutes(file: Path, declared: seq<string>, ghost served: seq<string>)
      returns (paths: seq<(nat, string)>, grown: seq<string>)
      requires declared == Listing(served)
      modifies this`violations
      ensures violations == old(violations) + FileRoutes(root)(file)
      ensures paths == PathsAt(root)(file)
      ensures grown == Listing(served + FlatMap(Served(), paths))
    {
      FileFacts(root, file);
      hide FileRoutes, PathsAt, Protection, UserIds, Served, Listing, RoutesOf, ItemsAt, AsPath, AsUnprotected;
      grown := declared;
      var parsed := ParseFile(file);
      if parsed.None? {
        paths := [];
        assert served + FlatMap(Served(), paths) == served;
        return;
      }
      hide FlatMap;
      var facts := UtoipaFacts(parsed.value);
      paths := facts.paths;
      CheckProtection(file, facts.tagsWithoutSecurity);
      grown := CheckPaths(file, paths, declared, served);
    }

    static lemma FileFacts(root: Node, file: Path)
      ensures ItemsAt(root, file).None? ==> FileRoutes(root)(file) == [BadSource(file)] && PathsAt(root)(file) == []
      ensures ItemsAt(root, file).Some? ==>
                var routes := RoutesOf(ItemsAt(root, file).value);
                && FileRoutes(root)(file) == FlatMap(Protection(file), FlatMap(AsUnprotected(), routes))
                                             + FlatMap(UserIds(file), FlatMap(AsPath(), routes))
                && PathsAt(root)(file) == FlatMap(AsPath(), routes)
    {
    }

    method CheckProtection(file: Path, lines: seq<nat>)
      modifies this`violations
      ensures violations == old(violations) + FlatMap(Protection(file), lines)
    {
      for i := 0 to |lines|
        invariant violations == old(violations) + FlatMap(Protection(file), lines[..i])
      {
        FlatMapSnoc(Protection(file), lines, i);
        violations := violations + [UnprotectedRoute(file, lines[i])];
      }
      assert lines[..|lines|] == lines;
    }

    method CheckPaths(file: Path, paths: seq<(nat, string)>, declared: seq<string>, ghost served: seq<string>)
      returns (grown: seq<string>)
      requires declared == Listing(served)
      modifies this`violations
      ensures violations == old(violations) + FlatMap(UserIds(file), paths)
      ensures grown == Listing(served + FlatMap(Served(), paths))
    {
      hide Listing, UserIds, Served;
      grown := declared;
      ghost var sofar := served;
      for i := 0 to |paths|
        invariant violations == old(violations) + FlatMap(UserIds(file), paths[..i])
        invariant sofar == served + FlatMap(Served(), paths[..i])
        invariant grown == Listing(sofar)
      {
        FlatMapSnoc(UserIds(file), paths, i);
        FlatMapSnoc(Served(), paths, i);
        grown := CheckPath(file, paths[i], grown, sofar);
        sofar := sofar + Served()(paths[i]);
      }
      assert paths[..|paths|] == paths;
    }

    method CheckPath(file: Path, path: (nat, string), declared: seq<string>, ghost served: seq<string>)
      returns (grown: seq<string>)
      requires declared == Listing(served)
      modifies this`violations
      ensures violations == old(violations) + UserIds(file)(path)
      ensures grown == Listing(served + Served()(path))
    {
      hide Listing, NamesUser, Normalize, Insert;
      var normalized := Normalize(path.1);
      ListingSnoc(served, normalized);
      grown := Insert(StringLess, declared, normalized);
      if NamesUser(path.1) {
        violations := violations + [UserIdInPath(file, path.0, path.1)];
      }
    }

    /** The scan of all files for the declared set. */
    method CheckRoutes() returns (declared: seq<string>, fileCount: nat)
      modifies this`violations
      ensures violations == old(violations) + FlatMap(FileRoutes(root), SourcesUnder(root, FEATURES))
      ensures declared == DeclaredListing(root)
      ensures fileCount == 0 <==> AllPaths(root) == []
    {
      hide FileRoutes, PathsAt, Served, Listing, SourcesUnder;
      declared, fileCount := [], 0;
      var files := RsFilesUnder(root, FEATURES);
      ghost var paths: seq<(nat, string)> := [];
      assert declared == Listing(FlatMap(Served(), paths)) by { EmptyListing(); }
      for i := 0 to |files|
        invariant violations == old(violations) + FlatMap(FileRoutes(root), files[..i])
        invariant paths == FlatMap(PathsAt(root), files[..i])
        invariant declared == Listing(FlatMap(Served(), paths))
        invariant fileCount == 0 <==> paths == []
      {
        FlatMapSnoc(FileRoutes(root), files, i);
        FlatMapSnoc(PathsAt(root), files, i);
        var found, grown := CheckFileRoutes(files[i], declared, FlatMap(Served(), paths));
        FlatMapAppend(Served(), paths, found);
        declared, paths := grown, paths + found;
        if found != [] {
          fileCount := fileCount + 1;
        }
      }
      assert files[..|files|] == files;
    }

    static lemma EmptyListing()
      ensures Listing(FlatMap(Served(), [])) == []
    {
    }

    /** `check_utoipa`. `writable` says whether the file system accepts the write of an update. */
    method CheckUtoipa(update: bool, writable: bool) returns (written: bool)
      modifies this
      ensures written <==> update ==> writable && Regenerated(old(root)).Some?
      ensures root == if update && written then Regenerated(old(root)).value else old(root)
      ensures written ==> violations == old(violations) + RouteViolations(old(root), update)
    {
      hide FileRoutes, DeclaredListing, AllPaths, FlatMap, Text, Write, SourcesUnder;
      var declared, fileCount := CheckRoutes();
      var generated := Render(declared);
      if update {
        var after := Write(root, DECLARED, Generated(generated));
        if !writable || after.None? {
          return false;
        }
        root := after.value;
      } else {
        var existing := TextOf(SourceAt(root, DECLARED));
        if existing.None? {
          violations := violations + [MissingDeclaredPaths];
        } else if existing.value != generated {
          violations := violations + [StaleDeclaredPaths];
        }
      }
      if fileCount == 0 {
        violations := violations + [NoRoutesFound];
      }
      return true;
    }

    method CheckDtos()
      modifies this`violations
      ensures violations == old(violations) + FlatMap(FileFormat(root), SourcesUnder(root, FEATURES))
    {
      hide FileFormat;
      var files := RsFilesUnder(root, FEATURES);
      for i := 0 to |files|
        invariant violations == old(violations) + FlatMap(FileFormat(root), files[..i])
      {
        FlatMapSnoc(FileFormat(root), files, i);
        CheckFileFormat(files[i]);
      }
      assert files[..|files|] == files;
    }

    method CheckFileFormat(file: Path)
      modifies this`violations
      ensures violations == old(violations) + FileFormat(root)(file)
    {
      hide ItemFormat;
      var parsed := ParseFile(file);
      if parsed.None? {
        return;
      }
      var items := parsed.value;
      ghost var before := violations;
      for i := 0 to |items|
        invariant violations == before + FlatMap(ItemFormat(file), items[..i])
      {
        FlatMapSnoc(ItemFormat(file), items, i);
        CheckStruct(file, items[i]);
      }
      assert items[..|items|] == items;
    }

    method CheckStruct(file: Path, item: Item)
      modifies this`violations
      ensures violations == old(violations) + ItemFormat(file)(item)
    {
      if !item.Struct? || "ToSchema" !in item.derives {
        return;
      }
      var fields := item.fields;
      for i := 0 to |fields|
        invariant violations == old(violations) + FlatMap(FieldFormat(file, item.name, item.camelCase), fields[..i])
      {
        FlatMapSnoc(FieldFormat(file, item.name, item.camelCase), fields, i);
        if fields[i].name.Some? && !item.camelCase && !SingleWord(fields[i].name.value) && !fields[i].renamed {
          violations := violations + [SnakeCaseField(file, item.name, fields[i].name.value)];
        }
      }
      assert fields[..|fields|] == fields;
    }

    method CheckEntitiesNotSerializable()
      modifies this`violations
      ensures violations == old(violations) + FlatMap(FileEntities(root), SourcesUnder(root, ENTITIES))
    {
      hide FileEntities;
      var files := RsFilesUnder(root, ENTITIES);
      for i := 0 to |files|
        invariant violations == old(violations) + FlatMap(FileEntities(root), files[..i])
      {
        FlatMapSnoc(FileEntities(root), files, i);
        CheckFileEntities(files[i]);
      }
      assert files[..|files|] == files;
    }

    method CheckFileEntities(file: Path)
      modifies this`violations
      ensures violations == old(violations) + FileEntities(root)(file)
    {
      hide ItemEntity;
      var parsed := ParseFile(file);
      if parsed.None? {
        return;
      }
      var items := parsed.value;
      ghost var before := violations;
      for i := 0 to |items|
        invariant violations == before + FlatMap(ItemEntity(file), items[..i])
      {
        FlatMapSnoc(ItemEntity(file), items, i);
        CheckEntity(file, items[i]);
      }
      assert items[..|items|] == items;
    }

    method CheckEntity(file: Path, item: Item)
      modifies this`violations
      ensures violations == old(violations) + ItemEntity(file)(item)
    {
      if item.Struct? && "Serialize" in item.derives {
        violations := violations + [SerializableEntity(file, item.line)];
      }
    }

    method CheckEnvConfinement()
      modifies this`violations
      ensures violations == old(violations) + FlatMap(FileEnvironment(root), SourcesUnder(root, SRC))
    {
      var files := RsFilesUnder(root, SRC);
      hide FileEnvironment;
      for i := 0 to |files|
        invariant violations == old(violations) + FlatMap(FileEnvironment(root), files[..i])
      {
        FlatMapSnoc(FileEnvironment(root), files, i);
        CheckFileEnvironment(files[i]);
      }
      assert files[..|files|] == files;
    }

    method CheckFileEnvironment(file: Path)
      modifies this`violations
      ensures violations == old(violations) + FileEnvironment(root)(file)
    {
      if file == CONFIG || file in ENV_ALLOWLIST {
        return;
      }
      var text := TextOf(SourceAt(root, file));
      if text.Some? && Contains(text.value, "std::env") {
        violations := violations + [ReadsEnvironment(file)];
      }
    }

    /** `run`: the passes in their order. A failed write ends the run at once, and the passes after
        an update see the rewritten file. */
    method Run(update: bool, writable: bool) returns (ok: bool)
      requires violations == []
      modifies this
      ensures !update ==> root == old(root) && (ok <==> Violations(root) == [])
      ensures !update && WellFormed(root) ==> (ok <==> Conforms(root))
      ensures update && ok ==> Regenerated(old(root)) == Some(root)
      ensures update ==> (ok <==> && writable && Regenerated(old(root)).Some?
                                  && ShapeViolations(old(root)) == [] && ImportViolations(old(root)) == []
                                  && RouteViolations(old(root), true) == []
                                  && LaterViolations(Regenerated(old(root)).value) == [])
    {
      hide ShapeViolations, ImportViolations, RouteViolations, SourcesUnder, FlatMap, Text, DeclaredListing, Write;
      hide Conforms;
      if WellFormed(root) {
        VerdictExact(root);
      }
      CheckSliceShape();
      CheckImports();
      var written := CheckUtoipa(update, writable);
      if !written {
        return false;
      }
      CheckDtos();
      CheckEntitiesNotSerializable();
      CheckEnvConfinement();
      return violations == [];
    }
  }
}
