/**
 The six passes of the checker and their verdict.

 A pass appends what it finds to one growing list. What it appends is a function of the tree; the
 `Conforms` predicates say, without any order or enumeration, when that is nothing.
 */
module Tidy {
  import opened Wrappers
  import opened Order
  import opened Scanner
  import opened UseTrees
  import opened DeclaredPaths
  import opened RoutePaths
  import opened SourceTree

  datatype Violation =
    | BadSource(file: Path)                                    // unreadable or unparsable
    | MissingFeatures
    | NoRoutesFn(feature: string)
    | MissingVerbMod(feature: string, verb: string)
    | NoRouteFn(feature: string, verb: string)
    | EntityImport(file: Path, line: nat, leaf: Leaf)
    | HttpErrorImport(file: Path, line: nat)
    | UnprotectedRoute(file: Path, line: nat)
    | UserIdInPath(file: Path, line: nat, route: string)
    | StaleDeclaredPaths
    | MissingDeclaredPaths
    | NoRoutesFound
    | SnakeCaseField(file: Path, struct: string, field: string)
    | SerializableEntity(file: Path, line: nat)
    | ReadsEnvironment(file: Path)

  const SRC: Path := ["src"]
  const FEATURES: Path := ["src", "features"]
  const ENTITIES: Path := ["src", "entities"]
  const DECLARED: Path := ["src", "features", "declared_paths.rs"]
  const CONFIG: Path := ["src", "config.rs"]

  const ENTITY_IMPORT_ALLOWLIST: seq<Path> := [
    ["src", "auth.rs"],
    ["src", "service_error.rs"],
    ["src", "main.rs"],
    ["src", "state.rs"],
    ["src", "features", "stores", "mapper.rs"],
    ["src", "features", "test_support.rs"],
    ["src", "features", "auth", "mod.rs"]]

  const HTTP_ERROR_ALLOWLIST: seq<Path> := [["src", "error.rs"], ["src", "auth.rs"]]

  const ENV_ALLOWLIST: seq<Path> := [["src", "features", "test_support.rs"]]

  /** What reading the file at `path` yields. */
  function SourceAt(root: Node, path: Path): Source {
    match FileAt(root, path, false)
    case Some(source) => source
    case None => Unreadable
  }

  function ItemsAt(root: Node, path: Path): Option<seq<Item>> {
    match SourceAt(root, path)
    case Parsed(_, items) => Some(items)
    case _ => None
  }

  predicate DeclaresFn(items: seq<Item>, name: string) {
    exists item :: item in items && item.Fn? && item.name == name
  }

  // ---------------------------------------------------------------- slice shape

  /** The module at `path` is readable and declares `fn name`. */
  predicate ModDeclares(root: Node, path: Path, name: string) {
    ItemsAt(root, path).Some? && DeclaresFn(ItemsAt(root, path).value, name)
  }

  function VerbMod(feature: string, verb: string): Path {
    FEATURES + [feature, verb, "mod.rs"]
  }

  function FeatureMod(feature: string): Path {
    FEATURES + [feature, "mod.rs"]
  }

  function VerbShape(root: Node, feature: string): Entry -> seq<Violation> {
    (verb: Entry) =>
      if verb.node.File? then [] else
        var path := VerbMod(feature, verb.name);
        (if FileAt(root, path, false).None? then [MissingVerbMod(feature, verb.name)] else [])
        + (if ItemsAt(root, path).None? then [BadSource(path)]
           else if !DeclaresFn(ItemsAt(root, path).value, "route") then [NoRouteFn(feature, verb.name)]
           else [])
  }

  function FeatureShape(root: Node): Entry -> seq<Violation> {
    (feature: Entry) =>
      if feature.node.File? then [] else
        var path := FeatureMod(feature.name);
        if ItemsAt(root, path).None? then [BadSource(path)]
        else (if !DeclaresFn(ItemsAt(root, path).value, "routes") then [NoRoutesFn(feature.name)] else [])
             + (if feature.node.listable then FlatMap(VerbShape(root, feature.name), feature.node.entries) else [])
  }

  /** The listing of the features directory, if it can be listed. */
  function FeatureEntries(root: Node): Option<seq<Entry>> {
    match At(root, FEATURES, false)
    case Some(Dir(true, entries)) => Some(entries)
    case _ => None
  }

  function ShapeViolations(root: Node): seq<Violation> {
    match FeatureEntries(root)
    case None => [MissingFeatures]
    case Some(entries) => FlatMap(FeatureShape(root), entries)
  }

  ghost predicate FeatureConforms(root: Node, feature: Entry) {
    feature.node.Dir? ==>
      && ModDeclares(root, FeatureMod(feature.name), "routes")
      && (feature.node.listable ==>
            forall verb | verb in feature.node.entries && verb.node.Dir? ::
              ModDeclares(root, VerbMod(feature.name, verb.name), "route"))
  }

  /** Every feature declares `routes`, and every verb directory of it `route`. */
  ghost predicate ShapeConforms(root: Node) {
    && FeatureEntries(root).Some?
    && forall feature | feature in FeatureEntries(root).value :: FeatureConforms(root, feature)
  }

  lemma ShapeExact(root: Node)
    ensures ShapeViolations(root) == [] <==> ShapeConforms(root)
  {
    if FeatureEntries(root).Some? {
      var entries := FeatureEntries(root).value;
      FlatMapElements(FeatureShape(root), entries);
      forall feature | feature in entries
        ensures FeatureShape(root)(feature) == [] <==> FeatureConforms(root, feature)
      {
        if feature.node.Dir? {
          FlatMapElements(VerbShape(root, feature.name), feature.node.entries);
          forall verb | verb in feature.node.entries
            ensures VerbShape(root, feature.name)(verb) == []
                    <==> (verb.node.Dir? ==> ModDeclares(root, VerbMod(feature.name, verb.name), "route"))
          {
          }
        }
      }
    }
  }

  // ---------------------------------------------------------------- imports

  predicate HasRouteAttribute(items: seq<Item>) {
    exists item :: item in items && item.Fn? && exists a :: a in item.attrs && a.path == ["utoipa", "path"]
  }

  predicate AllowsEntities(file: Path) {
    || (file != [] && SourceTree.Last(file) == "service.rs")
    || (|file| > 2 && ENTITIES <= file)
    || file in ENTITY_IMPORT_ALLOWLIST
  }

  predicate AllowsHttpError(file: Path, items: seq<Item>) {
    || file in HTTP_ERROR_ALLOWLIST
    || (file != [] && SourceTree.Last(file) == "handler.rs")
    || HasRouteAttribute(items)
  }

  function LeafViolations(file: Path, line: nat, entities: bool, http: bool): Leaf -> seq<Violation> {
    (leaf: Leaf) =>
      (if IsEntityImport(leaf) && !entities then [EntityImport(file, line, leaf)] else [])
      + (if IsHttpErrorImport(leaf) && !http then [HttpErrorImport(file, line)] else [])
  }

  function ItemImports(file: Path, entities: bool, http: bool): Item -> seq<Violation> {
    (item: Item) =>
      if item.Use? then FlatMap(LeafViolations(file, item.line, entities, http), Leaves([], item.tree)) else []
  }

  function FileImports(root: Node): Path -> seq<Violation> {
    (file: Path) =>
      match ItemsAt(root, file)
      case None => [BadSource(file)]
      case Some(items) => FlatMap(ItemImports(file, AllowsEntities(file), AllowsHttpError(file, items)), items)
  }

  function ImportViolations(root: Node): seq<Violation> {
    FlatMap(FileImports(root), SourcesUnder(root, SRC))
  }

  ghost predicate LeafConforms(file: Path, items: seq<Item>, leaf: Leaf) {
    && (IsEntityImport(leaf) ==> AllowsEntities(file))
    && (IsHttpErrorImport(leaf) ==> AllowsHttpError(file, items))
  }

  /** The file is readable Rust whose imports keep to their places. */
  ghost predicate FileImportsConform(root: Node, file: Path) {
    && ItemsAt(root, file).Some?
    && forall item | item in ItemsAt(root, file).value && item.Use? ::
         forall leaf | leaf in Leaves([], item.tree) :: LeafConforms(file, ItemsAt(root, file).value, leaf)
  }

  lemma FileImportsExact(root: Node, file: Path)
    ensures FileImports(root)(file) == [] <==> FileImportsConform(root, file)
  {
    if ItemsAt(root, file).Some? {
      var items := ItemsAt(root, file).value;
      var entities, http := AllowsEntities(file), AllowsHttpError(file, items);
      FlatMapElements(ItemImports(file, entities, http), items);
      forall item | item in items && item.Use?
        ensures ItemImports(file, entities, http)(item) == []
                <==> forall leaf | leaf in Leaves([], item.tree) :: LeafConforms(file, items, leaf)
      {
        FlatMapElements(LeafViolations(file, item.line, entities, http), Leaves([], item.tree));
      }
    }
  }

  /** One `use` item per tree, all on one line. */
  function UseItems(line: nat, trees: seq<UseTree>): seq<Item> {
    if trees == [] then [] else UseItems(line, trees[..|trees| - 1]) + [Use(line, trees[|trees| - 1])]
  }

  lemma LeavesOfOne(tree: UseTree)
    ensures LeavesOf([], [tree]) == Leaves([], tree)
  {
    assert [tree][1..] == [];
  }

  lemma UseImports(file: Path, line: nat, entities: bool, http: bool, tree: UseTree)
    ensures FlatMap(ItemImports(file, entities, http), [Use(line, tree)])
         == FlatMap(LeafViolations(file, line, entities, http), LeavesOf([], [tree]))
  {
    hide FlatMap, LeavesOf, Leaves, LeafViolations;
    FlatMapOne(ItemImports(file, entities, http), Use(line, tree));
    LeavesOfOne(tree);
  }

  lemma {:induction false} UseItemsImports(file: Path, line: nat, entities: bool, http: bool, trees: seq<UseTree>)
    ensures FlatMap(ItemImports(file, entities, http), UseItems(line, trees))
         == FlatMap(LeafViolations(file, line, entities, http), LeavesOf([], trees))
  {
    if trees != [] {
      hide FlatMap, LeavesOf, Leaves, LeafViolations, ItemImports;
      var rest, last := trees[..|trees| - 1], trees[|trees| - 1];
      assert trees == rest + [last];
      UseItemsImports(file, line, entities, http, rest);
      UseImports(file, line, entities, http, last);
      FlatMapAppend(ItemImports(file, entities, http), UseItems(line, rest), [Use(line, last)]);
      LeavesOfAppend([], rest, [last]);
      FlatMapAppend(LeafViolations(file, line, entities, http), LeavesOf([], rest), LeavesOf([], [last]));
    }
  }

  /** Writing a grouped import out as single ones changes none of its violations. */
  lemma SplittingKeepsViolations(file: Path, line: nat, entities: bool, http: bool, tree: UseTree)
    ensures FlatMap(ItemImports(file, entities, http), UseItems(line, Split(tree)))
         == ItemImports(file, entities, http)(Use(line, tree))
  {
    UseItemsImports(file, line, entities, http, Split(tree));
    SplitKeepsLeaves([], tree);
  }

  // ---------------------------------------------------------------- routes

  function AttributeRoutes(): Attribute -> seq<Route> {
    (a: Attribute) =>
      if a.path != ["utoipa", "path"] || a.tokens.None? then []
      else match RouteOf(a.tokens.value) case None => [] case Some(route) => [route]
  }

  function ItemRoutes(): Item -> seq<Route> {
    (item: Item) => if item.Fn? then FlatMap(AttributeRoutes(), item.attrs) else []
  }

  function RoutesOf(items: seq<Item>): seq<Route> {
    FlatMap(ItemRoutes(), items)
  }

  /** The facts of a file: its declared paths, and the lines of its unprotected routes. */
  function AsPath(): Route -> seq<(nat, string)> {
    (r: Route) => [(r.line, r.path)]
  }

  function AsUnprotected(): Route -> seq<nat> {
    (r: Route) => if r.unprotected then [r.line] else []
  }

  function PathsAt(root: Node): Path -> seq<(nat, string)> {
    (file: Path) =>
      match ItemsAt(root, file) case None => [] case Some(items) => FlatMap(AsPath(), RoutesOf(items))
  }

  function AllPaths(root: Node): seq<(nat, string)> {
    FlatMap(PathsAt(root), SourcesUnder(root, FEATURES))
  }

  function Protection(file: Path): nat -> seq<Violation> {
    (line: nat) => [UnprotectedRoute(file, line)]
  }

  function UserIds(file: Path): ((nat, string)) -> seq<Violation> {
    (p: (nat, string)) => if NamesUser(p.1) then [UserIdInPath(file, p.0, p.1)] else []
  }

  function FileRoutes(root: Node): Path -> seq<Violation> {
    (file: Path) =>
      match ItemsAt(root, file)
      case None => [BadSource(file)]
      case Some(items) =>
        FlatMap(Protection(file), FlatMap(AsUnprotected(), RoutesOf(items)))
        + FlatMap(UserIds(file), FlatMap(AsPath(), RoutesOf(items)))
  }

  function Served(): ((nat, string)) -> seq<string> {
    (p: (nat, string)) => [Normalize(p.1)]
  }

  /** The declared set in the order it is printed. */
  function DeclaredListing(root: Node): seq<string> {
    Listing(FlatMap(Served(), AllPaths(root)))
  }

  function StaleViolations(root: Node, generated: string): seq<Violation> {
    match SourceAt(root, DECLARED)
    case Unreadable => [MissingDeclaredPaths]
    case Unparsable(text) => if text == generated then [] else [StaleDeclaredPaths]
    case Parsed(text, _) => if text == generated then [] else [StaleDeclaredPaths]
  }

  function RouteViolations(root: Node, update: bool): seq<Violation> {
    FlatMap(FileRoutes(root), SourcesUnder(root, FEATURES))
    + (if update then [] else StaleViolations(root, Text(DeclaredListing(root))))
    + (if AllPaths(root) == [] then [NoRoutesFound] else [])
  }

  ghost predicate FileRoutesConform(root: Node, file: Path) {
    && ItemsAt(root, file).Some?
    && forall r | r in RoutesOf(ItemsAt(root, file).value) :: !r.unprotected && !NamesUser(r.path)
  }

  lemma FileRoutesExact(root: Node, file: Path)
    ensures FileRoutes(root)(file) == [] <==> FileRoutesConform(root, file)
  {
    hide FlatMap, RoutesOf, NamesUser;
    if ItemsAt(root, file).Some? {
      var routes := RoutesOf(ItemsAt(root, file).value);
      NoneUnprotected(file, routes);
      NoneNamesUser(file, routes);
    }
  }

  lemma NoneNamesUser(file: Path, routes: seq<Route>)
    ensures FlatMap(UserIds(file), FlatMap(AsPath(), routes)) == [] <==> forall r | r in routes :: !NamesUser(r.path)
  {
    hide FlatMap, NamesUser;
    var paths := FlatMap(AsPath(), routes);
    FlatMapElements(AsPath(), routes);
    FlatMapElements(UserIds(file), paths);
    forall r | r in routes ensures (r.line, r.path) in paths {
      assert (r.line, r.path) in AsPath()(r);
    }
  }

  lemma NoneUnprotected(file: Path, routes: seq<Route>)
    ensures FlatMap(Protection(file), FlatMap(AsUnprotected(), routes)) == []
            <==> forall r | r in routes :: !r.unprotected
  {
    var lines := FlatMap(AsUnprotected(), routes);
    FlatMapElements(AsUnprotected(), routes);
    FlatMapElements(Protection(file), lines);
    if lines != [] {
      assert lines[0] in lines;
    }
  }

  /** The source `file` below `src/features` declares the served path `p`. */
  ghost predicate ServesIn(root: Node, file: Path, p: string) {
    && IsSource(root, FEATURES, file) && ItemsAt(root, file).Some?
    && exists r :: r in RoutesOf(ItemsAt(root, file).value) && p == Normalize(r.path)
  }

  ghost predicate Serves(root: Node, p: string) {
    exists file :: ServesIn(root, file, p)
  }

  lemma FileServes(root: Node, file: Path, p: string)
    requires IsSource(root, FEATURES, file)
    ensures ServesIn(root, file, p) <==> exists q :: q in PathsAt(root)(file) && p == Normalize(q.1)
  {
    if ItemsAt(root, file).Some? {
      var routes := RoutesOf(ItemsAt(root, file).value);
      FlatMapElements(AsPath(), routes);
      if r :| r in routes && p == Normalize(r.path) {
        assert (r.line, r.path) in AsPath()(r);
        assert (r.line, r.path) in PathsAt(root)(file);
      }
    }
  }

  lemma DeclaredListingExact(root: Node)
    requires WellFormed(root)
    ensures Ascending(StringLess, DeclaredListing(root))
    ensures forall p :: p in DeclaredListing(root) <==> Serves(root, p)
    ensures AllPaths(root) == [] <==> forall p :: !Serves(root, p)
  {
    SourcesOf(root, FEATURES);
    StringsAreOrdered();
    SortSorts(StringLess, FlatMap(Served(), AllPaths(root)));
    FlatMapElements(Served(), AllPaths(root));
    FlatMapElements(PathsAt(root), SourcesUnder(root, FEATURES));
    forall p ensures p in DeclaredListing(root) <==> Serves(root, p) {
      ListedServes(root, p);
    }
    if AllPaths(root) != [] {
      var q := AllPaths(root)[0];
      assert q in AllPaths(root) && Normalize(q.1) in Served()(q);
      assert Normalize(q.1) in DeclaredListing(root);
    }
  }

  lemma ListedServes(root: Node, p: string)
    requires forall file :: file in SourcesUnder(root, FEATURES) <==> IsSource(root, FEATURES, file)
    requires forall q :: q in DeclaredListing(root) <==> q in FlatMap(Served(), AllPaths(root))
    ensures p in DeclaredListing(root) <==> Serves(root, p)
  {
    hide DeclaredListing, FlatMap, PathsAt, SourcesUnder, IsSource, Normalize;
    FlatMapElements(Served(), AllPaths(root));
    FlatMapElements(PathsAt(root), SourcesUnder(root, FEATURES));
    if p in DeclaredListing(root) {
      var q :| q in AllPaths(root) && p in Served()(q);
      var file :| file in SourcesUnder(root, FEATURES) && q in PathsAt(root)(file);
      FileServes(root, file, p);
    }
    if file :| ServesIn(root, file, p) {
      FileServes(root, file, p);
      var q :| q in PathsAt(root)(file) && p == Normalize(q.1);
      assert q in AllPaths(root) && p in Served()(q);
    }
  }

  lemma SourcesOf(root: Node, dir: Path)
    requires WellFormed(root)
    ensures forall p :: p in SourcesUnder(root, dir) <==> IsSource(root, dir, p)
  {
    if At(root, dir, false).Some? {
      WellFormedBelow(root, dir);
    }
    SourcesExact(root, dir);
  }

  function TextOf(source: Source): Option<string> {
    match source
    case Unreadable => None
    case Unparsable(text) => Some(text)
    case Parsed(text, _) => Some(text)
  }

  /** `declared_paths.rs` lists exactly the served paths of the tree, in order, and there are some. */
  ghost predicate DeclaredConforms(root: Node) {
    && TextOf(SourceAt(root, DECLARED)).Some?
    && (exists paths :: Lists(TextOf(SourceAt(root, DECLARED)).value, paths)
                        && forall p :: p in paths <==> Serves(root, p))
    && exists p :: Serves(root, p)
  }

  lemma StaleExact(root: Node)
    requires WellFormed(root)
    ensures StaleViolations(root, Text(DeclaredListing(root))) == [] && AllPaths(root) != [] <==> DeclaredConforms(root)
  {
    hide Text, Lists, DeclaredListing, AllPaths, Serves;
    DeclaredListingExact(root);
    var listing := DeclaredListing(root);
    if TextOf(SourceAt(root, DECLARED)).Some? {
      ListsTheSet(TextOf(SourceAt(root, DECLARED)).value, listing);
    }
  }

  // ---------------------------------------------------------------- wire format and entities

  predicate SingleWord(name: string) {
    forall c | c in name :: 'a' <= c <= 'z' || '0' <= c <= '9'
  }

  function FieldFormat(file: Path, struct: string, camelCase: bool): Field -> seq<Violation> {
    (f: Field) =>
      if f.name.Some? && !camelCase && !SingleWord(f.name.value) && !f.renamed
      then [SnakeCaseField(file, struct, f.name.value)] else []
  }

  function ItemFormat(file: Path): Item -> seq<Violation> {
    (item: Item) =>
      if item.Struct? && "ToSchema" in item.derives
      then FlatMap(FieldFormat(file, item.name, item.camelCase), item.fields) else []
  }

  function FileFormat(root: Node): Path -> seq<Violation> {
    (file: Path) =>
      match ItemsAt(root, file) case None => [BadSource(file)] case Some(items) => FlatMap(ItemFormat(file), items)
  }

  ghost predicate FileFormatConforms(root: Node, file: Path) {
    && ItemsAt(root, file).Some?
    && forall item | item in ItemsAt(root, file).value && item.Struct? && "ToSchema" in item.derives ::
         !item.camelCase ==> forall f | f in item.fields && f.name.Some? :: SingleWord(f.name.value) || f.renamed
  }

  lemma FileFormatExact(root: Node, file: Path)
    ensures FileFormat(root)(file) == [] <==> FileFormatConforms(root, file)
  {
    if ItemsAt(root, file).Some? {
      var items := ItemsAt(root, file).value;
      FlatMapElements(ItemFormat(file), items);
      forall item | item in items && item.Struct? && "ToSchema" in item.derives
        ensures ItemFormat(file)(item) == [] <==>
                (item.camelCase || forall f | f in item.fields && f.name.Some? :: SingleWord(f.name.value) || f.renamed)
      {
        FlatMapElements(FieldFormat(file, item.name, item.camelCase), item.fields);
      }
    }
  }

  function ItemEntity(file: Path): Item -> seq<Violation> {
    (item: Item) => if item.Struct? && "Serialize" in item.derives then [SerializableEntity(file, item.line)] else []
  }

  function FileEntities(root: Node): Path -> seq<Violation> {
    (file: Path) =>
      match ItemsAt(root, file) case None => [BadSource(file)] case Some(items) => FlatMap(ItemEntity(file), items)
  }

  ghost predicate FileEntitiesConform(root: Node, file: Path) {
    && ItemsAt(root, file).Some?
    && forall item | item in ItemsAt(root, file).value && item.Struct? :: "Serialize" !in item.derives
  }

  lemma FileEntitiesExact(root: Node, file: Path)
    ensures FileEntities(root)(file) == [] <==> FileEntitiesConform(root, file)
  {
    if ItemsAt(root, file).Some? {
      FlatMapElements(ItemEntity(file), ItemsAt(root, file).value);
    }
  }

  // ---------------------------------------------------------------- environment

  /** An unreadable file is passed over in silence. */
  function FileEnvironment(root: Node): Path -> seq<Violation> {
    (file: Path) =>
      if file == CONFIG || file in ENV_ALLOWLIST then []
      else match TextOf(SourceAt(root, file))
        case None => []
        case Some(text) => if Contains(text, "std::env") then [ReadsEnvironment(file)] else []
  }

  ghost predicate FileEnvironmentConforms(root: Node, file: Path) {
    file == CONFIG || file in ENV_ALLOWLIST ||
    (TextOf(SourceAt(root, file)).Some? && !Contains(TextOf(SourceAt(root, file)).value, "std::env"))
  }

  // ---------------------------------------------------------------- the verdict

  function LaterViolations(root: Node): seq<Violation> {
    FlatMap(FileFormat(root), SourcesUnder(root, FEATURES))
    + FlatMap(FileEntities(root), SourcesUnder(root, ENTITIES))
    + FlatMap(FileEnvironment(root), SourcesUnder(root, SRC))
  }

  function Violations(root: Node): seq<Violation> {
    ShapeViolations(root) + ImportViolations(root) + RouteViolations(root, false) + LaterViolations(root)
  }

  /** What the checker is for, said of every source and in no order. */
  ghost predicate Conforms(root: Node) {
    && ShapeConforms(root)
    && (forall file | IsSource(root, SRC, file) :: FileImportsConform(root, file))
    && (forall file | IsSource(root, FEATURES, file) :: FileRoutesConform(root, file))
    && DeclaredConforms(root)
    && (forall file | IsSource(root, FEATURES, file) :: FileFormatConforms(root, file))
    && (forall file | IsSource(root, ENTITIES, file) :: FileEntitiesConform(root, file))
    && (forall file | IsSource(root, SRC, file) :: FileEnvironmentConforms(root, file))
  }

  lemma FlatMapClean(f: Path -> seq<Violation>, files: seq<Path>)
    ensures FlatMap(f, files) == [] <==> forall file | file in files :: f(file) == []
  {
    FlatMapElements(f, files);
  }

  lemma ImportsExact(root: Node)
    requires WellFormed(root)
    ensures ImportViolations(root) == [] <==> forall file | IsSource(root, SRC, file) :: FileImportsConform(root, file)
  {
    SourcesOf(root, SRC);
    FlatMapClean(FileImports(root), SourcesUnder(root, SRC));
    forall file { FileImportsExact(root, file); }
  }

  lemma RoutesExact(root: Node)
    requires WellFormed(root)
    ensures RouteViolations(root, false) == [] <==>
            && (forall file | IsSource(root, FEATURES, file) :: FileRoutesConform(root, file))
            && DeclaredConforms(root)
  {
    SourcesOf(root, FEATURES);
    FlatMapClean(FileRoutes(root), SourcesUnder(root, FEATURES));
    forall file { FileRoutesExact(root, file); }
    StaleExact(root);
  }

  /** The environment pass skips unreadable files; the import pass has recorded each of them. */
  lemma LaterExact(root: Node)
    requires WellFormed(root) && ImportViolations(root) == []
    ensures LaterViolations(root) == [] <==>
            && (forall file | IsSource(root, FEATURES, file) :: FileFormatConforms(root, file))
            && (forall file | IsSource(root, ENTITIES, file) :: FileEntitiesConform(root, file))
            && (forall file | IsSource(root, SRC, file) :: FileEnvironmentConforms(root, file))
  {
    hide FlatMap, SourcesUnder, IsSource, FileFormat, FileEntities, FileFormatConforms, FileEntitiesConform,
         ImportViolations;
    SourcesOf(root, FEATURES);
    SourcesOf(root, ENTITIES);
    SourcesOf(root, SRC);
    ImportsExact(root);
    FlatMapClean(FileFormat(root), SourcesUnder(root, FEATURES));
    FlatMapClean(FileEntities(root), SourcesUnder(root, ENTITIES));
    FlatMapClean(FileEnvironment(root), SourcesUnder(root, SRC));
    forall file { FileFormatExact(root, file); }
    forall file { FileEntitiesExact(root, file); }
    forall file | IsSource(root, SRC, file)
      ensures FileEnvironment(root)(file) == [] <==> FileEnvironmentConforms(root, file)
    {
      assert FileImportsConform(root, file);
    }
  }

  /** Soundness and completeness: the checker finds nothing exactly on the trees that conform. */
  lemma VerdictExact(root: Node)
    requires WellFormed(root)
    ensures Violations(root) == [] <==> Conforms(root)
  {
    hide ShapeViolations, ImportViolations, RouteViolations, LaterViolations, ShapeConforms, DeclaredConforms,
         IsSource, FileImportsConform, FileRoutesConform, FileFormatConforms, FileEntitiesConform,
         FileEnvironmentConforms;
    ShapeExact(root);
    ImportsExact(root);
    RoutesExact(root);
    if ImportViolations(root) == [] {
      LaterExact(root);
    }
  }
}
