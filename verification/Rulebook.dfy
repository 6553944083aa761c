/**
 The rules of the checker written out: every place, name and word spelled, and the files said by the
 directories that lead to them. No predicate of the passes stands in it; the verdict is proved to be
 exactly this.
 */
module Rulebook {
  import opened Wrappers
  import opened Order
  import opened Scanner
  import opened UseTrees
  import opened DeclaredPaths
  import opened Literals
  import opened RoutePaths
  import opened SourceTree
  import opened Tidy
  import opened Unlistable
  import opened Checker
  import opened Regeneration
  import opened Rewriting

  // ---------------------------------------------------------------- files

  ghost predicate EndsInRs(name: string) {
    exists stem :: stem != "" && name == stem + ".rs"
  }

  /** A Rust file below `dir` down to which every directory, `dir` included, can be listed. */
  ghost predicate Reached(root: Node, dir: Path, p: Path) {
    && dir < p && EndsInRs(p[|p| - 1]) && FileAt(root, p, false).Some?
    && forall k | |dir| <= k < |p| :: ListableAt(root, p[..k])
  }

  function ItemsOf(root: Node, p: Path): Option<seq<Item>> {
    match FileAt(root, p, false)
    case Some(Parsed(_, items)) => Some(items)
    case _ => None
  }

  function Contents(root: Node, p: Path): Option<string> {
    match FileAt(root, p, false)
    case Some(Parsed(text, _)) => Some(text)
    case Some(Unparsable(text)) => Some(text)
    case _ => None
  }

  lemma ReachedIsSource(root: Node, dir: Path, p: Path)
    ensures Reached(root, dir, p) <==> IsSource(root, dir, p)
  {
    SourceIffListable(root, dir, p);
    if dir < p {
      var name := p[|p| - 1];
      if HasRsExtension(name) {
        assert name == name[..|name| - 3] + ".rs";
      }
      if stem :| stem != "" && name == stem + ".rs" {
        assert name[|name| - 3..] == ".rs";
      }
      assert p[..|dir|] == dir;
    }
  }

  // ---------------------------------------------------------------- the rules

  ghost predicate DefinesFn(root: Node, p: Path, name: string) {
    ItemsOf(root, p).Some? && exists item :: item in ItemsOf(root, p).value && item.Fn? && item.name == name
  }

  /** Every feature directory has a `mod.rs` with `fn routes`, every verb directory in one that can be
      listed a `mod.rs` with `fn route`. */
  ghost predicate KeepsShape(root: Node) {
    match At(root, ["src", "features"], false)
    case Some(Dir(true, features)) =>
      forall f | f in features && f.node.Dir? ::
        && DefinesFn(root, ["src", "features", f.name, "mod.rs"], "routes")
        && (f.node.listable ==> forall v | v in f.node.entries && v.node.Dir? ::
              DefinesFn(root, ["src", "features", f.name, v.name, "mod.rs"], "route"))
    case _ => false
  }

  ghost predicate TakesEntities(leaf: Leaf) {
    ["sea_orm"] <= leaf.0 || ["crate", "entities"] <= leaf.0
  }

  /** Services, the entities themselves, and seven files by name. */
  ghost predicate MayTakeEntities(p: Path) {
    || (p != [] && p[|p| - 1] == "service.rs")
    || ["src", "entities"] < p
    || p in {["src", "auth.rs"], ["src", "service_error.rs"], ["src", "main.rs"], ["src", "state.rs"],
             ["src", "features", "stores", "mapper.rs"], ["src", "features", "test_support.rs"],
             ["src", "features", "auth", "mod.rs"]}
  }

  ghost predicate HoldsHandler(items: seq<Item>) {
    exists item, a: Attribute :: item in items && item.Fn? && a in item.attrs && a.path == ["utoipa", "path"]
  }

  /** Handlers by file name or by attribute, and two files by name. */
  ghost predicate MayTakeHttpError(p: Path, items: seq<Item>) {
    || (p != [] && p[|p| - 1] == "handler.rs")
    || p in {["src", "error.rs"], ["src", "auth.rs"]}
    || HoldsHandler(items)
  }

  ghost predicate MayTake(p: Path, items: seq<Item>, leaf: Leaf) {
    && (TakesEntities(leaf) ==> MayTakeEntities(p))
    && (leaf == (["crate", "error"], "HttpError") ==> MayTakeHttpError(p, items))
  }

  ghost predicate TakesWhatItMay(p: Path, items: seq<Item>) {
    forall item, leaf | item in items && item.Use? && leaf in Leaves([], item.tree) :: MayTake(p, items, leaf)
  }

  /** Every source parses and imports what it may. */
  ghost predicate KeepsImports(root: Node) {
    forall p | Reached(root, ["src"], p) :: ItemsOf(root, p).Some? && TakesWhatItMay(p, ItemsOf(root, p).value)
  }

  /** The items declare the route by a `utoipa::path` attribute of a function. */
  ghost predicate DeclaresRoute(items: seq<Item>, route: Route) {
    exists item, a: Attribute :: item in items && item.Fn? && a in item.attrs && IsRouteOf(a, route)
  }

  /** The attribute `#[utoipa::path(..)]` declares the route. */
  predicate IsRouteOf(a: Attribute, route: Route) {
    a.path == ["utoipa", "path"] && a.tokens.Some? && RouteOf(a.tokens.value) == Some(route)
  }

  /** Every feature source parses, and its routes are protected and name no user. */
  ghost predicate KeepsRoutes(root: Node) {
    forall p | Reached(root, ["src", "features"], p) ::
      && ItemsOf(root, p).Some?
      && forall route | DeclaresRoute(ItemsOf(root, p).value, route) :: !route.unprotected && !NamesUser(route.path)
  }

  /** Some feature source declares the route that is served as `q`, under `/api`. */
  ghost predicate ServedAs(root: Node, q: string) {
    exists p, route :: Reached(root, ["src", "features"], p) && ItemsOf(root, p).Some?
                       && DeclaresRoute(ItemsOf(root, p).value, route)
                       && q == if "/api" <= route.path then route.path else "/api" + route.path
  }

  /** `a` is a proper beginning of `b`, or has the smaller character where they first differ. */
  ghost predicate Before(a: string, b: string) {
    exists k: nat :: k <= |a| && k < |b| && a[..k] == b[..k] && (k < |a| ==> a[k] as int < b[k] as int)
  }

  ghost predicate InOrder(paths: seq<string>) {
    forall i, j | 0 <= i < j < |paths| :: Before(paths[i], paths[j])
  }

  /** The generated file lists what is served, in order, and something is. */
  ghost predicate KeepsDeclared(root: Node) {
    var text := Contents(root, ["src", "features", "declared_paths.rs"]);
    && text.Some?
    && (exists paths :: Parse(text.value) == Some(paths) && InOrder(paths)
                        && forall q :: q in paths <==> ServedAs(root, q))
    && exists q :: ServedAs(root, q)
  }

  /** Named fields of a DTO are in lower case and digits alone, or renamed, or the DTO is camelCase. */
  ghost predicate KeepsFormat(root: Node) {
    forall p | Reached(root, ["src", "features"], p) ::
      && ItemsOf(root, p).Some?
      && forall item, f | item in ItemsOf(root, p).value && item.Struct? && f in item.fields && f.name.Some? ::
           "ToSchema" in item.derives && !item.camelCase && !f.renamed ==>
             forall c | c in f.name.value :: c in "abcdefghijklmnopqrstuvwxyz0123456789"
  }

  ghost predicate KeepsEntities(root: Node) {
    forall p | Reached(root, ["src", "entities"], p) ::
      && ItemsOf(root, p).Some?
      && forall item | item in ItemsOf(root, p).value && item.Struct? :: "Serialize" !in item.derives
  }

  /** No source but two has `std::env` in its text. */
  ghost predicate KeepsEnvironment(root: Node) {
    forall p | Reached(root, ["src"], p) && p !in {["src", "config.rs"], ["src", "features", "test_support.rs"]} ::
      && Contents(root, p).Some?
      && forall before, after :: Contents(root, p).value != before + "std::env" + after
  }

  ghost predicate Obeys(root: Node) {
    && KeepsShape(root) && KeepsImports(root) && KeepsRoutes(root) && KeepsDeclared(root)
    && KeepsFormat(root) && KeepsEntities(root) && KeepsEnvironment(root)
  }

  // ---------------------------------------------------------------- the passes enforce them

  lemma SameReading(root: Node, p: Path)
    ensures ItemsOf(root, p) == ItemsAt(root, p) && Contents(root, p) == TextOf(SourceAt(root, p))
  {
  }

  lemma ShapeIsKept(root: Node)
    ensures ShapeConforms(root) <==> KeepsShape(root)
  {
    assert FEATURES == ["src", "features"];
    forall p { SameReading(root, p); }
    if FeatureEntries(root).Some? {
      forall f | f in FeatureEntries(root).value && f.node.Dir?
        ensures FeatureMod(f.name) == ["src", "features", f.name, "mod.rs"]
      {
      }
      forall f: string, v: string ensures VerbMod(f, v) == ["src", "features", f, v, "mod.rs"] {
      }
    }
  }

  lemma EntitiesRule(file: Path, leaf: Leaf)
    ensures IsEntityImport(leaf) <==> TakesEntities(leaf)
    ensures AllowsEntities(file) <==> MayTakeEntities(file)
  {
  }

  lemma HttpErrorRule(file: Path, items: seq<Item>)
    ensures AllowsHttpError(file, items) <==> MayTakeHttpError(file, items)
  {
  }

  lemma FileImportsAreKept(root: Node, p: Path)
    ensures FileImportsConform(root, p) <==> ItemsOf(root, p).Some? && TakesWhatItMay(p, ItemsOf(root, p).value)
  {
    hide AllowsEntities, MayTakeEntities, AllowsHttpError, MayTakeHttpError, IsEntityImport, TakesEntities, Leaves;
    SameReading(root, p);
    forall leaf { EntitiesRule(p, leaf); }
    if ItemsOf(root, p).Some? {
      var items := ItemsOf(root, p).value;
      HttpErrorRule(p, items);
      forall item, leaf | item in items && item.Use? && leaf in Leaves([], item.tree)
        ensures LeafConforms(p, items, leaf) <==> MayTake(p, items, leaf)
      {
      }
    }
  }

  lemma ImportsAreKept(root: Node)
    ensures (forall file | IsSource(root, SRC, file) :: FileImportsConform(root, file)) <==> KeepsImports(root)
  {
    hide IsSource, Reached, FileImportsConform, TakesWhatItMay;
    forall p { ReachedIsSource(root, ["src"], p); }
    forall p { FileImportsAreKept(root, p); }
  }

  lemma ItemDeclares(item: Item, route: Route)
    ensures route in ItemRoutes()(item) <==> item.Fn? && exists a :: a in item.attrs && IsRouteOf(a, route)
  {
    hide RouteOf;
    if item.Fn? {
      FlatMapElements(AttributeRoutes(), item.attrs);
      forall a ensures route in AttributeRoutes()(a) <==> IsRouteOf(a, route) {
      }
    }
  }

  lemma RoutesAreDeclared(items: seq<Item>)
    ensures forall route :: route in RoutesOf(items) <==> DeclaresRoute(items, route)
  {
    hide IsRouteOf;
    FlatMapElements(ItemRoutes(), items);
    hide ItemRoutes;
    forall item, route { ItemDeclares(item, route); }
    forall route ensures route in RoutesOf(items) <==> DeclaresRoute(items, route) {
      if route in RoutesOf(items) {
        var item :| item in items && route in ItemRoutes()(item);
        var a :| a in item.attrs && IsRouteOf(a, route);
      }
      if DeclaresRoute(items, route) {
        var item, a :| item in items && item.Fn? && a in item.attrs && IsRouteOf(a, route);
        assert route in ItemRoutes()(item);
      }
    }
  }

  lemma RoutesAreKept(root: Node)
    ensures (forall file | IsSource(root, FEATURES, file) :: FileRoutesConform(root, file)) <==> KeepsRoutes(root)
  {
    hide IsSource, Reached, NamesUser, RoutesOf, DeclaresRoute;
    forall p { ReachedIsSource(root, ["src", "features"], p); }
    forall p { SameReading(root, p); }
    forall items { RoutesAreDeclared(items); }
  }

  lemma ServedIsServed(root: Node, q: string)
    ensures Serves(root, q) <==> ServedAs(root, q)
  {
    hide IsSource, Reached, RoutesOf, DeclaresRoute;
    forall p { ReachedIsSource(root, ["src", "features"], p); }
    forall p { SameReading(root, p); }
    forall items { RoutesAreDeclared(items); }
    if file :| ServesIn(root, file, q) {
      var r :| r in RoutesOf(ItemsAt(root, file).value) && q == Normalize(r.path);
      assert DeclaresRoute(ItemsOf(root, file).value, r);
    }
    if ServedAs(root, q) {
      var p, route :| && Reached(root, ["src", "features"], p) && ItemsOf(root, p).Some?
                      && DeclaresRoute(ItemsOf(root, p).value, route)
                      && q == if "/api" <= route.path then route.path else "/api" + route.path;
      assert route in RoutesOf(ItemsAt(root, p).value) && q == Normalize(route.path);
      assert ServesIn(root, p, q);
    }
  }

  /** The order of the generated listing, in terms of the first differing character. */
  lemma {:induction false} StringLessExact(a: string, b: string)
    ensures StringLess(a, b) <==> Before(a, b)
  {
    if a != [] && b != [] {
      StringLessExact(a[1..], b[1..]);
      if k: nat :| k <= |a| && k < |b| && a[..k] == b[..k] && (k < |a| ==> a[k] as int < b[k] as int) {
        if k > 0 {
          assert a[..k][0] == b[..k][0] && a[..k][1..] == b[..k][1..];
          assert a[1..][..k - 1] == a[..k][1..] && b[1..][..k - 1] == b[..k][1..];
          assert Before(a[1..], b[1..]);
        }
      }
      if a[0] == b[0] && Before(a[1..], b[1..]) {
        var k: nat :| k <= |a[1..]| && k < |b[1..]| && a[1..][..k] == b[1..][..k]
                      && (k < |a[1..]| ==> a[1..][k] as int < b[1..][k] as int);
        assert a[..k + 1] == [a[0]] + a[1..][..k] && b[..k + 1] == [b[0]] + b[1..][..k];
      }
      if CharLess(a[0], b[0]) {
        assert a[..0] == b[..0];
      }
    } else if b != [] {
      assert a[..0] == b[..0];
    }
  }

  lemma OrderIsOrder(paths: seq<string>)
    ensures Ascending(StringLess, paths) <==> InOrder(paths)
  {
    forall a, b { StringLessExact(a, b); }
  }

  lemma DeclaredIsKept(root: Node)
    ensures DeclaredConforms(root) <==> KeepsDeclared(root)
  {
    hide Serves, ServedAs, Parse, Ascending, InOrder;
    SameReading(root, DECLARED);
    forall q { ServedIsServed(root, q); }
    forall paths { OrderIsOrder(paths); }
    if Contents(root, DECLARED).Some? {
      var text := Contents(root, DECLARED).value;
      forall paths ensures Lists(text, paths) <==> Parse(text) == Some(paths) && InOrder(paths) {
      }
      if KeepsDeclared(root) {
        var paths :| Parse(text) == Some(paths) && InOrder(paths) && forall q :: q in paths <==> ServedAs(root, q);
        assert Lists(text, paths);
      }
    }
  }

  lemma LowerOrDigit(c: char)
    ensures 'a' <= c <= 'z' || '0' <= c <= '9' <==> c in "abcdefghijklmnopqrstuvwxyz0123456789"
  {
    LowerLetter(c);
    Digit(c);
    var letters, digits := "abcdefghijklmnopqrstuvwxyz", "0123456789";
    assert letters + digits == "abcdefghijklmnopqrstuvwxyz0123456789";
    assert c in letters + digits <==> c in letters || c in digits;
  }

  lemma LowerLetter(c: char)
    ensures 'a' <= c <= 'z' <==> c in "abcdefghijklmnopqrstuvwxyz"
  {
  }

  lemma Digit(c: char)
    ensures '0' <= c <= '9' <==> c in "0123456789"
  {
  }

  lemma FormatIsKept(root: Node)
    ensures (forall file | IsSource(root, FEATURES, file) :: FileFormatConforms(root, file)) <==> KeepsFormat(root)
  {
    hide IsSource, Reached;
    forall p { ReachedIsSource(root, ["src", "features"], p); }
    forall p { SameReading(root, p); }
    forall c { LowerOrDigit(c); }
  }

  lemma EntitiesAreKept(root: Node)
    ensures (forall file | IsSource(root, ENTITIES, file) :: FileEntitiesConform(root, file)) <==> KeepsEntities(root)
  {
    hide IsSource, Reached;
    forall p { ReachedIsSource(root, ["src", "entities"], p); }
    forall p { SameReading(root, p); }
  }

  lemma ContainsIsSplit(s: string, word: string)
    ensures Contains(s, word) <==> exists before, after :: s == before + word + after
  {
    if Contains(s, word) {
      var k :| 0 <= k <= |s| - |word| && OccursAt(s, word, k);
      assert s == s[..k] + word + s[k + |word|..];
    }
    if before, after :| s == before + word + after {
      assert s[|before|..|before| + |word|] == word;
      assert OccursAt(s, word, |before|);
    }
  }

  lemma EnvironmentIsKept(root: Node)
    ensures (forall file | IsSource(root, SRC, file) :: FileEnvironmentConforms(root, file)) <==> KeepsEnvironment(root)
  {
    hide IsSource, Reached, Contains;
    forall p { ReachedIsSource(root, ["src"], p); }
    forall p { SameReading(root, p); }
    forall s { ContainsIsSplit(s, "std::env"); }
  }

  /** The verdict is the rulebook: the six passes find nothing if and only if every rule, as it is
      written out here, is kept. */
  lemma VerdictIsRulebook(root: Node)
    requires WellFormed(root)
    ensures Violations(root) == [] <==> Obeys(root)
  {
    VerdictExact(root);
    ShapeIsKept(root);
    ImportsAreKept(root);
    RoutesAreKept(root);
    DeclaredIsKept(root);
    FormatIsKept(root);
    EntitiesAreKept(root);
    EnvironmentIsKept(root);
  }

  // ---------------------------------------------------------------- who may import what

  /** Whatever the feature and the verb, and whatever it imports, a service and any file below
      `src/entities` is never accused of a SeaORM or entity import; nor a handler, a verb module with
      a route attribute, or any other file with one, of importing `HttpError`. */
  lemma NeverAccused(root: Node, file: Path)
    requires ItemsOf(root, file).Some?
    ensures (file != [] && file[|file| - 1] == "service.rs") || ["src", "entities"] < file ==>
              forall v | v in FileImports(root)(file) :: !v.EntityImport?
    ensures (file != [] && file[|file| - 1] == "handler.rs") || HoldsHandler(ItemsOf(root, file).value) ==>
              forall v | v in FileImports(root)(file) :: !v.HttpErrorImport?
  {
    var items := ItemsOf(root, file).value;
    SameReading(root, file);
    EntitiesRule(file, ([], ""));
    HttpErrorRule(file, items);
    var entities, http := AllowsEntities(file), AllowsHttpError(file, items);
    FlatMapElements(ItemImports(file, entities, http), items);
    hide AllowsEntities, AllowsHttpError, IsEntityImport, IsHttpErrorImport, Leaves, ItemsOf, ItemsAt;
    forall v | v in FileImports(root)(file) ensures (entities ==> !v.EntityImport?) && (http ==> !v.HttpErrorImport?) {
      var item :| item in items && v in ItemImports(file, entities, http)(item);
      FlatMapElements(LeafViolations(file, item.line, entities, http), Leaves([], item.tree));
    }
  }

  /** The file imports something in SeaORM or in the entities, or `HttpError` by name. */
  ghost predicate Imports(root: Node, file: Path, leaf: Leaf) {
    && ItemsOf(root, file).Some?
    && exists item :: item in ItemsOf(root, file).value && item.Use? && leaf in Leaves([], item.tree)
  }

  /** Whatever the feature and the verb, a handler or verb module that imports SeaORM or an entity
      keeps the run from being silent. */
  lemma HandlersMustNotTakeEntities(root: Node, feature: string, verb: string, name: string, leaf: Leaf)
    requires WellFormed(root) && name in {"handler.rs", "mod.rs"}
    requires var file := ["src", "features", feature, verb, name];
             Reached(root, ["src"], file) && Imports(root, file, leaf) && TakesEntities(leaf)
    ensures Violations(root) != []
  {
    hide Reached, ItemsOf, MayTakeEntities, MayTakeHttpError, TakesEntities, Leaves, Violations, WellFormed,
         KeepsShape, KeepsRoutes, KeepsDeclared, KeepsFormat, KeepsEntities, KeepsEnvironment;
    VerdictIsRulebook(root);
    var file := ["src", "features", feature, verb, name];
    VerbFilesMayNot(feature, verb, name);
    if TakesWhatItMay(file, ItemsOf(root, file).value) {
      MayTakeWhatItTakes(file, ItemsOf(root, file).value, leaf);
    }
  }

  lemma VerbFilesMayNot(feature: string, verb: string, name: string)
    requires name in {"handler.rs", "mod.rs"}
    ensures !MayTakeEntities(["src", "features", feature, verb, name])
  {
    var file := ["src", "features", feature, verb, name];
    assert "handler.rs"[0] == 'h' && "service.rs"[0] == 's' && "mod.rs"[0] == 'm';
    assert file[1][0] == 'f' && ["src", "entities"][1][0] == 'e';
    assert forall p: Path | p in {["src", "auth.rs"], ["src", "service_error.rs"], ["src", "main.rs"],
                                  ["src", "state.rs"], ["src", "features", "stores", "mapper.rs"],
                                  ["src", "features", "test_support.rs"], ["src", "features", "auth", "mod.rs"]} ::
        |p| < |file|;
  }

  /** And a service, or a verb module without a route attribute, that imports `HttpError` does. */
  lemma ServicesMustNotTakeHttpError(root: Node, feature: string, verb: string, name: string)
    requires WellFormed(root) && name in {"service.rs", "mod.rs"}
    requires var file := ["src", "features", feature, verb, name];
             && Reached(root, ["src"], file) && Imports(root, file, (["crate", "error"], "HttpError"))
             && !HoldsHandler(ItemsOf(root, file).value)
    ensures Violations(root) != []
  {
    hide Reached, ItemsOf, MayTakeEntities, MayTakeHttpError, TakesEntities, Leaves, Violations, WellFormed,
         HoldsHandler, KeepsShape, KeepsRoutes, KeepsDeclared, KeepsFormat, KeepsEntities, KeepsEnvironment;
    VerdictIsRulebook(root);
    var file := ["src", "features", feature, verb, name];
    VerbFilesMayNotHttp(feature, verb, name, ItemsOf(root, file).value);
    if TakesWhatItMay(file, ItemsOf(root, file).value) {
      MayTakeWhatItTakes(file, ItemsOf(root, file).value, (["crate", "error"], "HttpError"));
    }
  }

  lemma MayTakeWhatItTakes(file: Path, items: seq<Item>, leaf: Leaf)
    requires TakesWhatItMay(file, items)
    requires exists item :: item in items && item.Use? && leaf in Leaves([], item.tree)
    ensures MayTake(file, items, leaf)
  {
    hide MayTake, Leaves;
    var item :| item in items && item.Use? && leaf in Leaves([], item.tree);
  }

  lemma VerbFilesMayNotHttp(feature: string, verb: string, name: string, items: seq<Item>)
    requires name in {"service.rs", "mod.rs"} && !HoldsHandler(items)
    ensures !MayTakeHttpError(["src", "features", feature, verb, name], items)
  {
    assert "handler.rs"[0] == 'h' && "service.rs"[0] == 's' && "mod.rs"[0] == 'm';
  }

  // ---------------------------------------------------------------- snake case

  /** A named field with an underscore, in a DTO that is neither camelCase nor renames it, keeps the
      run from being silent. */
  lemma SnakeCaseIsFound(root: Node, file: Path, dto: Item, field: Field)
    requires WellFormed(root) && Reached(root, ["src", "features"], file) && ItemsOf(root, file).Some?
    requires dto in ItemsOf(root, file).value && dto.Struct? && "ToSchema" in dto.derives && !dto.camelCase
    requires field in dto.fields && field.name.Some? && '_' in field.name.value && !field.renamed
    ensures Violations(root) != []
  {
    VerdictIsRulebook(root);
    LowerOrDigit('_');
    hide Reached, ItemsOf, Violations, WellFormed;
  }

  // ---------------------------------------------------------------- the generated file

  /** Of two listed paths the earlier one is a beginning of the later, or has the smaller character
      where they first differ. */
  lemma ListingInOrder(root: Node)
    requires WellFormed(root)
    ensures InOrder(DeclaredListing(root)) && forall q :: q in DeclaredListing(root) <==> ServedAs(root, q)
  {
    hide DeclaredListing, Serves, ServedAs, Ascending, InOrder, WellFormed;
    DeclaredListingExact(root);
    OrderIsOrder(DeclaredListing(root));
    forall q { ServedIsServed(root, q); }
  }

  /** An update writes, at the place of the generated file and nowhere else, a text that lists what
      was served before it, in order. */
  lemma UpdateWrites(root: Node, after: Node)
    requires WellFormed(root) && Regenerated(root) == Some(after)
    ensures var text := Contents(after, ["src", "features", "declared_paths.rs"]);
            text.Some? && exists paths :: Parse(text.value) == Some(paths) && InOrder(paths)
                                          && forall q :: q in paths <==> ServedAs(root, q)
    ensures forall p | p != ["src", "features", "declared_paths.rs"] ::
              FileAt(after, p, false) == FileAt(root, p, false)
  {
    var paths := DeclaredListing(root);
    var source := Generated(Text(paths));
    ListingInOrder(root);
    ParseInvertsText(paths, Text(paths));
    WriteChangesOneFile(root, DECLARED, source, [], false);
    forall p | p != DECLARED { WriteChangesOneFile(root, DECLARED, source, p, false); }
    hide Parse, InOrder, ServedAs, Text, DeclaredListing, Write;
    assert Contents(after, DECLARED) == Some(Text(paths));
  }

  /** What an update run demands besides the write: of the tree it finds the shape, the imports and
      the routes, and that there are any; of the tree it leaves the format, the entities and the
      environment. */
  lemma UpdateDemands(root: Node, after: Node)
    requires WellFormed(root) && Regenerated(root) == Some(after)
    ensures ShapeViolations(root) == [] && ImportViolations(root) == [] && RouteViolations(root, true) == []
            && LaterViolations(after) == []
            <==>
            && KeepsShape(root) && KeepsImports(root) && KeepsRoutes(root) && (exists q :: ServedAs(root, q))
            && KeepsFormat(after) && KeepsEntities(after) && KeepsEnvironment(after)
  {
    hide ShapeViolations, ImportViolations, RouteViolations, LaterViolations, KeepsShape, KeepsImports, KeepsRoutes,
         KeepsFormat, KeepsEntities, KeepsEnvironment, ServedAs, WellFormed, IsSource, Write, Text, DeclaredListing,
         FileImportsConform, FileFormatConforms, FileEntitiesConform, FileEnvironmentConforms;
    ShapeExact(root);
    ShapeIsKept(root);
    ImportsExact(root);
    ImportsAreKept(root);
    UpdateRoutesExact(root);
    WriteKeepsWellFormed(root, DECLARED, Generated(Text(DeclaredListing(root))));
    if ImportViolations(root) == [] {
      ImportsAfterUpdate(root, after);
      ImportsExact(after);
      LaterExact(after);
      FormatIsKept(after);
      EntitiesAreKept(after);
      EnvironmentIsKept(after);
    }
  }

  lemma UpdateRoutesExact(root: Node)
    requires WellFormed(root)
    ensures RouteViolations(root, true) == [] <==> KeepsRoutes(root) && exists q :: ServedAs(root, q)
  {
    hide FlatMap, FileRoutes, AllPaths, SourcesUnder, KeepsRoutes, ServedAs, Serves, IsSource, WellFormed,
         FileRoutesConform, DeclaredListing, Ascending;
    SourcesOf(root, FEATURES);
    FlatMapClean(FileRoutes(root), SourcesUnder(root, FEATURES));
    forall file { FileRoutesExact(root, file); }
    RoutesAreKept(root);
    DeclaredListingExact(root);
    forall q { ServedIsServed(root, q); }
  }

  // ---------------------------------------------------------------- the workspace root

  /** A directory is a workspace root if it has a file `Cargo.toml` and a directory `src/features`. */
  lemma RootAsWritten(disk: Node, dir: Path)
    ensures IsWorkspaceRoot(disk, dir) <==>
            && (match At(disk, dir + ["Cargo.toml"], false) case Some(File(_)) => true case _ => false)
            && (match At(disk, dir + ["src", "features"], false) case Some(Dir(_, _)) => true case _ => false)
  {
  }

  /** What stands above the paths, ending in the constant that holds them. */
  lemma HeaderAsWritten()
    ensures HEADER == ("// @generated by tools/tidy \U{2014} " + "do not edit.\n" +
                       "// Run `cargo run -p tidy -- --update` " + "to regenerate.\n")
                      + ("//\n// Every #[utoipa::path] " + "route declared across the slices, " + "normalized\n")
                      + ("// to the served form (/api prefix). " + "The router test checks this set\n")
                      + ("// against the live spec, " + "so doc and router cannot drift.\n")
                      + ("#[cfg(test)]\npub(crate) " + "const DECLARED_API_PATHS: &[&str] = &[\n")
  {
  }

  /** The text of a path between the lines of the generated file. */
  lemma TextAsWritten(paths: seq<string>)
    ensures Text(paths) == HEADER + Lines(paths) + "];\n"
    ensures forall p | p in paths && '"' !in p && '\\' !in p :: Line(p) == "    \"" + p + "\",\n"
  {
    hide HEADER;
    forall p: string | '"' !in p && '\\' !in p ensures Escape(p) == p {
      EscapesNothing(p);
    }
  }

  /** Each line of the generated file holds a Rust string literal whose value is the path, whatever
      characters the path has. */
  lemma LineIsLiteral(p: string)
    ensures Line(p) == "    " + Quoted(Escape(p)) + ",\n" && StringValue(Quoted(Escape(p))) == Some(p)
  {
    hide Escape, Unescape, HEADER;
    EscapedValue(p);
    QuotedValue(Escape(p));
    assert OPEN == "    " + "\"" && CLOSE == "\"" + ",\n";
  }

  lemma QuotedValue(body: string)
    ensures StringValue(Quoted(body)) == Unescape(body)
  {
    hide Unescape;
    var text := Quoted(body);
    assert text[1..|text| - 1] == body;
  }

  lemma {:induction false} EscapedValue(p: string)
    ensures Unescape(Escape(p)) == Some(p)
  {
    if p != "" {
      EscapedValue(p[1..]);
      EscapedHead(p[0], Escape(p[1..]));
      assert p == [p[0]] + p[1..];
    }
  }

  lemma EscapedHead(c: char, t: string)
    requires Unescape(t).Some?
    ensures Unescape(EscapeChar(c) + t) == Some([c] + Unescape(t).value)
  {
    var u := EscapeChar(c) + t;
    if c == '\\' || c == '"' {
      assert u[0] == '\\' && u[1] == c && u[2..] == t;
      assert ReadEscape(u) == Some(([c], 2));
    } else {
      assert u[0] == c && u[1..] == t;
    }
  }

  lemma {:induction false} EscapesNothing(s: string)
    requires '"' !in s && '\\' !in s
    ensures Escape(s) == s
  {
    if s != "" {
      EscapesNothing(s[1..]);
      assert [s[0]] + s[1..] == s;
    }
  }
}
