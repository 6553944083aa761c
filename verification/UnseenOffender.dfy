/**
 A workspace on which the run is silent although a file that can be opened offends, because a
 directory above it cannot be listed.
 */
module UnseenOffender {
  import opened Wrappers
  import opened Order
  import opened Literals
  import opened Scanner
  import opened UseTrees
  import opened DeclaredPaths
  import opened RoutePaths
  import opened SourceTree
  import opened Tidy
  import opened Unlistable

  function PingTokens(): seq<Token> {
    [Ident("path", 1), Punct('='), Literal(Quoted("/ping"))]
  }

  function PingItems(): seq<Item> {
    [Fn("ping", [Attribute(["utoipa", "path"], Some(PingTokens()))])]
  }

  function PingFeatures(): Node {
    Dir(true, [Entry("declared_paths.rs", File(Parsed(Text(["/api/ping"]), []))),
               Entry("ping.rs", File(Parsed("", PingItems())))])
  }

  function Offender(): Node {
    Dir(false, [Entry("db.rs", File(Parsed("", [Use(1, UseTree.Path("sea_orm", Glob))])))])
  }

  function Sources(): Node {
    Dir(true, [Entry("features", PingFeatures()), Entry("hidden", Offender())])
  }

  /** One handler and its generated file, and below a directory that cannot be listed a file that
      imports SeaORM. */
  function Workspace(): Node {
    Dir(true, [Entry("src", Sources())])
  }

  const PING: Path := ["src", "features", "ping.rs"]
  const OFFENDER: Path := ["src", "hidden", "db.rs"]

  lemma WorkspaceIsWellFormed()
    ensures WellFormed(Workspace())
  {
    hide Text;
    assert [Entry("features", PingFeatures()), Entry("hidden", Offender())][1..] == [Entry("hidden", Offender())];
    assert PingFeatures().entries[1..] == [Entry("ping.rs", File(Parsed("", PingItems())))];
    WellFormedOne("ping.rs", File(Parsed("", PingItems())));
    WellFormedOne("db.rs", Offender().entries[0].node);
    WellFormedOne("hidden", Offender());
    WellFormedOne("src", Sources());
  }

  lemma WellFormedOne(name: string, node: Node)
    requires WellFormed(node)
    ensures WellFormedEntries([Entry(name, node)])
  {
    assert [Entry(name, node)][1..] == [];
  }

  /** What the directories of the workspace hold. */
  lemma WorkspaceOpens()
    ensures At(Workspace(), SRC, false) == Some(Sources()) && At(Workspace(), FEATURES, false) == Some(PingFeatures())
    ensures At(Workspace(), ENTITIES, false).None?
    ensures SourceAt(Workspace(), DECLARED) == Parsed(Text(["/api/ping"]), [])
    ensures SourceAt(Workspace(), PING) == Parsed("", PingItems())
    ensures FileAt(Workspace(), OFFENDER, false) == Some(Offender().entries[0].node.source)
  {
    hide Text;
    var root := Workspace();
    OpenIn(root, "src", 0);
    OpenIn(Sources(), "features", 0);
    OpenIn(Sources(), "hidden", 1);
    OpenIn(PingFeatures(), "declared_paths.rs", 0);
    OpenIn(PingFeatures(), "ping.rs", 1);
    OpenIn(Offender(), "db.rs", 0);
    AtBelow(root, ["src"], ["features"]);
    AtBelow(root, ["src"], ["entities"]);
    AtBelow(root, ["src", "features"], ["declared_paths.rs"]);
    AtBelow(root, ["src", "features"], ["ping.rs"]);
    AtBelow(root, ["src"], ["hidden"]);
    AtBelow(root, ["src", "hidden"], ["db.rs"]);
  }

  lemma OpenIn(dir: Node, name: string, k: nat)
    requires dir.Dir? && Find(dir.entries, name) == Some(k)
    ensures At(dir, [name], false) == Some(dir.entries[k].node)
  {
    assert [name][1..] == [];
  }

  /** The sources the passes see: the generated file and the handler. */
  lemma WorkspaceSources()
    ensures forall p :: IsSource(Workspace(), SRC, p) <==> p in [DECLARED, PING]
    ensures forall p :: IsSource(Workspace(), FEATURES, p) <==> p in [DECLARED, PING]
    ensures forall p :: !IsSource(Workspace(), ENTITIES, p)
  {
    var root := Workspace();
    WorkspaceIsWellFormed();
    WorkspaceOpens();
    FeatureSources();
    hide Text, WellFormed, RustPaths, Workspace, IsSource;
    SourcesOf(root, SRC);
    SourcesOf(root, FEATURES);
    SourcesOf(root, ENTITIES);
    PathsAreOrdered();
    SortSorts(PathLess, [DECLARED, PING]);
  }

  lemma FeatureSources()
    ensures RustPaths(FEATURES, PingFeatures()) == [DECLARED, PING] && RustPaths(SRC, Sources()) == [DECLARED, PING]
  {
    hide Text;
    var entries := PingFeatures().entries;
    assert SRC + ["features"] == FEATURES;
    assert FEATURES + ["ping.rs"] == PING && FEATURES + ["declared_paths.rs"] == DECLARED;
    assert entries[1..] == [entries[1]] && [entries[1]][1..] == [];
    assert RustPathsIn(FEATURES, entries[1..]) == [PING] + [];
    assert RustPathsIn(FEATURES, entries) == [DECLARED] + [PING];
    var top := Sources().entries;
    assert top[1..] == [top[1]] && [top[1]][1..] == [];
    assert RustPathsIn(SRC, top[1..]) == [] + [];
  }

  /** `/ping` is the one route, and no rule has anything against it. */
  lemma PingRoutes()
    ensures RoutesOf(PingItems()) == [Route(1, "/ping", false)] && RoutesOf([]) == []
    ensures !NamesUser("/ping") && Normalize("/ping") == "/api/ping"
  {
    var tokens := PingTokens();
    PingPath();
    LastIsLast(PathFact, tokens, 3, 0);
    LastIsLast(TagFact, tokens, 3, 0);
    assert RouteOf(tokens) == Some(Route(1, "/ping", false));
    var attribute := Attribute(["utoipa", "path"], Some(tokens));
    FlatMapOne(AttributeRoutes(), attribute);
    FlatMapOne(ItemRoutes(), PingItems()[0]);
    NamesUserExact("/ping");
    forall k: nat ensures !UserAt("/ping", k) {
      UserAtLetters("/ping", k);
    }
  }

  lemma PingPath()
    ensures TrimQuotes(Quoted("/ping")) == "/ping"
  {
    PlainValue("/ping");
    TrimmedIsValue(Quoted("/ping"));
  }

  /** No `d` with a colon behind it, so no `std::env`. */
  ghost predicate NoPair(s: string) {
    forall k | 0 <= k < |s| - 1 :: !(s[k] == 'd' && s[k + 1] == ':')
  }

  lemma NoPairNoEnvironment(s: string)
    requires NoPair(s)
    ensures !Contains(s, "std::env")
  {
    forall k | 0 <= k <= |s| - 8 ensures !OccursAt(s, "std::env", k) {
      assert s[k..k + 8][2] == s[k + 2] && s[k..k + 8][3] == s[k + 3];
      assert "std::env"[2] == 'd' && "std::env"[3] == ':';
    }
  }

  lemma NoPairAppend(a: string, b: string)
    requires NoPair(a) && NoPair(b) && (b == "" || b[0] != ':')
    ensures NoPair(a + b)
  {
  }

  lemma WithoutColon(s: string)
    requires ':' !in s
    ensures NoPair(s) && (s != "" ==> s[0] != ':')
  {
  }

  lemma BannerHasNoPair()
    ensures NoPair(BANNER) && BANNER != "" && BANNER[0] == '/'
  {
    var a := "// @generated by tools/tidy \U{2014} ";
    WithoutColon(a);
    var b := "do not edit.\n";
    WithoutColon(b);
    var c := "// Run `cargo run -p tidy -- --update` ";
    WithoutColon(c);
    var d := "to regenerate.\n";
    WithoutColon(d);
    hide NoPair;
    NoPairAppend(a, b);
    NoPairAppend(a + b, c);
    NoPairAppend(a + b + c, d);
  }

  lemma EveryHasNoPair()
    ensures NoPair("//\n// Every #[utoipa::path] ")
  {
  }

  lemma PurposeHasNoPair()
    ensures NoPair(PURPOSE) && PURPOSE != "" && PURPOSE[0] == '/'
  {
    var a := "//\n// Every #[utoipa::path] ";
    EveryHasNoPair();
    var b := "route declared across the slices, ";
    WithoutColon(b);
    var c := "normalized\n";
    WithoutColon(c);
    hide NoPair;
    NoPairAppend(a, b);
    NoPairAppend(a + b, c);
  }

  lemma UseHasNoPair()
    ensures NoPair(USE) && USE != "" && USE[0] != ':'
  {
    var a := "// to the served form (/api prefix). ";
    WithoutColon(a);
    var b := "The router test checks this set\n";
    WithoutColon(b);
    hide NoPair;
    NoPairAppend(a, b);
  }

  lemma ReasonHasNoPair()
    ensures NoPair(REASON) && REASON != "" && REASON[0] != ':'
  {
    var a := "// against the live spec, ";
    WithoutColon(a);
    var b := "so doc and router cannot drift.\n";
    WithoutColon(b);
    hide NoPair;
    NoPairAppend(a, b);
  }

  lemma ConstantHasNoPair()
    ensures NoPair("const DECLARED_API_PATHS: &[&str] = &[\n")
  {
  }

  lemma DeclarationHasNoPair()
    ensures NoPair(DECLARATION) && DECLARATION != "" && DECLARATION[0] == '#'
  {
    var a := "#[cfg(test)]\npub(crate) ";
    WithoutColon(a);
    var b := "const DECLARED_API_PATHS: &[&str] = &[\n";
    ConstantHasNoPair();
    hide NoPair;
    assert b[0] == 'c';
    NoPairAppend(a, b);
  }

  /** The generated file does not read the environment. */
  lemma GeneratedHasNoEnvironment()
    ensures !Contains(Text(["/api/ping"]), "std::env")
  {
    BannerHasNoPair();
    PurposeHasNoPair();
    UseHasNoPair();
    ReasonHasNoPair();
    DeclarationHasNoPair();
    hide BANNER, PURPOSE, USE, REASON, DECLARATION, Contains, NoPair;
    NoPairAppend(BANNER, PURPOSE);
    NoPairAppend(BANNER + PURPOSE, USE);
    NoPairAppend(BANNER + PURPOSE + USE, REASON);
    NoPairAppend(BANNER + PURPOSE + USE + REASON, DECLARATION);
    PingLine();
    WithoutColon(FOOTER);
    NoPairAppend(HEADER, Lines(["/api/ping"]));
    NoPairAppend(HEADER + Lines(["/api/ping"]), FOOTER);
    NoPairNoEnvironment(Text(["/api/ping"]));
  }

  lemma PingLine()
    ensures var lines := Lines(["/api/ping"]); NoPair(lines) && lines != "" && lines[0] != ':'
  {
    var path := "/api/ping";
    WithoutColon(path);
    EscapeNothing(path);
    LineHasNoPair(path);
    hide Line;
    assert [path][1..] == [];
    assert Lines([path]) == Line(path) + Lines([]) == Line(path);
  }

  lemma LineHasNoPair(path: string)
    requires NoPair(path) && (path != "" ==> path[0] != ':') && Escape(path) == path
    ensures NoPair(Line(path)) && Line(path) != "" && Line(path)[0] != ':'
  {
    assert OPEN != "" && NoPair(OPEN) && NoPair(CLOSE) && OPEN[0] != ':' && CLOSE[0] != ':';
    hide NoPair, OPEN, CLOSE;
    NoPairAppend(OPEN, path);
    NoPairAppend(OPEN + path, CLOSE);
  }

  lemma {:induction false} EscapeNothing(s: string)
    requires '\\' !in s && '"' !in s
    ensures Escape(s) == s
  {
    if s != "" {
      EscapeNothing(s[1..]);
      assert [s[0]] + s[1..] == s;
    }
  }

  lemma WorkspaceServes()
    ensures forall p :: Serves(Workspace(), p) <==> p == "/api/ping"
  {
    var root := Workspace();
    WorkspaceSources();
    WorkspaceOpens();
    PingRoutes();
    hide Workspace, IsSource, Text, PingItems, RoutesOf, Normalize;
    assert ItemsAt(root, PING) == Some(PingItems()) && ItemsAt(root, DECLARED) == Some([]);
    forall p ensures Serves(root, p) <==> p == "/api/ping" {
      if p == "/api/ping" {
        assert ServesIn(root, PING, p);
      }
    }
  }

  lemma WorkspaceListsItsRoutes()
    ensures DeclaredConforms(Workspace())
  {
    hide Workspace, Text, Serves, Parse, SourceAt, DECLARED;
    var root, paths := Workspace(), ["/api/ping"];
    WorkspaceServes();
    WorkspaceOpens();
    ParseInvertsText(paths, Text(paths));
    assert TextOf(SourceAt(root, DECLARED)) == Some(Text(paths));
    assert Lists(Text(paths), paths);
    assert forall p :: p in paths <==> Serves(root, p);
    assert Serves(root, "/api/ping");
  }

  lemma WorkspaceFilesConform(file: Path)
    requires file in [DECLARED, PING]
    ensures FileImportsConform(Workspace(), file) && FileRoutesConform(Workspace(), file)
    ensures FileFormatConforms(Workspace(), file) && FileEnvironmentConforms(Workspace(), file)
  {
    var root := Workspace();
    WorkspaceOpens();
    PingRoutes();
    GeneratedHasNoEnvironment();
    hide Workspace, Text, RoutesOf, NamesUser;
    if file == PING {
      assert ItemsAt(root, file) == Some(PingItems()) && TextOf(SourceAt(root, file)) == Some("");
      assert !Contains("", "std::env");
    } else {
      assert ItemsAt(root, file) == Some([]) && TextOf(SourceAt(root, file)) == Some(Text(["/api/ping"]));
    }
  }

  lemma WorkspaceHasShape()
    ensures ShapeConforms(Workspace())
  {
    WorkspaceOpens();
    hide Text, PingItems;
    assert FeatureEntries(Workspace()) == Some(PingFeatures().entries);
  }

  /** A run over this workspace finds nothing. */
  lemma WorkspaceIsSilent()
    ensures Violations(Workspace()) == []
  {
    hide Workspace, IsSource, Violations, ShapeConforms, DeclaredConforms, FileImportsConform, FileRoutesConform,
         FileFormatConforms, FileEntitiesConform, FileEnvironmentConforms, WellFormed, SRC, FEATURES, ENTITIES,
         DECLARED, PING;
    WorkspaceIsWellFormed();
    WorkspaceSources();
    WorkspaceListsItsRoutes();
    WorkspaceHasShape();
    forall file | file in [DECLARED, PING] {
      WorkspaceFilesConform(file);
    }
    VerdictExact(Workspace());
  }

  /** A file below the unlistable directory imports SeaORM where it must not, and the run is silent. */
  lemma UnlistableHidesOffender()
    ensures Violations(Workspace()) == [] && !ConformsThroughout(Workspace())
    ensures Hidden(Workspace(), SRC, OFFENDER) && !FileImportsConform(Workspace(), OFFENDER)
  {
    WorkspaceIsSilent();
    OffenderIsHidden();
    OffenderOffends();
    hide Workspace, Violations, FileImportsConform, IsSource, SRC, OFFENDER;
  }

  lemma OffenderIsHidden()
    ensures Hidden(Workspace(), SRC, OFFENDER)
  {
    hide Workspace, IsSource, Text, PingItems;
    WorkspaceOpens();
    WorkspaceSources();
    assert OFFENDER !in [DECLARED, PING];
  }

  lemma OffenderOffends()
    ensures !FileImportsConform(Workspace(), OFFENDER)
  {
    var tree := UseTree.Path("sea_orm", Glob);
    var items := [Use(1, tree)];
    OffenderItems();
    OffenderMayNot();
    hide Workspace, ItemsAt, OFFENDER, AllowsEntities, AllowsHttpError, HasRouteAttribute, IsHttpErrorImport;
    assert [] + ["sea_orm"] == ["sea_orm"] && Leaves([], tree) == [(["sea_orm"], "*")];
    assert (["sea_orm"], "*") in Leaves([], tree) && items[0] in items;
    assert !LeafConforms(OFFENDER, items, (["sea_orm"], "*"));
  }

  lemma OffenderItems()
    ensures ItemsAt(Workspace(), OFFENDER) == Some([Use(1, UseTree.Path("sea_orm", Glob))])
  {
    WorkspaceOpens();
    hide Workspace, Text;
  }

  lemma OffenderMayNot()
    ensures !AllowsEntities(OFFENDER)
  {
    assert |SourceTree.Last(OFFENDER)| == 5 && |"service.rs"| == 10;
    assert |OFFENDER[1]| == 6 && ENTITIES[1] == "entities" && |ENTITIES[1]| == 8;
    assert forall path | path in ENTITY_IMPORT_ALLOWLIST :: |path| >= 2 && |path[1]| > 6;
  }
}
