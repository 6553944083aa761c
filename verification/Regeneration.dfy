/**
 Updating the generated file and then checking it: when that is a fixpoint, and that a second
 update always reaches one.
 */
module Regeneration {
  import opened Wrappers
  import opened Order
  import opened DeclaredPaths
  import opened SourceTree
  import opened Tidy
  import opened Rewriting
  import opened Checker

  /** After an update the routes are those the other files declare: the generated file has none. */
  lemma ServesAfterUpdate(root: Node, after: Node, p: string)
    requires Regenerated(root) == Some(after)
    ensures Serves(after, p) <==> exists file :: file != DECLARED && ServesIn(root, file, p)
  {
    var source := Generated(Text(DeclaredListing(root)));
    WriteChangesOneFile(root, DECLARED, source, [], false);
    assert SourceAt(after, DECLARED) == source;
    GeneratedHasNoRoutes();
    if file :| ServesIn(after, file, p) {
      assert file != DECLARED;
      OtherSourcesStay(root, DECLARED, source, FEATURES, file);
      assert ServesIn(root, file, p);
    }
    if file :| file != DECLARED && ServesIn(root, file, p) {
      OtherSourcesStay(root, DECLARED, source, FEATURES, file);
      assert ServesIn(after, file, p);
    }
  }

  lemma GeneratedHasNoRoutes()
    ensures RoutesOf([Other("DECLARED_API_PATHS")]) == []
  {
    assert [Other("DECLARED_API_PATHS")][..0] == [];
  }

  /** Every path the old generated file declared itself is declared by another file too. In
      particular it holds when the generated file holds no handler. */
  ghost predicate DeclaresNothingOfItsOwn(root: Node) {
    forall p | ServesIn(root, DECLARED, p) :: exists file :: file != DECLARED && ServesIn(root, file, p)
  }

  /** Regenerate, then check: after a successful update the check finds the file current exactly
      when the old generated file declared no path of its own; and exactly then a second update
      writes the same text again. */
  lemma UpdateIsFixpoint(root: Node, after: Node)
    requires WellFormed(root) && Regenerated(root) == Some(after)
    ensures StaleViolations(after, Text(DeclaredListing(after))) == [] <==> DeclaresNothingOfItsOwn(root)
    ensures Text(DeclaredListing(after)) == Text(DeclaredListing(root)) <==> DeclaresNothingOfItsOwn(root)
  {
    var text := Text(DeclaredListing(root));
    WriteKeepsWellFormed(root, DECLARED, Generated(text));
    WriteChangesOneFile(root, DECLARED, Generated(text), [], false);
    assert SourceAt(after, DECLARED) == Generated(text);
    DeclaredListingExact(root);
    DeclaredListingExact(after);
    forall p { ServesAfterUpdate(root, after, p); }
    SameListingSameText(DeclaredListing(root), DeclaredListing(after));
    if DeclaresNothingOfItsOwn(root) {
      forall p ensures Serves(root, p) <==> Serves(after, p) {
        if file :| ServesIn(root, file, p) {
          assert file == DECLARED ==> exists other :: other != DECLARED && ServesIn(root, other, p);
        }
      }
    }
    if text == Text(DeclaredListing(after)) {
      forall p | ServesIn(root, DECLARED, p) ensures exists file :: file != DECLARED && ServesIn(root, file, p) {
        assert Serves(root, p) && p in DeclaredListing(root);
        assert Serves(after, p);
      }
    }
  }

  lemma SameListingSameText(a: seq<string>, b: seq<string>)
    requires Ascending(StringLess, a) && Ascending(StringLess, b)
    ensures Text(a) == Text(b) <==> forall p :: p in a <==> p in b
  {
    StringsAreOrdered();
    ParseInvertsText(a, Text(a));
    ParseInvertsText(b, Text(a));
    if forall p :: p in a <==> p in b {
      AscendingIsUnique(StringLess, a, b);
    }
  }

  /** Whatever the old file held, after a second update the check finds it current. */
  lemma SecondUpdateSettles(root: Node, once: Node, twice: Node)
    requires WellFormed(root) && Regenerated(root) == Some(once) && Regenerated(once) == Some(twice)
    ensures StaleViolations(twice, Text(DeclaredListing(twice))) == []
    ensures Text(DeclaredListing(twice)) == Text(DeclaredListing(once))
  {
    var source := Generated(Text(DeclaredListing(root)));
    WriteKeepsWellFormed(root, DECLARED, source);
    WriteChangesOneFile(root, DECLARED, source, [], false);
    assert SourceAt(once, DECLARED) == source;
    GeneratedHasNoRoutes();
    UpdateIsFixpoint(once, twice);
  }

  // ---------------------------------------------------------------- the verdict after an update

  lemma ShapeAfterUpdate(root: Node, after: Node)
    requires Regenerated(root) == Some(after) && ShapeConforms(root)
    ensures ShapeConforms(after)
  {
    hide Text, DeclaredListing, ModDeclares;
    var source, name := Generated(Text(DeclaredListing(root))), "declared_paths.rs";
    assert DECLARED == FEATURES + [name];
    WriteReaches(root, FEATURES, [name], source);
    var dir := At(root, FEATURES, false).value;
    assert At(after, FEATURES, false) == Some(WithChild(dir, name, File(source)));
    forall feature | feature in FeatureEntries(after).value && feature.node.Dir?
      ensures FeatureConforms(after, feature)
    {
      assert feature in dir.entries;
      assert FeatureConforms(root, feature);
      ModStays(root, after, FeatureMod(feature.name), "routes");
      forall verb: Entry ensures ModDeclares(after, VerbMod(feature.name, verb.name), "route")
                              == ModDeclares(root, VerbMod(feature.name, verb.name), "route")
      {
        ModStays(root, after, VerbMod(feature.name, verb.name), "route");
      }
    }
  }

  lemma ModStays(root: Node, after: Node, path: Path, name: string)
    requires Regenerated(root) == Some(after) && |path| > |DECLARED|
    ensures ModDeclares(after, path, name) == ModDeclares(root, path, name)
  {
    WriteChangesOneFile(root, DECLARED, Generated(Text(DeclaredListing(root))), path, false);
  }

  /** What holds of every other source, and of a file without functions or imports, holds of every
      source after an update. */
  lemma SourceAfterUpdate(root: Node, after: Node, dir: Path, file: Path)
    requires Regenerated(root) == Some(after) && dir < DECLARED && IsSource(after, dir, file)
    ensures ItemsAt(after, file) == Some([Other("DECLARED_API_PATHS")])
            || (IsSource(root, dir, file) && ItemsAt(after, file) == ItemsAt(root, file))
  {
    var source := Generated(Text(DeclaredListing(root)));
    if file == DECLARED {
      WriteChangesOneFile(root, DECLARED, source, [], false);
      assert SourceAt(after, DECLARED) == source;
    } else {
      OtherSourcesStay(root, DECLARED, source, dir, file);
    }
  }

  /** An update that succeeds leaves a tree that conforms, so that the check succeeds on it, if and
      only if the old generated file declared no path of its own. */
  lemma UpdateThenCheck(root: Node, after: Node)
    requires WellFormed(root) && Regenerated(root) == Some(after)
    requires ShapeViolations(root) == [] && ImportViolations(root) == [] && RouteViolations(root, true) == []
    requires LaterViolations(after) == []
    ensures Conforms(after) <==> DeclaresNothingOfItsOwn(root)
    ensures Violations(after) == [] <==> DeclaresNothingOfItsOwn(root)
  {
    hide FlatMap, Text, Write, WellFormed, IsSource, SourcesUnder, ShapeViolations, ImportViolations, LaterViolations,
         StaleViolations, ShapeConforms, AllPaths, DeclaredConforms, FileRoutes, FileImportsConform, FileRoutesConform,
         FileFormatConforms, FileEntitiesConform, FileEnvironmentConforms, Serves, DeclaredListing, Violations,
         DeclaresNothingOfItsOwn;
    WriteKeepsWellFormed(root, DECLARED, Generated(Text(DeclaredListing(root))));
    ShapeExact(root);
    ShapeAfterUpdate(root, after);
    ImportsAfterUpdate(root, after);
    RoutesAfterUpdate(root, after);
    ImportsExact(after);
    LaterExact(after);
    StaleExact(after);
    UpdateIsFixpoint(root, after);
    ServedAfterUpdate(root, after);
    VerdictExact(after);
  }

  lemma ImportsAfterUpdate(root: Node, after: Node)
    requires WellFormed(root) && Regenerated(root) == Some(after) && ImportViolations(root) == []
    ensures forall file | IsSource(after, SRC, file) :: FileImportsConform(after, file)
  {
    hide ImportViolations, IsSource, WellFormed;
    ImportsExact(root);
    forall file | IsSource(after, SRC, file) ensures FileImportsConform(after, file) {
      SourceAfterUpdate(root, after, SRC, file);
    }
  }

  lemma RoutesAfterUpdate(root: Node, after: Node)
    requires WellFormed(root) && Regenerated(root) == Some(after) && RouteViolations(root, true) == []
    ensures forall file | IsSource(after, FEATURES, file) :: FileRoutesConform(after, file)
    ensures AllPaths(root) != []
  {
    hide IsSource, WellFormed, FlatMap, FileRoutes, SourcesUnder, RoutesOf, AllPaths;
    SourcesOf(root, FEATURES);
    FlatMapClean(FileRoutes(root), SourcesUnder(root, FEATURES));
    GeneratedHasNoRoutes();
    forall file | IsSource(after, FEATURES, file) ensures FileRoutesConform(after, file) {
      SourceAfterUpdate(root, after, FEATURES, file);
      FileRoutesExact(root, file);
    }
  }

  lemma ServedAfterUpdate(root: Node, after: Node)
    requires WellFormed(root) && WellFormed(after) && Regenerated(root) == Some(after) && AllPaths(root) != []
    ensures DeclaresNothingOfItsOwn(root) ==> AllPaths(after) != []
  {
    hide WellFormed, AllPaths, DeclaredListing, Ascending;
    DeclaredListingExact(root);
    DeclaredListingExact(after);
    if DeclaresNothingOfItsOwn(root) {
      var p :| Serves(root, p);
      ServesAfterUpdate(root, after, p);
    }
  }
}
