/**
 What the checker's silence says of files below directories that can be opened but not listed: the
 passes skip those directories, so nothing; and everything, if there are none.
 */
module Unlistable {
  import opened Wrappers
  import opened DeclaredPaths
  import opened SourceTree
  import opened Tidy

  /** A Rust file below `dir` that can be opened, whether or not an enumeration reaches it. */
  predicate CanOpen(root: Node, dir: Path, p: Path) {
    && dir < p && HasRsExtension(SourceTree.Last(p)) && FileAt(root, p, false).Some?
    && At(root, dir, false).Some? && At(root, dir, false).value.Dir?
  }

  predicate Hidden(root: Node, dir: Path, p: Path) {
    CanOpen(root, dir, p) && !IsSource(root, dir, p)
  }

  /** Every directory from `dir` down to the file can be listed. */
  ghost predicate ListableDownTo(root: Node, dir: Path, p: Path)
    requires dir < p
  {
    forall k | |dir| <= k < |p| :: ListableAt(root, p[..k])
  }

  /** The enumeration reaches a file exactly if every directory down to it can be listed. */
  lemma SourceIffListable(root: Node, dir: Path, p: Path)
    ensures IsSource(root, dir, p) <==> CanOpen(root, dir, p) && ListableDownTo(root, dir, p)
  {
    if dir < p && At(root, dir, false).Some? {
      var node, rel := At(root, dir, false).value, p[|dir|..];
      assert p == dir + rel && SourceTree.Last(p) == SourceTree.Last(rel);
      AtBelow(root, dir, rel);
      if At(node, rel, false).Some? {
        ReachedIffListable(node, rel);
        forall k | 0 <= k < |rel| ensures ListableAt(node, rel[..k]) == ListableAt(root, p[..|dir| + k]) {
          assert p[..|dir| + k] == dir + rel[..k];
          AtBelow(root, dir, rel[..k]);
        }
        if forall k | 0 <= k < |rel| :: ListableAt(node, rel[..k]) {
          forall k | |dir| <= k < |p| ensures ListableAt(root, p[..k]) {
            assert ListableAt(node, rel[..k - |dir|]);
          }
        }
        if ListableDownTo(root, dir, p) {
          forall k | 0 <= k < |rel| ensures ListableAt(node, rel[..k]) {
            assert ListableAt(root, p[..|dir| + k]);
          }
        }
      } else {
        NotReachedUnopened(node, rel);
      }
    }
  }

  lemma {:induction false} NotReachedUnopened(node: Node, path: Path)
    requires At(node, path, false).None?
    ensures At(node, path, true).None?
    decreases |path|
  {
    if path != [] && node.Dir? && Child(node, path[0]).Some? {
      NotReachedUnopened(Child(node, path[0]).value, path[1..]);
    }
  }

  // ---------------------------------------------------------------- conforming throughout

  ghost predicate DeclaresServed(root: Node, file: Path, p: string) {
    ItemsAt(root, file).Some? && exists r :: r in RoutesOf(ItemsAt(root, file).value) && p == Normalize(r.path)
  }

  ghost predicate ServesThroughout(root: Node, p: string) {
    exists file :: CanOpen(root, FEATURES, file) && DeclaresServed(root, file, p)
  }

  /** `declared_paths.rs` lists the routes of every file that can be opened. */
  ghost predicate DeclaredThroughout(root: Node) {
    && TextOf(SourceAt(root, DECLARED)).Some?
    && (exists paths :: Lists(TextOf(SourceAt(root, DECLARED)).value, paths)
                        && forall p :: p in paths <==> ServesThroughout(root, p))
    && exists p :: ServesThroughout(root, p)
  }

  ghost predicate VerbsConform(root: Node, feature: Entry)
    requires feature.node.Dir?
  {
    forall verb | verb in feature.node.entries && verb.node.Dir? ::
      ModDeclares(root, VerbMod(feature.name, verb.name), "route")
  }

  /** Every feature and verb directory has its module, listable or not. */
  ghost predicate ShapeThroughout(root: Node) {
    && FeatureEntries(root).Some?
    && forall feature | feature in FeatureEntries(root).value && feature.node.Dir? ::
         ModDeclares(root, FeatureMod(feature.name), "routes") && VerbsConform(root, feature)
  }

  /** What the checker is for, said of every file that can be opened. */
  ghost predicate ConformsThroughout(root: Node) {
    && ShapeThroughout(root)
    && (forall file | CanOpen(root, SRC, file) :: FileImportsConform(root, file))
    && (forall file | CanOpen(root, FEATURES, file) :: FileRoutesConform(root, file))
    && DeclaredThroughout(root)
    && (forall file | CanOpen(root, FEATURES, file) :: FileFormatConforms(root, file))
    && (forall file | CanOpen(root, ENTITIES, file) :: FileEntitiesConform(root, file))
    && (forall file | CanOpen(root, SRC, file) :: FileEnvironmentConforms(root, file))
  }

  ghost predicate HiddenVerbsConform(root: Node) {
    FeatureEntries(root).Some? ==>
      forall feature | feature in FeatureEntries(root).value && feature.node.Dir? && !feature.node.listable ::
        VerbsConform(root, feature)
  }

  /** What the hidden files must do for that: conform, and declare no path of their own. */
  ghost predicate HiddenConform(root: Node) {
    && HiddenVerbsConform(root)
    && (forall file | Hidden(root, SRC, file) :: FileImportsConform(root, file) && FileEnvironmentConforms(root, file))
    && (forall file | Hidden(root, FEATURES, file) :: FileRoutesConform(root, file) && FileFormatConforms(root, file))
    && (forall file | Hidden(root, ENTITIES, file) :: FileEntitiesConform(root, file))
    && HiddenServeNothing(root)
  }

  ghost predicate HiddenServeNothing(root: Node) {
    forall p | ServesThroughout(root, p) :: Serves(root, p)
  }

  lemma ServesIsServed(root: Node)
    ensures forall p | Serves(root, p) :: ServesThroughout(root, p)
  {
    forall p | Serves(root, p) ensures ServesThroughout(root, p) {
      var file :| ServesIn(root, file, p);
      SourceIffListable(root, FEATURES, file);
      assert DeclaresServed(root, file, p);
    }
  }

  lemma DeclaredAgree(root: Node)
    requires DeclaredConforms(root) || DeclaredThroughout(root)
    ensures DeclaredConforms(root) && DeclaredThroughout(root) <==> HiddenServeNothing(root)
  {
    hide Lists, Serves, ServesThroughout;
    ServesIsServed(root);
    var text := TextOf(SourceAt(root, DECLARED)).value;
    if DeclaredConforms(root) && DeclaredThroughout(root) {
      var a :| Lists(text, a) && forall p :: p in a <==> Serves(root, p);
      var b :| Lists(text, b) && forall p :: p in b <==> ServesThroughout(root, p);
      assert a == b by { OneListing(text, a, b); }
    }
    if HiddenServeNothing(root) {
      assert forall p :: Serves(root, p) <==> ServesThroughout(root, p);
    }
  }

  lemma OneListing(text: string, a: seq<string>, b: seq<string>)
    requires Lists(text, a) && Lists(text, b)
    ensures a == b
  {
  }

  lemma ShapeAgree(root: Node)
    ensures ShapeThroughout(root) <==> ShapeConforms(root) && HiddenVerbsConform(root)
  {
    hide ModDeclares;
    if FeatureEntries(root).Some? {
      forall feature | feature in FeatureEntries(root).value && feature.node.Dir?
        ensures FeatureConforms(root, feature) <==>
                && ModDeclares(root, FeatureMod(feature.name), "routes")
                && (feature.node.listable ==> VerbsConform(root, feature))
      {
      }
    }
  }

  /** If the run is silent, the tree conforms throughout if and only if the hidden files conform and
      declare no path of their own; and on a tree that conforms throughout the run is silent if and
      only if the hidden files declare no path of their own. */
  lemma SilenceExact(root: Node)
    requires WellFormed(root)
    ensures Violations(root) == [] ==> (ConformsThroughout(root) <==> HiddenConform(root))
    ensures ConformsThroughout(root) ==> (Violations(root) == [] <==> HiddenServeNothing(root))
  {
    hide WellFormed, Violations, CanOpen, Hidden, IsSource, ShapeConforms, ShapeThroughout, HiddenVerbsConform,
         DeclaredConforms, DeclaredThroughout, HiddenServeNothing, FileImportsConform, FileRoutesConform,
         FileFormatConforms, FileEntitiesConform, FileEnvironmentConforms, SRC, FEATURES, ENTITIES;
    VerdictExact(root);
    ShapeAgree(root);
    OpenedAreReachedOrHidden(root, SRC);
    OpenedAreReachedOrHidden(root, FEATURES);
    OpenedAreReachedOrHidden(root, ENTITIES);
    if DeclaredConforms(root) || DeclaredThroughout(root) {
      DeclaredAgree(root);
    }
  }

  lemma OpenedAreReachedOrHidden(root: Node, dir: Path)
    ensures forall p :: CanOpen(root, dir, p) <==> IsSource(root, dir, p) || Hidden(root, dir, p)
    ensures forall p :: !(IsSource(root, dir, p) && Hidden(root, dir, p))
  {
    forall p ensures CanOpen(root, dir, p) <==> IsSource(root, dir, p) || Hidden(root, dir, p) {
      SourceIffListable(root, dir, p);
    }
  }

  /** Every directory that can be opened in the sources can be listed. */
  ghost predicate AllListable(root: Node) {
    forall dir | SRC <= dir && At(root, dir, false).Some? && At(root, dir, false).value.Dir? :: ListableAt(root, dir)
  }

  /** Where every directory can be listed, the verdict is about every file that can be opened. */
  lemma VerdictExactThroughout(root: Node)
    requires WellFormed(root) && AllListable(root)
    ensures Violations(root) == [] <==> ConformsThroughout(root)
  {
    hide Violations, ConformsThroughout, WellFormed, AllListable, Hidden, HiddenVerbsConform, HiddenServeNothing,
         FileImportsConform, FileRoutesConform, FileFormatConforms, FileEntitiesConform, FileEnvironmentConforms;
    SilenceExact(root);
    NothingHidden(root, SRC);
    NothingHidden(root, FEATURES);
    NothingHidden(root, ENTITIES);
    NoHiddenVerbs(root);
    NothingServedHidden(root);
  }

  lemma NothingServedHidden(root: Node)
    requires forall p :: !Hidden(root, FEATURES, p)
    ensures HiddenServeNothing(root)
  {
    hide CanOpen, IsSource, FEATURES;
    forall p | ServesThroughout(root, p) ensures Serves(root, p) {
      var file :| CanOpen(root, FEATURES, file) && DeclaresServed(root, file, p);
      assert !Hidden(root, FEATURES, file);
      assert ServesIn(root, file, p);
    }
  }

  lemma NothingHidden(root: Node, dir: Path)
    requires AllListable(root) && SRC <= dir
    ensures forall p :: !Hidden(root, dir, p)
  {
    forall p | CanOpen(root, dir, p) ensures IsSource(root, dir, p) {
      forall k | |dir| <= k < |p| ensures ListableAt(root, p[..k]) {
        assert p == p[..k] + p[k..] && p[..k][..|dir|] == dir;
        OpenedAbove(root, p[..k], p[k..]);
      }
      SourceIffListable(root, dir, p);
    }
  }

  /** What can be opened below a path makes the path a directory. */
  lemma {:induction false} OpenedAbove(node: Node, path: Path, rest: Path)
    requires rest != [] && At(node, path + rest, false).Some?
    ensures At(node, path, false).Some? && At(node, path, false).value.Dir?
    decreases |path|
  {
    if path == [] {
      assert path + rest == rest;
    } else {
      assert (path + rest)[1..] == path[1..] + rest && (path + rest)[0] == path[0];
      OpenedAbove(Child(node, path[0]).value, path[1..], rest);
    }
  }

  lemma NoHiddenVerbs(root: Node)
    requires WellFormed(root) && AllListable(root)
    ensures HiddenVerbsConform(root)
  {
    if FeatureEntries(root).Some? {
      var dir := At(root, FEATURES, false).value;
      WellFormedBelow(root, FEATURES);
      forall feature | feature in dir.entries && feature.node.Dir? ensures feature.node.listable {
        var k :| 0 <= k < |dir.entries| && dir.entries[k] == feature;
        WellFormedEntry(dir.entries, k);
        assert At(dir, [feature.name], false) == At(feature.node, [feature.name][1..], false) == Some(feature.node);
        AtBelow(root, FEATURES, [feature.name]);
        assert ListableAt(root, FEATURES + [feature.name]);
      }
    }
  }
}
