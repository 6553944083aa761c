/**
 The paths a `use` item introduces, read off its tree with one shared prefix buffer; and what the
 confinement rules, which see only those paths, can say of what the item takes.
 */
module UseTrees {
  import opened Wrappers

  datatype UseTree =
    | Path(ident: string, tree: UseTree)
    | Name(ident: string)
    | Rename(ident: string, rename: string)
    | Glob
    | Group(items: seq<UseTree>)

  type Leaf = (seq<string>, string)

  // ---------------------------------------------------------------- the leaves, purely

  function Leaves(prefix: seq<string>, tree: UseTree): seq<Leaf>
    decreases tree
  {
    match tree
    case Path(ident, inner) => Leaves(prefix + [ident], inner)
    case Name(ident) => [(prefix, ident)]
    case Rename(_, rename) => [(prefix, rename)]
    case Glob => [(prefix, "*")]
    case Group(items) => LeavesOf(prefix, items)
  }

  function LeavesOf(prefix: seq<string>, items: seq<UseTree>): seq<Leaf>
    decreases items
  {
    if items == [] then [] else Leaves(prefix, items[0]) + LeavesOf(prefix, items[1..])
  }

  /** The walk of `import_leaves`: one prefix vector, pushed and popped in place. */
  class Walker {
    var prefix: seq<string>
    var out: seq<Leaf>

    constructor ()
      ensures prefix == [] && out == []
    {
      prefix, out := [], [];
    }

    /** The subtree's leaves are appended in order, and the prefix is back as it was. */
    method Walk(tree: UseTree)
      modifies this
      ensures prefix == old(prefix)
      ensures out == old(out) + Leaves(old(prefix), tree)
    {
      match tree
      case Path(ident, inner) =>
        prefix := prefix + [ident];
        Walk(inner);
        prefix := prefix[..|prefix| - 1];
      case Name(ident) => out := out + [(prefix, ident)];
      case Rename(_, rename) => out := out + [(prefix, rename)];
      case Glob => out := out + [(prefix, "*")];
      case Group(items) =>
        assert items[0..] == items;
        for i := 0 to |items|
          invariant prefix == old(prefix)
          invariant out + LeavesOf(prefix, items[i..]) == old(out) + LeavesOf(prefix, items)
        {
          assert items[i..][1..] == items[i + 1..];
          Walk(items[i]);
        }
    }
  }

  method ImportLeaves(tree: UseTree) returns (leaves: seq<Leaf>)
    ensures leaves == Leaves([], tree)
  {
    var walker := new Walker();
    walker.Walk(tree);
    leaves := walker.out;
  }

  // ---------------------------------------------------------------- splitting groups

  /** One tree per imported path, without any group: the import written out line by line. */
  function Split(tree: UseTree): seq<UseTree> {
    match tree
    case Path(ident, inner) => Prefixed(ident, Split(inner))
    case Group(items) => SplitAll(items)
    case _ => [tree]
  }

  function SplitAll(items: seq<UseTree>): seq<UseTree> {
    if items == [] then [] else Split(items[0]) + SplitAll(items[1..])
  }

  function Prefixed(ident: string, trees: seq<UseTree>): seq<UseTree> {
    if trees == [] then [] else [Path(ident, trees[0])] + Prefixed(ident, trees[1..])
  }

  predicate Ungrouped(tree: UseTree) {
    match tree
    case Path(_, inner) => Ungrouped(inner)
    case Group(_) => false
    case _ => true
  }

  lemma {:induction false} LeavesOfAppend(prefix: seq<string>, a: seq<UseTree>, b: seq<UseTree>)
    ensures LeavesOf(prefix, a + b) == LeavesOf(prefix, a) + LeavesOf(prefix, b)
  {
    if a == [] {
      assert a + b == b;
    } else {
      assert (a + b)[1..] == a[1..] + b;
      LeavesOfAppend(prefix, a[1..], b);
    }
  }

  lemma {:induction false} LeavesOfPrefixed(prefix: seq<string>, ident: string, trees: seq<UseTree>)
    ensures LeavesOf(prefix, Prefixed(ident, trees)) == LeavesOf(prefix + [ident], trees)
  {
    if trees != [] {
      LeavesOfPrefixed(prefix, ident, trees[1..]);
    }
  }

  lemma {:induction false} PrefixedUngrouped(ident: string, trees: seq<UseTree>)
    requires forall t | t in trees :: Ungrouped(t)
    ensures forall t | t in Prefixed(ident, trees) :: Ungrouped(t)
  {
    if trees != [] {
      PrefixedUngrouped(ident, trees[1..]);
    }
  }

  /** Splitting a grouped import into single ones introduces the same paths, in the same order. */
  lemma {:induction false} SplitKeepsLeaves(prefix: seq<string>, tree: UseTree)
    ensures LeavesOf(prefix, Split(tree)) == Leaves(prefix, tree)
    ensures forall t | t in Split(tree) :: Ungrouped(t)
    decreases tree
  {
    match tree
    case Path(ident, inner) =>
      SplitKeepsLeaves(prefix + [ident], inner);
      LeavesOfPrefixed(prefix, ident, Split(inner));
      PrefixedUngrouped(ident, Split(inner));
    case Group(items) => SplitAllKeepsLeaves(prefix, items);
    case _ =>
  }

  lemma {:induction false} SplitAllKeepsLeaves(prefix: seq<string>, items: seq<UseTree>)
    ensures LeavesOf(prefix, SplitAll(items)) == LeavesOf(prefix, items)
    ensures forall t | t in SplitAll(items) :: Ungrouped(t)
    decreases items
  {
    if items != [] {
      SplitKeepsLeaves(prefix, items[0]);
      SplitAllKeepsLeaves(prefix, items[1..]);
      LeavesOfAppend(prefix, Split(items[0]), SplitAll(items[1..]));
    }
  }

  // ---------------------------------------------------------------- the confinement rules

  /** `sea_orm::..` and `crate::entities::..` */
  predicate IsEntityImport(leaf: Leaf) {
    var prefix := leaf.0;
    || (|prefix| >= 1 && prefix[0] == "sea_orm")
    || (|prefix| >= 2 && prefix[0] == "crate" && prefix[1] == "entities")
  }

  predicate IsHttpErrorImport(leaf: Leaf) {
    leaf == (["crate", "error"], "HttpError")
  }

  // ---------------------------------------------------------------- what an import takes

  /** The identifier a token stands for: the raw `r#error` is the identifier `error`. */
  function Unraw(token: string): string {
    if IsRaw(token) && token[2..] !in {"crate", "self", "super"} then token[2..] else token
  }

  predicate IsRaw(token: string) {
    |token| > 2 && token[0] == 'r' && token[1] == '#'
  }

  lemma UnrawIs(token: string, ident: string)
    requires !IsRaw(ident) && ident != ""
    ensures Unraw(token) == ident <==>
            token == ident || (token == "r#" + ident && ident !in {"crate", "self", "super"})
  {
    assert IsRaw(token) ==> token == "r#" + token[2..];
    assert IsRaw("r#" + ident) && ("r#" + ident)[2..] == ident;
  }

  /** The words the rules look for, as tokens may spell them. */
  predicate IsSpelled(ident: string, token: string) {
    && (ident == "crate" <==> token == "crate") && (ident == "self" <==> token == "self")
    && (ident == "super" <==> token == "super")
    && (ident == "error" <==> token in {"error", "r#error"})
    && (ident == "HttpError" <==> token in {"HttpError", "r#HttpError"})
    && (ident == "entities" <==> token in {"entities", "r#entities"})
    && (ident == "sea_orm" <==> token in {"sea_orm", "r#sea_orm"})
  }

  lemma UnrawWords(token: string)
    ensures IsSpelled(Unraw(token), token)
  {
    UnrawIs(token, "crate");
    UnrawIs(token, "self");
    UnrawIs(token, "super");
    UnrawIs(token, "error");
    UnrawIs(token, "HttpError");
    UnrawIs(token, "entities");
    UnrawIs(token, "sea_orm");
    hide Unraw;
    assert "r#" + "error" == "r#error" && "r#" + "HttpError" == "r#HttpError";
    assert "r#" + "entities" == "r#entities" && "r#" + "sea_orm" == "r#sea_orm";
  }

  function UnrawAll(path: seq<string>): seq<string> {
    seq(|path|, k requires 0 <= k < |path| => Unraw(path[k]))
  }

  /** One path of a `use` item as written: `prefix::ident as name`, where a plain name is its own
      name, or everything in a module. */
  datatype Import = Single(prefix: seq<string>, ident: string, name: string) | All(prefix: seq<string>) {
    function AsLeaf(): Leaf {
      if Single? then (prefix, name) else (prefix, "*")
    }

    /** The path taken; `self` stands for the module in front of it. */
    function Taken(): seq<string> {
      if All? || (ident == "self" && prefix != []) then UnrawAll(prefix) else UnrawAll(prefix) + [Unraw(ident)]
    }
  }

  function Imports(prefix: seq<string>, tree: UseTree): seq<Import>
    decreases tree
  {
    match tree
    case Path(ident, inner) => Imports(prefix + [ident], inner)
    case Name(ident) => [Single(prefix, ident, ident)]
    case Rename(ident, rename) => [Single(prefix, ident, rename)]
    case Glob => [All(prefix)]
    case Group(items) => ImportsOf(prefix, items)
  }

  function ImportsOf(prefix: seq<string>, items: seq<UseTree>): seq<Import>
    decreases items
  {
    if items == [] then [] else Imports(prefix, items[0]) + ImportsOf(prefix, items[1..])
  }

  ghost predicate AreLeavesOf(leaves: seq<Leaf>, imports: seq<Import>) {
    |leaves| == |imports| && forall k | 0 <= k < |leaves| :: leaves[k] == imports[k].AsLeaf()
  }

  /** The checker sees of every import its prefix and the name it gives, and nothing else. */
  lemma {:induction false} LeavesAreImports(prefix: seq<string>, tree: UseTree)
    ensures AreLeavesOf(Leaves(prefix, tree), Imports(prefix, tree))
    decreases tree
  {
    match tree
    case Path(ident, inner) => LeavesAreImports(prefix + [ident], inner);
    case Group(items) => LeavesAreImportsIn(prefix, items);
    case _ =>
  }

  lemma {:induction false} LeavesAreImportsIn(prefix: seq<string>, items: seq<UseTree>)
    ensures AreLeavesOf(LeavesOf(prefix, items), ImportsOf(prefix, items))
    decreases items
  {
    if items != [] {
      LeavesAreImports(prefix, items[0]);
      LeavesAreImportsIn(prefix, items[1..]);
    }
  }

  /** The module an import stands in, as a path from the crate root, and the names declared there. */
  datatype Scope = Scope(here: seq<string>, locals: set<string>)

  /** Where a path leads, counted from the crate root; `None` for a path into another crate, which
      `sea_orm` always is. */
  function Resolve(scope: Scope, path: seq<string>): Option<seq<string>> {
    if path == [] then None
    else if path[0] == "crate" then Some(path[1..])
    else if path[0] == "self" then Climb(scope.here, path[1..])
    else if path[0] == "super" then Climb(scope.here, path)
    else if path[0] in scope.locals && path[0] != "sea_orm" then Some(scope.here + path)
    else None
  }

  function Climb(here: seq<string>, path: seq<string>): Option<seq<string>> {
    if path == [] || path[0] != "super" then Some(here + path)
    else if here == [] then None
    else Climb(here[..|here| - 1], path[1..])
  }

  /** The import brings `target` within reach: it takes it, something in it, or a module on the way
      to it, under whatever name. */
  predicate Reaches(scope: Scope, i: Import, target: seq<string>) {
    match Resolve(scope, i.Taken())
    case None => false
    case Some(to) => to <= target || target <= to
  }

  /** The path leads somewhere in this crate and is not written from `crate`. */
  predicate IsRelative(scope: Scope, i: Import) {
    i.Taken() != [] && i.Taken()[0] != "crate" && Resolve(scope, i.Taken()).Some?
  }

  const HTTP_ERROR: seq<string> := ["error", "HttpError"]
  const ENTITIES_MODULE: seq<string> := ["entities"]

  // ---------------------------------------------------------------- the reach of the `HttpError` rule

  /** The ways round the `HttpError` rule, from the crate root: the root, `crate::error` or the type
      itself under another name, the module or the type spelled as a raw identifier, the modules by a
      glob or plainly, and what is inside the type. */
  predicate IsHttpErrorDetour(i: Import) {
    var prefix := UnrawAll(i.prefix);
    || (i.All? && prefix in {["crate"], ["crate", "error"]})
    || (i.Single? && prefix == [] && i.ident == "crate")
    || (i.Single? && prefix == ["crate"] && Unraw(i.ident) in {"self", "error"})
    || (i.Single? && prefix == ["crate", "error"] && Unraw(i.ident) in {"self", "HttpError"}
        && (i.name != "HttpError" || i.prefix[1] == "r#error"))
    || ["crate", "error", "HttpError"] <= prefix
  }

  /** An import the rule takes for `HttpError` and that is not: another item given that name. */
  predicate IsHttpErrorNamesake(i: Import) {
    && i.Single? && i.prefix == ["crate", "error"]
    && Unraw(i.ident) !in {"self", "HttpError"} && i.name == "HttpError"
  }

  /** The words of an import: its ident and the first segments of its prefix. */
  lemma UnrawImport(i: Import)
    ensures i.Single? ==> IsSpelled(Unraw(i.ident), i.ident)
    ensures forall k | 0 <= k < |i.prefix| :: IsSpelled(UnrawAll(i.prefix)[k], i.prefix[k])
  {
    if i.Single? {
      UnrawWords(i.ident);
    }
    forall k | 0 <= k < |i.prefix| ensures IsSpelled(UnrawAll(i.prefix)[k], i.prefix[k]) {
      UnrawWords(i.prefix[k]);
    }
  }

  /** Import by import: what reaches `HttpError` unseen, and what is taken for it and is not. */
  lemma HttpErrorImportExact(scope: Scope, i: Import)
    ensures Reaches(scope, i, HTTP_ERROR) && !IsHttpErrorImport(i.AsLeaf()) <==>
            IsHttpErrorDetour(i) || (IsRelative(scope, i) && Reaches(scope, i, HTTP_ERROR))
    ensures IsHttpErrorImport(i.AsLeaf()) && !Reaches(scope, i, HTTP_ERROR) <==> IsHttpErrorNamesake(i)
  {
    hide Climb, Unraw;
    var path, prefix := i.Taken(), UnrawAll(i.prefix);
    UnrawImport(i);
    if path != [] && path[0] == "crate" {
      assert path == ["crate"] + path[1..];
      AlongTheWay(path[1..]);
      if |prefix| == 0 {
        assert i.Single? && path == [Unraw(i.ident)];
      } else if |prefix| == 1 {
        assert prefix == ["crate"];
      } else if |prefix| == 2 {
        assert prefix == [prefix[0], prefix[1]] && i.prefix == [i.prefix[0], i.prefix[1]];
      }
    }
  }

  /** Being on the way to the type or inside it, segment by segment. */
  lemma AlongTheWay(to: seq<string>)
    ensures to <= HTTP_ERROR || HTTP_ERROR <= to <==>
            (|to| >= 1 ==> to[0] == "error") && (|to| >= 2 ==> to[1] == "HttpError")
  {
    if |to| <= 2 {
      assert to <= HTTP_ERROR <==> (|to| >= 1 ==> to[0] == "error") && (|to| >= 2 ==> to[1] == "HttpError");
    }
  }

  /** Over a whole `use` item: the rule misses nothing that reaches `HttpError` if and only if no
      import is one of the detours or a relative path to it; and it accuses nothing else if and only
      if no other item of `crate::error` is given its name. */
  lemma HttpErrorRuleExact(scope: Scope, tree: UseTree)
    ensures AreLeavesOf(Leaves([], tree), Imports([], tree))
    ensures (forall i | i in Imports([], tree) :: Reaches(scope, i, HTTP_ERROR) ==> IsHttpErrorImport(i.AsLeaf()))
            <==> forall i | i in Imports([], tree) ::
                   !IsHttpErrorDetour(i) && (IsRelative(scope, i) ==> !Reaches(scope, i, HTTP_ERROR))
    ensures (forall i | i in Imports([], tree) :: IsHttpErrorImport(i.AsLeaf()) ==> Reaches(scope, i, HTTP_ERROR))
            <==> forall i | i in Imports([], tree) :: !IsHttpErrorNamesake(i)
  {
    hide Reaches, IsHttpErrorImport, IsHttpErrorDetour, IsHttpErrorNamesake, IsRelative;
    LeavesAreImports([], tree);
    forall i { HttpErrorImportExact(scope, i); }
  }

  /** The tree brings `HttpError` within reach of its module, and no leaf of it offends. */
  ghost predicate EscapesHttpErrorRule(scope: Scope, tree: UseTree) {
    && (exists i :: i in Imports([], tree) && Reaches(scope, i, HTTP_ERROR))
    && forall leaf | leaf in Leaves([], tree) :: !IsHttpErrorImport(leaf)
  }

  function Under(modules: seq<string>, tree: UseTree): UseTree {
    if modules == [] then tree else Path(modules[0], Under(modules[1..], tree))
  }

  lemma {:induction false} ImportsUnder(prefix: seq<string>, modules: seq<string>, tree: UseTree)
    ensures Imports(prefix, Under(modules, tree)) == Imports(prefix + modules, tree)
    decreases |modules|
  {
    if modules == [] {
      assert prefix + modules == prefix;
    } else {
      ImportsUnder(prefix + [modules[0]], modules[1..], tree);
      assert prefix + [modules[0]] + modules[1..] == prefix + modules;
    }
  }

  /** Inputs that escape the rule: the type renamed, taken with a glob, or opened. */
  lemma RenameAndGlobHideHttpError(scope: Scope)
    ensures EscapesHttpErrorRule(scope, Under(["crate", "error"], Rename("HttpError", "E")))
    ensures EscapesHttpErrorRule(scope, Under(["crate", "error"], Glob))
    ensures EscapesHttpErrorRule(scope, Under(["crate", "error", "HttpError"], Name("NotFound")))
  {
    hide EscapesHttpErrorRule, Reaches;
    EscapeUnder(scope, ["crate", "error"], Rename("HttpError", "E"), Single(["crate", "error"], "HttpError", "E"));
    EscapeUnder(scope, ["crate", "error"], Glob, All(["crate", "error"]));
    EscapeUnder(scope, ["crate", "error", "HttpError"], Name("NotFound"),
                Single(["crate", "error", "HttpError"], "NotFound", "NotFound"));
  }

  /** Inputs that escape the rule: its module taken plainly, renamed or as `self`, and the crate
      root renamed. */
  lemma ModulesHideHttpError(scope: Scope)
    ensures EscapesHttpErrorRule(scope, Under(["crate"], Name("error")))
    ensures EscapesHttpErrorRule(scope, Under(["crate"], Rename("error", "e")))
    ensures EscapesHttpErrorRule(scope, Under(["crate", "error"], Group([Name("self")])))
    ensures EscapesHttpErrorRule(scope, Under([], Rename("crate", "c")))
  {
    hide EscapesHttpErrorRule, Reaches, Under;
    EscapeUnder(scope, ["crate"], Name("error"), Single(["crate"], "error", "error"));
    EscapeUnder(scope, ["crate"], Rename("error", "e"), Single(["crate"], "error", "e"));
    GroupOfOne(["crate", "error"], Name("self"));
    EscapeUnder(scope, ["crate", "error"], Group([Name("self")]), Single(["crate", "error"], "self", "self"));
    EscapeUnder(scope, [], Rename("crate", "c"), Single([], "crate", "c"));
  }

  /** Inputs that escape the rule: the type from the parent module, and from the module that
      declares `error`. */
  lemma RelativePathsHideHttpError()
    ensures EscapesHttpErrorRule(Scope(["state"], {}), Under(["super", "error"], Name("HttpError")))
    ensures EscapesHttpErrorRule(Scope([], {"error"}), Under(["error"], Name("HttpError")))
  {
    hide EscapesHttpErrorRule, Under;
    var above, root := Scope(["state"], {}), Scope([], {"error"});
    RelativePathsResolve(above, root);
    EscapeUnder(above, ["super", "error"], Name("HttpError"), Single(["super", "error"], "HttpError", "HttpError"));
    EscapeUnder(root, ["error"], Name("HttpError"), Single(["error"], "HttpError", "HttpError"));
  }

  /** Inputs that escape the rule: the module or the type spelled as a raw identifier. */
  lemma RawIdentifiersHideHttpError(scope: Scope)
    ensures EscapesHttpErrorRule(scope, Under(["crate", "r#error"], Name("HttpError")))
    ensures EscapesHttpErrorRule(scope, Under(["crate", "error"], Name("r#HttpError")))
  {
    hide EscapesHttpErrorRule, Reaches, Under;
    EscapeUnder(scope, ["crate", "r#error"], Name("HttpError"), Single(["crate", "r#error"], "HttpError", "HttpError"));
    EscapeUnder(scope, ["crate", "error"], Name("r#HttpError"),
                Single(["crate", "error"], "r#HttpError", "r#HttpError"));
  }

  lemma EscapeUnder(scope: Scope, modules: seq<string>, tree: UseTree, i: Import)
    requires Imports(modules, tree) == [i]
    requires IsHttpErrorDetour(i) || (IsRelative(scope, i) && Reaches(scope, i, HTTP_ERROR))
    ensures EscapesHttpErrorRule(scope, Under(modules, tree))
  {
    ImportsUnder([], modules, tree);
    assert [] + modules == modules;
    HttpErrorImportExact(scope, i);
    LeavesAreImports([], Under(modules, tree));
    assert i in Imports([], Under(modules, tree));
  }

  lemma GroupOfOne(prefix: seq<string>, tree: UseTree)
    ensures Imports(prefix, Group([tree])) == Imports(prefix, tree)
  {
    assert [tree][1..] == [];
    assert ImportsOf(prefix, [tree]) == Imports(prefix, tree) + ImportsOf(prefix, []);
  }

  lemma RelativePathsResolve(above: Scope, root: Scope)
    requires above.here == ["state"] && root.here == [] && "error" in root.locals
    ensures Resolve(above, ["super", "error", "HttpError"]) == Some(HTTP_ERROR)
    ensures Resolve(root, HTTP_ERROR) == Some(HTTP_ERROR)
  {
    var path := ["super", "error", "HttpError"];
    assert path[1..] == HTTP_ERROR && ["state"][..0] == [] && [] + HTTP_ERROR == HTTP_ERROR;
    assert Climb(["state"], path) == Climb([], HTTP_ERROR) == Some(HTTP_ERROR);
  }

  // ---------------------------------------------------------------- the reach of the entity rule

  /** The import brings SeaORM or the entities within reach. */
  predicate TouchesEntities(scope: Scope, i: Import) {
    (i.Taken() != [] && i.Taken()[0] == "sea_orm") || Reaches(scope, i, ENTITIES_MODULE)
  }

  /** The ways round the entity rule, from the crate root: the crate `sea_orm`, the root or the
      module `crate::entities` taken as a whole, plainly, renamed or by a glob of the root; and the
      crate or the module spelled as a raw identifier. */
  predicate IsEntityDetour(i: Import) {
    var prefix := UnrawAll(i.prefix);
    || (i.All? && prefix == ["crate"])
    || (i.Single? && prefix == [] && Unraw(i.ident) in {"sea_orm", "crate"})
    || (i.Single? && prefix == ["crate"] && Unraw(i.ident) in {"self", "entities"})
    || (|prefix| >= 1 && i.prefix[0] == "r#sea_orm")
    || (|prefix| >= 2 && i.prefix[0] == "crate" && i.prefix[1] == "r#entities")
  }

  /** Import by import: the entity rule accuses only what touches the entities, and misses the
      detours and the relative paths. */
  lemma EntityImportExact(scope: Scope, i: Import)
    ensures IsEntityImport(i.AsLeaf()) ==> TouchesEntities(scope, i)
    ensures TouchesEntities(scope, i) && !IsEntityImport(i.AsLeaf()) <==>
            IsEntityDetour(i) || (IsRelative(scope, i) && TouchesEntities(scope, i))
  {
    hide Climb, Unraw;
    var path, prefix := i.Taken(), UnrawAll(i.prefix);
    UnrawImport(i);
    if path != [] && path[0] == "crate" {
      assert path == ["crate"] + path[1..];
      var to := path[1..];
      assert to <= ENTITIES_MODULE || ENTITIES_MODULE <= to <==> (to != [] ==> to[0] == "entities");
      if |prefix| == 0 {
        assert i.Single? && path == [Unraw(i.ident)];
      } else if |prefix| == 1 {
        assert prefix == ["crate"];
      }
    }
  }

  /** Over a whole `use` item: the entity rule misses nothing if and only if no import is a detour or
      a relative path that touches the entities. It accuses nothing else, and looks at no new name,
      so a rename hides nothing from it. */
  lemma EntityRuleExact(scope: Scope, tree: UseTree)
    ensures AreLeavesOf(Leaves([], tree), Imports([], tree))
    ensures (forall i | i in Imports([], tree) :: TouchesEntities(scope, i) ==> IsEntityImport(i.AsLeaf()))
            <==> forall i | i in Imports([], tree) ::
                   !IsEntityDetour(i) && (IsRelative(scope, i) ==> !TouchesEntities(scope, i))
    ensures forall i | i in Imports([], tree) :: IsEntityImport(i.AsLeaf()) ==> TouchesEntities(scope, i)
    ensures forall i, name | i in Imports([], tree) && i.Single? ::
              IsEntityImport(i.AsLeaf()) == IsEntityImport(i.(name := name).AsLeaf())
  {
    LeavesAreImports([], tree);
    forall i { EntityImportExact(scope, i); }
  }

  ghost predicate EscapesEntityRule(scope: Scope, tree: UseTree) {
    && (exists i :: i in Imports([], tree) && TouchesEntities(scope, i))
    && forall leaf | leaf in Leaves([], tree) :: !IsEntityImport(leaf)
  }

  /** Inputs that escape the entity rule: the module and the crate taken as a whole, or spelled as
      raw identifiers. */
  lemma ImportsThatHideEntities(scope: Scope)
    ensures EscapesEntityRule(scope, Under(["crate"], Name("entities")))
    ensures EscapesEntityRule(scope, Under([], Name("sea_orm")))
    ensures EscapesEntityRule(scope, Under(["r#sea_orm"], Name("Set")))
    ensures EscapesEntityRule(scope, Under(["crate", "r#entities"], Name("user")))
  {
    hide EscapesEntityRule, TouchesEntities, Under;
    EscapeEntitiesUnder(scope, ["crate"], Name("entities"), Single(["crate"], "entities", "entities"));
    EscapeEntitiesUnder(scope, [], Name("sea_orm"), Single([], "sea_orm", "sea_orm"));
    EscapeEntitiesUnder(scope, ["r#sea_orm"], Name("Set"), Single(["r#sea_orm"], "Set", "Set"));
    EscapeEntitiesUnder(scope, ["crate", "r#entities"], Name("user"), Single(["crate", "r#entities"], "user", "user"));
  }

  lemma EscapeEntitiesUnder(scope: Scope, modules: seq<string>, tree: UseTree, i: Import)
    requires Imports(modules, tree) == [i] && IsEntityDetour(i)
    ensures EscapesEntityRule(scope, Under(modules, tree))
  {
    ImportsUnder([], modules, tree);
    assert [] + modules == modules;
    EntityImportExact(scope, i);
    LeavesAreImports([], Under(modules, tree));
    assert i in Imports([], Under(modules, tree));
  }
}
