/**
 Import confinement as it is meant: who may bring SeaORM, the entities and `HttpError` within reach,
 whatever the import is written like; and when the import pass enforces just that.
 */
module Confinement {
  import opened Wrappers
  import opened UseTrees
  import opened SourceTree
  import opened Tidy

  /** The module a source file holds, as a path from the crate root. */
  function ModuleOf(file: Path): seq<string> {
    if |file| < 2 || file[0] != "src" then [] else
      var parents, name := file[1..|file| - 1], Last(file);
      if name == "mod.rs" || (parents == [] && name in {"main.rs", "lib.rs"}) then parents
      else if HasRsExtension(name) then parents + [name[..|name| - 3]]
      else parents
  }

  function NameOf(item: Item): Option<string> {
    match item
    case Fn(name, _) => Some(Unraw(name))
    case Struct(name, _, _, _, _) => Some(Unraw(name))
    case Other(name) => Some(Unraw(name))
    case Use(_, _) => None
  }

  /** Where the imports of a file stand. */
  ghost function ScopeOf(file: Path, items: seq<Item>): Scope {
    Scope(ModuleOf(file), set item | item in items && NameOf(item).Some? :: NameOf(item).value)
  }

  /** The item imports `i`. */
  predicate Takes(item: Item, i: Import) {
    item.Use? && i in Imports([], item.tree)
  }

  /** Nothing the file imports brings SeaORM, the entities or `HttpError` within reach, but where it
      is allowed to. */
  ghost predicate KeepsToItsPlace(file: Path, items: seq<Item>) {
    forall item, i | item in items && Takes(item, i) ::
      && (TouchesEntities(ScopeOf(file, items), i) ==> AllowsEntities(file))
      && (Reaches(ScopeOf(file, items), i, HTTP_ERROR) ==> AllowsHttpError(file, items))
  }

  /** Where the file is not allowed something, no import of it is a way round the rule. */
  ghost predicate NothingEscapes(file: Path, items: seq<Item>) {
    forall item, i | item in items && Takes(item, i) ::
      && (EscapesEntities(ScopeOf(file, items), i) ==> AllowsEntities(file))
      && (EscapesHttpError(ScopeOf(file, items), i) ==> AllowsHttpError(file, items))
  }

  predicate EscapesEntities(scope: Scope, i: Import) {
    IsEntityDetour(i) || (IsRelative(scope, i) && TouchesEntities(scope, i))
  }

  predicate EscapesHttpError(scope: Scope, i: Import) {
    IsHttpErrorDetour(i) || (IsRelative(scope, i) && Reaches(scope, i, HTTP_ERROR))
  }

  /** Where the file may not import `HttpError`, it gives that name to no other item of its module. */
  ghost predicate NoNamesakes(file: Path, items: seq<Item>) {
    forall item, i | item in items && Takes(item, i) :: IsHttpErrorNamesake(i) ==> AllowsHttpError(file, items)
  }

  /** What the pass judges is the leaves of the imports. */
  lemma LeavesConform(file: Path, items: seq<Item>, item: Item)
    requires item.Use?
    ensures (forall leaf | leaf in Leaves([], item.tree) :: LeafConforms(file, items, leaf))
            <==> forall i | Takes(item, i) :: LeafConforms(file, items, i.AsLeaf())
  {
    LeavesAreImports([], item.tree);
    var leaves, imports := Leaves([], item.tree), Imports([], item.tree);
    if forall leaf | leaf in leaves :: LeafConforms(file, items, leaf) {
      forall i | Takes(item, i) ensures LeafConforms(file, items, i.AsLeaf()) {
        var k :| 0 <= k < |imports| && imports[k] == i;
        assert leaves[k] in leaves;
      }
    }
    if forall i | Takes(item, i) :: LeafConforms(file, items, i.AsLeaf()) {
      forall leaf | leaf in leaves ensures LeafConforms(file, items, leaf) {
        var k :| 0 <= k < |leaves| && leaves[k] == leaf;
        assert Takes(item, imports[k]);
      }
    }
  }

  lemma ImportConforms(file: Path, items: seq<Item>, i: Import)
    ensures var scope := ScopeOf(file, items);
            && LeafConforms(file, items, i.AsLeaf())
            && (EscapesEntities(scope, i) ==> AllowsEntities(file))
            && (EscapesHttpError(scope, i) ==> AllowsHttpError(file, items))
            <==>
            && (TouchesEntities(scope, i) ==> AllowsEntities(file))
            && (Reaches(scope, i, HTTP_ERROR) ==> AllowsHttpError(file, items))
            && (IsHttpErrorNamesake(i) ==> AllowsHttpError(file, items))
  {
    hide TouchesEntities, Reaches, IsEntityDetour, IsHttpErrorDetour, IsHttpErrorNamesake, IsRelative,
         AllowsEntities, AllowsHttpError, IsEntityImport, IsHttpErrorImport, ScopeOf;
    EntityImportExact(ScopeOf(file, items), i);
    HttpErrorImportExact(ScopeOf(file, items), i);
  }

  /** File by file: the pass accepts the imports and none of them is a way round the rules, if and
      only if the file keeps to its place and calls nothing else `HttpError`. */
  lemma FileConfinementExact(root: Node, file: Path)
    requires ItemsAt(root, file).Some?
    ensures var items := ItemsAt(root, file).value;
            FileImportsConform(root, file) && NothingEscapes(file, items) <==>
            KeepsToItsPlace(file, items) && NoNamesakes(file, items)
  {
    var items := ItemsAt(root, file).value;
    hide ItemsAt, LeafConforms, Leaves, Imports, IsEntityDetour, IsHttpErrorDetour, IsHttpErrorNamesake, IsRelative,
         TouchesEntities, Reaches, AllowsEntities, AllowsHttpError, ScopeOf;
    forall item | item in items && item.Use? {
      LeavesConform(file, items, item);
    }
    forall i {
      ImportConforms(file, items, i);
    }
  }

  /** Over the workspace: the import pass is silent and no import is a way round its rules, if and
      only if every source parses, keeps to its place and calls nothing else `HttpError`. */
  lemma ConfinementExact(root: Node)
    requires WellFormed(root)
    ensures ImportViolations(root) == []
            && (forall file | IsSource(root, SRC, file) && ItemsAt(root, file).Some? ::
                  NothingEscapes(file, ItemsAt(root, file).value))
            <==>
            forall file | IsSource(root, SRC, file) ::
              && ItemsAt(root, file).Some?
              && KeepsToItsPlace(file, ItemsAt(root, file).value) && NoNamesakes(file, ItemsAt(root, file).value)
  {
    hide IsSource, KeepsToItsPlace, NoNamesakes, NothingEscapes, WellFormed, ItemsAt, ImportViolations;
    ImportsExact(root);
    forall file | ItemsAt(root, file).Some? {
      FileConfinementExact(root, file);
    }
  }
}
