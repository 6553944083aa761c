/**
 The scanner that reads the facts of a `#[utoipa::path(..)]` attribute off its token stream.
 */
module Scanner {
  import opened Wrappers
  import opened Literals

  datatype Delimiter = Parenthesis | Bracket | Brace | Invisible

  /** A token tree inside the attribute's parentheses; the scanner does not look into a `Group`. */
  datatype Token =
    | Ident(name: string, line: nat)
    | Punct(ch: char)
    | Literal(text: string)
    | Group(delimiter: Delimiter, tokens: seq<Token>)

  datatype Attribute = Attribute(path: seq<string>, tokens: Option<seq<Token>>)

  /** A declared route, and whether it is tagged `stores` without declaring any security. */
  datatype Route = Route(line: nat, path: string, unprotected: bool)

  // ---------------------------------------------------------------- what the facts are

  predicate KeyAt(tokens: seq<Token>, i: nat, key: string) {
    && i + 2 < |tokens| && tokens[i].Ident? && tokens[i].name == key
    && tokens[i + 1] == Punct('=') && tokens[i + 2].Literal?
  }

  function ValueAt(tokens: seq<Token>, i: nat): string
    requires i + 2 < |tokens| && tokens[i + 2].Literal?
  {
    TrimQuotes(tokens[i + 2].text)
  }

  datatype Fact = PathFact | TagFact | SecurityFact

  /** `path = ".."` with a value that begins with a slash, `tag = ".."`, or a bare `security`. */
  predicate StatedAt(fact: Fact, tokens: seq<Token>, i: nat) {
    match fact
    case PathFact => KeyAt(tokens, i, "path") && "/" <= ValueAt(tokens, i)
    case TagFact => KeyAt(tokens, i, "tag")
    case SecurityFact => i < |tokens| && tokens[i].Ident? && tokens[i].name == "security"
  }

  /** The last position below `n` at which the fact is stated, looking at every position. */
  function Last(fact: Fact, tokens: seq<Token>, n: nat): (r: Option<nat>)
    ensures r.Some? ==> r.value < n && StatedAt(fact, tokens, r.value)
  {
    if n == 0 then None
    else if StatedAt(fact, tokens, n - 1) then Some(n - 1)
    else Last(fact, tokens, n - 1)
  }

  lemma {:induction false} LastIsLast(fact: Fact, tokens: seq<Token>, n: nat, i: nat)
    ensures Last(fact, tokens, n) == Some(i) <==>
            i < n && StatedAt(fact, tokens, i) && forall j: nat | i < j < n :: !StatedAt(fact, tokens, j)
    ensures Last(fact, tokens, n).None? <==> forall j: nat | j < n :: !StatedAt(fact, tokens, j)
  {
    if n > 0 {
      LastIsLast(fact, tokens, n - 1, i);
    }
  }

  /** A matched key states nothing at the two positions after it. */
  lemma JumpLosesNothing(fact: Fact, tokens: seq<Token>, i: nat, key: string)
    requires KeyAt(tokens, i, key)
    ensures Last(fact, tokens, i + 3) == Last(fact, tokens, i + 1)
  {
    assert !StatedAt(fact, tokens, i + 1) && !StatedAt(fact, tokens, i + 2);
    assert Last(fact, tokens, i + 2) == Last(fact, tokens, i + 1);
  }

  /** The loop of `collect_utoipa_attr`, which jumps over the two tokens after a matched key. The
      jumps lose nothing: the answers are those of looking at every position. */
  method Scan(tokens: seq<Token>) returns (path: Option<nat>, tag: Option<nat>, security: bool)
    ensures path == Last(PathFact, tokens, |tokens|)
    ensures tag == Last(TagFact, tokens, |tokens|)
    ensures security <==> Last(SecurityFact, tokens, |tokens|).Some?
  {
    path, tag, security := None, None, false;
    var index := 0;
    while index < |tokens|
      invariant 0 <= index <= |tokens|
      invariant path == Last(PathFact, tokens, index)
      invariant tag == Last(TagFact, tokens, index)
      invariant security <==> Last(SecurityFact, tokens, index).Some?
    {
      if tokens[index].Ident? {
        var name := tokens[index].name;
        if name in {"path", "tag"} && KeyAt(tokens, index, name) {
          JumpLosesNothing(PathFact, tokens, index, name);
          JumpLosesNothing(TagFact, tokens, index, name);
          JumpLosesNothing(SecurityFact, tokens, index, name);
          var value := ValueAt(tokens, index);
          if name == "path" && "/" <= value {
            path := Some(index);
          } else if name == "tag" {
            tag := Some(index);
          }
          index := index + 3;
          continue;
        }
        if name == "security" {
          security := true;
        }
      }
      index := index + 1;
    }
  }

  // ---------------------------------------------------------------- the routes of a file

  /** The route an attribute declares: its last path, unprotected when its last tag is `stores`
      and no `security` occurs anywhere. */
  function RouteOf(tokens: seq<Token>): Option<Route> {
    var n := |tokens|;
    match Last(PathFact, tokens, n)
    case None => None
    case Some(p) =>
      var tag := Last(TagFact, tokens, n);
      var stores := tag.Some? && ValueAt(tokens, tag.value) == "stores";
      Some(Route(tokens[p].line, ValueAt(tokens, p), stores && Last(SecurityFact, tokens, n).None?))
  }

  // ---------------------------------------------------------------- collecting

  /** `UtopicFacts`, which the attributes of a file are collected into. */
  class Facts {
    var paths: seq<(nat, string)>
    var tagsWithoutSecurity: seq<nat>

    constructor ()
      ensures paths == [] && tagsWithoutSecurity == []
    {
      paths, tagsWithoutSecurity := [], [];
    }

    /** `collect_utoipa_attr` */
    method Collect(attr: Attribute)
      modifies this
      ensures var route := if attr.tokens.Some? then RouteOf(attr.tokens.value) else None;
              && paths == old(paths) + (if route.Some? then [(route.value.line, route.value.path)] else [])
              && tagsWithoutSecurity == old(tagsWithoutSecurity)
                 + (if route.Some? && route.value.unprotected then [route.value.line] else [])
    {
      if attr.tokens.None? {
        return;
      }
      var tokens := attr.tokens.value;
      var path, tag, security := Scan(tokens);
      if path.Some? {
        var line := tokens[path.value].line;
        paths := paths + [(line, ValueAt(tokens, path.value))];
        if tag.Some? && ValueAt(tokens, tag.value) == "stores" && !security {
          tagsWithoutSecurity := tagsWithoutSecurity + [line];
        }
      }
    }
  }
}
