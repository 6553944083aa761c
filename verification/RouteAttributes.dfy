/**
 What a `#[utoipa::path(..)]` attribute declares, read argument by argument and with the values Rust
 gives its literals; and how far the scanner's reading of the tokens agrees with that.
 */
module RouteAttributes {
  import opened Wrappers
  import opened Literals
  import opened Scanner

  const COMMA: Token := Punct(',')

  // ---------------------------------------------------------------- arguments

  predicate StartsArgument(tokens: seq<Token>, i: nat) {
    i < |tokens| && (i == 0 || tokens[i - 1] == COMMA)
  }

  /** The first comma from `i` on, or the end. */
  function ArgumentEnd(tokens: seq<Token>, i: nat): (j: nat)
    requires i <= |tokens|
    ensures i <= j <= |tokens| && (j < |tokens| ==> tokens[j] == COMMA)
    ensures forall k | i <= k < j :: tokens[k] != COMMA
    decreases |tokens| - i
  {
    if i == |tokens| || tokens[i] == COMMA then i else ArgumentEnd(tokens, i + 1)
  }

  /** The argument `key = ..` begins at `i`. */
  predicate GivenAt(tokens: seq<Token>, i: nat, key: string) {
    && StartsArgument(tokens, i) && tokens[i].Ident? && tokens[i].name == key
    && i + 1 < |tokens| && tokens[i + 1] == Punct('=')
  }

  /** The last such argument, which is the one that holds. */
  function LastGiven(tokens: seq<Token>, key: string, n: nat): (r: Option<nat>)
    ensures r.Some? ==> r.value < n && GivenAt(tokens, r.value, key)
    ensures r.Some? ==> forall j: nat | r.value < j < n :: !GivenAt(tokens, j, key)
    ensures r.None? ==> forall j: nat | j < n :: !GivenAt(tokens, j, key)
  {
    if n == 0 then None
    else if GivenAt(tokens, n - 1, key) then Some(n - 1)
    else LastGiven(tokens, key, n - 1)
  }

  /** What stands behind the `=` of the argument at `i`. */
  function Expression(tokens: seq<Token>, i: nat): seq<Token>
    requires i + 1 < |tokens|
  {
    tokens[i + 2..ArgumentEnd(tokens, i + 2)]
  }

  /** The value of an expression: a lone literal's own, or that of a constant. */
  function ValueOf(consts: seq<Token> -> Option<string>, expression: seq<Token>): Option<string> {
    if |expression| == 1 && expression[0].Literal? then StringValue(expression[0].text) else consts(expression)
  }

  // ---------------------------------------------------------------- what the attribute declares

  /** The expression the attribute gives for its path, its tag or its tags. */
  function Given(tokens: seq<Token>, key: string): Option<seq<Token>> {
    match LastGiven(tokens, key, |tokens|)
    case None => None
    case Some(i) => Some(Expression(tokens, i))
  }

  function PathOf(consts: seq<Token> -> Option<string>, tokens: seq<Token>): Option<string> {
    match Given(tokens, "path")
    case None => None
    case Some(expression) => ValueOf(consts, expression)
  }

  /** Some element of the list `[..]` has the value. */
  ghost predicate Lists(consts: seq<Token> -> Option<string>, expression: seq<Token>, value: string) {
    && |expression| == 1 && expression[0].Group? && expression[0].delimiter == Bracket
    && var inner := expression[0].tokens;
       exists i: nat :: StartsArgument(inner, i) && ValueOf(consts, inner[i..ArgumentEnd(inner, i)]) == Some(value)
  }

  /** Tagged by `tag = ..` or by an element of `tags = [..]`. */
  ghost predicate IsTagged(consts: seq<Token> -> Option<string>, tokens: seq<Token>, tag: string) {
    || (Given(tokens, "tag").Some? && ValueOf(consts, Given(tokens, "tag").value) == Some(tag))
    || (Given(tokens, "tags").Some? && Lists(consts, Given(tokens, "tags").value, tag))
  }

  /** `"session_cookie" = []` in parentheses, however the string is written. */
  predicate IsCookieRequirement(token: Token) {
    && token.Group? && token.delimiter == Parenthesis
    && |token.tokens| == 3 && token.tokens[0].Literal? && StringValue(token.tokens[0].text) == Some("session_cookie")
    && token.tokens[1] == Punct('=') && token.tokens[2] == Group(Bracket, [])
  }

  /** The attribute declares `security(("session_cookie" = []))`. */
  ghost predicate DeclaresSessionCookie(tokens: seq<Token>) {
    exists i: nat :: CookieAt(tokens, i)
  }

  predicate CookieAt(tokens: seq<Token>, i: nat) {
    && StartsArgument(tokens, i) && StatedAt(SecurityFact, tokens, i)
    && i + 1 < |tokens| && tokens[i + 1].Group? && tokens[i + 1].delimiter == Parenthesis
    && var inner := tokens[i + 1].tokens;
       && inner != [] && IsCookieRequirement(inner[0]) && inner[1..] in [[], [COMMA]]
  }

  /** A route tagged `stores` must declare the session cookie, says the documentation. */
  ghost predicate LacksProtection(consts: seq<Token> -> Option<string>, tokens: seq<Token>) {
    Given(tokens, "path").Some? && IsTagged(consts, tokens, "stores") && !DeclaresSessionCookie(tokens)
  }

  // ---------------------------------------------------------------- what the scanner hears

  /** The checker accuses this attribute of lacking protection. */
  predicate IsAccused(tokens: seq<Token>) {
    RouteOf(tokens).Some? && RouteOf(tokens).value.unprotected
  }

  ghost predicate NamesSecurity(tokens: seq<Token>) {
    exists i: nat :: StatedAt(SecurityFact, tokens, i)
  }

  ghost predicate HearsPath(tokens: seq<Token>) {
    exists i: nat :: StatedAt(PathFact, tokens, i)
  }

  /** The last `tag =` before a literal is `stores`, once quotes are trimmed. */
  predicate HearsStores(tokens: seq<Token>) {
    var tag := Last(TagFact, tokens, |tokens|);
    tag.Some? && ValueAt(tokens, tag.value) == "stores"
  }

  /** For all token sequences: the checker does what the documentation says if and only if the
      attribute is none of these: one that lacks protection, but whose path or tag is not heard or
      that names some security; and one whose path and tag are heard and that names no security, but
      that declares no path or is not tagged so. */
  lemma ProtectionRuleExact(consts: seq<Token> -> Option<string>, tokens: seq<Token>)
    ensures (IsAccused(tokens) <==> LacksProtection(consts, tokens)) <==>
            && !(LacksProtection(consts, tokens)
                 && (!HearsPath(tokens) || !HearsStores(tokens) || NamesSecurity(tokens)))
            && !(HearsPath(tokens) && HearsStores(tokens) && !NamesSecurity(tokens)
                 && !(Given(tokens, "path").Some? && IsTagged(consts, tokens, "stores")))
  {
    AccusedExact(tokens);
    if DeclaresSessionCookie(tokens) {
      var i: nat :| CookieAt(tokens, i);
      assert StatedAt(SecurityFact, tokens, i);
    }
  }

  lemma AccusedExact(tokens: seq<Token>)
    ensures IsAccused(tokens) <==> HearsPath(tokens) && HearsStores(tokens) && !NamesSecurity(tokens)
  {
    LastIsLast(PathFact, tokens, |tokens|, 0);
    LastIsLast(SecurityFact, tokens, |tokens|, 0);
    if i: nat :| StatedAt(PathFact, tokens, i) {
      assert i < |tokens|;
    }
    if i: nat :| StatedAt(SecurityFact, tokens, i) {
      assert i < |tokens|;
    }
  }

  // ---------------------------------------------------------------- attributes as they are written

  /** Only arguments give a path or a tag, each at most once, and a literal there is the whole
      expression: as in every attribute that gives them plainly, by a constant or by a list. */
  ghost predicate IsRegular(tokens: seq<Token>) {
    && (forall i: nat, key | key in {"path", "tag"} && KeyAt(tokens, i, key) ::
          GivenAt(tokens, i, key) && |Expression(tokens, i)| == 1 && IsLiteral(tokens[i + 2].text))
    && (forall i: nat, j: nat, key | key in {"path", "tag"} && GivenAt(tokens, i, key) && GivenAt(tokens, j, key) ::
          i == j)
  }

  /** The expression is one literal, with this beginning. */
  predicate IsLiteralFrom(expression: Option<seq<Token>>, head: string) {
    && expression.Some? && |expression.value| == 1 && expression.value[0].Literal?
    && head <= expression.value[0].text
  }

  /** In a regular attribute the scanner hears a path exactly if it is given by a literal that begins
      with a quote and a slash, and `stores` exactly if the tag is the literal `"stores"`. */
  lemma HearsExact(tokens: seq<Token>)
    requires IsRegular(tokens)
    ensures HearsPath(tokens) <==> IsLiteralFrom(Given(tokens, "path"), "\"/")
    ensures HearsStores(tokens) <==> Given(tokens, "tag").Some? && IsStoresLiteral(Given(tokens, "tag").value)
  {
    HearsPathExact(tokens);
    HearsStoresExact(tokens);
  }

  predicate IsStoresLiteral(expression: seq<Token>) {
    |expression| == 1 && expression[0] == Literal(Quoted("stores"))
  }

  /** A key before a literal is the argument that gives the key, with that literal. */
  lemma KeyIsGiven(tokens: seq<Token>, i: nat, key: string)
    requires IsRegular(tokens) && key in {"path", "tag"} && KeyAt(tokens, i, key)
    ensures LastGiven(tokens, key, |tokens|) == Some(i) && Given(tokens, key) == Some([tokens[i + 2]])
    ensures IsLiteral(tokens[i + 2].text)
  {
    assert GivenAt(tokens, i, key);
    assert Expression(tokens, i)[0] == tokens[i + 2];
    assert Expression(tokens, i) == [tokens[i + 2]];
  }

  /** And the argument that gives it by a literal is a key before a literal. */
  lemma GivenIsKey(tokens: seq<Token>, key: string)
    requires Given(tokens, key).Some? && |Given(tokens, key).value| == 1 && Given(tokens, key).value[0].Literal?
    ensures LastGiven(tokens, key, |tokens|).Some?
    ensures var i := LastGiven(tokens, key, |tokens|).value;
            KeyAt(tokens, i, key) && tokens[i + 2] == Given(tokens, key).value[0]
  {
  }

  lemma HearsPathExact(tokens: seq<Token>)
    requires IsRegular(tokens)
    ensures HearsPath(tokens) <==> IsLiteralFrom(Given(tokens, "path"), "\"/")
  {
    if i: nat :| StatedAt(PathFact, tokens, i) {
      KeyIsGiven(tokens, i, "path");
      ReadsSlash(tokens[i + 2].text);
    }
    if IsLiteralFrom(Given(tokens, "path"), "\"/") {
      GivenIsKey(tokens, "path");
      var i := LastGiven(tokens, "path", |tokens|).value;
      KeyIsGiven(tokens, i, "path");
      ReadsSlash(tokens[i + 2].text);
      assert StatedAt(PathFact, tokens, i);
    }
  }

  lemma HearsStoresExact(tokens: seq<Token>)
    requires IsRegular(tokens)
    ensures HearsStores(tokens) <==> Given(tokens, "tag").Some? && IsStoresLiteral(Given(tokens, "tag").value)
  {
    var n := |tokens|;
    hide Given, IsLiteral, TrimQuotes, Quoted, IsRegular;
    if Last(TagFact, tokens, n).Some? {
      var i := Last(TagFact, tokens, n).value;
      KeyIsGiven(tokens, i, "tag");
      ReadsWordOnlyPlain(tokens[i + 2].text, "stores");
    }
    if Given(tokens, "tag").Some? && IsStoresLiteral(Given(tokens, "tag").value) {
      GivenIsKey(tokens, "tag");
      LastIsLast(TagFact, tokens, n, 0);
      assert StatedAt(TagFact, tokens, LastGiven(tokens, "tag", n).value);
    }
  }

  /** On regular attributes every accusation is right, and the checker does what the documentation
      says if and only if the attribute does not lack protection in one of these ways: its path is
      not a literal beginning with a quote and a slash, its tag is not the literal `"stores"`, or it
      names some security. */
  lemma RegularProtectionExact(consts: seq<Token> -> Option<string>, tokens: seq<Token>)
    requires IsRegular(tokens)
    ensures IsAccused(tokens) ==> LacksProtection(consts, tokens)
    ensures (IsAccused(tokens) <==> LacksProtection(consts, tokens)) <==>
            (LacksProtection(consts, tokens) ==>
               && IsLiteralFrom(Given(tokens, "path"), "\"/")
               && Given(tokens, "tag").Some? && IsStoresLiteral(Given(tokens, "tag").value)
               && !NamesSecurity(tokens))
  {
    HearsExact(tokens);
    ProtectionRuleExact(consts, tokens);
    StoresLiteral();
  }

  lemma StoresLiteral()
    ensures StringValue(Quoted("stores")) == Some("stores")
  {
    PlainValue("stores");
  }

  /** The recorded path is the declared one if and only if it is given by a plain literal that begins
      with a slash. */
  lemma RecordedPathExact(consts: seq<Token> -> Option<string>, tokens: seq<Token>)
    requires IsRegular(tokens) && PathOf(consts, tokens).Some?
    ensures RouteOf(tokens).Some? && RouteOf(tokens).value.path == PathOf(consts, tokens).value <==>
            IsLiteralFrom(Given(tokens, "path"), "\"/") && IsPlain(Given(tokens, "path").value[0].text)
  {
    HearsExact(tokens);
    LastIsLast(PathFact, tokens, |tokens|, 0);
    if Last(PathFact, tokens, |tokens|).Some? {
      var i := Last(PathFact, tokens, |tokens|).value;
      KeyIsGiven(tokens, i, "path");
      TrimmedIsValue(tokens[i + 2].text);
    }
  }

  // ---------------------------------------------------------------- attributes that pass unprotected

  /** `path = ..`, and one more argument. */
  function Attributed(path: string, key: string, expression: Token): seq<Token> {
    [Ident("path", 1), Punct('='), Literal(path), COMMA, Ident(key, 1), Punct('='), expression]
  }

  lemma AttributedGives(path: string, key: string, expression: Token)
    requires key != "path" && expression != COMMA && (expression.Ident? ==> expression.name != "security")
    ensures var tokens := Attributed(path, key, expression);
            && Given(tokens, "path") == Some([Literal(path)]) && Given(tokens, key) == Some([expression])
            && (key != "security" ==> !NamesSecurity(tokens))
            && (expression.Literal? && key == "tag" ==>
                  Last(TagFact, tokens, |tokens|) == Some(4) && ValueAt(tokens, 4) == TrimQuotes(expression.text))
            && (!expression.Literal? || key != "tag" ==> Last(TagFact, tokens, |tokens|) == None)
  {
    hide TrimQuotes, StringValue;
    var tokens := Attributed(path, key, expression);
    var n := |tokens|;
    assert GivenAt(tokens, 0, "path") && GivenAt(tokens, 4, key);
    assert ArgumentEnd(tokens, 2) == ArgumentEnd(tokens, 3) == 3;
    assert ArgumentEnd(tokens, 6) == ArgumentEnd(tokens, 7) == 7;
    assert Expression(tokens, 0) == [Literal(path)] && Expression(tokens, 4) == [expression];
    LastIsLast(TagFact, tokens, n, 4);
  }

  /** A `stores` route without any security that the checker lets pass. */
  ghost predicate PassesUnprotected(consts: seq<Token> -> Option<string>, tokens: seq<Token>) {
    LacksProtection(consts, tokens) && !NamesSecurity(tokens) && !IsAccused(tokens)
  }

  /** The tag given by a raw literal, with an escape, by a constant or in a list passes. */
  lemma OtherTagsPass(consts: seq<Token> -> Option<string>)
    ensures PassesUnprotected(consts, Attributed(Quoted("/stores"), "tag", Literal(RawQuoted("stores"))))
    ensures PassesUnprotected(consts, Attributed(Quoted("/stores"), "tag", Literal("\"\\x73tores\"")))
    ensures PassesUnprotected(consts, Attributed(Quoted("/stores"), "tags",
                                                 Group(Bracket, [Literal(Quoted("stores"))])))
    ensures consts([Ident("STORES", 1)]) == Some("stores") ==>
              PassesUnprotected(consts, Attributed(Quoted("/stores"), "tag", Ident("STORES", 1)))
  {
    hide PassesUnprotected, Attributed, StringValue;
    RawStores();
    TagPasses(consts, Quoted("/stores"), "tag", Literal(RawQuoted("stores")));
    EscapedStores();
    TagPasses(consts, Quoted("/stores"), "tag", Literal("\"\\x73tores\""));
    StoresLiteral();
    var list := [Literal(Quoted("stores"))];
    assert list[0..ArgumentEnd(list, 0)] == list && StartsArgument(list, 0);
    TagPasses(consts, Quoted("/stores"), "tags", Group(Bracket, list));
    if consts([Ident("STORES", 1)]) == Some("stores") {
      TagPasses(consts, Quoted("/stores"), "tag", Ident("STORES", 1));
    }
  }

  lemma TagPasses(consts: seq<Token> -> Option<string>, path: string, key: string, expression: Token)
    requires key in {"tag", "tags"} && expression != COMMA && (expression.Ident? ==> expression.name != "security")
    requires key == "tag" ==> ValueOf(consts, [expression]) == Some("stores")
    requires key == "tags" ==> Lists(consts, [expression], "stores")
    requires expression.Literal? ==> IsLiteral(expression.text) && expression.text != Quoted("stores")
    ensures PassesUnprotected(consts, Attributed(path, key, expression))
  {
    hide Given, StringValue, TrimQuotes, IsLiteral, ValueOf;
    var tokens := Attributed(path, key, expression);
    AttributedGives(path, key, expression);
    if expression.Literal? {
      ReadsWordOnlyPlain(expression.text, "stores");
    }
    AccusedExact(tokens);
    assert forall i: nat :: !CookieAt(tokens, i);
  }

  lemma RawStores()
    ensures StringValue(RawQuoted("stores")) == Some("stores")
  {
    RawLiteral("stores");
  }

  lemma EscapedStores()
    ensures StringValue("\"\\x73tores\"") == Some("stores")
  {
    var text := "\"\\x73tores\"";
    var body := text[1..|text| - 1];
    assert body == "\\x73tores" && body[4..] == "tores";
    UnescapePlain("tores");
    assert ReadEscape(body) == Some(("s", 4));
    assert "s" + "tores" == "stores";
  }

  /** So does a `stores` route whose path is given by a raw literal: the scanner finds no route. */
  lemma RawPathPasses(consts: seq<Token> -> Option<string>)
    ensures var tokens := Attributed(RawQuoted("/stores"), "tag", Literal(Quoted("stores")));
            && PathOf(consts, tokens) == Some("/stores") && RouteOf(tokens) == None
            && PassesUnprotected(consts, tokens)
  {
    hide StringValue, TrimQuotes;
    AttributedGives(RawQuoted("/stores"), "tag", Literal(Quoted("stores")));
    StoresLiteral();
    RawStoresPath();
    RawPathIsNoRoute(RawQuoted("/stores"), Literal(Quoted("stores")));
  }

  lemma RawStoresPath()
    ensures StringValue(RawQuoted("/stores")) == Some("/stores")
  {
    RawLiteral("/stores");
  }

  lemma RawPathIsNoRoute(path: string, tag: Token)
    requires path != "" && path[0] == 'r' && tag.Literal?
    ensures var tokens := Attributed(path, "tag", tag);
            RouteOf(tokens) == None && !DeclaresSessionCookie(tokens) && !NamesSecurity(tokens) && !IsAccused(tokens)
  {
    hide TrimQuotes;
    var tokens := Attributed(path, "tag", tag);
    TrimKeepsHead(path);
    LastIsLast(PathFact, tokens, |tokens|, 0);
    forall i: nat ensures !StatedAt(PathFact, tokens, i) && !StatedAt(SecurityFact, tokens, i) {
    }
  }

  /** Whatever the group behind `security`, a `stores` route passes, and declares the cookie only by
      the right group. */
  lemma AnySecurityPasses(consts: seq<Token> -> Option<string>, group: Token)
    requires group.Group?
    ensures var tokens := SecuredStores(group);
            && Given(tokens, "path").Some? && IsTagged(consts, tokens, "stores") && !IsAccused(tokens)
            && (DeclaresSessionCookie(tokens) <==> CookieAt(tokens, 8))
  {
    var tokens := SecuredStores(group);
    SecuredStoresGives(group);
    StoresLiteral();
    hide StringValue, Given;
    AccusedExact(tokens);
    assert StatedAt(SecurityFact, tokens, 8);
  }

  /** So with an empty group, and with another scheme, it passes without declaring the cookie. */
  lemma OtherSecurityIsNoCookie()
    ensures !CookieAt(SecuredStores(Group(Parenthesis, [])), 8)
    ensures !CookieAt(SecuredStores(Group(Parenthesis, [OTHER_SCHEME])), 8)
    ensures CookieAt(SecuredStores(Group(Parenthesis, [SESSION_COOKIE])), 8)
  {
    CookieLiteral();
    OtherLiteral();
    hide StringValue;
    assert [SESSION_COOKIE][1..] == [];
  }

  const SESSION_COOKIE: Token :=
    Group(Parenthesis, [Literal(Quoted("session_cookie")), Punct('='), Group(Bracket, [])])

  const OTHER_SCHEME: Token := Group(Parenthesis, [Literal(Quoted("other")), Punct('='), Group(Bracket, [])])

  /** `path = "/stores", tag = "stores", security` and a group. */
  function SecuredStores(group: Token): seq<Token> {
    Attributed(Quoted("/stores"), "tag", Literal(Quoted("stores"))) + [COMMA, Ident("security", 1), group]
  }

  lemma SecuredStoresGives(group: Token)
    requires group.Group?
    ensures var tokens := SecuredStores(group);
            && Given(tokens, "path") == Some([Literal(Quoted("/stores"))])
            && Given(tokens, "tag") == Some([Literal(Quoted("stores"))])
  {
    var tokens := SecuredStores(group);
    assert GivenAt(tokens, 0, "path") && GivenAt(tokens, 4, "tag");
    assert ArgumentEnd(tokens, 2) == ArgumentEnd(tokens, 3) == 3;
    assert ArgumentEnd(tokens, 6) == ArgumentEnd(tokens, 7) == 7;
    assert Expression(tokens, 0) == [Literal(Quoted("/stores"))];
    assert Expression(tokens, 4) == [Literal(Quoted("stores"))];
  }

  lemma CookieLiteral()
    ensures StringValue(Quoted("session_cookie")) == Some("session_cookie")
  {
    PlainValue("session_cookie");
    hide StringValue, IsPlain;
  }

  lemma OtherLiteral()
    ensures StringValue(Quoted("other")) == Some("other")
  {
    PlainValue("other");
    hide StringValue, IsPlain;
  }
}
