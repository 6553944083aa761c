/**
 The generated file `declared_paths.rs`: its printer, a parser that inverts it, and the
 normalisation of route paths.
 */
module DeclaredPaths {
  import opened Wrappers
  import opened Order

  const BANNER: string :=
    "// @generated by tools/tidy \U{2014} " + "do not edit.\n" +
    "// Run `cargo run -p tidy -- --update` " + "to regenerate.\n"

  const PURPOSE: string :=
    "//\n// Every #[utoipa::path] " + "route declared across the slices, " + "normalized\n"

  const USE: string := "// to the served form (/api prefix). " + "The router test checks this set\n"

  const REASON: string := "// against the live spec, " + "so doc and router cannot drift.\n"

  const DECLARATION: string :=
    "#[cfg(test)]\npub(crate) " + "const DECLARED_API_PATHS: &[&str] = &[\n"

  const HEADER: string := BANNER + PURPOSE + USE + REASON + DECLARATION

  const OPEN: string := "    \""
  const CLOSE: string := "\",\n"
  const FOOTER: string := "];\n"

  // ---------------------------------------------------------------- escaping

  /** `str::replace` of a single character. */
  function Replace(s: string, c: char, with: string): string {
    if s == "" then "" else (if s[0] == c then with else [s[0]]) + Replace(s[1..], c, with)
  }

  /** The two replacements of the printer, backslashes first. */
  function EscapeTwice(s: string): string {
    Replace(Replace(s, '\\', "\\\\"), '"', "\\\"")
  }

  function EscapeChar(c: char): string {
    if c == '\\' then "\\\\" else if c == '"' then "\\\"" else [c]
  }

  /** One pass that escapes each character on its own. */
  function Escape(s: string): string {
    if s == "" then "" else EscapeChar(s[0]) + Escape(s[1..])
  }

  lemma {:induction false} ReplaceAppend(a: string, b: string, c: char, with: string)
    ensures Replace(a + b, c, with) == Replace(a, c, with) + Replace(b, c, with)
  {
    if a == "" {
      assert a + b == b;
    } else {
      assert (a + b)[1..] == a[1..] + b;
      ReplaceAppend(a[1..], b, c, with);
    }
  }

  lemma ReplaceShort(c: char, d: char)
    ensures Replace([c], '"', "\\\"") == if c == '"' then "\\\"" else [c]
    ensures c != '"' && d != '"' ==> Replace([c, d], '"', "\\\"") == [c, d]
  {
    assert [c, d][1..] == [d] && [c][1..] == "" && [d][1..] == "";
    assert [c] + [d] == [c, d] && [d] + "" == [d];
  }

  /** Replacing twice equals escaping once, because the backslashes the second replacement adds
      come after the first one has passed, and the first adds no quotes. */
  lemma {:induction false} TwoPassesAreOne(s: string)
    ensures EscapeTwice(s) == Escape(s)
  {
    if s != "" {
      var first := if s[0] == '\\' then "\\\\" else [s[0]];
      ReplaceAppend(first, Replace(s[1..], '\\', "\\\\"), '"', "\\\"");
      ReplaceShort(s[0], '\\');
      TwoPassesAreOne(s[1..]);
    }
  }

  // ---------------------------------------------------------------- printer and parser

  function Line(path: string): string {
    OPEN + Escape(path) + CLOSE
  }

  function Lines(declared: seq<string>): string {
    if declared == [] then "" else Line(declared[0]) + Lines(declared[1..])
  }

  function Text(declared: seq<string>): string {
    HEADER + Lines(declared) + FOOTER
  }

  /** `render_declared_paths` */
  method Render(declared: seq<string>) returns (out: string)
    ensures out == Text(declared)
  {
    hide HEADER, OPEN, CLOSE, FOOTER, Escape, EscapeTwice;
    out := HEADER;
    var i := 0;
    while i < |declared|
      invariant 0 <= i <= |declared|
      invariant out + Lines(declared[i..]) == HEADER + Lines(declared)
    {
      var escaped := EscapeTwice(declared[i]);
      TwoPassesAreOne(declared[i]);
      ghost var before := out;
      out := out + OPEN + escaped + CLOSE;
      assert declared[i..][1..] == declared[i + 1..];
      assert out + Lines(declared[i + 1..]) == before + (Line(declared[i]) + Lines(declared[i + 1..]));
      i := i + 1;
    }
    out := out + FOOTER;
  }

  /** Reads a string literal up to its closing quote: the value and what follows. */
  function ReadString(t: string): Option<(string, string)> {
    if t == "" then None
    else if t[0] == '"' then Some(("", t[1..]))
    else if t[0] == '\\' then
      if |t| < 2 || t[1] !in "\\\"" then None
      else match ReadString(t[2..])
        case None => None
        case Some((value, rest)) => Some(([t[1]] + value, rest))
    else match ReadString(t[1..])
      case None => None
      case Some((value, rest)) => Some(([t[0]] + value, rest))
  }

  function ParseLines(t: string): Option<seq<string>>
    decreases |t|
  {
    if t == FOOTER then Some([])
    else if |t| < |OPEN| || t[..|OPEN|] != OPEN then None
    else match ReadString(t[|OPEN|..])
      case None => None
      case Some((path, rest)) =>
        if |rest| < 2 || |rest| >= |t| || rest[..2] != ",\n" then None
        else match ParseLines(rest[2..])
          case None => None
          case Some(paths) => Some([path] + paths)
  }

  function Parse(t: string): Option<seq<string>> {
    if |t| < |HEADER| || t[..|HEADER|] != HEADER then None else ParseLines(t[|HEADER|..])
  }

  /** Reading past one escaped character, or past the closing quote. */
  lemma ReadCharacter(c: char, t: string)
    ensures ReadString(EscapeChar(c) + t) == match ReadString(t)
              case None => None
              case Some((value, rest)) => Some(([c] + value, rest))
  {
    var u := EscapeChar(c) + t;
    if c == '\\' || c == '"' {
      assert u[0] == '\\' && u[1] == c && u[2..] == t;
    } else {
      assert u[0] == c && u[1..] == t;
    }
  }

  lemma ReadClosingQuote(rest: string)
    ensures ReadString("\"" + rest) == Some(("", rest))
  {
    assert ("\"" + rest)[1..] == rest;
  }

  lemma {:induction false} ReadStringInverts(s: string, rest: string)
    ensures ReadString(Escape(s) + ("\"" + rest)) == Some((s, rest))
  {
    hide ReadString, EscapeChar;
    if s == "" {
      assert Escape(s) + ("\"" + rest) == "\"" + rest;
      ReadClosingQuote(rest);
    } else {
      var after := Escape(s[1..]) + ("\"" + rest);
      assert Escape(s) + ("\"" + rest) == EscapeChar(s[0]) + after;
      ReadCharacter(s[0], after);
      ReadStringInverts(s[1..], rest);
      assert s == [s[0]] + s[1..];
    }
  }

  /** What a successful read began with. */
  lemma UnreadCharacter(t: string) returns (c: char, u: string)
    requires ReadString(t).Some? && t[0] != '"'
    ensures t == EscapeChar(c) + u && |u| < |t| && ReadString(u).Some?
    ensures ReadString(t).value == ([c] + ReadString(u).value.0, ReadString(u).value.1)
  {
    if t[0] == '\\' {
      c, u := t[1], t[2..];
      assert t == [t[0], t[1]] + u;
    } else {
      c, u := t[0], t[1..];
      assert t == [t[0]] + u;
    }
  }

  lemma {:induction false} ReadStringOnlyEscapes(t: string)
    requires ReadString(t).Some?
    ensures var (s, rest) := ReadString(t).value; t == Escape(s) + ("\"" + rest)
    decreases |t|
  {
    if t[0] == '"' {
      assert t == "\"" + t[1..];
    } else {
      var c, u := UnreadCharacter(t);
      ReadStringOnlyEscapes(u);
      hide ReadString, EscapeChar;
      var (v, rest) := ReadString(u).value;
      EscapeCons(c, v);
      assert t == (EscapeChar(c) + Escape(v)) + ("\"" + rest);
    }
  }

  lemma EscapeCons(c: char, s: string)
    ensures Escape([c] + s) == EscapeChar(c) + Escape(s)
  {
    assert ([c] + s)[1..] == s;
  }

  lemma LineIs(p: string, t: string)
    ensures Line(p) + t == OPEN + (Escape(p) + ("\"" + (",\n" + t)))
  {
    assert CLOSE == "\"" + ",\n";
  }

  lemma ParseLine(p: string, t: string)
    requires |t| > 0
    ensures ParseLines(Line(p) + t) == match ParseLines(t) case None => None case Some(paths) => Some([p] + paths)
  {
    var u, rest := Line(p) + t, ",\n" + t;
    LineIs(p, t);
    ReadStringInverts(p, rest);
    hide Line, Escape, ReadString, HEADER;
    assert u[..|OPEN|] == OPEN && u[|OPEN|..] == Escape(p) + ("\"" + rest);
    assert u[0] == ' ' && rest[..2] == ",\n" && rest[2..] == t;
  }

  lemma {:induction false} ParseLinesInverts(declared: seq<string>)
    ensures ParseLines(Lines(declared) + FOOTER) == Some(declared)
  {
    assert |FOOTER| > 0 && ParseLines(FOOTER) == Some([]);
    hide HEADER, FOOTER, Line, ParseLines;
    if declared == [] {
      assert Lines(declared) + FOOTER == FOOTER;
    } else {
      var tail := Lines(declared[1..]) + FOOTER;
      assert Lines(declared) + FOOTER == Line(declared[0]) + tail;
      ParseLine(declared[0], tail);
      ParseLinesInverts(declared[1..]);
      assert declared == [declared[0]] + declared[1..];
    }
  }

  /** What a successful parse began with. */
  lemma UnparseLine(t: string) returns (p: string, u: string)
    requires ParseLines(t).Some? && t != FOOTER
    ensures t == Line(p) + u && |u| < |t| && ParseLines(u).Some?
    ensures ParseLines(t).value == [p] + ParseLines(u).value
  {
    var rest: string;
    var read := ReadString(t[|OPEN|..]).value;
    p, rest := read.0, read.1;
    u := rest[2..];
    ReadStringOnlyEscapes(t[|OPEN|..]);
    LineIs(p, u);
    hide Line, Escape, ReadString, HEADER;
    assert rest == ",\n" + u;
    assert t == OPEN + t[|OPEN|..];
  }

  lemma {:induction false} ParseLinesOnlyLines(t: string)
    requires ParseLines(t).Some?
    ensures t == Lines(ParseLines(t).value) + FOOTER
    decreases |t|
  {
    if t == FOOTER {
      assert ParseLines(t).value == [] && Lines([]) + FOOTER == FOOTER;
    } else {
      var p, u := UnparseLine(t);
      hide HEADER, FOOTER, Line, ParseLines;
      ParseLinesOnlyLines(u);
      var paths := ParseLines(u).value;
      assert ([p] + paths)[1..] == paths;
      assert Line(p) + (Lines(paths) + FOOTER) == (Line(p) + Lines(paths)) + FOOTER;
    }
  }

  /** The parser recovers every list of paths from its text, whatever characters they contain,
      and accepts no other text: a file is the text of a list exactly when it parses to it. */
  lemma ParseInvertsText(declared: seq<string>, t: string)
    ensures t == Text(declared) <==> Parse(t) == Some(declared)
  {
    hide HEADER, FOOTER, Lines, ParseLines;
    if t == Text(declared) {
      assert t[..|HEADER|] == HEADER && t[|HEADER|..] == Lines(declared) + FOOTER;
      ParseLinesInverts(declared);
    }
    if Parse(t) == Some(declared) {
      ParseLinesOnlyLines(t[|HEADER|..]);
      assert t == HEADER + t[|HEADER|..];
    }
  }

  // ---------------------------------------------------------------- normalisation

  predicate StartsWith(s: string, prefix: string) {
    prefix <= s
  }

  /** `normalize_path` */
  function Normalize(path: string): string {
    if StartsWith(path, "/api") then path else "/api" + path
  }

  /** Normalising twice is normalising once, and two routes collide only as the bare and the
      prefixed spelling of the same path. */
  lemma NormalizeCollisions(p: string, q: string)
    ensures Normalize(Normalize(p)) == Normalize(p)
    ensures Normalize(p) == Normalize(q) <==>
            || p == q
            || (p == "/api" + q && !StartsWith(q, "/api"))
            || (q == "/api" + p && !StartsWith(p, "/api"))
  {
    assert ("/api" + p)[4..] == p && ("/api" + q)[4..] == q;
  }

  /** A route ends up under `/api/` unless it begins with `/api` without a slash after it; such a
      route, like `/apiary`, is taken for prefixed and left as it is. */
  lemma ServedUnderApi(path: string)
    requires StartsWith(path, "/")
    ensures StartsWith(Normalize(path), "/api/") <==> (StartsWith(path, "/api") ==> StartsWith(path, "/api/"))
    ensures !StartsWith(Normalize("/apiary"), "/api/")
  {
    if !StartsWith(path, "/api") {
      assert ("/api" + path)[4] == '/';
    }
    assert "/apiary"[4] == 'a';
  }

  // ---------------------------------------------------------------- the set of declared paths

  /** What the `BTreeSet` of normalised routes iterates over. */
  function Listing(routes: seq<string>): seq<string> {
    Sort(StringLess, routes)
  }

  lemma ListingSnoc(routes: seq<string>, p: string)
    ensures Listing(routes + [p]) == Insert(StringLess, Listing(routes), p)
  {
    assert (routes + [p])[..|routes|] == routes;
  }

  /** The byte comparison of the stale check passes exactly when the file lists the same set. */
  lemma SameTextSameSet(a: seq<string>, b: seq<string>)
    ensures Text(Listing(a)) == Text(Listing(b)) <==> forall p :: p in a <==> p in b
  {
    StringsAreOrdered();
    SortDependsOnElements(StringLess, a, b);
    ParseInvertsText(Listing(a), Text(Listing(a)));
    ParseInvertsText(Listing(b), Text(Listing(a)));
  }

  /** `paths` is what the text lists: a parse of it, in ascending order. */
  ghost predicate Lists(text: string, paths: seq<string>) {
    Parse(text) == Some(paths) && Ascending(StringLess, paths)
  }

  lemma ListsTheSet(text: string, listing: seq<string>)
    requires Ascending(StringLess, listing)
    ensures text == Text(listing) <==> exists paths :: Lists(text, paths) && forall p :: p in paths <==> p in listing
  {
    ParseInvertsText(listing, text);
    if text == Text(listing) {
      assert Lists(text, listing);
    }
    if paths :| Lists(text, paths) && forall p :: p in paths <==> p in listing {
      StringsAreOrdered();
      AscendingIsUnique(StringLess, paths, listing);
    }
  }
}
