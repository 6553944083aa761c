/**
 String literals: their source text, the value Rust gives them, and what is left of the text once its
 quotes are trimmed, which is how the checker reads them.
 */
module Literals {
  import opened Wrappers

  function TrimStart(s: string): string {
    if s != "" && s[0] == '"' then TrimStart(s[1..]) else s
  }

  function TrimEnd(s: string): string {
    if s != "" && s[|s| - 1] == '"' then TrimEnd(s[..|s| - 1]) else s
  }

  /** `trim_matches('"')` */
  function TrimQuotes(s: string): string {
    TrimEnd(TrimStart(s))
  }

  predicate OnlyQuotes(s: string) {
    forall c | c in s :: c == '"'
  }

  /** Trimming strips quotes alone, from both ends, and all of them. */
  lemma TrimQuotesExact(s: string) returns (before: string, after: string)
    ensures s == before + TrimQuotes(s) + after && OnlyQuotes(before) && OnlyQuotes(after)
    ensures var t := TrimQuotes(s); t != "" ==> t[0] != '"' && t[|t| - 1] != '"'
  {
    before := TrimStartExact(s);
    after := TrimEndExact(TrimStart(s));
  }

  lemma {:induction false} TrimStartExact(s: string) returns (before: string)
    ensures s == before + TrimStart(s) && OnlyQuotes(before)
    ensures TrimStart(s) != "" ==> TrimStart(s)[0] != '"'
  {
    before := "";
    if s != "" && s[0] == '"' {
      var rest := TrimStartExact(s[1..]);
      before := "\"" + rest;
    }
  }

  lemma {:induction false} TrimEndExact(s: string) returns (after: string)
    ensures s == TrimEnd(s) + after && OnlyQuotes(after)
    ensures TrimEnd(s) != "" ==> TrimEnd(s)[|TrimEnd(s)| - 1] != '"'
  {
    after := "";
    if s != "" && s[|s| - 1] == '"' {
      var rest := TrimEndExact(s[..|s| - 1]);
      after := rest + "\"";
    }
  }

  // ---------------------------------------------------------------- the value of a literal

  function HexDigit(c: char): Option<nat> {
    if '0' <= c <= '9' then Some(c as int - '0' as int)
    else if 'a' <= c <= 'f' then Some(c as int - 'a' as int + 10)
    else if 'A' <= c <= 'F' then Some(c as int - 'A' as int + 10)
    else None
  }

  /** Reads hexadecimal digits, with underscores between them: their number, their count, the rest. */
  function ReadHex(t: string, number: nat, count: nat): (r: (nat, nat, string))
    ensures |r.2| <= |t| && t[|t| - |r.2|..] == r.2
    ensures forall k | 0 <= k < |t| - |r.2| :: HexDigit(t[k]).Some? || t[k] == '_'
  {
    if t == "" then (number, count, t)
    else if HexDigit(t[0]).Some? then ReadHex(t[1..], 16 * number + HexDigit(t[0]).value, count + 1)
    else if t[0] == '_' && count > 0 then ReadHex(t[1..], number, count)
    else (number, count, t)
  }

  predicate IsScalar(n: nat) {
    n < 0xd800 || 0xe000 <= n < 0x11_0000
  }

  predicate IsBlankChar(c: char) {
    c == ' ' || c == '\t' || c == '\n' || c == '\r'
  }

  function SkipBlanks(t: string): (r: string)
    ensures |r| <= |t| && t[|t| - |r|..] == r
    ensures forall k | 0 <= k < |t| - |r| :: IsBlankChar(t[k])
  {
    if t != "" && IsBlankChar(t[0]) then SkipBlanks(t[1..]) else t
  }

  /** The escape at the head of `t`: what it stands for and how many characters it takes. */
  function ReadEscape(t: string): Option<(string, nat)>
    requires t != "" && t[0] == '\\'
  {
    if |t| < 2 then None
    else match t[1]
      case 'n' => Some(("\n", 2))
      case 'r' => Some(("\r", 2))
      case 't' => Some(("\t", 2))
      case '0' => Some(("\0", 2))
      case '\\' => Some(("\\", 2))
      case '\'' => Some(("'", 2))
      case '"' => Some(("\"", 2))
      case 'x' =>
        if |t| < 4 || HexDigit(t[2]).None? || HexDigit(t[3]).None? || HexDigit(t[2]).value > 7 then None
        else Some(([(16 * HexDigit(t[2]).value + HexDigit(t[3]).value) as char], 4))
      case 'u' =>
        if |t| < 3 || t[2] != '{' then None
        else
          var (number, count, rest) := ReadHex(t[3..], 0, 0);
          if !(1 <= count <= 6) || !IsScalar(number) || rest == "" || rest[0] != '}' then None
          else Some(([number as char], |t| - |rest| + 1))
      case '\n' => Some(("", |t| - |SkipBlanks(t[2..])|))
      case _ => None
  }

  /** Takes one character at most for two and more, ends with a quote only if it stands for one, and
      has no `u` in it but the one that begins `u{`. */
  ghost predicate IsEscapeShape(t: string, c: string, n: nat) {
    && |c| <= 1 && 2 <= n <= |t|
    && (t[n - 1] == '"' ==> n == 2 && c == "\"")
    && t[1] != 'U' && (t[1] == 'u' ==> n > 2 && t[2] == '{')
    && forall k | 2 <= k < n :: t[k] !in {'u', 'U'}
  }

  lemma EscapeShape(t: string)
    requires t != "" && t[0] == '\\' && ReadEscape(t).Some?
    ensures IsEscapeShape(t, ReadEscape(t).value.0, ReadEscape(t).value.1)
  {
    if t[1] == 'u' {
      UnicodeShape(t);
    } else if t[1] == '\n' {
      ContinuationShape(t);
    } else {
      hide ReadHex, SkipBlanks;
    }
  }

  lemma UnicodeShape(t: string)
    requires t != "" && t[0] == '\\' && ReadEscape(t).Some? && t[1] == 'u'
    ensures IsEscapeShape(t, ReadEscape(t).value.0, ReadEscape(t).value.1)
  {
    hide ReadHex, SkipBlanks;
    var n := ReadEscape(t).value.1;
    var rest := ReadHex(t[3..], 0, 0).2;
    assert t[3..][|t[3..]| - |rest|..] == rest;
    assert t[n - 1] == '}';
    forall k | 3 <= k < n - 1 ensures t[k] !in {'u', 'U', '"'} {
      assert t[k] == t[3..][k - 3];
    }
  }

  lemma ContinuationEscape(t: string)
    requires |t| >= 2 && t[0] == '\\' && t[1] == '\n'
    ensures ReadEscape(t) == Some(("", |t| - |SkipBlanks(t[2..])|))
  {
    hide SkipBlanks;
  }

  lemma ContinuationShape(t: string)
    requires |t| >= 2 && t[0] == '\\' && ReadEscape(t).Some? && t[1] == '\n'
    ensures IsEscapeShape(t, ReadEscape(t).value.0, ReadEscape(t).value.1)
  {
    ContinuationEscape(t);
    hide ReadEscape, SkipBlanks;
    var blanks := t[2..];
    var n := |t| - |SkipBlanks(blanks)|;
    forall k | 2 <= k < n ensures IsBlankChar(t[k]) {
      assert t[k] == blanks[k - 2];
    }
    assert n > 2 ==> IsBlankChar(t[n - 1]);
  }

  /** What the text between the quotes of an ordinary literal stands for. */
  function Unescape(t: string): Option<string>
    decreases |t|
  {
    if t == "" then Some("")
    else if t[0] == '"' then None
    else if t[0] != '\\' then
      match Unescape(t[1..])
      case None => None
      case Some(value) => Some([t[0]] + value)
    else match ReadEscape(t)
      case None => None
      case Some((c, n)) =>
        if n < 2 || n > |t| then None
        else match Unescape(t[n..])
          case None => None
          case Some(value) => Some(c + value)
  }

  function Hashes(k: nat): string {
    seq(k, _ => '#')
  }

  function LeadingHashes(t: string): (k: nat)
    ensures k <= |t|
  {
    if t != "" && t[0] == '#' then 1 + LeadingHashes(t[1..]) else 0
  }

  /** Between `r`, `k` hashes and a quote, and a quote and `k` hashes, with no such end inside. */
  predicate IsRawOf(t: string, k: nat, value: string) {
    && t == "r" + Hashes(k) + "\"" + value + "\"" + Hashes(k)
    && !Contains(value, "\"" + Hashes(k))
  }

  function RawValue(t: string): Option<string>
    requires t != "" && t[0] == 'r'
  {
    var k := LeadingHashes(t[1..]);
    if |t| < 2 * k + 3 then None
    else
      var value := t[k + 2..|t| - k - 1];
      if IsRawOf(t, k, value) then Some(value) else None
  }

  /** The value of a string literal; `None` for a literal of another kind or with a suffix. */
  function StringValue(text: string): Option<string> {
    if |text| >= 2 && text[0] == '"' && text[|text| - 1] == '"' then Unescape(text[1..|text| - 1])
    else if text != "" && text[0] == 'r' then RawValue(text)
    else None
  }

  /** A string literal without `r` and without escapes. */
  predicate IsPlain(text: string) {
    text != "" && text[0] == '"' && '\\' !in text
  }

  lemma {:induction false} UnescapeLength(t: string)
    requires Unescape(t).Some?
    ensures |Unescape(t).value| <= |t|
    ensures if '\\' in t then |Unescape(t).value| < |t| else Unescape(t).value == t && '"' !in t
    decreases |t|
  {
    if t != "" {
      if t[0] != '\\' {
        UnescapeLength(t[1..]);
        assert t == [t[0]] + t[1..];
      } else {
        var n := ReadEscape(t).value.1;
        EscapeShape(t);
        UnescapeLength(t[n..]);
      }
    }
  }

  /** A text that ends with a quote ends with an escaped one. */
  lemma {:induction false} UnescapeLastQuote(t: string)
    requires Unescape(t).Some? && t != "" && t[|t| - 1] == '"'
    ensures |t| >= 2 && t[|t| - 2] == '\\'
    ensures var value := Unescape(t).value; value != "" && value[|value| - 1] == '"'
    decreases |t|
  {
    hide ReadEscape;
    if t[0] != '\\' {
      UnescapeLastQuote(t[1..]);
    } else {
      var n := ReadEscape(t).value.1;
      EscapeShape(t);
      if n < |t| {
        UnescapeLastQuote(t[n..]);
      }
    }
  }

  lemma TrimEndSnoc(t: string)
    ensures TrimEnd(t + "\"") == TrimEnd(t)
    ensures t == "" || t[|t| - 1] != '"' ==> TrimEnd(t) == t
  {
    assert (t + "\"")[..|t|] == t;
  }

  /** Trimming an ordinary literal leaves its body, less the quote of a last escape. */
  lemma TrimOrdinary(text: string)
    requires |text| >= 2 && text[0] == '"' && StringValue(text).Some?
    ensures var body := text[1..|text| - 1];
            TrimQuotes(text) == if body != "" && body[|body| - 1] == '"' then body[..|body| - 1] else body
  {
    var body := text[1..|text| - 1];
    assert text[1..] == body + "\"";
    if body == "" {
      assert text[1..] == "\"" && TrimStart("\"") == TrimStart("\""[1..]);
    } else {
      assert TrimStart(text) == TrimStart(text[1..]) == body + "\"";
      TrimEndSnoc(body);
      if body[|body| - 1] == '"' {
        UnescapeLastQuote(body);
        assert body == body[..|body| - 1] + "\"";
        TrimEndSnoc(body[..|body| - 1]);
      }
    }
  }

  lemma TrimRaw(text: string, k: nat, value: string)
    requires IsRawOf(text, k, value)
    ensures |TrimQuotes(text)| > |value| && TrimQuotes(text)[0] == 'r'
  {
    assert TrimStart(text) == text;
    if k > 0 {
      assert text[|text| - 1] == '#';
    } else {
      var rest := "r\"" + value;
      assert text == rest + "\"";
      TrimEndSnoc(rest);
      if value == "" {
        assert rest == "r" + "\"";
        TrimEndSnoc("r");
      } else {
        var last := |value| - 1;
        assert "\"" + Hashes(0) == "\"" && value[last..last + 1] == [value[last]];
        assert value[last] == '"' ==> OccursAt(value, "\"", last);
      }
    }
  }

  /** The checker reads the value of a string literal if and only if the literal is plain. */
  lemma TrimmedIsValue(text: string)
    requires StringValue(text).Some?
    ensures TrimQuotes(text) == StringValue(text).value <==> IsPlain(text)
  {
    if text[0] == '"' {
      var body := text[1..|text| - 1];
      TrimOrdinary(text);
      UnescapeLength(body);
      assert '\\' in text <==> '\\' in body;
      if body != "" && body[|body| - 1] == '"' {
        UnescapeLastQuote(body);
      }
    } else {
      TrimRaw(text, LeadingHashes(text[1..]), StringValue(text).value);
    }
  }

  /** The text of some literal: a string, or a number, a character, a byte or C string. */
  predicate IsLiteral(text: string) {
    && text != "" && text[0] in "\"rbc'0123456789"
    && (text[0] in "\"r" ==> StringValue(text).Some?)
  }

  lemma TrimKeepsHead(text: string)
    requires text != "" && text[0] != '"'
    ensures TrimQuotes(text) != "" && TrimQuotes(text)[0] == text[0]
  {
    TrimEndKeepsHead(text);
  }

  lemma {:induction false} TrimEndKeepsHead(t: string)
    requires t != "" && t[0] != '"'
    ensures TrimEnd(t) != "" && TrimEnd(t)[0] == t[0]
  {
    if t[|t| - 1] == '"' {
      TrimEndKeepsHead(t[..|t| - 1]);
    }
  }

  /** What the checker reads of an ordinary literal with an escape has a backslash in it. */
  lemma TrimKeepsEscapes(text: string)
    requires text != "" && text[0] == '"' && StringValue(text).Some?
    ensures if IsPlain(text) then text == Quoted(TrimQuotes(text)) else '\\' in TrimQuotes(text)
  {
    hide Unescape, TrimQuotes;
    var body := text[1..|text| - 1];
    TrimOrdinary(text);
    UnescapeLength(body);
    assert text == Quoted(body);
    assert '\\' in text <==> '\\' in body;
    if body != "" && body[|body| - 1] == '"' {
      UnescapeLastQuote(body);
      assert body[..|body| - 1][|body| - 2] == '\\';
    }
  }

  /** Of all literals the checker reads `word` in one only, if no quote, backslash or opening of
      another literal is in it. */
  lemma ReadsWordOnlyPlain(text: string, word: string)
    requires IsLiteral(text) && word != "" && word[0] !in "rbc'0123456789" && '\\' !in word && '"' !in word
    ensures TrimQuotes(text) == word <==> text == Quoted(word)
  {
    hide TrimQuotes, StringValue;
    if text[0] == '"' {
      TrimKeepsEscapes(text);
      assert Quoted(TrimQuotes(text))[1..|TrimQuotes(text)| + 1] == TrimQuotes(text);
      assert Quoted(word)[1..|word| + 1] == word;
    } else {
      TrimKeepsHead(text);
    }
  }

  /** The checker reads a path in a literal if and only if its text begins with a quote and a slash. */
  lemma ReadsSlash(text: string)
    requires IsLiteral(text)
    ensures "/" <= TrimQuotes(text) <==> "\"/" <= text
  {
    if text[0] == '"' {
      var body := text[1..|text| - 1];
      TrimOrdinary(text);
      if body != "" && body[|body| - 1] == '"' {
        UnescapeLastQuote(body);
      }
      assert body != "" ==> text[1] == body[0];
    } else {
      TrimKeepsHead(text);
    }
  }

  // ---------------------------------------------------------------- writing a literal

  function Quoted(word: string): string {
    "\"" + word + "\""
  }

  function RawQuoted(word: string): string {
    "r\"" + word + "\""
  }

  lemma {:induction false} UnescapePlain(word: string)
    requires '\\' !in word && '"' !in word
    ensures Unescape(word) == Some(word)
  {
    if word != "" {
      UnescapePlain(word[1..]);
      assert word == [word[0]] + word[1..];
    }
  }

  /** A word without quotes and backslashes is the value of the plain literal around it. */
  lemma PlainValue(word: string)
    requires '\\' !in word && '"' !in word
    ensures StringValue(Quoted(word)) == Some(word) && IsPlain(Quoted(word))
  {
    var text := Quoted(word);
    assert text[1..|text| - 1] == word;
    UnescapePlain(word);
  }

  /** A word without quotes is the value of the raw literal around it. */
  lemma RawLiteral(word: string)
    requires '"' !in word
    ensures StringValue(RawQuoted(word)) == Some(word)
  {
    var text := RawQuoted(word);
    assert text[1] == '"' && LeadingHashes(text[1..]) == 0;
    assert text[2..|text| - 1] == word && Hashes(0) == "";
    assert text == "r" + Hashes(0) + "\"" + word + "\"" + Hashes(0);
    assert "\"" + Hashes(0) == "\"";
    forall k | 0 <= k <= |word| - 1 ensures !OccursAt(word, "\"", k) {
      assert word[k..k + 1] == [word[k]];
    }
  }
}
