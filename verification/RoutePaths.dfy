/**
 The rule that no route path carries a user id, and how far the search for `user` in what the checker
 reads of a literal enforces it.
 */
module RoutePaths {
  import opened Wrappers
  import opened Literals

  function LowerChar(c: char): char {
    if 'A' <= c <= 'Z' then c + 32 as char else c
  }

  /** `to_ascii_lowercase` */
  function LowerCase(s: string): (t: string)
    ensures |t| == |s| && forall k | 0 <= k < |s| :: t[k] == LowerChar(s[k])
  {
    if s == "" then "" else LowerCase(s[..|s| - 1]) + [LowerChar(s[|s| - 1])]
  }

  predicate NamesUser(path: string) {
    Contains(LowerCase(path), "user")
  }

  /** `user` is spelled at `k`, in capitals or not. */
  predicate UserAt(path: string, k: nat) {
    k + 4 <= |path| && OccursAt(LowerCase(path), "user", k)
  }

  /** A parameter `{name}` stands from `i` to `j`. */
  predicate ParameterAt(path: string, i: nat, j: nat) {
    && i < j < |path| && path[i] == '{' && path[j] == '}'
    && NoBraces(path[i + 1..j])
  }

  predicate NoBraces(name: string) {
    '{' !in name && '}' !in name
  }

  /** A parameter of the path stands for a user id, by the name it has. */
  ghost predicate CarriesUserId(path: string, isUserId: string -> bool) {
    exists i: nat, j: nat :: ParameterAt(path, i, j) && isUserId(path[i + 1..j])
  }

  /** `user` is spelled outside every parameter. */
  ghost predicate UserOutside(path: string) {
    exists k: nat :: UserAt(path, k) && forall i: nat, j: nat | ParameterAt(path, i, j) :: !(i < k < j)
  }

  lemma UserAtLetters(path: string, k: nat)
    ensures UserAt(path, k) <==>
            && k + 4 <= |path| && LowerChar(path[k]) == 'u' && LowerChar(path[k + 1]) == 's'
            && LowerChar(path[k + 2]) == 'e' && LowerChar(path[k + 3]) == 'r'
  {
    if k + 4 <= |path| {
      var piece := LowerCase(path)[k..k + 4];
      assert piece == [piece[0], piece[1], piece[2], piece[3]];
    }
  }

  lemma NamesUserExact(path: string)
    ensures NamesUser(path) <==> exists k: nat :: UserAt(path, k)
  {
    if NamesUser(path) {
      var k :| 0 <= k <= |path| - 4 && OccursAt(LowerCase(path), "user", k);
      assert UserAt(path, k);
    }
  }

  /** A piece of a path spells `user` where the path does. */
  lemma UserInPiece(path: string, i: nat, j: nat, k: nat)
    requires i <= j <= |path|
    ensures UserAt(path[i..j], k) <==> i + k + 4 <= j && UserAt(path, i + k)
  {
    UserAtLetters(path[i..j], k);
    UserAtLetters(path, i + k);
  }

  /** `user` has no brace in it, so it ends before a parameter it begins in. */
  lemma UserStaysInParameter(path: string, i: nat, j: nat, k: nat)
    requires ParameterAt(path, i, j) && UserAt(path, k) && i < k < j
    ensures k + 4 <= j
  {
    UserAtLetters(path, k);
  }

  /** The checker accuses a path if and only if `user` is part of a parameter's name or is spelled
      outside the parameters. So it does what the documentation says of `{userId}`-style parameters
      exactly on the paths that have one or spell no `user` elsewhere. */
  lemma UserIdRuleExact(path: string)
    ensures NamesUser(path) <==> CarriesUserId(path, NamesUser) || UserOutside(path)
    ensures (NamesUser(path) <==> CarriesUserId(path, NamesUser))
            <==> CarriesUserId(path, NamesUser) || !UserOutside(path)
  {
    hide UserAt;
    NamesUserExact(path);
    if i: nat, j: nat :| ParameterAt(path, i, j) && NamesUser(path[i + 1..j]) {
      NamesUserExact(path[i + 1..j]);
      var k: nat :| UserAt(path[i + 1..j], k);
      UserInPiece(path, i + 1, j, k);
    }
    if k: nat :| UserAt(path, k) {
      if i: nat, j: nat :| ParameterAt(path, i, j) && i < k < j {
        UserStaysInParameter(path, i, j, k);
        UserInPiece(path, i + 1, j, k - i - 1);
        NamesUserExact(path[i + 1..j]);
      }
    }
  }

  /** Whatever parameter names stand for user ids: of the strings with such a parameter the search
      misses none if and only if each of those names has `user` in it. */
  lemma SearchMissesNone(isUserId: string -> bool)
    ensures (forall path | CarriesUserId(path, isUserId) :: NamesUser(path))
            <==> forall name | isUserId(name) && NoBraces(name) :: NamesUser(name)
  {
    if forall name | isUserId(name) && NoBraces(name) :: NamesUser(name) {
      forall path | CarriesUserId(path, isUserId) ensures NamesUser(path) {
        NamedIdsAreFound(path, isUserId);
      }
    }
    if forall path | CarriesUserId(path, isUserId) :: NamesUser(path) {
      forall name | isUserId(name) && NoBraces(name) ensures NamesUser(name) {
        LoneParameter(name, isUserId);
      }
    }
  }

  lemma NamedIdsAreFound(path: string, isUserId: string -> bool)
    requires CarriesUserId(path, isUserId)
    requires forall i: nat, j: nat | ParameterAt(path, i, j) && isUserId(path[i + 1..j]) :: NamesUser(path[i + 1..j])
    ensures NamesUser(path)
  {
    var i: nat, j: nat :| ParameterAt(path, i, j) && isUserId(path[i + 1..j]);
    assert CarriesUserId(path, NamesUser);
    UserIdRuleExact(path);
  }

  lemma LoneParameter(name: string, isUserId: string -> bool)
    requires NoBraces(name)
    ensures isUserId(name) ==> CarriesUserId("/{" + name + "}", isUserId)
    ensures NamesUser("/{" + name + "}") ==> NamesUser(name)
  {
    var path := "/{" + name + "}";
    assert path[2..|path| - 1] == name && ParameterAt(path, 1, |path| - 1);
    NamesUserExact(path);
    if k: nat :| UserAt(path, k) {
      UserAtLetters(path, k);
      UserInPiece(path, 2, |path| - 1, k - 2);
      NamesUserExact(name);
    }
  }

  // ---------------------------------------------------------------- from the literal

  /** The checker takes the literal for a path, and that for one with a user id. */
  predicate IsAccusedPath(text: string) {
    "/" <= TrimQuotes(text) && NamesUser(TrimQuotes(text))
  }

  /** Of a plain literal that begins with a slash the checker searches the declared path itself. Of a
      raw literal it records nothing. And it never accuses a literal whose value spells no `user`. */
  lemma AccusedLiteralExact(text: string)
    requires StringValue(text).Some?
    ensures IsPlain(text) ==>
              (IsAccusedPath(text) <==> "/" <= StringValue(text).value && NamesUser(StringValue(text).value))
    ensures text[0] == 'r' ==> !IsAccusedPath(text)
    ensures IsAccusedPath(text) ==> NamesUser(StringValue(text).value)
  {
    TrimmedIsValue(text);
    if text[0] == 'r' {
      TrimKeepsHead(text);
    } else if IsAccusedPath(text) {
      var body := text[1..|text| - 1];
      TrimOrdinary(text);
      NamesUserExact(TrimQuotes(text));
      var k: nat :| UserAt(TrimQuotes(text), k);
      UserInPiece(body, 0, |TrimQuotes(text)|, k);
      assert body[0..|TrimQuotes(text)|] == TrimQuotes(text);
      var j := UserSurvives(body, k);
      NamesUserExact(StringValue(text).value);
    }
  }

  /** No escape begins a `user`: neither its letter nor a digit of it is a `u` before an `s`. */
  lemma UserAfterEscape(t: string, k: nat)
    requires t != "" && t[0] == '\\' && ReadEscape(t).Some? && UserAt(t, k)
    ensures ReadEscape(t).value.1 <= k
  {
    hide LowerCase, ReadEscape;
    UserAtLetters(t, k);
    EscapeShape(t);
  }

  lemma UserAfter(head: string, t: string, k: nat)
    ensures UserAt(t, k) <==> UserAt(head + t, |head| + k)
  {
    assert (head + t)[|head|..|head + t|] == t;
    UserInPiece(head + t, |head|, |head + t|, k);
  }

  /** `user` spelled in the text of a literal is spelled in its value. */
  lemma {:induction false} UserSurvives(t: string, k: nat) returns (j: nat)
    requires Unescape(t).Some? && UserAt(t, k)
    ensures UserAt(Unescape(t).value, j)
    decreases |t|
  {
    hide UserAt, ReadEscape;
    assert t != "" by { UserAtLetters(t, k); }
    if t[0] == '\\' {
      var (c, n) := ReadEscape(t).value;
      UserAfterEscape(t, k);
      assert t == t[..n] + t[n..];
      UserAfter(t[..n], t[n..], k - n);
      j := UserSurvives(t[n..], k - n);
      UserAfter(c, Unescape(t[n..]).value, j);
      j := |c| + j;
    } else if k > 0 {
      assert t == [t[0]] + t[1..];
      UserAfter([t[0]], t[1..], k - 1);
      j := UserSurvives(t[1..], k - 1);
      UserAfter([t[0]], Unescape(t[1..]).value, j);
      j := 1 + j;
    } else {
      j := 0;
      UserAtHead(t);
    }
  }

  lemma UserAtHead(t: string)
    requires Unescape(t).Some? && UserAt(t, 0)
    ensures UserAt(Unescape(t).value, 0)
  {
    UserAtLetters(t, 0);
    UnescapeHead(t);
    UnescapeHead(t[1..]);
    UnescapeHead(t[2..]);
    UnescapeHead(t[3..]);
    assert t[1..][1..] == t[2..] && t[2..][1..] == t[3..];
    UserAtLetters(Unescape(t).value, 0);
  }

  lemma UnescapeHead(t: string)
    requires Unescape(t).Some? && t != "" && t[0] != '\\'
    ensures Unescape(t[1..]).Some? && Unescape(t).value == [t[0]] + Unescape(t[1..]).value
  {
  }

  /** Whatever parameter names stand for user ids: of the plain literals that begin with a slash the
      checker misses none with such a parameter, if and only if each of those names that a plain
      literal can hold has `user` in it. */
  lemma UserIdRuleMissesNone(isUserId: string -> bool)
    ensures (forall text | IsPlainPath(text) && CarriesUserId(StringValue(text).value, isUserId) :: IsAccusedPath(text))
            <==> forall name | isUserId(name) && NoBraces(name) && IsPlainWord(name) :: NamesUser(name)
  {
    hide StringValue, IsPlain, TrimQuotes, NamesUser;
    if forall name | isUserId(name) && NoBraces(name) && IsPlainWord(name) :: NamesUser(name) {
      forall text | IsPlainPath(text) && CarriesUserId(StringValue(text).value, isUserId) ensures IsAccusedPath(text) {
        AccusedLiteralExact(text);
        PlainIdsAreFound(text, isUserId);
      }
    }
    if forall text | IsPlainPath(text) && CarriesUserId(StringValue(text).value, isUserId) :: IsAccusedPath(text) {
      forall name | isUserId(name) && NoBraces(name) && IsPlainWord(name) ensures NamesUser(name) {
        var path := "/{" + name + "}";
        PlainValue(path);
        LoneParameter(name, isUserId);
        AccusedLiteralExact(Quoted(path));
      }
    }
  }

  predicate IsPlainWord(word: string) {
    '\\' !in word && '"' !in word
  }

  /** A plain literal of a path. */
  predicate IsPlainPath(text: string) {
    IsPlain(text) && StringValue(text).Some? && "/" <= StringValue(text).value
  }

  lemma PlainIdsAreFound(text: string, isUserId: string -> bool)
    requires IsPlainPath(text) && CarriesUserId(StringValue(text).value, isUserId)
    requires forall name | isUserId(name) && NoBraces(name) && IsPlainWord(name) :: NamesUser(name)
    ensures NamesUser(StringValue(text).value)
  {
    var body := text[1..|text| - 1];
    UnescapeLength(body);
    assert '\\' !in body && StringValue(text).value == body;
    NamedIdsAreFound(body, isUserId);
  }

  /** A path with the parameter `userId` passes in a raw literal, and with the `u` written as an
      escape. */
  lemma HiddenUserIdsPass()
    ensures StringValue(RawQuoted("/x/{userId}")) == Some("/x/{userId}") && !IsAccusedPath(RawQuoted("/x/{userId}"))
    ensures StringValue(Quoted("/x/{\\x75serId}")) == Some("/x/{userId}") && !IsAccusedPath(Quoted("/x/{\\x75serId}"))
    ensures CarriesUserId("/x/{userId}", name => name == "userId")
  {
    RawUserId();
    EscapedUserId();
    hide StringValue, IsAccusedPath;
    assert "/x/{userId}"[4..10] == "userId" && ParameterAt("/x/{userId}", 3, 10);
  }

  lemma RawUserId()
    ensures StringValue(RawQuoted("/x/{userId}")) == Some("/x/{userId}") && !IsAccusedPath(RawQuoted("/x/{userId}"))
  {
    hide LowerCase, StringValue, IsAccusedPath;
    RawLiteral("/x/{userId}");
    AccusedLiteralExact(RawQuoted("/x/{userId}"));
  }

  lemma EscapedUserId()
    ensures StringValue(Quoted("/x/{\\x75serId}")) == Some("/x/{userId}")
    ensures !IsAccusedPath(Quoted("/x/{\\x75serId}"))
  {
    var body := "/x/{\\x75serId}";
    var text := Quoted(body);
    EscapedBody();
    assert text[1..|text| - 1] == body && body[|body| - 1] == '}';
    NoUserSpelled();
    hide Unescape, Quoted, NamesUser;
    TrimOrdinary(text);
  }

  lemma EscapedBody()
    ensures Unescape("/x/{\\x75serId}") == Some("/x/{userId}")
  {
    EscapedTail("serId}");
    UnescapeAppend("/x/{", "\\x75" + "serId}");
    hide Unescape;
    assert "/x/{" + ("\\x75" + "serId}") == "/x/{\\x75serId}";
    assert "/x/{" + ("u" + "serId}") == "/x/{userId}";
  }

  lemma NoUserSpelled()
    ensures !NamesUser("/x/{\\x75serId}")
  {
    hide LowerCase;
    var body := "/x/{\\x75serId}";
    NamesUserExact(body);
    forall k: nat ensures !UserAt(body, k) {
      UserAtLetters(body, k);
    }
  }

  lemma EscapedTail(tail: string)
    requires '\\' !in tail && '"' !in tail
    ensures Unescape("\\x75" + tail) == Some("u" + tail)
  {
    var t := "\\x75" + tail;
    UnescapePlain(tail);
    assert t[4..] == tail && ReadEscape(t) == Some(("u", 4));
  }

  lemma {:induction false} UnescapeAppend(head: string, t: string)
    requires '\\' !in head && '"' !in head && Unescape(t).Some?
    ensures Unescape(head + t) == Some(head + Unescape(t).value)
  {
    hide ReadEscape;
    if head == "" {
      assert head + t == t && head + Unescape(t).value == Unescape(t).value;
    } else {
      assert (head + t)[1..] == head[1..] + t;
      UnescapeAppend(head[1..], t);
      assert [head[0]] + (head[1..] + Unescape(t).value) == head + Unescape(t).value;
    }
  }

  /** `/users-guide` is accused although it has no parameter. */
  lemma UsersGuideIsAccused(isUserId: string -> bool)
    ensures NamesUser("/users-guide") && !CarriesUserId("/users-guide", isUserId)
  {
    UserAtLetters("/users-guide", 1);
    NamesUserExact("/users-guide");
  }

  /** `/accounts/{id}` passes, although its parameter may be a user's id. */
  lemma AccountIdPasses(isUserId: string -> bool)
    ensures !NamesUser("/accounts/{id}")
    ensures isUserId("id") ==> CarriesUserId("/accounts/{id}", isUserId)
  {
    hide LowerCase;
    var path := "/accounts/{id}";
    NamesUserExact(path);
    forall k: nat ensures !UserAt(path, k) {
      UserAtLetters(path, k);
    }
    assert path[11..13] == "id" && ParameterAt(path, 10, 13);
  }
}
