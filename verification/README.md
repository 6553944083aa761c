# Verified model of rustweb

A Dafny model of two parts of rustweb, with proofs:

- **the accounts**: registration, login, sessions, the password-reset saga, profile updates,
  deletion and posts, as one transition system in which any number of requests interleave;
- **tidy**, the architecture checker of the workspace: its scanners, its import walk, its generated
  file, and the verdict of its six passes.

`dafny verify dfyconfig.toml` checks all of it.

## How the accounts are modelled

`Store` holds the three tables, and a history of `Event`s: `Apply` says what an event does to the
tables, `Legit` when it may happen. `Protocol` gives every service call as steps. A request is an
async function; between two awaits its captured locals sit in `pool`, and any other request may act.
`EventOf` decides what a step causes, and `Run` is an arbitrary interleaving of steps. `Server` has
the services as the program text has them, on classes: statement by statement, in transactions that
are dropped on an early return, with `:-` where the source has `?`. Each of its methods is proved to
be its step, and `Serve` to reach the state `Run` says. The theorems in `TokenHistory`,
`Credentials`, `Addresses`, `MailSaga`, `Sessions` and `Calls` are about every lawful history or
every run. Each method of `Server.Backend` also says, in terms of its reply and the tables alone, what
the caller is told and what has changed.

Assumptions, all visible in the statements that need them:

- One autocommit statement is one step. One `begin .. commit` block is one step: it takes effect at
  its commit or not at all. Single use and one token per user rest on that.
- `budget` is the number of database statements of a call that succeed before one fails, so every
  failing statement of every call is covered. A commit that fails has not taken effect.
- The digest and the password hash are unknown functions (`Env`). `Env.Sound` says that a hash
  verifies exactly its own password and that the empty string is no hash. `NoCollision` and
  `Unmistakable` say that the raw tokens in play do not collide under the digest, `FreshRaws` and
  `FreshSids` that the random generators do not repeat; each is a premise of the lemmas that use it.
- The mailer's error means that nothing was delivered.
- The clock may be set to anything at any step. Ids come from sequences.
- An `ActiveModel` writes only its `Set` columns, and an update that finds no row is an error.

## How tidy is modelled

`SourceTree` is a tree of directories and of parsed, unparsable or unreadable files, with names
unique in each directory. `Scanner`, `UseTrees`, `DeclaredPaths` and `Order` carry the algorithms;
`Literals` the values of string literals; `RouteAttributes`, `RoutePaths`, `Confinement` and
`Unlistable` how far the rules do what the documentation says;
`Tidy` what each pass appends and what it means to conform, `Checker` the passes as loops that push
onto one list, `Rulebook` the rules written out, with every place, name and word spelled, and the
verdict proved to be exactly that; `Rewriting` what stays when one file is rewritten, and `Regeneration` the update of
the generated file. Paths are relative to the
workspace root, component by component.

## Where the code and its documentation differ

The model follows the code.

- "password must be at least 8 characters": the code counts UTF-8 bytes. Two characters may pass;
  the code and the sentence agree on all passwords of `n` characters if and only if `n` is below two
  or at least eight (`Store.CharacterRuleExact`).
- "If the mailer then fails, the new token is deleted again": the cleanup deletes every token of the
  user, so a token that another request has mailed may go (`Calls.MailedTokenIsLostInARun`). And if
  the cleanup itself meets a database error, the token stays: once the requests have finished, a
  stored token was mailed if and only if its cleanup did not fail (`MailSaga.NoUnmailedTokenLeft`).
- "`HttpError` only lives in handlers", and the like for SeaORM and entities. Of imports, the rules
  see the prefix as it is spelled and, for `HttpError`, the name given. A rename, a glob, the module
  as a whole, the variants of the type, paths from `self`, `super` or a local module, and raw
  identifiers bring `HttpError` within reach unseen (`UseTrees.RenameAndGlobHideHttpError`,
  `UseTrees.ModulesHideHttpError`, `UseTrees.RelativePathsHideHttpError`,
  `UseTrees.RawIdentifiersHideHttpError`); among imports, as far as `UseTrees.Resolve` follows them, no
  other does (`UseTrees.HttpErrorRuleExact`).
  The entity rule sees through renames and misses modules taken as a whole, relative paths and raw
  identifiers (`UseTrees.ImportsThatHideEntities`, `UseTrees.EntityRuleExact`). Over the workspace the
  pass enforces the confinement of imports exactly up to these (`Confinement.ConfinementExact`).
- "everything the ref API serves sits under `/api`": a route such as `/apiary` is taken for prefixed
  (`DeclaredPaths.ServedUnderApi`).
- Every route tagged `stores` "must declare `security(("session_cookie" = []))`". Any `security`
  identifier directly in the attribute will do (`RouteAttributes.AnySecurityPasses`). A tag given by a
  raw or escaped literal, a constant or a list is not heard (`RouteAttributes.OtherTagsPass`), nor is a
  path given by a raw literal (`RouteAttributes.RawPathPasses`). When the checker and the sentence
  agree is stated for all token sequences (`RouteAttributes.ProtectionRuleExact`), and for attributes
  written in the usual way in terms of what they say (`RouteAttributes.RegularProtectionExact`).
- "No path may carry a user id (`{userId}`-style)": the checker searches what it reads of the literal
  for `user`. It accuses `/users-guide` (`RoutePaths.UsersGuideIsAccused`) and passes `/accounts/{id}`
  (`RoutePaths.AccountIdPasses`), and `{userId}` in a raw literal or with an escape
  (`RoutePaths.HiddenUserIdsPass`). Of paths in plain literals it misses no user id if and only if
  every parameter name that stands for one has `user` in it (`RoutePaths.UserIdRuleMissesNone`), and it
  accuses wrongly exactly where `user` stands outside the parameters alone
  (`RoutePaths.UserIdRuleExact`).
- "Every `#[utoipa::path]` route declared across the slices" is in the generated file as the checker
  reads it: with its declared value exactly if a plain literal gives it that begins with a slash
  (`RouteAttributes.RecordedPathExact`). `Tidy.Serves` and the theorems about the listing speak of the
  paths so read.
- The passes skip a directory that cannot be listed in silence. A file below it may offend while the
  run finds nothing (`UnseenOffender.UnlistableHidesOffender`); silence means that every file that can
  be opened conforms if and only if those below such directories do and declare no path of their own
  (`Unlistable.SilenceExact`).

## Model

| member | source | states |
|---|---|---|
| Store.EightCharactersSuffice | src/features/auth/reset_password/service.rs:14-21 | The byte length lies between one and four times the character count; one character never makes eight bytes. |
| Store.CharacterRuleExact | src/features/auth/reset_password/service.rs:14-21 | On passwords of n characters the byte rule is the eight-character rule if and only if n is below two or at least eight; in between it takes some and refuses others, and a password of two characters passes. |
| Store.ApplyKeepsIntegrity | migration/src/m20240101_000004_create_password_reset_tokens.rs:13-36 | No event breaks unique emails, unique digests, the foreign keys of posts and tokens, the sequences, or the rule of one token per user. |
| Store.Integrity | migration/src/m20240101_000002_create_posts.rs:21-27 | Relational integrity and one outstanding token per user hold after every lawful history. |
| TokenHistory.TokensExact | src/features/auth/forgot_password/service.rs:54-69 | After every lawful history the token table is exactly the set of issued tokens that were not used, tried after expiry, superseded, cleaned up or lost with their user since, each row with its user, digest and end. |
| TokenHistory.UseHasIssue | src/features/auth/reset_password/service.rs:39-58 | Every successful reset and every expired attempt goes back to one earlier issue to the same user, with the same digest, not killed in between, and on the right side of its end. |
| TokenHistory.DeadStaysDead | src/features/auth/forgot_password/service.rs:29-32 | A token killed once is never used again in any continuation. |
| TokenHistory.SingleUse | src/features/auth/reset_password/service.rs:68-81 | No two successful resets of a history use the same token row, nor, for fresh tokens that do not collide, the same raw token. |
| TokenHistory.SupersededNeverAccepted | src/features/auth/forgot_password/service.rs:54-69 | A raw token replaced by a later request of its user never resets a password afterwards. |
| TokenHistory.RowsLeaveOnlyWhenKilled | src/features/auth/forgot_password/service.rs:55-58 | A token row leaves the table if and only if the event kills that token; otherwise the row is unchanged. |
| Protocol.StepIsLegit | src/features/auth/reset_password/service.rs:31-83 | Every step of every call causes only events that are legitimate for the tables it finds. |
| Protocol.RunIsLawful | src/features/auth/forgot_password/service.rs:36-82 | Every interleaving of requests yields a lawful history, and its tables are the replay of that history. |
| Credentials.RecordRefines | src/features/users/update_user/service.rs:23-30 | Each event keeps the tables a refinement of the ledger of names, emails and plain passwords. |
| Credentials.LedgerRefinement | src/features/auth/login/service.rs:13-35 | The user table refines the ledger after every history. |
| Credentials.LoginExact | src/features/auth/login/service.rs:13-35 | In every reachable state login answers user u exactly when the ledger's u has that email and that password; every other login is unauthorized. |
| Credentials.MostRecentlySet | src/features/auth/reset_password/service.rs:68-76 | The ledger's password is the one most recently set for the user, by registration or a successful reset. |
| Credentials.BackfilledNeverLogsIn | src/features/auth/login/service.rs:21-27 | A user with the back-filled empty hash never logs in before a reset, with any password. |
| Credentials.HashChangesOnlyByReset | src/features/auth/reset_password/service.rs:60-76 | The hash of an existing user changes only in a successful reset with a live token issued earlier to that user, to a password of at least 8 bytes. |
| Credentials.ResetAndUpdateCommute | src/features/users/update_user/service.rs:28-30 | A password reset and a profile write do not prevent each other and commute, on the same user or on different ones. |
| Credentials.WriteKeepsPassword | src/features/users/update_user/service.rs:23-30 | The profile write replaces name and email and keeps the stored hash it finds, whatever row was read before. |
| Credentials.NoLostUpdate | src/features/users/update_user/service.rs:23-30 | After the write of an update, whatever ran since its read, the account has the new name and logs in with the new email and the password most recently set. |
| MailSaga.SagaStep | src/features/auth/forgot_password/service.rs:44-81 | Every step of every request keeps each stored token accounted for: mailed, failed in cleanup, or owed by a request in flight. |
| MailSaga.SagaInvariantHolds | src/features/auth/forgot_password/service.rs:44-81 | In every reachable state every stored token is accounted for. |
| Addresses.RunIsAddressed | src/features/auth/forgot_password/service.rs:44-71 | In every run the address a reset request holds is the one its own lookup found, the request being in flight ever since. |
| Addresses.MailGoesToItsUser | src/features/auth/forgot_password/service.rs:44-71 | Every mail carries a token issued to a user to the address that user had at the lookup of that very request, which is its address still if nobody updated the user since. |
| Addresses.UpdateMakesAddressStale | src/features/auth/forgot_password/service.rs:71 | From every initial state there is a run in which a user updates its email between lookup and mail, and the token goes to the old one. |
| MailSaga.MailMatchesRow | src/features/auth/forgot_password/service.rs:52-71 | A mail about a stored token carries the raw value whose digest the row holds, and went to an address the row's user had. |
| MailSaga.SettledOnceHolds | src/features/auth/forgot_password/service.rs:69-81 | In every reachable state no two requests owe the same token, a token owed was neither mailed nor failed in cleanup, and no token was both. |
| MailSaga.NoUnmailedTokenLeft | src/features/auth/forgot_password/service.rs:29-32 | Once all reset requests have finished, a stored token was mailed under its raw value if and only if its own cleanup did not hit a database error. |
| Sessions.RunIsPrepared | src/auth.rs:80-112 | In every run each session start follows a sign-in of its user, each authentication and each change a session start of its subject, and each mail the issue of its token. |
| Sessions.SessionIdentity | src/auth.rs:41-50 | A session authenticates as the user it was started for, later than its start, and never as another. |
| Sessions.GoneForGood | migration/src/m20240101_000001_create_users.rs:17 | Once a user id is gone no later user has it. |
| Sessions.OnlyTheOwnerChangesAnAccount | src/features/users/update_user/handler.rs:30-41 | Name, email or existence of an account changes only by a request whose session subject is that account, in a session started for it after a registration or correct login. |
| Sessions.ChangesNameTheOwner | src/features/users/delete_user/handler.rs:20-30 | Only an update or a deletion of that very user touches a profile. |
| Calls.ReachableIntegrity | migration/src/m20240101_000004_create_password_reset_tokens.rs:13-36 | In every reachable state emails and digests are unique, no user has two tokens, and every post and token belongs to a user that exists. |
| Calls.ResetExact | src/features/auth/reset_password/service.rs:36-82 | With a long enough password and a working database a reset succeeds exactly when its token is outstanding and the clock is at most one lifetime past that of the step that issued it; a late one removes the token; any other token is invalid; no other answer exists. |
| Calls.IssuedTokenIsAccepted | src/features/auth/forgot_password/service.rs:59-66 | A token just issued is accepted at a time now if and only if now is at most issue time plus lifetime. |
| Calls.ErrorsLeaveRowsAlone | src/features/auth/reset_password/service.rs:50-58 | A step that answers an error leaves all rows alone, except that an expired confirm removes that one row and a failed mail all tokens of its user. |
| Calls.OnlyIssuingIsHalfDone | src/features/auth/forgot_password/service.rs:54-78 | A step that leaves a service call suspended changes rows only by issuing a token; so a failed call has changed rows in an earlier step only if it is a reset request that issued. |
| Calls.FailedCallExact | src/features/auth/forgot_password/service.rs:54-81 | Of a call that ends in an error, whoever ran in between, an earlier step changed rows only by issuing, where the call then ends in the cleanup of that very token or in its failure, or by a registration whose session could not be started; the last step changes rows only in that cleanup. |
| Calls.LookupDisclosesNothing | src/features/auth/forgot_password/service.rs:44-50 | The lookup of an email with an `@` answers no error whether or not it is stored, and for one that is not stored changes nothing. |
| Calls.DeletedCannotLogIn | src/features/users/delete_user/service.rs:6-12 | After an owner's deletion that nobody overtakes the user, its posts and its tokens are gone and nothing else, and a login with its email is unauthorized, whatever the password. |
| Calls.PostsAreAsCreated | src/features/posts/create_post/service.rs:27-35 | Every post of a run that was not there at its start was created by a request whose session subject is its author, with the title and body it has. |
| Calls.LoggedOutIsUnauthorized | src/features/auth/logout/handler.rs:14-20 | After a flushed logout, and any run that starts no session under that id, the session is unauthorized. |
| Calls.ProfilesAreProper | src/features/users/update_user/service.rs:6-14 | In every run the name and email of a user are those it had at the start, or the name has a character that is no white space and the email an `@`. |
| Store.SpacesExact | src/features/auth/register/service.rs:10 | What is trimmed is exactly the twenty-five characters of Unicode white space. |
| Calls.ForgotCallAlone | src/features/auth/forgot_password/service.rs:36-82 | A reset request nobody overtakes ends in exactly one of four ways, each with its answer and its tables. |
| Calls.CleanupRemovesAnothersMailedToken | src/features/auth/forgot_password/service.rs:73-78 | Wherever one request has to clean up and another of the same user is about to issue, the cleanup may remove the token the other has mailed. |
| Calls.MailedTokenIsLostInARun | src/features/auth/forgot_password/service.rs:73-78 | From every initial state with an untaken email a run leads there: a registration, two requests, a failed mail, and the mailed token of the other is gone. |
| Calls.SessionsOutliveResets | src/features/auth/reset_password/service.rs:28-30 | After any run, resets of its user included, in which nobody logs out of a session or signs in within it, it authenticates as its user if and only if the run did not delete the user. |
| Server.Connection.UpdateUser | src/features/users/update_user/service.rs:28-30 | The update writes the `Set` columns of one row and returns that row, fails without it, and reports a taken email as a violated key. |
| Server.Connection.InsertToken | migration/src/m20240101_000004_create_password_reset_tokens.rs:19-35 | The insert succeeds exactly when the user exists and the digest is unused. |
| Server.Backend.RegisterUser | src/features/auth/register/service.rs:24-50 | Registration statement by statement is the `Register` step. Every reply is pinned: `Validation` for a blank name, an email without `@` or less than eight bytes, `Conflict` for a taken email, else the new id with its row; a failure changes nothing. |
| Server.Backend.LoginUser | src/features/auth/login/service.rs:8-36 | Login statement by statement is the `Login` step. It answers a stored user with that email whose hash verifies the password, or `Unauthorized` if there is none, and changes no table. |
| Server.Backend.RecordSession | src/auth.rs:41-50 | Rotating the session id and recording the user is the `StartSession` step, failures half-way included; on success the new id holds the user, the old one is gone and all others stay. |
| Server.Backend.LookUpForReset | src/features/auth/forgot_password/service.rs:42-50 | The lookup stretch of a reset request is the `ForgotLookup` step. Its reply does not depend on the tables, which it leaves alone; for an email that is not stored nothing at all changes. |
| Server.Backend.ReplaceTokens | src/features/auth/forgot_password/service.rs:52-69 | The issuing transaction replaces the user's tokens by one, or changes nothing. |
| Server.Backend.IssueToken | src/features/auth/forgot_password/service.rs:52-69 | The issuing stretch changes tables and suspended requests as the `ForgotIssue` step does: on success the user has the one new row, ending one lifetime from now, and all other rows stay; when it succeeds is stated in terms of the rows. |
| Server.Backend.MailToken | src/features/auth/forgot_password/service.rs:71-72 | The mail stretch is the `ForgotMail` step; what the mailer accepts is the address and the raw token the request holds. |
| Server.Backend.CleanUp | src/features/auth/forgot_password/service.rs:73-79 | The compensating delete is the `ForgotCleanup` step and always answers an error; it removes exactly the rows of its user. |
| Server.Backend.ResetPassword | src/features/auth/reset_password/service.rs:31-83 | The confirm statement by statement changes the tables as its event says, on every early return. In terms of reply and rows: a short password, an unknown and an expired token are `Validation`, an expired row goes; a token in time gives its user the hash of the password and goes, and this alone is a success. |
| Server.Backend.ConsumeToken | src/features/auth/reset_password/service.rs:68-82 | Hash and token change together at the commit, or not at all. |
| Server.Backend.OpenRequest | src/auth.rs:87-97 | Reading the session is the `ReadSession` step; without a recorded user it is `Unauthorized`. |
| Server.Backend.LoadCurrentUser | src/auth.rs:99-110 | Loading the user and the ownership guard of the handlers are the `LoadUser` step: `Unauthorized` for a user that is gone, `Forbidden` for another's account. |
| Server.Backend.ReadForUpdate | src/features/users/update_user/service.rs:22-27 | Validation and read of an update are the `UpdateRead` step, with the reply for a blank name, an email without `@` and a missing user. |
| Server.Backend.WriteUpdate | src/features/users/update_user/service.rs:28-31 | The write of an update is the `UpdateWrite` step. It succeeds exactly if the row is there and no other has the email, answers the row with the new name and email, and changes no other; else nothing, with `Conflict` for the email. |
| Server.Backend.DeleteUser | src/features/users/delete_user/service.rs:6-12 | The deletion with its cascade is the `DeleteExec` step. On success the user, every post and every token of it are gone and all else is as it was; a missing user is `NotFound`. |
| Server.Backend.CreatePost | src/features/posts/create_post/service.rs:13-38 | The post transaction is the `PostExec` step. On success the stored and answered post has the session subject as author and the given title and body, and every other row stays; the errors are stated. |
| Server.Backend.LogOut | src/features/auth/logout/handler.rs:14-20 | Flushing the session is the `Logout` step and removes it. |
| Server.Backend.SuccessIsNewPassword | src/features/auth/reset_password/service.rs:39-82 | A confirm that answers success has given the token's user the presented password and consumed the token; where that password did not verify before, success is told if and only if both hold afterwards. A failed one changes no user, and a short password or an expired token is `Validation`. |
| Server.Backend.Serve | src/features/auth/forgot_password/service.rs:36-82 | Serving any sequence of actions of any requests ends in the state of the transition system's run, with valid tables, and what the mailer has accepted is the mails of its history. |
| Order.AscendingIsUnique | tools/tidy/src/main.rs:395 | Two ascending sequences with the same elements are equal. |
| Order.SortDependsOnElements | tools/tidy/src/main.rs:81-86 | Sorted listings are equal exactly when the element sets are. |
| DeclaredPaths.TwoPassesAreOne | tools/tidy/src/main.rs:484 | The two successive replacements equal one character-wise escape. |
| DeclaredPaths.Render | tools/tidy/src/main.rs:472-489 | The printing loop yields the text of the list. |
| DeclaredPaths.ParseInvertsText | tools/tidy/src/main.rs:472-489 | A file is the text of a list if and only if it parses to it, for all strings. |
| DeclaredPaths.SameTextSameSet | tools/tidy/src/main.rs:441-447 | The byte comparison passes exactly when both sides list the same set. |
| DeclaredPaths.NormalizeCollisions | tools/tidy/src/main.rs:464-470 | Normalising is idempotent and merges only the bare and the prefixed spelling of a route. |
| DeclaredPaths.ServedUnderApi | tools/tidy/src/main.rs:461-470 | A route lands under `/api/` exactly when it does not begin with `/api` without a slash after it. |
| Scanner.LastIsLast | tools/tidy/src/main.rs:329-368 | The position-free answer is the last position at which the fact is stated. |
| Scanner.JumpLosesNothing | tools/tidy/src/main.rs:356-357 | A matched key states nothing at the two positions the scan jumps over. |
| Scanner.Scan | tools/tidy/src/main.rs:329-368 | The jumping loop terminates and finds the last path beginning with a slash, the last tag, and whether `security` occurs. |
| Literals.TrimQuotesExact | tools/tidy/src/main.rs:347 | Trimming removes exactly the quotes at both ends. |
| Literals.TrimmedIsValue | tools/tidy/src/main.rs:345-349 | Of a string literal the checker reads the value Rust gives it if and only if it is not raw and has no escape. |
| Literals.ReadsSlash | tools/tidy/src/main.rs:351 | What is read of a literal begins with a slash if and only if its text begins with a quote and a slash. |
| RouteAttributes.ProtectionRuleExact | tools/tidy/src/main.rs:372-374 | For all token sequences, the checker accuses exactly the `stores` routes without the session cookie if and only if the attribute is neither such a route that is not heard or names some security, nor one that is heard, names none and is no such route. |
| RouteAttributes.HearsExact | tools/tidy/src/main.rs:342-357 | Where path and tag are given once each and by arguments, the scanner hears a path exactly if a literal beginning with a quote and a slash gives it, and `stores` exactly if the literal `"stores"` does. |
| RouteAttributes.RegularProtectionExact | tools/tidy/src/main.rs:372-374 | On such attributes every accusation is right, and the checker agrees with the documented rule if and only if an unprotected `stores` route gives path and tag by such literals and names no security. |
| RouteAttributes.RecordedPathExact | tools/tidy/src/main.rs:370-371 | The recorded path is the declared one if and only if a plain literal beginning with a slash gives it. |
| RouteAttributes.OtherTagsPass | tools/tidy/src/main.rs:342-357 | `tag = r"stores"`, an escape in the tag, a constant and `tags = ["stores"]` pass without any security. |
| RouteAttributes.RawPathPasses | tools/tidy/src/main.rs:351 | A `stores` route with its path in a raw literal is no route for the scanner and passes. |
| RouteAttributes.AnySecurityPasses | tools/tidy/src/main.rs:359-363 | With any group behind `security` a `stores` route passes, and declares the cookie by the right group alone. |
| RouteAttributes.OtherSecurityIsNoCookie | tools/tidy/src/main.rs:359-363 | The empty group and another scheme are not that group. |
| RoutePaths.UserIdRuleExact | tools/tidy/src/main.rs:424-430 | A string is found by the search if and only if a parameter's name has `user` in it or `user` stands outside the parameters; so the search is the documented rule exactly on strings with such a parameter or without `user` elsewhere. |
| RoutePaths.SearchMissesNone | tools/tidy/src/main.rs:424-430 | Whatever parameter names stand for user ids, the search finds every string with one if and only if each of these names has `user` in it. |
| RoutePaths.AccusedLiteralExact | tools/tidy/src/main.rs:345-352 | A plain literal is accused by its value, a raw one never, and no literal whose value spells no `user`. |
| RoutePaths.UserIdRuleMissesNone | tools/tidy/src/main.rs:424-430 | Of paths in plain literals the checker misses none with a user id if and only if each name a plain literal can hold that stands for one has `user` in it. |
| RoutePaths.HiddenUserIdsPass | tools/tidy/src/main.rs:345-352 | `{userId}` in a raw literal, and with an escaped letter, is in the value and passes. |
| RoutePaths.UsersGuideIsAccused | tools/tidy/src/main.rs:424-430 | `/users-guide` is accused and carries no id. |
| RoutePaths.AccountIdPasses | tools/tidy/src/main.rs:424-430 | `/accounts/{id}` passes, and carries a user id wherever `id` stands for one. |
| Scanner.Facts.Collect | tools/tidy/src/main.rs:315-376 | One attribute adds its route, and its line if it is unprotected, and nothing else. |
| UseTrees.Walker.Walk | tools/tidy/src/main.rs:106-122 | The walk restores the shared prefix after every subtree and appends exactly its leaves in order. |
| UseTrees.ImportLeaves | tools/tidy/src/main.rs:105-126 | A `use` item yields its leaf paths from left to right. |
| UseTrees.SplitKeepsLeaves | tools/tidy/src/main.rs:102-104 | Splitting grouped imports into ungrouped ones keeps all leaves and their order. |
| UseTrees.LeavesAreImports | tools/tidy/src/main.rs:105-126 | Of every imported path the rules are given the written prefix and the name it gets, in order, and not what it takes. |
| UseTrees.HttpErrorRuleExact | tools/tidy/src/main.rs:168 | Over a `use` item the rule misses nothing that reaches `HttpError` if and only if no import is one of the listed detours, raw identifiers among them, or a relative path to it; and accuses nothing else if and only if no other item of `crate::error` is given its name. |
| UseTrees.RenameAndGlobHideHttpError | tools/tidy/src/main.rs:114-115 | `HttpError` renamed, imported by a glob, or opened to its variants comes within reach, and no leaf offends. |
| UseTrees.ModulesHideHttpError | tools/tidy/src/main.rs:107-113 | So does its module taken plainly, renamed or as `self`, and the crate root renamed. |
| UseTrees.RelativePathsHideHttpError | tools/tidy/src/main.rs:168 | So does the type from the parent module or from the module that declares `error`. |
| UseTrees.RawIdentifiersHideHttpError | tools/tidy/src/main.rs:109-113 | So does the type where it or its module is spelled as a raw identifier. |
| UseTrees.EntityRuleExact | tools/tidy/src/main.rs:157-161 | The entity rule misses nothing if and only if no import is a listed detour or a relative path that touches the entities; it accuses nothing else, and no rename changes what it says. |
| UseTrees.ImportsThatHideEntities | tools/tidy/src/main.rs:157-161 | `use crate::entities`, `use sea_orm`, and both spelled as raw identifiers, touch the entities and escape the rule. |
| Confinement.FileConfinementExact | tools/tidy/src/main.rs:139-171 | A file's imports are accepted and none is a way round the rules, if and only if nothing in it reaches SeaORM, the entities or `HttpError` where it may not, from the module the file is, and it calls nothing else `HttpError` there. |
| Confinement.ConfinementExact | tools/tidy/src/main.rs:128-177 | The same over the workspace, with a silent import pass. |
| SourceTree.Collector.Collect | tools/tidy/src/main.rs:88-100 | The recursive enumeration appends the Rust sources below a directory. |
| SourceTree.RustPathsExact | tools/tidy/src/main.rs:88-100 | A path is enumerated if and only if it leads to a Rust source through listable directories. |
| SourceTree.RustPathsDistinct | tools/tidy/src/main.rs:88-100 | No file is enumerated twice. |
| SourceTree.SourcesExact | tools/tidy/src/main.rs:80-86 | A pass sees exactly the sources below its directory, in ascending order. |
| SourceTree.EnumerationIgnoresReadOrder | tools/tidy/src/main.rs:80-86 | The enumeration does not depend on the order in which directories are read. |
| SourceTree.ReachedIffListable | tools/tidy/src/main.rs:89-91 | Of the files that can be opened, exactly those on listable paths are reached. |
| Unlistable.SourceIffListable | tools/tidy/src/main.rs:88-100 | A file is seen by a pass exactly if it can be opened and every directory down to it can be listed. |
| Unlistable.SilenceExact | tools/tidy/src/main.rs:88-100 | Where the run is silent, every file that can be opened conforms if and only if the hidden ones do and declare no path of their own; where all conform, the run is silent if and only if the hidden ones declare none. |
| Unlistable.VerdictExactThroughout | tools/tidy/src/main.rs:632-655 | Where every directory can be listed, the run is silent if and only if every file that can be opened conforms. |
| UnseenOffender.UnlistableHidesOffender | tools/tidy/src/main.rs:89-91 | A workspace on which the run is silent, with a file below an unlistable directory that imports SeaORM where it must not. |
| SourceTree.WriteChangesOneFile | tools/tidy/src/main.rs:437-438 | A write puts its text at its path and changes no other file. |
| SourceTree.WorkspaceRoot | tools/tidy/src/main.rs:68-78 | The loop finds the nearest ancestor with a `Cargo.toml` file and a `src/features` directory, or that there is none. |
| Tidy.ShapeExact | tools/tidy/src/main.rs:188-253 | The shape pass is silent exactly when every feature declares `routes` and every verb directory `route`. |
| Tidy.ImportsExact | tools/tidy/src/main.rs:128-177 | The import pass is silent exactly when every source parses and keeps its imports to their places. |
| Tidy.SplittingKeepsViolations | tools/tidy/src/main.rs:150-175 | Writing a grouped import out as single ones on its line changes no violation of the item. |
| Rewriting.OtherSourcesStay | tools/tidy/src/main.rs:437-438 | Writing one file neither adds, removes nor changes any other source of a pass. |
| Rewriting.SplittingInAFile | tools/tidy/src/main.rs:128-177 | Splitting a grouped import in a file changes no import violation, of the file or of the whole pass. |
| Tidy.DeclaredListingExact | tools/tidy/src/main.rs:395-434 | The generated listing is ascending and holds exactly the served paths, as the checker reads them. |
| Tidy.RoutesExact | tools/tidy/src/main.rs:394-459 | The route pass is silent exactly when every route is allowed and the generated file lists exactly the served paths, of which there is one at least. |
| Tidy.LaterExact | tools/tidy/src/main.rs:610-630 | After a silent import pass the last three passes are silent exactly when format, entities and environment conform, unreadable files included. |
| Tidy.VerdictExact | tools/tidy/src/main.rs:632-655 | The six passes find nothing if and only if the tree conforms. |
| Rulebook.VerdictIsRulebook | tools/tidy/src/main.rs:632-655 | The six passes find nothing if and only if every rule is kept as it is written out there, with the places, names and words spelled. |
| Rulebook.ReachedIsSource | tools/tidy/src/main.rs:88-100 | A pass sees the files whose names end in `.rs`, with a stem, down to which every directory can be listed. |
| Rulebook.NeverAccused | tools/tidy/src/main.rs:138-149 | A service and a file below `src/entities` is never accused of an entity import, a handler and a file with a route attribute never of importing `HttpError`. |
| Rulebook.HandlersMustNotTakeEntities | tools/tidy/src/main.rs:138-166 | Whatever the feature and the verb, a handler or verb module that imports SeaORM or an entity keeps the run from being silent. |
| Rulebook.ServicesMustNotTakeHttpError | tools/tidy/src/main.rs:143-173 | So does a service, or a verb module without a route attribute, that imports `HttpError`. |
| Rulebook.SnakeCaseIsFound | tools/tidy/src/main.rs:507-524 | So does a named field with an underscore in a DTO that neither is camelCase nor renames it. |
| Rulebook.StringLessExact | tools/tidy/src/main.rs:395 | One path is listed before another if and only if it is a proper beginning of it or has the smaller character where they first differ. |
| Rulebook.ListingInOrder | tools/tidy/src/main.rs:472-489 | The listing is in that order and holds exactly what is served. |
| Rulebook.UpdateWrites | tools/tidy/src/main.rs:434-439 | An update writes, at `src/features/declared_paths.rs` and nowhere else, a text that lists what was served before it. |
| Rulebook.UpdateDemands | tools/tidy/src/main.rs:632-655 | Besides the write an update demands shape, imports and routes of the tree it finds, and format, entities and environment of the tree it leaves. |
| Rulebook.LineIsLiteral | tools/tidy/src/main.rs:483-486 | Each line of the generated file holds a Rust string literal whose value is the path, for all strings. |
| Checker.Checker.CheckSliceShape | tools/tidy/src/main.rs:188-253 | The shape loops append exactly the shape violations. |
| Checker.Checker.CheckImports | tools/tidy/src/main.rs:128-177 | The import loops append exactly the import violations. |
| Checker.Checker.CheckUtoipa | tools/tidy/src/main.rs:394-459 | The route pass appends the route violations, and in an update writes the generated text or reports failure. |
| Checker.Checker.UtoipaFacts | tools/tidy/src/main.rs:290-307 | The facts of a file are its routes and the lines of its unprotected ones. |
| Checker.Checker.CheckDtos | tools/tidy/src/main.rs:491-531 | The format loops append exactly the format violations. |
| Checker.Checker.CheckEntitiesNotSerializable | tools/tidy/src/main.rs:585-608 | The entity loops append exactly the entity violations. |
| Checker.Checker.CheckEnvConfinement | tools/tidy/src/main.rs:610-630 | The environment loop appends exactly the environment violations, passing over unreadable files. |
| Checker.Checker.Run | tools/tidy/src/main.rs:632-655 | A check succeeds exactly on a tree that conforms; an update succeeds exactly when the write does and no pass finds anything. |
| Regeneration.ServesAfterUpdate | tools/tidy/src/main.rs:434-439 | After an update the served paths are those the other files declare. |
| Regeneration.UpdateIsFixpoint | tools/tidy/src/main.rs:434-453 | After an update the check finds the file current, and a second update writes the same text, exactly when the old file declared no path of its own. |
| Regeneration.SecondUpdateSettles | tools/tidy/src/main.rs:434-453 | After two updates the file is always current. |
| Regeneration.UpdateThenCheck | tools/tidy/src/main.rs:632-655 | Where a run with update succeeds, the tree it leaves conforms, and the next check finds nothing, if and only if the old generated file declared no path of its own. |

## Left out

- HTTP routing and extraction, JSON bodies, OpenAPI generation, cookies, session expiry: library behaviour. A session is an id mapped to a user id.
- The rate limiter: only its configuration is in the repository.
- sha256, argon2, hex and random generation stay unknown functions and inputs.
- SQL, the connection pool, isolation inside a transaction, commits whose outcome is unknown, process crashes and futures dropped half-way. Whatever a rolled-back insert takes from an id sequence is not modelled in `Server`; `Legit` allows such gaps.
- Timestamps are integers; the rounding of stored timestamps is not modelled.
- `list_users`, `get_user`, `list_user_posts` and `me`: plain reads that would only add easy members.
- Configuration loading, error-to-status mapping, `LogMailer`, shutdown.
- `syn` parsing and the evaluation of `derive` and `serde` attributes in tidy: a file comes parsed, a struct with its derives and naming already evaluated. The parse of the generated text is taken to hold no function.
- Message wording, symbolic links, file names that are not UTF-8 or contain a backslash, and errors on single directory entries in tidy.
- Order.Sort: keeps each element once, as a `BTreeSet` does; for the file lists of tidy, which hold no path twice (`SourceTree.RustPathsDistinct`), that is what sorting a vector does.
- UseTrees.Resolve: follows `crate`, `self`, `super` and the names declared in the module; names that other imports, `extern crate` or re-exports bring in are not followed, nor is a leading `::` kept.
- What is named without an import, or inside inline modules, `impl` blocks, function bodies and macros: the passes look at top-level items alone, and the model keeps no others.
- RouteAttributes.Given: arguments end at the commas directly in the attribute; commas between the angle brackets of an expression, attributes inside `cfg_attr`, and tags that utoipa derives are not modelled.
- Confinement.ModuleOf: the module of a file follows from its path; `#[path]` attributes are not modelled.
- Literals.StringValue: line ends in literals are taken as already normalised.
- Tidy.FileEnvironmentConforms: the rule is about the text `std::env`, comments included; what a program reads of its environment is not modelled.
