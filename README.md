# Blog platform core: rate limiting, access gate, sign-in and admin scripts

A Dafny model of the security and content core of a Next.js blog platform. The admin
area and the post API are open only to superusers; requests and sign-in attempts are
rate limited through a key-value store; and two command-line scripts create the first
superuser and clear a client's rate-limit counters. The model covers:

- **`RateLimiter`** (`rate_limiter.dfy`): the fixed-window counter `checkRateLimit`.
  - The store is a `CounterStore` object with `Incr` and `Expire`.
  - The module's singletons (the environment flag, the store client, the memoised
    limiter pair) are the fields of `RateLimitModule`.
  - It also covers the preconfigured auth (5 per 15 minutes) and API (100 per
    15 minutes) policies, and the client address the request adapter extracts.
  - Each call is also a pure step `CheckStep`. A sequence of calls is `Run`, and the
    window properties are lemmas about `Run`.
- **`Middleware`** (`middleware.dfy`): the access gate `Gate`, from a path and a
  session to *next*, a redirect, or a JSON 401/403 error.
- **`AuthConfig`** (`auth_config.dfy`): the credentials `authorize` function, the jwt
  callback (a `Token` object updated in place) and the session callback.
  - The lemma `SignInSession` chains them.
  - The lemma `Middleware.SignedInAccess` connects sign-in to the gate.
- **`Slug`**, **`SlugPhrases`** (`slug.dfy`, `slug_phrases.dfy`):
  - `generateSlug` as its pipeline of rewrites (lower case, trim, drop special
    characters, fold whitespace runs, fold hyphen runs, strip edge hyphens);
  - `generateUniqueSlug` as a loop;
  - the slugs the post router's tests expect, proved for those titles.
- **`CreateSuperuser`** (`create_superuser.dfy`): the `createsuperuser` script.
  - The terminal is a `Console` object. The hidden password prompt is a loop over raw
    key chunks (Enter, Return or Ctrl+D finish; Ctrl+C aborts; Delete or Backspace
    erase).
  - The users table is a `UserTable` object.
  - The methods are proved against the pure functions `ScanFrom` and `Script`.
- **`ClearRateLimits`** (`clear_rate_limits.dfy`): the `clear-rate-limits` script over a
  `KeyStore` of key names. It runs three pattern passes and then a case-insensitive
  sweep.
- **`LatestPosts`** (`latest_posts.dfy`): what the home page's latest-posts panel shows.
  This is the loading, error and empty states, and for the first three posts the
  excerpt, link, initials and author name.
- **`JsString`** and **`Wrappers`**: the JavaScript string operations the core relies on
  (`trim`, ASCII case mapping, `startsWith`, `includes`, `split(",")[0]`, `replace`,
  `repeat`, decimal rendering of numbers), and `Option`.

Facts about the code that shape the model:

- `checkRateLimit` counts in fixed windows. The window index `floor(now / windowMs)`
  is part of the key, which expires `ceil(windowMs / 1000)` seconds after the
  window's first request.
- The key is `custom_rate_limit:<key>:<window>`.
- `windowMs = 0` is not rejected. The window label is then JavaScript's `Infinity`
  (or `NaN` when `now = 0`), and `EXPIRE key 0` deletes the counter. The model keeps
  both.
- INCR and EXPIRE are two separate store commands in one `try`. If the INCR that
  creates a counter succeeds and the EXPIRE after it fails, the request is let
  through and the counter stays at 1 with no expiry. The model's store has one
  failure flag per command, so this case is part of the model.

## Model

| member | source | states |
|---|---|---|
| RateLimiter.Incremented | src/lib/rate-limiter.ts:266 | INCR raises the key's count by one (a missing key counts as 0), keeps its expiry and leaves every other key as it was |
| RateLimiter.Expired | src/lib/rate-limiter.ts:268-271 | EXPIRE on a missing key does nothing, with 0 seconds it deletes the key, otherwise it records the timeout and keeps the count |
| RateLimiter.CounterStore.Incr | src/lib/rate-limiter.ts:266 | when INCR succeeds, returns the new count and leaves the store incremented; when it fails, returns no value and changes nothing |
| RateLimiter.CounterStore.Expire | src/lib/rate-limiter.ts:270 | succeeds exactly when EXPIRE does not fail, and then applies EXPIRE; otherwise the store is unchanged |
| RateLimiter.WindowLabel | src/lib/rate-limiter.ts:263-264 | the window part of the key holds no ':' and, for a positive window, is the decimal window index `now / windowMs` |
| RateLimiter.ExpirySeconds | src/lib/rate-limiter.ts:270 | the expiry is the least whole number of seconds covering the window, and is 0 exactly for a zero window |
| RateLimiter.Decide | src/lib/rate-limiter.ts:273-276 | the k-th request succeeds iff k <= limit; remaining is never negative and is `limit - k` unless that is below 0 |
| RateLimiter.CheckStep | src/lib/rate-limiter.ts:255-281 | test mode answers (true, limit) and touches nothing; a failed INCR answers (true, 0) and changes nothing; a failed EXPIRE after the first INCR answers (true, 0) and keeps the incremented counter; otherwise the answer is `Decide` on the new count, only the call's own key changes, by one, and its first hit gets the window's expiry |
| RateLimiter.RateLimitModule.CheckRateLimit | src/lib/rate-limiter.ts:250-282 | the method's answer and the new store are exactly those of `CheckStep` on the old store |
| RateLimiter.CheckStepKeepsExpiry | src/lib/rate-limiter.ts:266-281 | from a store whose counters all expire, a call leaves every counter expiring iff it is not the case that its INCR created the counter and the EXPIRE after it failed |
| RateLimiter.ExpireFailureKeepsCounter | src/lib/rate-limiter.ts:266-281 | when the EXPIRE after a window's first INCR fails, the request is let through with 0 remaining and its counter stays at 1 with no expiry |
| RateLimiter.StoreKey | src/lib/rate-limiter.ts:264 | the store key starts with the `custom_rate_limit:` prefix followed by the scope key |
| RateLimiter.StoreKeyInjective | src/lib/rate-limiter.ts:264 | two calls share a store key only if they have the same scope key and the same window label |
| RateLimiter.SameCounterIffSameWindow | src/lib/rate-limiter.ts:263-264 | with a positive window, two calls with one key share a counter iff their times fall in the same window |
| RateLimiter.StepCountsOnItsKey | src/lib/rate-limiter.ts:266-276 | one call adds exactly one to its own counter and is decided on the incremented count |
| RateLimiter.Run | src/lib/rate-limiter.ts:250-282 | a sequence of `checkRateLimit` calls gives one answer per call |
| RateLimiter.CountsInOneWindow | src/lib/rate-limiter.ts:266 | n calls in one window raise that window's counter by exactly n |
| RateLimiter.CallsInOneWindow | src/lib/rate-limiter.ts:266-276 | within one window, the i-th call is decided on the counter it started from plus i + 1 |
| RateLimiter.KthCallOfWindow | src/lib/rate-limiter.ts:273-276 | from a fresh key, the k-th call of a window succeeds iff k <= limit and reports max(0, limit - k) remaining |
| RateLimiter.RunLeavesOtherKeys | src/lib/rate-limiter.ts:264-271 | calls on other store keys neither create, change nor delete a key's entry |
| RateLimiter.NewWindowStartsAtOne | src/lib/rate-limiter.ts:263-276 | from any store without the call's counter, a call in a later window than all earlier calls with its key is counted as the first of its window |
| RateLimiter.SixAttemptsInOneWindow | src/lib/rate-limiter.ts:250-282 | `checkRateLimit` with the auth policy's numbers (5 per 15 minutes): six calls in one window leave 4, 3, 2, 1, 0 remaining and the sixth is refused |
| RateLimiter.CreateRateLimiters | src/lib/rate-limiter.ts:80-122 | test mode yields two no-op limiters; otherwise an auth and an API limiter, the auth one strictly tighter |
| RateLimiter.ClientIp | src/lib/rate-limiter.ts:145-148 | the address is the first comma-separated part of x-forwarded-for when present (a prefix up to the first comma), else x-real-ip, else 127.0.0.1 |
| RateLimiter.ApplyRateLimit | src/lib/rate-limiter.ts:132-148 | the adapter skips exactly in test mode, and otherwise hands the given limiter the client address |
| RateLimiter.RateLimitModule.constructor | src/lib/rate-limiter.ts:124 | the limiter pair starts out unset |
| RateLimiter.RateLimitModule.GetRateLimiters | src/lib/rate-limiter.ts:124-129 | creates the limiters on first use and returns the same ones on every later call |
| RateLimiter.RateLimitModule.CheckAuthRateLimit | src/lib/rate-limiter.ts:231-238 | applies the auth limiter of the memoised pair to the request |
| RateLimiter.RateLimitModule.CheckApiRateLimit | src/lib/rate-limiter.ts:240-247 | applies the API limiter of the memoised pair to the request |
| Middleware.AnyPrefix | src/middleware.ts:20 | true iff the path starts with one of the routes |
| Middleware.Gate | src/middleware.ts:4-53 | paths outside the admin routes pass; a protected path other than the login page passes only for a superuser; JSON errors only on protected /api/ paths; the login page redirects signed-in users to /admin |
| Middleware.RequiresAdmin | src/middleware.ts:8-20 | a path is protected iff it starts with "/admin" or "/api/posts" as plain text |
| Middleware.IsApiPath | src/middleware.ts:27 | every "/api/posts" path is an /api/ path and no "/admin" path is |
| Middleware.ProtectedApiPaths | src/middleware.ts:20-27 | among protected paths, the ones answered with JSON are exactly those starting with "/api/posts" |
| Middleware.ProtectedOutcomes | src/middleware.ts:22-52 | the four refusals (401 JSON, login redirect, 403 JSON, unauthorized redirect) by sign-in state and path kind, and pass for a superuser |
| Middleware.SignedInAccess | src/middleware.ts:11-52 | after a successful sign-in, the resulting session opens every protected path iff the stored user is a superuser, and the login page redirects it to /admin |
| AuthConfig.FindByEmail | src/server/auth/config.ts:77-81 | finds a row with exactly the given email, and finds none iff no row has it |
| AuthConfig.Authorize | src/server/auth/config.ts:68-113 | signs in iff both fields are filled, the lookup works, the email is stored with a hash and the password verifies; the result carries the stored id, email, names, superuser flag and display name |
| AuthConfig.DisplayName | src/server/auth/config.ts:104 | the display name has no blank at either end, and is empty when both names are missing |
| AuthConfig.DisplayNameOfFullName | src/server/auth/config.ts:104 | with both names present and trimmed, the display name is "first last" |
| AuthConfig.DisplayNameOfOneName | src/server/auth/config.ts:104 | with one name missing, the display name is the other name alone, without a stray space |
| AuthConfig.FailuresAreIndistinguishable | src/server/auth/config.ts:83-112 | an unknown email, a lookup error, a missing hash and a password that fails or throws all give the same null |
| AuthConfig.JwtClaims | src/server/auth/config.ts:117-124 | a user with an id overwrites the four identity claims; without one the token is returned untouched; NextAuth's own claims are always kept |
| AuthConfig.JwtClaimsIdempotent | src/server/auth/config.ts:117-124 | running the jwt callback twice with the same user gives what running it once gives |
| AuthConfig.Token.constructor | src/server/auth/config.ts:117 | a new token holds no identity claims |
| AuthConfig.Token.Jwt | src/server/auth/config.ts:117-124 | updates the token object in place to `JwtClaims` of its old claims and returns that same object |
| AuthConfig.SessionCallback | src/server/auth/config.ts:126-135 | the session keeps its expiry and NextAuth's user fields, and takes id, names and superuser flag from the token |
| AuthConfig.Refreshed | src/server/auth/config.ts:117-124 | any number of later jwt callbacks without a user leave the claims unchanged |
| AuthConfig.SignInSession | src/server/auth/config.ts:101-135 | after sign-in and any number of token refreshes, the session carries the stored user's id, names and superuser flag |
| Slug.RemoveSpecial | src/lib/utils/slug.ts:5 | removing special characters leaves only word characters, whitespace and hyphens, each taken from the input, and leaves such a text as it is |
| Slug.RemoveSpecialAppend | src/lib/utils/slug.ts:5 | removing special characters works piecewise over a concatenation |
| Slug.CollapseRuns | src/lib/utils/slug.ts:6-7 | folding runs leaves only hyphens and characters of the input outside the run kind; after the hyphen fold there is no "--" |
| Slug.CollapseFromAppend | src/lib/utils/slug.ts:6-7 | the fold of a concatenation is the fold of each part, the second started in the state the first left |
| Slug.DropLeadingHyphens | src/lib/utils/slug.ts:8 | the result is a suffix of the input that does not start with '-', only hyphens were cut, and it is the input itself when that did not start with '-' |
| Slug.DropTrailingHyphens | src/lib/utils/slug.ts:8 | the result is a prefix of the input that does not end with '-', and the input itself when it did not |
| Slug.StripHyphens | src/lib/utils/slug.ts:8 | the result is the input with hyphens only cut from its two ends, and starts and ends with no hyphen |
| Slug.GenerateSlug | src/lib/utils/slug.ts:1-9 | every generated slug uses only [a-z0-9_-], holds no "--" and has no hyphen at either end |
| Slug.SlugIsFixedPoint | src/lib/utils/slug.ts:1-9 | a valid slug is its own slug |
| Slug.GenerateSlugIdempotent | src/lib/utils/slug.ts:1-9 | generating a slug from a slug changes nothing |
| Slug.Candidate | src/lib/utils/slug.ts:15-20 | every candidate extends the base, and only the first (counter 0) is the base itself |
| Slug.CandidateInjective | src/lib/utils/slug.ts:17-20 | the candidates base, base-1, base-2, ... are pairwise different |
| Slug.GenerateUniqueSlug | src/lib/utils/slug.ts:11-24 | returns a slug that is not taken: the base when free, otherwise the first free candidate, every earlier candidate being taken |
| Slug.SecondSameTitle | src/server/api/routers/__tests__/post.test.ts:205-220 | a second post titled like an existing "same-title" gets "same-title-1" |
| SlugPhrases.SlugOfPhrase | src/lib/utils/slug.ts:1-9 | a title of plain words separated by blanks becomes its lower-cased words joined by single hyphens, whatever special characters surround them |
| SlugPhrases.HelloWorld | src/server/api/routers/__tests__/post.test.ts:436-441 | "Hello World!" becomes "hello-world" |
| SlugPhrases.SpecialCharacters | src/server/api/routers/__tests__/post.test.ts:446-452 | "Test & Special Characters!" becomes "test-special-characters" |
| SlugPhrases.CompletelyNewTitle | src/server/api/routers/__tests__/post.test.ts:306-312 | "Completely New Title" becomes "completely-new-title" |
| SlugPhrases.SameTitle | src/server/api/routers/__tests__/post.test.ts:205-220 | "Same Title" becomes "same-title" |
| CreateSuperuser.Classify | scripts/createsuperuser.ts:53-81 | exactly "\n", "\r" and Ctrl+D finish, exactly Ctrl+C aborts, exactly Delete and Backspace erase, and any other chunk is appended as it is |
| CreateSuperuser.Edit | scripts/createsuperuser.ts:67-81 | an ordinary chunk is appended to the buffer, Delete or Backspace removes its last character if any, and an ending chunk leaves it alone |
| CreateSuperuser.Typed | scripts/createsuperuser.ts:76-81 | a sequence of ordinary chunks leaves the buffer followed by their concatenation |
| CreateSuperuser.EchoOf | scripts/createsuperuser.ts:67-81 | one chunk echoes at most one line, none exactly for Delete on an empty buffer, and that line is the question followed by one star per buffered character |
| CreateSuperuser.PasswordEcho | scripts/createsuperuser.ts:45-80 | the prompt writes the question first, then only question-and-stars lines, then a line break when it finished or aborted |
| CreateSuperuser.ScanFrom | scripts/createsuperuser.ts:50-83 | the prompt never reads past the input, and is unfinished iff it read everything without a finishing or aborting chunk |
| CreateSuperuser.ScanFromShape | scripts/createsuperuser.ts:50-83 | the prompt ends at the first finishing or aborting chunk; it was aborted iff that chunk is Ctrl+C; an entered password is what the earlier chunks typed |
| CreateSuperuser.Console.constructor | scripts/createsuperuser.ts:24-27 | a terminal with the given answers and key chunks and nothing echoed yet |
| CreateSuperuser.Console.Prompt | scripts/createsuperuser.ts:30-34 | consumes and returns the next answer, or none when no answer comes; key chunks and echo are untouched |
| CreateSuperuser.Console.PromptPassword | scripts/createsuperuser.ts:37-87 | returns what `ScanFrom` reads, consumes exactly the chunks it used, writes the question, the star echoes and the final line break, and leaves the line answers alone |
| CreateSuperuser.Key | scripts/createsuperuser.ts:67-81 | a non-ending key edits the buffer and echoes the question with one star per buffered character, except Delete on an empty buffer which echoes nothing |
| CreateSuperuser.TypedPassword | scripts/createsuperuser.ts:76-81 | ordinary chunks followed by Return enter exactly their concatenation |
| CreateSuperuser.EraseOnEmpty | scripts/createsuperuser.ts:67-75 | Delete or Backspace on an empty buffer changes neither the read nor the echo |
| CreateSuperuser.EraseUndoesKey | scripts/createsuperuser.ts:67-81 | Delete right after a one-character key takes that key back |
| CreateSuperuser.EchoShowsOnlyStars | scripts/createsuperuser.ts:73-80 | every line `onData` writes while the buffer changes is the question followed by stars only: `onData` never writes a typed character |
| CreateSuperuser.Conflicts | scripts/createsuperuser.ts:142-151 | an insert whose email is stored already conflicts, and nothing conflicts with an empty table |
| CreateSuperuser.NewUser | scripts/createsuperuser.ts:144-150 | the inserted row is a superuser with the trimmed email and names |
| CreateSuperuser.PasswordStage | scripts/createsuperuser.ts:124-156 | the password stage comes after the three line answers and never consumes more chunks than it is given |
| CreateSuperuser.PasswordStageAfterFirst | scripts/createsuperuser.ts:124-151 | after a long-enough first password, the stage continues with the confirmation prompt on the remaining chunks |
| CreateSuperuser.PasswordStageStops | scripts/createsuperuser.ts:124-128 | an unfinished, aborted or short first password ends the stage after the first prompt |
| CreateSuperuser.ConfirmStage | scripts/createsuperuser.ts:130-156 | the confirmation stage comes after the three line answers and never consumes more chunks than it is given |
| CreateSuperuser.Script | scripts/createsuperuser.ts:89-173 | the script never consumes more answers or chunks than it is given |
| CreateSuperuser.InvalidEmailStops | scripts/createsuperuser.ts:94-98 | an empty email or one without "@" ends the script after the first answer |
| CreateSuperuser.ExistingEmailStops | scripts/createsuperuser.ts:100-110 | a valid email ends the script as "already exists" iff a row has exactly that email |
| CreateSuperuser.BlankFirstNameStops | scripts/createsuperuser.ts:112-116 | a blank first name ends the script before the last name is asked |
| CreateSuperuser.BlankLastNameStops | scripts/createsuperuser.ts:118-122 | a blank last name ends the script before any password is asked |
| CreateSuperuser.Accepted | scripts/createsuperuser.ts:89-156 | in an accepted run no user has the trimmed email, and the first password ends before the last key chunk |
| CreateSuperuser.CreatedIffAccepted | scripts/createsuperuser.ts:89-156 | a user is created iff every check passes: valid new email, both names, a password of at least 6 typed the same twice, and an insert without conflict |
| CreateSuperuser.PasswordStageCreated | scripts/createsuperuser.ts:124-156 | the password stage creates a user iff both reads agree on a long-enough password and the insert succeeds |
| CreateSuperuser.ConfirmStageCreated | scripts/createsuperuser.ts:130-156 | the confirmation stage creates exactly the prepared row iff the confirmation matches and the insert succeeds |
| CreateSuperuser.CreatedUser | scripts/createsuperuser.ts:139-150 | the created user is a superuser with the trimmed email and names and the hash of the password typed twice |
| CreateSuperuser.PaddedExistingEmail | scripts/createsuperuser.ts:101-151 | an email typed with surrounding blanks, that a stored user has once trimmed, passes the existence check and then fails at the insert |
| CreateSuperuser.UserTable.FindByEmail | scripts/createsuperuser.ts:101-107 | reports a row iff some row has exactly the given email |
| CreateSuperuser.UserTable.Insert | scripts/createsuperuser.ts:142-156 | appends the row iff neither its id nor its email is taken (schema's primary key and unique email), else leaves the table unchanged |
| CreateSuperuser.RunScript | scripts/createsuperuser.ts:89-173 | the outcome, the consumed answers and chunks, the echo and the table's new rows are exactly those of `Script` |
| CreateSuperuser.AskNames | scripts/createsuperuser.ts:112-173 | from the name prompts on, the outcome, consumed answers and chunks, echo and new rows are those of `Script` with the accepted email in front |
| CreateSuperuser.ReadPasswordsAndInsert | scripts/createsuperuser.ts:124-156 | the outcome, consumed chunks, echo and new rows are exactly those of `PasswordStage` |
| CreateSuperuser.ConfirmAndInsert | scripts/createsuperuser.ts:130-156 | the outcome, consumed chunks, echo and new rows are exactly those of `ConfirmStage` |
| ClearRateLimits.TargetIp | scripts/clear-rate-limits.ts:14 | the first argument when present and non-empty, else 127.0.0.1; never empty |
| ClearRateLimits.IsLocalhost | scripts/clear-rate-limits.ts:55-58 | the default address 127.0.0.1 is local, and no local spelling is empty |
| ClearRateLimits.MentionsIp | scripts/clear-rate-limits.ts:66-71 | a key containing the address literally mentions it, and for an address without dots only a literal occurrence does |
| ClearRateLimits.SelectedFor | scripts/clear-rate-limits.ts:60-72 | a pattern pass keeps every key for a local address, and every key containing the address literally |
| ClearRateLimits.MentionsIgnoringCase | scripts/clear-rate-limits.ts:93-95 | a key containing the address literally passes the case-insensitive sweep filter |
| ClearRateLimits.Cleared | scripts/clear-rate-limits.ts:43-106 | the script only deletes keys that exist |
| ClearRateLimits.KeyStore.constructor | scripts/clear-rate-limits.ts:24-31 | a store holding the given keys |
| ClearRateLimits.KeyStore.KeysMatching | scripts/clear-rate-limits.ts:47 | `KEYS <prefix>*` returns stored keys only, each starting with the prefix, and all of them |
| ClearRateLimits.KeyStore.Del | scripts/clear-rate-limits.ts:79 | removes exactly the given keys |
| ClearRateLimits.ClearPattern | scripts/clear-rate-limits.ts:43-87 | one pattern pass deletes exactly the pattern's keys that the filter selects, and counts them |
| ClearRateLimits.ClearPatterns | scripts/clear-rate-limits.ts:41-87 | the three pattern passes delete exactly the selected keys of the three patterns and count them |
| ClearRateLimits.Sweep | scripts/clear-rate-limits.ts:92-106 | the sweep deletes exactly the remaining keys that contain the address ignoring case, and counts them |
| ClearRateLimits.Clear | scripts/clear-rate-limits.ts:12-122 | the store loses exactly `Cleared`, the total counts the deleted keys, no key mentioning the address in any case is left, and the message says "none found" iff nothing was deleted |
| ClearRateLimits.PatternStep | scripts/clear-rate-limits.ts:43-87 | each pattern pass extends the deletions by that pattern's selected keys and adds their number to the total |
| ClearRateLimits.SweepStep | scripts/clear-rate-limits.ts:92-106 | the sweep completes the deletions of `Cleared` and adds their number to the total |
| ClearRateLimits.LocalhostClearsEveryPattern | scripts/clear-rate-limits.ts:55-64 | for a local address every key of the three patterns is deleted, whatever it contains |
| ClearRateLimits.ForeignAddressClearsOnlyMentions | scripts/clear-rate-limits.ts:55-95 | for an address other than the local machine, every deleted key names the address literally, with dots as underscores or dashes, or ignoring case; keys of the three patterns that do not name it stay |
| ClearRateLimits.SweepCatchesLiteral | scripts/clear-rate-limits.ts:92-104 | a stored key containing the address literally is deleted, whatever its prefix |
| ClearRateLimits.PatternsExclusive | scripts/clear-rate-limits.ts:35-39 | no key lies under two of the three patterns, so no key is counted twice by the pattern passes |
| ClearRateLimits.CustomCounterCleared | scripts/clear-rate-limits.ts:38 | a `checkRateLimit` counter whose scope key contains the address is deleted |
| LatestPosts.TruncateContent | src/app/_components/latest-posts.tsx:88-91 | short content is shown whole; longer content is its first maxLength characters followed by "..." |
| LatestPosts.Excerpt | src/app/_components/latest-posts.tsx:101 | a card's excerpt is at most 203 characters long |
| LatestPosts.TruncateIdempotent | src/app/_components/latest-posts.tsx:88-91 | truncating an excerpt again changes nothing |
| LatestPosts.TruncateKeepsPrefix | src/app/_components/latest-posts.tsx:88-91 | the excerpt starts with the content up to maxLength characters |
| LatestPosts.FirstChar | src/app/_components/latest-posts.tsx:76-77 | the first character of a present, non-empty name, and nothing otherwise |
| LatestPosts.GetInitials | src/app/_components/latest-posts.tsx:75-79 | one or two characters with no lower-case ASCII letter: the upper-cased first letters of the given names, or "U" when neither is given |
| LatestPosts.GetAuthorName | src/app/_components/latest-posts.tsx:81-86 | "first last" when both names are given, the email otherwise |
| LatestPosts.AuthorNameSplits | src/app/_components/latest-posts.tsx:82-84 | when the first name has no blank, the author name splits back at its first blank into the two names |
| LatestPosts.LatestThree | src/app/_components/latest-posts.tsx:97 | the panel takes a prefix of the list of at most three posts |
| LatestPosts.PostHref | src/app/_components/latest-posts.tsx:105 | a card's link is "/post/", decimal digits, "/" and then the slug |
| LatestPosts.PostHrefInjective | src/app/_components/latest-posts.tsx:105 | a card's link determines both the post id and the slug |
| LatestPosts.CardOf | src/app/_components/latest-posts.tsx:97-124 | a card shows the title, the excerpt and the link, and the author's initials and name, or "?" and "Unknown Author" without an author |
| LatestPosts.Render | src/app/_components/latest-posts.tsx:8-131 | loading, error and empty states exactly as the query reports them; otherwise one to three cards, those of the first posts in order |
| LatestPosts.OnlyFirstThreeMatter | src/app/_components/latest-posts.tsx:97 | posts after the third never change what the panel shows |
| JsString.Trim | src/server/auth/config.ts:104 | `trim()` removes whitespace only at the two ends, keeps the slice in between unchanged, and leaves no whitespace at either end of the result |
| JsString.TrimOffset | src/server/auth/config.ts:104 | the trimmed text is the slice of the input at some offset, with only whitespace before it and after it |
| JsString.FirstSegment | src/lib/rate-limiter.ts:146 | `split(",")[0]` is the prefix of the text up to its first comma, or the whole text without one |
| JsString.TrimOfBlank | src/server/auth/config.ts:104 | a text of blanks only trims to the empty text |
| JsString.LowerKeepsContains | scripts/clear-rate-limits.ts:94 | lower-casing the key and the address keeps every literal occurrence |
| JsString.NatToStringInjective | src/lib/rate-limiter.ts:263-264 | different window indices render as different decimal texts |

## Left out

- The rate-limit library: for the auth and API limiters, the model keeps the
  policies and the address handed over; it does not model the library's counting,
  headers or the response the adapter builds (`src/lib/rate-limiter.ts:150-227`).
  The library is not part of this model.
- The store connection (`getRedisClient`) and its errors: each command's failure is
  a flag of `CounterStore`, fixed for the duration of a call. Concurrent INCRs from
  several servers are not modelled.
- Time: `Date.now()` is the parameter `now`. TTL expiry of counters over time is
  not modelled; the model records each key's expiry.
- Number range: `limit`, `windowMs` and `now` are whole numbers and `windowMs` is
  never negative. Fractional or negative windows, which JavaScript would accept, are
  not modelled.
- The password hash: `verifyPassword` is the parameter `verify`, `bcrypt.hash` the
  parameter `hash`, and the generated primary key the parameter `newId`.
  `src/lib/password-utils.ts` is not part of this model.
- NextAuth itself: token signing, expiry and the `auth()` call are not modelled;
  the gate receives the session directly.
- The middleware's `config.matcher`: `Gate` is stated for every path.
- Case mapping: `Lower`/`Upper` map ASCII letters only. `toLowerCase` and
  `toUpperCase` of non-ASCII characters are not modelled. Examples: the Kelvin sign
  lower-cases to `k`; `ß` upper-cases to `SS`.
- String lengths: these are counted in characters, not UTF-16 code units (in
  `truncateContent` and the password length).
- Scripts: console messages, `rl.close`/`conn.end`, the `DATABASE_URL` check and the
  exit codes are not modelled. The outcome datatype names how each run ends; Ctrl+C
  is `Cancelled` (exit 0). Input that never arrives is `Waiting`.
- Inserts: errors other than a duplicate id or email, and the database's column
  length limits, are not modelled.
- `KEYS` patterns: each pattern is a prefix followed by `*`. Glob matching in
  general is not modelled.
- ClearRateLimits.Clear: failures of the store are not modelled: a connection error,
  a failed `KEYS` or a failed `DEL`. In the script such a failure ends the run with
  exit code 1 (`scripts/clear-rate-limits.ts:26-29` and `123-126`), possibly after
  the earlier passes have already deleted their keys.
- RateLimiter.Run: its own contract states only the number of answers. What the
  answers are is stated by `CallsInOneWindow`, `KthCallOfWindow`, `CountsInOneWindow`,
  `RunLeavesOtherKeys` and `NewWindowStartsAtOne`.
- RateLimiter.StoreKey: its own contract states only the prefix. That the key is
  the prefix, the scope key, ':' and the window label, and determines both, is
  stated by `StoreKeyInjective` and `SameCounterIffSameWindow`.
- CreateSuperuser.Conflicts: its own contract states the email case only. The id
  check of the primary key is stated by `UserTable.Insert`.
- `formatDate` and the panel's markup are not modelled.
- CreateSuperuser.EchoShowsOnlyStars: covers only what `onData` writes. The readline
  interface (`scripts/createsuperuser.ts:24-27`) stays attached to the same terminal
  until `rl.close()`, and its own handling of the key chunks during the password
  prompts is not modelled.
- CreateSuperuser.Script: its own contract states only bounds on what it consumes.
  Its meaning is stated by `CreatedIffAccepted`, `CreatedUser`, `PaddedExistingEmail`
  and the `*Stops` lemmas.
- CreateSuperuser.PasswordStage: its own contract states only a bound. Its meaning is
  stated by `PasswordStageAfterFirst`, `PasswordStageStops` and `PasswordStageCreated`.
- CreateSuperuser.ConfirmStage: its own contract states only a bound. Its meaning is
  stated by `ConfirmStageCreated`.
