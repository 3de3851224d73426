# mikrouli: models and proofs of the API's protocols

mikrouli is a URL shortener. This project models the stateful protocols of its API in Dafny and
proves what they promise over all runs. `dafny verify dfyconfig.toml` checks everything.

Protocols whose point is concurrency are state machines: a run is any sequence of steps of any
number of calls, one statement or store access per step, and a step that cannot be taken changes
nothing. The services whose methods run one after another are classes whose methods are proved
against the same specifications.

| module | models |
|---|---|
| `Accounts` | sign-in and register as transactions under READ COMMITTED: reads see committed rows and their own, inserts wait for uncommitted conflicts and fail on committed ones |
| `SignInConvergence` | concurrent sign-in with one identity, and the run that breaks it |
| `SignInPasses` | what one pass does, the retry exactly, and `UsersService` |
| `Redis` | the key store with deadlines, its swallowing and its throwing accessors |
| `LinkCache` | the redirect cache against the table of links, handlers atomic |
| `CacheInterleaving` | the same with handlers split into database and cache steps |
| `Links` | link creation and its outbox record as transactions, one statement per step, and the slug retry |
| `Cleanup` | the hourly removal of expired links |
| `SlugGenerator` | rejection sampling and its uniformity |
| `Calendar`, `Quota` | month bounds, and the monthly quota as check-then-act |
| `Sessions` | refresh tokens over the revocation allowlist |
| `OAuthState` | single-use state tokens |
| `ApiKeys`, `KeyValidation` | key creation, revocation and validation; validations that overlap them |
| `Utf8`, `UrlEncoded`, `Redaction` | span attribute redaction |

## Where the code and its comments differ

The model follows the code.

- `apps/api/src/users/users.service.ts:139-142` says the second pass lands in branch 1 or 2
  deterministically. `SignInConvergence.SecondPassCanThrow` is a run where it throws, because
  another call links the email's user during the pass. `SignInPasses.SecondPassExactly` says for
  every run exactly when it throws, `SignInPasses.UnrivalledSecondPass` when
  that can be told beforehand, and `SignInConvergence.EveryRunConverges` gives hypotheses under which every
  sign-in returns.
- `apps/api/src/auth/auth.service.ts:202` says rotation overwrites the stored jti. `issueTokens`
  draws a new family (line 136), so it does not: the rotated token stays accepted until it expires
  or is revoked (`Sessions.AcceptedExactly`).
- A cache write in or after a link's last second stores a key without a deadline
  (`apps/api/src/cache/link-cache.service.ts:15-20`, `apps/api/src/redis/redis.service.ts:31-35`).
  `LinkCache.CacheWriteIsHarmlessExactly` shows that this is exactly the case in which the cache
  can come to disagree with the database.

## Idealised

- UUIDs, state tokens and key secrets are fresh; random bytes are an arbitrary stream.
- JWT verification accepts exactly the unexpired tokens that were signed; bcrypt compares plaintexts.
- The http(s) check of a URL is an arbitrary predicate `isHttp`.
- One clock for the API, the database and Redis; a key is live while now < its deadline, and
  computing a TTL and setting the key is one step.

## Model

| member | source | states |
|---|---|---|
| `Accounts.StatementKeepsCall` | apps/api/src/users/users.service.ts:69-91 | One statement of any call keeps the facts its later statements rely on: the found user is committed, the linked account is the identity's, buffered rows clash with nothing committed. |
| `Accounts.ViolationLeavesEvidence` | apps/api/src/users/users.service.ts:143-154 | A 23505 in a sign-in means the identity is linked or the email is taken by a committed row. |
| `Accounts.StatementKeepsApart` | apps/api/src/migrations/1700000000004-GithubIdentities.ts:14-15 | Inserts that wait for uncommitted conflicts never let two open transactions hold rows that clash on a unique constraint. |
| `Accounts.StepKeepsInv` | apps/api/src/users/users.service.ts:65-92 | Every step of every interleaving keeps the whole invariant: constraints, the foreign key, pending rows. |
| `Accounts.TablesStayConsistent` | apps/api/src/users/users.service.ts:65-92 | Main result. In every run of sign-ins and registers: emails, ids, (provider, id) and (provider, user) stay unique, links point to users, committed rows never change, a returned user is the one its identity is linked to. |
| `Accounts.AnswersOfEndedCalls` | apps/api/src/users/users.service.ts:51-58 | An ended register has added its own user with its email and password, or answered with a decoy, its email taken and nothing written; only a lost connection makes it throw. A sign-in throws for no other reason but a violation on its second pass. |
| `Accounts.StepConserves` | apps/api/src/users/users.service.ts:51-58 | A step adds to the tables exactly the rows of the call that commits in it. |
| `Accounts.ThrowingCallsLeaveNoTrace` | apps/api/src/users/users.service.ts:143-154 | Main result. The tables hold the initial rows and the rows of returned calls and nothing else, so a call that throws or answers with a decoy leaves no trace. |
| `Accounts.SomeCallCanRun` | apps/api/src/users/users.service.ts:65-92 | Main result. No deadlock: while a call is open, one open call is not blocked. |
| `Accounts.StatementLowersRank` | apps/api/src/users/users.service.ts:143-154 | Every statement brings its call nearer its end, the retry included. |
| `Accounts.EveryCallIsShort` | apps/api/src/users/users.service.ts:143-154 | Main result. Under any interleaving no call runs more than fifteen statements: one retry at most. |
| `SignInConvergence.ViolationMeansLinked` | apps/api/src/users/users.service.ts:148-153 | Under the convergence hypotheses a violated constraint means the identity is linked already, whichever email the call presents. |
| `SignInConvergence.StepKeepsConverging` | apps/api/src/users/users.service.ts:65-92 | Every step keeps the convergence invariant: a second pass only ever stands in branch 1. |
| `SignInConvergence.AtRestMeansDone` | apps/api/src/users/users.service.ts:143-154 | When no call can move, every call has ended. |
| `SignInConvergence.LinkedUserIsUnique` | apps/api/src/migrations/1700000000004-GithubIdentities.ts:14-15 | An identity's account and that account's user are unique rows. |
| `SignInConvergence.ConcurrentSignInConverges` | apps/api/src/users/users.service.ts:139-154 | Main result. Any number of concurrent sign-ins with one identity and any emails, interleaved with anything that touches neither: all return the same user after at most one retry, with one account; at most one user is signed up; the second pass writes nothing. |
| `SignInConvergence.ComesToRest` | apps/api/src/users/users.service.ts:143-154 | Every reachable state comes to rest in at most as many statements as the ranks of its calls add up to. |
| `SignInConvergence.EveryRunConverges` | apps/api/src/users/users.service.ts:139-154 | Main result. Wherever such a run has got to, that many further statements bring every sign-in with the identity to the same user. |
| `SignInConvergence.SecondPassCanThrow` | apps/api/src/users/users.service.ts:139-142 | The comment's unconditional claim is false: a run with two sign-ins of one pair and a register of that email in which the second pass rethrows 23505. |
| `SignInPasses.StatementKeepsCourse` | apps/api/src/users/users.service.ts:69-91 | A call with no foreign commits follows the branch the tables it started on prescribe. |
| `SignInPasses.QuietCallResolves` | apps/api/src/users/users.service.ts:65-92 | Main result. A call during which no other transaction commits does exactly what the three branches say of the tables it started on: the rows it adds, the user, the error. |
| `SignInPasses.InsertMeetsRivals` | apps/api/src/migrations/1700000000004-GithubIdentities.ts:14-15 | The insert of the account clashes exactly when the email's user held an account of the provider at the start, or one for that user or the identity has been committed since. |
| `SignInPasses.StepKeepsPass` | apps/api/src/users/users.service.ts:69-91 | Every step of any call keeps where a second pass may stand, given whether its lookup has missed and whether a rival account has been committed. |
| `SignInPasses.SecondPassExactly` | apps/api/src/users/users.service.ts:139-154 | Main result. In every run, whatever else commits: the second pass rethrows the violation if and only if its lookup ran while the identity was unlinked, and the email's user held an account of the provider when the pass began or another call committed one for that user or the identity during the pass; otherwise it returns. It creates no user. |
| `SignInPasses.SecondPassThrowsAtInsert` | apps/api/src/users/users.service.ts:83 | The same seen from inside: it rethrows if and only if its own account insert ran against a committed clashing row. |
| `SignInPasses.UnrivalledSecondPass` | apps/api/src/users/users.service.ts:139-154 | With no such commit by another call, it rethrows if and only if, when it begins, the identity is unlinked and the email's user holds an account of the provider. |
| `SignInPasses.QuietSecondPass` | apps/api/src/users/users.service.ts:139-154 | In particular when no other transaction commits during the pass. |
| `SignInPasses.UsersService.ResolveProviderIdentity` | apps/api/src/users/users.service.ts:65-92 | The three branches in one transaction meet the same specification of answer and new tables. |
| `SignInPasses.UsersService.FindOrCreateFromProvider` | apps/api/src/users/users.service.ts:143-154 | Try, and once more after a violation: alone, the retry changes neither the answer nor the tables. |
| `SignInPasses.UsersService.Create` | apps/api/src/users/users.service.ts:51-58 | A duplicate email changes nothing and is answered with a decoy; otherwise exactly one user is added. |
| `Redis.StoredUntil` | apps/api/src/redis/redis.service.ts:25-36 | A set value is read back until a positive TTL has passed, for good without one; other keys are unaffected. |
| `Redis.RedisService.GetDelOrThrow` | apps/api/src/redis/redis.service.ts:121-123 | Reads and removes in one step: the next reader finds nothing. |
| `LinkCache.CacheEntryDeadline` | apps/api/src/cache/link-cache.service.ts:15-28 | TTL arithmetic across both services: a deadline if and only if the expiry is null or at least 1000 ms ahead; then ahead of now, within 86,400 s and the link's life, and short of that life by under a second unless capped. |
| `LinkCache.TtlForm` | apps/api/src/cache/link-cache.service.ts:15-20 | The TTL: 86,400 s without an expiry, undefined once it has passed, else the whole seconds left up to the cap, 0 in the last second. |
| `LinkCache.StepKeepsInv` | apps/api/src/links/links.controller.ts:67-137 | Every atomic handler keeps: a live entry is the row's destination and dies no later than the row. |
| `LinkCache.CacheRefinesDatabase` | apps/api/src/redirect/redirect.service.ts:35-51 | Main result. In every run of atomic handlers with no cache write in or after a link's last second, resolve answers exactly what the database would at that instant. |
| `LinkCache.CacheWriteIsHarmlessExactly` | apps/api/src/cache/link-cache.service.ts:15-28 | The precondition is exact, for every row: a cache write can never make resolve wrong if and only if a full second of the link's life was left. |
| `LinkCache.LastSecondRedirectOutlivesTheLink` | apps/api/src/redirect/redirect.service.ts:35-42 | The failing family: a redirect in the last second is cached for good and still served after the link has expired. |
| `LinkCache.LinkApi.Redirect` | apps/api/src/redirect/redirect.service.ts:44-51 | The answer and the cache write spelled out: the live cached URL, else not-found, expired, or the row's URL, written to the cache; the new state is the Resolve step's; with the invariant the answer is the database's, cache reachable or not. |
| `LinkCache.LinkApi.CreateLink` | apps/api/src/links/links.controller.ts:67-78 | Refused exactly on a taken slug, with nothing changed; otherwise the row is added and, for a cached creation, its entry. |
| `LinkCache.LinkApi.RemoveLink` | apps/api/src/links/links.controller.ts:106-109 | Not-found exactly for a missing slug, forbidden exactly for another user's link, nothing changed; otherwise row and entry go and the slug resolves to not-found; with the cache down only the row goes. |
| `LinkCache.LinkApi.UpdateLink` | apps/api/src/links/links.controller.ts:121-137 | Not-found exactly for a missing slug, forbidden exactly for another user's link, nothing changed; otherwise the row gets the URL and is returned, its entry is evicted if expired and else rewritten; in time every slug's answer equals the database's. |
| `CacheInterleaving.RequestsAlone` | apps/api/src/redirect/redirect.service.ts:35-51 | Uninterrupted, the steps of a redirect and of a creation do what the atomic handler does, cache answering or not. |
| `CacheInterleaving.ChangesAlone` | apps/api/src/links/links.controller.ts:106-137 | The same of PATCH and DELETE. |
| `CacheInterleaving.CleanupAlone` | apps/api/src/cleanup/cleanup.service.ts:43-55 | Uninterrupted, cleanup deletes every row of its batch and evicts its entry. |
| `CacheInterleaving.FailedCleanupSteps` | apps/api/src/cleanup/cleanup.service.ts:28-41 | A failed DELETE passes over the row and its entry, a failed eviction over the entry. |
| `CacheInterleaving.HandlersDoNotLookAgain` | apps/api/src/links/links.service.ts:125-135 | A PATCH whose row has vanished or changed hands since it was read still writes the cache; a DELETE takes the row of any owner. |
| `CacheInterleaving.StepKeepsBounded` | apps/api/src/cache/link-cache.service.ts:15-28 | No key ever lives more than 86,400 s beyond the present. |
| `CacheInterleaving.StepKeepsCarried` | apps/api/src/links/links.service.ts:118-135 | Handlers begun since a row last changed carry that very row, whatever the interleaving. |
| `CacheInterleaving.StepKeepsMirror` | apps/api/src/links/links.controller.ts:67-137 | Once older handlers are done, every write mirrors the row; anything else in the cache dies by the limit. |
| `CacheInterleaving.DisagreementIsBounded` | apps/api/src/links/links.controller.ts:67-137 | Main result. Split handlers, any interleaving, failing cache operations and dying handlers: 86,400 s after the row last changed and the handlers in flight at that change finished, resolve agrees with the database. |
| `CacheInterleaving.StaleForADay` | apps/api/src/redirect/redirect.service.ts:35-42 | The bound is tight: a redirect that read the old row caches it after an update has cached the new one; redirects then go to the old destination for the whole day but its last millisecond. |
| `Links.StepKeepsInv` | apps/api/src/links/links.service.ts:67-78 | Every statement of every interleaving keeps: open transactions hold distinct slugs, none of them a committed one, and exactly the rows their position says. |
| `Links.SomeCallCanRun` | apps/api/src/links/links.service.ts:67-78 | No deadlock: while a creation is open, one is not waiting for another's slug. |
| `Links.StepCreates` | apps/api/src/links/links.service.ts:67-71 | A step ends a creation successfully exactly when it adds a link row; it then adds that one row as the call carries it, overwriting none, and its outbox record. |
| `Links.OutboxRecordsCreations` | apps/api/src/links/links.service.ts:67-78 | Main result. Over every interleaved run with failures anywhere, the outbox records added are those of the link rows ever committed, in order, one for each call that returned, with the slug and destination of its creation. |
| `Links.OtherStatements` | apps/api/src/links/links.service.ts:125-135 | An update changes one destination, a deletion removes one row; neither touches the outbox or a creation under way. |
| `Links.FailedCallsLeaveNothing` | apps/api/src/links/links.service.ts:73-78 | Main result. A call that has not returned a link, open, refused or failed half-way, has changed neither table. |
| `Links.StepKeepsFit` | apps/api/src/links/links.service.ts:42-57 | Each step keeps where a call stands in agreement with the inserts it has attempted. |
| `Links.TrialsFollowDraws` | apps/api/src/links/links.service.ts:73-78 | Every attempt is made with a slug drawn for it: the slugs tried are those drawn, in order, and the link is created under the last. |
| `Links.ConflictExactly` | apps/api/src/links/links.service.ts:51-57 | Main result. ConflictException exactly when five generated slugs in a row were taken; short of other errors, success exactly when one was free after at most four that were not. |
| `Links.LinksService.RetryOnSlugConflict` | apps/api/src/links/links.service.ts:51-57 | The loop creates under the first free slug; it throws, with both tables unchanged, exactly when all five are taken. |
| `Links.LinksService.Create` | apps/api/src/links/links.service.ts:80-105 | Limit refusals only for registered users at the limit; every refusal leaves both tables unchanged; success adds one link and one record. |
| `Cleanup.CleanupService.DeleteOneSafely` | apps/api/src/cleanup/cleanup.service.ts:28-41 | A failed delete leaves row and cache entry and reports false; a failed eviction leaves the entry and is not reported. |
| `Cleanup.CleanupService.HandleCleanup` | apps/api/src/cleanup/cleanup.service.ts:43-71 | The stores become those of one pass over the batch, and the count is rows before minus rows after, whatever deletes and evictions fail. |
| `Cleanup.CleanupIsInvisible` | apps/api/src/cleanup/cleanup.service.ts:11-55 | Main result. Whatever deletes and evictions fail, only rows past their expiry go, all others stay; under the cache invariant, which is kept, no answer changes but expired to not-found. |
| `Cleanup.PassIsEvents` | apps/api/src/cleanup/cleanup.service.ts:19-26 | A pass in which nothing fails is as many Cleanup events of the cache model. |
| `Cleanup.PassClearsOneBatch` | apps/api/src/cleanup/cleanup.service.ts:11-17 | Without failures a pass removes exactly min(1000, expired) expired rows. |
| `Cleanup.PassesClearTheTable` | apps/api/src/cleanup/cleanup.service.ts:66-71 | Main result. n passes leave max(0, E - 1000 n) expired rows: none exactly when n >= E/1000 rounded up. |
| `SlugGenerator.CharactersAreDistinct` | apps/api/src/links/slug-generator.service.ts:12 | The 61 characters are pairwise distinct, so words of indices and slugs correspond. |
| `SlugGenerator.CharactersAreTheAlphabet` | apps/api/src/links/slug-generator.service.ts:12 | The characters in order: digits, lower case, upper case without I and O, underscore. |
| `SlugGenerator.WordsAreSlugs` | apps/api/src/links/slug-generator.service.ts:24-31 | Two six-character slugs are equal exactly when their index words are, so the counts below are of slugs. |
| `SlugGenerator.TakeChars` | apps/api/src/links/slug-generator.service.ts:24-31 | The loop appends the accepted bytes of the buffer up to six characters. |
| `SlugGenerator.BuildSlug` | apps/api/src/links/slug-generator.service.ts:34-39 | Main result. On every stream with six bytes below 244, generation ends with the first six accepted bytes mod 61, whatever the chunks and their discarded tails; the bytes drawn are those the chunked loop on a finite supply needs. |
| `SlugGenerator.AcceptedForm` | apps/api/src/links/slug-generator.service.ts:18-21 | Accepted are the bytes below 244, mod 61, in their order. |
| `SlugGenerator.ChunksHaveTwoToSpare` | apps/api/src/links/slug-generator.service.ts:34-39 | A chunk has as many bytes as the slug lacks and two more; what it yields beyond the slug is discarded. |
| `SlugGenerator.FourBytesPerIndex` | apps/api/src/links/slug-generator.service.ts:14-21 | Each index has exactly four accepted bytes. |
| `SlugGenerator.GeneratesFirstSix` | apps/api/src/links/slug-generator.service.ts:34-39 | The chunked loop on a finite supply of bytes yields the first six accepted ones if it completes. |
| `SlugGenerator.PatternDecidesCompletion` | apps/api/src/links/slug-generator.service.ts:34-39 | Whether generation completes depends only on which bytes are rejected. |
| `SlugGenerator.RecodeProduces` | apps/api/src/links/slug-generator.service.ts:18-39 | Recoding a byte string that yields v gives one of the same length that yields w. |
| `SlugGenerator.RecodeBack` | apps/api/src/links/slug-generator.service.ts:18-21 | Recoding from v to w and back restores every byte. |
| `SlugGenerator.SlugsAreUniform` | apps/api/src/links/slug-generator.service.ts:14-39 | Main result. For every N, every slug comes from equally many byte strings of length N. |
| `Calendar.TilesAreMonths` | apps/api/src/usage/usage.service.ts:11-16 | Main result. The tiles are the UTC months: the first is January 1970, each has its Gregorian length, and an instant gets a month's bounds exactly when it lies in it. |
| `Calendar.MakeDayCarries` | apps/api/src/usage/usage.service.ts:13-14 | Month index 12 opens January of the next year. |
| `Calendar.LaterMonthsStartLater` | apps/api/src/usage/usage.service.ts:13-14 | A later month starts no earlier than the end of an earlier one. |
| `Calendar.MonthsTile` | apps/api/src/usage/usage.service.ts:11-16 | Main result. The bounds contain the instant, two instants share them exactly when one lies within the other's, later months do not overlap, and the next month's start is its own month's start (December included). |
| `Calendar.NextOpensItself` | apps/api/src/usage/usage.service.ts:97-100 | The reset date is the start of the month it falls in. |
| `Quota.UtcMonthsTile` | apps/api/src/usage/usage.service.ts:11-16 | The calendar's months are a tiling of the kind the quota protocol needs. |
| `Quota.StepKeepsInv` | apps/api/src/links/links.service.ts:80-90 | Check, insert, abandon, delete and clock steps keep rows plus checked creations within the bound. |
| `Quota.OvershootIsBounded` | apps/api/src/links/links.service.ts:80-90 | Main result. With at most K creations in flight no month ever holds more than L + K - 1 surviving rows, L when K = 1, none when L = 0. |
| `Quota.KeyCreationsAreBounded` | apps/api/src/api-keys/api-keys.service.ts:59-71 | For keys, whose rows stay on revocation, the bound is on all creations of the month. |
| `Quota.AbandonedChecksLeaveNothing` | apps/api/src/links/links.service.ts:80-90 | A creation that throws after its check gives its place back. |
| `Quota.QuotaStartsAnew` | apps/api/src/usage/usage.service.ts:54-72 | However many rows the old month holds, a creation passes its check at the first instant of the next one. |
| `Quota.OvershootIsReached` | apps/api/src/usage/usage.service.ts:54-72 | The bound is tight: for every L and every K >= 1 some run reaches it. |
| `Quota.LinkCreationsAreUnbounded` | apps/api/src/links/links.service.ts:80-90 | For links, whose rows are deleted, no number of creations in a month is out of reach. |
| `Sessions.StepKeepsInv` | apps/api/src/auth/auth.service.ts:133-223 | Every step of concurrent logins, rotations and revocations keeps the allowlist invariant. |
| `Sessions.FamilyHoldsOwnJti` | apps/api/src/auth/auth.service.ts:193-197 | Main result. A signed token's family holds its own jti, until no earlier than the token's exp, or nothing; the mismatch branch is never taken. |
| `Sessions.SessionsAreForTheirUser` | apps/api/src/auth/auth.service.ts:133-143 | Main result. A login hands out tokens for the user who logged in, a rotation for the user of the rotated token, expiring 604,800 s after an instant during the call. |
| `Sessions.VerificationDecides` | apps/api/src/auth/auth.service.ts:206-219 | What is no signed, unexpired refresh token a rotation refuses, and a revocation takes for revoked. |
| `Sessions.ChecksDecide` | apps/api/src/auth/auth.service.ts:177-203 | The three checks of a rotation together let through exactly the tokens that are signed, unexpired, on the allowlist, with an existing user. |
| `Sessions.IssuingDecides` | apps/api/src/auth/auth.service.ts:133-165 | The pair is handed out exactly if the store answers, for the given user, its key stored for 604,800 s. |
| `Sessions.DeletionDecides` | apps/api/src/auth/auth.service.ts:221-222 | A revocation deletes the key of its token and fails exactly with the store. |
| `Sessions.KeyStaysUntilRevoked` | apps/api/src/auth/auth.service.ts:145-147 | The key of a token that was handed out is there until a revocation of that very token removes it. |
| `Sessions.AcceptedExactly` | apps/api/src/auth/auth.service.ts:177-204 | Main result. After any run, a handed-out token is accepted exactly while unexpired, unrevoked and its user exists, rotated or not. |
| `Sessions.RevocationIsFinal` | apps/api/src/auth/auth.service.ts:206-223 | Main result. Once revokeRefresh(t) has returned, no rotateRefresh(t) begun later returns tokens. |
| `Sessions.StoreErrorsIssueNothing` | apps/api/src/auth/auth.service.ts:145-147 | A store error makes the call throw and hands out no token. |
| `Sessions.IssuingLeavesOthers` | apps/api/src/auth/auth.service.ts:133-165 | Issuing a pair changes acceptance of no token signed before. |
| `Sessions.AuthService.IssueTokens` | apps/api/src/auth/auth.service.ts:133-165 | Tokens exactly when the store answers, with the family's key set for 604,800 s; earlier tokens unaffected. |
| `Sessions.AuthService.RotateRefresh` | apps/api/src/auth/auth.service.ts:177-204 | Success, Unauthorized and store errors each exactly characterised; a mismatch drops the family; on reachable stores there is none and the old token stays accepted. |
| `Sessions.AuthService.RevokeRefresh` | apps/api/src/auth/auth.service.ts:206-223 | On success the token is no longer accepted and no other token is affected; fails exactly on a store error for a valid token. |
| `OAuthState.StepKeepsSingleUse` | apps/api/src/auth/github.strategy.ts:47-69 | Every step keeps: stored keys come from mints with their deadlines, verified tokens are stored no more. |
| `OAuthState.StateTokensAreSingleUse` | apps/api/src/auth/github.strategy.ts:47-69 | Main result. Under every interleaving, with the store failing anywhere, each state token verifies at most once, only if minted, only within 600 s of that. |
| `OAuthState.VerifiesExactly` | apps/api/src/auth/github.strategy.ts:56-69 | Main result. A callback verifies if and only if the store answers, its token was stored less than 600 s ago and its key has not been read since. |
| `OAuthState.GithubStateStore.Store` | apps/api/src/auth/github.strategy.ts:47-54 | The Mint step on the real store; the token then verifies. |
| `OAuthState.GithubStateStore.Verify` | apps/api/src/auth/github.strategy.ts:56-69 | The GetDel step on the real store: true exactly for a live key, and the same token does not verify again. |
| `ApiKeys.ParsePrefixUndoesGenerate` | apps/api/src/api-keys/api-keys.service.ts:48-57 | parsePrefix of a generated plaintext is the generated prefix. |
| `ApiKeys.PrefixForm` | apps/api/src/api-keys/api-keys.service.ts:48-57 | A key is mk_ and what was drawn; a prefix is the eight characters after the first three, fewer in a shorter string. |
| `ApiKeys.RowsAreAliveKeys` | apps/api/src/api-keys/api-keys.service.ts:59-84 | After any run the unrevoked rows are exactly the keys created and not revoked since. |
| `ApiKeys.ValidateIsSound` | apps/api/src/api-keys/api-keys.service.ts:86-97 | Main result. Whatever prefixes collide and whichever row findOne picks, validate answers u only for a key created for u and not revoked since. |
| `ApiKeys.ValidateIsComplete` | apps/api/src/api-keys/api-keys.service.ts:86-97 | Main result. An alive key validates exactly when its row is the one picked, so always when unrevoked prefixes are distinct. |
| `ApiKeys.PrefixesTellKeysApart` | apps/api/src/api-keys/api-keys.service.ts:86-92 | A key whose first eight drawn characters are others is no candidate. |
| `ApiKeys.DistinctPrefixesValidate` | apps/api/src/api-keys/api-keys.service.ts:86-97 | Main result. While the first eight characters drawn for the alive keys are pairwise different, every alive key validates as its user, whichever candidate is picked. |
| `ApiKeys.RevokedKeysStayRevoked` | apps/api/src/api-keys/api-keys.service.ts:78-84 | Main result. A revoked key never validates again, for any user, after any further run. |
| `KeyValidation.FindThenCompare` | apps/api/src/api-keys/api-keys.service.ts:86-97 | Run together, reading the row and comparing the hash answer what validate would at that instant. |
| `KeyValidation.AnswersWereTrue` | apps/api/src/api-keys/api-keys.service.ts:86-97 | Main result. With the row read and the hash compared in separate steps, interleaved with anything: a validation that answers u was given a key of u that was alive at some moment while it ran. |
| `KeyValidation.RevocationStopsValidations` | apps/api/src/api-keys/api-keys.service.ts:78-97 | Main result. No validation begun after a revocation answers for the revoked key. |
| `KeyValidation.OverlappingValidationMayAnswer` | apps/api/src/api-keys/api-keys.service.ts:86-97 | One whose row was read before the revocation may still answer. |
| `ApiKeys.ApiKeysService.CreateForUser` | apps/api/src/api-keys/api-keys.service.ts:59-71 | Refuses exactly at the limit, changing nothing; otherwise adds one row under which the returned plaintext validates. |
| `ApiKeys.ApiKeysService.RevokeKey` | apps/api/src/api-keys/api-keys.service.ts:78-84 | Fails exactly when the user has no such unrevoked row; afterwards the row is no candidate for any plaintext. |
| `ApiKeys.ApiKeysService.ValidateKey` | apps/api/src/api-keys/api-keys.service.ts:86-97 | Picks a candidate row if there is one and compares the hash. |
| `Utf8.DecodeEncode` | apps/api/src/instrumentation.ts:79-80 | UTF-8 decoding undoes encoding on every string of scalar values. |
| `Utf8.DecodeOne` | apps/api/src/instrumentation.ts:79-80 | Main result. Decoding takes the character whose encoding comes first; where none does, the longest stretch that starts one, at least one byte, becomes one U+FFFD. |
| `UrlEncoded.EscapedForm` | apps/api/src/instrumentation.ts:80 | A space is printed as +, * - . _ 0-9 A-Z a-z as themselves, any other byte as % and two upper-case hex digits. |
| `UrlEncoded.SerializedForm` | apps/api/src/instrumentation.ts:80 | Pairs are printed in order, = within and & between them. |
| `UrlEncoded.UnescapedForm` | apps/api/src/instrumentation.ts:79 | + is read as a space; a % without two hex digits, and any other byte, as itself. |
| `UrlEncoded.UnescapedHex` | apps/api/src/instrumentation.ts:79 | % and two hex digits of either case are read as the byte they name. |
| `UrlEncoded.ParseSplits` | apps/api/src/instrumentation.ts:79 | Reading a string joined with & reads its two sides. |
| `UrlEncoded.ParsePiece` | apps/api/src/instrumentation.ts:79 | A piece is split at its first =. |
| `UrlEncoded.ParseBareName` | apps/api/src/instrumentation.ts:79 | A piece without = has an empty value, an empty one gives nothing. |
| `UrlEncoded.ParseDropsOneMark` | apps/api/src/instrumentation.ts:79 | The constructor drops one leading question mark and no more. |
| `UrlEncoded.ParseSerialize` | apps/api/src/instrumentation.ts:79-80 | Main result. new URLSearchParams(params.toString()) has exactly the pairs of params, for every list of pairs. |
| `UrlEncoded.ParsePairBytes` | apps/api/src/instrumentation.ts:79-80 | One printed pair parses to itself. |
| `UrlEncoded.Serialize` | apps/api/src/instrumentation.ts:80-82 | The printed string is empty exactly for no pairs, and never contains a question mark. |
| `Redaction.SetForm` | apps/api/src/instrumentation.ts:70 | Set replaces the value of the first pair of the name in its place and drops the later ones; with none it appends. |
| `Redaction.SetRedactsOneMore` | apps/api/src/instrumentation.ts:70 | One has/set turn of the loop is the reference with one more name. |
| `Redaction.RedactSearchParams` | apps/api/src/instrumentation.ts:68-73 | Main result. The loop over the seven names computes the one-pass reference redaction. |
| `Redaction.RedactionIsExact` | apps/api/src/instrumentation.ts:68-73 | Main result. Each of the seven PII parameters then occurs at most once, redacted, and exactly if it occurred; the ordered list of other pairs is unchanged. |
| `Redaction.CleanStays` | apps/api/src/instrumentation.ts:68-73 | A redacted list is its own redaction. |
| `Redaction.RedactQueryString` | apps/api/src/instrumentation.ts:75-83 | The method on its mutable parameters computes the redacted URL. |
| `Redaction.UrlRedactionIsIdempotent` | apps/api/src/instrumentation.ts:75-83 | Main result. A redacted URL keeps its base, its query parses to exactly the redacted pairs, and a second pass changes nothing. |
| `Redaction.SensitiveKeys` | apps/api/src/instrumentation.ts:45-62 | The keys dropped whole are the five client addresses and, in either direction, the four credential headers. |
| `Redaction.SanitisedAttribute` | apps/api/src/instrumentation.ts:85-89 | Main result. What is left of one attribute: nothing under the thirteen sensitive keys; of a text under the four URL keys its base, its other parameters in order and its seven PII parameters redacted; any other value unchanged. |
| `Redaction.SanitiseAttributes` | apps/api/src/instrumentation.ts:96-104 | The result has the same keys; the sensitive ones are redacted and all but the URL ones else unchanged. |
| `Redaction.SanitisingIsIdempotent` | apps/api/src/instrumentation.ts:85-104 | Main result. A second pass over sanitised attributes changes nothing. |

## Left out

- Sessions.RotateRefresh and its neighbours run one after another in `AuthService`; their interleavings are covered by the state machine in the same module, on values. The same holds for `OAuthState` and its `GithubStateStore`, for `Accounts` and `UsersService`, for `LinksService`, for `KeyValidation` and `ApiKeysService`, and for `LinkCache.LinkApi`, whose split steps are `CacheInterleaving`.
- Accounts: a commit whose acknowledgement is lost on the way back is not modelled; a lost connection rolls its transaction back. Foreign deletions of users and statement-level waits inside one INSERT (index by index) are not modelled either: an insert takes effect in one step. Users are not deleted.
- SignInConvergence.ConcurrentSignInConverges: assumes the calls with the identity keep their connection. So does SignInPasses.SecondPassExactly of the call itself.
- Links: a commit whose acknowledgement is lost is excluded; there an outbox record exists although the call failed. resolveExpiry's default is not modelled; a call carries its expiry. `Create` takes the count and limit its check read; the quota race is in `Quota`.
- LinkCache.LinkApi: CreateLink takes the slug as drawn; drawing again is in `Links`.
- CacheInterleaving: cleanup may pick any batch of slugs, a superset of what its query returns; the bound then holds for any batch.
- ApiKeys: validate is one step there; its two steps are in `KeyValidation`. lastUsedAt and its background update are left out.
- Quota: one user at a time and a constant limit; resolveLinkLimit, resolveKeyLimit, parsePositiveInt and getSummary are one-line computations.
- Key prefixes (`link:`, `auth:refresh:`, `auth:oauth:state:`): each store has its own key space.
- CHAR columns' blank padding: slugs and key prefixes are compared as plain strings.
- Redaction: lone surrogates in strings, and the attribute key `__proto__`, which an assignment to an object does not store.
- SlugGenerator.BuildSlug: asks for a stream with six acceptable bytes; on a stream without them the source's loop does not end. BuildSlug returns a slug as the word of its characters' indices.
- Calendar: instants before 1970 and beyond the range of Date.
- Access tokens and cookies: built and signed, never stored.
- The guest user's cached id, selectVerifiedEmail, list endpoints: one branch each.
- Passport and the GitHub HTTP calls, MCP transport, NestJS wiring, throttling, public-URL validation, ClickHouse statistics, the web application: foreign calls, plumbing or UI.
