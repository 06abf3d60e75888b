# Verified model of the TooManyHours API

A Dafny model of the stateful core of a Go web API for game lists, with proofs about
whole runs of it. `dafny verify dfyconfig.toml` checks everything.

The system lets a user log in, keeps the session alive with rotating refresh tokens, limits
login and username-check attempts, searches and imports games from IGDB, and keeps one list
of games per user. The model covers:

- **Refresh-token rotation** (`RefreshDecision`, `RefreshTable`, `Sessions`, `SessionRuns`,
  `SessionAnswers`, `SessionTheorems`, `PurgeInvisible`, `Interleaving`, `Successors`). A login
  opens a family; a refresh consumes one token and stores its successor (rotation as in
  section 5.2.2.3 of RFC 6819); a replay within the grace period forks another successor; a replay after it, or a logout,
  ends the family. The handlers are methods over the table, proved equal to functions of it.
  The run theorems come at two granularities: `SessionRuns` makes each request one atomic
  step under a monotone clock, `Interleaving` makes each database call a step and lets
  requests interleave and stop anywhere; `Successors` carries each family's history along such runs.
  Three lemmas show that an uninterrupted sequence of the small steps does what the atomic
  handler does.
- **The sliding-window limiter** (`SlidingWindow`, `RateLimiter`, `Gates`). `SlidingWindow` is
  the specification, a history that forgets nothing; `RateLimiter` is the map of timestamp
  slices, lazily pruned and swept, with a ghost history beside it; `Gates` is the two-limiter
  login gate with its `Retry-After` header (section 10.2.3 of RFC 9110) and the username check.
- **IGDB access** (`Pacing`, `TokenCache`, `SearchQuery`): slot claiming, the single-flight token
  cache with its one retry, and the escaping of a query into a string literal.
- **The catalog** (`Catalog`, `CatalogImport`, `ImportHandler`): the batch upsert of games, tags and
  links in one transaction, and the handler turning IGDB ids into local ones.
- **The list** (`UserGames`, `ListAnswers`, `ListHandlers`): validation, the three handlers, and the history of each
  entry.

`Wrappers`, `Cardinality` and `ReleaseDate` hold the option type and the unit of time, counting
lemmas, and calendar dates.

## What the proofs found

Five claims that the code's comments make, or that one would make of it, need a condition. In
each case the model keeps the code as it is.

- *Rotation always leaves a live successor* (`internal/repository/dbrepo/refresh_tokens.go:39-42`).
  Consuming a token and storing its successor are two statements without a transaction, so there
  are two ways in which it does not. If the second fails, or the request stops, the family is
  stranded (`SessionTheorems.LostSuccessorStrands`). And while the second is still to come, a replay
  that asks about the family finds no live token: a second tab is refused as if the session had
  ended, within grace, though no call fails and nobody logs out (`Successors.SecondTabRefused`).
  These are the only ways. In every interleaving a replay within grace is refused as revoked if and
  only if, when it asks, the family was revoked since its latest token, lost that token, or stands
  between consuming it and storing the next, and no forked token lives
  (`Successors.ReplayRefusedIff`); and a family that was neither revoked nor lost its token has a live
  one or a refresh about to store one (`Successors.SuccessorLivesOrIsComing`). With atomic handlers
  the second way is gone: a retry within grace is accepted if and only if the successor was stored
  or another token lives (`SessionTheorems.RetryAcceptedIff`), the exact verdict in every case is
  `SessionTheorems.VerdictIsHistory`, and without a failing create no family is ever stranded
  (`SessionTheorems.NothingIsLost`).
- *A logout ends the session.* In the interleaved model exactly when no refresh of the family is
  in flight at the moment the family is revoked: `Interleaving.RevocationFinalIff` is an if and
  only if, and `LogoutLosesARace` with `RaceIsReachable` is the run in which the logout loses.
- *The throttle admits at most a fixed number of events per second*
  (`internal/igdb/throttle.go:9-10`). The interval is an integer division, and the bound holds for
  every arrival sequence if and only if the division is exact (`Pacing.RateHoldsIffExact`).
  At IGDB's 4 per second it is.
- *Purging expired rows is only housekeeping.* Not in every run: a logout whose cookie still parses
  after its row was purged leaves the family alive, and a failing activity query shows only where
  the row is still stored. `PurgeInvisible.PurgingIsInvisible` proves that these are the only runs
  in which purging can be observed, as an if and only if over all runs; from the empty table,
  `PurgeInvisible.LongLivedLogoutTellsThemApart` is one of them. When a logout cookie's `exp` is not
  later than its row's expiry nothing shows (`PurgeInvisible.FittingCookiesTellNothing`), but the
  row's expiry is computed first and the `exp`, in whole seconds, a moment later
  (`cmd/api/session.go:52`, `cmd/api/auth.go:78`), so the code does not quite guarantee it.
- *The username check admits at most max calls per window.* Of sequential calls, yes
  (`Gates.UsernameChecksPerWindow`). Checking and recording are two critical sections, so calls that
  overlap can all pass the check before one is recorded. Under every policy the bound holds if and
  only if no two calls are in progress at once (`Gates.OverlapBoundIff`); with at most `n` at once,
  at most `n * max` pass per window (`Gates.OverlappingChecksPerWindow`).

Also visible in the model: a 500 from the list handlers may come after the write was made, when
only reading the entry back failed (`UserGames.Status`).

## Assumptions

- Ids drawn at random (`jti`, family id) never repeat and are not empty; the model keeps the set of
  all ids ever drawn.
- The refresh-token lifetime is one positive constant, and the grace period is not negative.
- Clocks do not run backwards. Each request of the atomic session model reads the clock once, also
  where the handler reads it at several of its statements; `Interleaving` reads it at every step.
  Each limiter call has its own reading: `Authenticate` has one for each of its two checks, one for
  each of its two records and one for the session, `UsernameCheckBlocked` and `GetToken` have two.
- Times are unbounded integers in nanoseconds. Go's zero time is `None` where a value can still
  have it.
- A failing statement has no effect. Which calls fail is a parameter of each request, so every
  theorem is about all patterns of failure it does not exclude by name.
- A limiter has `max >= 1` and `window > 0`; the throttle has `perSecond >= 1`; all three are
  constants in the program.
- `TokenCache`'s run theorems assume upstream never reissues a token, and that a caller only reports
  a token it was handed.

## Model

| member | source | states |
|---|---|---|
| RefreshDecision.VerdictOnlyAges | internal/refresh/decide.go:70-91 | for one snapshot, time only moves a verdict from accepted to refused to expired, and a longer grace only turns reuse into acceptance |
| RefreshTable.TokenRepo.CreateRefreshToken | internal/repository/dbrepo/refresh_tokens.go:9-11 | stores the row unless the statement fails or the jti exists; otherwise nothing changes |
| RefreshTable.TokenRepo.GetRefreshToken | internal/repository/dbrepo/refresh_tokens.go:15-22 | the row under a jti, or none |
| RefreshTable.TokenRepo.RevokeRefreshToken | internal/repository/dbrepo/refresh_tokens.go:30-35 | revokes that one row, only if not yet revoked |
| RefreshTable.TokenRepo.FamilyHasActiveToken | internal/repository/dbrepo/refresh_tokens.go:43-55 | true exactly when some row of the family is unrevoked and unexpired |
| RefreshTable.TokenRepo.RevokeRefreshFamily | internal/repository/dbrepo/refresh_tokens.go:59-64 | revokes exactly the family's unrevoked rows |
| RefreshTable.TokenRepo.DeleteExpiredRefreshTokens | internal/repository/dbrepo/refresh_tokens.go:69-73 | removes exactly the rows that expired before now |
| Sessions.SessionServer.IssueSession | cmd/api/session.go:32-60 | one fresh unrevoked row, in the given or a new family, expiring a lifetime from now, unless storing it fails; the row stays when only signing fails |
| Sessions.SessionServer.RefreshToken | cmd/api/handlers.go:427-519 | table and reply are those of the refresh step, with every early return and every failing call |
| Sessions.SessionServer.Logout | cmd/api/handlers.go:530-548 | revokes the family of a stored, parsed token, and changes nothing otherwise |
| Sessions.SessionServer.OpenSession | cmd/api/handlers.go:401-414 | purges expired rows, ignoring that failing, and opens a new family |
| SessionAnswers.LoginAnswered | cmd/api/handlers.go:401-414 | a login gets its token exactly when its row can be stored and the pair signed; the row is an unrevoked one of the new family for that user that a refresh would accept at once, and nothing changes but it and expired rows |
| SessionAnswers.NothingPresented | cmd/api/handlers.go:428-451 | without a signed, unexpired cookie that has an id a refresh is 401, and refresh and logout change nothing |
| SessionAnswers.RefreshAnswered | cmd/api/handlers.go:453-518 | 200 exactly when the token is stored, unexpired, unconsumed or within grace in a live family, and nothing fails; 500 exactly when a call fails but for the user lookup; 401 otherwise |
| SessionAnswers.RefusalChanges | cmd/api/handlers.go:481-493 | a refused token changes nothing, except that one consumed longer than grace ago in a live family ends the whole family |
| SessionAnswers.LogoutChanges | cmd/api/handlers.go:537-542 | a logout stamps exactly the unrevoked rows of the stored token's family, and changes nothing else |
| SessionRuns.EffectExplains | cmd/api/handlers.go:427-548 | every request, whatever fails, has one of five effects on the table: a family opened, a token rotated, a token lost, a family ended, nothing |
| SessionRuns.RefreshedIffSigned | cmd/api/handlers.go:505-518 | a refresh is answered 200 exactly when it rotated a token and signed the successor |
| SessionRuns.InvRun | cmd/api/handlers.go:481-510 | in every run each stored row agrees with its family's history, and the latest token of a family is stored until it expires, outlives the others, and is unrevoked exactly while the family is neither ended nor stranded |
| SessionTheorems.FamiliesAreNamed | cmd/api/session.go:38-43 | no reachable row has the empty family id that would make a rotation start a new family |
| SessionTheorems.FamilyActiveIffUnexpired | internal/refresh/decide.go:16-23 | with atomic handlers, a family neither ended nor stranded is active exactly when some row of it is unexpired, and its latest token is then unrevoked with the greatest expiry |
| SessionTheorems.VerdictIsHistory | internal/refresh/decide.go:80-88 | for every stored unexpired token: revoked exactly when its family was ended or it is consumed and no other token of the family lives, accepted exactly when unconsumed, or within grace with another alive, reuse otherwise; in a family not ended whose latest token was not lost a consumed token always has another alive |
| SessionTheorems.RetryAcceptedIff | cmd/api/handlers.go:503-514 | with atomic handlers, after a request consumed a token, presenting it again within grace is accepted if and only if the successor was stored or the family has another live token |
| SessionTheorems.NothingIsLost | cmd/api/session.go:55-57 | in a run in which no create fails no family loses a token or is stranded |
| SessionTheorems.LostSuccessorStrands | cmd/api/handlers.go:503-514 | a concrete run: after a failed create the family is refused as revoked though nothing ended it |
| SessionTheorems.DeadStaysDead | cmd/api/handlers.go:481-510 | once a family has no live token, after any further run it still has none, at any later time, and none of its tokens is accepted or reported as reuse |
| SessionTheorems.EndedStaysDead | cmd/api/handlers.go:537-542 | a logout or detected reuse that took effect is final for the family in every continuation |
| SessionTheorems.StepsAreIsolated | cmd/api/handlers.go:481-510 | one request adds, changes or removes no row of any other family, except removing expired ones |
| SessionTheorems.RevokedAtIsWriteOnce | internal/repository/dbrepo/refresh_tokens.go:24-35 | a consumed row is never changed again by any atomic run, until it is purged |
| SessionTheorems.AcceptancesWithinGrace | internal/refresh/decide.go:84-86 | any two requests of a run that store a successor on presenting one token are at most grace apart |
| SessionTheorems.TokensAreConserved | cmd/api/handlers.go:497-510 | without purging: rows issued are 1 + accepted refreshes + successors left unsigned, unrevoked rows 1 + grace-path successors - lost successors until the family is ended and 0 after, and all rows carry the user who logged in |
| SessionTheorems.CountsMove | cmd/api/handlers.go:481-510 | by how much each effect moves a family's number of rows and of unrevoked rows |
| PurgeInvisible.PurgingIsInvisible | internal/repository/dbrepo/refresh_tokens.go:66-73 | a store purged at arbitrary moments and one never purged give, along any run, the same replies, the same active families, and verdicts differing at most in unknown against expired, if and only if no logout presents a purged row of a family still alive and no activity query fails that only one store makes |
| PurgeInvisible.FittingCookiesTellNothing | cmd/api/auth.go:72-79 | in particular they are the same in every run whose logout cookies expire no later than their rows and whose activity queries work |
| PurgeInvisible.BisimilarStep | cmd/api/handlers.go:401-403 | any request on both stores: same reply and still the same unexpired rows, or, exactly for the requests named, a different reply or a family alive in one store only |
| PurgeInvisible.LogoutAgreesIff | cmd/api/handlers.go:537-542 | whatever a logout cookie's exp, the two stores agree afterwards on which families are alive, and on their unexpired rows, if and only if it is not the logout of a purged row of a family still alive |
| PurgeInvisible.LongLivedLogoutTellsThemApart | cmd/api/handlers.go:537-542 | a login, a refresh and a logout from the empty table after which the purging store has the family alive and the other has not |
| Interleaving.RevocationFinalIff | cmd/api/handlers.go:453-510 | RevokeRefreshFamily leaves the family with no unrevoked row and no accepted refresh in every state of every continuation if and only if no refresh of it is in flight |
| Interleaving.QuietForever | internal/repository/dbrepo/refresh_tokens.go:43-64 | a family with every row revoked and nothing in flight stays so under every interleaving |
| Interleaving.ThreatRevives | cmd/api/handlers.go:495-510 | any task counted as in flight can, left alone, store an unrevoked token of the family |
| Interleaving.LogoutLosesARace | cmd/api/handlers.go:530-548 | a logout that overtakes a refresh leaves the family with a live token |
| Interleaving.RaceIsReachable | cmd/api/handlers.go:427-548 | the state in which that race begins is reached from the empty table |
| Interleaving.RevokedAtWriteOnce | internal/repository/dbrepo/refresh_tokens.go:30-35 | under every interleaving of database steps revoked_at is written once, and nothing else in a row changes, until it is purged |
| Interleaving.IdsUsedRun | cmd/api/session.go:15-48 | under every interleaving all ids in sight were drawn before, and a family being opened belongs to its login alone |
| Successors.InvRun | cmd/api/handlers.go:453-514 | under every interleaving a family's latest token is stored until it expires, outlives its other rows, and is unrevoked exactly while not revoked since and not consumed; its pending consumers stand between their revoke and their create |
| Successors.InactiveIff | internal/repository/dbrepo/refresh_tokens.go:37-55 | in every interleaving, while its latest token has not expired, a family has no live token if and only if it was revoked since, lost that token or is rotating it, and no fork lives |
| Successors.SuccessorLivesOrIsComing | internal/repository/dbrepo/refresh_tokens.go:39-42 | in every interleaving a family with an unexpired row, not revoked since its latest token and not having lost it, has a live token or a refresh that has consumed one and not yet stored the next |
| Successors.ReplayRefusedIff | internal/refresh/decide.go:61-69 | in every interleaving a replay within grace is refused as revoked if and only if, when it asks, the family was revoked since its latest token, lost it or is rotating it, and no fork lives; otherwise it is accepted |
| Successors.OnlyRotating | cmd/api/handlers.go:503-514 | in a run in which no request stops early and no family is revoked, no family is ended and none has lost its latest token, so a rotation in progress is all that remains |
| Successors.SecondTabRefused | cmd/api/handlers.go:461-510 | such a run from the empty table in which a second tab's replay is refused as revoked at the very instant the token was consumed |
| Interleaving.UninterruptedRefreshIsAtomic | cmd/api/handlers.go:427-519 | a refresh run without interruption does to the table what the atomic refresh does |
| Interleaving.UninterruptedLogoutIsAtomic | cmd/api/handlers.go:530-548 | the same for a logout |
| Interleaving.UninterruptedLoginIsAtomic | cmd/api/handlers.go:401-409 | the same for a login |
| SlidingWindow.NewerIsSuffix | internal/ratelimit/limiter.go:129-139 | in a sorted history the entries after the cutoff are a suffix, split exactly there |
| SlidingWindow.AdmitsCounts | internal/ratelimit/limiter.go:47-51 | a key is admitted exactly when fewer than max of its events are less than a window old |
| SlidingWindow.ReplayKeepsGood | internal/ratelimit/limiter.go:62-74 | every run over any keys keeps histories in time order with entries i and i + max at least a window apart |
| SlidingWindow.AtMostMaxPerWindow | internal/ratelimit/limiter.go:15-19 | no half-open interval one window long holds more than max accepted events |
| SlidingWindow.RefusedUntil | internal/ratelimit/limiter.go:47-52 | a refusal's wait r has 0 < r <= window, and a history at rest is admitted exactly from now + r on |
| SlidingWindow.RetryTimeIsExact | internal/ratelimit/limiter.go:41-74 | with any later traffic and no reset the key stays refused until exactly now + r and is admitted from then until next recorded |
| RateLimiter.Limiter.Prune | internal/ratelimit/limiter.go:132-139 | one scan of a sorted slice returns exactly its entries after the cutoff |
| RateLimiter.Limiter.PruneKey | internal/ratelimit/limiter.go:93-106 | returns what the full history counts for the key, stores it, and drops an empty key |
| RateLimiter.Limiter.Check | internal/ratelimit/limiter.go:43-53 | answer and wait are those of the never-forgetting history, which it does not change |
| RateLimiter.Limiter.Record | internal/ratelimit/limiter.go:62-74 | the history gains the event exactly if admitted; afterwards at most 1024 keys, or every key holds an entry newer than now - 2 windows; sweeps are at least a window apart |
| RateLimiter.Limiter.MaybeSweep | internal/ratelimit/limiter.go:113-127 | below the threshold or within a window of the last sweep nothing happens; otherwise every key is pruned and empty ones dropped |
| RateLimiter.Limiter.SweepLoop | internal/ratelimit/limiter.go:119-126 | whatever order the map is ranged in, the result is the same |
| RateLimiter.Limiter.Reset | internal/ratelimit/limiter.go:85-89 | the key's history starts anew, all others stay |
| Gates.LongerWaitIsExact | cmd/api/handlers.go:325-333 | both limiters admit from the later of their two opening times on and not before; the longer wait, from the second check, reaches that time and overshoots it by at most the time between the checks |
| Gates.RetryAfterIsFirstAdmission | cmd/api/handlers.go:322-341 | a pair alone on its keys that keeps trying after a refusal is turned away and uncounted until exactly the later opening time |
| Gates.RetryAfterIsLeastSeconds | cmd/api/handlers.go:361-366 | after as many seconds as the header says both limiters admit, and when the two checks read the same instant no smaller whole number suffices |
| Gates.LoginHandler.LoginBlocked | cmd/api/handlers.go:325-333 | blocked exactly when not both histories admit, each at its own reading, with the longer wait; no history changes |
| Gates.LoginHandler.RecordLoginFailure | cmd/api/handlers.go:338-341 | the failure is recorded against both keys |
| Gates.LoginHandler.Authenticate | cmd/api/handlers.go:343-415 | refused before anything else exactly when the gate blocks; unknown email and wrong password leave the same state; an admitted right password clears both keys and is answered with its token, stored unrevoked in the new family and acceptable at once, or with an error exactly when storing or signing failed |
| Gates.UsernameCheckBlocked | cmd/api/username_handlers.go:83-90 | blocked exactly when the history does not admit at the first clock reading; otherwise the second reading is recorded; no other key is touched |
| Gates.RefusedIffMaxAdmitted | cmd/api/username_handlers.go:83-90 | after any sequential calls the next is refused if and only if max of them were admitted less than a window before its check, and recorded otherwise |
| Gates.UsernameChecksPerWindow | cmd/api/username_handlers.go:83-90 | sequential calls are admitted at most max times in any half-open window |
| Gates.OverlappingChecksPerWindow | cmd/api/username_handlers.go:83-90 | calls overlapping in any way, at most n in progress at once, pass the check at most n * max times in any half-open window |
| Gates.OverlapBoundIff | cmd/api/username_handlers.go:83-90 | under any policy at most max calls pass per window, in every run with at most n in progress at once, if and only if n <= 1 |
| Gates.OneTooMany | cmd/api/username_handlers.go:83-90 | under every policy a run with two calls overlapping in which max + 1 pass at one instant |
| Pacing.Throttle.Wait | internal/igdb/throttle.go:44-67 | claims the caller's slot in the schedule of all arrivals, cancelled callers included, and returns the delay until it |
| Pacing.SlotIsMaxPlus | internal/igdb/throttle.go:46-51 | slot k is the maximum over i <= k of arrival i + (k - i) intervals |
| Pacing.SlotsAreOptimal | internal/igdb/throttle.go:39-51 | the claimed slots are a first-come schedule, and no such schedule gives any caller an earlier slot |
| Pacing.RateHoldsIffExact | internal/igdb/throttle.go:31-37 | at most perSecond slots fall in every half-open second of every run if and only if perSecond divides a second of nanoseconds |
| Pacing.FourPerSecond | internal/igdb/throttle.go:12 | the limit of 4 per second is kept |
| TokenCache.Client.GetToken | internal/igdb/client.go:95-145 | cache and answer are those of one critical section, for a forced and an ordinary read |
| TokenCache.OrdinaryReadIsFresh | internal/igdb/client.go:103-144 | in every run an ordinary read hands out a cached token only with more than a minute of its grant to go, and otherwise the token granted in this very call, cached with its own expiry; it fails only when upstream does |
| TokenCache.ForcedReadReplaces | internal/igdb/client.go:99-144 | a read after a rejection hands out the other token cached by now without a fetch, and otherwise fetches |
| TokenCache.SingleFlight | internal/igdb/client.go:90-106 | over every order of critical sections no token is replaced twice, and fetches are at most 1 + tokens reported stale + tokens that reached the margin |
| TokenCache.HandedARealToken | internal/igdb/client.go:138-144 | in every run a successful read hands out a non-empty token, and after a rejection a different one |
| TokenCache.Client.Do | internal/igdb/client.go:172-209 | one slot, at most two posts, the second only after a 401 and with the token read then, whatever other requests do before and between the reads; a body only of a final 200 |
| TokenCache.PostsUnlessUpstreamFails | internal/igdb/client.go:180-201 | a request posts, and after a 401 and only then posts again, unless upstream fails the token read before it |
| TokenCache.RetryPostsAnotherToken | internal/igdb/client.go:180-201 | in every run, with any other requests in between, no posted token is empty and the retry does not post the rejected one |
| SearchQuery.EscapeSearchTerm | internal/igdb/query.go:21-43 | the loop computes the escaped query |
| SearchQuery.LexesBack | internal/igdb/query.go:21-43 | for every query and continuation a lexer reads back the query with breaks as spaces and other controls dropped, and stops at the closing quote |
| SearchQuery.RuneMeans | internal/igdb/query.go:26-39 | tab, newline and carriage return mean a space, other controls nothing, every other rune itself |
| SearchQuery.MeantRuneByRune | internal/igdb/query.go:25-40 | the meaning of a query is that of its runes in turn |
| SearchQuery.EscapingIsInjectiveOnMeaning | internal/igdb/query.go:17-43 | two queries are escaped alike if and only if they mean the same |
| SearchQuery.EscapingIsInjective | internal/igdb/query.go:17-43 | on control-free queries escaping is injective |
| SearchQuery.SearchBody | internal/igdb/client.go:289-294 | the body is a search literal meaning the query, followed by exactly the fixed clauses |
| SearchQuery.FixedClausesRead | internal/igdb/client.go:254-291 | the fixed clauses name the fields, exclude the six release types and end in a decimal numeral that reads as the limit |
| Catalog.UpsertTagsDescribed | internal/repository/dbrepo/catalog.go:95-105 | upserting tags keeps old ids, leaves each listed tag under its last name, and touches nothing else |
| Catalog.ImportAllDescribed | internal/repository/dbrepo/catalog.go:76-124 | unique keys and link integrity are kept, existing ids never change, each batch game has the fields and exactly the tags of its last occurrence, all else is untouched |
| Catalog.ImportStamps | internal/repository/dbrepo/catalog.go:80-105 | every game of a batch and every tag it names bears the time of the import |
| Catalog.ReimportChangesNothing | internal/repository/dbrepo/catalog.go:62-69 | importing the same content again changes only timestamps |
| CatalogImport.CatalogRepo.GamesByIGDBIDs | internal/repository/dbrepo/catalog.go:30-55 | the local id of exactly the asked ids the catalog has |
| CatalogImport.CatalogRepo.ImportGames | internal/repository/dbrepo/catalog.go:70-130 | fails exactly when some statement does and then changes nothing; otherwise imports the whole batch and returns each game's local id |
| CatalogImport.CatalogRepo.ImportGame | internal/repository/dbrepo/catalog.go:78-121 | the statements for one game: upsert, tags, links replaced; the object loses its tags and learns its id |
| CatalogImport.CatalogRepo.ImportTags | internal/repository/dbrepo/catalog.go:95-105 | the tag loop returns the id each tag is stored under |
| CatalogImport.CatalogRepo.LinkTags | internal/repository/dbrepo/catalog.go:112-119 | the link loop adds exactly the game's links |
| CatalogImport.Game.FromIGDB | internal/models/Game.go:93-126 | the fields, an absent or unreadable date as the zero time, and the three lists of tags in order, each under its facet |
| CatalogImport.FieldsTold | internal/models/Game.go:94-105 | title, kind and parent as given, image and summary as given or empty |
| CatalogImport.DateTold | internal/models/Game.go:106-113 | the date given, or the zero time if none or unreadable |
| CatalogImport.TagsTold | internal/models/Game.go:115-123 | the tags are the genres, themes and modes in order, each with its facet, id and name |
| ReleaseDate.ParsesExactlyFormats | internal/models/Game.go:106-113 | a date is read back exactly if it was written as YYYY-MM-DD: every date to the year 9999 comes back, nothing else parses |
| ReleaseDate.CalendarYear | internal/models/Game.go:106-113 | the days of the twelve months add up to 365, or 366 in a leap year |
| CatalogImport.Game.SplitTags | internal/models/Game.go:70-85 | each transport list is the tags of its facet in order, whatever it held before |
| CatalogImport.OfFacetAppend | internal/models/Game.go:75-84 | splitting keeps the order of the stored tags |
| CatalogImport.ReadsBack | internal/models/Game.go:65-126 | a game imported alone and read back in any tag order has the genre, theme and mode ids it was built from |
| ImportHandler.FaithfulIsComplete | cmd/api/igdb_handlers.go:134-139 | as many distinct requested games as were requested are all of them, so the length check suffices |
| ImportHandler.KnownAfter | cmd/api/igdb_handlers.go:146-154 | after an import exactly the old and the batch's games are known, old ids unchanged |
| CatalogImport.ZeroMeansAbsent | cmd/api/igdb_handlers.go:157-162 | ids start at 1, so 0 in an answer means an absent game and nothing else |
| ImportHandler.Importer.ImportIGDBGames | cmd/api/igdb_handlers.go:107-163 | the exact condition of each of the five answers: 200 if and only if configured, the lookup works, and all games are known or upstream answers as many as are not and every statement works; an error leaves the catalog as it was; a 200 gives at every position the local id of the game asked for there, all of them present if upstream is faithful |
| ImportHandler.MissingCount | cmd/api/igdb_handlers.go:120-125 | what is fetched is one id for each position the catalog cannot answer, repeats included |
| ImportHandler.StatementsCounted | internal/repository/dbrepo/catalog.go:76-122 | an import is two statements for each game and two for each of its tags |
| ImportHandler.Importer.Build | cmd/api/igdb_handlers.go:141-144 | fresh, distinct rows, one per fetched game in order |
| ImportHandler.Importer.Merge | cmd/api/igdb_handlers.go:152-154 | in whatever order the map is ranged, stored ids are added to the known ones |
| UserGames.RatingsAreHalfSteps | internal/validate/listentry.go:81-96 | a rating is valid if and only if it is k/2 with 1 <= k <= 20 |
| UserGames.UserGameRepo.AddUserGame | internal/repository/dbrepo/user_games.go:66-107 | inserts unless the pair exists or the statement fails; a failed re-read reports an error with the row in place |
| UserGames.UserGameRepo.GetUserGameCategory | internal/repository/dbrepo/user_games.go:116-131 | the category of this user's entry, or none |
| UserGames.UserGameRepo.UpdateUserGame | internal/repository/dbrepo/user_games.go:137-181 | writes exactly the named columns of this user's entry, or nothing |
| UserGames.UserGameRepo.DeleteUserGame | internal/repository/dbrepo/user_games.go:184-196 | removes exactly this user's entry, or reports it missing |
| ListHandlers.ListHandler.PostMyGame | cmd/api/user_games_handlers.go:66-143 | list and status are those of the post step, for the local id of the game asked for; the game is imported exactly when the rest of the request is valid and its import succeeds, and otherwise the catalog stays as it was |
| ListHandlers.ListHandler.PatchMyGame | cmd/api/user_games_handlers.go:149-246 | list and status are those of the patch step: the resulting category judged, 0 and blank clear |
| ListHandlers.ListHandler.DeleteMyGame | cmd/api/user_games_handlers.go:249-269 | list and status are those of the delete step |
| UserGames.EntriesAreExplained | cmd/api/user_games_handlers.go:66-246 | in every reachable list an entry's category, rating and review are what the last write to each since the insertion asked for, and a write that carried a rating or review left the entry finished |
| ListAnswers.PostAnswered | cmd/api/user_games_handlers.go:89-142 | the exact condition of each answer to a post, and the row it inserts |
| ListAnswers.PatchAnswered | cmd/api/user_games_handlers.go:170-245 | the exact conditions under which a patch is a bad request, fails, or takes effect; it then leaves each named column as asked, 0 and blank clearing, and each other one alone |
| ListAnswers.DeleteAnswered | cmd/api/user_games_handlers.go:259-268 | a delete removes exactly its entry, or reports it missing |
| ListAnswers.FinishAndRate | internal/validate/listentry.go:46-59 | finishing a game, rating and reviewing it is one request, from whatever category |
| UserGames.ChecksHold | internal/repository/dbrepo/user_games.go:66-181 | in every reachable list categories are known, ratings are half-steps from 0.5 to 10, and no review is blank |
| UserGames.StepsStayHome | internal/repository/dbrepo/user_games.go:137-162 | a request touches only its own user's entry for its game; a category-only patch preserves rating and review |

## Left out

- SessionTheorems.FamilyActiveIffUnexpired: for atomic handlers; under interleaving `Successors.InactiveIff` is the exact statement.
- SessionTheorems.RetryAcceptedIff: for atomic handlers; under interleaving `Successors.ReplayRefusedIff` is the exact statement.
- SessionTheorems.TokensAreConserved: stated for runs without purging, since purging removes rows; `PurgeInvisible` shows that purging cannot be observed.
- SessionTheorems.AcceptancesWithinGrace: for atomic handlers only; interleaved, a request may pause for any time between its decision and its successor.
- Interleaving.RevocationFinalIff: a login about to store its first row is not counted as in flight, since its family id is known to nobody else.
- Sessions.SessionServer.RefreshToken: the presented row's family id must not be empty, which every reachable table satisfies (`SessionTheorems.FamiliesAreNamed`).
- CatalogImport.CatalogRepo.ImportGames: objects come without a preset primary key, as `FromIGDB` builds them; the ids that GORM writes into tag objects are not kept.
- UserGames.RatingsAreHalfSteps: ratings are real numbers rather than 64-bit floats, which represent every half-step exactly.
- Gates.LoginHandler.Authenticate: the purge and the new row of a login share one clock reading, as in the atomic session model.
- Trimming, lower-casing and counting runes of text: library functions; text arrives normalised.
- Overflow of durations and of 64-bit integers: no value in the program comes near it.
- Access tokens, JWT signing, bcrypt, random bytes and the constant-time comparison for unknown emails: foreign code; a parsed cookie is a jti and an expiry.
- The list handlers interleaved with each other: the rating rule reads the category in one statement and writes in another, so it holds only for atomic handlers.
- Cookies, routing, JSON binding, response bodies and headers other than `Retry-After`: plumbing.
- `created_at` columns and the order in which related rows are loaded: nothing depends on them.
- HTTP to Twitch and IGDB, decoding their answers, sleeping: upstream is a parameter, and pacing is about claimed slots, not times on the wire.
- `GetByIDs`, `GetDLCs`, cover URLs, kind slugs, the backfill command: short and without state.
- Profiles, avatars, the username, email, password and bio validators, the health check: each judges or moves a single value.
