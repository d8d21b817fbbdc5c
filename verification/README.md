# Verified model of the OpenDesk API engines

This project models the parts of the OpenDesk API server (`api/internal`) that keep state or
take decisions in process, and proves what they guarantee over whole runs. Code that works
by updating fields, slices and maps is modelled by classes and methods over the same
fields; each method is proved against a function on values, and the theorems are lemmas
about those functions.

| files | what they model |
|---|---|
| `RelayGrants`, `RelayGrantStore`, `RelayGrantService`, `RelayGrantRuns`, `RelayGrantHistory`, `RelayGrantInterleaving`, `RelayGrantInterleavedHistory`, `RelayGrantInterleavedLists` | the relay grant protocol: the service object on its map and on the newest-first list, the refinement between the two, the exact condition for acceptance over runs of atomic calls, and the same when validations are split into their two locked halves, on both backends |
| `RateLimiter`, `RateLimits` | the fixed-window limiter with lazy reset and sweeping, against a limiter that knows one key and never forgets; the sliding bound; `Retry-After` |
| `BuildStore`, `BuildQueue`, `BuildWorker`, `BuildHandlers`, `BuildRuns` | the build job queue, the worker with an arbitrary builder outcome, the handlers' guards, and interleavings of handlers with any number of workers |
| `AccessRules`, `AccessRuleStore` | access evaluation: filtering, stable sorting, the head of the list, against a declarative decision; the list of rules, edited in place |
| `Strategies`, `StrategyFlattening` | layered strategy resolution and the flattening of stored strategies into its input |
| `Sessions` | sign-in sessions: when a token is accepted |
| `Slices`, `SharedLists`, `Groups`, `AddressBooks` | in-place compaction on shared backing arrays, and groups and address books built on it |
| `Settings`, `SettingsRuns`, `Listings` | sectioned settings over one key space, and reading maps out in key order |
| `Wrappers`, `Text`, `Clock`, `Sorting` | options, results, sequence facts; the string, time and sorting helpers of the Go library |

`dafny verify dfyconfig.toml` checks the whole project.

## Main results

The first 40 rows of the table under "Model" are the main results; the others are the operations
they are about and the steps that lead to them.

## Assumptions

- Time is an integer number of nanoseconds. Where a theorem needs clock readings that do not
  go back it says so (`Clocked`, `Chronological`, `ClockedFrom`). The rate limiter's clock is
  read before its lock is taken, so `Chronological` is an assumption about the environment.
  Relay grants and sessions are issued after 1970.
- Each mutex-held method is one step. A handler is one step where a theorem says so; a
  worker's claim, profile load, build, artifact records and completion are separate steps.
- `randomID` returns the prefix, an underscore and 22 URL-safe base-64 characters. Whole-run
  theorems take such values to be fresh (`FreshIds`, `FreshNonces`).
- A token parses only if the service signed it, and parsing returns the signed payload. The
  stored token hash is injective.
- Store calls fail only where the in-memory repository returns an error. Jobs, profiles,
  artifacts and grants start from empty collections; the counter may start anywhere.
- What the file system and the builder process do is a parameter of the worker; what the
  password check answers is a parameter of a login, and so are the clock and `randomID`.
- Status and error strings from a fixed set are datatypes; access rules, whose code compares
  free strings, keep them as strings. Letters outside ASCII have no case. File names are taken
  on slash-separated paths.
- A JSON text is nothing, garbled, or what it decodes to, a number being the float it decodes
  to. Encoding a decoded value gives a text that decodes to it.
- Go's stable sort is modelled as insertion from the left. `AccessRules.StableSortIsUnique`
  shows that no other stable algorithm could give a different list. `Listings.Sort` promises
  an ordered permutation and nothing about ties, as `sort.Slice` does.
- A loop over a Go map takes the keys in any order: the next key is chosen by `:|`.

## Findings

- The service states that a relay grant's time to live must be between 60 seconds and five
  minutes, but converts the requested seconds by a product that wraps in int64. A request of
  `t` seconds is decided as stated if and only if no `k >= 1` puts
  `t * 10^9 - k * 2^64` nanoseconds in that range (`RelayGrants.RequestedTTLExactly`). The
  smallest request that fails is 18 446 744 134 seconds, which is accepted and lasts 60.29
  seconds (`RelayGrants.FirstOverflow`). The resulting lifetime is always within the range
  (`RelayGrantHistory.IssuedLifetime`).
- At most one acceptance per grant holds when calls are atomic and fails when the halves of
  validations interleave (`RelayGrantInterleaving.OverlappingValidationsBothAccepted`). Two
  accepted validations must then overlap (`RelayGrantInterleaving.AcceptedValidationsOverlap`),
  and `RelayGrantInterleavedHistory.BothAcceptedExactly` says exactly when that happens.
- The two grant backends search differently for an identifier with surrounding blanks
  (`RelayGrantRuns.PaddedTokensDistinguishBackends`); no minted token has one.
- Settings keys are trimmed one by one, so two request keys can name one setting. Reading
  after writing holds exactly when such keys agree (`SettingsRuns.ReadAfterWrite`).
- The access comparator is a strict weak order for allow and deny rules; with a third effect
  it need not be (`AccessRules.ChainsExactlyWhen`, `AccessRules.ThirdEffectsBreakTheOrder`).
  The handler admits no third effect (api/internal/policies/handler.go:585).

## Model

| member | source | states |
|---|---|---|
| `RelayGrantHistory.ExactAcceptance` | api/internal/relaygrant/service.go:191-228 | After any run of atomic issue/validate/revoke calls, a validation is accepted if and only if its token parses to a payload naming a grant that was issued with that nonce, is within its time, agrees on target and relay, and was neither accepted nor revoked before |
| `RelayGrantHistory.EachAcceptanceUsesOneGrant` | api/internal/relaygrant/service.go:191-228 | The number of grants that carry a time of use equals the number of accepted validations of the run |
| `RelayGrants.IssuedExactlyWhen` | api/internal/relaygrant/service.go:126-142 | A grant is issued if and only if an identity is given, a target device or a target identifier that is not blank, at least one relay, and a lifetime in range, by default or as the product lands; otherwise the error names the first that is wanting and the ledger is unchanged |
| `RelayGrants.RequestedTTLExactly` | api/internal/relaygrant/service.go:136-142 | A requested TTL is accepted if and only if its product less some number of int64 turns is between 60 and 300 seconds, and is decided as stated if and only if no positive number of turns brings it there |
| `RelayGrants.VerdictExactly` | api/internal/relaygrant/service.go:200-227 | A stored grant is refused for the first that holds of other nonce, revoked, used, expired, other target, relay not allowed, each with its status, reason and error, and accepted if none holds; only a lapse and an acceptance write, and only to that grant |
| `RelayGrantRuns.BackendsAgree` | api/internal/relaygrant/service.go:122-251 | On every run of well-formed calls, the service over the newest-first list gives every call the same reply as the service over the map |
| `RelayGrantInterleaving.NeverReissued` | api/internal/relaygrant/service.go:191-251 | Under every interleaving of lookup halves, finish halves, issues and revocations, a grant that has left issued never returns to it |
| `RelayGrantInterleavedHistory.ExactAcceptance` | api/internal/relaygrant/service.go:191-251 | Under every interleaving of half-steps, a finish is accepted if and only if its grant was issued before its own lookup with terms that fit the request, and no acceptance, revocation or lapse of it came before that lookup |
| `RelayGrantInterleavedHistory.BothAcceptedExactly` | api/internal/relaygrant/service.go:191-228 | Two finishes for one grant are both accepted if and only if it was issued before the earlier lookup, fits both requests, and was not spent before the later lookup |
| `RelayGrantInterleaving.AcceptedValidationsOverlap` | api/internal/relaygrant/service.go:191-228 | Two accepted validations of one grant both looked it up before either finished |
| `RelayGrantInterleavedLists.BackendsAgree` | api/internal/relaygrant/service.go:291-331 | Under every interleaving of half-steps the list backend gives every step, issues, lookups, finishes and revocations alike, the reply of the map backend |
| `RelayGrantInterleavedLists.ExactAcceptance` | api/internal/relaygrant/service.go:191-251 | Over the list backend too, under every interleaving, a finish is accepted if and only if its grant was issued before its own lookup with terms that fit and nothing had spent it by then |
| `RateLimits.SlidingBound` | api/internal/middleware/middleware.go:95-115 | For every key, chronological log and start a, at most twice the limit of requests in [a, a + window] are let through |
| `RateLimiter.CleanupIsInvisible` | api/internal/middleware/middleware.go:95-123 | Over any chronological log, every answer equals that of a limiter that knows one key only and never deletes |
| `RateLimits.RetryAfterIsSufficientAndTight` | api/internal/middleware/middleware.go:95-157 | Waiting the announced whole seconds is enough, and one second less is not (delay-seconds, section 10.2.3 of RFC 9110) |
| `BuildQueue.ClaimsIncrease` | api/internal/repository/memory.go:1299-1370 | Over every interleaving of create, claim, complete, fail and cancel calls, guarded or not, later claims return strictly larger identifiers, so no job is claimed twice |
| `BuildHandlers.SubmittedExactly` | api/internal/builds/handler.go:366-409 | A job is created if and only if the platform is one of the five supported and the first profile with the identifier enables it; it then waits, last, for that profile and platform. Otherwise the store is unchanged and the reply names the first condition that failed |
| `BuildRuns.RunKeepsInvariant` | api/internal/builds/handler.go:366-551 | The invariant holds after every interleaving of handlers and any number of workers from an empty store |
| `BuildRuns.JobsOnlyProgress` | api/internal/builds/handler.go:482-551 | Along every run a job keeps its place and identity, a finished job is never written again, and a running one only succeeds or fails |
| `BuildRuns.ArtifactsMatchTheOutput` | api/internal/buildworker/worker.go:187-212 | In every reachable state a succeeded job's artifacts are the builder's parsed list in order, and a queued, failed or canceled job has none |
| `BuildRuns.UninterruptedIsRunOnce` | api/internal/buildworker/worker.go:124-214 | Taken without interruption, a worker's separate steps end in the same store as one call of RunOnce |
| `BuildWorker.RunOnceSettlesOneJob` | api/internal/buildworker/worker.go:124-214 | A run that finds a waiting job leaves exactly that job finished: succeeded with precisely the parsed artifacts in order, or failed with none; otherwise nothing changes |
| `BuildWorker.QueueDrainsInExactlyItsLength` | api/internal/buildworker/worker.go:124-142 | With no new jobs, however the builder behaves, a run finds no queued job exactly when as many runs as there were queued jobs have gone before |
| `AccessRules.AllowedByName` | api/internal/access/evaluator.go:38-86 | Over the rules' own fields: access is allowed if and only if nobody is disabled or locked, an enabled allow rule has the user or one of the user's groups as subject and the device or one of its groups as target, and no enabled deny rule has; the reason says which of these it was |
| `AccessRules.ReportedByName` | api/internal/access/evaluator.go:47-101 | The rule reported is the first listed that names the user and the device and that no other such rule wins over, by denial, then narrowness, then priority; none is if someone is barred or nobody is named |
| `AccessRules.OrderDoesNotMatter` | api/internal/access/evaluator.go:38-68 | Listing the same rules in any other order changes neither the answer nor the reason |
| `AccessRules.StableSortIsUnique` | api/internal/access/evaluator.go:55-60 | Any ordered arrangement that keeps alike rules in their order is the sorted one, so the result does not depend on the sorting algorithm |
| `Strategies.ResolvedByTarget` | api/internal/strategy/resolver.go:42-91 | Key by key the result is the value from the last listed assignment that names the device and whose strategy, the first with its identifier, is enabled and sets the key; else from the last that names the user; else from the last that names one of the groups; else the enabled default's; else absent |
| `Strategies.OthersDoNotMatter` | api/internal/strategy/resolver.go:47-85 | An assignment that names neither the device, its user nor one of its groups can be taken out without changing settings or applied list |
| `Strategies.ReorderingAcrossLevels` | api/internal/strategy/resolver.go:47-58 | Any rearrangement of the assignments that keeps the order within each level changes neither settings nor applied list |
| `StrategyFlattening.FlatteningIsFaithful` | api/internal/devices/handler.go:240-275 | With distinct identifiers, resolving the flattened lists is evaluating each stored strategy against its own assignments level by level |
| `Sessions.LoginExactlyWhen` | api/internal/auth/service.go:112-168 | A login succeeds if and only if address and password are given, some user has the address whatever its case and the space around it, the password was verified for the first such user, that user is active, and the store can keep a session; otherwise the error says which, and wrong credentials change nothing |
| `Sessions.SessionLifetime` | api/internal/auth/service.go:112-330 | A token handed out by a login at t is accepted at u if and only if u < t + ttl, it has not been logged out, and its user is active; the answer is then the session of that login and the user as stored |
| `Groups.GroupsStayGood` | api/internal/repository/memory.go:359-425 | In every state reachable by creating groups and adding and removing members, every group has an identifier of its own and its members are positive and listed once |
| `Groups.MembershipAfter` | api/internal/repository/memory.go:388-425 | After any history a member is in a group if and only if the last word on it was to add it, or there was none and it was in before |
| `AddressBooks.RemovalTakesOne` | api/internal/repository/memory.go:661-688 | In every reachable state an accepted removal cuts exactly one entry out of its book |
| `AccessRuleStore.Memory.DeleteAccessRule` | api/internal/repository/memory.go:885-896 | Deletes exactly the rule with the identifier in place, which is filtering it out, reports whether it was there, and leaves slice and array as they were if not |
| `SettingsRuns.ReadAfterWrite` | api/internal/settings/handler.go:222-299 | After an accepted update the section reads every requested value if and only if no two request keys, alike once trimmed, carry different values |
| `SettingsRuns.OtherAnswersStay` | api/internal/settings/handler.go:222-299 | The whole answer for another section is the same before and after |
| `SettingsRuns.ReadsTheLastWord` | api/internal/settings/handler.go:222-299 | After any run of unambiguous updates of any sections, each key reads the last accepted value for it, or the default |
| `RelayGrantHistory.IssuedLifetime` | api/internal/relaygrant/service.go:126-185 | An accepted issue hands out the given identifier and a token that parses back to the grant's terms, and the grant expires between 60 and 300 seconds after the clock reading, for every requested TTL including products that wrap |
| `RelayGrantHistory.UsedIdsStep` | api/internal/relaygrant/service.go:308-331 | One call adds the accepted grant, until then issued, to the grants with a time of use, and every other call leaves that set alone |
| `RelayGrantHistory.StepEffect` | api/internal/relaygrant/service.go:126-251 | What one call does to one grant: issued afresh with the request's terms, used (from issued only), revoked, found out of time, or untouched, and which reply goes with each |
| `RelayGrantHistory.ValidateEffect` | api/internal/relaygrant/service.go:191-228 | A validation moves only the grant it names, to used when accepted and to expired only when its clock is past the expiry |
| `RelayGrantHistory.LedgerRecords` | api/internal/relaygrant/service.go:191-251 | After any run the stored status and time of use of a grant say exactly whether it was issued, accepted and revoked in that run |
| `RelayGrantHistory.LedgerTerms` | api/internal/relaygrant/service.go:144-176 | The terms on record are those of the issuing call, never changed later |
| `RelayGrantHistory.LedgerExpiry` | api/internal/relaygrant/service.go:213-216 | A grant marked expired was marked by a validation whose clock was past its expiry |
| `RelayGrantHistory.AnswersByTerms` | api/internal/relaygrant/service.go:196-222 | With fresh identifiers, some issuing call fits a validation in nonce, time, target and relay exactly when the terms of the one that issued the grant do |
| `RelayGrantHistory.ExpiredStaysExpired` | api/internal/relaygrant/service.go:210-216 | With a clock that does not go back, a grant marked expired is past its expiry for every later validation |
| `RelayGrantHistory.NothingBeforeIssue` | api/internal/relaygrant/service.go:196-199 | An identifier that is not stored has been neither accepted nor revoked |
| `RelayGrants.FirstOverflow` | api/internal/relaygrant/service.go:136-142 | The smallest request decided otherwise than stated is 18 446 744 134 seconds, which is accepted and lasts 60.29 seconds; below it the stated range decides |
| `RelayGrants.RequestedTTL` | api/internal/relaygrant/service.go:136-142 | Up to the largest number of seconds whose product fits int64, a request is granted the TTL it asked for, and it is refused exactly outside 60 to 300 seconds |
| `RelayGrants.OverflowingTTLIsAccepted` | api/internal/relaygrant/service.go:136-142 | A request for 2^55 + 60 seconds is accepted and becomes one minute, because the product wraps |
| `RelayGrants.IssuedAsAsked` | api/internal/relaygrant/service.go:143-185 | The grant issued has the request's user, devices, target, relay and relays, is unused, and lives from now for the lifetime; the token carries its terms in whole seconds, and no other grant is touched |
| `RelayGrants.ParsesExactlyWhen` | api/internal/relaygrant/service.go:265-289 | A token parses if and only if it was signed and its grant, nonce and expiry are there, and gives its payload |
| `RelayGrants.RefusedUnknown` | api/internal/relaygrant/service.go:191-199 | A token that does not parse or names no stored grant is refused without a status, each with its reason |
| `RelayGrants.RevokedExactlyWhen` | api/internal/relaygrant/service.go:234-251 | A revocation succeeds if and only if the identifier, trimmed, is not blank and stored, and changes that grant's status only |
| `RelayGrants.MintedKeysNeedNoTrimming` | api/internal/relaygrant/service.go:291-306 | For tokens the service itself minted, trimming the identifier before the lookup changes nothing, so both backends search for the same key |
| `RelayGrantService.Service.constructor` | api/internal/relaygrant/service.go:110-120 | The default TTL of two minutes when none is given; a service without a store starts with no grants |
| `RelayGrantService.Service.IssueWithContext` | api/internal/relaygrant/service.go:126-185 | On either backend the new ledger and reply are those of Issue on the old ledger, every refusal included |
| `RelayGrantService.Service.AddGrant` | api/internal/relaygrant/service.go:173-184 | Adding to the map or the store succeeds and adds exactly the issued grant |
| `RelayGrantService.Service.FindGrant` | api/internal/relaygrant/service.go:291-306 | Returns a copy of the stored grant, the store backend searching for the trimmed identifier |
| `RelayGrantService.Service.UpdateGrantStatus` | api/internal/relaygrant/service.go:308-331 | Writes status and time of use to the stored grant and returns its copy; a grant that is not stored changes in the copy only |
| `RelayGrantService.Service.ValidateWithContext` | api/internal/relaygrant/service.go:191-228 | On either backend the new ledger and verdict are those of Validate on the old ledger, branch by branch |
| `RelayGrantService.Service.RevokeWithContext` | api/internal/relaygrant/service.go:234-251 | On either backend the new ledger and result are those of Revoke, blank and unknown identifiers refused |
| `RelayGrantService.Contains` | api/internal/relaygrant/service.go:396-403 | True exactly when the value is listed |
| `RelayGrantRuns.RunRefines` | api/internal/relaygrant/service.go:122-251 | After every such run the list, read by first match, is the map |
| `RelayGrantRuns.StepRefines` | api/internal/relaygrant/service.go:122-251 | One call on the list backend gives the map backend's reply and keeps the relation between list and map |
| `RelayGrantRuns.ValidateRefines` | api/internal/relaygrant/service.go:191-228 | Validation on the list backend refines validation on the map backend |
| `RelayGrantRuns.IssueRefines` | api/internal/relaygrant/service.go:173-184 | The store never refuses a grant the service issues, and prepending it is adding it to the map |
| `RelayGrantRuns.PaddedTokensDistinguishBackends` | api/internal/relaygrant/service.go:291-306 | A signed token whose identifier carries a trailing blank is accepted over the list and unknown over the map, which is why runs are restricted to minted tokens |
| `RelayGrantInterleavedHistory.LedgerRecords` | api/internal/relaygrant/service.go:191-331 | After every prefix of every interleaving a stored grant has the terms of the step that issued it, and is still issued exactly when no step spent it |
| `RelayGrantInterleavedHistory.StepEffect` | api/internal/relaygrant/service.go:308-331 | A half-step issues a grant afresh, takes it out of issued with its terms kept, or leaves it alone |
| `RelayGrantInterleavedLists.AfterRefines` | api/internal/relaygrant/service.go:291-331 | After every interleaving the list, read by first match, is the map, and the same copies are in flight |
| `RelayGrantRuns.FinishRefines` | api/internal/relaygrant/service.go:200-228 | The second half of a validation on the list backend refines that on the map backend, whatever copy it decides on |
| `RelayGrantInterleaving.AcceptanceIsDecidedByTheLookup` | api/internal/relaygrant/service.go:196-226 | A finish accepts if and only if the grant, as its own lookup saw it, was issued with that nonce, in time at the check, and right in target and relay |
| `RelayGrantInterleaving.AcceptanceMarksUsed` | api/internal/relaygrant/service.go:224-226 | An accepting finish leaves the grant used, and its lookup came before it and saw the grant issued |
| `RelayGrantInterleaving.SpentGrantIsRefusedToLaterLookups` | api/internal/relaygrant/service.go:191-251 | After an accepting finish or a successful revocation, only a validation whose lookup came before it can still be accepted |
| `RelayGrantInterleaving.AdjacentHalvesAreAtomic` | api/internal/relaygrant/service.go:191-228 | A lookup followed at once by its finish is the atomic validation |
| `RelayGrantInterleaving.SerialAcceptsAtMostOnce` | api/internal/relaygrant/service.go:191-251 | When every finish directly follows its lookup, a grant is accepted at most once and never after it was revoked |
| `RelayGrantInterleaving.OverlappingValidationsBothAccepted` | api/internal/relaygrant/service.go:191-228 | Otherwise not: for every acceptable issue request there is an interleaving in which two validations of one grant are both accepted after it was revoked |
| `RelayGrantInterleaving.PendingWasLookedUp` | api/internal/relaygrant/service.go:291-306 | Every validation in flight holds the copy that its own earlier lookup found |
| `RelayGrantInterleaving.StoredStays` | api/internal/relaygrant/service.go:291-331 | A stored grant is never removed |
| `RelayGrantStore.StoredExactlyWhen` | api/internal/repository/memory.go:790-810 | A grant is stored if and only if it has an identifier, a nonce, an expiry and a relay; its three texts are trimmed and every other field is kept |
| `RelayGrantStore.LedgerFinds` | api/internal/repository/memory.go:812-822 | Finding the first row with an identifier is looking it up in the ledger the rows stand for |
| `RelayGrantStore.MarkRowMarksLedger` | api/internal/repository/memory.go:824-843 | Writing a status to the first matching row writes it to that ledger, and fails exactly when the identifier is unknown |
| `RelayGrantStore.LedgerUpdates` | api/internal/repository/memory.go:824-843 | Replacing the first matching row by one with the same identifier replaces exactly that entry of the ledger |
| `RelayGrantStore.MemoryGrants.CreateRelayGrant` | api/internal/repository/memory.go:790-810 | Refuses a blank identifier or nonce, a missing expiry and an empty relay list; otherwise prepends the row with its texts trimmed and takes the next identifier |
| `RelayGrantStore.MemoryGrants.FindRelayGrantByGrantID` | api/internal/repository/memory.go:812-822 | Returns the first row with the trimmed identifier, if any |
| `RelayGrantStore.MemoryGrants.UpdateRelayGrantStatus` | api/internal/repository/memory.go:824-843 | Writes the status, and the time of use if given, to the first row with the trimmed identifier and to no other |
| `RateLimiter.MemoryRateLimiter.Allow` | api/internal/middleware/middleware.go:95-115 | The answer is the one its key's own request times determine, whatever other keys and sweeps did; afterwards the map has at most 4096 entries or only live ones |
| `RateLimiter.MemoryRateLimiter.Count` | api/internal/middleware/middleware.go:98-108 | Counts the request in its key's bucket, opening a new one if there is none or it has expired, and sweeps a map that has grown past 4096 |
| `RateLimiter.MemoryRateLimiter.Cleanup` | api/internal/middleware/middleware.go:117-123 | Deletes exactly the expired buckets, whatever the order in which the map is walked |
| `RateLimiter.MapTracks` | api/internal/middleware/middleware.go:95-123 | The map holds, for each key, the bucket of a limiter that never forgets, or nothing once that bucket has expired |
| `RateLimits.SlidingBoundIsReached` | api/internal/middleware/middleware.go:95-115 | For every key, limit and window the bound is reached: two bursts one window apart let exactly twice the limit through |
| `RateLimits.WindowQuota` | api/internal/middleware/middleware.go:95-115 | A window that has seen n requests has let exactly min(limit, n) of them through |
| `RateLimits.OpenerMeetsWindow` | api/internal/middleware/middleware.go:100-102 | Each request lies in the window its opener started, before that window's end |
| `RateLimits.DeniedWaits` | api/internal/middleware/middleware.go:111-113 | A denied request is told to wait more than nothing and at most one window |
| `RateLimits.DeniedUntilReset` | api/internal/middleware/middleware.go:95-115 | While other requests on the key come before the reset, the next request is let through if and only if it comes at or after the reset |
| `RateLimits.RetryAfterSeconds` | api/internal/middleware/middleware.go:145-157 | The duration rounded up to whole seconds, at least one |
| `BuildQueue.ClaimTakesTheOldest` | api/internal/repository/memory.go:1327-1341 | A claim takes the waiting job with the smallest identifier and marks it running, and fails exactly when none is waiting |
| `BuildQueue.ClaimedIsPassedBy` | api/internal/repository/memory.go:1299-1370 | Once a job has been claimed, no job up to its identifier is ever waiting again |
| `BuildQueue.ApplyKeepsOrder` | api/internal/repository/memory.go:1299-1370 | Every call keeps the jobs in the order of their identifiers |
| `BuildStore.Memory.CreateBuildJob` | api/internal/repository/memory.go:1299-1314 | Refuses a job without profile or platform; otherwise appends it queued, with the next identifier |
| `BuildStore.Memory.FindBuildJobByID` | api/internal/repository/memory.go:1316-1325 | Returns the job with the identifier, if stored |
| `BuildStore.Memory.FindBuildProfileByID` | api/internal/repository/memory.go:1244-1253 | Returns the profile with the identifier, if stored |
| `BuildStore.Memory.ClaimNextBuildJob` | api/internal/repository/memory.go:1327-1341 | Marks the first queued job running for this runner, or reports that none is queued |
| `BuildStore.Memory.FinishBuildJob` | api/internal/repository/memory.go:1355-1370 | Writes status, log, message and finish time to the job whatever its status was, or reports it missing |
| `BuildStore.Memory.CompleteBuildJob` | api/internal/repository/memory.go:1343-1345 | Finishes a job as succeeded |
| `BuildStore.Memory.FailBuildJob` | api/internal/repository/memory.go:1347-1349 | Finishes a job as failed with its message |
| `BuildStore.Memory.CancelBuildJob` | api/internal/repository/memory.go:1351-1353 | Finishes a job as canceled |
| `BuildStore.Memory.CreateBuildProfile` | api/internal/repository/memory.go:1229-1242 | Refuses a profile without name, app name or bundle identifier; otherwise adds it with the next identifier |
| `BuildStore.Memory.UpdateBuildProfile` | api/internal/repository/memory.go:1255-1273 | Replaces the profile that is there, keeping identifier, creator and creation time; refuses empty fields and unknown identifiers |
| `BuildStore.Memory.DeleteBuildProfile` | api/internal/repository/memory.go:1275-1291 | Refuses a profile that some job refers to; otherwise removes it in place |
| `BuildStore.Memory.CreateBuildArtifact` | api/internal/repository/memory.go:1372-1384 | Refuses an artifact without job, platform or name; otherwise appends it with the next identifier and the time |
| `BuildStore.Memory.ListBuildArtifacts` | api/internal/repository/memory.go:1386-1396 | Returns the artifacts of a job in the order they were recorded |
| `BuildStore.JobCreatedExactly` | api/internal/repository/memory.go:1299-1314 | A job is stored if and only if it names a profile and a platform, last, with the next identifier, waiting unless a status is given, and with every other field as given |
| `BuildStore.ClaimedExactly` | api/internal/repository/memory.go:1327-1341 | A claim succeeds if and only if some job waits, and changes the first that does: status, runner and start time |
| `BuildStore.FinishedExactly` | api/internal/repository/memory.go:1355-1370 | Finishing writes status, log, message and finish time to the first job with the identifier, keeps its other fields and every other job, and fails if there is none |
| `BuildStore.ProfileCreatedExactly` | api/internal/repository/memory.go:1229-1242 | A profile is stored if and only if its three required fields are given, last, with the next identifier and the time |
| `BuildStore.ProfileUpdatedExactly` | api/internal/repository/memory.go:1255-1273 | An edit succeeds if and only if the required fields are given and the profile is stored, and keeps its identifier, creator and creation time |
| `BuildStore.ProfileDeletedExactly` | api/internal/repository/memory.go:1275-1291 | A profile is deleted if and only if it is stored and no job refers to it, and the error says which of the two failed |
| `BuildStore.ArtifactCreatedExactly` | api/internal/repository/memory.go:1372-1384 | An artifact is recorded if and only if it names a job, a platform and a file, with every field as given, the next identifier and the time |
| `BuildHandlers.Handler.CreateJobForProfile` | api/internal/builds/handler.go:366-409 | Creates a queued job exactly when the platform is supported, the profile stored and the platform enabled in it; each refusal changes nothing; a failed audit entry shows in the reply and not in the store |
| `BuildHandlers.Handler.CancelJob` | api/internal/builds/handler.go:482-502 | Cancels a queued job and refuses every other status |
| `BuildHandlers.Handler.RetryJob` | api/internal/builds/handler.go:504-551 | Enqueues a new job for a finished one whose profile is still stored, leaving the finished one as it was; a failed audit entry shows in the reply only |
| `BuildHandlers.Handler.DeleteProfile` | api/internal/builds/handler.go:209-229 | Deletes a profile or says why not: unknown, or still referred to by jobs; a failed audit entry shows in the reply only |
| `BuildHandlers.CanceledExactly` | api/internal/builds/handler.go:482-502 | A job is canceled if and only if the first with the identifier is waiting; every other case changes nothing and is told apart |
| `BuildHandlers.RetriedExactly` | api/internal/builds/handler.go:504-551 | A job is enqueued anew if and only if the first with the identifier is finished and its profile still stored; every other case changes nothing and is told apart |
| `BuildHandlers.RemovedExactly` | api/internal/builds/handler.go:209-229 | A profile is removed if and only if it is stored and no job refers to it, and the reply says which of the two failed |
| `BuildHandlers.AuditedExactly` | api/internal/builds/handler.go:390-408 | A refused audit entry replaces the reply to a creation or deletion, and changes nothing else |
| `BuildRuns.NextKeepsInvariant` | api/internal/builds/handler.go:366-551 | Every handler step and every single step of any worker keeps the invariant and moves jobs only along queued to running to succeeded or failed, or queued to canceled |
| `BuildRuns.EveryJobIsWellFormed` | api/internal/builds/handler.go:366-551 | In every reachable state, start and finish times are present exactly when the status implies them, and every job's profile is stored |
| `BuildRuns.ProfileSurvives` | api/internal/builds/handler.go:209-229 | A profile some job refers to survives every step that creates, edits or removes profiles |
| `BuildRuns.ProfileIsNeverMissing` | api/internal/buildworker/worker.go:132-137 | The branch that fails a claimed job for want of its profile is never taken in a reachable state |
| `BuildRuns.ReachableStoresAreRunnable` | api/internal/buildworker/worker.go:124-142 | Every reachable store is one from which the guarantees of RunOnce hold |
| `BuildRuns.RecordedKeeps` | api/internal/buildworker/worker.go:187-204 | Recording one artifact never fails and keeps the invariant |
| `BuildWorker.Worker.constructor` | api/internal/buildworker/worker.go:81-99 | A blank runner name becomes local-worker |
| `BuildWorker.Worker.RunOnce` | api/internal/buildworker/worker.go:124-142 | For every outcome of the builder, the new store and the reply are those of NextRun |
| `BuildWorker.Worker.RunClaimed` | api/internal/buildworker/worker.go:163-214 | A claimed job is settled as the outcome says, each failure with its own log and message |
| `BuildWorker.Worker.Record` | api/internal/buildworker/worker.go:187-214 | Records the artifacts in order and completes the job, failing it if one is refused |
| `BuildWorker.Worker.Fail` | api/internal/buildworker/worker.go:257-263 | Fails the job and reports the message, or a store that could not record it |
| `BuildWorker.RunOnceLeavesOthersArtifacts` | api/internal/buildworker/worker.go:187-204 | A run records nothing for any other job |
| `BuildWorker.RunOnceTells` | api/internal/buildworker/worker.go:163-214 | The settled job has the runner's name, and the log and message that the outcome calls for: the trimmed error stream before the builder's own error; the caller gets the same error and the artifacts recorded |
| `BuildWorker.DraftsDescribe` | api/internal/buildworker/worker.go:188-199 | An artifact has its job, platform, path, file name, checksum, size and time, field by field |
| `BuildWorker.FailsWithoutProfile` | api/internal/buildworker/worker.go:132-137 | A claimed job whose profile has gone is failed with that message and nothing recorded |
| `BuildWorker.BaseExactly` | api/internal/buildworker/worker.go:188-194 | The file name is what follows the last slash of the path, slashes at its end aside; the root and the empty path have their own names |
| `BuildWorker.RunOnceKeepsRunnable` | api/internal/buildworker/worker.go:124-214 | A run keeps what later runs rely on |
| `BuildWorker.PublishSucceeds` | api/internal/buildworker/worker.go:187-204 | Recording the artifacts of a stored job is never refused and takes one identifier each |
| `BuildWorker.PublishRecords` | api/internal/buildworker/worker.go:187-204 | Recording adds the artifacts, in order, to that job's list and to no other's |
| `BuildWorker.Base` | api/internal/buildworker/worker.go:187-190 | A file name for an artifact is never empty and holds no slash unless it is the root |
| `AccessRules.Evaluate` | api/internal/access/evaluator.go:38-68 | The decision is that of a disabled user, a disabled device, no matching rule, or the first of the matching rules sorted stably |
| `Sorting.StableSort` | api/internal/access/evaluator.go:55-60 | Sorts the first elements of an array in place into the stable order, for any comparison, and touches no others |
| `AccessRules.SortedIsStable` | api/internal/access/evaluator.go:55-60 | Sorting orders the rules and keeps rules that compare alike in the order they came in |
| `Sorting.SortedPermutes` | api/internal/access/evaluator.go:55-60 | Sorting loses and invents nothing |
| `Sorting.SortedOrdered` | api/internal/access/evaluator.go:55-60 | If the comparison is a strict weak order of the elements, none comes before one listed ahead of it |
| `AccessRules.BeforeIsStrictWeakOrder` | api/internal/access/evaluator.go:55-60 | For allow and deny effects the comparator is a strict weak order |
| `AccessRules.ChainsExactlyWhen` | api/internal/access/evaluator.go:55-60 | Comparing alike carries over from two pairs to the third exactly unless two rules of one effect surround a rule of another, none a denial, and differ in rank or priority; so it always does for allow and deny rules |
| `AccessRules.ThirdEffectsBreakTheOrder` | api/internal/access/evaluator.go:55-60 | A concrete triple where it does not: a rule with a third effect compares alike to two allow rules, of which one comes before the other |
| `AccessRules.MatchingRulesAreRanked` | api/internal/access/evaluator.go:70-101 | Every matching rule has one of the ranks 1 to 4, three or one for the target plus one for naming the user, so never 0 |
| `AccessRules.MatchingMembers` | api/internal/access/evaluator.go:47-54 | The matching rules are the enabled ones that apply to this user and device |
| `AccessRules.ReportsTheEarliestBestRule` | api/internal/access/evaluator.go:47-68 | The rule reported is the earliest-listed matching rule that none precedes in effect, rank and priority |
| `AccessRules.AllowedExactlyWhen` | api/internal/access/evaluator.go:38-68 | Access is allowed if and only if both statuses permit it, some enabled allow rule matches and no enabled deny rule does |
| `AccessRules.OneMoreRule` | api/internal/access/evaluator.go:38-68 | Another deny never turns a refusal into permission, another allow never turns permission into refusal |
| `AccessRules.AppliesToThoseNamed` | api/internal/access/evaluator.go:70-86 | A rule applies if and only if it is enabled and its two pairs of type and identifier are among those of the user and of the device |
| `Strategies.Resolve` | api/internal/strategy/resolver.go:42-60 | Three passes over the assignments give the settings and the applied list of the specification |
| `Strategies.ApplyPass` | api/internal/strategy/resolver.go:47-58 | One pass merges, in order, the enabled strategies of its level's matching assignments |
| `Strategies.FindStrategy` | api/internal/strategy/resolver.go:62-69 | The first strategy with the identifier |
| `Strategies.Matches` | api/internal/strategy/resolver.go:71-85 | An assignment matches this device, this user, or one of the device's groups, and nothing else |
| `Strategies.Merge` | api/internal/strategy/resolver.go:87-91 | Copying one key at a time, in any order, overrides every key of the target that the source has |
| `Strategies.LastWriterWins` | api/internal/strategy/resolver.go:42-60 | For every key the result is the value of the last applied enabled strategy that sets it, in the order default, group, user, device, and absent if none does |
| `Strategies.WinnerIsTheLastSetter` | api/internal/strategy/resolver.go:42-60 | The strategy that wins a key is found without merging: last device assignment, else user, else group, else default |
| `Strategies.PassSeesItsLevelOnly` | api/internal/strategy/resolver.go:47-58 | A pass depends only on the assignments of its own level |
| `Strategies.PassOfOne` | api/internal/strategy/resolver.go:47-58 | A pass over one assignment applies its strategy if it names a target and the strategy is enabled, and nothing otherwise |
| `Strategies.PassOfTwo` | api/internal/strategy/resolver.go:47-58 | A pass over two stretches of assignments is the two passes one after the other |
| `Strategies.IdsInOrder` | api/internal/strategy/resolver.go:46-55 | The applied list has the identifiers of the applied strategies in order |
| `Strategies.FindsStrategy` | api/internal/strategy/resolver.go:62-69 | The search finds a strategy if and only if one has the identifier, and then the first |
| `StrategyFlattening.BuildStrategyResolver` | api/internal/devices/handler.go:240-275 | Flattens every stored strategy and its assignments, or names the first whose settings are not an object |
| `StrategyFlattening.StoredIsFound` | api/internal/devices/handler.go:240-275 | With distinct identifiers each stored strategy is found again under its own |
| `StrategyFlattening.SecureDefaultsArePresent` | api/internal/devices/handler.go:241-251 | The keys terminal, tcp_tunnel and allow-remote-config-modification are always set, and are N unless an applied strategy sets them |
| `StrategyFlattening.FlattenedKeeps` | api/internal/devices/handler.go:254-273 | The flat lists hold every stored strategy field by field, and exactly the stored assignments |
| `StrategyFlattening.DeviceGroupIDs` | api/internal/devices/handler.go:216-238 | Collects, in listing order, the groups that have the device as a member, skipping those that have gone |
| `StrategyFlattening.GroupsOfAreItsGroups` | api/internal/devices/handler.go:216-238 | A group is collected exactly when it is listed and has the device as a member |
| `StrategyFlattening.GroupListingDoesNotMatter` | api/internal/devices/handler.go:216-238 | The resolved settings do not depend on the order or repetition in which groups are listed |
| `Sessions.SessionSurvives` | api/internal/auth/service.go:112-301 | After any later events the session of a login is stored unchanged, and revoked exactly when a logout of its token got past parsing |
| `Sessions.ClaimOutlivesSession` | api/internal/auth/service.go:232-234 | The whole-second check of the claim never rejects a token before the stored expiry does |
| `Sessions.UsersStay` | api/internal/auth/service.go:236-242 | Users are never removed, so the user of a session is always found |
| `Sessions.NextKeepsSession` | api/internal/auth/service.go:288-301 | One event revokes a session exactly when it is a logout of its own token that parses, and changes nothing else of it |
| `Sessions.Service.constructor` | api/internal/auth/service.go:93-110 | The lifetime of fifteen minutes when none is configured |
| `Sessions.Service.Login` | api/internal/auth/service.go:112-168 | With the address trimmed and lower-cased, refuses blank, unknown and wrong credentials alike, then an inactive user; otherwise records the time of the login and stores a session for the token it hands out |
| `Sessions.Service.AuthenticateSessionToken` | api/internal/auth/service.go:212-248 | Each check in order: the claim, the stored session, its user, its revocation, its expiry, the user's status |
| `Sessions.Service.Logout` | api/internal/auth/service.go:288-301 | Revokes the session of a token that parses and does nothing for any other |
| `Sessions.LoginIsFor` | api/internal/auth/service.go:140-190 | The response is for that user, whose login is recorded; the newest session is that user's, for the token handed out, whose claims and expiry are the user's and the lifetime's |
| `Sessions.ParsesExactlyWhen` | api/internal/auth/service.go:303-330 | A claim verifies if and only if it was signed, is for a user, and its last second is not over; an ended one is told apart from an invalid one |
| `Sessions.RefusedFor` | api/internal/auth/service.go:212-248 | A token with a session is refused for the first that holds of other user or revoked, over, user gone, user not active, each with its error, and else answered with that session and user |
| `Sessions.RefusedWithoutSession` | api/internal/auth/service.go:217-220 | A token without a session is invalid |
| `Sessions.LogoutExactly` | api/internal/auth/service.go:288-301 | A logout revokes the newest session of a token that verifies, unless it is revoked already, and changes nothing else |
| `Sessions.Memory.CreateSession` | api/internal/repository/memory.go:249-265 | Refuses a session without user or expiry, otherwise prepends it unrevoked with the next identifier |
| `Sessions.Memory.FindSessionByTokenHash` | api/internal/repository/memory.go:267-277 | The newest session with the hash |
| `Sessions.Memory.RevokeSession` | api/internal/repository/memory.go:279-294 | Marks the session revoked unless it already is, keeping the first time of revocation |
| `Sessions.Memory.FindUserByEmail` | api/internal/repository/memory.go:102-112 | The first user with the address, whatever its case and the white space around it |
| `Sessions.Memory.RecordUserLogin` | api/internal/repository/memory.go:170-183 | Sets the time of the last login of the first user with the identifier and returns that user |
| `Sessions.Memory.FindUserByID` | api/internal/repository/memory.go:114-123 | The user with the identifier |
| `Slices.Compact` | api/internal/repository/memory.go:1568-1576 | Filtering into the same backing array leaves exactly the kept elements in order and overwrites nothing beyond them |
| `Slices.DeleteAt` | api/internal/repository/memory.go:892 | Cutting out the element at a known place, in the same array, leaves the other elements in order |
| `Slices.DeletingIsFiltering` | api/internal/repository/memory.go:885-896 | Cutting out the only element that is to be dropped is filtering |
| `Slices.Clone` | api/internal/repository/memory.go:1409-1412 | A copy with the same elements in an array nobody else holds |
| `Slices.Append` | api/internal/repository/memory.go:388-404 | Appending in place or into a larger copy gives the old elements and the new one |
| `Slices.PositiveIDs` | api/internal/repository/memory.go:1546-1557 | The first occurrence of every positive identifier |
| `Slices.KeptIsGood` | api/internal/repository/memory.go:1546-1557 | The result is positive, free of duplicates, and has every positive identifier of the input |
| `Slices.SortedIntsSorts` | api/internal/repository/memory.go:388-404 | The sorted list ascends and has the same elements as often |
| `Slices.AddedIsGood` | api/internal/repository/memory.go:388-408 | Adding a member keeps the list positive and free of duplicates and adds just that member |
| `Slices.AddedAscends` | api/internal/repository/memory.go:388-404 | A new member takes its place in ascending order among those that were there |
| `Slices.RemovedIsGood` | api/internal/repository/memory.go:410-425 | Removing a member keeps the list positive and free of duplicates and removes just that member |
| `SharedLists.Lists.Create` | api/internal/repository/memory.go:371-374 | Appends a record holding a copy of the items and returns another copy |
| `SharedLists.Lists.Put` | api/internal/repository/memory.go:396-402 | Gives one record another slice and leaves the others |
| `SharedLists.Lists.RemoveWhere` | api/internal/repository/memory.go:418-422 | Compacts one record's slice in place to the filtered items and leaves every other record as it was |
| `Groups.NextKeepsGood` | api/internal/repository/memory.go:359-425 | Each operation keeps that |
| `Groups.MembershipStep` | api/internal/repository/memory.go:388-425 | One operation puts exactly the member it adds into the group it names, takes exactly the one it removes out, and changes no other membership of an existing group |
| `Groups.CopiesAreNotTouched` | api/internal/repository/memory.go:1409-1412 | Whatever operations follow, the groups are those of the specification and a copy handed out earlier still reads the same |
| `Groups.CreateGroup` | api/internal/repository/memory.go:359-375 | Refuses a blank name; otherwise appends a group with the next identifier and the positive identifiers given, once each |
| `Groups.AddMember` | api/internal/repository/memory.go:388-408 | Adds a member to a group in order unless it is already there; unknown groups and invalid identifiers change nothing |
| `Groups.RemoveMember` | api/internal/repository/memory.go:410-425 | Removing a member is filtering it out; unknown groups and invalid identifiers change nothing |
| `Groups.CreatedExactlyWhen` | api/internal/repository/memory.go:359-375 | A group is created if and only if its name is not blank, last, with the next identifier, and its members are the positive identifiers given, once each |
| `Groups.MembersAnswered` | api/internal/repository/memory.go:388-425 | Adding and removing answer with the new members of the group there is; identifiers that are not positive and groups there are not are refused, each with its error, changing nothing |
| `AddressBooks.BooksStayGood` | api/internal/repository/memory.go:593-688 | In every reachable state the entries of a book are listed in the order of their identifiers |
| `AddressBooks.CopiesAreNotTouched` | api/internal/repository/memory.go:1509-1512 | Whatever operations follow, the books are those of the specification and a copy handed out earlier still reads the same |
| `AddressBooks.CreateBook` | api/internal/repository/memory.go:593-620 | Refuses a blank name or an invalid device; otherwise appends a book and numbers its entries one after the other |
| `AddressBooks.AddEntry` | api/internal/repository/memory.go:633-659 | Appends an entry unless the book lists the device already; each refusal changes nothing |
| `AddressBooks.RemoveEntry` | api/internal/repository/memory.go:661-688 | Filters the entry out, and reports not found without changing anything if it is not there |
| `AddressBooks.CreatedExactlyWhen` | api/internal/repository/memory.go:593-620 | A book is created if and only if its name is not blank and every entry is for a device; entry by entry it holds what was given |
| `AddressBooks.AddedExactlyWhen` | api/internal/repository/memory.go:633-659 | A device is listed if and only if the book is there and does not list it already, and its entry comes last; each refusal has its error and changes nothing |
| `AddressBooks.RemovedExactlyWhen` | api/internal/repository/memory.go:661-688 | An entry is removed if and only if the book is there and has it, and just it goes |
| `AccessRuleStore.Memory.CreateAccessRule` | api/internal/repository/memory.go:851-864 | Refuses an incomplete rule; otherwise appends it with the next identifier and the time, keeping identifiers distinct |
| `AccessRuleStore.Memory.UpdateAccessRule` | api/internal/repository/memory.go:866-883 | Overwrites the rule with the identifier, which keeps it and its time of creation, or reports that there is none or the new one is incomplete |
| `AccessRuleStore.Memory.ListAccessRules` | api/internal/repository/memory.go:845-849 | A copy of all rules |
| `SettingsRuns.PaddedKeysCollide` | api/internal/settings/handler.go:277-299 | Two keys that differ in a blank are both accepted and one of the two values is lost |
| `SettingsRuns.ReadsOne` | api/internal/settings/handler.go:222-299 | A requested key reads the value of one of the entries that name it, with who wrote it and when |
| `SettingsRuns.UnnamedKeysStay` | api/internal/settings/handler.go:222-299 | A key the update does not name reads as before |
| `SettingsRuns.OtherSectionsStay` | api/internal/settings/handler.go:222-299 | An update of one section leaves every entry of a section with separate keys as it was, and as readable |
| `SettingsRuns.SectionsAreSeparate` | api/internal/settings/handler.go:48-95 | The four sections' stored keys are trimmed, not blank, and no two sections share one |
| `SettingsRuns.ReadsNeverFail` | api/internal/settings/handler.go:165-370 | After any run of updates, by signed-in callers or others, a section can be read, and every value read has the JSON kind of its default |
| `SettingsRuns.AdmissibleExactlyWhen` | api/internal/settings/handler.go:272-321 | An update is let in if and only if it has entries and each is for a key of the section, white space at its ends aside, with a value of the kind of that key's default |
| `SettingsRuns.RefusedUnlessAcceptable` | api/internal/settings/handler.go:277-321 | An entry is refused for the first that holds of blank key, unknown key, missing value, value that does not decode, value of another kind |
| `SettingsRuns.KindsTell` | api/internal/settings/handler.go:348-370 | Every JSON value is of one of six kinds, and two are alike if and only if they are of one |
| `SettingsRuns.GeneralDefaults` | api/internal/settings/handler.go:48-56 | The seven general settings and their defaults, one by one |
| `SettingsRuns.OidcDefaults` | api/internal/settings/handler.go:59-69 | The five OIDC settings and their defaults |
| `SettingsRuns.LdapDefaults` | api/internal/settings/handler.go:70-82 | The seven LDAP settings and their defaults |
| `SettingsRuns.SmtpDefaults` | api/internal/settings/handler.go:83-94 | The six SMTP settings and their defaults |
| `Settings.Update` | api/internal/settings/handler.go:165-220 | Refused updates change nothing and say why; an accepted one writes exactly the requested keys and answers with the section read back, or with a failed audit entry |
| `Settings.MergedSettings` | api/internal/settings/handler.go:222-270 | One entry for every default key, in key order, stored values over defaults; fails exactly when a stored value of the section does not decode |
| `Settings.LayOver` | api/internal/settings/handler.go:241-260 | A stored setting of the section replaces the entry of its key, one of another section is skipped, one that does not decode fails |
| `Settings.NormalizeUpdates` | api/internal/settings/handler.go:272-299 | Accepts an update exactly when every entry is acceptable, giving those entries in key order, otherwise fails with the reason of one of them |
| `Settings.NormalizeOne` | api/internal/settings/handler.go:278-293 | Which error an entry meets first: blank key, unknown key, missing value, text that does not parse, wrong kind |
| `Settings.ResponseKeyForStored` | api/internal/settings/handler.go:331-346 | A stored key belongs to a section exactly when it is the prefix followed by a default key, which is returned |
| `Settings.Memory.ListSystemSettings` | api/internal/repository/memory.go:1188-1199 | Every stored setting once, in key order |
| `Settings.Memory.UpsertSystemSettings` | api/internal/repository/memory.go:1201-1221 | Writes the updates in turn up to the first with a blank key or value, and succeeds exactly when there is none |
| `Settings.UpdatesAreWritten` | api/internal/repository/memory.go:1201-1221 | Storing prepared updates writes the named keys, each with the value of one entry that names it, and no other key |
| `Listings.Listing` | api/internal/repository/memory.go:1188-1199 | Walking a map in any order and sorting the values by key lists every value once, in key order |
| `Listings.ListingIsUnique` | api/internal/repository/memory.go:1188-1199 | There is only one such listing |

## Left out

- The SQL repository, the database, migrations, Redis and asset storage: external systems. Their listing order enters only as a permutation of the access rules.
- HTTP routing, JSON decoding of bodies, cookies, CORS, request identifiers, login logs, the contents of audit entries, and `errors` texts: plumbing around the modelled decisions.
- HMAC, SHA-256, base64, bcrypt and the JSON library: tokens are opaque, with signing and parsing as inverses.
- The builder command line, injector, preflight, Windows runner and doctor: process execution, represented by an arbitrary outcome.
- API tokens, user records, devices and relays: field copying without a property beyond single assignments.
- The control-role evaluator and BuildSpec validation: the same last-writer merge and flat field checks as the strategies, with less state.
- Creation of address books with duplicate devices, immutability of strategies and control roles returned earlier, and page stability for log entries with equal times: the code does not keep these.
- Cancel and retry guards split from their writes: the handlers check and write under separate locks, and the job state machine is stated for handlers as single steps. `BuildQueue` covers unguarded finishes for what survives them.
- The names, descriptions and times of groups and address books, and the spec and source fields of build profiles: carried along without being read.
- The limits that listings put on the number of access rules or log entries: the decision theorems are about the rules that are listed.
- Sessions.Memory.FindUserByEmail: folds ASCII letters only, since Unicode case tables are not part of this model.
- Sessions.Service.Login: folds ASCII letters only, and writes no login log.
- BuildWorker.Base: covers slash-separated paths only, not the separators of Windows.
