# Verified models of the TRUSCA backend's stateful controls

A Dafny 4.11 model of the parts of the repository whose correctness depends on expiring keys, concurrent workers,
interrupted protocols or string theory, with proofs over every schedule, every clock and every input. Each component
is one module:

| module | what it models |
|---|---|
| `LoginThrottle` | the per-address failure counter, refusal window and escalation round kept in Redis |
| `LadderBudget` | what the escalation ladder does to the guess budget |
| `MfaBudget` | attempts per pending second-factor token: a Redis counter with a per-worker fallback |
| `WsRegistry` | the shared WebSocket registry, one call at a time |
| `WsInterleaving` | the same registry with every Redis command a step of its own and many calls in flight |
| `WsOvershoot` | how far concurrent registrations really take it past both caps |
| `WsUserCap` | when the per-user cap does hold, command by command |
| `Revocation` | how long N caching workers can admit a token after a password or MFA change |
| `PrincipalCache` | the per-process permission cache: its bound and its eviction order |
| `CacheIsolation` | why no caller changes what that cache answers by editing principals it holds |
| `AuditLog` | the two-stage flush hook that writes audit rows |
| `SecretCheck`, `PyStrings` | the placeholder-secret check and the Python string operations behind it |
| `MutateTool` | applying a source mutation and taking it back |
| `CohortRegistration` | bulk registration that can be interrupted anywhere and resumed |
| `MigrationHead` | the single-head check on a directory of migrations |
| `RedisDegradation` | the rate-limited warnings about a failing Redis |
| `DemoPaths` | path canonicalisation and the read-only demo's guard over the admin area |

`Prelude` holds the optional values and the expiring Redis key they share. `dafny verify dfyconfig.toml` checks
everything.

Code that updates state in place is a class whose methods follow the source step by step and are proved against a
function of the old state; runs are sequences of events folded through that function, and the properties are lemmas
over all such runs. A Redis key exists while the clock is before its expiry; times are milliseconds unless a
declaration says otherwise.

## Where the code and its comments part

The model follows the code. For each promise that fails there is a lemma at a failing run or input and a lemma saying
when it holds, exactly unless noted.

- The newcomer is said to be always the highest score of its user's set (`apps/backend/core/ws_registry.py`, docstring
  of `register_connection`), so that the per-user cap holds. A clock that steps back breaks both:
  `WsRegistry.ClockStepBackBreaksTheCap`; if and only if: `WsRegistry.CapHoldsUnlessNewcomerIsOldest`.
- Concurrent connects of one user are said to exceed the cap by one at worst (same file, module docstring). Two that
  read the same oldest connection remove one member between them, so each such pair leaves the user one further over,
  without limit: `WsOvershoot.UserCapIsLost`. Where every excess comes from: `WsUserCap.ExcessIsAccountedFor`. A
  sufficient condition, one registration of the user at a time and none dying on the way:
  `WsUserCap.OneAtATimeKeepsTheCap`.
- Revocation is documented (`apps/backend/core/config.py`, `permission_cache_ttl_seconds`) as bounded by the cache
  lifetime. An entry is stored some time after its row was read, so the bound is lifetime plus that gap, and it is
  reached: `Revocation.DelayReachesTheBound`; the exact condition: `Revocation.RevocationIsBounded`.
- The first key of the principal cache is said to be the soonest to expire (`apps/backend/core/security.py`, comment in
  `_remember_principal`). Two requests that miss together break that:
  `PrincipalCache.ConcurrentMissesDropTheWrongEntry`; if and only if: `PrincipalCache.StoreKeepsOrderIff`.
- `tools/mutate` promises to reverse the mutation only where that is unambiguous. A text that can overlap itself is
  counted once yet stands at two places: `MutateTool.OverlapRestoresTheWrongPlace`; if and only if:
  `MutateTool.OnceIsUnambiguousIff`. A second apply overwrites the backup of the first:
  `MutateTool.TwoAppliesLoseTheOriginal`; if and only if: `MutateTool.RestoreUndoesTheLast`.
- A row with a scan id is said to be registered (`scripts/scan-bench/cohort.py`, module docstring). A row whose
  progress line fails is failed with its scan id: `CohortRegistration.LostLineScansTwice`; if and only if:
  `CohortRegistration.OrphanedIff` with `CohortRegistration.FailsRegisteredIff`, and over runs
  `CohortRegistration.ScannedMeansRegistered`.
- Resuming is said not to re-create what exists (same docstring). A retried pass scans that row a second time:
  `CohortRegistration.LostLineScansTwice`; if and only if: `CohortRegistration.ScanIdChangesIff`, and the guard a caller
  can see beforehand: `CohortRegistration.UnpickedScanStays`.
- A single head is taken to mean a linear chain. A cycle beside it, a missing parent, or two files that give one
  revision different parents go unseen: `MigrationHead.CycleHidesBesideAHead`, `MigrationHead.MissingParentPasses`,
  `MigrationHead.TwoParentsPass`; if and only if: `MigrationHead.UpgradeAppliesAllIff`.
- `_normalize_path` is said to collapse repeated slashes. Exactly two leading ones are kept:
  `DemoPaths.TwoSlashesSurvive`; if and only if: `DemoPaths.TwoSlashesSurviveIff`. Nor is it idempotent on every path:
  `DemoPaths.ClimbingTakesTwoPasses`; if and only if: `DemoPaths.IdempotentIff`.

## Model

| member | source | states |
|---|---|---|
| `LoginThrottle.AddressKeys.Increment` | apps/backend/core/login_throttle.py:106-111 | INCR starts an absent or expired counter at one and keeps the expiry of a live one |
| `LoginThrottle.AddressKeys.RecordScript` | apps/backend/core/login_throttle.py:97-141 | The script, command by command, has the effect and the reply of the specification `Record` |
| `LoginThrottle.AddressKeys.RecordFailure` | apps/backend/core/login_throttle.py:387-414 | Disabled or unreachable: nothing counted, zero returned; otherwise the script runs and the returned seconds are what the gate will say |
| `LoginThrottle.AddressKeys.Clear` | apps/backend/core/login_throttle.py:490-507 | All three keys go, or none when disabled or unreachable |
| `LoginThrottle.Config.Decay` | apps/backend/core/login_throttle.py:315-321 | The decay is at least every configured window |
| `LoginThrottle.Config.Window` | apps/backend/core/login_throttle.py:117-122 | Every round's window lies between the shortest window and the decay |
| `LoginThrottle.HeldBelowThreshold` | apps/backend/core/login_throttle.py:106-126 | After any run a stored count is positive and below the threshold |
| `LoginThrottle.Conservation` | apps/backend/core/login_throttle.py:97-141 | After any run, counted failures equal threshold times windows opened, plus lapsed and cleared counts, plus the current count |
| `LoginThrottle.CountersAreSpaced` | apps/backend/core/login_throttle.py:97-141 | Without `clear`, successive counters start at least the shortest window apart, whatever the schedule |
| `LoginThrottle.GuessBudget` | apps/backend/core/login_throttle.py:97-141 | A run of T milliseconds without `clear` counts at most threshold times (T / shortest window + 1) failures |
| `LoginThrottle.CounterIsItsHistory` | apps/backend/core/login_throttle.py:106-111 | A live counter is exactly the failures counted since its first one, all inside one decay period that later failures do not extend |
| `LoginThrottle.OpeningCostsAThreshold` | apps/backend/core/login_throttle.py:106-126 | Every window opened was paid for by a full threshold of failures counted since the previous opening or clearing and inside one decay period |
| `LoginThrottle.RoundIsTheChain` | apps/backend/core/login_throttle.py:117-138 | The stored round is the number of openings in the unbroken chain ending now |
| `LoginThrottle.Ladder` | apps/backend/core/login_throttle.py:117-138 | Every window opened has the length its place in the chain gives it, the last entry repeating |
| `LoginThrottle.ConsecutiveOpenings` | apps/backend/core/login_throttle.py:117-138 | Between two consecutive openings the ladder climbs one step inside the chain and restarts at the first window once length plus decay has passed; growing settings give growing refusals along a chain |
| `LadderBudget.LadderSpacesCounters` | apps/backend/core/login_throttle.py:117-138 | In any run without `clear`, with settings that end at their longest window, as many successive counters as there are windows start at least the decay apart |
| `LadderBudget.LadderGuessBudget` | apps/backend/core/login_throttle.py:127-138 | Such a run of T milliseconds counts at most threshold times the number of windows times (T / decay + 1) failures, however short the first windows are |
| `LadderBudget.GrowingEndsLongest` | apps/backend/core/login_throttle.py:315-321 | Growing settings end at their longest window |
| `LoginThrottle.ExpiriesAreNear` | apps/backend/core/login_throttle.py:106-138 | No key outlives the last event by more than twice the decay |
| `LoginThrottle.QuietForgetsEverything` | apps/backend/core/login_throttle.py:106-138 | Twice the decay of quiet after any run leaves no key |
| `LoginThrottle.RecordSeesOnlyVisible` | apps/backend/core/login_throttle.py:97-141 | The script cannot tell an expired key from an absent one, so forgetting is complete |
| `LoginThrottle.GateAgreesWithScript` | apps/backend/core/login_throttle.py:368-384 | The gate reads zero exactly when a failure now would be counted; otherwise a failure changes no key |
| `LoginThrottle.WaitingEndsTheRefusal` | apps/backend/core/login_throttle.py:368-384 | The reported seconds are the least whole wait that ends the refusal |
| `MfaBudget.RedisCounters.Eval` | apps/backend/core/login_throttle.py:218-224 | The script counts one attempt and sets the expiry on the first only |
| `MfaBudget.Worker.LocalSpend` | apps/backend/core/login_throttle.py:240-269 | The fallback prunes every expired token, counts this one, and grants while within the allowance |
| `MfaBudget.Worker.SpendAttempt` | apps/backend/core/login_throttle.py:272-301 | Redis decides when it answers, the worker's own counter when it does not, and only that counter moves |
| `MfaBudget.SharedSpendsOne` | apps/backend/core/login_throttle.py:218-224 | An attempt adds one to what Redis shows for the token, on a window fixed by the first attempt and not moved by later ones; no other token moves |
| `MfaBudget.LocalSpendsOne` | apps/backend/core/login_throttle.py:256-267 | The same in the process, where every other token stays if and only if it has not expired |
| `MfaBudget.CountersAreExact` | apps/backend/core/login_throttle.py:218-301 | Inside the token's lifetime each counter is exactly the attempts it took, whatever other tokens and prunes do |
| `MfaBudget.GrantsExactly` | apps/backend/core/login_throttle.py:218-301 | For every pattern of outages, the exact number of attempts granted: three at most from Redis, three at most from each worker |
| `MfaBudget.BudgetUnderOutages` | apps/backend/core/login_throttle.py:218-301 | N workers grant a token at most 3 * (N + 1) attempts, and that many when each counter is exhausted |
| `MfaBudget.BudgetWithoutOutages` | apps/backend/core/login_throttle.py:218-301 | While Redis never fails, the grants are the attempts made or three, whichever is less |
| `WsRegistry.Store.PruneDead` | apps/backend/core/ws_registry.py:204-219 | Exactly the members without a live flag leave the set |
| `WsRegistry.Store.First` | apps/backend/core/ws_registry.py:266-268 | The first member in score order, ties broken by member |
| `WsRegistry.Store.RegisterConnection` | apps/backend/core/ws_registry.py:222-277 | Unreachable: admitted and unrecorded; otherwise the specification `Register` gives the new sets and the answer |
| `WsRegistry.Store.TouchConnection` | apps/backend/core/ws_registry.py:280-298 | Only the connection's own liveness key moves |
| `WsRegistry.Store.UnregisterConnection` | apps/backend/core/ws_registry.py:301-321 | The connection leaves its user's set, the global set and the liveness keys; nothing else moves |
| `WsRegistry.LeaveEffect` | apps/backend/core/ws_registry.py:301-321 | Unregistering takes exactly that connection out of its user's set, the global set and the liveness keys |
| `WsRegistry.RegisterEffect` | apps/backend/core/ws_registry.py:222-274 | Set by set: prune both, refuse at the global cap, else add the newcomer and give up at most one connection of the same user; other users' sets are untouched |
| `WsRegistry.CapHoldsUnlessNewcomerIsOldest` | apps/backend/core/ws_registry.py:238-274 | From any state, an admission leaves the user over the cap if and only if the other live connections already were, or equal the cap and the newcomer sorts before all of them; a refusal only prunes |
| `WsRegistry.RegistrationNeverShrinks` | apps/backend/core/ws_registry.py:259-274 | No registration leaves a user with fewer live connections than the others it found, so an excess once there is never worked off |
| `WsRegistry.ClockStepBackBreaksTheCap` | apps/backend/core/ws_registry.py:238-274 | A concrete registration after the clock stepped back that leaves two connections under a cap of one |
| `WsRegistry.EvictionPicksEarliest` | apps/backend/core/ws_registry.py:259-274 | Someone is evicted exactly when the user held a full live set; it is the earliest connected, never the newcomer |
| `WsRegistry.RunIsSound` | apps/backend/core/ws_registry.py:204-321 | Every legal run keeps each user and everyone within the caps, and every global member in its own user's set with the same score |
| `WsRegistry.LiveConnectionSurvivesRun` | apps/backend/core/ws_registry.py:204-321 | A connection whose key never lapses leaves only by its own unregister or by being returned as evicted |
| `WsRegistry.DeadConnectionIsReaped` | apps/backend/core/ws_registry.py:204-256 | Past its deadline, one attempt by anyone, refused or not, removes it from the global set for good, and one by its user from that user's set |
| `WsRegistry.HeartbeatSetsDeadline` | apps/backend/core/ws_registry.py:280-298 | A heartbeat or an accepted registration keeps the connection alive for exactly one TTL |
| `WsInterleaving.GlobalBound` | apps/backend/core/ws_registry.py:204-277 | With at most k registrations in flight and every command a step, members plus registrations about to join never exceed the global cap plus k - 1 in any reachable state |
| `WsInterleaving.AloneRefinesRegister` | apps/backend/core/ws_registry.py:204-277 | The command sequence of a registration nothing interrupts ends in exactly the state and the answer of the atomic call |
| `WsOvershoot.GlobalBoundIsMet` | apps/backend/core/ws_registry.py:251-261 | For every cap and k, a run of registrations alone, none dying and each with a new id and a later connect time, reaches the cap plus k - 1 with at most k in flight |
| `WsOvershoot.UserCapIsLost` | apps/backend/core/ws_registry.py:66-74 | For every per-user cap and every m the global cap admits, a run of registrations alone with at most two in flight ends with nothing in flight and one user holding m live connections |
| `WsUserCap.OneAtATimeKeepsTheCap` | apps/backend/core/ws_registry.py:222-277 | A user whose registrations come one at a time, run to their end and begin with new ids and later connect times is within the cap whenever none is in flight and at most one over it at any moment, whatever all other commands, failures and unregisters do |
| `WsUserCap.ExcessIsAccountedFor` | apps/backend/core/ws_registry.py:259-277 | In every run whatever, a user's excess over the cap is at most the number of its registrations that are past their join and in flight, died there, found themselves the oldest, or removed a connection already gone |
| `Revocation.RefusedExactly` | apps/backend/core/security.py:210-274 | A token is refused if and only if it has an issue time i and the password or the MFA stamp t, in microseconds, has i * 1000000 <= t: the whole second of the change counts, either credential counts, absence of either side does not |
| `Revocation.InvalidStays` | apps/backend/core/security.py:210-274 | A token once refused by the stamps is refused by every later row |
| `Revocation.AdmitsExactly` | apps/backend/core/security.py:769-826 | A worker goes by the cached stamps while the cache is on and the entry is before its deadline, and by the row otherwise |
| `Revocation.StoreKeepsTheReading` | apps/backend/core/security.py:683-704 | A store keeps the stamps that were read for one lifetime from the moment of storing, and nothing with the cache off |
| `Revocation.ForgettingIsFeltAtOnce` | apps/backend/core/security.py:724-735 | A worker that drops its entry goes by the row at once |
| `Revocation.RevocationIsBounded` | apps/backend/core/security.py:769-857 | In every run of N workers, for a commit whose password or MFA stamp is at or after the token's second: a worker admits the token if and only if it still serves an entry it read from the old row and whose stamps the token is newer than, and never once lifetime plus that worker's read-to-store gap has passed |
| `Revocation.NoCacheNoDelay` | apps/backend/core/security.py:663-704 | With the cache off every worker refuses at once |
| `Revocation.RevocationFromTheStart` | apps/backend/core/security.py:769-857 | The same bound and the same exact condition for every run that begins with workers that have cached and read nothing |
| `Revocation.DelayReachesTheBound` | apps/backend/core/security.py:769-857 | For every lifetime, gap, change of either credential and token it refuses, a run in which the token is still admitted one millisecond before the bound |
| `PrincipalCache.CurrentUser.Detached` | apps/backend/core/security.py:707-721 | An equal principal that shares neither list nor dict with the original |
| `PrincipalCache.Cache.CachedPrincipal` | apps/backend/core/security.py:663-680 | Inside the lifetime a fresh copy of the stored value; past it the entry is dropped; with the cache off nothing is looked at |
| `PrincipalCache.Cache.RememberPrincipal` | apps/backend/core/security.py:683-704 | A copy is stored with its deadline, replacing in place or dropping the first entry of a full map; API-key-narrowed principals are not stored |
| `PrincipalCache.Cache.ForgetPrincipal` | apps/backend/core/security.py:724-735 | Exactly that user's entry goes |
| `PrincipalCache.Cache.SetPassword` | apps/backend/core/security.py:186-207 | Hash and stamp are written and this process forgets the user |
| `CacheIsolation.AnswersIgnoreEdits` | apps/backend/core/security.py:663-735 | Over any interleaving of lookups, stores, drops and edits by callers who keep every copy they were ever handed, edit any of them at any time and share lists and dicts between them, the run has an account: each edit changes exactly the views that refer to the edited object and asks nothing of the cache, each store asks it to keep the value its holder then sees, each lookup is answered as a cache of values asked the same would answer, with a principal that shares nothing |
| `CacheIsolation.StoredIsAnswered` | apps/backend/core/security.py:663-721 | In any such run a lookup inside the lifetime answers the value its holder saw when it was stored, whatever was edited, looked up, dropped and stored between, as long as the line was spared |
| `CacheIsolation.StaysIffSpared` | apps/backend/core/security.py:663-735 | One cache operation leaves a line in place if and only if it is a lookup or drop of another user, a lookup before the deadline, a refused store, a store of the very same, or a store of another user that does not make a full map drop the line |
| `CacheIsolation.LeftAloneIsSpared` | apps/backend/core/security.py:663-735 | Steps that store nothing, do not drop the user and do not look it up past the deadline spare the line, whatever they edit |
| `CacheIsolation.LookupsIgnoreCallers` | apps/backend/core/security.py:663-721 | The same on the heap: after a store and any steps that spare the line, the lookup returns an object with the value as it was stored |
| `PrincipalCache.Stored` | apps/backend/core/security.py:663-704 | A stored principal is found until its deadline and not from it on |
| `PrincipalCache.OffMeansOff` | apps/backend/core/security.py:672-686 | With the cache off nothing is looked at and nothing is stored |
| `PrincipalCache.KeyPrincipalsAreRefused` | apps/backend/core/security.py:686-693 | A principal with a key project or a read-only key leaves the cache as it was |
| `PrincipalCache.RunStaysTidy` | apps/backend/core/security.py:649-735 | Every run stays within the maximum and holds no duplicate and no principal with a key project or a read-only key |
| `PrincipalCache.StoreKeepsOrderIff` | apps/backend/core/security.py:683-704 | Insertion order stays expiry order if and only if the user was not already held in front of an entry that expires sooner |
| `PrincipalCache.ConcurrentMissesDropTheWrongEntry` | apps/backend/core/security.py:694-704 | For every maximum from two up, two misses for one user make a full map drop the entry that expires last |
| `PrincipalCache.RunKeepsOrder` | apps/backend/core/security.py:683-735 | When every store follows a miss in the same step, insertion order is expiry order throughout |
| `PrincipalCache.DropsTheEarliest` | apps/backend/core/security.py:694-704 | In such runs the entry a full map drops has the earliest deadline |
| `AuditLog.Hook.BeforeFlush` | apps/backend/core/audit.py:467-517 | Creates are stashed, modified updates and deletes written at once, skipped tables ignored |
| `AuditLog.Hook.AfterFlush` | apps/backend/core/audit.py:520-553 | The stash is emptied and each row written with its key filled in |
| `AuditLog.Hook.AfterSoftRollback` | apps/backend/core/audit.py:556-579 | The stash is dropped and nothing is written |
| `AuditLog.Hook.AroundFlush` | apps/backend/core/audit.py:467-553 | The two hooks around a flush do what the Flush step of a run does |
| `AuditLog.BackfillIsExact` | apps/backend/core/audit.py:520-553 | A create row filled in after the flush equals the row built with the key known from the start |
| `AuditLog.CreatesAreRecorded` | apps/backend/core/audit.py:467-553 | The stash, filled in, is the audit row of each create, in order |
| `AuditLog.UpdatesAreRecorded` | apps/backend/core/audit.py:494-514 | The rows written are those of the modified updates of audited tables, in order |
| `AuditLog.DeletesAreRecorded` | apps/backend/core/audit.py:506-514 | The rows written are those of the deletes from audited tables, in order |
| `AuditLog.RowDescribes` | apps/backend/core/audit.py:397-447 | A change gets a row if and only if its table is not one of the four skipped; the row has the change's table, context, key and verb (archive and unarchive exactly for `archived_at` filled and emptied), and its diff holds every column, or for an update exactly the moved ones and both ends of a status transition, each value masked by its column |
| `AuditLog.RowsAreThoseOfTheChanges` | apps/backend/core/audit.py:467-579 | Over every legal run the committed rows are those that building one for each committed change gives |
| `AuditLog.EveryObjectIsAChange` | apps/backend/core/audit.py:486-511 | Every new object, every modified one and no other, and every deleted one is a change |
| `AuditLog.WorkIsCommitted` | apps/backend/core/audit.py:467-579 | A flush and a commit commit all of it and leave nothing over; a rollback commits none of it and drops the stash; a failed flush commits nothing |
| `AuditLog.ExactlyOnce` | apps/backend/core/audit.py:467-579 | Over every run of flushes, failed flushes, rollbacks and commits, the committed audit rows are in some order one for each committed change of an audited table, each describing its change field by field, and no flush starts with a leftover stash |
| `AuditLog.WithoutTheHookAGhostIsAudited` | apps/backend/core/audit.py:556-579 | Without the rollback hook, for any audited object: a failed flush, a rollback, a flush and a commit write an audit row with no change behind it |
| `AuditLog.CommittedRowsAreScrubbed` | apps/backend/core/audit.py:238-273 | No committed row names a skipped table or carries a credential or personal value in the clear |
| `SecretCheck.CommutingStringsShareABlock` | apps/backend/core/config.py:820-824 | Two nonempty strings that read the same in either order are powers of one block |
| `SecretCheck.DoublingFindsShortestBlock` | apps/backend/core/config.py:820-824 | The position found in the doubled string is the length of the shortest block, which divides the string into whole copies |
| `SecretCheck.DoublingFindsRepetition` | apps/backend/core/config.py:820-824 | The doubled-string test fires exactly on a block written two or more times |
| `SecretCheck.ReasonExactly` | apps/backend/core/config.py:809-826 | The reason given: the first marker in the list that occurs, else the number of distinct characters when below eight, else the repetition, else none |
| `SecretCheck.AcceptedExactly` | apps/backend/core/config.py:791-826 | A secret passes exactly when it is marker-free, has at least eight distinct characters and is not a repetition |
| `PyStrings.Find` | apps/backend/core/config.py:823-824 | The first occurrence at or after the start, or -1 when there is none |
| `PyStrings.CountsApart` | tools/mutate/mutate.py:88-92 | Two occurrences that do not overlap make the count at least two |
| `PyStrings.CountIsTheMost` | tools/mutate/mutate.py:88-92 | The count is the largest number of places that do not overlap, for the empty text too |
| `PyStrings.ReplacesTheFirst` | tools/mutate/mutate.py:94 | Replacing once changes the first place and nothing else |
| `MutateTool.Workspace.ApplyMutation` | tools/mutate/mutate.py:77-109 | Writes backup, target and sidecar, or refuses and leaves all three as they were |
| `MutateTool.Workspace.RestoreTarget` | tools/mutate/mutate.py:136-179 | Restores and unlinks, or refuses and leaves all three as they were |
| `MutateTool.ApplyExactly` | tools/mutate/mutate.py:77-109 | Applied exactly when the anchor is counted once and differs from its replacement; then one place changed and the backup is the old text |
| `MutateTool.AppliesOrSaysWhy` | tools/mutate/mutate.py:86-109 | Refused, with the reason, when the anchor stands nowhere, stands at two places that do not overlap, or is its own replacement; otherwise done at its first place with a backup and a note |
| `MutateTool.RestoresOrSaysWhy` | tools/mutate/mutate.py:136-179 | Refused without a backup; the backup when there is no note or the file is as the mutation left it; otherwise refused when the mutated text stands nowhere or at two places that do not overlap, and done at its first place when not |
| `MutateTool.RoundTrip` | tools/mutate/mutate.py:77-179 | Apply then restore gives the exact original and leaves nothing beside it |
| `MutateTool.RestoreUndoesTheLast` | tools/mutate/mutate.py:77-159 | After any sequence of applies, a restore gives the text before the last one that took effect: the first text if and only if the earlier ones had left it as it was |
| `MutateTool.TwoAppliesLoseTheOriginal` | tools/mutate/mutate.py:77-159 | For any three texts, two applies and a restore give the second, not the first |
| `MutateTool.RestoreKeepsOtherEdits` | tools/mutate/mutate.py:161-179 | If the mutated text stands at one place counting overlaps, restore changes that place back and keeps every other edit |
| `MutateTool.OnceIsUnambiguousIff` | tools/mutate/mutate.py:161-171 | Being counted once pins the place down in every file if and only if the text cannot overlap itself |
| `MutateTool.OverlapRestoresTheWrongPlace` | tools/mutate/mutate.py:161-179 | A concrete apply, edit and restore that reverses the wrong place |
| `CohortRegistration.Table.SeedTargets` | scripts/scan-bench/cohort.py:98-117 | The rows and the inserted count of the specification `Seed` |
| `CohortRegistration.Table.TargetsToRegister` | scripts/scan-bench/cohort.py:120-129 | The ids of the specification `Selected` |
| `CohortRegistration.Selected` | scripts/scan-bench/cohort.py:120-129 | Exactly the pending rows, and the failed ones when retrying, in id order |
| `CohortRegistration.Kept` | scripts/scan-bench/bulk_register.py:140-142 | The first `limit` of them, zero or none being no limit |
| `CohortRegistration.SeedStartsAtZero` | scripts/scan-bench/cohort.py:98-117 | Seeding keeps every row it finds and adds only pending rows of its targets, with no ids and no attempts |
| `CohortRegistration.Table.MarkProgress` | scripts/scan-bench/cohort.py:132-163 | Given ids are recorded, absent ones keep what was there, a scan id makes the row registered |
| `CohortRegistration.Table.MarkFailed` | scripts/scan-bench/cohort.py:166-175 | The row is failed with one more attempt; no id is touched |
| `CohortRegistration.Queue` | scripts/scan-bench/bulk_register.py:140-150 | A pass works from the rows as they were when it selected them |
| `CohortRegistration.EveryRunIsSound` | scripts/scan-bench/bulk_register.py:60-180 | For any interruptions, lost or rejected requests, resumed passes and other clients: ids are filled team, project, scan; team and project ids equal the server's for those slugs and never change; a row that has a scan id keeps having one, of a scan on its project |
| `CohortRegistration.ScanIdChangesIff` | scripts/scan-bench/bulk_register.py:171-177 | A recorded scan id changes at a step if and only if the step records a new scan for that row, and then the row had been failed while holding the old one and was retried |
| `CohortRegistration.ScanIdStays` | scripts/scan-bench/bulk_register.py:133-180 | Over any run without such a step a recorded scan id stays |
| `CohortRegistration.UnpickedScanStays` | scripts/scan-bench/bulk_register.py:140-172 | Over any run in which no pass takes the row up with the scan id it holds, the id stays |
| `CohortRegistration.WithoutRetryScansStay` | scripts/scan-bench/bulk_register.py:140-172 | Over any run whose passes do not retry failed rows a recorded scan id stays |
| `CohortRegistration.OrphanedIff` | scripts/scan-bench/bulk_register.py:171-177 | A row comes to hold a scan id without being registered if and only if it was registered and is marked failed, and stops if and only if a new scan is recorded for it |
| `CohortRegistration.FailsRegisteredIff` | scripts/scan-bench/bulk_register.py:171-177 | A pass comes to mark a registered row failed if and only if the line that reports the row was not printed |
| `CohortRegistration.ScannedMeansRegistered` | scripts/scan-bench/cohort.py:16-21 | Over every run from nothing in which no progress line fails, the rows that hold a scan id are exactly the registered ones |
| `CohortRegistration.EveryRunIsFirm` | scripts/scan-bench/bulk_register.py:133-180 | Every run from nothing keeps what these lemmas start from: a pending row holds no scan id, and a pass meets each row as it was selected |
| `CohortRegistration.LostLineScansTwice` | scripts/scan-bench/bulk_register.py:171-177 | For any due row on any server: if the progress line fails, the row is failed while it holds its scan id, and a retried pass triggers a second scan on the same project and records it over the first |
| `CohortRegistration.RegisteredMeansScanned` | scripts/scan-bench/bulk_register.py:133-180 | Every registered row has a scan the server really triggered on the project its slugs name |
| `CohortRegistration.DifferentTargetsDifferentProjects` | scripts/scan-bench/bulk_register.py:60-102 | Registered rows of different targets are different projects |
| `CohortRegistration.AttemptsAreFailures` | scripts/scan-bench/cohort.py:166-175 | Over every run the attempts a row shows are the times it was marked failed |
| `CohortRegistration.CredentialPrecedesScan` | scripts/scan-bench/bulk_register.py:164-171 | In every run whose passes carry a credential, each scan is of a project the credential had been sent to |
| `CohortRegistration.AnsweredPassRegisters` | scripts/scan-bench/bulk_register.py:133-180 | A pass whose requests are all answered ends, and every row it selected is registered |
| `CohortRegistration.SeedingIsIdempotent` | scripts/scan-bench/cohort.py:98-117 | Seeding the same targets again changes nothing |
| `MigrationHead.FindHead` | scripts/ci/alembic_head.py:40-65 | Which of the three outcomes: no revisions, the one revision nothing follows, or the set of heads |
| `MigrationHead.SingleHeadIffJoined` | scripts/ci/alembic_head.py:40-65 | With no cycle, however many parents a revision is given: one head if and only if there are revisions and any two have a common descendant, and then every revision is an ancestor of the head |
| `MigrationHead.SingleHeadIffLinear` | scripts/ci/alembic_head.py:40-65 | With no cycle and at most one parent each: one head if and only if there are revisions and any two are comparable |
| `MigrationHead.UpgradeAppliesAllIff` | scripts/ci/alembic_head.py:40-65 | With one head: a chain of files from it back to the start takes in every file if and only if no two files give a revision different parents, there is no cycle and no parent is missing |
| `MigrationHead.CycleHidesBesideAHead` | scripts/ci/alembic_head.py:40-65 | A two-revision cycle beside a head is accepted and never applied |
| `MigrationHead.MissingParentPasses` | scripts/ci/alembic_head.py:40-65 | A revision whose parent is missing is accepted and no chain reaches it from the start |
| `MigrationHead.TwoParentsPass` | scripts/ci/alembic_head.py:40-65 | Two files giving one revision different parents are accepted, the parents are not comparable, and no chain takes in both files |
| `RedisDegradation.Tracker.Note` | apps/backend/core/redis_degradation.py:74-125 | The new state and log of the specification `Next`, and whether a line was written |
| `RedisDegradation.Tracker.Snapshot` | apps/backend/core/redis_degradation.py:128-163 | Exactly the components that degraded, each with its summed count and latest time |
| `RedisDegradation.EveryCallIsAccountedFor` | apps/backend/core/redis_degradation.py:74-125 | For any clock readings, calls equal lines plus the suppressed counts in them plus the current one |
| `RedisDegradation.LinesAreSpaced` | apps/backend/core/redis_degradation.py:105-124 | Lines i and j of one key are at least (j - i) minutes apart |
| `RedisDegradation.LineIsWrittenIff` | apps/backend/core/redis_degradation.py:105-124 | A call writes a line if and only if the last line of its key is 60 seconds old or more, counting from zero when there is none, and the line reports every call since |
| `RedisDegradation.FirstCallIsWritten` | apps/backend/core/redis_degradation.py:105-124 | By any clock past its first minute a key's first call is written |
| `RedisDegradation.SnapshotCountsEveryCall` | apps/backend/core/redis_degradation.py:128-163 | A component's total is exactly its number of calls, and it is listed exactly if there was one |
| `RedisDegradation.SnapshotShowsTheLastCall` | apps/backend/core/redis_degradation.py:128-163 | On a clock that never goes back, the time shown is that of the component's last call |
| `DemoPaths.RelativeShape` | apps/backend/core/middleware.py:315-335 | A relative path resolves to names, behind `..` exactly if some prefix climbs above the start |
| `DemoPaths.ShapeIsFixedIff` | apps/backend/core/middleware.py:315-335 | A root with segments is its own normal form if and only if every segment is a name |
| `DemoPaths.IdempotentIff` | apps/backend/core/middleware.py:315-335 | Normalising twice equals once if and only if the path is empty or absolute, or is relative, never climbs above its start and ends below it |
| `DemoPaths.ClimbingTakesTwoPasses` | apps/backend/core/middleware.py:315-335 | `..` normalises to `/..`, which normalises to `/` |
| `DemoPaths.TwoSlashesSurviveIff` | apps/backend/core/middleware.py:315-335 | A normal form starts with two slashes if and only if the path, back-slashes folded, starts with exactly two; nowhere else does it hold two in a row |
| `DemoPaths.TwoSlashesSurvive` | apps/backend/core/middleware.py:315-335 | `//v1/admin` is its own normal form |
| `DemoPaths.PrefixFirst` | apps/backend/core/middleware.py:315-335 | Resolving the beginning of an absolute path first does not change where the whole leads |
| `DemoPaths.UpUndoesName` | apps/backend/core/middleware.py:315-335 | A name followed by `..` leads back |
| `DemoPaths.CleanIsCanonical` | apps/backend/core/middleware.py:391-413 | A raw path is accepted if and only if, less one trailing slash, it is its own normal form and does not start with two slashes |
| `DemoPaths.CollapseThenNormalize` | apps/backend/core/middleware.py:427-431 | Collapsing slashes first gives the same normal form with one leading slash |
| `DemoPaths.GuardSeesEveryReading` | apps/backend/core/middleware.py:416-431 | The area is exactly the paths whose raw, collapsed or one-slash normal form has segments that begin with "", "v1", "admin" or "", "v1", "user-anonymisation", so no traversal hides from the guard |
| `DemoPaths.UnderIsGuarded` | apps/backend/core/middleware.py:416-417 | A path is a guarded prefix or lies below one if and only if its segments begin with that prefix's |
| `DemoPaths.EverythingBelowIsGuarded` | apps/backend/core/middleware.py:416-431 | Each guarded prefix and everything below it is in the area |
| `DemoPaths.CollapseExactly` | apps/backend/core/middleware.py:427 | Collapsing leaves no two slashes in a row, the same names, and alone what has no such pair |
| `DemoPaths.TrimExactly` | apps/backend/core/middleware.py:405 | One trailing slash goes, except the root's own |
| `DemoPaths.UuidExactly` | apps/backend/core/middleware.py:367 | An id is five groups of 8, 4, 4, 4 and 12 hexadecimal digits joined by dashes |
| `DemoPaths.ListedExactly` | apps/backend/core/middleware.py:369-386 | The patterns match exactly eleven pages and a team or a user by id, a final newline going unnoticed |
| `DemoPaths.AdmittedExactly` | apps/backend/core/middleware.py:434-447 | Outside the area everything passes; inside, exactly GET and HEAD on one of those pages under a raw path that, less one trailing slash, is its own normal form |
| `DemoPaths.UnlistedIsRefused` | apps/backend/core/middleware.py:434-447 | Below a guarded prefix every path not on the list, and every other method, is refused |
| `DemoPaths.ExportIsRefused` | apps/backend/core/middleware.py:361-363 | The roster export does not ride the entry for one user, whatever the method |
| `DemoPaths.AdmittedIsCanonical` | apps/backend/core/middleware.py:434-447 | An admitted request's raw path, less one trailing slash, is its normal form |

## Left out

- Redis, SQLite, SQLAlchemy and HTTP clients: only the semantics the code relies on (expiry, sorted-set order,
  COALESCE, flush and rollback order, unique slugs) are modelled. One clock drives each model.
- Fail-open branches of `register_connection` during an outage: the class method models them; the cap proofs assume
  Redis answers. A Redis error between two commands is an aborted registration in `WsInterleaving`.
- WsUserCap.OneAtATimeKeepsTheCap: a sufficient condition only; `WsUserCap.ExcessIsAccountedFor` bounds the excess of
  every other run.
- MigrationHead.SingleHeadIffLinear: takes at most one parent a revision, as a linear chain has;
  `MigrationHead.SingleHeadIffJoined` and `MigrationHead.UpgradeAppliesAllIff` do without.
- `spend_once`, `release_spend`, key derivation by HMAC, the eviction broadcast and all logging.
- JWT signatures, bcrypt, role computation and the `is_active` check of `_load_current_user`. Revocation assumes that
  stamps, written from the clock, never move backwards.
- SAVEPOINTs and value serialisation in the audit hook; the digest and the URL mask are arbitrary functions.
- `value.lower()` and `method.upper()`: the folded string is an argument.
- Newline translation, the JSON sidecar format and the hunk count of `tools/mutate`; sha256 is taken to tell any two
  contents apart, and the target file exists.
- Display names, credentials' contents, error texts, timestamps and scan polling of the cohort scripts; one process at
  a time works on a cohort, its database writes succeed, and `--limit` is not negative.
- Merge revisions, whose tuple of parents the migration script's pattern does not capture.
- The process id in `snapshot`.
- `_is_demo_write_allowed` and the ASGI plumbing around the path functions.
- `core/authz.py`, URL and DNS screening, secret-scrubbing expressions, pagination, the rest of `core/config.py`, the
  frontend, the documentation site and reporting: library wrappers or easy members.
