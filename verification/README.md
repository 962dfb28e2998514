# Verified model of the CrowdSec Central API

This project models the synchronisation core of the CrowdSec Central API in Dafny 4.11 and proves properties of it that
hold for every input and every run:

- the `decisions` table, the six statements that change it, and the per-machine delta stream agents follow it by;
- the upstream syncer, as several server replicas run it against one shared row and one advisory lock, and the way it
  applies a response to the table;
- signal ingestion with its allowlist check and deduplication;
- the sliding-window rate limiter;
- the grouping of the v3 stream, file-managed allowlists, the shared signing secret, and signed download links.

`dafny verify dfyconfig.toml` checks the whole project.

## How to read it

| file | what it holds |
|---|---|
| `Base.dfy` | `Option`, `Result`, instants and durations (integers, in microseconds) |
| `Decisions.dfy` | rows, the six writing statements and the selects as functions of the table and of `NOW()`, row lifecycle, the cleaner |
| `DecisionStore.dfy` | the same statements as methods of a class that updates its table and cursors in place |
| `Delivery.dfy` | runs in which pulls are interleaved statement by statement with all writers and with each other |
| `ExactDelivery.dfy` | for every uuid and every such run, exactly which writes an agent misses |
| `AtomicPulls.dfy` | runs with indivisible pulls: delta refines snapshot |
| `Purging.dfy` | purging is invisible to agents that keep in touch |
| `StreamLimits.dfy` | runs that show why each hypothesis of the delivery theorems is there |
| `Follower.dfy` | an agent following the stream through the class, tied to the steps of a run |
| `Signals.dfy` | batch ingestion and what exactly is deduplicated |
| `LocalDecisions.dfy` | one active local decision per target, exactly when concurrent requests keep it |
| `SyncProtocol.dfy`, `UpstreamSync.dfy`, `UpstreamUuid.dfy` | the sync protocol, applying a response, the derived uuids |
| `RateLimiter.dfy` | the pruned log against the whole history |
| `Grouping.dfy`, `Allowlists.dfy`, `Secrets.dfy`, `Hex.dfy`, `Decimal.dfy`, `SignedUrls.dfy` | the smaller cores |

Each SQL statement is one atomic step on a table. State that the server updates in place is a field of a class, and
every method of such a class is proved equal to a function of the old state; the theorems are about that function and
about runs built from it. What the functions compute is pinned apart from their names: the methods' contracts spell out
columns and numbers, and lemmas such as `Signals.OneDecisionExactly` or `Decimal.DigitAt` say it in independent terms. Clock readings, random uuids, failures and the answers of library parsers are inputs, so every
theorem holds whatever they are, within its stated hypotheses.

## What the delivery theorems assume, and why

- A write is stamped later than everything that happened before it; the statements of a pull may share an instant with
  what precedes them. A write stamped exactly at a cursor would be skipped (`StreamLimits.TiedWriteIsSkipped`).
- A statement is visible from the instant it is stamped with. (PostgreSQL stamps with the start of the transaction.)
- A new row stamped between a pull's new select and its cursor write, (t1, t3], is skipped for good
  (`StreamLimits.GapSkipsWrite`); so is a deletion stamped between the deleted select of a delta pull and its cursor write,
  (t2, t3] (`StreamLimits.GapSkipsDeletion`), or between the only select of a startup pull and its cursor write. The
  interleaved theorem speaks of uuids whose last write is outside these gaps, and `ExactDelivery` shows that nothing else
  needs to be left out.
- Deletions reach an agent that selects them at most 90 days after its cursor; a later one can be left holding a purged
  uuid (`StreamLimits.LateAgentKeepsPurged`), namely one purged before that select. Live rows reach it in any case.
- A pull may fail at any statement; the cursor and the agent then stay as they were, and what it had selected is lost.
- An agent that asked for a full pull replaces what it holds; otherwise it adds New and then removes Deleted.

## One active local decision per target

The check for an active row and the insert are two statements, and no transaction holds them together
(`internal/service/signal.go` lines 139-162). Two machines that report one address at once can both pass the check and
both insert, whatever the times (`LocalDecisions.CheckThenInsertRaces`). A run of requests and other writers keeps the
property if and only if no insert adds a live row while a row that another request inserted on the target after its check
is still active (`LocalDecisions.OnlyRacesBreakIt`). It therefore holds in every run in which no other insert on a
decision's target comes between its check and its insert (`LocalDecisions.UninterruptedIsRaceFree`).

## Where the code and its description part ways

The model follows the code:

- `docs/api.md` line 487 promises that a deletion appears in the agents' next pull. It fails for a row deleted at w with
  t2 < w <= t3 (`StreamLimits.GapSkipsDeletion`): neither that pull nor any later delta pull reports it. Exactly: an agent
  that had the uuid when it was deleted keeps it past the cursor if and only if w lies in such a gap of one of its pulls
  since its last startup pull, or the row was purged before the deleted select that asked for it
  (`ExactDelivery.DeletionMissedIff`); with punctual pulls, if and only if w lies in a gap
  (`ExactDelivery.PunctualMissesOnlyInGaps`). A deletion stamped between the two selects of a delta pull is reported.
- `internal/upstream/sync.go` lines 28-30 call two hours the minimum time between upstream calls. The code measures from
  the last *persisted* sync. It fails after a fetch that returned an error, after a successful fetch whose state write
  failed (the errors at lines 266 and 279 are discarded), and after a crash between the two: the next fetch may come at
  once (`SyncProtocol.FailedFetchIsRetried`). Exactly: in every run the later fetches are forced to come two hours or more
  after a given fetch if and only if a sync has been persisted since, or the two hours have passed already
  (`SyncProtocol.SpacingForcedIff`).
- `internal/api/v2/decisions.go` lines 152-155 build a download link from the list's name without escaping it, and
  `internal/api/admin/allowlists.go` line 39 accepts any name of at most 128 bytes. A name with '/', '?' or '#' gets a link
  that never works; exactly these and the names that decoding changes do (`SignedUrls.LinkIsServed`).
- `docs/api.md` line 198 promises deduplication of signal decisions. Within a batch it holds exactly while the earlier row
  is active (`Signals.StoredIff`); a duration of zero defeats it (`Signals.ZeroDurationStoresTwice`). Between concurrent
  batches a race defeats it, as the previous section says.

## Model

| member | source | states |
|---|---|---|
| `Decisions.LifecycleRun` | internal/db/queries/decisions.go:13-20 | after any sequence of the six writers on a non-decreasing clock, is_deleted holds iff deleted_at is set, a deleted row has deleted_at = updated_at, and created_at <= updated_at <= now |
| `Decisions.DeltaSelectsCover` | internal/db/queries/decisions.go:86-117 | the two delta selects are disjoint and together are exactly the rows written after the cursor, less the undeleted ones that have expired |
| `Decisions.WriteFrame` | internal/db/queries/decisions.go:167-264 | a write stamps every row it changes; an unstamped row is identical to before, and only an aged row can vanish |
| `Decisions.WritesKeepColumns` | internal/db/queries/decisions.go:178-264 | no write changes origin, type, scope, value, duration, scenario, machine, simulated or created_at of a row; only an upsert of it changes its expiry |
| `Decisions.NewRowColumns` | internal/db/queries/decisions.go:13-20 | a row appears only by a create or an upsert, undeleted, with the caller's columns, whole seconds of duration, and the instant in its timestamps |
| `Decisions.RunsKeepTargets` | internal/db/queries/decisions.go:167-264 | while a row exists, no sequence of writers changes its origin, type, scope or value |
| `Decisions.CleanerInvisible` | cmd/serve/serve.go:166-188 | a sweep and purge change no active row at any later instant, and leave no undeleted row that had expired at the sweep |
| `DecisionStore.DecisionStore.CreateDecision` | internal/db/queries/decisions.go:13-20 | inserts one row, column by column what the caller supplied, undeleted and stamped now; a uuid clash fails and changes nothing |
| `DecisionStore.DecisionStore.GetActiveDecision` | internal/db/queries/decisions.go:22-44 | returns nothing iff no active row matches scope and value; otherwise one of them with the greatest created_at |
| `DecisionStore.Query` | internal/db/queries/decisions.go:86-93 | the rows of a select: each selected row exactly once, in ascending order of the key |
| `DecisionStore.DecisionStore.GetDecisionStream` | internal/db/queries/decisions.go:46-145 | startup or no cursor: exactly the undeleted unexpired rows, nothing deleted; otherwise those updated after the stored cursor, and the rows deleted after it in order of deletion; only this machine's cursor moves |
| `DecisionStore.DecisionStore.HardDeleteAgedDecisions` | internal/db/queries/decisions.go:167-176 | removes exactly the rows soft-deleted more than 90 days ago, and counts them |
| `DecisionStore.DecisionStore.SoftDeleteExpiredDecisions` | internal/db/queries/decisions.go:178-188 | marks exactly the undeleted expired rows deleted, touching only the three sync columns, and counts them |
| `DecisionStore.DecisionStore.DeleteDecision` | internal/db/queries/decisions.go:234-241 | marks the row of that uuid deleted whatever its origin, touching only the three sync columns; an unknown uuid changes nothing |
| `DecisionStore.DecisionStore.UpsertUpstreamDecision` | internal/db/queries/decisions.go:243-255 | inserts the row without a machine, or revives the existing one with the new expiry and no other column changed |
| `DecisionStore.DecisionStore.MarkUpstreamDecisionDeleted` | internal/db/queries/decisions.go:257-264 | marks the row deleted only if its origin is upstream-capi, touching only the three sync columns |
| `DecisionStore.DecisionStore.Clean` | cmd/serve/serve.go:173-186 | the cleaner's tick leaves the active rows of every later instant unchanged and no row expired at the sweep undeleted |
| `Follower.Follow` | internal/db/queries/decisions.go:46-145 | an agent applying the class's answer by uuid ends up holding exactly what the atomic pull of the runs leaves it with |
| `Delivery.Reachable` | internal/db/queries/decisions.go:46-145 | the invariant over all runs: table, cursors, pulls in progress and what every agent holds stay in agreement |
| `Delivery.InterleavedDelivery` | internal/db/queries/decisions.go:46-145 | after an interleaved pull the agent holds each uuid live at t1 whose last write is stamped by t1 and in no earlier (t1, t3], and, if punctual, lacks each deleted or purged one whose last write is stamped by t2 and in no earlier (t2, t3] |
| `Delivery.AgreementLasts` | internal/db/queries/decisions.go:134-139 | the same agreement at every instant of every run, until the uuid is written again |
| `Delivery.PurgeNeverOutruns` | internal/db/queries/decisions.go:110-117 | in every run a uuid written after a machine's cursor is still a row for the 90 days after that cursor |
| `Delivery.AbortLeavesAgent` | internal/db/queries/decisions.go:73-144 | in every run a pull in progress can fail at any instant, which changes neither cursor nor what the agent holds, and the machine can pull again |
| `Delivery.OnTimeIsPunctual` | internal/db/queries/decisions.go:110-117 | in interleaved runs, a machine that selects its deleted rows within 90 days of its cursor at every pull is punctual throughout |
| `ExactDelivery.DeletionMissedIff` | internal/db/queries/decisions.go:110-139 | for every run and every deleted or purged uuid whose last write the cursor has passed: the agent still holds it iff it had it when the write came, and the write lies in a deletion gap or the row was purged before the select that asked for it |
| `ExactDelivery.PunctualMissesOnlyInGaps` | internal/db/queries/decisions.go:110-139 | with punctual pulls: iff it had it and the write lies in a deletion gap |
| `ExactDelivery.LiveRowHeldIff` | internal/db/queries/decisions.go:61-93 | for every undeleted row whose last write the cursor has passed: the agent holds it iff it had it before and made no startup pull since, or the write is in no (t1, t3] and some pull selected the row unexpired |
| `ExactDelivery.CreationMissedIff` | internal/db/queries/decisions.go:86-139 | a row never written before and unexpired at the last new select is missed iff its creation lies in a (t1, t3] |
| `AtomicPulls.MovesCompose` | internal/db/queries/decisions.go:46-145 | the four statements of a pull at one instant amount to one move; runs of moves are runs of statements |
| `AtomicPulls.OnTimeIsNotLate` | internal/db/queries/decisions.go:167-176 | a machine whose delta pulls all come within 90 days of their cursors is never late |
| `AtomicPulls.DeltaRefinesSnapshot` | internal/db/queries/decisions.go:61-132 | a delta pull leaves an agent with exactly the unexpired uuids of a startup pull at that instant; any extra is an expired row not yet swept |
| `AtomicPulls.SweptPullIsExact` | internal/db/queries/decisions.go:178-188 | the first pull after a sweep leaves only extras that expired since; right after it, none |
| `Purging.InterleavedPurgeInvisible` | internal/db/queries/decisions.go:166-176 | leaving out every purge of an interleaved run changes no cursor and no pull's times, adds nothing to what an agent holds, and changes nothing for the uuids last written outside its gaps that are live, or gone with punctual pulls |
| `Purging.PurgeInvisible` | internal/db/queries/decisions.go:166-176 | in runs with indivisible pulls, leaving out every purge changes no cursor, and not what any agent holds unless one of its pulls came too late |
| `StreamLimits.GapSkipsWrite` | internal/db/queries/decisions.go:86-139 | for any times, a row created between select and cursor write is missed by that pull and by the next delta |
| `StreamLimits.GapSkipsDeletion` | internal/db/queries/decisions.go:110-139 | for any times, a row an agent holds that is deleted between deleted select and cursor write is still held after that pull and the next delta |
| `StreamLimits.LateAgentKeepsPurged` | internal/db/queries/decisions.go:110-117 | for any times, an agent returning more than 90 days after a deletion can keep a purged uuid |
| `StreamLimits.TiedWriteIsSkipped` | internal/db/queries/decisions.go:91 | a write stamped at the cursor is in neither delta select |
| `Signals.SignalService.ProcessSignals` | internal/service/signal.go:33-166 | batches over 250 and unknown or blocked machines add nothing; otherwise the nested loops amount to considering the decisions of the accepted signals in order |
| `Signals.SignalService.ProcessDecision` | internal/service/signal.go:126-163 | one decision: skipped if incomplete, invalid, allowlisted or already decided on, else one local-signal row |
| `Signals.IngestedRows` | internal/service/signal.go:143-162 | the rows added are exactly those of the stored decisions, each built from its decision; all other rows are kept |
| `Signals.OneDecisionExactly` | internal/service/signal.go:126-162 | a decision adds its row, column by column, iff it is a ban or captcha on an Ip, Range or Country its parser accepts, no unexpired allowlist entry names it and no active row of any origin decides on it; else nothing changes |
| `Signals.AddedRowsAreLawful` | internal/service/signal.go:126-162 | every row a batch adds comes from such a decision on a target free when the batch began |
| `Signals.OffersConcat` | internal/service/signal.go:46-126 | batches compose: signals and decisions are taken in order |
| `Signals.OffersOfOne` | internal/service/signal.go:47-123 | a signal is stored and its decisions are considered in order iff its scenario has at most 1024 bytes, its labels at most 4096, and its own insert succeeds |
| `Signals.StoredIff` | internal/service/signal.go:127-142 | a decision is stored iff it is eligible, no earlier row is active on its target, and every earlier stored decision of the batch on it has expired |
| `Signals.BatchIsFirstWins` | internal/service/signal.go:46-164 | in a steady batch every eligible target without an active row gets exactly one row, built from its first eligible decision |
| `Signals.ZeroDurationStoresTwice` | internal/service/signal.go:144-149 | with a zero duration two decisions on one target both get a row |
| `LocalDecisions.OneActiveLocalDecision` | internal/service/signal.go:138-162 | in every run without a race that mixes the check and insert statements of any number of requests with all other writers, a target has at most one active local-signal row from the last event on |
| `LocalDecisions.OnlyRacesBreakIt` | internal/service/signal.go:138-162 | such a run keeps this after each event iff no insert adds a live row while a row inserted on the target since its check is active |
| `LocalDecisions.UninterruptedIsRaceFree` | internal/service/signal.go:138-162 | there is no race if no other insert on a decision's target comes between its check and its insert |
| `LocalDecisions.CheckThenInsertRaces` | internal/service/signal.go:139-162 | for any two eligible decisions on a target and any times, two checks before two inserts leave two active rows |
| `LocalDecisions.BatchIsEvents` | internal/service/signal.go:46-164 | a batch is a run of such statements, wherever it comes in a run |
| `SyncProtocol.Reachable` | internal/upstream/sync.go:166-289 | the invariant over all interleavings of all replicas, with crashes and failures |
| `SyncProtocol.AtMostOneSyncing` | internal/upstream/sync.go:179-186 | in every run at most one replica is between lock and unlock |
| `SyncProtocol.FetchesAreSpaced` | internal/upstream/sync.go:188-201 | once a sync has persisted N, every later fetch by any replica comes at N + 2h or later |
| `SyncProtocol.RecordedFetchesAreSpaced` | internal/upstream/sync.go:28-30 | two fetches with a persisted sync between them are at least 2h apart |
| `SyncProtocol.FailedFetchIsRetried` | internal/upstream/sync.go:218-289 | in any run, at any instant the interval allows a fetch: it may fail, its state write may fail or the replica may crash, and the next fetch by any replica may follow after any gap, even none |
| `SyncProtocol.UnrecordedFetchIsRepeatable` | internal/upstream/sync.go:188-201 | any run, with any sync in progress, in which nothing was persisted since a fetch can go on with another fetch at any instant from now on, by any replica |
| `SyncProtocol.SpacingForcedIff` | internal/upstream/sync.go:28-30 | in every run, all later fetches are forced to come 2h or more after a fetch iff a sync was persisted since, or the 2h are over |
| `SyncProtocol.SnapshotsAnchorDeltas` | internal/upstream/sync.go:203-289 | last_startup_at and last_sync_at are set together and in order; deltas are chosen at most 24h after a completed snapshot; at most 12 complete between two snapshots |
| `SyncProtocol.StartupChosenIff` | internal/upstream/sync.go:203-208 | in every run a sync asks for a full snapshot iff none has completed or the last completed one is more than 24h old |
| `SyncProtocol.LastSnapshotIs` | internal/upstream/sync.go:264-276 | the last completed snapshot is the latest startup sync whose state was persisted |
| `SyncProtocol.BoundIsTight` | internal/upstream/sync.go:203-208 | runs with every number of deltas up to 12 exist |
| `SyncProtocol.SoloSync` | internal/upstream/sync.go:166-289 | the protocol's steps taken by one undisturbed replica change the row as one call of sync() does |
| `UpstreamSync.Syncer.Sync` | internal/upstream/sync.go:166-296 | the whole call: lock released, skipped iff 2h are not over, startup iff no snapshot in the last 24h, response applied, exactly which state is persisted, counts right |
| `UpstreamSync.Syncer.ApplyResponse` | internal/upstream/sync.go:224-258 | the two loops equal the two folds, and count the statements that succeeded |
| `UpstreamSync.LifetimeIs` | internal/upstream/sync.go:228-241 | an item's row lives for its duration from the server clock, or 24h if that is zero or does not parse |
| `UpstreamSync.CountStoredIs` | internal/upstream/sync.go:242-258 | the counts are the numbers of items whose statements succeeded |
| `UpstreamSync.ResponseIsMapUpdate` | internal/upstream/sync.go:224-258 | uuid by uuid, the two folds equal a map update decided by the first and last item to reach it |
| `UpstreamSync.DeletedAreDead` | internal/upstream/sync.go:249-258 | every target in Deleted is dead afterwards as of its last occurrence, even if it is in New too, and its other columns are kept |
| `UpstreamSync.AddedAreLive` | internal/upstream/sync.go:224-247 | every target in New only is live until wall clock plus duration of its last occurrence (plus 24h for a zero or unparsable one); an existing row keeps all other columns, a new one has those of the first occurrence |
| `UpstreamSync.OthersUnchanged` | internal/db/queries/decisions.go:243-264 | rows of other origins, and rows no item names whose statement succeeds, are unchanged |
| `UpstreamSync.DerivedUuidsCollisionFree` | internal/upstream/sync.go:16-26 | derived uuids separate the targets of a response when scopes have no NUL and the digests at hand do not collide |
| `UpstreamUuid.UpstreamDecisionUUID` | internal/upstream/sync.go:19-26 | the overlaid digest printed as a 36-character uuid of version 5 and the RFC 9562 variant |
| `UpstreamUuid.UuidSpellsDigest` | internal/upstream/sync.go:20-25 | the text without dashes is the hex of the first 16 digest bytes, but for version 5 in the high half of byte 6 and the variant in the top two bits of byte 8 |
| `UpstreamUuid.FormatInjective` | internal/upstream/sync.go:24-25 | the printed uuid determines the 16 bytes |
| `UpstreamUuid.MessageInjective` | internal/upstream/sync.go:20 | the hashed message determines scope and value if the scopes have no NUL |
| `UpstreamUuid.NulIsAmbiguous` | internal/upstream/sync.go:20 | a NUL in a scope makes two targets share a message |
| `RateLimiter.IpRateLimiter.Allow` | internal/api/router.go:39-57 | prunes and answers like the specification step; admits iff fewer than limit log entries are later than now - window; other addresses' logs untouched |
| `RateLimiter.RecentConcat` | internal/api/router.go:45-50 | pruning keeps the order of what it keeps |
| `RateLimiter.WithinCounts` | internal/api/router.go:51-54 | the admissions counted in an interval are those later than its start and not later than its end |
| `RateLimiter.PrunedIsRecentHistory` | internal/api/router.go:42-55 | in every run the stored log is the whole admission history filtered to the last window |
| `RateLimiter.PruningIsInvisible` | internal/api/router.go:45-50 | the limiter admits exactly what one that never prunes admits |
| `RateLimiter.RefusedExactlyAtLimit` | internal/api/router.go:51-54 | a request is refused iff limit admissions lie in (now - window, now] |
| `RateLimiter.WindowHoldsAtMostLimit` | internal/api/router.go:27-33 | no half-open interval of window length holds more than limit admissions of one address |
| `RateLimiter.LogsStaySmall` | internal/api/router.go:51-55 | stored logs never exceed the limit |
| `Grouping.GroupNew` | internal/api/v2/decisions.go:77-99 | one group per (scenario, scope) in first-occurrence order, each the order-preserving filter of the input |
| `Grouping.GroupDeleted` | internal/api/v2/decisions.go:101-114 | the same for deleted values by scope |
| `Grouping.KeysInFirstOccurrenceOrder` | internal/api/v2/decisions.go:86-90 | the keys are those that occur, distinct, ordered by first occurrence |
| `Grouping.SelectFilters` | internal/api/v2/decisions.go:91-94 | a group holds exactly the elements with its key, and no listed group is empty |
| `Grouping.SelectInOrder` | internal/api/v2/decisions.go:91-94 | within a group the elements are in input order |
| `Grouping.NewGroupReads` | internal/api/v2/decisions.go:81-95 | each returned new group has the scope of some row and its scenario ("" if none), and lists seconds and value of exactly the rows with both, in order |
| `Grouping.DeletedGroupReads` | internal/api/v2/decisions.go:101-110 | the same for a returned deleted group: scope, and values in order |
| `Grouping.GroupsPermute` | internal/api/v2/decisions.go:81-99 | the flattened groups are a permutation of the input |
| `Grouping.NewListPermutes` | internal/api/v2/decisions.go:77-99 | the returned list of new groups holds each (scenario, scope, item) as often as the input |
| `Grouping.DeletedListPermutes` | internal/api/v2/decisions.go:101-114 | the same for the returned list of deleted groups, scope and value |
| `Allowlists.AllowlistStore.UpsertManagedAllowlist` | internal/db/queries/allowlists.go:86-99 | creates or relabels the list, marks it managed, returns its id; entries untouched |
| `Allowlists.AllowlistStore.SyncManagedEntries` | internal/db/queries/allowlists.go:102-127 | all or nothing: on success one list's entries are replaced, on any failure no entry changes |
| `Allowlists.AllowlistStore.LoadFile` | internal/allowlists/loader.go:51-85 | success: the map update; failure at i: the earlier definitions applied, of i at most its labels, later ones not |
| `Allowlists.InsertedContents` | internal/db/queries/allowlists.go:116-124 | inserting in order leaves the last comment of each (scope, value), without expiry |
| `Allowlists.UsableEntriesSame` | internal/allowlists/loader.go:61-73 | skipping entries with an empty scope or value first does not change what is asked for |
| `Allowlists.LoadedView` | internal/allowlists/loader.go:51-83 | up to ids and timestamps, the statements of a load are a map update by name |
| `Allowlists.LoadedIsLastDefinition` | internal/allowlists/loader.go:51-83 | each named list is what its last definition says, managed; unnamed lists are untouched |
| `Allowlists.DefinedExactly` | internal/allowlists/loader.go:61-73 | a definition asks for its labels, managed, and exactly its entries with non-empty scope and value, each without expiry and with the comment of its last mention |
| `Allowlists.LoadsIff` | internal/allowlists/loader.go:51-78 | a file loads iff every list has a name and none of its statements fails |
| `Allowlists.LoadErrorMeans` | internal/allowlists/loader.go:52-78 | the error names the first list that does not load, and why |
| `Allowlists.LoadIdempotent` | internal/allowlists/loader.go:36-39 | loading twice is loading once |
| `Allowlists.AllowlistedIffListed` | internal/db/queries/allowlists.go:12-20 | a target is allowlisted iff some list contains exactly it in an unexpired entry |
| `Secrets.Settings.GetOrCreateJWTSecret` | internal/db/queries/settings.go:16-47 | returns and keeps the stored secret, or stores and returns the generated one |
| `Secrets.SecretAgreement` | internal/db/queries/settings.go:12-47 | in every run all replicas that get a secret get the same one, stored initially or proposed by one of them; it never changes |
| `Secrets.SoloCall` | internal/db/queries/settings.go:16-47 | one replica alone stores what it generated, or takes what is there |
| `Secrets.FailedReadGoesOn` | internal/db/queries/settings.go:19-46 | a failing first read is no error: the call ends with the stored secret, which is kept |
| `Secrets.LaterFailuresEnd` | internal/db/queries/settings.go:24-45 | any later failure ends the call with its own error and leaves the stored secret as it is |
| `Hex.RoundTrip` | internal/db/queries/settings.go:29-46 | hex decoding undoes hex encoding for all byte strings |
| `Hex.DecodesIff` | internal/db/queries/settings.go:21 | exactly the even-length strings of hex digits decode |
| `Hex.EncodeDigits` | internal/db/queries/settings.go:29 | each byte becomes two lower-case digits, the high one first |
| `Hex.DecodeErrors` | internal/db/queries/settings.go:21 | which of the two decoding errors a text gives |
| `Decimal.ParseFormatInt` | internal/api/v2/decisions.go:164 | printing and parsing an integer is the identity on 64 bits, and anything wider is rejected |
| `Decimal.DigitAt` | internal/auth/jwt.go:50 | the i-th printed digit from the right is the one that remains of the number without its last i digits |
| `Decimal.DigitCount` | internal/auth/jwt.go:50 | as many digits are printed as the number needs, without leading zeros |
| `Decimal.ParseDigitsReads` | internal/api/v2/decisions.go:164 | digits are read as the number they spell after leading zeros |
| `Decimal.ParseIntReads` | internal/api/v2/decisions.go:164 | an optional sign and digits are read if the number fits into 64 bits |
| `Decimal.ParseIntRejects` | internal/api/v2/decisions.go:164 | nothing else is read |
| `SignedUrls.MessageInjective` | internal/auth/jwt.go:50 | name:exp is unambiguous for every name, colons included |
| `SignedUrls.ValidatesExactly` | internal/auth/jwt.go:48-66 | a token validates for exactly the name and expiry it was made for, and exactly until that expiry |
| `SignedUrls.OnlySignedValidate` | internal/auth/jwt.go:57-66 | whatever a request brings, it validates iff its expiry is not past and its token is the hex MAC of its own name and expiry |
| `SignedUrls.AdmittedIff` | internal/api/v2/decisions.go:162-168 | a request is admitted iff its exp parameter is an integer not yet past and its token is signed for it |
| `SignedUrls.RouteOnly` | internal/api/router.go:186 | only a path of the download form reaches the handler |
| `SignedUrls.LinkOpensExactly` | internal/api/v2/decisions.go:158-168 | the query of a download link admits exactly its own name, exactly until it expires |
| `SignedUrls.LinkIsServed` | internal/api/v2/decisions.go:152-168 | the whole built URL, followed and parsed into path, name and query, serves the list it was made for iff it has not expired, the name has no '/', '?' or '#', and the name survives decoding |
| `SignedUrls.RenamedLinkServesNothing` | internal/api/v2/decisions.go:158-168 | with another name in its path the link serves nothing |

## Left out

- PostgreSQL, HTTP, JSON, YAML, the web UI, OIDC, bcrypt and session tokens: library behaviour around the modelled core.
- Transactions that become visible after the instant they are stamped with, and statements that fail silently: a failed cursor read that turns into a startup pull, dropped dedup lookup errors, ignored sync-state reads.
- Loss of the advisory lock's database session while its replica keeps running, the ten-minute timeout of a sync, and clock skew between replicas.
- Upstream registration, enrollment and approval polling: network waiting outside the lock.
- Agents of the v3 stream that key on values: a deleted group names only values, and two rows may share one.
- That the table equals the upstream list after a snapshot: rows missing from a snapshot are not deleted.
- The numeric id column, list ids beyond their uniqueness, pagination, search, statistics and metrics.
- The columns of a stored signal other than machine and scenario, and how its source address is chosen.
- Duration texts: durations are integers, and parsing them (like parsing addresses and upper-casing country codes) is an input of the model.
- SHA-1, HMAC-SHA256 and random uuids: inputs, with collision freedom assumed only for the messages or uuids at hand.
- Percent-decoding of links: what the URL libraries make of a path segment is an input, assumed not to make it longer.
- Manual allowlist editing and deletion, enrollment keys, machine registration: short statements with little to relate.
- Delivery.InterleavedDelivery: says nothing of uuids last written inside a gap, because the code misses those; `ExactDelivery` says exactly which.
- Purging.InterleavedPurgeInvisible: says nothing of undeleted rows that had expired by the machine's last new select, nor of uuids last written inside a gap.
- RateLimiter.PrunedIsRecentHistory: needs a positive window; with any window the decisions still agree (`RateLimiter.PruningIsInvisible`).
