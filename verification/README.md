# Agent Comms: a verified model of its replicated log and the machinery around it

Agent Comms keeps one signed, hash-chained event log per project. An authority appends events and
keeps the projected state in tables; daemons page the log into a local cache and serve reads from
it; a dispatcher delivers invocations to runtimes; two providers are driven through a shared
subprocess and a terminal. This project models those parts and proves what they promise.

| files | what they model |
|---|---|
| `Contracts.dfy`, `Cursor.dfy`, `Paging.dfy` | events, hashes, receipts, range verification, cursors, pages |
| `Projection.dfy`, `Authority.dfy`, `AuthorityRuns.dfy` | the fold of a log, diff persistence, `Mutate`, whole runs of it |
| `LocalCache.dfy`, `Replication.dfy`, `SingleFlight.dfy` | the cache, every interleaving of commits and applies, sync, the command path, shared syncs |
| `Backfill.dfy` | the replay and guarded rewrite of stored collections |
| `Delivery.dfy`, `Dispatcher.dfy`, `Routing.dfy` | delivery attempts, the dispatch pass, runtime selection |
| `RateLimit.dfy` | the token buckets of the HTTP authority |
| `Multiplexer.dfy`, `AppServer.dfy` | the shared app-server process, its callers and its observers |
| `Terminal.dfy`, `Echo.dfy` | the terminal tee and the echo matcher |
| `Providers.dfy` | provider names and agent identifiers |
| `Drafts.dfy` | the two draft stores |

Conventions. Projection of one event is an arbitrary deterministic partial function. A hash is a
datatype constructor over the fields it covers, so equal hashes mean equal contents; a receipt is
genuine if the service key's signature on this project appears only on receipts the log has
released. One transaction is one atomic step, and its commit may succeed, roll back, or succeed with
the reply lost. Clocks, routes, stripping of escape sequences and character classes are parameters.
Classes carry the fields the program updates; each method is tied to a specification function or
relation, and the lemmas speak about runs of that specification.

## What the proofs found

- `env.delete` and `runtime.delete` remove entities (internal/projection/apply.go:389-391, 492-493),
  but the diff write deletes rows of agents only (internal/authority/postgres_projection.go:197-261).
  After such an event the authority's rows differ from the fold of its log (`RemovalDiverges`), a
  caught-up cache disagrees with them (`CaughtUpCacheAgreesWithRows`), and the backfill refuses the
  project (`LeftoverRowRefused`). `RowsTrackFold` gives the exact condition for all runs.
- A sync that joins one already under way may report success without the events it was asked for,
  if the other had fetched its last page before (`MissIff`, `LateJoinerMisses`). A command whose
  cache apply left a gap can so be answered as done (internal/daemon/daemon.go:208-217) before the
  cache holds its event; `Command` is therefore proved for a recovery sync of its own.
- With a burst below one token no caller is ever admitted (`AnyoneAdmittedIff`), and the returned wait
  is then not enough (`RetryAfterWaitIsAdmitted`).
- A clear sequence that is split between two terminal writes is missed (`CutClearIsMissed`);
  `SplitWriteIff` says exactly when that shows.
- The pair search for longer prompts may miss a prompt with enough pairs in order on the screen
  (`GreedyMayMissALongTarget`). `LongMatchIff` says exactly when it matches, `OrderedPairsMatchIff`
  when given pairs suffice, and on a screen that keeps the pairs in order they always do
  (`InOrderMatchIff`).
- A prompt matches any screen exactly if it has no letter or digit (`BlankTextIff`).
- The dispatcher's backoff relies on its clock standing still between the scan for lapsed leases and
  the gate of a retry: `GateIff` says exactly when two readings are as good as one.
- The early refusal in runtime selection never changes the outcome (`InteractiveOnly`).

## Model

| member | source | states |
|---|---|---|
| Contracts.HashIdentifiesEvent | internal/controlplane/contracts.go:347-392 | Two events whose stored hashes verify carry the same hash if and only if they agree on every hashed field, payloads compared by canonical value. |
| Contracts.IntentIdentifiesCommand | internal/controlplane/contracts.go:223-250 | Two commands have the same intent hash if and only if they agree on everything but the signature, payloads compared by value. |
| Contracts.PayloadSpelling | internal/controlplane/contracts.go:223-250 | The intent hash does not see how a payload is spelled, takes an absent one for the empty object, and exists unless the payload is no JSON. |
| Contracts.ReceiptIsSealed | internal/controlplane/contracts.go:319-340 | A signed receipt verifies under exactly the key that signed it and with exactly the content that was signed. |
| Contracts.VerifiedEvent | internal/controlplane/contracts.go:382-392 | An event verifies by its hash alone, unless its key says that it was imported; then it also has to be complete. |
| Contracts.BoundedLimit | internal/controlplane/contracts.go:196-204 | A page size is accepted exactly from 0 to 500, 0 standing for 100; anything else is a validation error, and a page never asks for nothing. |
| Contracts.VerifyRange | internal/authority/postgres.go:175-227 | The loop over the selected rows returns the verdict of the recursive chain condition: `to` before `from`, a missing predecessor, a gap, a broken link, a bad hash and a bad receipt are each refused. |
| Contracts.VerifyChain | internal/authority/postgres.go:195-226 | The loop that carries the expected sequence and the previous hash accepts exactly the chained rows. |
| Contracts.RangeMeaning | internal/authority/postgres.go:175-227 | The verdict in full: validation for an inverted range, integrity without the row before it, and otherwise success exactly if every selected row has the expected sequence, the hash before it, its own hash right and a receipt of the service. |
| Contracts.RangesCompose | internal/authority/postgres.go:175-227 | When row b is there, verifying [a,c] succeeds if and only if verifying [a,b] and [b+1,c] both succeed, on any ordered table and for bounded and unbounded c. |
| Contracts.ChainedLogVerifies | internal/authority/postgres.go:175-227 | A log that chains from sequence 1 verifies over exactly the ranges that are not inverted and whose predecessor exists. |
| Contracts.HeadDeterminesHistory | internal/controlplane/contracts.go:347-392 | Two logs that verify from sequence 1, even under different keys, and end in the same head hash have equal length and equal events, up to payload spelling. |
| Cursor.Base64Inverts | internal/controlplane/contracts.go:394-411 | Decoding undoes encoding for every byte string (unpadded URL-safe alphabet). |
| Cursor.CursorRoundTrip | internal/controlplane/contracts.go:394-411 | A cursor reads back as the sequence it was made from if and only if that sequence fits in 64 bits. |
| Cursor.EncodingIsSixBitsEach | internal/controlplane/contracts.go:394-396 | The i-th symbol of an encoding stands for the i-th six bits of the bytes in the order of the URL-safe alphabet, and there are as many symbols as the bits need. |
| Cursor.DecodesIff | internal/controlplane/contracts.go:398-411 | A string decodes if and only if all its characters are of the alphabet and no lone one is left at the end; four give three bytes. |
| Cursor.ScanReads | internal/controlplane/contracts.go:403-411 | A decoded cursor is read as the digits behind its blanks, whatever follows them, and refused if the number does not fit in 64 bits. |
| Cursor.ForeignCharacterIsRefused | internal/controlplane/contracts.go:398-411 | A cursor with a character outside the alphabet, line ends aside, is a validation error. |
| Paging.ReadPage | internal/authority/postgres.go:123-173 | Fetching limit+1 rows and cutting the last gives the page specification: the next rows after the cursor, and a cursor exactly when more follow. |
| Paging.LaterPage | internal/authority/postgres.go:123-173 | The page of a chained log at the cursor of n: the next records up to the limit, a cursor for the last exactly when more follow, and as server sequence that of the last record or n. |
| Paging.ReadersSeeWholeLog | internal/authority/postgres.go:123-173 | Whoever reads a chained log from the empty cursor and follows the cursors until there is none gets every record once and in order, with any accepted limit; and such a reading exists. |
| Paging.ServerSequence | internal/authority/postgres.go:160-172 | A page's server sequence is that of its last record, or what was asked for if it has none. |
| Paging.BadRequest | internal/authority/postgres.go:123-131 | A page is refused, as a validation error, exactly for a bad limit or a bad cursor. |
| Projection.FoldIgnoresSpelling | internal/controlplane/contracts.go:347-372 | Logs that agree up to payload spelling fold to the same state. |
| Projection.Tables.PersistKind | internal/authority/postgres_projection.go:400-462 | After the upserts of one collection, and for agents the deletes, the rows agree with the new state if and only if the change is one that survives; other collections are untouched. |
| Projection.Tables.PersistProjectionChanges | internal/authority/postgres_projection.go:197-261 | On rows that load as `before`, writing the difference and reloading yields `after` if and only if every collection persists; and whenever all entries find their rows it yields `after` with the removed entries of every collection but agents left in. |
| Projection.KindPersistsIff | internal/authority/postgres_projection.go:400-462 | A collection persists if and only if each entry is unchanged, or is no blank new one and (agents and tasks) filed under its own ID, and nothing but agents was removed. |
| Projection.RemovalIsNotPersisted | internal/projection/apply.go:386-391 | Removing an entity is written back if and only if the entity is an agent. |
| Projection.EnvDeletionIsLost | internal/projection/apply.go:492-493 | Deleting an environment entry leaves its row: a concrete state on which the diff write is not exact. |
| Authority.Engine.CreateProject | internal/authority/postgres.go:229-237 | Creation succeeds for non-blank names only, is idempotent on an existing project, and leaves other projects alone. |
| Authority.Engine.Mutate | internal/authority/postgres.go:313-457 | One transaction is one step of the commit relation: replay, refusal, rollback or a commit that appends one record, moves the head, writes rows by difference and queues the event; other projects stay as they were. Who may append, and what, is `OnlyEntitledCommandsAppend`. |
| Authority.Engine.Events | internal/authority/postgres.go:123-173 | Reading returns the page specification on the project's log; with no cursor that is its first records, 100 of them by default. |
| Authority.AuthorityServesWholeLog | internal/authority/postgres.go:123-173 | Reading a project page by page from the empty cursor yields its whole log, with any accepted limit. |
| Authority.Engine.VerifyRange | internal/authority/postgres.go:175-227 | Range verification returns the chain verdict on the project's log. |
| Authority.StorageKeepsEvent | internal/authority/postgres.go:396-440 | What is read back from the database still verifies and still matches its receipt, although the database keeps microseconds and rewrites payload spelling. |
| Authority.UntruncatedTimeBreaksHash | internal/authority/postgres.go:344-408 | Without truncating the clock to microseconds first, an event would fail verification after storage. |
| Authority.NewRecordHolds | internal/authority/postgres.go:396-440 | The new record extends the chain: next sequence, link to the head, correct hash, matching signed receipt. |
| Authority.CommitKeepsLog | internal/authority/postgres.go:313-457 | A commit keeps the log invariant: chained from 1, head equal to the last row, keys unique, outbox equal to the log. |
| Authority.EventIdsAreUnique | internal/authority/postgres.go:401-408 | No two events of a log share an event ID; each is `evt-` and twenty digits, as long as sequences have no more. |
| Authority.FoundKeyStays | internal/authority/postgres.go:459-485 | An idempotency key, once found, is found at the same event however the log grows. |
| AuthorityRuns.RunKeepsLog | internal/authority/postgres.go:313-457 | In every run each project satisfies the log invariant, and the log only grows at its end. |
| AuthorityRuns.ReachedLogVerifies | internal/authority/postgres.go:175-227 | Every log a run can reach verifies over exactly the ranges whose predecessor exists. |
| AuthorityRuns.OnlyEntitledCommandsAppend | internal/authority/postgres.go:344-440 | In every run a project changes only by a command under a new key that is complete, issued within 300 seconds of the truncated clock, decodes, verifies under its actor's signing key and is admitted; and then one event is appended with that actor, kind, entity, admitted payload, clock and key fingerprint, and a receipt signed by the service. |
| AuthorityRuns.EntitledCommandsAppend | internal/authority/postgres.go:344-440 | Conversely, whenever such a command folds and is not rolled back exactly one event is appended, and it is answered with that event. |
| AuthorityRuns.RefusedCommands | internal/authority/postgres.go:344-395 | Any other command under a new key leaves the project as it was and is answered with the first objection the source would raise. |
| AuthorityRuns.LandsAfterExpected | internal/authority/postgres.go:367-372 | A command that commits with non-zero expected sequence k lands at k+1. |
| AuthorityRuns.OriginalStays | internal/authority/postgres.go:459-485 | The event a key committed is the one that key finds at every later point of the run. |
| AuthorityRuns.AtMostOnce | internal/authority/postgres.go:335-372 | After a key has committed, no call with that key changes log or rows; the same intent gets the original event and receipt, a different intent is refused as a conflict. |
| AuthorityRuns.CommitTracksFold | internal/authority/postgres.go:374-430 | A commit over rows equal to the fold leaves rows equal to the fold if and only if its change survives the diff write. |
| AuthorityRuns.RowsTrackFold | internal/authority/postgres_projection.go:26-165 | Throughout a run the rows equal the fold of the log if and only if every committed event is one the diff write can carry. |
| AuthorityRuns.FreshProjectIsFaithful | internal/authority/postgres.go:229-237 | A new project's rows equal the fold of its empty log. |
| AuthorityRuns.RemovalDiverges | internal/projection/apply.go:386-391 | Committing the removal of anything but an agent over faithful rows leaves the rows as they were, and so different from the fold. |
| LocalCache.Cache.Apply | internal/localcache/cache.go:132-197 | Applying an event changes the project's view by the verdict specification, all or nothing, and no other project's view. |
| LocalCache.Cache.VerifyRange | internal/localcache/cache.go:322-381 | The cache verifies ranges by the same chain verdict as the authority, so composition holds for both. |
| LocalCache.Cache.Events | internal/localcache/cache.go:223-272 | The cache serves the same page specification as the authority; with no cursor that is the first records it holds. |
| LocalCache.CacheServesAllItHolds | internal/localcache/cache.go:223-272 | Reading a mirror page by page from the empty cursor yields all the events it holds. |
| LocalCache.TamperedIsRefused | internal/localcache/cache.go:132-148 | An event is refused as an integrity error exactly unless its receipt is signed by the service and names its project, sequence, ID, hash and intent, and its hash is right. |
| LocalCache.CheckedEventVerdict | internal/localcache/cache.go:149-197 | Any other event, logged or not: one the cache is past must repeat the cached one or is a conflict, one that does not continue the chain is a stale precondition, and the next one is appended and folded, or refused if it does not fold. |
| LocalCache.AcceptedEventIsLogged | internal/localcache/cache.go:132-160 | An event whose hash and genuine receipt verify is an event of the authority's log, at its own sequence. |
| LocalCache.LoggedEventVerdict | internal/localcache/cache.go:160-197 | On a view that mirrors a prefix, a logged event is a no-op if known, accepted exactly if it is the next one and folds, and refused if it leaves a gap. |
| LocalCache.ApplyKeepsMirror | internal/localcache/cache.go:132-197 | Whatever event and genuine receipt is presented, the view still mirrors a prefix of the log and does not shrink. |
| LocalCache.MirrorMeaning | internal/localcache/cache.go:479-496 | A mirroring view has the prefix's fold as state, its last hash as head, and verifies over exactly the ranges whose predecessor it holds. |
| Replication.EveryInterleavingMirrors | internal/daemon/daemon.go:203-217 | In every interleaving of commits with applies of any events, duplicated, early or out of order, the cached events are a prefix of the log with its fold and head, and neither ever goes back. |
| Replication.FreshStart | internal/localcache/cache.go:479-496 | A new project and a fresh cache begin such an interleaving. |
| Replication.CaughtUpCacheAgreesWithRows | internal/authority/postgres_projection.go:26-165 | A cache that has caught up holds the state the authority's rows hold if and only if those rows are faithful to the log. |
| Daemon.PageOfLog | internal/authority/postgres.go:123-173 | A page of a chained log is its next stretch, with a cursor for the last item exactly when more follows. |
| Daemon.FetchesAre | internal/daemon/daemon.go:417-446 | Catching up on n records takes a page for every 500, and one if nothing is missing. |
| Daemon.Daemon.SyncProject | internal/daemon/daemon.go:417-446 | Sync terminates from any mirrored prefix and visits each missing record once and in order; it succeeds exactly when every page it needs is answered and the log folds, and then the cache holds the whole log. |
| Daemon.Daemon.ApplyPage | internal/daemon/daemon.go:428-439 | Applying a page advances the mirror record by record, stopping at the first that does not fold. |
| Daemon.Daemon.Command | internal/daemon/daemon.go:176-245 | Commit-then-apply keeps the mirror whatever happens; on success the cache holds the committed event, under the command's own key and intent; and it does succeed when the authority answered, its log folds and its pages can be fetched. The authority takes exactly its own step. |
| Daemon.NextRecord | internal/daemon/daemon.go:428-439 | The next logged record is accepted if and only if it folds, and extends the view by exactly one. |
| SingleFlight.OneFlightAtATime | internal/daemon/daemon.go:394-415 | In every run at most one sync of a project is under way, and a caller whose flight is over can always leave. |
| SingleFlight.EnterMeaning | internal/daemon/daemon.go:394-415 | A caller joins the flight of the leader that is still waiting if there is one, and otherwise opens a flight and leads it. |
| SingleFlight.FlightProceeds | internal/daemon/daemon.go:417-446 | In every run a flight under way can take its next step: it starts at the cached sequence, fetches pages of 500, applies them record by record, a known one counting as applied, and closes after the last; it may fail at any time. |
| SingleFlight.SyncCanFinish | internal/daemon/daemon.go:394-446 | Any sync under way can be carried through; the cache then holds what the log held at its last fetch, and the whole log if that was still to come. |
| SingleFlight.SuccessIsFresh | internal/daemon/daemon.go:394-446 | A caller that asked before its flight fetched its last page, the leader always, is told of success only when the cache holds all the log held when it asked. |
| SingleFlight.MissIff | internal/daemon/daemon.go:394-415 | A waiting caller may be told of success while the cache lacks what the log held when it asked if and only if it joined after the last page was fetched, that fetch was too early, and nobody else has brought the events. |
| SingleFlight.LateJoinerMisses | internal/daemon/daemon.go:203-217 | A run reaches that case: a commit lands after the last fetch, and the sync its command asks for joins that flight. |
| Backfill.ReplayProjectEvents | internal/authority/timestamps_backfill.go:93-140 | Replay succeeds if and only if the rows chain from 1 to the stored head and fold, and then returns that fold. |
| Backfill.ReplaysMeaning | internal/authority/timestamps_backfill.go:93-140 | Rows replay to a state exactly if each has the next sequence, the hash before it and its own hash right, as many as the head says and ending in its hash, and they fold to that state. |
| Backfill.RewriteChangedStates | internal/authority/timestamps_backfill.go:147-169 | One collection is accepted if and only if it has the replayed keys; then its rows equal the replay, exactly as many rows are written as differ from it, and other collections are untouched. |
| Backfill.BackfillProject | internal/authority/timestamps_backfill.go:69-91 | A project is accepted if and only if it replays and all ten collections have the replay's keys; then they equal the replay, and writes are counted as zero exactly when nothing changed. |
| Backfill.EqualSizeInclusion | internal/authority/timestamps_backfill.go:147-155 | A set of the same size that is included in another equals it, which is why the size check and the lookups settle that the keys agree. |
| Backfill.BackfillEntityTimestamps | internal/authority/timestamps_backfill.go:38-67 | All projects or none: one refusal leaves every row of every project unchanged. |
| Backfill.BackfillIsIdempotent | internal/authority/timestamps_backfill.go:38-91 | After a successful run the ten collections agree with the history, and a second run accepts and writes nothing. |
| Backfill.FaithfulProjectPasses | internal/authority/timestamps_backfill.go:69-91 | A project whose rows have followed its log is accepted and left as it is. |
| Backfill.LeftoverRowRefused | internal/authority/timestamps_backfill.go:147-155 | A row that a removal left behind makes the migration refuse the project. |
| Delivery.RunKeepsInv | internal/protocol/transitions.go:1205-1222 | In every run of passes, redeliveries, expiries and other steps, in any interleaving: numbers grow, automatic attempts wait out the backoff of the one before, at most ten are automatic, and a pending invocation has no success. |
| Delivery.BackoffBetweenAutomaticAttempts | internal/daemon/connectors.go:738-741 | In every run the automatic attempt after the k-th failed one starts at least 2, 4, 8, 16, 32, 64, 128, 256 seconds after the first to eighth failure and 300 seconds after every later one, manual attempts in between or not. |
| Delivery.TenAttemptsSpan | internal/daemon/connectors.go:692-741 | Ten automatic attempts of an invocation take at least 810 seconds. |
| Delivery.AttemptsAreCapped | internal/daemon/connectors.go:343-372 | An invocation never gets more than ten automatic attempts, and a failed automatic attempt is final exactly if it was the tenth. |
| Delivery.StartAcceptedIff | internal/protocol/transitions.go:1205-1222 | At any point of a run a delivery may start exactly for an open invocation, with a lease of at most two minutes, on a runtime that has none of it open under a lease, and automatically only after fewer than ten automatic ones; it gets the next number. |
| Delivery.OutcomesAreFinal | internal/protocol/transitions.go:1224-1240 | In every run an outcome is recorded once, of an open attempt: a success while the lease lasts, a failure with a retry that lies ahead or as the last; nothing else about a delivery ever changes. |
| Delivery.NumbersAndLeases | internal/protocol/transitions.go:1205-1222 | In every run the deliveries of an invocation are numbered 1, 2, 3, ..., leases last at most 120 seconds, and no runtime holds two open ones of an invocation under a lease. |
| Delivery.PendingUntilDelivered | internal/projection/apply.go:289-309 | In every run an open invocation is pending if and only if no delivery of it has succeeded. |
| Delivery.ClosedStaysClosed | internal/protocol/transitions.go:1143-1149 | An invocation that is past delivery stays so and gets no delivery any more. |
| Dispatch.DeliveryRetryPending | internal/daemon/connectors.go:692-706 | The scan returns true exactly when some delivery is in flight or its retry time lies ahead. |
| Dispatch.AutomaticDeliveryAttemptCount | internal/daemon/connectors.go:682-690 | The loop counts the automatic attempts of one invocation. |
| Dispatch.DeliveryAttempt | internal/daemon/connectors.go:672-680 | The loop finds the greatest attempt number of one invocation. |
| Dispatch.Dispatcher.ExpireAttempts | internal/daemon/connectors.go:472-502 | Without an error every delivery that had lapsed in the snapshot is recorded as failed with its own backoff, or as final if the automatic attempts are used up; the returned set is exactly their invocations, nothing else is sent, and clients may act in between. |
| Dispatch.Dispatcher.Dispatch | internal/daemon/connectors.go:318-384 | While clients redeliver, report and cancel at any moment, a pass records lapses and then starts one automatic attempt for exactly the invocations due by its snapshot, settling each by whether it could be delivered unless its reservation was sent and refused; none is both expired and restarted, nothing else is sent, and the pass gives up at the first error of any other command and only then. |
| Dispatch.DueMeaning | internal/daemon/connectors.go:326-348 | An invocation is due exactly if it is pending and routable, has had fewer than ten automatic attempts, and no delivery of it is open or has its retry ahead. |
| Dispatch.ScanRecords | internal/daemon/connectors.go:472-502 | A lapsed delivery is recorded as exhausted if it is automatic and ten automatic ones have been made, and otherwise as failed with its retry 2, 4, 8, 16, 32, 64, 128, 256 or 300 seconds ahead by its number. |
| Dispatch.PassRecords | internal/daemon/connectors.go:349-384 | A pass records of an attempt it could not deliver the retry in the same seconds by the number the attempt was given, or, as the tenth automatic one, exhaustion. |
| Dispatch.RedeliveryRecords | internal/daemon/connectors.go:449-470 | A failed redelivery is recorded as exhausted if a client's own or out of automatic attempts, and otherwise with the retry in the same seconds. |
| Dispatch.Dispatcher.AttemptDelivery | internal/daemon/connectors.go:337-382 | A reservation adds at most one automatic attempt, numbered above all before it and leased from now; when all went well it is delivered, or failed with the backoff and finality judged by the snapshot. |
| Dispatch.Dispatcher.DeliverAttempt | internal/daemon/connectors.go:386-418 | A reserved attempt is carried out only while it is open and its lease lasts, and then one outcome is sent: delivered, or failed by policy; what others have settled stays as it was. |
| Dispatch.Dispatcher.RecordDeliveryFailure | internal/daemon/connectors.go:449-470 | A failed redelivery is final if manual or if the automatic attempts are used up, and otherwise carries its own backoff. |
| Dispatch.InFlightPolicy | internal/daemon/connectors.go:457-490 | Counting after the attempt gives the right verdict on finality, because an automatic attempt in flight is always the latest automatic one, whatever has been added since. |
| Dispatch.OutcomeIsLicensed | internal/daemon/connectors.go:343-372 | Counting before the attempt and adding one gives the right verdict on finality, and the backoff of the number it expected is enough, whatever clients have added since. |
| Dispatch.FailureIsLicensed | internal/daemon/connectors.go:449-470 | The failure a redelivery records, judged by its own snapshot, is by policy whatever has happened since. |
| Dispatch.DueIsReady | internal/daemon/connectors.go:328-336 | Whatever clients have done since the snapshot, the automatic attempts of an invocation that was due have all failed and waited long enough. |
| Dispatch.GateIff | internal/daemon/connectors.go:336-336 | With a scan at one clock reading and the gate at a later one, what passes the gate is ready if and only if no automatic lease of the invocation runs out between the two. |
| Routing.SelectRuntime | internal/daemon/connectors.go:504-563 | The choice is the first runtime by name that may serve the invocation, leaving out interactive ones when there are several and none is preferred; a chosen one belongs to the target, is neither draining nor revoked, has room, is of a kind the consumer mode allows, and is online on this host with a project root if interactive, or else configured with its connector; with a preference none is returned only if no preferred runtime may serve. |
| Routing.OnlyRuntimeIsChosen | internal/daemon/connectors.go:504-563 | A runtime that meets that list is chosen when it is the only one; any other alone leaves none. |
| Routing.UnfitChangesNothing | internal/daemon/connectors.go:516-522 | A runtime that is full, draining, revoked or another agent's changes no choice when it is added or removed. |
| Routing.AmbiguityIsRefused | internal/daemon/connectors.go:550-560 | A runtime that meets the list is passed over exactly if it is interactive, none is preferred and another interactive one meets it. |
| Routing.CountedTwo | internal/daemon/connectors.go:533-548 | The counter of interactive candidates exceeds one exactly when two different runtimes are interactive candidates. |
| Routing.InteractiveOnly | internal/daemon/connectors.go:547-551 | The early refusal for interactive-only invocations never changes the outcome of the search. |
| RateLimit.RateRegistry.EvictIdle | internal/authority/http.go:476-482 | The sweep removes exactly the buckets idle for more than ten minutes. |
| RateLimit.RateRegistry.Allow | internal/authority/http.go:472-500 | The answer, the wait and the new table are those of the token-bucket specification, for which `NoRoomIff`, `BurstIsAvailable` and `RetryAfterWaitIsAdmitted` say when a caller is turned away or admitted. |
| RateLimit.EvictionIsUnobservable | internal/authority/http.go:472-500 | With non-decreasing time and rate * 600 s >= burst, every caller that is not turned away for lack of room gets the answers and waits of a registry that never forgets; and the table never exceeds 10,000 buckets. |
| RateLimit.NoRoomIff | internal/authority/http.go:472-486 | In every run whose clock does not go back a call is turned away for lack of room if and only if its key has no bucket and 10,000 other keys were heard within the last 600 seconds. |
| RateLimit.HeardAt | internal/authority/http.go:472-500 | The calls heard and their answers are exactly those not turned away for lack of room, in order. |
| RateLimit.BurstIsAvailable | internal/authority/http.go:487-500 | A key not heard before may call as often at once as its burst has whole tokens, and no oftener. |
| RateLimit.EvictLevel | internal/authority/http.go:476-482 | A bucket idle long enough to be evicted is full, so evicting it changes nobody's level. |
| RateLimit.EvictionIsHarmlessIff | internal/authority/http.go:476-482 | Evicting changes no level on any table if and only if ten idle minutes refill the burst: the condition is exact. |
| RateLimit.TokensAreConserved | internal/authority/http.go:487-500 | What a key was admitted in a window plus what it has left is at most the burst plus what flowed in. |
| RateLimit.AdmissionsAreBounded | internal/authority/http.go:487-500 | In any window of any run a key is admitted at most burst + rate * T times. |
| RateLimit.AdmissionsAre | internal/authority/http.go:487-500 | What is counted are the calls of the key that were admitted. |
| RateLimit.AnyoneAdmittedIff | internal/authority/http.go:487-500 | Some call of some run is admitted if and only if the burst holds a whole token. |
| RateLimit.RetryAfterWaitIsAdmitted | internal/authority/http.go:487-500 | A refused caller that calls again no later than when the returned wait is over, while others call what they like, is admitted if and only if the wait is over and the burst allows a whole token. |
| Multiplexer.RunNeverPanics | internal/codexserve/process.go:202-288 | No interleaving of callers, readers of this and earlier subprocesses, observers, invalidation and restart closes a channel twice or sends to a closed one. |
| Multiplexer.StepKeepsInv | internal/codexserve/process.go:202-288 | Every request channel is in exactly one place (table, one reader's hand, one reader's drained table, replied, closed), and every step keeps it so. |
| Multiplexer.EachCallIsResolvedOnce | internal/codexserve/process.go:247-288 | Each request channel gets at most one reply or one close and never both; a reply carries the call's own number; what the caller returns is that reply or that close. |
| Multiplexer.ResolutionIsFinal | internal/codexserve/process.go:211-244 | No step takes a reply or a close back. |
| Multiplexer.NumbersAreUnique | internal/codexserve/process.go:252-259 | No two calls share a request number. |
| Multiplexer.DeathWakesEveryCall | internal/codexserve/process.go:225-244 | Once the reader of an unreplaced subprocess is done, the table is empty and every registered call has its reply or close, or an earlier reader holds it and its next step hands it over without waiting. |
| Multiplexer.InvalidProcessRefuses | internal/codexserve/process.go:254-271 | After a failed write or an invalidation every registration before the next start is refused and leaves the table as it was. |
| Multiplexer.LiveProcessAccepts | internal/codexserve/process.go:254-262 | While the process is valid a registration is entered in the table under its own number. |
| Multiplexer.DeliverKeeps | internal/codexserve/process.go:213-223 | Handing over a reply never blocks the reader. |
| Multiplexer.CloseOneKeeps | internal/codexserve/process.go:241-243 | Closing the channels taken from a dead table never meets one that is closed or answered. |
| Multiplexer.ObserversSeeContiguousLines | internal/codexserve/process.go:440-470 | Every observer receives an unbroken run of lines in order from its subscription; while subscribed it has been sent every line; it is cut off only by itself or with 128 lines unread. |
| AppServer.Process.Broadcast | internal/codexserve/process.go:459-470 | Showing a line gives it to every subscriber with room and disconnects exactly those without. |
| AppServer.Process.Receive | internal/codexserve/process.go:274-287 | A caller gets the one reply in its channel, with its own number, or learns that the channel was closed. |
| AppServer.Process.Fail | internal/codexserve/process.go:226-244 | A reader whose subprocess was replaced leaves the table alone; the current one takes all of it. |
| AppServer.Process.TakeReply | internal/codexserve/process.go:214-220 | A line takes out of the table exactly the call whose number it carries, and is found to answer one exactly if that call was there. |
| AppServer.Process.Number | internal/codexserve/process.go:252-253 | A new call has a number no earlier call has. |
| AppServer.Process.Register | internal/codexserve/process.go:254-262 | A call is entered in the table if the process is valid and refused, with the table as it was, if not. |
| AppServer.Process.Write | internal/codexserve/process.go:263-273 | A failed write invalidates the process and leaves the table alone. |
| AppServer.Process.Read | internal/codexserve/process.go:440-458 | What an observer reads next is the next line after those it has read. |
| Terminal.LastClearIndex | internal/interactiveserve/matcher.go:59-69 | The loop over the four clear sequences finds the greatest offset at which any of them ends. |
| Terminal.LastClearMeaning | internal/interactiveserve/matcher.go:59-69 | That offset ends a clear sequence and none ends later; it is negative only if none occurs. |
| Terminal.OutputTee.Write | internal/interactiveserve/matcher.go:86-99 | After any sequence of writes the buffer is the last 8192 bytes of the untruncated output since the last clear found within one write. |
| Terminal.ClearSequences | internal/interactiveserve/matcher.go:49-54 | A clear ends exactly behind `ESC[2J`, `ESC[3J`, `ESC[?1049h` or `ESC[?47h`. |
| Terminal.TailOnce | internal/interactiveserve/matcher.go:86-99 | Truncating at every write is truncating once. |
| Terminal.SinceMeaning | internal/interactiveserve/matcher.go:86-99 | That output is the end of the write that cleared last followed by all later writes, or all writes if none cleared. |
| Terminal.SplitWriteIff | internal/interactiveserve/matcher.go:45-69 | Splitting a write leaves the same buffer if and only if the second part clears, no clear ends beyond the cut, or at least 8192 bytes follow it: a clear sequence split between two writes is otherwise missed. |
| Terminal.CutClearIsMissed | internal/interactiveserve/matcher.go:45-69 | A concrete split: the sequence that erases the screen, cut in two, leaves both halves in the buffer. |
| Echo.NormalizeForMatch | internal/interactiveserve/matcher.go:132-141 | The loop keeps the letters and digits of the stripped text, in lower case. |
| Echo.Tokenize | internal/interactiveserve/matcher.go:145-162 | The loop cuts the stripped text into its maximal runs of letters and digits. |
| Echo.NormalIsJoinedTokens | internal/interactiveserve/matcher.go:132-162 | For any stripping, the normal form is the tokens one after another, none of them empty. |
| Echo.NormalMatchIff | internal/interactiveserve/matcher.go:166-172 | Normal forms match if and only if some stretch of the stripped screen has exactly the letters and digits of the stripped text. |
| Echo.DecoratedTextIsEchoed | internal/interactiveserve/matcher.go:166-198 | A prompt shown with any other characters inserted anywhere, amid any screen, is recognised. |
| Echo.Echoed | internal/interactiveserve/matcher.go:166-198 | The method returns the disjunction of the normal match, the token match and the invocation identifier match. |
| Echo.EchoedIff | internal/interactiveserve/matcher.go:166-198 | A prompt is recognised exactly if its normal form is on the screen, its tokens match, or it names an invocation whose identifier, longer than five letters and digits, is on the screen. |
| Echo.MatchTokenNGrams | internal/interactiveserve/matcher.go:201-251 | The loops return the verdict of the greedy specification; the 30% ratio is a threshold of 1, 2 or 3 pairs. |
| Echo.ShortMatchIff | internal/interactiveserve/matcher.go:205-221 | A target of up to three tokens matches if and only if its tokens hit the screen's at strictly increasing places. |
| Echo.LongMatchHasWitnesses | internal/interactiveserve/matcher.go:223-250 | A match of a longer target has enough pairs hitting at strictly increasing places. |
| Echo.LongMatchIff | internal/interactiveserve/matcher.go:223-250 | A longer target matches if and only if there are as many pairs as needed, each but the last being the first pair that occurs at all behind the one before it, at its first place there. |
| Echo.TwoPairsMatchIff | internal/interactiveserve/matcher.go:223-250 | Five to seven tokens match if and only if some pair occurs behind the lead, the first pair that occurs at all at its first place. |
| Echo.ThreePairsMatchIff | internal/interactiveserve/matcher.go:223-250 | Eight tokens or more match if and only if some pair occurs behind the lead behind the lead. |
| Echo.OrderedPairsMatchIff | internal/interactiveserve/matcher.go:236-250 | As many ordered pairs as needed bring about a match exactly if the leads do not overtake them. |
| Echo.InOrderMatchIff | internal/interactiveserve/matcher.go:236-250 | On a screen where no pair of the target stands after a later one, a match is the same as having as many pairs as needed. |
| Echo.WholeTargetMatches | internal/interactiveserve/matcher.go:236-250 | If all pairs can be placed in order a longer target matches. |
| Echo.GreedyLeads | internal/interactiveserve/matcher.go:236-246 | The search finds nothing only if nothing occurs; otherwise it takes the lead and goes on behind it. |
| Echo.FourTokensMatchIff | internal/interactiveserve/matcher.go:223-250 | A target of four tokens matches if and only if one of its three pairs occurs anywhere. |
| Echo.GreedyMayMissALongTarget | internal/interactiveserve/matcher.go:236-246 | A concrete screen on which enough pairs stand in order and the greedy search still fails, because an early pair is taken at its end. |
| Echo.NeededMeaning | internal/interactiveserve/matcher.go:248-250 | The comparison of the ratio with 0.30, or three matches, is the integer threshold. |
| Echo.BlankTextIff | internal/interactiveserve/matcher.go:166-172 | A prompt is recognised on every screen if and only if it has no letter or digit. |
| Providers.ReadProviderOf | internal/model/provider.go:149-171 | The search over the set, in any order, returns the longest name the identifier starts with before a hyphen, if what follows is a suffix. |
| Providers.ReadingIff | internal/model/provider.go:145-171 | With names free of hyphens an identifier names a provider if and only if it is that name, or that name, a hyphen and a suffix: the other names play no part. |
| Providers.IdentityGrammar | internal/model/provider.go:145-171 | Letter by letter: an identifier names a provider exactly if it is its name, or its name, a hyphen, and lower-case letters, digits and hyphens that do not start with a hyphen. |
| Providers.IdentityIsStable | internal/model/provider.go:80-99 | However providers are registered and retired later, an identifier that names a provider now names the same one then. |
| Providers.RegistrableIff | internal/model/provider.go:80-99 | An identifier may be registered exactly if it is recognised and its provider is built in or active. |
| Providers.RegistrableNameIff | internal/model/provider.go:44-57 | A provider name may be registered exactly if it has 2 to 24 lower-case letters and digits, a letter first, and is neither built in nor reserved. |
| Providers.LastChangeDecides | internal/projection/apply.go:494-508 | A registration makes its name active and a retirement a known name retired; no other name is touched. |
| Providers.NewNameDisturbsIff | internal/model/provider.go:44-48 | A new name, hyphenated or not, changes some existing identity if and only if it is itself a well-formed agent identifier. |
| Providers.HyphenTakesOver | internal/model/provider.go:44-48 | The name `claude-code` would take over an existing agent of `claude`, and is not registrable. |
| Providers.DefaultAgentActorID | internal/model/provider.go:269-280 | The search over any finite taken set terminates within one more than its size and returns the first free candidate. |
| Providers.CandidateNamesProvider | internal/model/provider.go:269-280 | Every candidate names the provider asked for. |
| Providers.CandidatesDiffer | internal/model/provider.go:274-279 | Numbered candidates are distinct. |
| Drafts.DraftStore.Save | internal/draftstore/store.go:117-162 | A save gives the verdict of the quota specification, writes the draft with its clocks, and keeps every project within its quotas. |
| Drafts.DraftStore.DeleteDraft | internal/draftstore/store.go:202-218 | A delete removes exactly the named draft and reports a missing one. |
| Drafts.CacheDrafts.SaveDraft | internal/localcache/cache.go:383-426 | The cache's save is the same specification. |
| Drafts.CacheDrafts.DeleteDraft | internal/localcache/cache.go:461-477 | The cache's delete is the same specification. |
| Drafts.QuotaChecks | internal/draftstore/store.go:128-144 | The checks on the table's sums accept exactly the drafts that fit beside those they do not replace. |
| Drafts.SaveAcceptedIff | internal/draftstore/store.go:117-144 | A draft is accepted exactly if it names project and draft, is a document, message or artifact of 1 byte to 5 MiB, replaces one or is among the first 1000, and fits in 50 MiB with the others of its project. |
| Drafts.SaveRefusal | internal/draftstore/store.go:117-144 | A malformed draft is a validation error, and one over a quota a rate limit. |
| Drafts.RunKeepsQuota | internal/draftstore/store.go:117-162 | In every run of saves, imports and deletes each project holds at most 1000 drafts and 50 MiB. |
| Drafts.SaveKeepsQuota | internal/draftstore/store.go:117-162 | An accepted save keeps all quotas and leaves the drafts of other projects as they were. |
| Drafts.WithoutSums | internal/draftstore/store.go:191-218 | Deletion releases exactly one draft and the bytes it held, and touches no other project. |
| Drafts.StoresAgree | internal/localcache/cache.go:383-426 | Over any run of the same requests, whatever the clocks, the two stores give the same answers and hold the same drafts. |
| Drafts.SaveIsFound | internal/draftstore/store.go:153-161 | After a save a lookup finds the draft with the creation time of the one it replaced; every other draft is unchanged. |
| Drafts.DeleteIsGone | internal/draftstore/store.go:202-218 | A delete is accepted exactly for a draft that is there; afterwards a lookup does not find it and finds every other as before. |
| Drafts.DeleteUndoesSave | internal/draftstore/store.go:202-218 | Deleting a newly saved draft restores the table. |
| Drafts.DeleteMakesRoom | internal/draftstore/store.go:191-195 | After a delete, a draft no longer than the deleted one is accepted. |

## Left out

- `protocol.BuildEvent` and the transition rules: which commands the authority accepts is a parameter, except for the delivery rules the dispatcher relies on.
- Elevated and scoped command keys, approvals and `DeleteProject`: the transition validation decides them.
- `Cache.Rebuild`: it keeps the event rows and then inserts them again, which the primary key refuses; nothing is claimed about it.
- Daemon.Daemon.Command: its recovery sync does not join another one; what joining costs is `SingleFlight.MissIff`, where log and cache are lengths, records play no part and one project is considered.
- Daemon.Daemon.SyncProject: the log stands still while one sync runs, and the result of the dispatch at its end, which the program returns in place of its own, is not part of the result.
- The dispatch at the end of each sync and command: two passes never overlap in the model, since their exclusion rests on the transition validation; clients act at any time.
- Notifications of 2.0 histories that create their own delivery record (internal/projection/apply.go:225-231).
- Delivery identifiers are positions in the list of attempts, and invocation statuses after NOTIFIED are merged into one.
- SHA-256, Ed25519, Argon2, JSON bytes and SQL are symbolic; 64-bit sequences do not wrap, and a unique index that fails is a rollback.
- AuthorityRuns.RunKeepsLog: the clock reads at least one microsecond, since a time of zero is the zero time.
- Cursor.CursorRoundTrip: says nothing about cursors the program did not make; decoded text that starts with non-ASCII white space is read as malformed.
- Dispatch.Dispatcher.Dispatch: a pass reads its clock once, and what a second reading costs is `GateIff`; invocations are visited in any order, which covers the sorted one; whether a connector launch or webhook succeeds is a parameter.
- Routing.SelectRuntime: yields the runtime's name; its connector configuration is the one the eligibility condition looked up.
- RateLimit.RateRegistry.Allow: arithmetic is over reals, so rounding of floats and of the wait to whole nanoseconds is not modelled.
- Multiplexer.NumbersAreUnique: the 64-bit counter does not wrap.
- Multiplexer.RunNeverPanics: the writes of callers to the subprocess's standard input either succeed or fail, and one failure is one step with the invalidation it causes.
- `Send`, its two attempts and the parsing of turn notifications: heuristics over an external program's output.
- Echo.Echoed: text is a sequence of characters; invalid UTF-8 is not modelled, and the escape sequence pattern is an arbitrary function.
- `isBusy`, session discovery and process walks: heuristics about external programs.
- Providers.ReadProviderOf: case folding is that of ASCII, which is exact for names of the registered grammar.
- Providers.IdentityIsStable: registering an active name again or retiring a retired one is refused by the program and changes nothing here, and a name that collides with a principal is accepted here, so the histories are a superset.
- Provider listings, suggestions in error messages and free-text limits: they would only add easy members.
- The `Drafts` listing and its order by formatted time: it has no bearing on quotas.
- Drafts.StoresAgree: clocks are compared to nothing, since each store stamps its own.
- The HTTP, CLI, TUI and MCP layers, key storage, release download and file replacement.
