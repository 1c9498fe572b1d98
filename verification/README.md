# Verified models of the kernels

Dafny models of the deterministic kernels of the repository, each with the properties its code is there
for. `dafny verify dfyconfig.toml` checks all of it.

| module | models |
|---|---|
| `Redaction`, `EmptyRedaction` | streaming redaction of literals with a holdback window, with a replacement and without |
| `DuplexQueue`, `DuplexReads` | the bounded event queue of a duplex process session, and what its reader gets |
| `BudgetAccount`, `BudgetCommands` | the reservation ledger: holds, commits, releases, cancellation, command by command and over runs |
| `Outbox`, `Listing`, `Basics` | records, the outbox state machine, sorted listings, shared types |
| `MemoryModel`, `MemoryAdapter` | the in-memory persistence adapter: its operations on values, and the same on mutable map objects with snapshot and rollback |
| `SqlModel`, `SqliteAdapter` | the SQLite adapter: its statements as operations on tables, and the same on a database with BEGIN, COMMIT and ROLLBACK |
| `AdapterRefinement`, `Work` | the two adapters give the same answers over all runs of transactions |
| `LeaseSafety`, `OutboxHistory`, `RecordHistory` | leases over whole runs, and what the store holds in terms of the operations alone |
| `Paging`, `Transactions` | keyset pagination, concurrent `transact` calls behind the mutex |
| `MemoryStore`, `MemoryJournal`, `MemoryLinks` | the memory store over its compare-and-set port, with its operations interleaved at every await: journal and supersession links |
| `MemoryOutcomes`, `MemoryAuthors`, `MemoryRaces`, `MemoryHalves` | what each of its operations has written when it reports, and runs that show the limits |
| `MemoryContents`, `MemoryAlone` | what is stored, deleted and answered, in terms of the requests |
| `MemoryKeys`, `MemoryRevivals` | what an idempotency key stands for in every run, and how it comes to stand for something else |
| `Utf8`, `Framing`, `PackReading`, `Sentinels` | cutting UTF-8 text, sanitizing, the length-prefixed frame and readers for it, counting markers |
| `Ordering`, `TextOrder`, `CanonicalOrder`, `Diagnostics`, `Selection`, `SelectionSafety`, `SelectionGuarantees`, `PackDecisions` | the context packer |
| `PackChecks`, `PackDiagnostics`, `PackExamples` | the checks a pack must pass and what plans have to do with them |

How the parts fit together: what an operation does is a function on values; the class or method that does
it in place is proved to do just that; invariants, refinements and statements about whole runs are lemmas
about the functions. Concurrency is a list of steps in any order: a call that awaits is a value recording
where it stands and what it has loaded.

Identifiers, digests and other strings of which the code uses only equality and code-unit order are
modelled by their rank, a natural number; 0 is the empty text. Times are integers. Fields that are carried
along unread are one opaque value.

## Where the code differs from what is said about it

The models follow the code.

- `packages/domain/src/budget-account.ts:418` says commits are accepted after the account was cancelled.
  Cancelling turns every hold into `cancelled`, so only repeats of earlier commits are
  (`BudgetAccount.CommitOnCancelledAccount`).
- `packages/process-broker/src/duplex.ts:140` says a refused chunk is not retained. Its earlier parts are
  (`DuplexQueue.RefusedPushKeepsPrefix`).
- Streaming redaction depends on the chunking for some rule sets; `Redaction.ChunkingInvisibleIff` says
  for which, and `EmptyRedaction.DeletionInvisibleIff` does for an empty replacement.
- `truncateToBytes` reports a length that its text does not have when the text begins with a byte order
  mark that survives the cut, because the decoder drops the mark (`Utf8.ReportedLengthIff`). Sanitized
  text, which is all the packer cuts, never begins with one.
- The packer can admit an item with an empty body, which `parsePackItem` refuses, when `minItemBytes` is
  3 or less (`SelectionGuarantees.EmptyItemIff`, `PackExamples.EmptyItemPlan`). It counts the frame markers
  of a text before it truncates it, so it can also keep a count that `parsePackItem` refuses; that happens
  exactly when a marker is cut into or off (`PackChecks.PlanReadsBackIff`, `PackExamples.CutMarkerPlan`).
- `packages/context/src/select.ts:4-6` says that the order of arrival never matters. It does between candidates
  that agree in category, score, identity and digest (`PackExamples.TiesShowOrder`).
- `packages/memory/src/store.ts:21-22` says that nothing is written if the audit fails. An append that names a
  predecessor makes two changes, and so does a deletion; when the audit of the second fails the first is
  written (`MemoryOutcomes.FailedAuditIff`, `MemoryRaces.FailedAuditExample`). In the same way such an append
  can report a conflict and have stored its record (`MemoryRaces.CanFailStoredIff`), and so on for a
  `supersede` and a deletion; `MemoryHalves.CanFailHalfwayIff` says exactly which requests can.
- `packages/memory/src/store.ts:7-9` says that appending under one key again gives the existing entry for the
  same record and a conflict for another, never a silent overwrite. That fails in two ways. Two appends that
  both look the key up before either writes can both write (`MemoryKeys.SharedKeyRun`); a later look-up cannot
  (`MemoryKeys.LateKeyNeverWrites`). And, with no overlap at all, a record that was appended under a key,
  deleted, and resurrected under another key or none with another fingerprint is refused under its own key,
  while the new one is acknowledged there (`MemoryRevivals.RevivalBreaksPromise`). `MemoryKeys.KeyPromiseIff`
  gives the exact condition for the record last written under a key.
- The limit on supersession chains holds for links made by `supersede` (`MemoryAuthors.SupersedeKeepsLimit`)
  and not for those made by a direct `append` (`MemoryRaces.DirectAppendsIgnoreLimit`).

## Model

| member | source | states |
|---|---|---|
| Redaction.EarliestSpec | packages/artifact-store/src/transform.ts:82-97 | the match chosen is leftmost, and among equals at one index the literal listed first |
| Redaction.EarliestIsUnique | packages/artifact-store/src/transform.ts:82-97 | there is only one such match, so the search order does not matter |
| Redaction.IndexOfEarliestMatch | packages/artifact-store/src/transform.ts:82-97 | the loop over literals with its running best finds exactly that match |
| Redaction.RedactionStream.DrainBuffer | packages/artifact-store/src/transform.ts:150-172 | one `drain` call yields, and leaves in `carry`, what the function `Drain` says |
| Redaction.RedactionStream.Run | packages/artifact-store/src/transform.ts:142-182 | the generator yields, over all chunks, the stream that `Stream` says |
| Redaction.MatchIsStable | packages/artifact-store/src/transform.ts:82-97 | under the condition below, a match found early is the match the whole input has |
| Redaction.SafePrefix | packages/artifact-store/src/transform.ts:142-182 | bytes passed on behind the holdback belong to no match, whatever follows |
| Redaction.FinalDrainIsRedact | packages/artifact-store/src/transform.ts:165-183 | the last flush is plain leftmost-first redaction |
| Redaction.ChunkingIsInvisible | packages/artifact-store/src/transform.ts:142-182 | for every split of every input the output is leftmost-first redaction of the whole, if no literal that can win contains a literal ending before its own end |
| Redaction.CutInsideLiteralShows | packages/artifact-store/src/transform.ts:142-182 | for each literal that breaks the condition there is a cut that changes the output |
| Redaction.ChunkingInvisibleIff | packages/artifact-store/src/transform.ts:142-182 | for a non-empty replacement the condition is exact: chunking is invisible if and only if it holds |
| Redaction.ChunkingVisibleWitness | packages/artifact-store/src/transform.ts:142-182 | `["bc", "abcd"]` on `abc|d` is such a case for every non-empty replacement |
| Redaction.StreamAgrees | packages/artifact-store/src/transform.ts:142-182 | the same from one hypothesis about single buffers: if a match found early, or what it leaves, always redacts as the whole does, no split can be seen |
| EmptyRedaction.DeletionInvisibleIff | packages/artifact-store/src/transform.ts:142-182 | for an empty replacement: chunking is invisible if and only if some set of ends of literals absorbs itself and every remainder of a match found early |
| EmptyRedaction.AbsorbedIsDeleted | packages/artifact-store/src/transform.ts:142-182 | such an end is deleted in front of any input, whatever follows it |
| EmptyRedaction.EmptyReplacementCanHide | packages/artifact-store/src/transform.ts:136-141 | so the condition for other replacements is not necessary here: `["aa", "a"]` breaks it and chunking still cannot be seen |
| Redaction.RedactionIsComplete | packages/artifact-store/src/transform.ts:142-182 | without side condition: the input splits into literals and literal-free passages, and the output is the same passages with the replacement in between |
| Redaction.CarryIsShort | packages/artifact-store/src/transform.ts:165-172 | what a drain keeps back is the end of a literal-free rest, one byte less than the longest literal or all of the rest |
| Redaction.MemoryIsBounded | packages/artifact-store/src/transform.ts:142-182 | after any chunks less than the longest literal is kept back |
| Redaction.SentThenRest | packages/artifact-store/src/transform.ts:174-182 | what has been passed on by then, followed by what the rest of the stream yields, is the whole output |
| DuplexQueue.BoundedDuplexEventQueue.Push | packages/process-broker/src/duplex.ts:141-167 | the splitting loop leaves the queue, its counters, the readers and the result as `DoPush` says |
| DuplexQueue.BoundedDuplexEventQueue.Finish | packages/process-broker/src/duplex.ts:169-179 | finishing settles every waiting reader with the end of the stream, once |
| DuplexQueue.BoundedDuplexEventQueue.Next | packages/process-broker/src/duplex.ts:183-195 | a read takes the oldest event, or the end, or waits in line |
| DuplexQueue.BoundedDuplexEventQueue.Return | packages/process-broker/src/duplex.ts:196-204 | a consumer that leaves drops the queue and settles the readers |
| DuplexQueue.EveryRunKeepsInv | packages/process-broker/src/duplex.ts:119-206 | for every interleaving: counters equal the retained contents and stay within both caps, waiting readers imply an empty queue, reads are settled in order, events are numbered and no longer than the event limit, and until something is refused or closed the bytes delivered and queued are the bytes pushed |
| DuplexQueue.PushKeepsInv | packages/process-broker/src/duplex.ts:141-167 | the same for one push, the longest step |
| DuplexQueue.NextNeverUnderflows | packages/process-broker/src/duplex.ts:183-188 | taking an event never makes the byte counter negative |
| DuplexQueue.PushAcceptedIff | packages/process-broker/src/duplex.ts:141-167 | a push is accepted exactly when the queue is done or the whole chunk fits after what waiting readers take |
| DuplexQueue.RefusedPushKeepsPrefix | packages/process-broker/src/duplex.ts:145-165 | a refused push has kept a proper prefix of the chunk, empty exactly when the first part had no room |
| DuplexQueue.NumbersAreSpent | packages/process-broker/src/duplex.ts:141-167 | every offered part uses up a sequence number, the refused one too |
| DuplexQueue.RefusalCanKeepBytes | packages/process-broker/src/duplex.ts:140-165 | the comment that a refused chunk is not retained is not what the code does: an example |
| DuplexReads.RunTells | packages/process-broker/src/duplex.ts:119-206 | over every run: finished and closed are what has been called, and the queue was offered what was pushed before that |
| DuplexReads.NothingIsLost | packages/process-broker/src/duplex.ts:119-206 | unless the consumer leaves or a push is refused, what was read and what is queued is what was pushed, also after `finish` |
| DuplexReads.DoneMeansAll | packages/process-broker/src/duplex.ts:183-195 | a read is told it is done only after the consumer left, or after `finish` with everything kept read; with no push refused that is every byte pushed |
| DuplexReads.NextIsAnswered | packages/process-broker/src/duplex.ts:183-195 | in every run a new read gets the oldest queued event, or the end if the session has ended and nothing is queued, and otherwise waits |
| BudgetAccount.EffectOf | packages/domain/src/budget-account.ts:351-549 | a command errs, is acknowledged without effect, or makes exactly one of three changes |
| BudgetAccount.EveryRunIsConsistent | packages/domain/src/budget-account.ts:118-139 | every reachable state meets the parser's consistency rules, with unique ids and no hold on a cancelled account |
| BudgetAccount.StepExtends | packages/domain/src/budget-account.ts:326-349 | an effective command raises the version by exactly 1, keeps all ids in place and touches no settled reservation |
| BudgetAccount.SettledForever | packages/domain/src/budget-account.ts:421-500 | over every sequence of commands settled reservations never change |
| BudgetAccount.OneWriterPerVersion | packages/domain/src/budget-account.ts:310-317 | after a command with expected version v took effect, no later command with that version can |
| BudgetAccount.CancelledIsFinal | packages/domain/src/budget-account.ts:526-549 | a cancelled account is a fixed point of every later command sequence |
| BudgetAccount.CommitOnCancelledAccount | packages/domain/src/budget-account.ts:418-461 | after cancellation a commit succeeds if and only if it repeats an earlier commit |
| BudgetAccount.HeldAtCancellationIsLost | packages/domain/src/budget-account.ts:418-447 | so work held at cancellation can no longer be committed, against the comment on `commitReservation` |
| BudgetAccount.TotalsAreSums | packages/domain/src/budget-account.ts:204-218 | reserved and committed totals are the per-dimension sums over held estimates and committed actuals |
| BudgetAccount.AddUsageAdds | packages/domain/src/budget.ts:304-322 | adding usages adds every limited dimension, a missing cost counting as zero |
| BudgetAccount.BreachesNameEveryExcess | packages/domain/src/budget-account.ts:220-284 | no hard breach is reported if and only if no hard limit is exceeded in any of five dimensions |
| BudgetAccount.AdmissionIsExact | packages/domain/src/budget-account.ts:286-308 | a reservation is allowed if and only if holds, commits and the estimate together stay within every hard limit |
| BudgetAccount.EveryRunStaysWithinLimits | packages/domain/src/budget-account.ts:351-549 | in every run from a fresh account, holds plus commits never exceed a hard limit by more than commits exceeded their estimates |
| BudgetAccount.NoBreachWithoutOvershoot | packages/domain/src/budget-account.ts:351-461 | so no limit is breached if actuals never exceed estimates |
| BudgetCommands.CommitIsExact | packages/domain/src/budget-account.ts:421-461 | for any arguments: a commit succeeds exactly at the expected version, in the budget's currency, on a hold or as its own repeat; it makes that one hold a commit of the reported usage at the reported time; which error otherwise |
| BudgetCommands.SettleIsExact | packages/domain/src/budget-account.ts:463-515 | the like for releasing and cancelling |
| BudgetCommands.CancelAccountIsExact | packages/domain/src/budget-account.ts:526-550 | cancelling the account ends each hold at the given time and changes nothing else |
| BudgetCommands.ReserveIsExact | packages/domain/src/budget-account.ts:351-404 | reserving succeeds exactly as the repeat of a hold, or as a new hold of the estimate in an open account that has room for it; which error otherwise |
| BudgetCommands.EvaluationIsExact | packages/domain/src/budget-account.ts:220-308 | an estimate can be judged exactly if it can be added up in one currency within safe integers; the breaches are exactly the exceeded hard and soft limits with their numbers |
| BudgetCommands.TotalsIff | packages/domain/src/budget-account.ts:204-218 | totals exist exactly if every counter stays a safe integer and all costs share a currency |
| BudgetCommands.AddUsageIff | packages/domain/src/budget.ts:304-322 | so for one addition, and then every single counter is the sum |
| BudgetCommands.ReservationsAreTold | packages/domain/src/budget-account.ts:351-549 | in every run each reservation is what an effective command asked for, and has ended as an effective command told |
| BudgetCommands.RunIsSafe | packages/domain/src/budget-account.ts:351-549 | and commands with parsed usages leave parsed usages, which `ReserveIsExact` and `EvaluationIsExact` suppose |
| BudgetCommands.RunRecordsReports | packages/domain/src/budget-account.ts:421-461 | the committed total of every run is the sum of what effective commits reported |
| BudgetCommands.EveryRunStaysWithinReports | packages/domain/src/budget-account.ts:351-549 | so holds plus reported usage exceed a hard limit at most by what reports exceeded their estimates |
| MemoryModel.MemStepKeepsInv | packages/persistence-memory/src/memory-adapter.ts:212-501 | every operation keeps counter = highest sequence = number of rows, an exact key index, and filing under ids |
| MemoryModel.ScanIsFaithful | packages/persistence-memory/src/memory-adapter.ts:182-184 | the sorted snapshot a claim scans holds every stored message once, in sequence order |
| MemoryAdapter.MemoryState.SnapshotState | packages/persistence-memory/src/memory-adapter.ts:112-127 | the snapshot consists of new map objects with the same entries, inner maps included |
| MemoryAdapter.MemoryState.RestoreState | packages/persistence-memory/src/memory-adapter.ts:129-138 | restoring gives back exactly the snapshot's contents |
| MemoryAdapter.MemoryState.ByTypeMap | packages/persistence-memory/src/memory-adapter.ts:202-209 | the inner map of a type, made on demand and never shared between types |
| MemoryAdapter.MemoryState.Create | packages/persistence-memory/src/memory-adapter.ts:212-242 | `create` on the map objects is `MemCreate` on their contents |
| MemoryAdapter.MemoryState.Update | packages/persistence-memory/src/memory-adapter.ts:244-278 | likewise `update`, with its version check |
| MemoryAdapter.MemoryState.GetAggregate | packages/persistence-memory/src/memory-adapter.ts:280-286 | likewise `get`, without filing a map |
| MemoryAdapter.MemoryState.ListAggregates | packages/persistence-memory/src/memory-adapter.ts:288-305 | likewise the aggregate listing |
| MemoryAdapter.MemoryState.Append | packages/persistence-memory/src/memory-adapter.ts:309-335 | likewise `append` with its counter |
| MemoryAdapter.MemoryState.ListEvents | packages/persistence-memory/src/memory-adapter.ts:337-367 | likewise the event listing with its filters |
| MemoryAdapter.MemoryState.EnqueueMessage | packages/persistence-memory/src/memory-adapter.ts:371-410 | likewise `enqueue`: message, key index and counter together, or nothing |
| MemoryAdapter.MemoryState.ClaimMessages | packages/persistence-memory/src/memory-adapter.ts:412-431 | the scan that writes as it goes stops at the limit and returns what `MemClaim` says |
| MemoryAdapter.MemoryState.SettleMessage | packages/persistence-memory/src/memory-adapter.ts:433-469 | acknowledge, retry and dead-letter change at most the one message, by the transition rules |
| MemoryAdapter.MemoryState.GetMessage | packages/persistence-memory/src/memory-adapter.ts:471-476 | likewise the message lookup |
| MemoryAdapter.MemoryState.ListMessages | packages/persistence-memory/src/memory-adapter.ts:478-501 | likewise the message listing |
| MemoryAdapter.MemoryState.Execute | packages/persistence-memory/src/memory-adapter.ts:192-501 | any operation on the map objects is the model's operation, input validation first |
| MemoryAdapter.TransactionContext.Perform | packages/persistence-memory/src/memory-adapter.ts:192-200 | a context whose gate is closed refuses and changes nothing; an open one performs the operation |
| MemoryAdapter.TransactionContext.RunTransaction | packages/persistence-memory/src/memory-adapter.ts:656-669 | commit keeps the effects, a throw restores the snapshot, and the context is dead either way |
| MemoryAdapter.MemoryPersistenceAdapter.Transact | packages/persistence-memory/src/memory-adapter.ts:650-671 | a transaction is all or nothing on the heap: the result and the new contents are those of `MemTransact` |
| MemoryAdapter.MemoryPersistenceAdapter.Close | packages/persistence-memory/src/memory-adapter.ts:677-681 | closing changes no data and makes every later transaction fail |
| SqlModel.SqlStepKeepsTables | packages/persistence-sqlite/src/sqlite-adapter.ts:441-760 | every operation keeps all primary keys, and the unique sequence, idempotency key and global sequence columns, intact |
| SqliteAdapter.SqliteDatabase.WriteOutboxMessage | packages/persistence-sqlite/src/sqlite-adapter.ts:424-438 | the UPDATE writes the eight state columns of one row and nothing else |
| SqliteAdapter.SqliteDatabase.CreateAggregate | packages/persistence-sqlite/src/sqlite-adapter.ts:441-476 | `create` against the table is `SqlCreate` |
| SqliteAdapter.SqliteDatabase.UpdateAggregate | packages/persistence-sqlite/src/sqlite-adapter.ts:478-518 | `update` against the table is `SqlUpdate` |
| SqliteAdapter.SqliteDatabase.AppendEvent | packages/persistence-sqlite/src/sqlite-adapter.ts:547-589 | `append`: MAX plus one, insert, read back |
| SqliteAdapter.SqliteDatabase.EnqueueMessage | packages/persistence-sqlite/src/sqlite-adapter.ts:628-670 | `enqueue`: two lookups, MAX plus one, insert, read back |
| SqliteAdapter.SqliteDatabase.ClaimMessages | packages/persistence-sqlite/src/sqlite-adapter.ts:672-692 | the loop that writes row by row over the selected rows is `SqlClaim` |
| SqliteAdapter.SqliteDatabase.SettleMessage | packages/persistence-sqlite/src/sqlite-adapter.ts:694-730 | acknowledge, retry and dead-letter as one UPDATE, or none |
| SqliteAdapter.SqliteDatabase.Rollback | packages/persistence-sqlite/src/sqlite-adapter.ts:887-892 | ROLLBACK brings back the tables as of BEGIN |
| SqliteAdapter.SqliteDatabase.Execute | packages/persistence-sqlite/src/sqlite-adapter.ts:404-760 | any operation on the tables is the model's operation, input validation first |
| SqliteAdapter.SqlitePersistenceAdapter.Transact | packages/persistence-sqlite/src/sqlite-adapter.ts:872-902 | BEGIN, the body, then COMMIT or ROLLBACK: all or nothing |
| AdapterRefinement.MaxIsCounter | packages/persistence-sqlite/src/sqlite-adapter.ts:351-353 | MAX(sequence) of the table is the counter of the in-memory form, also after rollbacks |
| AdapterRefinement.MaxEventIsCounter | packages/persistence-sqlite/src/sqlite-adapter.ts:327-329 | the same for events |
| AdapterRefinement.IndexIsExact | packages/persistence-sqlite/src/sqlite-adapter.ts:636-644 | looking for the key in the table answers what the key index answers |
| AdapterRefinement.EnqueueRefines | packages/persistence-sqlite/src/sqlite-adapter.ts:628-670 | enqueueing answers the same and keeps the states related |
| AdapterRefinement.AppendRefines | packages/persistence-sqlite/src/sqlite-adapter.ts:547-589 | appending answers the same, including the row read back |
| AdapterRefinement.SelectIsFilter | packages/persistence-sqlite/src/sqlite-adapter.ts:367-380 | SELECT with WHERE, ORDER BY and LIMIT is sort, filter and slice |
| AdapterRefinement.ClaimLoopsAgree | packages/persistence-sqlite/src/sqlite-adapter.ts:672-692 | scanning everything up to a limit equals looping over the first `limit` claimable rows |
| AdapterRefinement.ClaimRefines | packages/persistence-memory/src/memory-adapter.ts:412-431 | claims return the same messages in both adapters |
| AdapterRefinement.StepRefines | packages/persistence-sqlite/src/sqlite-adapter.ts:441-760 | for every operation: same answer, related states |
| Work.RunRefines | packages/persistence-sqlite/src/sqlite-adapter.ts:872-902 | over every sequence of transactions, committed or rolled back, the two adapters give the same outcomes and stay related |
| Work.AdaptersAgree | packages/persistence-memory/src/memory-adapter.ts:650-671 | started empty they cannot be told apart |
| Work.RunIsReplay | packages/persistence-memory/src/memory-adapter.ts:650-671 | what remains of a run is exactly the operations of the transactions that committed |
| RecordHistory.CreateIsExact | packages/persistence-memory/src/memory-adapter.ts:212-242 | creating succeeds exactly for a new, non-empty id, as version 1 with the given content and time; which error otherwise |
| RecordHistory.UpdateIsExact | packages/persistence-memory/src/memory-adapter.ts:244-278 | updating succeeds exactly at the stored version, as the next version; which error otherwise |
| RecordHistory.AppendIsExact | packages/persistence-memory/src/memory-adapter.ts:309-335 | appending succeeds exactly for a new id, with the next number |
| RecordHistory.ReadsAreExact | packages/persistence-memory/src/memory-adapter.ts:280-286 | reads answer what is stored and change nothing |
| RecordHistory.ValidationIsExact | packages/persistence-memory/src/memory-adapter.ts:192-501 | which operations are refused before anything is looked at |
| RecordHistory.AggregateIsLastWrite | packages/persistence-memory/src/memory-adapter.ts:212-278 | in every run an aggregate exists exactly if it was written: its content and time are those of the last write, its version the number of writes, its creation the first |
| RecordHistory.EventsAreAppends | packages/persistence-memory/src/memory-adapter.ts:309-335 | in every run the events are exactly the successful appends, unchanged and numbered in order |
| OutboxHistory.EnqueueIsExact | packages/persistence-memory/src/memory-adapter.ts:371-410 | enqueueing succeeds exactly for a new id with an unused key and stores every field as requested; which error otherwise |
| OutboxHistory.SettleIsExact | packages/persistence/src/outbox-logic.ts:67-149 | settling succeeds exactly for the lease owner, or as a repeated acknowledgement; every field afterwards; which error otherwise |
| OutboxHistory.ClaimTakesEarliest | packages/persistence-memory/src/memory-adapter.ts:412-431 | a claim returns a message exactly if it is due and fewer than `limit` due ones were enqueued before it |
| OutboxHistory.NeverBeforeItsTime | packages/persistence-memory/src/memory-adapter.ts:394-402 | in every run, a message is never claimed before the time it was enqueued for, or was enqueued at, unless rescheduled |
| OutboxHistory.NeverBeforeRetry | packages/persistence/src/outbox-logic.ts:98-120 | nor after a retry before the retry's time, until rescheduled again |
| OutboxHistory.DueFromItsTime | packages/persistence/src/outbox-logic.ts:44-52 | and from that time on it is due until claimed |
| OutboxHistory.ContentStays | packages/persistence/src/outbox-logic.ts:54-149 | whatever happens to it, it keeps the content, key, time and place it was enqueued with |
| OutboxHistory.EndIsRecorded | packages/persistence/src/outbox-logic.ts:81-149 | a reported acknowledgement or dead-lettering stays on record with its time and cause, and the message is never claimed again |
| LeaseSafety.ClaimIsExact | packages/persistence-memory/src/memory-adapter.ts:412-431 | a claim returns exactly the first `limit` claimable messages by sequence, leases them, and changes no other |
| LeaseSafety.SettleFacts | packages/persistence/src/outbox-logic.ts:81-149 | settling changes a message only for the holder of its lease, who then no longer holds it; anything but a retry leaves it terminal |
| LeaseSafety.StepAt | packages/persistence/src/outbox-logic.ts:44-149 | an operation leaves a stored message alone, claims it while it is claimable, or settles it by its rules |
| LeaseSafety.LeaseSafe | packages/persistence/src/outbox-logic.ts:44-150 | between two successive claims of one message the first lease had expired or its owner scheduled a retry |
| LeaseSafety.TerminalForever | packages/persistence/src/outbox-logic.ts:81-150 | once acknowledged or dead-lettered, a message never changes and is never claimed |
| LeaseSafety.AttemptsAreClaims | packages/persistence/src/outbox-logic.ts:54-65 | the attempt counter equals the number of claims that returned the message |
| LeaseSafety.DisplacedOwnerCannotSettle | packages/persistence/src/outbox-logic.ts:67-79 | an owner displaced by another owner's claim cannot settle the message unless it claims it again |
| LeaseSafety.SettleNeedsLease | packages/persistence/src/outbox-logic.ts:67-79 | settling without holding the lease changes nothing |
| Paging.MessagePageIsFetch | packages/persistence-memory/src/memory-adapter.ts:478-501 | listing messages is one keyset request on the sorted, filtered listing |
| Paging.EventPageIsFetch | packages/persistence-memory/src/memory-adapter.ts:337-367 | the same for events |
| Paging.AggregatePageIsFetch | packages/persistence-memory/src/memory-adapter.ts:288-305 | the same for the aggregates of one type |
| Paging.NextPage | packages/persistence/src/cursor.ts:98-112 | a page is full or last, and its cursor continues exactly where it stopped |
| Paging.PaginationIsComplete | packages/persistence/src/cursor.ts:98-112 | following the cursor from null gives the whole listing, each record once, in the expected number of pages |
| Paging.PageCountIsCeiling | packages/persistence/src/cursor.ts:98-112 | that number is the least k >= 1 with k * limit >= n |
| Paging.MessageListingIsComplete | packages/persistence-memory/src/memory-adapter.ts:478-501 | the same read off the outbox itself: exactly the messages with the wanted status, in sequence order |
| Paging.EventListingIsComplete | packages/persistence-memory/src/memory-adapter.ts:337-367 | the same for the events of a type or aggregate |
| Paging.AggregateListingIsComplete | packages/persistence-memory/src/memory-adapter.ts:288-305 | the same for the aggregates of a type |
| Paging.ListingsRefuse | packages/persistence-memory/src/memory-adapter.ts:288-367 | a listing fails exactly for a cursor of the other kind, and for events of an aggregate without its type |
| Paging.WalkIncreases | packages/persistence/src/cursor.ts:98-112 | if the listing changes between requests, keys still only increase: nothing is repeated |
| Paging.WalkFinds | packages/persistence/src/cursor.ts:98-112 | and a record present at every request is never skipped |
| Transactions.AsyncMutex.Submit | packages/persistence/src/mutex.ts:10-15 | each `run` awaits the promise of the call submitted just before it |
| Transactions.StepKeepsInv | packages/persistence/src/mutex.ts:10-22 | submitting, starting, operating, ending and releasing, in any order, keep the invariant |
| Transactions.Serializable | packages/persistence-memory/src/memory-adapter.ts:650-671 | for every interleaving: bodies run one at a time in submission order, the database is a serial run of exactly the committed ones, and each saw and was told what it would have been in that order |
| Transactions.CompletedContextIsDead | packages/persistence/src/adapter-support.ts:104-127 | a context kept after its transaction writes nothing and is told so |
| Transactions.NothingAfterClose | packages/persistence-memory/src/memory-adapter.ts:677-681 | closing takes its turn: no transaction submitted after it ever gets a context |
| Transactions.SomebodyCanMove | packages/persistence/src/mutex.ts:10-22 | no deadlock: the earliest unreleased call can always take its next step |
| Transactions.StepIsExact | packages/persistence-memory/src/memory-adapter.ts:634-681 | what each step of each call does, in every reachable state: who may start, what an operation changes and answers, that a commit keeps and a throw restores |
| MemoryStore.InMemoryMemoryStore.Get | packages/memory/src/in-memory-port.ts:53-56 | a lookup sees the scope's entry and changes no scope |
| MemoryStore.InMemoryMemoryStore.FindByIdempotencyKey | packages/memory/src/in-memory-port.ts:67-72 | likewise through the key index |
| MemoryStore.InMemoryMemoryStore.Apply | packages/memory/src/in-memory-port.ts:74-105 | compare and set: entry, key and journal event go in together with the next sequence number, or nothing does, and the verdict says which |
| MemoryStore.InMemoryMemoryStore.Close | packages/memory/src/in-memory-port.ts:115-118 | closing empties all scopes for good |
| MemoryJournal.WriteKeepsJournal | packages/memory/src/in-memory-port.ts:76-105 | an accepted write extends the journal by the next version of one record |
| MemoryJournal.StepKeepsInv | packages/memory/src/store.ts:473-897 | every step of every operation keeps the journal exact and the locals of all operations meaningful |
| MemoryJournal.JournalIsExact | packages/memory/src/in-memory-port.ts:76-105 | under every interleaving, resurrections included, each record's events carry versions 1, 2, ..., n with n its current version; sequence numbers increase and no two scopes share one |
| MemoryJournal.NoStaleWrite | packages/memory/src/store.ts:279-317 | a conditional write that the port accepts replaces exactly the entry it was computed from |
| MemoryLinks.WriteKeepsLinks | packages/memory/src/store.ts:566-599 | a safe write keeps all links well founded and undoes none |
| MemoryLinks.StepKeepsLinks | packages/memory/src/store.ts:473-897 | every step without resurrection is such a write, or none |
| MemoryLinks.LinksAreSafe | packages/memory/src/store.ts:1162-1195 | X.supersededBy = R implies that R names X, was appended later, and is not an inferred candidate over an explicit preference |
| MemoryLinks.SupersededOnce | packages/memory/src/store.ts:1162-1195 | `supersededBy` is set at most once |
| MemoryLinks.AncestorsAreOlder | packages/memory/src/store.ts:1116-1144 | following `supersedes` any number of times leads to strictly older records |
| MemoryLinks.NoCycles | packages/memory/src/store.ts:1116-1144 | so no record supersedes itself through any number of links |
| MemoryLinks.DepthIsExact | packages/memory/src/store.ts:1197-1211 | the depth measured by a `supersede`, with other operations in between, is min(chain length, limit + 1), and no record is met twice |
| MemoryLinks.SupersessionDepth | packages/memory/src/store.ts:1197-1211 | the loop run without interruption, on any store and any record: the number of records visited up to limit + 1, or the limit if the chain comes back to a record before that, or 1 when the port is closed |
| MemoryLinks.DepthOfLinked | packages/memory/src/store.ts:1197-1211 | where links are well founded that is min(chain length, limit + 1) |
| MemoryAuthors.SupersedeKeepsLimit | packages/memory/src/store.ts:753-760 | however operations race, a record stored by a `supersede` has a chain no longer than the limit |
| MemoryAuthors.DepthLimitHolds | packages/memory/src/store.ts:753-760 | so every chain is within the limit, or one record, unless a direct `append` linked its first record |
| MemoryRaces.DirectAppendsIgnoreLimit | packages/memory/src/store.ts:556-599 | and then it need not be: direct appends make chains of any length a scope has room for |
| MemoryOutcomes.ErrorsAreIncomplete | packages/memory/src/store.ts:473-897 | in every run, an operation that ended in an error has left out a write; an append without predecessor that ended in an error wrote nothing |
| MemoryOutcomes.SuccessesAreComplete | packages/memory/src/store.ts:473-897 | one that ended well has made all its writes, or repeated a known key |
| MemoryContents.WritesAreExact | packages/memory/src/store.ts:473-897 | in every run, resurrections included: a step that writes puts in exactly what its request asks for, over the entry it checked, with the right journal event, and leaves everything else |
| MemoryContents.SuccessIsDone | packages/memory/src/store.ts:473-897 | in every run, an operation that reports success has just stored what was asked: the new entry and the mark on its predecessor; the deleted record without its text; the decision |
| MemoryContents.DeletedIsWithheld | packages/memory/src/store.ts:875-884 | in every run, no tombstoned entry has a text |
| MemoryContents.MarkerIsStored | packages/memory/src/store.ts:820-869 | a deletion that reports success has its marker stored, naming the deleted record unless something else was written under the marker's id |
| MemoryContents.StoreHoldsLastBrought | packages/memory/src/store.ts:473-897 | in every run the store holds for each id the record last written to it, without its text once deleted |
| MemoryContents.DeletedStaysDeleted | packages/memory/src/store.ts:537-555 | a deleted record stays deleted until a request resurrects it |
| MemoryAlone.AloneIsExact | packages/memory/src/store.ts:473-897 | started in any reachable state and run with nothing in between, each operation gives exactly this answer, every error included, and leaves exactly these entries |
| MemoryAlone.MeasuresAlone | packages/memory/src/store.ts:1197-1211 | the chain measured on the way is the walk along predecessors, cut above the limit |
| MemoryAlone.RefusedWriteConflicts | packages/memory/src/store.ts:473-897 | a write that the port refuses because another operation came between ends its operation with a conflict |
| MemoryAlone.ClosedIsExact | packages/memory/src/store.ts:1106-1110 | once closed the store is empty, refuses new operations and fails those under way |
| MemoryOutcomes.FailedAuditIff | packages/memory/src/store.ts:279-305 | a failing audit prevents the change it was for; nothing at all is written if and only if that was not the second change of an append or a deletion |
| MemoryAuthors.FailedAppendIsStored | packages/memory/src/store.ts:577-599 | a record that an append has written stays stored and linked, whatever the append reported and whatever runs later |
| MemoryRaces.FailingRunFails | packages/memory/src/store.ts:577-599 | a run in which an append reports a conflict and its record is stored |
| MemoryRaces.CanFailStoredIff | packages/memory/src/store.ts:577-599 | an append can do that if and only if it names a predecessor other than itself and a scope has room for two records |
| MemoryHalves.CanFailHalfwayIff | packages/memory/src/store.ts:577-897 | for every kind of request, whatever version it expects: some run ends in an error with the first of its two changes made exactly if an append or replacement names a predecessor other than itself and two records have room (and the chain limit and seal let a `supersede` get that far), or a deletion's marker has an id of its own and one record has room |
| MemoryHalves.DeletionFails | packages/memory/src/store.ts:786-897 | a deletion whose marker is stored and whose record is not marked |
| MemoryHalves.SupersessionFails | packages/memory/src/store.ts:719-784 | a `supersede` whose replacement is stored and whose predecessor is not marked |
| MemoryRaces.FailedAuditExample | packages/memory/src/store.ts:594-599 | a run in which the audit of the second change fails and the first is written |
| MemoryKeys.KeyPromiseIff | packages/memory/src/store.ts:507-528 | in every run, for each key written under: appends under it get the record last written under it, which one of them appended, and every other record is a conflict, if and only if that record has not since been resurrected under another key or none with another fingerprint |
| MemoryKeys.SoleAuthor | packages/memory/src/store.ts:507-528 | where one append alone has written under the key that record is the one it appended |
| MemoryRevivals.RevivalBreaksPromise | packages/memory/src/in-memory-port.ts:94-105 | after such a resurrection, with no two operations overlapping, the first append is refused when repeated and the new record is acknowledged under the old key |
| MemoryKeys.KeyIsAnswered | packages/memory/src/store.ts:507-528 | once an append under a key has written, one that looks the key up ends at once: with the entry of the record the key stands for, or a conflict if its fingerprint is not the one that record now has |
| MemoryKeys.LateKeyNeverWrites | packages/memory/src/store.ts:507-528 | so of two appends under one key the later to look never writes: both can write only if each looks before the other has written |
| MemoryKeys.SharedKeyRun | packages/memory/src/in-memory-port.ts:94-105 | and then they can: two appends of different record ids, without predecessors, both write and the second takes over the key |
| Utf8.RoundTrip | packages/context/src/estimator.ts:121-136 | decoding an encoding gives the text back |
| Utf8.SafeUtf8Cut | packages/context/src/estimator.ts:105-118 | the loop computes the function `Cut` |
| Utf8.CutFromSteps | packages/context/src/estimator.ts:105-118 | on any bytes: at most four steps down, over continuation bytes only |
| Utf8.CutIsLargestBoundary | packages/context/src/estimator.ts:100-118 | on UTF-8 the cut is the largest character boundary not above the limit, at most three bytes below min(limit, length) |
| Utf8.TruncationIsPrefix | packages/context/src/estimator.ts:121-136 | a truncated text is a whole-character prefix of at least `maxBytes` - 3 bytes with its exact length, unless the text begins with a byte order mark |
| Utf8.TruncationIsLongest | packages/context/src/estimator.ts:121-136 | and no longer part of the text would fit |
| Utf8.ReportedLengthIff | packages/context/src/estimator.ts:128-135 | the reported length is wrong exactly when a text that begins with a byte order mark is cut at three bytes or more |
| Framing.SanitizeContextText | packages/context/src/framing.ts:56-82 | the loop keeps exactly the surviving characters and counts the rest |
| Framing.SanitizedIsClean | packages/context/src/framing.ts:56-82 | sanitizing is idempotent and leaves no byte order mark |
| Framing.DroppedIff | packages/context/src/framing.ts:56-82 | what is dropped: controls other than tab and line ends, zero-width, directional and invisible characters |
| Framing.SanitizedJoin | packages/context/src/framing.ts:56-82 | the rest stays in place: sanitizing works on each part by itself |
| Sentinels.CountFrameSentinels | packages/context/src/framing.ts:85-95 | searching on behind each marker found counts every place where one of the four markers stands |
| Sentinels.NoOverlap | packages/context/src/framing.ts:88-92 | because no marker overlaps itself |
| Sentinels.PrefixCountIff | packages/context/src/framing.ts:85-95 | a part of a text has no more markers than the text, and as many if and only if every marker ends within that part |
| Framing.RenderContextPack | packages/context/src/framing.ts:122-154 | the line-pushing loop renders what `Render` says |
| Framing.BlockReads | packages/context/src/framing.ts:145-151 | a reader of the announced length finds the end of a body, whatever the body contains |
| Framing.RenderRoundTrip | packages/context/src/framing.ts:122-154 | the reader recovers every header line and every body |
| Framing.RenderInjective | packages/context/src/framing.ts:122-154 | equal renderings mean equal rendered fields and bodies |
| PackReading.PackReads | packages/context/src/framing.ts:122-154 | a reader that spells the labels itself gets back the fingerprint and every field of every item |
| Selection.ParseContextBudget | packages/context/src/model.ts:224-279 | the accumulating loop accepts exactly the budgets whose numbers are in range, with reservations within maxima and in sum within the total |
| Selection.Packer.Eligible | packages/context/src/select.ts:146-192 | the loop with its set of seen digests prepares and omits, in order, what `Screen` says |
| Selection.Packer.TightestLimit | packages/context/src/select.ts:232-244 | the loop over the limits finds the tightest one and its reason, the first among equals |
| Selection.Packer.TryAdmit | packages/context/src/select.ts:204-327 | an attempt returns an item, a deferral or a reason as `Admit` says, and the six counters end up as it says |
| Selection.RefusalIsFree | packages/context/src/select.ts:204-327 | an attempt that admits nothing charges nothing, and only the reservation pass defers |
| PackDecisions.AdmitIsExact | packages/context/src/select.ts:204-327 | every attempt has exactly one right outcome: refused for the first exhausted count or tightest cap, deferred if it does not fit its reservation, or taken as the longest part that fits bytes and then units |
| PackDecisions.ScreenIsExact | packages/context/src/select.ts:146-192 | screening takes, in order, the first eligible candidate of each digest, and leaves each other one out for the first reason that applies |
| PackDecisions.FillIsExact | packages/context/src/select.ts:329-349 | the first pass tries every entry in order, the second those it left; each outcome is the right one for the items taken before, and exactly the refusals of the second pass are omissions |
| PackDecisions.EntriesInOrder | packages/context/src/select.ts:72-79 | the entries both passes walk through stand by category, then higher score, then identity, then digest |
| PackDecisions.PlanListsFilling | packages/context/src/select.ts:351-361 | a plan lists exactly the items of the filling, with their positions |
| Selection.Packer.FillPack | packages/context/src/select.ts:329-349 | the two loops over mutable counters give the filling that `FillIsOk`, `EveryCandidateOnce` and `ReservationGuarantee` speak of |
| Selection.Packer.PlanContextPack | packages/context/src/select.ts:118-404 | the whole run returns the plan, diagnostics and sentinel counts included, of which safety, conservation, order and independence of arrangement are proved below |
| Ordering.SortIgnoresArrangement | packages/context/src/select.ts:72-79 | sorting by a comparator without ties forgets the arrangement of its input |
| CanonicalOrder.CandidatesInOrder | packages/context/src/select.ts:72-79 | sorted candidates stand by category (task, constraint, repository, memory, artifact), then higher score, then identity, then digest |
| TextOrder.CompareTextIff | packages/context/src/select.ts:68-70 | `compareText` is the order of the first differing UTF-16 code unit |
| CanonicalOrder.ReasonRankIsName | packages/context/src/select.ts:363-368 | reasons are ranked as their names are |
| SelectionSafety.AdmissionIsSound | packages/context/src/select.ts:204-327 | an admitted item is a prefix of its candidate's text, fits every cap, and is charged for exactly |
| SelectionSafety.FillIsOk | packages/context/src/select.ts:329-349 | through both passes the counters are the sums over the accepted items and every cap holds |
| SelectionSafety.EveryCandidateOnce | packages/context/src/select.ts:329-349 | each candidate ends in exactly one of items and uncapped omissions |
| PackChecks.AssertCanonicalItemOrder | packages/context/src/pack.ts:422-450 | the check accepts exactly the lists with positions, distinct identities and digests, and canonical order |
| PackChecks.AssertUsage | packages/context/src/pack.ts:487-516 | the check accepts exactly the usages that add up |
| PackChecks.AssertCanonicalOmissionOrder | packages/context/src/pack.ts:452-466 | the check accepts exactly the omission lists in order |
| PackChecks.PlanIgnoresArrangement | packages/context/src/select.ts:72-79 | if candidates that differ never tie, every permutation of them gives the same plan |
| PackChecks.DistinctHaveNoTies | packages/context/src/select.ts:72-79 | which is so when their identities are distinct |
| PackChecks.PlanItemsInOrder | packages/context/src/select.ts:351-361 | the items of every plan stand in the same order |
| PackExamples.TiesShowOrder | packages/context/src/select.ts:72-79 | two tied candidates with different texts: the plan shows the one that came first |
| PackChecks.PlanIsInOrder | packages/context/src/select.ts:351-361 | and the plan passes the item-order check |
| PackChecks.PlanIsSafe | packages/context/src/select.ts:118-404 | for every input: the usage adds up, all five caps hold on the items, and every item shows an eligible candidate's text with the marker count of that text |
| PackChecks.ReadsBackIff | packages/context/src/pack.ts:258-286 | an item that shows a text passes `parsePackItem`'s recounts of bytes and markers if and only if it is not empty and no marker was cut into or off; an uncut one always does |
| PackChecks.PlanReadsBackIff | packages/context/src/select.ts:246-327 | so it is for every item of every plan |
| PackExamples.CutMarkerPlan | packages/context/src/select.ts:246-327 | a plan whose only item keeps a marker count that the reader refuses |
| PackChecks.PlanOmissionsInOrder | packages/context/src/select.ts:363-375 | omissions are in order and complete, or exactly the first ones up to the cap, flagged |
| Diagnostics.AssertCanonicalDiagnosticOrder | packages/context/src/pack.ts:468-485 | the check accepts exactly the diagnostics in order |
| Diagnostics.DiagnosticsOrder | packages/context/src/select.ts:387-392 | the comparison is a total preorder that ties only remarks that read the same |
| PackDiagnostics.PlanDiagnosticsInOrder | packages/context/src/select.ts:368-408 | the same for the diagnostics of every plan |
| PackDiagnostics.EveryCutIsReported | packages/context/src/select.ts:278-286 | before the cap, under every name: as many truncation remarks as truncated items |
| PackDiagnostics.EveryMarkerIsReported | packages/context/src/select.ts:173-191 | a marker remark is made for exactly the screened texts that have markers, so for every item whose count is positive, with that count |
| PackDiagnostics.RemarksAreExact | packages/context/src/select.ts:152-386 | before the cap, the remarks are exactly those given and those this run calls for, word for word |
| SelectionGuarantees.ReservedPassStaysWithin | packages/context/src/select.ts:329-339 | throughout the first pass each category stays within its reservation |
| SelectionGuarantees.ReservationGuarantee | packages/context/src/select.ts:215-257 | so there the byte budget and the category cap never bind: an entry that fits its reservation is refused only for counts, source, size or units |
| SelectionGuarantees.UnitsCutFits | packages/context/src/estimator.ts:37-43 | with the shipped estimator the cut made for units always fits them |
| SelectionGuarantees.TruncatedItemIsLong | packages/context/src/select.ts:246-280 | a truncated item has at least `minItemBytes` - 3 bytes |
| SelectionGuarantees.EmptyItemIff | packages/context/src/select.ts:246-257 | an admitted item is empty exactly when its first character needs more bytes than the tightest cap allows |
| SelectionGuarantees.NoEmptyItems | packages/context/src/select.ts:246-257 | with `minItemBytes` of at least 4 that cannot happen |
| SelectionGuarantees.PlanHasNoEmptyItems | packages/context/src/select.ts:329-361 | so no plan has an empty item then |
| PackExamples.EmptyItemExample | packages/context/src/select.ts:246-257 | below 4 it does: an example |
| PackExamples.EmptyItemPlan | packages/context/src/select.ts:329-361 | and a plan, for a single candidate, whose only item is empty |

## Left out

- SupersedeKeepsLimit: a rejected `get` during the measurement, which the store takes for the end of the chain, happens in the model only when the port is closed.
- FailedAppendIsStored: excludes resurrections, which replace a tombstoned record on purpose.
- LinksAreSafe: excludes resurrections, because replacing a tombstoned record can legitimately redirect its links; the journal properties include them.
- Work: a body is bounded by a number of operations (`most`), so that it ends; any bound is covered.
- Serializable: nested `transact` calls, which are refused through asynchronous local storage, are not modelled.
- Artifact descriptors and manifests, migrations, observers and the fault-injection hooks of both adapters.
- Checksums, canonical JSON, fingerprints and digests: opaque values; checksum failures do not occur.
- Field-by-field input validation, apart from the inequalities that the kernels rely on.
- Real SQLite, the file system, child processes, promises as such: statements are operations on tables, awaits are step boundaries, and a failing COMMIT is a body that throws.
- Cursor encoding to base64url: cursors are abstract values of two kinds.
- Authorization, policies, grants, tool and path checks: in the memory store any operation may be cut short at any await.
- Reading, querying and snapshots of the memory store, its unused `revokedAt` field, and the scope check on loaded entries, which buckets make redundant.
- Validation of injected unit estimators: an estimator is a function to the natural numbers.
- Texts with unpaired surrogates: text is a sequence of Unicode scalar values.
- `normalizeSubject`, record validation apart from self-supersession, and the audit observer of the memory store.
