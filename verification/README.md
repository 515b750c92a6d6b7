# Katherine backend: a verified model

A Dafny model of the parts of the Katherine companion backend whose guarantees are hard to see
from the code, with machine-checked proofs of them. `dafny verify dfyconfig.toml` checks everything.

**Context budgeting.** Sizes are not abstract: `Utf8` encodes and decodes characters as section 3 of
RFC 3629 says, `JsonSize` writes canonical JSON with the escapes of section 7 of RFC 8259, and that
the size of a message list is additive, monotone and blind to order is derived from those texts.
`Selection` is the theory of greedy selection under a budget. `TrustedContext` is `build_envelope`
with its loops; `EnvelopeTheorems` says what it guarantees and `EnvelopeContents` what each part of its result holds,
the untrusted records by reading them back with `JsonReader`. `Timestamps` and `HistoryOrder` explain why
comparing normalised timestamps as text is comparing instants. `ProviderEnvelope` is
`fit_optional_context`, `ProviderTheorems` and `ProviderContents` what its results mean, `Truncation` the two truncation functions.

**Turn commits.** `TurnStore` follows the stored procedures `commit_turn`, `replay_committed_turn` and
`privacy_apply_operation`. `TurnProtocol` interleaves any number of executions and privacy operations over them, with
failures, lost replies and commits that happen after their client gave up; the domain logic is an
arbitrary function. `TurnTheorems` draws the conclusions and `ProcessTurn` is the retry loop as code
that is proved to be a run of the protocol.

**Account deletion.** `DeletionLedger` follows the ledger's table and stored procedures,
`DeletionReplies` the parser of the reply to finalizing,
`DeletionProtocol` interleaves crashing workers, lapsing leases, shared worker ids, lost replies and late calls,
`DeletionEffects` says what each call does to the rows, `DeletionSafety` has the invariant, `DeletionTheorems` the guarantees over runs, including when a job can
still be completed, and `DeletionWorker` is `run_once` as code over the shared system.

**Concurrency, deadlines, provider keys.** `UserLocks` (the reference-counted lock with cancellation at
every await), `BlockingWrite` (the write that is never abandoned), `Deadlines`, `ProviderCalls`, `ProviderFacts` and
`TurnTiming` (the reserve for the commit), `KeyPool` and `KeyPoolRuns` (the round robin over provider keys).

**Numeric state machines and hash inputs.** `EmotionalCore` and `Relationship` compute with sums and products
rounded by an arbitrary arithmetic of module `Rounding`: monotone, idempotent, exact at -1, 0 and 1, with an error of at
most `eps`. Their results hold for every such arithmetic; what holds over exact reals only says so. Doubles differ from reals
where there is no slack: fifteen kind turns from neutral bring trust to 0.8000000000000003 and reach the top label, where the
reals need sixteen, and fourteen comforting turns bring tension from 1.0 to 0.29999999999999966, where the reals need
fifteen. `EmotionalEffects` and `RelationshipEffects` give the amounts of one turn. `HashInputs` has the byte strings that are hashed.

Protocols are total functions from a state and an action to a state, where an action that does not
apply changes nothing: every sequence of actions is a run, and a theorem about all runs quantifies
over all sequences. Code that updates things in place is a method, often of a class, proved
against such a function; the others' steps at its awaits are arguments of the method.

## Where the code and its documentation part

- *Truncating mode hardly ever truncates* (backend/provider_envelope.py:478-517). The room estimated
  for a cut section counts neither JSON escapes nor the line break in front of the section, so the cut text is
  accepted exactly when there is no suffix and the kept prefix, escaped, leaves two of its bytes unused
  (`ProviderTheorems.CutFits`). That needs a character of three or more bytes right after the cut: with a suffix, or for
  text below U+0800, the mode changes nothing (`ProviderTheorems.NarrowTextIsNeverCut`). `ProviderTheorems.ACutIsMade` is a request where it does.
- *Ties are reversed* when not all history fits (backend/trusted_context.py:906-915):
  `EnvelopeTheorems.TiesAreReversed`, with an instance in `EnvelopeTheorems.ATieIsReversed`.
- *Counts by kind and counts by collection* agree only for items filed under their kind
  (backend/trusted_context.py:964-969, 1046-1048): `EnvelopeTheorems.ItemConservation` gives the exact difference,
  `EnvelopeTheorems.MislabelledItemUncounted` a case.
- *`_truncate_utf8_safe` can exceed its limit*: `Truncation.HeadTruncation` says exactly when, and `Truncation.TruncateHeadTail`
  does for ratios of one and above; `Truncation.LimitsExceeded` has inputs.
- *A round of the deletion worker can end early* (backend/account_deletion_worker.py:330): an error envelope with a
  code other than `state_conflict` in reply to finalizing raises `ValidationError` (backend/account_deletion.py:496-500),
  which `_process_job` does not catch, against the docstring at lines 244-247. `DeletionWorker.ProcessJob` shows
  that an error escapes exactly then, and that a malformed reply is counted as a lost lease; `DeletionWorker.OneEscape` is an instance.
  The procedure in the migration sends no such reply (`DeletionReplies.MigrationRepliesAreForeseen`).
- *A non-retryable 4xx* is called terminal in backend/groq_manager.py:496 but the loop goes on to the next key:
  `ProviderCalls.ClientErrorGoesOn` says when, `ProviderFacts.AnswerAfterA400` is an instance.
- *A cancelled cleanup* of the user lock leaves its count too high for good; mutual exclusion does not suffer
  (`UserLocks.CountIsLivePlusLeaked`, `UserLocks.EmptyAtQuiescence`).

## Model

| member | source | states |
|---|---|---|
| Utf8.RoundTrip | backend/provider_envelope.py:240-249 | decoding what was encoded gives the text back |
| Utf8.DecodeCutPrefix | backend/provider_envelope.py:244-249 | decoding the first n bytes with errors ignored gives the longest prefix of whole characters within n bytes |
| Utf8.LongestPrefixUnique | backend/provider_envelope.py:244-249 | the limit determines that prefix |
| Utf8.DecodeCutSuffix | backend/provider_envelope.py:288-289 | decoding the last n bytes gives the longest suffix of whole characters within n bytes |
| JsonSize.MessageCost | backend/provider_envelope.py:126-136 | a message costs 25 bytes plus its escaped content and role, derived from its JSON text |
| JsonSize.UnitsAreCosts | backend/trusted_context.py:659-671 | the size of a list is one bracket plus the costs of its messages |
| JsonSize.UnitsPermutation | backend/trusted_context.py:877-915 | the size does not depend on the order of the messages |
| JsonSize.UnitsInsert | backend/trusted_context.py:659-671 | any further message makes a list strictly larger |
| JsonReader.MessagesComeBack | backend/trusted_context.py:625-640 | the text whose size is measured reads back as the message list, each object with exactly its content and role, in order |
| Selection.GreedyLexGreatest | backend/trusted_context.py:885-969 | trying candidates in order and keeping what fits yields the lexicographically greatest selection that fits |
| Selection.GreedyMaximal | backend/trusted_context.py:885-969 | no rejected candidate could be added |
| Selection.GreedyTakesAll | backend/trusted_context.py:885-905 | testing whether everything fits agrees with the loop |
| Timestamps.TextOrderIsTimeOrder | backend/trusted_context.py:1121-1159 | normalised timestamps compare as text exactly as their instants do, although zero microseconds are dropped |
| Timestamps.IsoReadsBack | backend/trusted_context.py:1121-1159 | the printed text holds every field at its place, and a fraction exactly if there are microseconds |
| HistoryOrder.StableSortUnique | backend/trusted_context.py:913-915 | there is exactly one stable sort by key |
| HistoryOrder.SortIsStable | backend/trusted_context.py:913-915 | the sort used is a permutation, sorted, and keeps equal keys in order |
| HistoryOrder.SortOfReversed | backend/trusted_context.py:906-915 | sorting an ascending history that was collected newest first restores it |
| ContextEnvelope.EnvelopeWeight | backend/trusted_context.py:642-671 | the size of an envelope is a base, the costs of what is selected, and one wrapper if any item is |
| TrustedContext.SelectHistory | backend/trusted_context.py:885-918 | the shortcut and the newest-first loop both make the greedy selection of history |
| TrustedContext.SelectItems | backend/trusted_context.py:920-962 | the item loop continues the greedy selection over memories, profile and persona, and counts omissions by collection |
| TrustedContext.ValidateUniqueRefs | backend/trusted_context.py:1097-1112 | accepts exactly lists of distinct references |
| TrustedContext.DistinctCodes | backend/trusted_context.py:1017-1037 | each code once, in the order of first occurrence |
| TrustedContext.BuildEnvelope | backend/trusted_context.py:797-1060 | the loops compute the outcome that the theorems below are about, errors in their order of precedence |
| EnvelopeTheorems.BuiltExactlyWhen | backend/trusted_context.py:840-883 | for items as their constructor admits them, a call succeeds exactly for valid input whose mandatory pair fits; the missing-id error is unreachable |
| EnvelopeTheorems.WithinBudget | backend/trusted_context.py:990-1015 | every result is within the budget; the check after selection never fires |
| EnvelopeTheorems.ChoiceIsLexGreatest | backend/trusted_context.py:885-969 | no selection whose real envelope fits beats the one made, in the order newest history, memories, profile, persona |
| EnvelopeTheorems.ChoiceIsMaximal | backend/trusted_context.py:885-969 | adding any omitted candidate would exceed the budget |
| EnvelopeTheorems.ItemConservation | backend/trusted_context.py:964-969 | selected plus omitted is the collection up to an exact count of items filed under another kind |
| EnvelopeTheorems.Conservation | backend/trusted_context.py:1039-1049 | with matching kinds selected plus omitted is the input, in every category |
| EnvelopeTheorems.MislabelledItemUncounted | backend/trusted_context.py:1046-1048 | a profile item kept among the memories is in no memory count |
| EnvelopeTheorems.ChronologyRestored | backend/trusted_context.py:906-918 | both paths render the chosen history in bundle order when keys ascend |
| EnvelopeTheorems.MessageOrder | backend/trusted_context.py:971-988 | for ascending histories, message by message: the policy with its rule, at most one further message of the user, each chosen history message under its own role and with its own content in bundle order, the current message |
| EnvelopeTheorems.EnvelopeExactly | backend/trusted_context.py:971-988 | any envelope, message by message: roles, contents, positions and their number |
| EnvelopeTheorems.TiesAreReversed | backend/trusted_context.py:906-915 | equal keys keep their order if all history fits and are reversed otherwise |
| EnvelopeTheorems.ATieIsReversed | backend/trusted_context.py:906-915 | a call whose result shows the later of two tied messages first |
| EnvelopeTheorems.RowsAscend | backend/trusted_context.py:698-719 | rows oldest first by instant and id give ascending sort keys |
| EnvelopeContents.CandidatesExactly | backend/trusted_context.py:934-942 | the candidates are all history, then memories, profile and persona in order, each item with its collection |
| EnvelopeContents.RejectedExactly | backend/trusted_context.py:840-883 | which error a call ends with, from the call alone: the first of the conditions that holds |
| EnvelopeContents.MessagesExactly | backend/trusted_context.py:971-988 | the messages of every built call: system, one message of the user that reads back as the records of the chosen items, the chosen history sorted with roles and contents kept, the current message |
| EnvelopeContents.PayloadComesBack | backend/trusted_context.py:335-349 | the untrusted payload reads back as one record an item, in order, with exactly its seven fields |
| EnvelopeContents.SelectExactly | backend/trusted_context.py:885-969 | what a selection keeps: the chosen elements and no others, each after as many as were chosen before it |
| EnvelopeContents.SourceMapExactly | backend/trusted_context.py:990-1010 | the source map has exactly the references of the chosen items; an approved memory maps to its non-empty id, another item to its id or, without one, its reference |
| EnvelopeContents.CountsExactly | backend/trusted_context.py:1039-1049 | every count of the report, as the number of positions left out of each collection and of positions kept of each kind |
| EnvelopeContents.CodesExactly | backend/trusted_context.py:1017-1037 | a code is reported exactly if the bundle had it or something of its category was left out; each once, the new ones last and in the order history, memory, profile, persona |
| EnvelopeContents.FirstOccurrencesInOrder | backend/trusted_context.py:1028-1037 | removing duplicates keeps the order of first occurrences |
| Truncation.HeadTruncation | backend/provider_envelope.py:231-249 | a cut text is the longest whole-character prefix and the marker; it respects the limit exactly in the cases listed |
| Truncation.LimitsExceeded | backend/provider_envelope.py:244-299 | inputs for which either truncation exceeds its limit |
| Truncation.TruncateHeadTail | backend/provider_envelope.py:252-299 | the longest head and end within their byte shares are kept, the end shortened as little as the limit demands; for ratios below one the ends are disjoint, the limit holds and the shrinking loop never runs; for others the limit fails exactly if some prefix is longer than the room beside the marker and within the head's share |
| Truncation.ExactKeepsBelow | backend/provider_envelope.py:282-283 | exact products satisfy what the truncation asks of the rounding of its shares |
| Truncation.HeadShare | backend/provider_envelope.py:282-283 | the head's share is the whole part of the rounded product, and at least one byte |
| ProviderEnvelope.TrialWeight | backend/provider_envelope.py:445-475 | the size of a trial is the weight of its selection |
| ProviderEnvelope.Accept | backend/provider_envelope.py:466-476 | a section that fits whole can only be accepted while nothing is cut |
| ProviderEnvelope.AcceptCut | backend/provider_envelope.py:486-517 | a cut section can only be accepted while nothing is cut, because later trials rebuild it whole |
| ProviderEnvelope.SelectSections | backend/provider_envelope.py:445-517 | the loop leaves the greedy selection, or one cut section on top of it; in truncating mode the first section that can be cut is |
| ProviderEnvelope.AppendToSystem | backend/provider_envelope.py:559-574 | changes the first system message only, and fails exactly without one |
| ProviderEnvelope.FitOptionalContext | backend/provider_envelope.py:385-530 | fails exactly as the mandatory part, the system message, the priority and the suffix demand, never because of a section; otherwise header, kept sections in visual order, suffix, all else unchanged, within the budget |
| ProviderTheorems.SectionsLexGreatest | backend/provider_envelope.py:436-476 | without a cut, no selection of non-empty sections that fits is better in priority order |
| ProviderTheorems.SectionsMaximal | backend/provider_envelope.py:445-481 | without a cut, no section left out could be added |
| ProviderTheorems.CutIsLast | backend/provider_envelope.py:445-517 | nothing after a cut section is selected |
| ProviderTheorems.CutFits | backend/provider_envelope.py:478-517 | exactly when a cut section is accepted |
| ProviderTheorems.CutNeedsWideCharacter | backend/provider_envelope.py:544-556 | a cut happens only without a suffix and before a character of three or more bytes |
| ProviderTheorems.NarrowTextIsNeverCut | backend/provider_envelope.py:478-517 | with a suffix, or for text below U+0800, truncating mode never truncates |
| ProviderTheorems.ACutIsMade | backend/provider_envelope.py:482-510 | a request for which a cut section is accepted, and what is kept of it |
| ProviderTheorems.TheCutIsForced | backend/provider_envelope.py:482-510 | no success of that request leaves the section uncut |
| ProviderContents.RefusalExactly | backend/provider_envelope.py:385-437 | why a request fails, from the request alone: the first of the conditions that holds |
| ProviderContents.ResultExactly | backend/provider_envelope.py:445-530 | a success changes the first system message only: what it was, a line for each chosen section in visual order, the suffix; the choice is reported as a set and as pruned or not |
| ProviderContents.ResultWithoutSections | backend/provider_envelope.py:411-422 | without sections the suffix is appended, if there is one |
| ProviderContents.FirstDifference | backend/provider_envelope.py:436-476 | against any other selection that fits, the first section in the given priority on which the two differ is one that was chosen |
| TurnStore.CommitIsAtomic | supabase/migrations/20240101000005_atomic_turn_commit.sql:703-988 | a call writes everything exactly if nothing settles it first, the revision is the expected one and the outbox accepts its events, and nothing otherwise; the lost reclaim is unreachable |
| TurnStore.OutcomeExactly | supabase/migrations/20240101000005_atomic_turn_commit.sql:703-813 | which answer a call gets, from tables, call, hash and clock: a different hash is a payload conflict whatever the row's status; a live lease of another owner is in progress; reclaiming without an owner is a lease conflict; an open request is decided by the revision and then the outbox; committed exactly otherwise or for a completed row with the same hash |
| TurnStore.TablesExactly | supabase/migrations/20240101000005_atomic_turn_commit.sql:812-969 | what each answer leaves: all of the turn, table by table, or the tables as they were, and for a completed row its stored result |
| TurnStore.ReplayAgreesWithCommit | supabase/migrations/20240101000006_process_turn_replay.sql:91-136 | a lookup and a repeated commit of another worker agree on whether a request is done, under way or open |
| TurnStore.ReplayExactly | supabase/migrations/20240101000006_process_turn_replay.sql:91-136 | a lookup finds exactly a completed row and its stored result, and is in progress exactly under a live lease |
| TurnStore.PrivacyExactly | supabase/migrations/20260808220000_privacy_data_operations.sql:423-560 | an operation works once per id: the revision moves, a reset replaces its own snapshot, deleting the history clears requests, chat and outbox of its user, and nothing else changes |
| TurnProtocol.AloneATurnCommits | backend/process_turn.py:420-494 | a turn that commits what it loaded, for a new request, takes effect with any domain logic: revision 1 for a new user, snapshots, the two chat lines, the reply to replay, the archival event |
| TurnProtocol.CommitKeepsSound | backend/process_turn.py:468-494 | a commit on a matching revision writes what a turn run alone now would write |
| TurnProtocol.OperateKeepsSound | supabase/migrations/20260808220000_privacy_data_operations.sql:423-560 | a privacy operation invalidates whatever was loaded before it |
| TurnProtocol.RunsAreSerializable | backend/process_turn.py:300-494 | in every interleaving the tables are what the logged writes produce one after another, each taking effect |
| TurnTheorems.RevisionCountsWrites | backend/atomic_turn_commit.py:4-15 | a revision is its start plus the number of writes to the profile |
| TurnTheorems.NoLostUpdate | backend/process_turn.py:341-494 | a turn's snapshot is the transition of exactly the state its predecessor left; other users are untouched |
| TurnTheorems.ResetIsSeen | supabase/migrations/20260808220000_privacy_data_operations.sql:501-530 | a reset is never overwritten by a turn that loaded the state before it; the next turn starts from the reset state |
| TurnTheorems.RunsLoseNoUpdate | backend/process_turn.py:300-494 | both of these for every run |
| TurnTheorems.AtMostOncePerRequest | supabase/migrations/20240101000005_atomic_turn_commit.sql:717-798 | two writes of one request have a deletion of the history between them |
| TurnTheorems.TurnCompletes | supabase/migrations/20240101000005_atomic_turn_commit.sql:865-969 | a turn completes an open request, and the stored result is its own response, revision and references |
| TurnTheorems.RunsCommitOnce | backend/process_turn.py:300-494 | the same for every run |
| TurnTheorems.CompletedStays | supabase/migrations/20240101000005_atomic_turn_commit.sql:750-766 | a completed request keeps its result until the history is deleted |
| TurnTheorems.ChatIsTheLog | supabase/migrations/20240101000005_atomic_turn_commit.sql:851-863 | a user's chat is two lines per turn since the last deletion |
| TurnTheorems.RunsAreTruthful | backend/process_turn.py:252-296 | every result returned or replayed is a stored one |
| TurnTheorems.WhatAnExecutionDid | backend/process_turn.py:263-346 | at most two commits, at most one write, none after a conflict; a returned result is stored and replays the same until the history is deleted |
| ProcessTurn.LoadState | backend/turn_repositories.py:87-164 | state and revision come from one read |
| ProcessTurn.CommitCall | backend/process_turn.py:468-487 | one call, for exactly what was loaded |
| ProcessTurn.RunOnce | backend/process_turn.py:341-494 | one attempt ends with its failure, or as the answer of `commit_turn` to the call built from what was loaded says; a revision mismatch wrote nothing |
| ProcessTurn.ExecuteNormal | backend/process_turn.py:300-339 | from the schedules and what `commit_turn` answers on the tables the others leave: a second attempt exactly after a delivered revision mismatch in time; a late one raises DeadlineExceeded, a second one a conflict; every other answer, a lost reply and a failure have the stated result; and the whole is a run of the protocol |
| ProcessTurn.ExecuteReplay | backend/process_turn.py:263-296 | a replay returns a completed row's result and otherwise raises one of two conflicts by its lease; it never writes and never computes |
| DeletionLedger.RequestKeepsOk | supabase/migrations/20260810120000_account_deletion_ledger.sql:416-490 | filing a request keeps the table's constraints and its unique index |
| DeletionLedger.RetainKeepsOk | supabase/migrations/20260810120000_account_deletion_ledger.sql:1111-1144 | dropping finished jobs keeps the constraints and the index |
| DeletionEffects.RequestExactly | supabase/migrations/20260810120000_account_deletion_ledger.sql:416-490 | one job for each reference and operation: the same intent is replayed, another refused, a new one queued at once |
| DeletionEffects.RetainExactly | supabase/migrations/20260810120000_account_deletion_ledger.sql:1111-1144 | retention drops chosen finished jobs and nothing else |
| DeletionEffects.WaitsExactly | supabase/migrations/20260810120000_account_deletion_ledger.sql:610-667 | which rows wait and which are spent, and every field of a row given up and of a row handed out |
| DeletionEffects.PurgeExactly | supabase/migrations/20260810120000_account_deletion_ledger.sql:797-885 | a purge goes through exactly with a live lease, the row's fingerprint and no purge before; then it erases the user's rows and marks the job, else nothing changes |
| DeletionEffects.AuthExactly | backend/account_deletion_worker.py:305-323 | the call to Auth is logged, removes the user as its outcome says, and changes no row |
| DeletionEffects.RecordExactly | supabase/migrations/20260810120000_account_deletion_ledger.sql:902-1036 | an unavailable service puts an owned job back, due 30 seconds an attempt later, or fails it at the ceiling; a refusal fails it with its code; without a live lease nothing is recorded |
| DeletionEffects.FinalizeExactly | supabase/migrations/20260810120000_account_deletion_ledger.sql:1051-1095 | an owned and purged row is finished and forgets its user; any other row stays |
| DeletionReplies.ParserIsExact | backend/account_deletion.py:494-512 | `ValidationError` exactly for an error envelope with a code other than `state_conflict`, `ConflictError` exactly for that code, a result exactly for a completed envelope, `PersistenceError` for everything else |
| DeletionReplies.MigrationRepliesAreForeseen | supabase/migrations/20260810120000_account_deletion_ledger.sql:1051-1095 | none of the migration's replies to finalizing raises `ValidationError` |
| DeletionReplies.AnEscapingReply | backend/account_deletion.py:496-500 | a reply that does |
| DeletionSafety.PurgeKeepsSound | backend/account_deletion_worker.py:279-303 | after a successful or replayed purge the purge is committed |
| DeletionSafety.AuthKeepsSound | backend/account_deletion_worker.py:305-323 | after a confirmed deletion the user is absent |
| DeletionSafety.FinalizeKeepsSound | backend/account_deletion_worker.py:325-346 | finalizing completes purged jobs of absent users only |
| DeletionSafety.ClaimKeepsSound | supabase/migrations/20260810120000_account_deletion_ledger.sql:648-667 | a claim counts one attempt and hands out the subject's own job |
| DeletionSafety.RunsAreSound | backend/account_deletion_worker.py:236-418 | the invariant holds after every run |
| DeletionTheorems.AuthOnlyAfterPurge | backend/account_deletion_worker.py:275-312 | in every run a call to Auth names the subject of its job and comes after the committed purge of that job |
| DeletionTheorems.RemovalIsOrdered | backend/account_deletion_worker.py:275-312 | a user leaves Auth only after the purge of, and then a call for, a job whose subject that user is |
| DeletionTheorems.PurgeErasesTheSubject | supabase/migrations/20260810120000_account_deletion_ledger.sql:837-859 | a purge leaves nothing of the job's subject in the tables and nothing else changed |
| DeletionTheorems.CompletedMeansGone | backend/account_deletion.py:23-41 | a completed job is purged, its user absent from Auth, its row without identity |
| DeletionTheorems.ClaimsAreBounded | supabase/migrations/20260810120000_account_deletion_ledger.sql:256-261 | a job is handed out as often as its row says, at most a hundred times |
| DeletionTheorems.OnlyTheOwnerActs | supabase/migrations/20260810120000_account_deletion_ledger.sql:700-737 | while a lease is live only calls in its owner's name change the job |
| DeletionTheorems.NothingBeforeItsTime | supabase/migrations/20260810120000_account_deletion_ledger.sql:615-626 | in every continuation a waiting job is left alone until it is due |
| DeletionTheorems.BackoffIsKept | supabase/migrations/20260810120000_account_deletion_ledger.sql:902-1036 | after a recorded retry or failure a job is not touched for 30 seconds an attempt, at most 2970, so the cap of an hour never binds; the purge marker stays |
| DeletionTheorems.DeadForever | supabase/migrations/20260810120000_account_deletion_ledger.sql:632-646 | a job out of attempts that nobody holds stays unfinished in every continuation |
| DeletionTheorems.ServeQueue | supabase/migrations/20260810120000_account_deletion_ledger.sql:610-626 | the queue ahead of an eligible job can be served until it comes first |
| DeletionTheorems.CanBeCompleted | backend/account_deletion_worker.py:236-346 | from any state a new worker can drive a recoverable job to completed |
| DeletionTheorems.RecoverableExactly | backend/account_deletion_worker.py:236-418 | after any run, an unfinished job with attempts left can be completed, under a live lease too; without a live lease exactly then |
| DeletionWorker.FirstWaiting | supabase/migrations/20260810120000_account_deletion_ledger.sql:615-626 | finds the first waiting row that is not locked, and none only if none waits |
| DeletionWorker.AcquireLease | supabase/migrations/20260810120000_account_deletion_ledger.sql:610-682 | gives up spent jobs, hands out the first of the others in the order of the queue, changes no other row, and hands out nothing only if nothing waits |
| DeletionWorker.ProcessJob | backend/account_deletion_worker.py:275-418 | on rows and counters, from the state in which the last call is made: an unavailable Auth leaves the row pending and counts a retry, or failed at the ceiling; a refusal fails it with its code; a finished job counts as completed; a lost reply or lease, a state conflict or a malformed reply as a lost lease; a purge that does not go through as a failure; an error escapes exactly if finalizing a confirmed deletion is answered by an unforeseen error |
| DeletionWorker.OneEscape | backend/account_deletion_worker.py:325-346 | a job whose error escapes without moving a counter |
| DeletionWorker.RunOnce | backend/account_deletion_worker.py:236-271 | at most a batch, every claim counted once; a round ends below its batch exactly if a job escapes, a claim is lost, or nothing unlocked was waiting; no_work means the latter at the first claim |
| UserLocks.UserLockManager.Register | backend/lock_manager.py:20-25 | the caller is counted in on its user's lock, an existing one or a new one; no other entry changes |
| UserLocks.UserLockManager.Cleanup | backend/lock_manager.py:32-36 | the caller is counted out, and the entry dropped with the last one; no other entry changes |
| UserLocks.RunsAreSound | backend/lock_manager.py:14-36 | the invariant holds after every run, with cancellation at every await |
| UserLocks.MutualExclusion | backend/chat_engine.py:96-113 | at most one task per user is in the critical section |
| UserLocks.EntryStays | backend/lock_manager.py:29-36 | an entry is not removed or replaced while a task holds or waits for its lock |
| UserLocks.CountIsLivePlusLeaked | backend/lock_manager.py:29-36 | the count is the live participants plus the cancelled cleanups |
| UserLocks.EmptyAtQuiescence | backend/lock_manager.py:29-36 | once all tasks are over the dictionary is empty exactly if no cleanup was cancelled |
| UserLocks.UsersDoNotBlockEachOther | backend/lock_manager.py:19-28 | a task is kept waiting by a task of the same user only |
| UserLocks.LifeOfATask | backend/lock_manager.py:19-36 | every step of a task in every run: registered, granted once the lock is free, released, counted out; and what a cancellation makes of each |
| BlockingWrite.RunBlockingWrite | backend/turn_execution.py:226-289 | ends with the worker and not before, the outcome is in hand when it ends, the first cancellation wins, else the classified outcome |
| BlockingWrite.CancellationIsNeverLost | backend/turn_execution.py:245-273 | a cancellation before the worker finished is answered |
| Deadlines.TimedAwaitKeepsReserve | backend/turn_execution.py:339-366 | an await whose timeout comes from the budget before the reserve leaves the reserve whole |
| Deadlines.BackoffBounds | backend/turn_execution.py:624-646 | a backoff is between the base and the cap, jitter included |
| Deadlines.BackoffDoubles | backend/turn_execution.py:624-646 | without jitter the delay starts at the base and doubles up to the cap; jitter adds its random fraction, up to the cap as well |
| TurnTiming.Read | backend/turn_execution.py:153-166 | when a read ends and whether in time; it never reaches into the reserve |
| TurnTiming.TimedTurn | backend/process_turn.py:300-346 | the turn's loop computes its timeline as a function of pool and plan; each commit has the whole reserve |
| TurnTiming.CommitsHaveTheReserve | backend/process_turn.py:336-346 | in every turn each commit, the retry included, starts with the whole reserve, at least two database timeouts, and the turn ends by its deadline if no commit takes longer than one |
| TurnTiming.CommitsExactly | backend/process_turn.py:300-346 | when a turn commits once and when twice, at what times, and when it ends |
| KeyPool.KeyManager.CleanUp | backend/groq_manager.py:222-225 | exactly the cooldowns that are over are dropped |
| KeyPool.KeyManager.AcquireNextKey | backend/groq_manager.py:219-268 | the first eligible key from the index on; fails exactly if there is none, with the code of the pool's state; the fallback is unreachable |
| KeyPool.CodeExactly | backend/groq_manager.py:228-262 | the code of an exhausted pool: refused if all keys are out of use, rate limited if all others cool down, else a connection failure |
| KeyPool.KeyManager.MarkKeyRateLimited | backend/groq_manager.py:270-273 | for any call and time, the key is eligible again exactly from ten seconds on; other keys are unaffected |
| KeyPool.KeyManager.DeactivateKey | backend/groq_manager.py:275-279 | the key is eligible for no call at any time; other keys are unaffected |
| KeyPool.NextOfTour | backend/groq_manager.py:239-253 | an acquisition takes the next eligible position of a tour around the keys |
| KeyPool.RoundRobinIsFair | backend/groq_manager.py:239-253 | with distinct keys and a steady pool, as many acquisitions as eligible keys return each exactly once, from any index |
| KeyPoolRuns.RestrictionsAreObeyed | backend/groq_manager.py:219-279 | in every run a deactivated key is never handed out again and a rate-limited one not before its cooldown is over |
| ProviderCalls.ChatCompletion | backend/groq_manager.py:423-516 | at most as many attempts as configured and as there are keys in use; fewer failed ones only for lack of time, of an eligible key or of a client; after as many, the last failure is the code; and all guarantees below |
| ProviderCalls.CallIsAsLongAsAllowed | backend/groq_manager.py:426-516 | the same of the call as a function of pool and plan |
| ProviderCalls.CallsKeepTheirWord | backend/groq_manager.py:423-516 | different keys, a bounded number of attempts, each the plan's or its timeout, all inside the budget; refused keys deactivated; all but the last failed; an early end is an answer, a cancellation, a client that could not be made, no time before the reserve, or no eligible key |
| ProviderCalls.ClientErrorGoesOn | backend/groq_manager.py:487-515 | after a 4xx other than 401 the call makes no further attempt exactly if it has none left, no time after the pause, no other eligible key, or a client that can not be made |
| ProviderCalls.Settle | backend/groq_manager.py:468-505 | which replies deactivate the key, cool it down for ten seconds or only count, and under which code |
| ProviderFacts.AttemptsExactly | backend/groq_manager.py:436-510 | when each attempt of a call begins and ends, with the pause before it, and whether its reply is the plan's or a timeout |
| ProviderFacts.DisabledExactly | backend/groq_manager.py:480-491 | the keys a call leaves out of use are those that were, those refused in it and those others disabled meanwhile |
| ProviderFacts.RateLimitedKeyRests | backend/groq_manager.py:476-479 | a key rate limited in a call is eligible for nobody until ten seconds after, in the pool the call leaves |
| ProviderFacts.FailsOver | backend/groq_manager.py:426-516 | two keys and a failure of the first: the second is tried and its answer is the call's |
| ProviderFacts.AnswerAfterA400 | backend/groq_manager.py:487-515 | a 400 from the first key and an answer from the second |
| EmotionalCore.RunsStayInRange | backend/emotional_core.py:134-204 | every value stays in its range in every run, with any rounding |
| EmotionalEffects.ModeExactly | backend/emotional_core.py:91-127 | with any rounding: an upset state is defensive if it ends dominant and dissociated if not, a calm one healthy, and in between the mode stays; aggression grows exactly in a defensive turn |
| EmotionalEffects.TurnExactly | backend/emotional_core.py:49-204 | every value after a turn over the reals: decay by idle time, the amounts of each group of words, the override, libido, tension |
| EmotionalCore.WordsPullTheirWay | backend/emotional_core.py:49-84 | compared turn for turn, with any rounding, an insult never pleases, empowers or calms, and praise never does the opposite |
| EmotionalCore.HealthyForever | backend/emotional_core.py:91-204 | with any rounding, from a healthy state with tension at most 5/6 less six rounding errors, which covers 0.8, every run stays healthy, with tension at most 0.5 + 0.9^n times the excess over 0.5, plus forty errors |
| EmotionalCore.AlwaysHealthyAround | backend/emotional_core.py:91-204 | with any rounding, 5/6 is the limit up to six rounding errors |
| EmotionalCore.AlwaysHealthyExactly | backend/emotional_core.py:91-204 | over exact reals 5/6 is the exact limit |
| EmotionalCore.RecoveryAround | backend/emotional_core.py:91-127 | with any rounding, an upset state can be healthy after n turns if n steps of 0.05 bring its tension below 0.3 by a margin of 2n + 1 errors, and can not if they miss it by one |
| EmotionalCore.RecoveryExactly | backend/emotional_core.py:91-127 | over exact reals an upset state can be healthy after n turns exactly if n steps of 0.05 bring its tension below 0.3 |
| EmotionalCore.FourteenOnTheGrid | backend/emotional_core.py:91-127 | from tension 1, fourteen turns suffice on the grid of 2^-53 and do not over the reals |
| EmotionalCore.TenTurnsToRecover | backend/emotional_core.py:91-127 | with any rounding, after a turn that upset it, a state needs at least ten turns |
| EmotionalCore.ElevenOverTheReals | backend/emotional_core.py:91-127 | over exact reals at least eleven |
| Relationship.ValidateTriggers | backend/relationship.py:187-230 | the loop computes the normal form or refuses |
| Relationship.NormalForm | backend/relationship.py:187-230 | results are normal, and exactly the normal lists are left as they are |
| Relationship.StripExactly | backend/relationship.py:187-230 | stripping takes away the spaces at both ends and nothing else |
| Relationship.TriggersExactly | backend/relationship.py:187-230 | refused exactly for more than 32 triggers or one that is empty or longer than 128 once stripped; otherwise exactly the stripped texts, each once |
| Relationship.TransitionStep | backend/relationship.py:642-755 | with any rounding: fails exactly when the clock goes back; keeps ranges and triggers, never lowers affection, bounds the changes |
| RelationshipEffects.TrustExactly | backend/relationship.py:709-716 | with any rounding: trust rises by the configured delta above its threshold, falls by the other below, and else is exactly as it was |
| RelationshipEffects.TransitionExactly | backend/relationship.py:642-755 | every metric over the reals with the default settings |
| RelationshipEffects.LabelExactly | backend/relationship.py:378-407 | the label of each region of the metrics, with any rounding |
| Relationship.WhatRunsKeep | backend/relationship.py:642-755 | over every run and with any rounding: ranges, triggers, time and affection never decreasing, gains at most n times the deltas and their rounding errors |
| Relationship.SoulmatesTakeFifteenTurns | backend/relationship.py:378-407 | with any rounding, no run of fewer than fifteen turns from neutral reaches the top label |
| Relationship.SixteenTurnsSuffice | backend/relationship.py:526-558 | with any rounding sixteen turns can |
| Relationship.FifteenOnTheGrid | backend/relationship.py:526-558 | on the grid that doubles have between one half and one, fifteen can |
| Relationship.SixteenOverTheReals | backend/relationship.py:378-407 | over exact reals none shorter than sixteen does |
| HashInputs.HashInputInjective | backend/admission.py:229-292 | domain and payload are determined by the bytes hashed, over all five domains |
| HashInputs.HashInputText | backend/admission.py:229-292 | what is hashed is the purpose, a zero character and the payload, as UTF-8 |
| HashInputs.IdempotencyInputInjective | backend/archival_memory.py:36-38 | user, log id and version are determined by the text hashed |
| HashInputs.AnIdempotencyInput | backend/archival_memory.py:36-38 | the text of one key |

## Left out

- JSON: the confidence of a context item is the text of its number as given; floats are not printed by the model. Lone surrogates and other value types are not modelled.
- The boundary rule that closes the system message is a parameter; timestamps enter as date-time fields already converted to UTC.
- Type errors (arguments that are no list, dict or string) have no counterpart in a typed model.
- ProviderCalls.ChatCompletion: the validation of the envelope before the first attempt is that of `ProviderEnvelope.Validate` and is not repeated; closing a client takes no time.
- Step 0 of `commit_turn` is modelled for the user id and the public response; its checks of sizes, keys and formats only reject and never write.
- Payload hashes are arbitrary functions of the call; nothing is claimed about SHA-256 or HMAC.
- Legacy writers of profiles without a revision (backend/memory.py:284-306) and the purge of an account between the steps of a turn are not part of the turn protocol.
- Retention of chat logs and outbox delivery are not part of the turn protocol; memories, archival extractions and reservations are not among the tables.
- The tombstone that keeps new turns of a deleted account out of the tables belongs to the HTTP gate and is not modelled; the user tables may change at any time in the deletion protocol.
- DeletionTheorems.RecoverableExactly: leaves open whether a job on its hundredth attempt completes while its lease is live; that depends on the worker that holds it.
- DeletionWorker.ProcessJob: a reply to finalizing other than the ledger's own is an argument; the counter then goes by the reply and the row by the ledger.
- UserLocks: locks are granted to any waiter, not in the order of arrival, and a task may be cancelled even where asyncio would not suspend it.
- TurnTiming.TimedTurn: awaits end within their timeouts and other code takes no time; a commit may last any time.
- Floating-point rounding is an arbitrary monotone rounding in the numeric state machines and a parameter of head-tail truncation; that binary64 is one is not proved. Times, budgets and backoffs are exact reals.
- The companion runtime, HTTP routes, authentication, settings, health probes, the other strict RPC parsers, the synchronous provider path, packaging and the frontend: input and output, configuration, or case-by-case code that would only add easy members.
