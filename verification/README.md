# Verified model of the mail control plane

Norest keeps its own state in front of a Stalwart mail server: conversation threads, idempotency keys for sending,
a queue of provisioning jobs, a mirror of each mailbox behind a state token, delivery statuses, an event outbox and some
in-memory machinery. This project models that state and what the code does to it, and proves what the code keeps.

Tables are maps of rows. One transaction or one SQL statement is one atomic step; a crash is a stop between steps. What
the database, the mail server and the clock answer arrives as parameters (`Commit`, `Outcome`, `Fault`, `Answers`,
`Fate`, `now`, …), so every theorem covers all of them. `LIMIT 1` without an order is a choice left open. Code that
updates objects in place is a class whose methods are proved against functions of the old state, and also say outright,
in fields and constants, what they leave behind; the theorems about whole runs are lemmas over those functions or over
state machines whose steps are the statements of the source.

| file | what it holds |
|---|---|
| `Subjects.dfy` | the subject-normalising loop and its normal form |
| `MailStore.dfy`, `MailRepository.dfy` | the thread store as values; the five-step lookup, merging and projection in place |
| `ThreadInvariants.dfy`, `MailRows.dfy` | what every synchronised email keeps, and what it leaves in the rows |
| `Links.dfy`, `AnyOrder.dfy`, `Convergence.dfy`, `ExactConvergence.dfy`, `Replies.dfy` | the link graph; threading in one pass and in two, with the exact conditions; conversations built by replying |
| `Idempotency.dfy`, `SendProtocol.dfy`, `SendHandler.dfy` | the key table; the protocol of concurrent requests; the handler as a run of it |
| `JobQueue.dfy`, `LeaseProtocol.dfy`, `ProvisioningWorker.dfy`, `LeaseDelays.dfy`, `Retry.dfy`, `Words.dfy` | the job table; workers, leases and recoveries; the worker as runs of that; the retry delays, in 64-bit words |
| `Activation.dfy` | account creation, disabling and enabling, each stopped anywhere and run again |
| `SyncWorker.dfy`, `SyncClient.dfy`, `Mirror.dfy`, `Backfill.dfy` | applying a change batch; a client's own sync; the mirror and its token; the resumable backfill |
| `Delivery.dfy`, `Outbox.dfy` | delivery tracking with bounces; publishing the outbox |
| `Broker.dfy`, `RateLimiter.dfy`, `Pagination.dfy` | realtime fan-out; the sliding window; keyset pages |

## Where the code does less than it seems to

Several properties hold only under a condition. For each of these the project proves the exact condition, or a run in
which the property fails.

- Threading in one pass is complete exactly for headers that are ancestor-complete (`AnyOrder.AnyOrderIffComplete`),
  unless two emails mention each other in ids that their rows drop (`AnyOrder.SilentPairsThread`).
- A second pass always yields the connected components exactly for headers in which every email is linked to whatever
  its lookup may settle on, by reference or by subject (`ExactConvergence.ConvergesIffAdjacent`). The row keeps only the
  first In-Reply-To id while the lookup uses all of them, and an id dropped that way makes the result depend on the
  order of arrival (`Convergence.DroppedParentDiverges`).
- A send happens at most once exactly when every error that may hide an acceptance is one the classifier recognises by
  its text (`SendProtocol.AtMostOnceIffLiesRecognised`).
- A recovery sweep is safe exactly when it spares every live execution (`LeaseProtocol.RecoverSafeIff`). The sweep's
  cutoff is compared with one clock; a worker slower than its lease runs its job beside the next one.
- The handler for domains marks its own job as succeeded in mid-run. A succeeded job keeps its status exactly as long as
  no failure is written for it (`LeaseProtocol.StatusStaysIff`), and one is when the reply to that mark is lost
  (`LeaseProtocol.LostReplyReopens`).
- The delay of a failure mark is computed in 64-bit words and wraps past 27 attempts: every delay of every run is the
  meant one exactly for at most 28 attempts (`LeaseDelays.RunsDelayExactlyIff`).
- The comment on a failed job says it failed permanently, but a failure that is not retryable is queued again while
  attempts remain; the model follows the code.
- A mailbox whose job failed stays marked as syncing. The worker picks it again only once a client's own sync succeeds
  or the account is activated again (`Mirror.ShelvedUntilRevived`). Those move the token without storing any email, so
  the mirror survives them exactly when the state they skip to holds nothing unstored that is still on the server and
  misses nothing stored (`Mirror.AlwaysMirrorsIff`, `Mirror.ClientSyncMirrorsIff`, `Mirror.ClientSyncSkips`).
- Enabling sets a mailbox active without looking at it. That is harmless exactly for a mailbox that was activated once
  and has the folders of its current account (`Activation.AlwaysReadyIff`, `Activation.EnabledTooEarly`).
- An address stays its user's exactly when its reservation does not lapse before it is claimed
  (`Activation.OwnerKeptIff`); the run that was to claim it for one user may claim it for the next
  (`Activation.LapsedAddressPasses`).
- With two delivery workers a delivered message can be under way again (`Delivery.TwoWorkersReopen`). The comment on
  permanent errors speaks of the SMTP code; the code looks at the first digit anywhere in the reply.
- A reader of pages misses a thread exactly when it is bumped across the cursor (`Pagination.ShownIffNotOvertaken`).
- The shift in the retry delay loses its bits from the 64th attempt on (`Retry.WithinJitterIff`).

## Model
| member | source | states |
|---|---|---|
| `Subjects.NormalizeSubject` | internal/mail/thread_resolver.go:107-123 | the nested loop terminates and equals stripping any leading prefix, in whatever order the passes find them |
| `Subjects.OnePrefix` | internal/mail/thread_resolver.go:109 | no string starts with two of the prefixes, so the order of the list never matters |
| `Subjects.NormalizedIsNormal` | internal/mail/thread_resolver.go:107-123 | a normalised subject starts with none of the five marks, has no outer space and no capital, is no reply, and normalises to itself |
| `Subjects.PrefixIsTransparent` | internal/mail/thread_resolver.go:107-123 | any of the five marks in front of a subject, in any case and with or without space after it, does not change its normal form |
| `Subjects.RewritingKeepsNormalForm` | internal/mail/service.go:1289-1295 | any number of reply and forward rewrites of a subject leaves its normal form |
| `Subjects.OneRewriting` | internal/mail/service.go:1419-1425 | one reply or forward rewrite leaves the normal form, whichever prefix was there |
| `Subjects.RewritingMarks` | internal/mail/service.go:1289-1295 | a reply or forward keeps a subject that carries its mark already and otherwise puts the mark in front, once |
| `Subjects.MarkDecides` | internal/mail/thread_resolver.go:125-128 | a subject behind a mark counts as a reply exactly when the mark is one of a reply |
| `MailRepository.Repository.ResolveThread` | internal/mail/thread_resolver.go:30-105 | the thread is that of the stored row, else of some row that In-Reply-To names, else of some row that References names, else the latest thread of the subject in 30 days for a reply, else a new one under the normalised subject, or the raw one if nothing is left |
| `MailRepository.Repository.LatestBySubject` | internal/mail/thread_resolver.go:62-90 | finds a thread exactly when the account has one with that subject and mail in the last 30 days, and then the latest of that subject |
| `MailRepository.Repository.UpdateThreadProjection` | internal/db/threads.go:64-101 | the thread's counts become a fresh recount over its messages' mailbox rows |
| `MailRepository.Repository.UpsertMessage` | internal/db/messages.go:31-65 | the row of that email id becomes the given one, and no other row changes |
| `MailRepository.Repository.ReconcileOrphans` | internal/worker/sync_processor.go:93-139 | every message citing the id brings its whole thread into the canonical one; emptied threads are deleted without losing a message |
| `MailRepository.Repository.ProcessEmailSync` | internal/worker/sync_processor.go:17-89 | the email's row keeps its headers; in each mailbox it is present in it is unread unless seen and a draft if so marked; messages citing it join its thread; nothing else changes but threads moved with them; the store is the synchronised one for a permitted route |
| `MailRepository.ProjectionCounts` | internal/db/threads.go:64-101 | a recount counts the messages with a row not trashed and, of those, the ones with an unread row, and dates the thread by the transaction |
| `MailRepository.MergeMoves` | internal/worker/sync_processor.go:93-139 | exactly the other threads holding a message of the account that cites the id are emptied, whole, into the canonical one |
| `MailRows.StoredRow` | internal/worker/sync_processor.go:27-50 | the row holds the first Message-ID, the first In-Reply-To, all References and the subject |
| `MailRows.StoredFlags` | internal/worker/sync_processor.go:54-70 | unread exactly without the seen keyword, draft exactly with the draft keyword, in each mailbox present; every other mailbox row stays |
| `MailRows.MovesCiters` | internal/worker/sync_processor.go:80-139 | messages citing the email end in its thread, and any other message that moves shared a thread with one of them |
| `MailRows.UnreadIffUnseen` | internal/worker/sync_processor.go:54-78 | after any run, an email that only its last synchronisation's mailboxes hold counts as unread in its thread exactly when that synchronisation found it in a mailbox and without the seen keyword |
| `ThreadInvariants.StepWellFormed` | internal/worker/sync_processor.go:41-138 | a synchronised email leaves no empty thread, no message in a missing or foreign thread and no dangling mailbox row |
| `ThreadInvariants.StepExact` | internal/db/threads.go:64-101 | it leaves every thread, touched or not, with counts equal to a recount, also after a chain of merges |
| `ThreadInvariants.StoreKept` | internal/worker/sync_processor.go:41-138 | both hold after every email of every run |
| `ThreadInvariants.Conserved` | internal/db/messages.go:31-65 | over any run the stored messages are the old ones and those that arrived, no more and no fewer |
| `ThreadInvariants.NeverSplitBetween` | internal/worker/sync_processor.go:80-138 | two messages once in one thread share a thread ever after |
| `ThreadInvariants.OtherAccountsUntouched` | internal/worker/sync_processor.go:17-139 | synchronising an email changes no row of another account |
| `Links.GathersLinks` | internal/worker/sync_processor.go:93-139 | every stored message that cites the email's id ends in its thread |
| `AnyOrder.CompleteHeadersThread` | internal/worker/sync_processor.go:80-138 | with ancestor-complete headers, after every email of every arrival order each message shares a thread with all it links to |
| `AnyOrder.IncompleteSplits` | internal/mail/thread_resolver.go:40-60 | headers that are not ancestor-complete have an arrival order that leaves two linked messages apart, unless the two mention each other silently |
| `AnyOrder.AnyOrderIffComplete` | internal/mail/thread_resolver.go:40-60 | one pass always threads all links if and only if the headers are ancestor-complete, when no two emails mention each other without either row linking the other |
| `AnyOrder.SilentPairsThread` | internal/worker/sync_processor.go:27-38 | with such a pair headers can thread always without being ancestor-complete |
| `AnyOrder.TiedStayTogether` | internal/worker/sync_processor.go:80-138 | emails of which any two are tied, by the lookup of the one or the citation of the other, are in one thread at every moment |
| `Convergence.SecondPassJoins` | internal/worker/sync_processor.go:80-138 | once each stored email is processed again, in any order, connected emails share a thread, whatever their headers |
| `Convergence.WithinAt` | internal/worker/sync_processor.go:17-139 | while every join is sound, no thread ever reaches beyond a connected component |
| `Convergence.ComponentsIffSoundJoins` | internal/worker/sync_processor.go:17-139 | in one run, the threads after the second pass are the components if and only if every join of the first was within one |
| `Convergence.Convergence` | internal/worker/sync_processor.go:17-139 | a run in which no email joins by subject ends in the components when every email is linked to whatever its ids may find |
| `ExactConvergence.ConvergesIffAdjacent` | internal/worker/sync_processor.go:17-139 | for all headers and subjects: every arrival order with its second pass ends in the components if and only if every email is linked to whatever its lookup may settle on |
| `ExactConvergence.MatchedJoinSoundly` | internal/mail/thread_resolver.go:62-90 | a subject match stays in the email's component when the subject's thread was opened by an email linked to it |
| `ExactConvergence.ArrivalOrdersAgree` | internal/worker/sync_processor.go:17-139 | under that condition two arrival orders of the same emails end in the same partition |
| `Convergence.DroppedParentDiverges` | internal/worker/sync_processor.go:27-38 | an In-Reply-To id the row drops makes two arrival orders disagree for good |
| `Replies.ReplyLinksIffNamed` | internal/mail/service.go:1297-1313 | a reply links to its original exactly when that has a Message-ID; else it names the server's email id |
| `Replies.RepliesKeepSubject` | internal/mail/service.go:1289-1295 | a reply given no subject keeps its original's normal form behind the mark; a given subject is taken as it is |
| `Replies.ReferencesArePath` | internal/mail/service.go:1297-1313 | a reply's References are exactly its root's own, then the Message-IDs on its path from the root to its parent |
| `Replies.ConversationIsComplete` | internal/mail/service.go:1388-1402 | conversations built by replying to any email whose own ancestry is complete have ancestor-complete headers |
| `Replies.ConversationIsOneThread` | internal/worker/sync_processor.go:17-89 | such a conversation, with the mail its root names, synchronised in any order among any other mail, is in one thread whenever its root is stored |
| `Idempotency.Repository.StartIdempotentRequest` | internal/db/idempotency.go:26-83 | an existing row gives a mismatch, a busy key or its response, and stays; a missing one is inserted in progress unless refused, also when the commit's reply is lost |
| `Idempotency.Repository.CompleteIdempotentRequest` | internal/db/idempotency.go:88-95 | status and response are stored in the key's row if it exists |
| `Idempotency.Repository.ClearIdempotentRequest` | internal/db/idempotency.go:98-104 | the key's row is gone |
| `SendProtocol.SearchString` | internal/mail/service.go:1650-1661 | finds a substring exactly when there is one |
| `SendProtocol.ContainsMeans` | internal/mail/service.go:1650-1661 | that is, exactly when the text is something before it, the part, and something after |
| `SendProtocol.RecognisedTexts` | internal/mail/service.go:1638-1648 | an error is recognised by five texts and no others |
| `SendProtocol.OneAtATime` | internal/db/idempotency.go:26-83 | at most one request at a time executes the send of a key, in every interleaving with crashes |
| `SendProtocol.AcceptedBound` | internal/mail/handler.go:442-491 | acceptances exceed the releases that hid one by at most one, and by exactly one for a completed key |
| `SendProtocol.AtMostOnceIffLiesRecognised` | internal/mail/service.go:1010-1026 | the server always accepts at most one submission per key if and only if every error that may hide an acceptance is recognised |
| `SendProtocol.UnrecognisedLieResends` | internal/mail/service.go:1638-1648 | one unrecognised error that hides an acceptance lets a key be sent twice |
| `SendProtocol.SettledForGood` | internal/db/idempotency.go:88-104 | a completed or ambiguous row never changes again |
| `SendProtocol.AnswersAgree` | internal/mail/handler.go:442-491 | all recorded and replayed answers of a key are the same response, to requests of the same hash |
| `SendProtocol.SettledAnswers` | internal/db/idempotency.go:26-83 | a settled row answers an equal hash with its response and any other with a mismatch |
| `SendProtocol.SettledWereServed` | internal/mail/handler.go:472-491 | in every run a completed row holds 200 and the body of a submission that succeeded for its key and hash, an ambiguous one 202 and the pending body of one that ended in a recognised error |
| `SendProtocol.AnsweredWereServed` | internal/mail/handler.go:472-491 | and so does every answer that was not replayed, recorded or not |
| `SendHandler.Handler.SendMessage` | internal/mail/handler.go:442-491 | a fresh key answers 200 with the body of a submission that succeeded, 202 with the pending body of a recognised error, and an error otherwise with the key released, and records just that; an existing one replays, reports a mismatch or is busy; the call is a run of the protocol |
| `JobQueue.Repository.ClaimJob` | internal/provisioning/repository.go:23-54 | claims the earliest due job, or finds none exactly when none is due |
| `JobQueue.Repository.RecoverStuckJobs` | internal/provisioning/repository.go:71-92 | exactly the processing jobs with a heartbeat before the cutoff become claimable, with no attempt lost, and are counted; every other row stays |
| `JobQueue.Repository.MarkFailedOrRetry` | internal/provisioning/repository.go:132-178 | one more attempt is counted; the job has failed at the limit, else waits for the delay computed in 64-bit words |
| `JobQueue.Repository.MarkSucceeded` | internal/provisioning/repository.go:94-109 | the job has succeeded, without worker or heartbeat, its attempts kept |
| `JobQueue.Repository.MarkRetryWait` | internal/provisioning/repository.go:112-130 | the job waits for the given moment, without worker or heartbeat, its attempts kept |
| `JobQueue.DelaysExactIff` | internal/provisioning/repository.go:158-175 | every retry time the mark can write is 2^attempts minutes away if and only if there are at most 28 attempts |
| `LeaseDelays.RunsDelayExactlyIff` | internal/provisioning/repository.go:132-178 | the same for every step of every run of any workers |
| `LeaseProtocol.LeaseExclusivity` | internal/provisioning/worker.go:170-253 | with timely heartbeats no two live executions hold one job, for any number of workers, crashes and recoveries |
| `LeaseProtocol.RestsUntilDue` | internal/provisioning/repository.go:23-92 | whatever workers and sweeps do, a waiting job stays as it is in every column until it is due |
| `LeaseProtocol.WaitHolds` | internal/provisioning/worker.go:338-343 | once a retry is written for a moment, no execution claims that job before it |
| `ProvisioningWorker.Worker.Poll` | internal/provisioning/worker.go:170-231 | claims a job exactly when one is due; afterwards that job has succeeded, waits for its retry or carries the failure mark, as handler and writes went, and no other job changed; and it is the run of the protocol they prescribe |
| `ProvisioningWorker.Worker.HandleJobFailure` | internal/provisioning/worker.go:316-356 | a retryable failure with attempts left makes the job wait, claimable exactly from the retry time on; any other writes the failure mark; no other job changes |
| `ProvisioningWorker.Worker.HandleJobSuccess` | internal/provisioning/worker.go:304-314 | the job has succeeded if the write takes effect, and is untouched otherwise |
| `ProvisioningWorker.Worker.Heartbeat` | internal/provisioning/worker.go:242-263 | the job's heartbeat is the present moment while it is processing; nothing else changes |
| `LeaseProtocol.CompletesOwnJob` | internal/provisioning/repository.go:94-178 | the unguarded completing updates touch only the caller's own job, with the attempts it claimed, still processing unless its handler marked it itself |
| `LeaseProtocol.TerminalForGood` | internal/provisioning/repository.go:94-178 | while no handler marks its own job, a succeeded or failed job never changes again in any column |
| `LeaseProtocol.StatusStaysIff` | internal/provisioning/worker.go:316-356 | in every run a succeeded or failed job keeps its status if and only if no failure is written for it |
| `LeaseProtocol.StatusForGood` | internal/provisioning/worker.go:447-460 | none is while no reply to a handler's own mark of success is lost |
| `LeaseProtocol.LostReplyReopens` | internal/provisioning/worker.go:456-459 | a lost reply puts the succeeded job back into the queue |
| `LeaseProtocol.BoundedWork` | internal/provisioning/worker.go:316-356 | attempts are claims plus failure marks; a job is claimed at most once per allowed attempt and per recovery, and then has ended |
| `LeaseProtocol.LeaseMakesTimely` | internal/provisioning/repository.go:71-92 | a cutoff one lease back spares every execution that has beaten within its lease |
| `LeaseProtocol.RecoverSafeIff` | internal/provisioning/repository.go:71-92 | a sweep keeps the invariant if and only if no live execution's job has a heartbeat before the cutoff |
| `LeaseProtocol.LateSweepRunsTwice` | internal/provisioning/repository.go:23-92 | after a sweep that is not, the next claim runs the job a second time |
| `Retry.WithinJitterIff` | internal/provisioning/retry.go:59-82 | the delay is within the jitter of the doubled and capped value exactly up to the 63rd attempt |
| `Retry.JitterSpreads` | internal/provisioning/retry.go:59-82 | up to there the delay is the doubled initial delay, capped by the maximum, moved evenly over that range by the random draw |
| `Activation.Worker.ProcessAccountCreate` | internal/provisioning/worker.go:561-834 | a run stopped anywhere leaves the rows as that prefix of its transactions does; one that succeeds and did not skip has mapped every discovered folder to its id, the archive to the created one if it was missing, and no other, in the account found, made or named, with domain, claim, checkpoint and sync row |
| `Activation.Worker.EnsureAccount` | internal/provisioning/worker.go:626-706 | the same from the check for an existing account on |
| `Activation.Worker.SaveFolders` | internal/provisioning/worker.go:707-834 | the same from the discovery of folders on |
| `Activation.Worker.ProcessAccountDisable` | internal/provisioning/worker.go:934-972 | succeeds exactly when done already, or the mail server agreed and the write was reached; nothing but the status changes, and only then |
| `Activation.Worker.ProcessAccountEnable` | internal/provisioning/worker.go:974-1012 | succeeds exactly when done already, or the mail server agreed and the write was reached; nothing but the status changes, and only then |
| `Activation.CreateKeeps` | internal/provisioning/worker.go:671-834 | stopped after any transaction, an active mailbox is ready; the mailbox is active exactly when the run completed, or had not touched it; a completed run has mapped all that was discovered |
| `Activation.AlwaysReadyIff` | internal/provisioning/worker.go:561-1012 | through any jobs stopped anywhere, from a mailbox just inserted or left by earlier runs, every active mailbox has its account, claimed address, all folders discovered in it and an archive, checkpoint and sync row, exactly when none was enabled uninitialised |
| `Activation.EnabledTooEarly` | internal/provisioning/worker.go:974-1012 | enabling any mailbox just inserted makes it active without an account |
| `Activation.OwnerKeptIff` | internal/provisioning/worker.go:689-696 | the address stays its user's, through runs stopped anywhere, if and only if the reservation never lapses before a claim |
| `Activation.KeptWhileNothingExpires` | migrations/011_add_platform_domains_and_reservation.sql:101-207 | so while no reservation is found expired an address reserved for a user stays reserved or claimed for that user |
| `Activation.LapsedAddressPasses` | migrations/011_add_platform_domains_and_reservation.sql:101-207 | a lapsed address reserved by another user becomes that user's, by the first user's run |
| `Activation.WritesKeepOwner` | internal/provisioning/worker.go:843-862 | no run changes whose the address is, and none activates another user |
| `SyncWorker.ProcessEmails` | internal/worker/reconciliation_worker.go:174-181 | the emails are synchronised one after another, up to a fault |
| `SyncWorker.Worker.ApplyBatch` | internal/worker/reconciliation_worker.go:159-216 | the batch, its events and its token are applied together, or nothing is |
| `SyncWorker.Worker.ProcessSyncJob` | internal/worker/reconciliation_worker.go:121-216 | committed exactly when changes and emails were had and no statement failed; without a token the mailbox is idle, with the initial token if there is one; unavailable changes leave an idle row as it was, changes not calculable no token and an error, a failed fetch or batch the row marked as syncing |
| `SyncWorker.EndingRows` | internal/worker/reconciliation_worker.go:121-216 | the same, for any row, answers and fault |
| `SyncWorker.AppliedRows` | internal/worker/reconciliation_worker.go:183-225 | a committed batch leaves one event per reported id, created, updated and deleted in their orders, and no row of a destroyed email |
| `SyncWorker.Worker.DeleteMessages` | internal/worker/reconciliation_worker.go:183-196 | exactly the rows of the destroyed emails of that mailbox are gone, with their mailbox rows |
| `SyncWorker.Worker.EmitEvents` | internal/worker/reconciliation_worker.go:219-225 | one event per id, in order |
| `Mirror.BatchMirrors` | internal/worker/reconciliation_worker.go:136-216 | a batch takes a mirror of the old state to one of the new state, though the fetch saw a later one |
| `SyncClient.Service.SyncMail` | internal/mail/service.go:1674-1769 | how the answers leave the mailbox's row, whatever its status was: the new state and idle, no token when a resync is asked for, or the old token and an error; and marked as syncing when the last write fails |
| `Mirror.AlwaysMirrorsIff` | internal/worker/reconciliation_worker.go:121-216 | in every run with crashes the store mirrors the token's state at every moment, if and only if no client's sync, re-activation or initialisation moved the token to a state the store did not agree with |
| `Mirror.ClientSyncMirrorsIff` | internal/mail/service.go:1674-1769 | a client's sync keeps the mirror exactly when it skips no email still on the server and no deletion of a stored one |
| `Mirror.ClientSyncSkips` | internal/mail/service.go:1759 | one client sync after new mail leaves a current token over a missing email |
| `Mirror.TokenNotAhead` | internal/worker/reconciliation_worker.go:136-216 | up to the first unsafe move, whatever the token's state had and the server still has is stored |
| `Mirror.CaughtUp` | internal/worker/reconciliation_worker.go:136-216 | up to the first unsafe move, when the token is the server's current state the stored ids are exactly the server's |
| `Mirror.ShelvedUntilRevived` | internal/worker/reconciliation_worker.go:80-118 | a mailbox not left idle is not picked, and keeps its emails, for exactly as long as no client's sync succeeds and no re-activation comes |
| `Mirror.EndShelvesIff` | internal/worker/reconciliation_worker.go:121-216 | an ended job leaves its marked mailbox unpicked if and only if it was abandoned or has to start over; a commit never does |
| `Mirror.JobShelvesIff` | internal/worker/reconciliation_worker.go:121-216 | in terms of the answers: if and only if the changes could not be calculated, or the emails not fetched, or a statement of the batch failed |
| `Backfill.Worker.RunBackfillBatch` | internal/worker/backfill_worker.go:30-98 | a call synchronises exactly the next page and moves past it together, or changes nothing; it says it is complete exactly when the position has reached the listing's end |
| `Backfill.BackfillIsOnePass` | internal/worker/backfill_worker.go:30-98 | however calls are interrupted and whatever order the server returns a page in, the store is that of one pass over exactly the emails before the position, batch by batch |
| `Backfill.BackfillProgress` | internal/worker/backfill_worker.go:30-98 | every committed batch moves the position, so there are at most as many as emails |
| `Backfill.RebackfillCoarsens` | internal/worker/backfill_worker.go:30-98 | for any headers, any start and a second run stopped anywhere, re-running stores nothing new and splits no thread |
| `Backfill.RebackfillConverges` | internal/worker/backfill_worker.go:30-98 | from an empty store a completed second backfill leaves the connected components, when every email is linked to whatever its lookup may settle on |
| `Delivery.IsPermanentError` | internal/mail/delivery_worker.go:222-235 | true exactly when the first digit anywhere in the reply is a 5 |
| `Delivery.ParseDeliveryStatus` | internal/mail/delivery_worker.go:151-177 | delivered for yes, queued for queued, failed or a temporary failure for no by the first digit of the reply, and sending for anything else or no report |
| `Delivery.Worker.TryClaimBounceGeneration` | internal/db/delivery_status.go:156-166 | claims once; later claims fail and change nothing |
| `Delivery.Worker.GenerateBounce` | internal/mail/bounce.go:35-46 | claims first, and creates exactly when it won the claim |
| `Delivery.Worker.UpdateDeliveryStatusWithOutbox` | internal/db/delivery_status.go:74-124 | the row has the new status and the outbox its event, both or neither, and only for a change |
| `Delivery.Worker.ProcessAccountSubmissions` | internal/mail/delivery_worker.go:86-149 | each recipient's row has the status its report stands for if that was written, a bounce is claimed exactly for a new permanent failure and sent once; all other rows stay; the batch is a run of the machine |
| `Delivery.BouncedAtMostOnce` | internal/mail/bounce.go:35-46 | with any number of workers and crashes a recipient gets at most one bounce, and only after a poll called the failure permanent |
| `Delivery.PolledUntilOver` | internal/db/delivery_status.go:22-40 | a recipient may be read exactly until it is delivered, failed or bounced |
| `Delivery.SettleProperIff` | internal/mail/delivery_worker.go:117-141 | exactly which steps, however stale the worker, leave a recipient with a trail of changes none of which follows its end |
| `Delivery.ProperIffCurrent` | internal/mail/delivery_worker.go:86-149 | in every run of any workers a recipient's trail is such, if and only if every update written for it was current |
| `Delivery.EventsAreChanges` | internal/db/delivery_status.go:22-124 | with one worker a recipient's events are its status changes, delivered and failed come last, and the last is the row's status |
| `Delivery.TwoWorkersReopen` | internal/mail/delivery_worker.go:86-149 | with two workers a recipient once delivered is queued again |
| `Outbox.Processor.ProcessBatch` | internal/mail/outbox.go:45-128 | each event of the batch is published exactly when its publication succeeded, failed otherwise, or still processing when the mark was not written; what reached the channel is what was there and the events sent; the batch is a run of the machine |
| `Outbox.PublishedAtMostOnce` | internal/mail/outbox.go:45-128 | with any number of processors stopping anywhere no event is published twice, and a published mark means it was |
| `Outbox.OverForGood` | internal/mail/outbox.go:45-128 | an event marked, or whose processor stopped, keeps its status and is not published any more |
| `Broker.Client.Offer` | internal/realtime/broker.go:113-121 | appends to an open channel with room, else refuses |
| `Broker.Broker.Register` | internal/realtime/broker.go:79-88 | the client is registered, nobody else's registration changes, and its history starts here |
| `Broker.Broker.Unregister` | internal/realtime/broker.go:91-102 | the client is not registered any more, nobody else's registration changes, and no empty set is left |
| `Broker.Broker.FanOut` | internal/realtime/broker.go:113-121 | each client of the user has the event appended, or, when full, is closed and dropped; never one that is closed already |
| `Broker.Broker.Broadcast` | internal/realtime/broker.go:104-122 | every client's channel stays an unbroken run of its own user's events |
| `Broker.Broker.WritePump` | internal/realtime/websocket.go:95-118 | taking the next event off a channel loses none and leaves every client's history unbroken |
| `Broker.OpenClientsAgree` | internal/realtime/broker.go:79-122 | two open clients of a user were given the same events from the later registration on |
| `RateLimiter.Limiter.Allow` | internal/ratelimit/limiter.go:37-71 | allows exactly when fewer than the configured number of allowed calls lie in the window that ends now, over the whole history, and records the call if so |
| `RateLimiter.Limiter.Cleanup` | internal/ratelimit/limiter.go:77-89 | drops exactly the buckets that are empty or two windows old, without changing any later decision |
| `RateLimiter.PruningFits` | internal/ratelimit/limiter.go:51-60 | a pruned bucket holds exactly what the whole history has in the window, at any later time |
| `RateLimiter.WindowLimit` | internal/ratelimit/limiter.go:37-71 | every window over the whole run holds at most the configured number of allowed calls |
| `Pagination.ListThreads` | internal/mail/service.go:1496-1540 | the threads of the account, in the mailbox if one is named, after the cursor, newest first, up to the limit (50 unless 1 to 100); one left out comes after the last listed and the page is full; the next cursor is the last one's key |
| `Pagination.ListedRows` | internal/db/threads.go:125-158 | the same of the page of keys the query is defined by |
| `Pagination.PageIsOnly` | internal/db/threads.go:146-158 | the ordered and limited query has exactly one answer |
| `Pagination.FullScan` | internal/db/threads.go:125-182 | following the cursors over a fixed table shows every matching thread exactly once, newest first |
| `Pagination.ScanEnds` | internal/mail/service.go:1496-1540 | and ends |
| `Pagination.ReaderSeesAll` | internal/mail/service.go:1496-1540 | a reader who follows the listing's cursors over a table that stays is given exactly the matching threads, newest first |
| `Pagination.ReaderSeesOnce` | internal/mail/service.go:1496-1540 | and over one that changes, every matching thread left alone exactly once |
| `Pagination.NeverTwice` | internal/db/threads.go:146-158 | while threads are inserted, deleted and bumped, none whose time does not fall is shown twice |
| `Pagination.ShownIffNotOvertaken` | internal/db/threads.go:146-158 | such a thread is shown by a finished scan if and only if it was never bumped from after the cursor to before it |
| `Pagination.UnchangedShownOnce` | internal/db/threads.go:146-158 | a thread left alone is shown exactly once |

## Left out
- Subjects.NormalizeSubject: folds ASCII letters and trims ASCII space only; Go's lower-casing and trimming of other Unicode characters is not modelled.
- Convergence.Convergence: is about runs without a subject match; ExactConvergence.ConvergesIffAdjacent is about all of them.
- AnyOrder.AnyOrderIffComplete: is about headers without a silent pair; CompleteHeadersThread, the sufficient half, needs no such condition, and SilentPairsThread shows that the other half does.
- LeaseProtocol.LeaseExclusivity: lets a claim take any due job, as skipping locked rows does; JobQueue.Repository.ClaimJob, alone on the table, takes the earliest.
- SendProtocol.UnrecognisedLieResends: takes error texts and database writes as independent; in the source a cancelled request context fails both the submission and the release of the key, so that text alone does not resend.
- Activation.AlwaysReadyIff: runs one job of a mailbox at a time; jobs of different kinds have leases of their own, so creating and enabling one mailbox may interleave in the source.
- Broker.Broker.Broadcast: the read lock the source holds while it deletes from the map is not modelled; broadcast, register and unregister are one step each.
- ProvisioningWorker.Worker.HandleJobFailure: takes the moment of the retry as it was computed; Retry.dfy is about the computation.
- Retry.WithinJitterIff: computes over the reals; rounding to floating point and to nanoseconds is not modelled.
- Pagination.ListThreads: takes the cursor decoded; one that does not decode counts as none, and base64 and timestamp formats are not modelled.
- Thread columns: sender, recipient, participants and snippet are not modelled, and received and sent times are never filled by the source, so a thread's last time is the time of the transaction.
- Destroyed messages: the branch deletes rows without recounting their threads, so exact counts and non-empty threads are claimed for runs of email synchronisation only; the mirror covers it.
- RateLimiter.Limiter.Allow: is one step, as Cleanup is; in the source two goroutines may each create the bucket of a new key, and Cleanup may drop a bucket that an Allow still holds.
- Mirror.AlwaysMirrorsIff: names states by their place in the server's history; that a client's sync and a re-activation may store a token of another kind of object is not modelled.
- Backfill beside the mirror: nothing in the repository starts a backfill, and a backfill stores emails without moving the token, so the two are modelled apart.
- Several synchronisation workers on one mailbox: row locks are not held across a job, so the mirror assumes one.
- The send intent log: its failures are among the outcomes in which nothing was submitted; replies and forwards bypass the idempotency keys and are modelled for their headers only.
- Job states for reconciling, repairing and unknown outcomes: no code of the worker enters them.
- Error classification by text of provisioning jobs: whether a failure may be retried is a parameter.
- Delivery retries: next_retry_at and retry_count only thin out the polls, so a poll here may take any row under way; error texts and types are not modelled.
- Job checkpoints, metrics and logs; the heartbeat's own timer is the timeliness condition of the lease protocol.
- HTTP handlers, authentication, JMAP and JSON encoding, websocket pumps beyond taking events off the channel, DNS, quotas and plans: plumbing around the state.
