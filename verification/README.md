# Verified model of the gateway's crash-safe and concurrent core

This project models, in Dafny, the parts of the iCloud code gateway and of its mail Worker that
have to stay correct when processes die, replies get lost and operations interleave, and proves
what those parts are for. `dafny verify dfyconfig.toml` checks everything.

| file | what it models |
|---|---|
| `CreateProtocol.dfy` | the durable create-alias protocol as events over job rows and the remote alias set, with the promise made to the operator |
| `CreateSafety.dfy` | the promise over every run, recovery, and the one hole: an error before the saved candidate is read |
| `CreateWorker.dfy` | the same protocol as the worker runs it: methods that rewrite rows, die anywhere, and are proved to be legal runs |
| `BatchJobs.dfy` | the run loop over a job's items: shape, committed counters, termination, recovery and resume |
| `AliasSnapshots.dfy` | long unlocked reads of the remote list against lifecycle writes, ordered by a generation counter |
| `MailboxIndex.dfy` | the bounded, pruned index of codes against a scan of everything ingested |
| `LongPoll.dfy` | a parked request, the watcher thread and event-loop callbacks: no lost wakeup |
| `MailboxNames.dfy` | IMAP mailbox names: UTF-16, base64, modified UTF-7, atoms and quoted strings |
| `ImapSelection.dfy` | the nested OR search key and the fair allocation of a limit over folders |
| `RateLimit.dfy` | evicting queues with a global purge against a limiter that forgets nothing |
| `MessageStore.dfy` | the Worker's message table: insert-or-ignore, ingest, cleanup, cascading delete |
| `AttachmentStore.dfy` | attachment bytes and rows without foreign key: storing, removing, cleanup |
| `MailBridge.dfy` | at-least-once upload from IMAP with a cursor per folder, into that table |
| `MessagePages.dfy` | paging by key over tables that change between the pages |
| `WorkerTokens.dfy` | the conditional upsert of access tokens, read-then-write operations, the background push |
| `AliasKeys.dfy` | local access keys and the guarded reconcile with the remote list |
| `CookieMerge.dfy` | folding Set-Cookie headers into a Cookie header |
| `Ordering.dfy`, `Options.dfy` | stable descending sort, string order, set sizes; a value or none (shared) |

How to read it. Where the source changes rows or fields step by step, the model is a class whose
methods do the same and are proved against a specification function or state machine; the
theorems are about that function or machine. `CreateWorker.Worker`, `AliasSnapshots.Gateway` and
`LongPoll.Request` carry a ghost log: `Valid()` says that the state is what a legal run of the
machine leads to, so whatever is proved of all runs holds of the methods, with every interleaving
and every crash. Keys, digests and addresses are abstract values; a digest is an injective
constructor.

## Assumptions about the surroundings

- Create protocol: `generate` returns addresses that were never suggested before and that nobody
  else reserves; a reserve is applied before its call returns or raises, or never; a reply to a
  reserve names the address asked for; capacity and rate-limit answers mean "not created" and come
  from generate and reserve only (a capacity answer raised elsewhere on a marked row would drop
  candidate and mark, `icloud_gateway/jobs.py:1207-1209`); a list that contains every locally known id is complete. No stop and no HME error is raised on a marked
  row before the saved candidate is read (`icloud_gateway/jobs.py:1002-1011`); what happens without
  that assumption is `CreateSafety.EarlyErrorSafeIff` and `CreateSafety.EarlyStopMakesTwo`.
  How the calls of a visit are answered, what the lists say and where the process dies are inputs
  (`CreateWorker.Course`). An address stands for its anonymous id, and the alias under creation is not deleted locally while
  the lifecycle lock is held for its visit.
- Job loop: what the item handler makes of a row, whether a stop may be requested and whether the
  process may die are inputs; waits end.
- Snapshots: operations have ids of their own; a change made outside the gateway is an event, and
  the claims about freshness are for lists it did not overtake.
- Index: folder and UID name one immutable mail (constant UID validity). Equal keys are one rank.
- Long poll: the answer stays in the index and the index stays warm after the cycle that stored it;
  the events `IndexStale` and `AnswerGone` withdraw the claim.
- Limiter: the clock never goes back, and each bucket has one limit and one window of at most an
  hour. Times are real numbers.
- Bridge: UID validity is constant, UIDs are given out in ascending order, the cursor file is
  readable and its replacement is atomic, and no cleanup or alias deletion runs in between; other
  ingests and alias changes may (`MessageStore.MessageWorker.Meanwhile`). The aliases in `steady` stay
  active; which lookups may throw, which mails cannot be fetched or are not accepted, which folders
  cannot be searched and when a cycle dies are inputs. Nobody draws the same identifier twice.
- Attachments: the classification of a mail does not change between deliveries, so the bytes are
  put to expire no earlier than the message, and message identifiers are fresh.
- Paging: rows do not change their place, identifiers are unique, and the page size is at least one.

## What is false, and exactly when it holds

- A create item can own two remote aliases after an error raised before the saved candidate is
  read. Harmless in every world if and only if the row carries no reconcile mark
  (`CreateSafety.EarlyErrorSafeIff`, with the run in `CreateSafety.EarlyStopMakesTwo`).
- `event.set` before the deadline does not suffice for an answer (the run is
  `LongPoll.LateCheckMisses`). The request ends with the answer if and only if a time check after the
  completed cycle sees time left, or one before did and its read is still to come
  (`LongPoll.AnsweredIff`); a waiter that gets its turns before the deadline always does
  (`LongPoll.PromptIsAnswered`).
- A background push can remove a key that is installed between its read and its write. It leaves
  the token it meets alone if and only if it has read one or would write the same
  (`WorkerTokens.PushLeavesTokenIff`, with the run in `WorkerTokens.PushErasesIssuedKey`); with no
  other write to the alias in between it always does (`WorkerTokens.LonePushKeepsToken`).
- Waiting as long as `retry_after` says can be up to a millisecond short: it is enough if and only
  if the true wait does not end in the first millisecond after a full second (`RateLimit.RefusalHint`,
  with the run in `RateLimit.HintTooShort`).
- The index can miss a code that a scan would find: with six mails stored, `MailboxIndex.IndexMisses`.
  If no other entry shares the key of the scan's answer, index and scan agree if and only if fewer
  than five other entries rank at or above it (`MailboxIndex.LatestAgreesIff`).
- An acknowledged mail can be missing for an active alias it names: a recipient whose lookup throws is
  skipped, and the Worker answers as if all were well. The alias has the mail if and only if its lookup
  did not throw (`MessageStore.MessageWorker.MissedByLookup`); the bridge then passes the mail, so its
  claims are for the other aliases.
- The bridge does not get past a mail that the Worker never accepts: its loop stops exactly at a mail
  that cannot be fetched or is not accepted, which includes sizes above the Worker's limit and within
  the bridge's (`MailBridge.Bridge.PushOne`, `MailBridge.Bridge.Blocked`).
- The comment in `icloud_gateway/service.py:1482-1485` says that a push without a key makes the
  Worker preserve the stored one; under interleaving the code does not (see the push above).

## Model

| member | source | states |
|---|---|---|
| `CreateSafety.EventKeeps` | icloud_gateway/jobs.py:993-1275 | every step of the worker, of recovery, of the operator and of the outside world keeps the invariant that ties rows, candidates, marks and remote aliases |
| `CreateSafety.RunKeeps` | icloud_gateway/jobs.py:993-1275 | the invariant holds after every legal run, so at every point where a process can die |
| `CreateSafety.EveryRunKeepsPromise` | icloud_gateway/jobs.py:993-1275 | after every run each item owns at most one remote alias; a row that records an address, as every success row does, records exactly that alias; and a queued item whose candidate exists remotely carries the candidate and the reconcile mark |
| `CreateSafety.OneReserveTakesEffect` | icloud_gateway/jobs.py:1100-1169 | however often a visit is interrupted and repeated, at most one reserve of an item takes effect (unless its alias was removed remotely by somebody else) |
| `CreateSafety.InvGivesPromise` | icloud_gateway/jobs.py:962-991 | the invariant implies the promise for every row |
| `CreateSafety.RecoverIdempotent` | icloud_gateway/database.py:1115-1224 | recovering the rows twice gives what recovering once gives |
| `CreateSafety.RecoverLeavesWork` | icloud_gateway/database.py:1132-1161 | an interrupted create item goes back to queued, and one that was being reserved comes back with the reconcile mark |
| `CreateSafety.EarlyErrorSafeIff` | icloud_gateway/jobs.py:1210-1252 | a stop or HME error raised before the saved candidate is read is harmless in every world exactly when the row carries no reconcile mark |
| `CreateSafety.LateErrorKeeps` | icloud_gateway/jobs.py:1253-1270 | an error after the success row was written rewrites its status, not the address it records, so the invariant stays |
| `CreateSafety.LostReplyRuns` | icloud_gateway/jobs.py:1128-1162 | a legal run in which the reserve took effect, its reply was lost and the list was unavailable; it ends with a marked row |
| `CreateSafety.EarlyStopMakesTwo` | icloud_gateway/jobs.py:1002-1011 | the excluded run: after the lost reply a stop before the candidate is read makes the item own two remote aliases |
| `CreateSafety.RunsConcatenate` | icloud_gateway/jobs.py:632-659 | a run of one process followed by a run of the next is a run |
| `CreateProtocol.OneAtIs` | icloud_gateway/database.py:1146-1149 | a candidate is well formed exactly if one place in it, and only one, holds an '@' |
| `CreateWorker.Worker.UpdateBatchItem` | icloud_gateway/database.py:1069-1113 | one durable write changes one row, keeps the result column when no result is given, and is one event of the protocol |
| `CreateWorker.Worker.ReserveAlias` | icloud_gateway/jobs.py:1106-1109 | the reserve takes effect before the call answers or never: always with a reply, not with a capacity or rate-limit answer, otherwise as the world decides |
| `CreateWorker.Worker.LookupCandidate` | icloud_gateway/jobs.py:861-930 | `found` means the candidate was reserved at some time, `absent` that it does not exist; with the whole list in hand both are exact, and a list without some known id decides nothing |
| `CreateWorker.Worker.SaveSuggestion` | icloud_gateway/jobs.py:1043-1055 | a suggestion is durable before it can be sent |
| `CreateWorker.Worker.PauseForTransientRetry` | icloud_gateway/jobs.py:493-537 | the parked row keeps the given candidate and mark and counts one more attempt |
| `CreateWorker.Worker.PauseForCapacity` | icloud_gateway/jobs.py:539-573 | a capacity answer forgets candidate, mark and attempts |
| `CreateWorker.Worker.CompleteCreatedAlias` | icloud_gateway/jobs.py:962-991 | local record, key and success row: done exactly if none of its writes fails and the process lives; the recorded address is the candidate, which is then known locally, and otherwise the row is as it was, unknown or failed |
| `CreateWorker.Worker.AfterSuccess` | icloud_gateway/jobs.py:989-991 | the audit event, the read-back or closing the client can fail after the success row: the row then becomes unknown or failed and keeps the created address |
| `CreateWorker.Worker.GiveUp` | icloud_gateway/jobs.py:1253-1270 | an unexpected error marks the row unknown if a write was attempted and failed otherwise, unless a stop or a death comes first |
| `CreateWorker.Worker.ObtainCandidate` | icloud_gateway/jobs.py:1014-1055 | the answer decides: full, limited and failed lead to their own rows, and a good suggestion is saved for this row alone before it is used, even if the process dies right after |
| `CreateWorker.Worker.ReconcileBeforeReserve` | icloud_gateway/jobs.py:1056-1096 | what the list says decides: the row is completed if the alias exists, unmarked only if a complete list lacks it, and parked with its mark otherwise |
| `CreateWorker.Worker.Unmark` | icloud_gateway/jobs.py:1081-1096 | the mark goes away without the candidate changing, and the visit goes on exactly if nothing fails then |
| `CreateWorker.Worker.ReserveAndComplete` | icloud_gateway/jobs.py:1100-1169 | the row after a reserve, by outcome: never a candidate that may exist without its mark; which outcome is decided by the stop, the answer and the faults |
| `CreateWorker.Worker.SendReserve` | icloud_gateway/jobs.py:1101-1109 | the row says reserving before the request leaves, and the request is for the saved candidate |
| `CreateWorker.Worker.Answered` | icloud_gateway/jobs.py:1110-1169 | each answer to a reserve leads to its own row: a reply completes the item exactly if no fault comes in between, network and session errors keep the mark |
| `CreateWorker.Worker.AfterFault` | icloud_gateway/jobs.py:1128-1162 | a reserve that raised is looked up: found completes the item, and only an explicit rejection of an absent candidate may forget it |
| `CreateWorker.Worker.Unresolved` | icloud_gateway/jobs.py:1139-1162 | an unresolved reserve is parked with its candidate and mark, unless it was rejected and the candidate is absent |
| `CreateWorker.Worker.CreateAlias` | icloud_gateway/jobs.py:993-1275 | whatever the answers and wherever the process dies, only the visited row changes, it is what the outcome says, and the promise of every row holds; with a good suggestion or a saved candidate, a reply, no stop and no fault the item is done, for a marked row exactly if its alias exists or the list is complete |
| `CreateWorker.Worker.Visit` | icloud_gateway/jobs.py:993-1275 | one visit is a legal run of the protocol; an error before the candidate is read decides its end, a done item is known locally, and when all goes well the item is done |
| `CreateWorker.Worker.Submit` | icloud_gateway/jobs.py:1056-1199 | once the row has its candidate: the row is what the outcome says |
| `CreateWorker.Worker.EarlyExit` | icloud_gateway/jobs.py:1207-1270 | the handlers reached before the candidate is read write the row back without a candidate; the error decides how the visit ends |
| `CreateWorker.Worker.RecoverInterrupted` | icloud_gateway/database.py:1115-1186 | the loop over the interrupted rows of create jobs: one that asked for a suggestion starts over, one that was being reserved keeps its candidate under the reconcile mark, none stays running, the others are untouched |
| `CreateWorker.Worker.ResumeReconcilable` | icloud_gateway/database.py:1244-1290 | all unknown rows of the job become reconcilable, or nothing changes if there is none or one lacks a candidate |
| `CreateWorker.Worker.ClearRateLimitWait` | icloud_gateway/jobs.py:407-442 | after a rate limit the row starts over without candidate and mark |
| `CreateWorker.Worker.ClearTransientWait` | icloud_gateway/jobs.py:453-482 | after a back-off candidate and mark are as before |
| `CreateWorker.Worker.CreateJob` | icloud_gateway/jobs.py:165-203 | a new job adds untouched rows |
| `CreateWorker.Worker.Operate` | icloud_gateway/jobs.py:632-659 | any mixture of visits, recovery, resumes and new jobs stays a legal run |
| `BatchJobs.Front` | icloud_gateway/jobs.py:661-672 | the first item that is not finished |
| `BatchJobs.CountIs` | icloud_gateway/database.py:1302-1327 | the committed counters are the numbers of items in the counted states |
| `BatchJobs.AllSucceeded` | icloud_gateway/jobs.py:831-838 | succeeded equals requested exactly when every item succeeded |
| `BatchJobs.FrontMoves` | icloud_gateway/jobs.py:661-672 | rewriting the first unfinished item never moves the front back, and finishing it moves the front on |
| `BatchJobs.WriteKeepsShape` | icloud_gateway/jobs.py:661-838 | finished prefix, at most one item in progress, untouched suffix: kept by every write of the loop |
| `BatchJobs.RecoverKeepsShape` | icloud_gateway/database.py:1115-1204 | and by recovery |
| `BatchJobs.RecoverTwice` | icloud_gateway/database.py:1115-1224 | recovery applied twice equals once, for the rows and for the job status |
| `BatchJobs.RecoverSettles` | icloud_gateway/database.py:1205-1222 | after recovery no item runs, and a queued job has only queued and finished items |
| `BatchJobs.Job.RunItem` | icloud_gateway/jobs.py:840-848 | the row becomes what the item handler makes of it, and with it the counters change; the shape stays |
| `BatchJobs.Job.ClearWait` | icloud_gateway/jobs.py:407-482 | a wait mark is removed and the item stays queued |
| `BatchJobs.Job.Turn` | icloud_gateway/jobs.py:665-830 | one turn of the loop: it never touches a finished item, and without stop and death it goes on to the next index exactly past a finished one |
| `BatchJobs.Job.SitOut` | icloud_gateway/jobs.py:681-736 | a parked item waits; the wait ends without its mark, or a stop queues the job and leaves the item |
| `BatchJobs.Job.Visit` | icloud_gateway/jobs.py:737-830 | the item decides: finished goes on with the next one, a wait mark is a fault to repeat, and only an unknown item or one without room leaves the job for the operator |
| `BatchJobs.Job.RunJob` | icloud_gateway/jobs.py:661-838 | the loop ends: with the verdict, by a requested stop, by an unknown item or one without room, by a death, or after more than the given number of visits ended in a rate limit or a retry; it never rewrites a finished item, and if every item can be done and nobody interrupts, the job completes |
| `BatchJobs.Job.FinishJob` | icloud_gateway/jobs.py:831-838 | completed, partial or failed, read off the committed counters, means all, some or none succeeded |
| `BatchJobs.Job.Recover` | icloud_gateway/database.py:1115-1224 | after a restart an interrupted bulk action is unknown, an interrupted create item is asked for or looked up again, others are untouched; the job stops exactly if an item became unknown, and a running job without one is queued |
| `BatchJobs.Job.Claim` | icloud_gateway/database.py:1031-1058 | exactly a queued job can be claimed, and a claimed one has no unknown item |
| `BatchJobs.Job.Resume` | icloud_gateway/database.py:1226-1300 | resumed exactly if the create job is stopped, has an unknown item and every unknown item has a candidate; otherwise nothing changes |
| `BatchJobs.Job.Live` | icloud_gateway/jobs.py:632-659 | shape, counters and the meaning of `completed` hold through any sequence of claims, runs, deaths, recoveries and resumes |
| `AliasSnapshots.RunKeeps` | icloud_gateway/service.py:516-564 | over every interleaving the write flag, the lock holder and the phases of all operations agree |
| `AliasSnapshots.UnmovedMeansQuiet` | icloud_gateway/service.py:532-535 | if the generation did not move and no write is active at the end, no write was active and nothing was applied at any moment in between |
| `AliasSnapshots.AppliedIffQuiet` | icloud_gateway/service.py:516-544 | a snapshot is applied exactly when nothing overlapped it between begin and commit, in every interleaving |
| `AliasSnapshots.OverlapDiscards` | icloud_gateway/service.py:533-537 | a single overlapping write boundary or accepted snapshot makes the commit a no-op, so applied snapshots form one linear order |
| `AliasSnapshots.RunKeepsFresh` | icloud_gateway/service.py:516-559 | while the generation stands still a list taken is still what the service holds |
| `AliasSnapshots.AppliedIsCurrent` | icloud_gateway/service.py:714-732 | an applied list equals the remote state at that very moment, so a sync never undoes a finished deactivation or deletion |
| `AliasSnapshots.ConfirmedIsCurrent` | icloud_gateway/service.py:1628-1635 | so does the list a lifecycle write applies |
| `AliasSnapshots.GenerationGrows` | icloud_gateway/service.py:542-556 | the generation never goes back |
| `AliasSnapshots.Gateway.BeginAliasSnapshot` | icloud_gateway/service.py:516-520 | refused exactly while a write is active and the caller is not part of it |
| `AliasSnapshots.Gateway.CommitAliasSnapshot` | icloud_gateway/service.py:522-544 | committed exactly if the guard holds; then the list is applied (unless taken during a write) and the generation moves on |
| `AliasSnapshots.Gateway.BeginRemoteWrite` | icloud_gateway/service.py:546-559 | starts exactly when not stopping and nobody writes; the generation moves before the first remote call |
| `AliasSnapshots.Gateway.FinishRemoteWrite` | icloud_gateway/service.py:561-564 | flag and lock are released and nothing else changes |
| `AliasSnapshots.Gateway.SyncAliases` | icloud_gateway/service.py:714-732 | with everything else running in between, the sync is committed exactly if nothing overlapped it, and then leaves local and remote equal; undisturbed it always is |
| `AliasSnapshots.Gateway.ChangeAlias` | icloud_gateway/service.py:1616-1645 | done means that the remote change was asked for, the confirming list showed it, and the local alias is in the new state; undisturbed it is done exactly if the gateway runs, nobody else writes, the alias is in the state demanded, the call and the first read answer and the list is complete, and then local and remote are the old remote state with that one change |
| `AliasSnapshots.Gateway.InWriteChange` | icloud_gateway/service.py:1621-1635 | the part inside the write: refused in the wrong state, otherwise the remote call, the confirming reads and the locked update |
| `AliasSnapshots.Gateway.Confirm` | icloud_gateway/service.py:846-892 | of at most three reads the first that shows the change and names every known alias is applied; with none the operation fails |
| `MailboxIndex.KeyTotal` | icloud_gateway/imap_otp.py:1086-1087 | the sort key is a total preorder |
| `MailboxIndex.UidsCount` | icloud_gateway/imap_otp.py:1086-1087 | UIDs count as numbers: a longer one is greater, and anything else comes before all numbers |
| `MailboxIndex.StoreKeepsTopFive` | icloud_gateway/mailbox_watcher.py:442-456 | storing keeps the bucket the five greatest of everything retained |
| `MailboxIndex.PruneKeepsTopFive` | icloud_gateway/mailbox_watcher.py:457-465 | so does pruning by age |
| `MailboxIndex.BucketIsTopFive` | icloud_gateway/mailbox_watcher.py:442-466 | after any sequence of stores and prunes the bucket is sorted, free of duplicates and the top five of the whole retained history |
| `MailboxIndex.BestAnswers` | icloud_gateway/mailbox_watcher.py:210-223 | the loop of `latest` finds a greatest matching entry if there is one |
| `MailboxIndex.BestIsAsked` | icloud_gateway/mailbox_watcher.py:210-223 | the best entry lies in the window and passes the sender test, and nothing else that does is younger |
| `MailboxIndex.LatestAgreesWithScan` | icloud_gateway/mailbox_watcher.py:193-223 | the bounded index answers like a scan of everything retained whenever fewer than five other entries rank at or above the true answer |
| `MailboxIndex.LatestAgreesIff` | icloud_gateway/mailbox_watcher.py:193-223 | the index gives the answer t of a full scan exactly if fewer than five other entries rank at or above t, when no other entry has the very key of t; otherwise fewer than five suffice and five above t defeat it; a scan that finds nothing is always matched |
| `MailboxIndex.CrowdedOut` | icloud_gateway/mailbox_watcher.py:449-452 | with five entries above the answer of a scan the index does not have it |
| `MailboxIndex.OldestIsHidden` | icloud_gateway/mailbox_watcher.py:442-456 | storing one wanted mail and then five or more newer ones from other senders: a scan finds it, the index finds nothing |
| `MailboxIndex.IndexMisses` | icloud_gateway/mailbox_watcher.py:442-456 | six such mails a second apart |
| `MailboxIndex.MailboxWatcher.Store` | icloud_gateway/mailbox_watcher.py:442-456 | every recipient gets the entry and nobody else; the result says whether some bucket did not know the mail |
| `MailboxIndex.MailboxWatcher.StoreOne` | icloud_gateway/mailbox_watcher.py:446-455 | the step for one recipient |
| `MailboxIndex.MailboxWatcher.Prune` | icloud_gateway/mailbox_watcher.py:457-465 | every bucket is pruned and empty ones are dropped |
| `MailboxIndex.MailboxWatcher.DropOlder` | icloud_gateway/mailbox_watcher.py:460-465 | the loop over the recipients |
| `MailboxIndex.MailboxWatcher.Latest` | icloud_gateway/mailbox_watcher.py:193-223 | the answer is in the bucket of the recipient, in the window and passes the sender test, and nothing of that kind is younger or, at the same moment, has a greater UID; None means there is nothing of that kind |
| `MailboxIndex.MailboxWatcher.Pick` | icloud_gateway/mailbox_watcher.py:210-223 | the loop computes the best entry that passes the tests |
| `MailboxIndex.MailboxWatcher.AnswerIsTheScan` | icloud_gateway/mailbox_watcher.py:193-223 | asked for a window and a sender, the watcher answers with the key a scan of everything ingested and not pruned would answer with, unless five or more entries outrank it |
| `MailboxIndex.MailboxWatcher.AnswersLikeScan` | icloud_gateway/mailbox_watcher.py:193-223 | what a watcher answers is what a scan of everything ingested and not yet too old would answer, unless five or more entries outrank it |
| `MailboxIndex.MailboxWatcher.BucketsAreTopFive` | icloud_gateway/mailbox_watcher.py:442-466 | every bucket of a watcher is the top five of what it ingested for that recipient |
| `LongPoll.EventKeeps` | icloud_gateway/web.py:245-271 | every step of the waiter, the watcher thread, the callbacks and the clock keeps: parked with a stored answer means a signal is set or under way |
| `LongPoll.RunKeeps` | icloud_gateway/web.py:245-271 | that invariant and the one about times hold after every legal run: a timeout is never before the deadline |
| `LongPoll.RunKeepsTidy` | icloud_gateway/web.py:252-271 | after every legal run the listener is registered exactly while the request is in its loop |
| `LongPoll.OnlyMailWakes` | icloud_gateway/mailbox_watcher.py:250-265 | as long as nothing is stored no signal is set or under way, and a parked request cannot be woken |
| `LongPoll.NoLostWakeup` | icloud_gateway/web.py:257-271 | in every interleaving, once event.set of a completed cycle ran the waiter is not asleep; it gives up only when the deadline has passed, and never after a time check that saw time left since that cycle |
| `LongPoll.ToldAdvances` | icloud_gateway/web.py:257-269 | a told waiter always has a step to take, each of its steps brings it nearer to its end and nobody pushes it back |
| `LongPoll.FirstCheckDecides` | icloud_gateway/web.py:258-265 | from the top of the loop with the cycle complete, the first time check decides: with time left the read returns the code, without it the request ends empty-handed |
| `LongPoll.AnsweredIff` | icloud_gateway/web.py:257-271 | over whole runs: once the cycle is complete the request ends with the answer if and only if a time check after that sees time left, or one before did and its read is still to come |
| `LongPoll.PromptIsAnswered` | icloud_gateway/web.py:257-271 | a told waiter whose steps all come before the deadline ends with the answer |
| `LongPoll.NoEarlyEnd` | icloud_gateway/web.py:258-271 | no step of the waiter before the deadline gives up |
| `LongPoll.LateCheckMisses` | icloud_gateway/web.py:258-260 | a run in which event.set runs before the deadline, the check after it, and the stored code is not returned |
| `LongPoll.Request.WaitForCode` | icloud_gateway/web.py:232-271 | the request ends, its run is legal; giving up means that the budget had passed and no time check since the cycle that stored the answer saw time left, an answer was in the warm index, and at every end the listener is gone |
| `LongPoll.Request.Park` | icloud_gateway/web.py:266-269 | resumes only when the event is set; gives up only without the event and when the time left at the check has gone by since parking |
| `MailboxNames.Utf16RoundTrip` | icloud_gateway/imap_otp.py:752 | UTF-16 with surrogate pairs (section 2 of RFC 2781) decodes to the characters |
| `MailboxNames.Utf16Unique` | icloud_gateway/imap_otp.py:752 | a well-formed unit sequence has one spelling |
| `MailboxNames.PackedRoundTrip` | icloud_gateway/imap_otp.py:753 | base64 without padding loses no byte |
| `MailboxNames.PackedUnique` | icloud_gateway/imap_otp.py:753 | and a token without stray bits has one spelling |
| `MailboxNames.TokenRoundTrip` | icloud_gateway/imap_otp.py:752-753 | the token of a run decodes to the run |
| `MailboxNames.DecodeEncode` | icloud_gateway/imap_otp.py:745-764 | decoding by section 5.1.3 of RFC 3501 undoes the encoder, for every folder name |
| `MailboxNames.EncodeDecode` | icloud_gateway/imap_otp.py:745-764 | and the encoder undoes the decoder: no name has a second spelling |
| `MailboxNames.EncodeImapMailbox` | icloud_gateway/imap_otp.py:745-764 | the loop with its pending run computes the encoding |
| `MailboxNames.EncodePrintable` | icloud_gateway/imap_otp.py:745-764 | the encoding is printable ASCII |
| `MailboxNames.QuotedRoundTrip` | icloud_gateway/imap_otp.py:772-773 | the quoted string (section 4.3 of RFC 3501) reads back as the text |
| `MailboxNames.MailboxArgumentReadsBack` | icloud_gateway/imap_otp.py:767-774 | refused exactly for empty names and names with CR, LF or NUL; otherwise one printable astring that decodes to the name, quoted exactly if a character outside [A-Za-z0-9._/-] occurs in it |
| `MailboxNames.MailboxArgumentInjective` | icloud_gateway/imap_otp.py:767-774 | two folders never share an argument |
| `ImapSelection.TermsAreOneKey` | icloud_gateway/imap_otp.py:1023-1032 | the terms read as exactly one search key (section 6.4.4 of RFC 3501), meaning that some recipient header has the alias, with one OR less than headers |
| `ImapSelection.RecipientSearchTerms` | icloud_gateway/imap_otp.py:1023-1032 | the loop from the last header backwards builds those terms |
| `ImapSelection.AllocateFolderUids` | icloud_gateway/imap_otp.py:777-803 | a prefix of every folder, the limit or everything in all, no folder with something left more than one behind another, truncated exactly if something is left |
| `ImapSelection.Deal` | icloud_gateway/imap_otp.py:783-796 | the outer loop ends with the limit used up or every folder exhausted |
| `ImapSelection.Round` | icloud_gateway/imap_otp.py:786-794 | one round deals one to every folder that still has something, until the limit is reached |
| `ImapSelection.DealtIsFair` | icloud_gateway/imap_otp.py:783-796 | stopping anywhere in a round is fair |
| `RateLimit.SameDecision` | icloud_gateway/rate_limit.py:21-43 | after every run with a clock that never goes back, the evicting and purging limiter decides as an ideal one that keeps the whole history |
| `RateLimit.LimiterMeans` | icloud_gateway/rate_limit.py:29-43 | a call is let through exactly if fewer than max(1, limit) calls of the same bucket and key were let through in the last max(1, window) seconds |
| `RateLimit.WindowHoldsLimit` | icloud_gateway/rate_limit.py:33-41 | no half-open window holds more than the limit of calls of one bucket and key that were let through |
| `RateLimit.RefusalHint` | icloud_gateway/rate_limit.py:38-40 | retry_after is less than 1 ms short of and less than 1 s beyond the true wait, and waiting that long is enough exactly outside the first millisecond after a full second |
| `RateLimit.HintTooShort` | icloud_gateway/rate_limit.py:38-40 | a legal run in which a caller waits as long as it was told and is refused again |
| `RateLimit.AllowedAgainIff` | icloud_gateway/rate_limit.py:33-40 | the true wait: the ideal limiter allows again exactly from then on |
| `RateLimit.RunTracks` | icloud_gateway/rate_limit.py:34-42 | each queue is the history of its caller without calls that left the window, and never longer than the limit |
| `RateLimit.PurgeTracks` | icloud_gateway/rate_limit.py:45-55 | the global purge forgets no call that still counts |
| `RateLimit.SlidingWindowRateLimiter.Check` | icloud_gateway/rate_limit.py:21-43 | the method computes decision and new queues of the model |
| `RateLimit.SlidingWindowRateLimiter.PurgeEmpty` | icloud_gateway/rate_limit.py:45-55 | from 1000 queues on exactly the stale ones are dropped |
| `MessageStore.PairIsOne` | cloudflare-mailbox/src/messages/repository.ts:75-113 | in a sound table a pair of alias and message has one row or none |
| `MessageStore.MessageWorker.Insert` | cloudflare-mailbox/src/messages/repository.ts:75-113 | inserts exactly a new pair with a new id and a known alias, otherwise reports the row that is there, or fails |
| `MessageStore.MessageWorker.Match` | cloudflare-mailbox/src/messages/service.ts:300-313 | the distinct active aliases among the first 24 recipients whose lookup answered |
| `MessageStore.MessageWorker.Ingest` | cloudflare-mailbox/src/messages/service.ts:282-381 | with other ingests and alias changes between its inserts: every one of the first 24 recipients of an answered, accepted mail that is active and whose lookup works has the mail exactly once, stored plus duplicate equals matched, and a request that draws new identifiers and does not die is answered; alone, only rows of this mail are added, with its expiry and permanence |
| `MessageStore.MessageWorker.MissedByLookup` | cloudflare-mailbox/src/messages/service.ts:300-311 | one of the first 24 recipients that is active and did not have the mail has it after an acknowledged ingest exactly if its lookup did not throw |
| `MessageStore.MessageWorker.StoreFor` | cloudflare-mailbox/src/messages/service.ts:345-379 | the insert loop, also when the request dies inside it: the aliases it got to have the message; alone it only adds rows of this message for matched aliases |
| `MessageStore.MessageWorker.StoreOne` | cloudflare-mailbox/src/messages/service.ts:345-366 | one insert after whatever else happened |
| `MessageStore.MessageWorker.PutAlias` | cloudflare-mailbox/src/aliases/repository.ts:52-93 | the alias is known with the given state and nothing else changes |
| `MessageStore.MessageWorker.Cleanup` | cloudflare-mailbox/src/messages/repository.ts:289-297 | exactly the expired temporary rows go, and the count says how many |
| `MessageStore.MessageWorker.DeleteAlias` | cloudflare-mailbox/src/aliases/repository.ts:111-120 | the alias and exactly its messages go |
| `AttachmentStore.SurvivingIs` | cloudflare-mailbox/src/messages/repository.ts:190-217 | rows without an expired message belong to a surviving one or are orphans |
| `AttachmentStore.Archive.StoreAttachments` | cloudflare-mailbox/src/messages/service.ts:242-280 | bytes before row, for every attachment; a request that dies leaves at most bytes without a row, and repeating it to the end repairs that |
| `AttachmentStore.Archive.RemoveAttachments` | cloudflare-mailbox/src/messages/service.ts:557-565 | rows go only after all their bytes are gone, and no visible message loses anything |
| `AttachmentStore.Archive.RemoveAll` | cloudflare-mailbox/src/messages/service.ts:568-573 | the loop over batches of at most a hundred removes exactly what it is to remove, completely if and only if no deletion it needs fails |
| `AttachmentStore.Archive.Cleanup` | cloudflare-mailbox/src/messages/service.ts:567-582 | exactly the attachments of the surviving messages are left and the bytes of all others are gone, completely if and only if no deletion it needs fails; no visible message ever loses anything |
| `AttachmentStore.Archive.Wait` | cloudflare-mailbox/src/messages/service.ts:264-269 | expiry in the key-value store never takes the bytes of a visible message |
| `MailBridge.Bridge.RunOnce` | icloud_gateway/imap_bridge.py:72-93 | cursors only grow, and not at all if the cycle dies; every mail that a positive cursor passes is too large or was taken in and is stored exactly once for every alias it names that stays active and whose lookup does not throw; a cycle that does not die brings each folder it can search to the limit of twenty or to a mail that cannot be fetched or is not accepted |
| `MailBridge.Bridge.Run` | icloud_gateway/imap_bridge.py:64-70 | any number of cycles, each of which may die: every mail passed since the start of the first is too large or stored exactly once for each such alias, and the place a folder started from stays |
| `MailBridge.Bridge.StoppedOnward` | icloud_gateway/imap_bridge.py:113-137 | a folder whose loop stopped as it does keeps only mail that the limit or a blocking mail at or below it holds back |
| `MailBridge.Bridge.SyncFolder` | icloud_gateway/imap_bridge.py:95-138 | one folder: of the ascending UIDs above the cursor a prefix is done, the cursor moves to its last, it ends only at the limit, at the last UID or at a mail that blocks, and no other cursor moves |
| `MailBridge.Bridge.MoveCursor` | icloud_gateway/imap_bridge.py:136-137 | the cursor in memory moves over handled mail only, and a first one marks where the folder starts |
| `MailBridge.Bridge.Select` | icloud_gateway/imap_bridge.py:104-120 | ascending UIDs above the cursor, all of them after the first cycle and in it the newest twenty of those SINCE finds |
| `MailBridge.Bridge.Push` | icloud_gateway/imap_bridge.py:124-135 | the UIDs before the point where the loop stops are too large or delivered by the Worker; it stops exactly at the first mail that cannot be fetched or is not accepted, at the limit of twenty, or at the end |
| `MailBridge.Bridge.PushOne` | icloud_gateway/imap_bridge.py:124-135 | the body of the loop: it stops exactly if the mail cannot be fetched or is not accepted; a mail is skipped only if it is too large and otherwise counted only when every alias served has its row |
| `MailBridge.Bridge.Ask` | cloudflare-mailbox/src/control/routes.ts:106-140 | a request that is not lost leaves exactly one row for every alias the lookups found |
| `MailBridge.Bridge.Upload` | icloud_gateway/imap_bridge.py:149-169 | true exactly if no fault occurs and the Worker accepts the size; then the newest receipt is for this mail and the aliases its lookups found |
| `MailBridge.Bridge.NothingPassedOver` | icloud_gateway/imap_bridge.py:124-137 | every mail on the server that the cursor passed since it is positive is too large, or was taken in and is stored exactly once for every alias it names that stays active and whose lookup does not throw |
| `MailBridge.Bridge.StoredExactlyOnce` | cloudflare-mailbox/src/messages/repository.ts:75-113 | each alias that any ingest of a mail found has exactly one row of it, however often it was uploaded |
| `MailBridge.SureMoved` | icloud_gateway/imap_bridge.py:136-137 | moving the cursor to the last handled UID passes over nothing else, although mail arrives and is deleted meanwhile |
| `MessagePages.PageIs` | cloudflare-mailbox/src/messages/repository.ts:249-287 | a page is the greatest visible rows below the cursor, and all of them unless it says there is more |
| `MessagePages.PageMeans` | cloudflare-mailbox/src/messages/repository.ts:249-287 | the page after a row: rows of known aliases that have not expired and are older than it, newest first, none skipped, and hasMore exactly if others are left |
| `MessagePages.FirstPageMeans` | cloudflare-mailbox/src/messages/repository.ts:249-287 | the first page: the newest such rows of all |
| `MessagePages.ReadFalls` | cloudflare-mailbox/src/messages/service.ts:403-432 | everything read by following the cursors is strictly descending, whatever happens to the tables in between |
| `MessagePages.ReadWasVisible` | cloudflare-mailbox/src/messages/repository.ts:276 | nothing is returned that was not visible at its request |
| `MessagePages.ReadMissesNothing` | cloudflare-mailbox/src/messages/service.ts:426-430 | a reader that came to the end has read every row that stayed visible |
| `MessagePages.FollowedToTheEnd` | cloudflare-mailbox/src/messages/service.ts:403-432 | so each such row is returned exactly once, in descending order |
| `MessagePages.ReadEnds` | cloudflare-mailbox/src/messages/service.ts:426-431 | without inserts below the cursor a reader with more requests than the remaining rows need comes to the end |
| `WorkerTokens.WrittenKeepsSound` | cloudflare-mailbox/src/aliases/repository.ts:52-93 | every sound write keeps: both digests of one key or none, none on an inactive alias, no key on two aliases |
| `WorkerTokens.PlannedSound` | cloudflare-mailbox/src/aliases/service.ts:64-101 | every upsert of the service is such a write, whatever it has read |
| `WorkerTokens.PushLeavesTokenIff` | cloudflare-mailbox/src/aliases/service.ts:64-101 | a push that meets a token leaves it untouched exactly if it read one or would write the same; where it meets none, there is none afterwards exactly if it read none and sent no key |
| `WorkerTokens.PushErasesIssuedKey` | cloudflare-mailbox/src/aliases/service.ts:98-101 | the excluded run: a keyless push reads no token, a key is issued, and the push removes it |
| `WorkerTokens.IssueWinsIff` | cloudflare-mailbox/src/aliases/service.ts:134-151 | an issued key is the alias's afterwards exactly if it may replace, read no token, meets none or meets itself: one that read none replaces a token stored meanwhile |
| `WorkerTokens.EveryRunStaysSound` | cloudflare-mailbox/src/aliases/service.ts:58-208 | however upserts, issues, revocations and deletions interleave their reads and writes: both digests of one key or none, none on an inactive alias, no key on two aliases |
| `WorkerTokens.LonePushKeepsToken` | cloudflare-mailbox/src/aliases/service.ts:58-101 | a push with no other write to its alias in between never changes or removes a stored token, whatever happens to other aliases |
| `WorkerTokens.LoneRequestTakesEffect` | cloudflare-mailbox/src/aliases/service.ts:58-208 | an upsert, issue, revocation or deletion whose alias nobody else writes between its read and its write does what it is for, amid any requests for other aliases, whose rows its write leaves alone; an issued key opens the alias exactly if it is the stored one, or no other alias has it and it may replace or there was none |
| `WorkerTokens.TwoDoorsAgree` | cloudflare-mailbox/src/aliases/service.ts:220-252 | authentication by address and by key alone open for the same alias, and a key opens at most one |
| `WorkerTokens.AliasWorker.Put` | cloudflare-mailbox/src/aliases/repository.ts:52-93 | the conditional upsert, refused exactly when the unique index would break |
| `WorkerTokens.AliasWorker.Upsert` | cloudflare-mailbox/src/aliases/service.ts:58-112 | read, then write, with other requests in between; the table stays sound, a conflict is reported exactly when a different token was read, and an error exactly when the write breaks the unique index; alone the state is set, a stored token stays, a missing one becomes the one sent, and no other alias changes |
| `WorkerTokens.AliasWorker.IssueKey` | cloudflare-mailbox/src/aliases/service.ts:114-170 | alone: a conflict exactly if another token is stored and replacing was not asked for, which leaves it; an error exactly if another alias holds the key, which changes nothing; otherwise the key opens the alias |
| `WorkerTokens.AliasWorker.RevokeKey` | cloudflare-mailbox/src/aliases/service.ts:172-179 | the token pair goes, nothing else |
| `WorkerTokens.AliasWorker.SetState` | cloudflare-mailbox/src/aliases/service.ts:181-202 | alone it always succeeds; switching off takes the token away, switching on leaves it as it is |
| `WorkerTokens.AliasWorker.Delete` | cloudflare-mailbox/src/aliases/service.ts:204-208 | exactly the alias goes |
| `WorkerTokens.EdgePush.CheckStatus` | icloud_gateway/service.py:1396-1448 | every local status outside the failing batches becomes what the Worker holds and the others stay; the failures are counted exactly, so there are none exactly if no batch fails |
| `WorkerTokens.EdgePush.PushOne` | icloud_gateway/service.py:1480-1496 | answered exactly if request and reply get through and the Worker does not refuse the key; no stored token changes, and an answered push of a recoverable key leaves the alias with a token |
| `WorkerTokens.PushedIs` | cloudflare-mailbox/src/aliases/service.ts:58-112 | a push changes its own row only, no stored token, and stores no key but its own; if it is not refused the alias is active, with a token if a key was sent |
| `WorkerTokens.RefusedAsBefore` | cloudflare-mailbox/src/aliases/repository.ts:52-93 | a push does not change whether the push of another alias with another key is refused |
| `WorkerTokens.RefusedIs` | cloudflare-mailbox/src/aliases/service.ts:58-112 | the Worker answers with an error exactly if a key is sent and the alias has another one or another alias has it |
| `WorkerTokens.EdgePush.PushAll` | icloud_gateway/service.py:1450-1550 | the table afterwards is that after the pushes that arrive, one if the probe has no reply; with different addresses and keys nothing fails exactly if no active alias has its request or reply lost or its key refused; after a complete status check and no failure every active alias with a recoverable key holds a token; stored tokens never change |
| `AliasKeys.LookupIsInjective` | icloud_gateway/database.py:634-647 | a key finds exactly the alias that stores its hash, and no two keys find the same alias |
| `AliasKeys.RevealedKeyOpens` | icloud_gateway/database.py:751-788 | a revealed key finds its own alias |
| `AliasKeys.OnlyOwnKeyChanges` | icloud_gateway/database.py:734-748 | changing one alias changes what only its own old key finds |
| `AliasKeys.RotatedKeyIsDead` | icloud_gateway/database.py:715-749 | after a rotation the old key finds nothing and the new one the alias |
| `AliasKeys.StateMeans` | icloud_gateway/database.py:416-441 | switching on changes the state only; switching off clears hash, hint and text and counts as revoked |
| `AliasKeys.MissingIsDifference` | icloud_gateway/service.py:801-802 | with a duplicate-free snapshot the count minus the seen is the size of the set difference |
| `AliasKeys.ReconcileDropsFew` | icloud_gateway/service.py:790-807 | one reconcile switches off none, or exactly the active managed aliases the snapshot does not name, and at most five or a tenth of the managed ones: none exactly if more are absent |
| `AliasKeys.NamedFollow` | icloud_gateway/database.py:463-538 | an alias the snapshot names is managed afterwards and in the state the snapshot says |
| `AliasKeys.SyncedFacts` | icloud_gateway/database.py:463-538 | applying the snapshot keeps the keys sound, adds its addresses to the managed ones and touches nothing else |
| `AliasKeys.AliasDatabase.UpsertAlias` | icloud_gateway/database.py:366-461 | a new row without key, or the old one with its metadata kept if none is given and its key kept exactly if it is active; nobody else changes |
| `AliasKeys.AliasDatabase.SetState` | icloud_gateway/database.py:896-926 | switching off clears hash, hint and text together and its key finds nothing; switching on changes the state only; nobody else changes |
| `AliasKeys.AliasDatabase.ImportKey` | icloud_gateway/database.py:669-713 | refused exactly for unknown or inactive aliases and keys held elsewhere; afterwards the key finds the alias and can be revealed |
| `AliasKeys.AliasDatabase.IssueKey` | icloud_gateway/database.py:715-749 | afterwards the drawn key finds the alias, its old key finds nothing and every other key what it found |
| `AliasKeys.AliasDatabase.RevokeKey` | icloud_gateway/database.py:790-803 | afterwards the key of the alias finds nothing and every other key what it found |
| `AliasKeys.AliasDatabase.Delete` | icloud_gateway/database.py:927-934 | exactly the alias goes |
| `AliasKeys.AliasDatabase.Validate` | icloud_gateway/service.py:740-788 | accepted exactly if well formed, without repeated address or identifier, and not empty while aliases are managed |
| `AliasKeys.AliasDatabase.Reconcile` | icloud_gateway/service.py:790-807 | the loops compute the reconciled table |
| `CookieMerge.PrintThenParse` | icloud_gateway/hme.py:396 | printing loses nothing: reading the header back gives the same names, values and order |
| `CookieMerge.MergeIsUpdate` | icloud_gateway/hme.py:373-396 | reading the merged header gives the old map updated by the Set-Cookie pairs, the last one winning, old names in their places and new ones as first seen |
| `CookieMerge.MergeTwice` | icloud_gateway/hme.py:373-396 | merging the same headers again changes nothing |
| `CookieMerge.SplitJoined` | icloud_gateway/hme.py:376-379 | splitting undoes joining: cookies that each start with a name, and inside which no comma is followed by the start of another, are what the combined header is split into; the comma of a date cuts nothing |
| `CookieMerge.JoinSplit` | icloud_gateway/hme.py:376-379 | joining undoes splitting: every header is split into such cookies and nothing is lost |
| `CookieMerge.StartsIs` | icloud_gateway/hme.py:377 | the lookahead holds exactly before white space, a token of at least one character and an equals sign |
| `CookieMerge.SetPairIs` | icloud_gateway/hme.py:381-395 | one cookie gives the stripped text before its first equals sign and that up to the first semicolon, or nothing if the name is empty or a line break occurs |
| `CookieMerge.CombinedLikeSingle` | icloud_gateway/hme.py:373-396 | one header that combines cookies counts like a header for each of them |
| `CookieMerge.ParseSound` | icloud_gateway/hme.py:359-370 | what is read has distinct plain names and values |
| `CookieMerge.CookiePairs` | icloud_gateway/hme.py:359-370 | the loop computes the jar of a header |
| `CookieMerge.MergeSetCookieHeaders` | icloud_gateway/hme.py:373-396 | the loops compute the merged header |
| `Ordering.SortSorted` | icloud_gateway/mailbox_watcher.py:449-452 | the sort gives a descending order |
| `Ordering.FirstDifferenceDecides` | icloud_gateway/imap_otp.py:1086-1087 | strings are ordered by their first difference, a beginning before the whole |
| `Ordering.SortAppend` | icloud_gateway/mailbox_watcher.py:448-452 | sorting after an append is one stable insertion |

## Left out

- CreateWorker.Worker.CreateAlias: the client that only offers `create_alias` (`icloud_gateway/jobs.py:1170-1197`), the edge push after success, audit events, and the length of waits; a wait is its mark only.
- CreateWorker.Worker.EarlyExit: only for unmarked rows in the case of a stop or an HME error; for marked rows see `CreateSafety.EarlyErrorSafeIff`.
- CreateWorker.Worker.BeforeCandidate: keeps stops and HME errors away from marked rows, because with them the promise is false (see above).
- BatchJobs.Job.RunItem: the bulk actions of `_bulk_alias` are any change its outcome allows; what they do to aliases is not modelled.
- AliasSnapshots.Gateway.CommitAliasSnapshot: the local table is the applied list; that a list can be refused for shrinking is in `AliasKeys.ReconcileDropsFew`.
- AliasSnapshots.Gateway.ChangeAlias: the single-flight refresh of the session, and a list that the guarded reconcile refuses, are not modelled.
- MailboxIndex.MailboxWatcher.Latest: sender filter and sender policy are one test on the header, an input; address normalisation happens before.
- MailboxIndex: seeding, fetching and the IMAP cursor of the watcher are not modelled; a failed fetch there skips mail, so completeness of ingestion is not claimed.
- LongPoll.Request.WaitForCode: the environment wakes the request finitely often, so that the model's loop ends; the on-demand scan is one outcome.
- MailboxNames.MailboxArgument: names are sequences of Unicode scalar values; a lone surrogate makes the source's encoder raise and is not a value here.
- ImapSelection.TermsAreOneKey: quoting of the alias as an IMAP string is done by the IMAP library and not modelled.
- RateLimit.RefusalHint: floating-point rounding of times is not modelled.
- MessageStore.MessageWorker.Ingest: with other requests between its inserts (`shared`) how many rows the others add is not stated; encryption, MIME parsing and classification are left out; a mail is its digests. Attachments are in `AttachmentStore.dfy`.
- AttachmentStore.Archive.Cleanup: requests that store attachments while the cleanup runs are not interleaved with it.
- MailBridge.Bridge.RunOnce: an unreadable cursor file makes the source start over from an empty map; that case is not modelled.
- MessagePages.ListAll: cursor text encoding, decryption and attachments of a page are left out.
- WorkerTokens.EdgePush.CheckStatus: a reply that does not name every address of its batch makes the client raise (`icloud_gateway/edge_sync.py:209-210`) and is a failed batch.
- WorkerTokens.EdgePush.PushAll: the parallel pushes are taken one after the other; they concern different aliases.
- WorkerTokens.AliasWorker.Upsert: with other requests in between (`shared`) only soundness, the write itself and the conflict test are stated.
- AliasKeys.AliasDatabase: an alias is identified by its address, which is unique; labels, notes, usage and time stamps are left out.
- CookieMerge.MergeSetCookieHeaders: reading the header list out of the HTTP response is not modelled.
- HTTP and form handling, Playwright capture, browser code, SMTP and IMAP sockets, database and key-value engines: tables are maps or sequences, calls are nondeterministic steps.
- Encryption, HMAC, hashing and random keys: digests are injective, drawn keys and identifiers are inputs.
- Extraction of codes, HTML sanitising, sender classification, configuration, dashboards, audit texts: they would add easy members only.
