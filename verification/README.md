# Verified model of the assignment runtime

This project models the parts of the repository that carry its hardest promises, and proves
them: the hand-written Redis-protocol readers and the fault-injecting relays built on them, the
append-only assignment ledger with its signed Candidates, the Redis feed that follows it, batch
commands that are interrupted and taken up again, saved reassignment requests, canonical JSON and
the identities and fingerprints made from it, cursor listings, and the accounting and order
statistics of the benchmarks.

`dafny verify dfyconfig.toml` checks everything.

## How it is laid out

| modules | what they model |
|---|---|
| `PyBytes`, `Utf8`, `Utf8Proofs`, `RespGrammar`, `RespProofs`, `RespWire`, `RespReaders` | byte streams, Python's `int()` and UTF-8 decoding, commands and replies, byte by byte in `RespWire`, the recursive readers as methods over a stream object |
| `Relay`, `RelayProofs`, `RelayWire` | one relayed connection of either proxy, whole pipelined conversations, and the refused commands in bytes |
| `Ledger`, `LedgerProofs`, `LedgerGraph`, `LedgerProvenance` | records, the exact-head rule, commitment and publication; what every run keeps; the causal graph and the parents of every fact |
| `LedgerOutcomes`, `Admission`, `LedgerConfluence`, `LedgerKeys`, `LedgerRequests` | what a publication does and what repeating it does later; who may be assigned what, and why not; independence of contracts; derived keys; frozen requests |
| `Feed`, `FeedProofs`, `FeedStates` | the stored stream, the paged prefix proof, synchronization under failing links, and what the proof finds for any state of the keys |
| `Workspace`, `WorkspaceProofs` | store and feed together, as objects updated in place, and all runs of them |
| `Contention`, `Sharing` | several clients of one workspace: what they do, the retry loop of a synchronization, and a publication between whose requests the others act |
| `Batch`, `BatchProofs`, `BatchRows`, `Oracles`, `Counterexamples` | batch commands, outages, recovery, what the rows and counts say, the two checks the smoke script decides them with, and inputs at which promises fail |
| `Sorting`, `Json`, `JsonProofs`, `CanonicalOrder`, `TargetKeys`, `Fingerprint`, `FingerprintForms` | canonical text and what it looks like, keys, database fingerprints and what goes into them |
| `RequestFiles`, `SavedRequests`, `RequestShape`, `Resumption` | request files, which requests are valid, the way of a frozen request through one, and the resume command over failing links |
| `Paging`, `Listings`, `Ancestry`, `Patching`, `Accounting`, `Statistics` | cursor listings, their order and pages, and benchmark bookkeeping |

A definition that both a member and its statement use proves nothing of what it says. `RespWire`,
`Utf8Proofs`, `RelayWire`, `Admission`, `FeedStates`, `BatchRows`, `CanonicalOrder`,
`FingerprintForms`, `RequestShape` and `Listings` therefore restate what the others decide without
their definitions: by the bytes, the records, the fields and the positions themselves.

A record is content-addressed, so in `Ledger` a record is its own identity: a value of body and
parents; an idempotency key is any text. Elsewhere a digest is an arbitrary function, and where a
result depends on it the lemma says so by exhibiting the two texts that would have to collide.

## Where the code says otherwise

These are results: the code is modelled as it is, the promise is shown to fail, and its exact
condition is proved.

- An idempotency key is no guard by itself. The ledger keeps no table from keys to intents; a key
  only enters the Candidate's identity. A committed key with another intent for the *same*
  predecessor is refused without a write (`LedgerOutcomes.ChangedIntent`), but from the current
  head it is accepted (`LedgerOutcomes.KeyAcceptedTwice`). `LedgerOutcomes.ReusedKey` says when.
- A resumed request may write although it changes nothing: when the very transition it froze has
  been published under another key, a stale rejection is recorded. Under the text of its own key,
  whoever passed it, nothing is written (`LedgerRequests.ResumeMayWrite` has both; the full answer
  at any state is `LedgerRequests.FrozenTransition`).
- A fact reported pending can already be in the feed: when it was committed earlier and only the
  replay's last synchronization fails (`WorkspaceProofs.ReplayPending`), when the append was applied
  and not confirmed (`WorkspaceProofs.UnconfirmedPending`), or when another client relayed it
  (`Counterexamples.RelayedByAnother`), even with every link open
  (`Counterexamples.ContendedPending`). `Sharing.PendingExactly` says when, for any clients;
  `WorkspaceProofs.PendingAbove` for one client alone.
- The check of batch results refuses a result the batch command does produce: a durable rejection
  while the relay is failing (`Oracles.BatchVerdict`; an input in
  `Counterexamples.StaleWhilePending`). The check of a pending projection never accepts a clear,
  which is shown with no worker where its data have an empty one (`Oracles.PendingVerdict`,
  `Counterexamples.ClearRefused`).
- After the first pending row a batch does go on to the next target. In an outage the rest come out
  as not attempted because their own first synchronization fails, so refusals may still appear among
  them (`BatchProofs.OutageShape`, `Counterexamples.RefusedAfterPending`). If appends are applied
  and only not confirmed, the batch writes every target while each row says pending
  (`BatchProofs.UnacknowledgedBatch`).
- A reply with an attribute is not read whole (`RespProofs.ReplyReadExactly`), and a damaged
  spelling of a targeted event type makes the first relay hang up without recording a fault
  (`RelayProofs.PendingVerdict`, `RelayProofs.StrayByteAbandons`).
- The first fingerprint cannot tell a blob from the text of its hexadecimal
  (`Fingerprint.PlainTells`, `Fingerprint.BlobUnseen`).
- The provenance script fails for a fact whose worker has since been registered anew
  (`LedgerProvenance.FactProvenance`, `Counterexamples.RegisteredAnew`).
- The relay scripts look for an `EVAL` whose script mentions `XADD`; the collaboration service in
  this repository appends with `XADD` inside `MULTI`. The feed model therefore takes a relay that
  drops appends as one kind of link.

## Model

| member | source | states |
|---|---|---|
| RespReaders.ReadCommand | scripts/installed_assignment_priority_pending_smoke.py:158-178 | the stream reader, with its loop over arguments, returns what the pure grammar parses from the unread bytes and leaves exactly the rest, or fails as it does |
| RespReaders.ReadArguments | scripts/installed_assignment_priority_pending_smoke.py:165-177 | the argument loop accumulates exactly the arguments and bytes the grammar gives for that count, any integer count included |
| RespReaders.ReadReply | scripts/installed_assignment_priority_pending_smoke.py:181-204 | the recursive reply reader agrees with the grammar on every stream, at every nesting, whatever the declared counts |
| RespGrammar.ParseCommand | scripts/installed_assignment_priority_pending_smoke.py:158-178 | conservation: the bytes returned for a command followed by the unread bytes are the stream, and a non-empty stream gets shorter |
| RespGrammar.ParseReply | scripts/installed_task_attachment_smoke.py:279-302 | conservation for replies on any input bytes, with progress, although element counts are unbounded |
| RespProofs.CommandRoundTrip | scripts/installed_assignment_priority_pending_smoke.py:158-178 | encoding any list of binary arguments and reading it gives back the list, its bytes, and the untouched rest |
| RespProofs.PipelineRoundTrip | scripts/installed_task_attachment_smoke.py:256-276 | a concatenation of encoded commands reads back as exactly that list of commands |
| RespProofs.PipelineInjective | scripts/installed_task_attachment_smoke.py:256-276 | two pipelines have the same bytes only if they are the same pipeline |
| RespProofs.CommandsPrefixFree | scripts/installed_assignment_priority_pending_smoke.py:158-178 | no encoded command is a prefix of another |
| RespProofs.ReplyReadExactly | scripts/installed_assignment_priority_pending_smoke.py:181-204 | a well-formed reply is consumed exactly if and only if no attribute occurs in it at any depth; otherwise the values left unread are known |
| RespWire.IntegerBytes | scripts/installed_assignment_priority_pending_smoke.py:164-171 | a header's number is its decimal value whatever blanks, sign and leading zeros stand around it |
| RespWire.OtherBytes | scripts/installed_assignment_priority_pending_smoke.py:164-171 | any other byte in it, and an empty text, is no number |
| RespWire.LineReplies | scripts/installed_assignment_priority_pending_smoke.py:181-188 | for each of + - : , ( # _ a line is one reply, whatever follows |
| RespWire.BulkReplies | scripts/installed_assignment_priority_pending_smoke.py:189-196 | for each of $ ! = a size, that many bytes and two more are one reply |
| RespWire.NegativeReplies | scripts/installed_assignment_priority_pending_smoke.py:189-200 | a negative size or count is a whole reply by itself |
| RespWire.CountedReplies | scripts/installed_assignment_priority_pending_smoke.py:197-203 | for each of * ~ > a count takes that many replies, for maps and attributes twice as many, and all of it is one reply |
| RespWire.OtherReplies | scripts/installed_assignment_priority_pending_smoke.py:189-204 | any other first byte, and a size or count that is no number, is a ValueError |
| RespWire.ShortReplies | scripts/installed_assignment_priority_pending_smoke.py:182-195 | an ended stream and a short body are lost connections |
| RespWire.CommandBytes | scripts/installed_assignment_priority_pending_smoke.py:158-178 | a command is * and its count, then for each argument $, its size and its bytes, each line ended by CR LF; it reads back as its arguments and its own bytes |
| RespWire.OtherCommands | scripts/installed_assignment_priority_pending_smoke.py:159-170 | nothing else begins a command or an argument, and the end of the stream is an empty command |
| RespWire.UnendedArgument | scripts/installed_assignment_priority_pending_smoke.py:171-174 | an argument not followed by CR LF is a lost connection |
| Utf8Proofs.StrictExactly | scripts/installed_assignment_priority_pending_smoke.py:238-249 | bytes decode strictly to a text exactly when they are its encoding (RFC 3629 section 3) |
| Utf8Proofs.IgnoreExactly | scripts/installed_assignment_priority_pending_smoke.py:238-249 | lenient decoding takes an encoded character where one stands and otherwise drops one byte |
| Relay.RelayServer.Handle | scripts/installed_assignment_priority_pending_smoke.py:217-253 | the handler's loop sends, answers and records exactly what the conversation function says, for every input, upstream and configuration, and only reports an unreachable upstream otherwise |
| RelayProofs.PendingVerdict | scripts/installed_assignment_priority_pending_smoke.py:238-249 | a command is refused exactly when its event argument is byte for byte a targeted type, and abandoned exactly when it only looks like one after lenient decoding |
| RelayProofs.StrayByteAbandons | scripts/installed_assignment_priority_pending_smoke.py:238-249 | one stray byte after a targeted type makes the handler hang up |
| RelayWire.PendingJudged | scripts/installed_assignment_priority_pending_smoke.py:238-249 | in bytes: with at least eight arguments, EVAL in any case and XADD in the script, the assignment and priority proxy refuses the two types, hangs up on a type that only reads as one of them when malformed bytes are dropped, and forwards all else |
| RelayWire.AttachmentJudged | scripts/installed_task_attachment_smoke.py:305-311 | in bytes: the attachment proxy refuses such a command with its one type and forwards all else |
| RelayWire.RefusalsSpelled | scripts/installed_task_attachment_smoke.py:324-358 | the refusals and the reports of an unreachable upstream, character by character, and which proxy goes on |
| RelayProofs.Conversation | scripts/installed_task_attachment_smoke.py:324-358 | for any pipeline and an upstream with one plain reply per command, upstream gets exactly the untargeted commands handled, the client one answer per handled command, the fault list the targeted ones |
| RelayProofs.AnswerAt | scripts/installed_task_attachment_smoke.py:341-356 | the i-th answer is the refusal, or the upstream reply counted by forwarded commands before it |
| RelayProofs.StopIsPrefix | scripts/installed_assignment_priority_pending_smoke.py:231-253 | the variant that hangs up after a fault agrees with the one that continues up to and including the first fault's answer |
| RelayProofs.AttachmentAnswersAll | scripts/installed_task_attachment_smoke.py:324-358 | the attachment proxy answers every command of a pipeline and forwards exactly those that do not link an attachment |
| RelayProofs.PendingFaults | scripts/installed_assignment_priority_pending_smoke.py:231-253 | the assignment and priority proxy records at most one fault in a connection, of a targeted type, and the refusal is the last thing the client hears |
| LedgerProofs.RunSound | src/aigineering/core/sqlite_store.py:3242-3503 | every run from a sound store stays sound (shapes, parents first, one head per fact, one fact per Candidate, one declaration per contract, chained histories, live registrations) and only appends |
| LedgerProofs.CommitAccepted | src/aigineering/core/commitment.py:80-162 | acceptance logs receipt, fact, head and trace in order, appends the fact to its own history and changes no other |
| LedgerProofs.CommitRefused | src/aigineering/core/candidate_decision.py:57-93 | a durable rejection keeps the store sound and changes no history |
| LedgerProofs.FactFits | src/aigineering/core/claim_assignments.py:395-436 | the fact built for an admitted transition has its receipt, a declaration of its own contract, its named predecessor and a compatible registration as parents, all in the log |
| LedgerGraph.CommittedOnce | scripts/installed_task_bulk_smoke.py:304-362 | a committed Candidate has exactly one receipt, one head and one fact in the log, and the head's parents are the receipt followed by its members |
| LedgerGraph.CommittedReplays | src/aigineering/plugins/task_assignment.py:127-200 | every check that guards the replay of a committed Candidate succeeds |
| LedgerGraph.AncestorsPrecede | src/aigineering/protocol/runtime_record.py:35-57 | every recorded causal ancestor stands strictly earlier in the log |
| LedgerGraph.RevisionsFall | scripts/installed_assignment_smoke.py:80-159 | records cite their parents by text: along any walk from record to cited record the revisions strictly fall, so no walk returns or is longer than its first revision, unless two ids share a text |
| LedgerProvenance.FactProvenance | scripts/installed_assignment_smoke.py:80-159 | the provenance script accepts a fact exactly when the registration it relies on is still the current one |
| LedgerProvenance.ProvenanceExactly | scripts/installed_assignment_smoke.py:80-125 | in any state, sound or not, what the script asks of a direct fact: one receipt, one declaration, the named predecessor, the current registration and one head, each among the parents it should be among |
| LedgerProvenance.RunProvenance | scripts/installed_assignment_smoke.py:80-159 | the same in every run from the empty store |
| LedgerOutcomes.Replay | src/aigineering/task_assignment.py:257-366 | publishing a committed Candidate leaves the state as it is and answers with its original fact |
| LedgerOutcomes.ReplayLater | scripts/installed_bulk_reassignment_smoke.py:1290-1308 | the same after any further steps, later heads included |
| LedgerOutcomes.ReplayAll | scripts/installed_bulk_reassignment_smoke.py:1002-1194 | any reordered, repeated list of accepted Candidates adds no record and returns the original facts |
| LedgerOutcomes.Fresh | src/aigineering/task_assignment.py:86-148 | a transition not yet recorded is refused without a write, or accepted with one new fact that replaces the current head |
| LedgerOutcomes.AcceptedExactly | src/aigineering/core/claim_assignments.py:283-392 | a new transition is accepted exactly when it names the current head, changes the worker, the contract is unclaimed, not ended and not satisfied, and any worker named is registered, enabled and compatible; it then is the head, a clear one without a worker |
| Admission.SetExactly | src/aigineering/core/worker_routing.py:111-122 | a new transition to a worker is accepted exactly when it replaces the contract's last fact by another worker, nothing closed the contract, and the registration is enabled, offers each declared capability, shares an exclusive capability if it offers one, and shares a pool if the task names any |
| Admission.AnsweredExactly | src/aigineering/task_assignment.py:86-148 | for a declared task, each reason of refusal is given exactly when the log shows it, and a rejection is always stale and given exactly for a transition made under another Candidate |
| Admission.ObjectionExactly | src/aigineering/core/claim_assignments.py:283-392 | of the objections that hold, the one raised is the first in the order of the checks |
| Admission.UndeclaredRefused | src/aigineering/task_assignment.py:86-106 | without a declaration a publication is refused and writes nothing |
| Admission.AcceptedRecords | src/aigineering/core/claim_assignments.py:395-436 | the records an acceptance adds, with the receipt, declaration, replaced head and registration that the fact cites in this order |
| Admission.RejectedRecords | src/aigineering/core/candidate_decision.py:57-93 | the records a rejection adds, and that it adds no others |
| Admission.RunServes | src/aigineering/core/claim_assignments.py:378-381 | in every run, among the parents of a logged fact that names a worker are a logged declaration and a logged, enabled registration that offers all it asks for |
| Admission.RunVersions | src/aigineering/core/worker_routing.py:92-108 | in every run one version of a worker stands for one description |
| Admission.FirstServes | src/aigineering/core/worker_routing.py:111-122 | for one task and one worker of any capabilities and pools, a reached ledger in which the first assignment is accepted exactly so |
| Admission.SomeServe | src/aigineering/core/worker_routing.py:111-122 | more capabilities and other pools do no harm; a missing one, an exclusive one not asked for, or no common pool does |
| LedgerOutcomes.OtherKey | src/aigineering/task_assignment.py:151-177 | a transition recorded under another Candidate is durably rejected as stale, and no history changes |
| LedgerOutcomes.PublishKeeps | src/aigineering/task_assignment.py:257-366 | whatever is answered, soundness is kept, other histories are untouched, a refusal writes nothing, and accepted means committed with that fact |
| LedgerOutcomes.ReplacedOnce | src/aigineering/core/claim_assignments.py:145-162 | in a chained history no head is replaced twice, and what was replaced is no longer the head |
| LedgerOutcomes.ChangedIntent | scripts/installed_bulk_reassignment_smoke.py:1002-1194 | another worker or reason for an already replaced predecessor is refused without a write, under any key |
| LedgerOutcomes.ReusedKey | src/aigineering/task_assignment.py:86-148 | reusing a committed key for another intent is refused without a write exactly when the preflight objects, and accepted exactly when it does not and the transition is new |
| LedgerOutcomes.KeyBlind | src/aigineering/task_assignment.py:257-366 | two uncommitted Candidates with one intent and different keys fare alike |
| LedgerOutcomes.KeyAcceptedTwice | src/aigineering/task_assignment.py:257-366 | one key used for an assignment and for a reassignment from its fact gives two facts |
| LedgerKeys.ReassignKeysMeet | src/aigineering/cli/task_assignment.py:150-167 | two derived keys are one text exactly for one base, contract and predecessor by name, or by a collision of their digests |
| LedgerKeys.SameBaseNewHead | scripts/installed_bulk_reassignment_smoke.py:1153-1183 | one batch base with a new predecessor is a new key, short of a shared id text or a collision, and unless something objects appends exactly one fact |
| LedgerConfluence.AlikePublish | src/aigineering/core/claim_assignments.py:283-392 | a publication's answer, its records and its effect depend only on how its own contract looks |
| LedgerConfluence.Elsewhere | src/aigineering/task_assignment.py:257-366 | a publication leaves every other contract looking as before |
| LedgerConfluence.PublishTwice | src/aigineering/task_assignment.py:257-366 | publishing again at once changes nothing and answers the same, rejections included |
| LedgerConfluence.BatchSettles | src/aigineering/cli/_task_batch.py:116-416 | after any attempts at a batch of distinct contracts each contract looks as if published alone, the log holds exactly the union of the separate records, and each answer is the separate one |
| LedgerConfluence.Confluence | scripts/installed_bulk_assignment_smoke.py:910-1101 | two sequences over the same Candidates, in any orders and repetitions, end with the same histories and the same records |
| LedgerConfluence.ConfluentVerdicts | scripts/installed_bulk_assignment_smoke.py:910-1101 | and every occurrence of a Candidate is answered alike in both |
| LedgerRequests.Heads | src/aigineering/task_assignment_requests.py:211-234 | freezing heads gives every target its current non-empty head, or names a target that is unknown or has none |
| LedgerRequests.PreparesExactly | src/aigineering/task_assignment_requests.py:185-254 | a request is prepared exactly when every target is declared and assigned; it holds the arguments and the last fact of each, and otherwise the first target that is not so is named as what it lacks |
| LedgerRequests.FrozenTransition | scripts/installed_reassignment_request_smoke.py:1288-1467 | the full answer for a frozen transition at any later state, with the exact condition under which nothing is written after the head has moved; the key counts as text |
| LedgerRequests.Resumed | src/aigineering/cli/task_assignment.py:434-448 | whatever runs between preparing and resuming, each target is reported by that answer |
| LedgerRequests.NeverRefreshed | scripts/installed_reassignment_request_smoke.py:1343-1386 | an accepted fact replaces the head frozen at the start, with the frozen worker and reason |
| LedgerRequests.ResumeTwice | scripts/installed_reassignment_request_smoke.py:1425-1467 | resuming twice leaves the state and the reports of resuming once |
| LedgerRequests.ResumeLater | scripts/installed_reassignment_request_smoke.py:1425-1467 | an accepted target reports its original fact however much later it is resumed |
| LedgerRequests.ResumeMayWrite | src/aigineering/task_assignment.py:151-177 | when the frozen transition has been published under any key: with the text of the request's own key resuming reports that fact and writes nothing, with any other it writes a stale rejection |
| Feed.ComparePages | src/aigineering/redis_collaboration.py:291-327 | the page loop reports a divergence exactly when the visible events are not a prefix of the captured ones, and otherwise counts them |
| Feed.ProvePrefix | src/aigineering/redis_collaboration.py:252-343 | the paged proof decides every state of the two Redis keys as the direct comparison of the two event sequences does |
| FeedProofs.ProvedPrefix | src/aigineering/redis_collaboration.py:252-343 | a proof that is neither broken nor ahead means the stream is the log's prefix ending at its own watermark |
| FeedStates.ProofExactly | src/aigineering/redis_collaboration.py:252-343 | the proof says equal, empty, lagging or ahead exactly when the two keys hold the whole log, nothing, a proper prefix, or the whole log and more, with the last revision as watermark under the schema |
| FeedStates.BrokenExactly | src/aigineering/redis_collaboration.py:252-343 | otherwise it is broken, and the reason given is decided by the kinds, the schema, the watermark and the first difference |
| FeedProofs.SyncExact | src/aigineering/redis_collaboration.py:424-525 | a synchronization that succeeds, or whose append was applied although it was not confirmed, leaves exactly the whole log in the feed, whatever was there; any other changes nothing |
| FeedProofs.MirrorsSync | src/aigineering/redis_collaboration.py:424-458 | a prefix feed stays one, catches up exactly when the link allows it, and its watermark never decreases |
| Workspace.Store.AssignmentHistory | src/aigineering/core/claim_assignments.py:145-162 | the loop returns the contract's facts exactly when they form a chain |
| Workspace.Store.Commit | src/aigineering/core/commitment.py:194-297 | commitment in place decides and writes as the ledger says |
| Workspace.Redis.StageAndSwap | src/aigineering/redis_collaboration.py:355-423 | the paging loop cuts the log into pages within the event and byte bounds, whose concatenation is the log, and the swap leaves exactly the log |
| Workspace.PageBounds | src/aigineering/redis_collaboration.py:366-376 | a page has 1 to 256 events and at most a mebibyte of commands unless it is a single event |
| Workspace.Redis.Sync | src/aigineering/redis_collaboration.py:472-525 | synchronization in place, appending or staging by the size of the suffix, is the synchronization function |
| Contention.DoAllKeeps | src/aigineering/redis_collaboration.py:252-343 | whatever steps and relaying transactions several clients make, on captures of any age and over any links, the ledger stays sound, the feed a prefix of its log, and the watermark never falls |
| Contention.FeedAfter | src/aigineering/redis_collaboration.py:472-525 | a logged record is in the feed exactly when it was before, or an applied transaction of some client, made on a capture that held it, has put it there |
| Contention.Synchronize | src/aigineering/redis_collaboration.py:424-470 | the retry loop, with other clients acting before and after each watch and any link in each attempt, does what its specification says |
| Contention.TryKeeps | src/aigineering/redis_collaboration.py:472-525 | one attempt beside others amounts to the deeds of all; it settles with exactly the captured log in the feed, and over an open link it is repeated only if somebody wrote in between |
| Contention.SyncKeeps | src/aigineering/redis_collaboration.py:424-470 | a whole synchronization amounts to the deeds of all, and success leaves at least the log as it was when the synchronization began |
| Contention.QuietSucceeds | src/aigineering/redis_collaboration.py:424-470 | over an open link a synchronization fails only when every one of its attempts was disturbed |
| Workspace.PublishAssignment | src/aigineering/task_assignment.py:257-366 | one publication over store and feed, with a synchronization before and after, does what the specification says for every link behaviour |
| WorkspaceProofs.AttemptKeeps | src/aigineering/runtime_services.py:39-46 | one publication of one client under failing links: the store does what the ledger says unless nothing was attempted, and the report with the last link tells which log the feed then holds |
| WorkspaceProofs.RunHealthy | scripts/installed_bulk_assignment_smoke.py:1103-1129 | in every run of local steps, publications and catch-ups the feed is a prefix of the log, the log only grows and the watermark never decreases |
| WorkspaceProofs.FeedExact | scripts/installed_assignment_priority_pending_smoke.py:127-145 | the feed is the log up to the watermark, each record once and at its own revision |
| WorkspaceProofs.PendingAbove | scripts/installed_assignment_priority_pending_smoke.py:948-1012 | for one client alone: a pending fact is logged; it is in the feed exactly when it was committed before or its append was applied and not confirmed, and otherwise lies above the watermark |
| WorkspaceProofs.UnconfirmedPending | src/aigineering/redis_collaboration.py:455-458 | a new transition whose append is applied and not confirmed is reported pending although the feed has the whole log |
| WorkspaceProofs.ReplayPending | src/aigineering/task_assignment.py:353-366 | a replay over a link that then fails is reported pending although the feed has the fact |
| WorkspaceProofs.CaughtUp | scripts/installed_assignment_priority_pending_smoke.py:948-1012 | once an append gets through, the feed is the whole log |
| WorkspaceProofs.FeedProof | scripts/installed_assignment_priority_pending_smoke.py:127-145 | the feed proof script's loop returns the watermark and the matching events |
| WorkspaceProofs.FeedProofExact | scripts/installed_assignment_priority_pending_smoke.py:127-145 | for a logged record it finds one event at the record's revision exactly when the watermark has reached it |
| Sharing.ShareKeeps | src/aigineering/task_assignment.py:257-366 | a publication between whose requests others commit and synchronize: the ledger stays sound and the feed a prefix of its log; accepted means committed and in the feed, pending means committed, rejected means that the rejection is logged |
| Sharing.PendingExactly | src/aigineering/task_assignment.py:357-366 | a pending fact is in the feed exactly when it was there before, or an applied transaction of this or another client, made on a capture that held it, has put it there |
| Sharing.ShareAlone | src/aigineering/task_assignment.py:257-366 | with nobody else and one link for each synchronization this is the publication of a single client |
| Batch.Collect | src/aigineering/cli/_task_batch.py:116-416 | the batch loop attempts the targets in order, stops at an internal error, and returns one row per target in order with the counts of those rows |
| Batch.RunCommand | src/aigineering/cli/task_assignment.py:224-262 | the batch command synchronizes once before its first row and emits nothing when that fails |
| BatchProofs.BatchPublishes | src/aigineering/cli/_task_batch.py:136-402 | under any links, a batch amounts to publishing exactly what it attempted, and each report is the verdict the target would have had alone at the start |
| BatchProofs.Recovery | scripts/installed_bulk_reassignment_smoke.py:1310-1517 | an interrupted batch followed by its left-over targets, in any order and with any others again, ends with the histories, records and verdicts of one uninterrupted run |
| BatchProofs.RecoveryByBatch | scripts/installed_bulk_assignment_smoke.py:910-1101 | the same when the left-over targets are given to a second batch command over a restored link, which finishes every target |
| BatchProofs.CommandKeeps | src/aigineering/cli/task_assignment.py:224-262 | a command is without rows exactly when its own synchronization fails, and then writes nothing to the store; with rows it is the batch begun with the whole log in the feed |
| BatchProofs.RecoveryByCommand | scripts/installed_bulk_assignment_smoke.py:910-1101 | a command that was interrupted or had no rows, followed by one over a restored link, ends with the ledger of one uninterrupted batch and every target finished |
| BatchProofs.OutageShape | scripts/installed_bulk_reassignment_smoke.py:1310-1400 | once a target is unfinished in an outage, nothing more is written and each later target is refused by its preflight or not attempted |
| BatchProofs.NotAttemptedExactly | src/aigineering/task_assignment.py:268-283 | a target is not attempted exactly when its preflight is clean and its first synchronization cannot succeed |
| BatchRows.RowTable | src/aigineering/cli/_task_batch.py:136-402 | outcome, success, acceptance, retention, attempt and records of each row, report by report |
| BatchRows.RowData | src/aigineering/cli/_task_batch.py:419-449 | the data of an accepted or pending row are the members of its fact |
| BatchRows.CountTable | src/aigineering/cli/_task_batch.py:403-415 | success, failure, pending, unknown and not-attempted counts are the numbers of reports of each kind |
| BatchRows.EachInTurn | src/aigineering/cli/_task_batch.py:116-402 | each target is published in the world the targets before it left, until one ends in an internal error; those after it are not attempted and change nothing |
| BatchRows.RefusedRows | src/aigineering/cli/_task_batch.py:294-297 | whatever the links do, a row is not-found exactly for an undeclared task, and refused exactly when its target would have been refused alone |
| BatchRows.OutageRows | scripts/installed_bulk_reassignment_smoke.py:1310-1400 | after the first row of an outage that is pending, not attempted or rejected with its relay pending, every target that is not refused has a not-attempted row |
| BatchRows.OutageFromTheFirst | scripts/installed_bulk_reassignment_smoke.py:1358-1368 | new admissible transitions over a relay that fails after the first commitment: one pending row, all others not attempted, and the counts of that |
| BatchProofs.UnacknowledgedBatch | src/aigineering/cli/_task_batch.py:172-192 | with every append applied and only its reply lost, a batch of new admissible transitions is written whole while every row says pending |
| BatchProofs.ReplayByRow | scripts/installed_bulk_reassignment_smoke.py:1033-1062 | giving an accepted or pending row's key and data to the single command, after anything else has happened, returns the row's own data and writes nothing |
| Oracles.AssertBatch | scripts/installed_bulk_reassignment_smoke.py:210-328 | the check's loop over rows accepts exactly the envelopes its specification describes |
| Oracles.AcceptedRowForm | scripts/installed_bulk_reassignment_smoke.py:264-291 | an accepted or pending row passes exactly when it is what some record and Candidate give for the requested change, a pending one marked durable |
| Oracles.OtherRowForm | scripts/installed_bulk_reassignment_smoke.py:292-315 | any other row passes exactly when it names its target and carries no record |
| Oracles.BatchVerdict | scripts/installed_bulk_reassignment_smoke.py:210-328 | the check accepts a batch command's own result exactly when no target was durably rejected with the relay pending, its base and keys not being empty |
| Oracles.AssertPendingProjection | scripts/installed_bulk_reassignment_smoke.py:364-421 | the loop over targets decides its specification |
| Oracles.ViewForms | scripts/installed_bulk_reassignment_smoke.py:364-421 | of any two views the check accepts the later exactly when it is the earlier with the accepted item added, as its head and worker too, and the earlier was consistent |
| Oracles.PendingVerdict | scripts/installed_bulk_reassignment_smoke.py:364-421 | between two sound ledgers the check accepts exactly when the accepted fact sets a worker, was appended to the first history, and no other selected history changed |
| Counterexamples.StaleWhilePending | src/aigineering/cli/_task_batch.py:219-246 | a transition recorded under another key, over a link that goes down, is reported rejected with the relay pending, and the batch check refuses that report |
| Counterexamples.StaleWhilePendingReached | src/aigineering/cli/_task_batch.py:219-246 | a workspace reached from the empty one where that happens |
| Counterexamples.ClearRefused | scripts/installed_bulk_reassignment_smoke.py:364-421 | every accepted clear is appended as asked and refused by the pending check |
| Counterexamples.ClearRefusedReached | scripts/installed_bulk_reassignment_smoke.py:364-421 | a reached ledger with an admissible clear |
| Counterexamples.RegisteredAnew | scripts/installed_assignment_smoke.py:80-159 | registering a worker anew makes the provenance script refuse every fact that relied on an earlier registration |
| Counterexamples.RegisteredAnewReached | scripts/installed_assignment_smoke.py:80-159 | a reached ledger whose fact passes before and fails after such a registration |
| Counterexamples.RefusedAfterPending | src/aigineering/cli/_task_batch.py:294-297 | in an outage an undeclared target after a pending row is refused, not left unattempted |
| Counterexamples.OutagesReached | scripts/installed_bulk_reassignment_smoke.py:1310-1400 | a reached workspace with a caught-up feed, a committed Candidate, an admissible transition and an undeclared task, which the outage results ask for |
| Counterexamples.FreshBatchReached | scripts/installed_bulk_reassignment_smoke.py:1310-1368 | the reached workspace has a batch of new admissible transitions |
| Counterexamples.RelayedByAnother | src/aigineering/runtime_services.py:39-50 | another client relays the log after the commitment and the link goes down: pending, though the feed has the fact |
| Counterexamples.ContendedPending | src/aigineering/redis_collaboration.py:424-454 | with every link open, others write in the middle of each attempt: pending, though the feed has the fact |
| Counterexamples.NothingEndedReached | src/aigineering/redis_collaboration.py:424-454 | the reached workspace has what that asks for |
| JsonProofs.ValueRoundTrip | conformance/README.md:7-27 | compact JSON text, plain or ASCII-only, reads back as its value with the rest untouched (RFC 8259 sections 4, 6 and 7) |
| JsonProofs.CanonicalRoundTrip | src/aigineering/protocol/identity.py:52-60 | canonical text decodes to the value it came from, up to field order |
| JsonProofs.CanonicalText | scripts/installed_reassignment_request_smoke.py:171-174 | two values have one canonical text exactly when they are the same value, insertion order of fields aside; the ASCII-only form agrees |
| CanonicalOrder.KeysInOrder | src/aigineering/protocol/identity.py:52-60 | read back from either form, the keys of every object at any depth ascend by code point, a prefix first |
| CanonicalOrder.ItemAdded | src/aigineering/protocol/identity.py:52-60 | a list is its items' texts with commas between them, in brackets |
| CanonicalOrder.FieldAdded | src/aigineering/protocol/identity.py:52-60 | an object is its fields' texts, key, colon and value, with commas between them, in braces, a later key after the others |
| CanonicalOrder.NumberTexts | conformance/README.md:18-27 | integers are written in decimal, negative ones after a minus sign |
| CanonicalOrder.TextKept | conformance/README.md:18-27 | characters that need no escape stay as they are |
| CanonicalOrder.UnitSpells | conformance/README.md:18-27 | an escaped code is spelled in four lower-case hexadecimal digits (RFC 8259 section 7) |
| CanonicalOrder.OneLine | src/aigineering/protocol/identity.py:52-60 | canonical text has no control characters, and the ASCII form is printable ASCII |
| TargetKeys.TupleTexts | src/aigineering/cli/_task_batch.py:53-57 | tuples of any lengths have one canonical text only if they are one tuple, so four- and five-part keys never meet |
| TargetKeys.KeysApart | scripts/installed_reassignment_request_smoke.py:314-327 | equal target keys come from equal action and parts, or from two different texts of one digest |
| TargetKeys.KeysSpelled | src/aigineering/cli/_task_batch.py:53-57 | a target key is the version, the action and the digest of exactly the version, action, base, contract and, for reassignments, predecessor |
| RequestFiles.ValidSame | src/aigineering/task_assignment_requests.py:127-182 | validity, bounds included, identity and path of a request do not depend on insertion order |
| RequestShape.PreparedExactly | src/aigineering/task_assignment_requests.py:185-254 | a prepared request is valid exactly for 1 to 64 different targets, an absolute store path, texts that are not all white space within 4096 or 65536 UTF-8 bytes, and a digest of 64 lower-case hexadecimal digits |
| RequestShape.PreparedMembers | src/aigineering/task_assignment_requests.py:185-254 | its eleven members by name, the id being the digest of the other ten |
| RequestShape.ValidPrepared | src/aigineering/task_assignment_requests.py:127-182 | every valid dictionary is a prepared request, insertion order aside: no other dictionary is accepted |
| RequestShape.SizeExactly | src/aigineering/task_assignment_requests.py:55-72 | the size of a text is the number of its UTF-8 bytes |
| RequestFiles.RequestDirectory.Save | src/aigineering/task_assignment_requests.py:371-447 | saving never changes an existing file, succeeds exactly for a valid request of this store that is not too large and whose name is free or holds the same bytes, and then holds its canonical bytes |
| RequestFiles.RequestDirectory.Load | src/aigineering/task_assignment_requests.py:450-465 | loading succeeds exactly for a canonical, valid file of this name and store, within its bounds |
| RequestShape.ReadExactly | src/aigineering/task_assignment_requests.py:307-368 | what a file must be to be read as the request of a name, and which failure is found first |
| RequestFiles.SavedReads | src/aigineering/task_assignment_requests.py:307-368 | what was saved reads back as the same dictionary |
| RequestFiles.TamperEvident | scripts/installed_reassignment_request_smoke.py:306-311 | two different texts that both read as one request id exhibit two bodies of one digest |
| SavedRequests.RenderedValid | src/aigineering/task_assignment_requests.py:185-254 | the dictionary prepared from a frozen request is valid exactly when its arguments, names and place are within their bounds and the digest is one |
| SavedRequests.RenderedReads | src/aigineering/cli/task_assignment.py:434-448 | what resuming takes out of that dictionary is the frozen request |
| SavedRequests.PrepareThenLoad | src/aigineering/cli/task_assignment.py:368-448 | preparing, saving, any further saves and loading give the frozen request, exactly when it could be prepared and saved |
| Resumption.ResumedByCommand | src/aigineering/cli/task_assignment.py:434-448 | over any links each row of a resume command tells the report of resuming in the ledger, or was not attempted |
| Resumption.ResumedThroughOutage | scripts/installed_reassignment_request_smoke.py:1425-1467 | a request resumed in an outage and again over a restored link ends as resumed once undisturbed, every target finished with the report it would have had |
| Resumption.PrepareThenResume | src/aigineering/cli/task_assignment.py:368-448 | prepared, saved, and resumed by command on the store and feed of any later time: the command on the frozen transitions, and its rows |
| Fingerprint.TableForms | scripts/installed_assignment_priority_pending_smoke.py:60-82 | two tables have one pre-digest form exactly when they have the same columns and the same multiset of normalized rows |
| Fingerprint.RowsAnywhere | scripts/installed_assignment_priority_pending_smoke.py:71-72 | physical row order never matters |
| FingerprintForms.FormRows | scripts/installed_assignment_priority_pending_smoke.py:60-82 | the digested text lists the normalized rows in the order of their own texts |
| FingerprintForms.BlobText | scripts/installed_assignment_priority_pending_smoke.py:71-72 | a blob is two lower-case hexadecimal digits an octet, in order |
| FingerprintForms.SnapshotRows | scripts/installed_registration_digest_smoke.py:97-106 | a snapshot is an object of the schema and the row texts in order |
| FingerprintForms.KeptInOrder | scripts/installed_registration_digest_smoke.py:85-96 | a row keeps the cells of all columns but the ignored one, in order |
| Fingerprint.DatabaseTexts | scripts/installed_assignment_priority_pending_smoke.py:60-82 | two databases have one text before the last digest exactly when they have the same tables with the same columns and normalized rows, short of two row texts of one digest |
| Fingerprint.PlainTells | scripts/installed_assignment_priority_pending_smoke.py:71-72 | normalization confuses exactly a blob with the text of its hexadecimal |
| Fingerprint.BlobUnseen | scripts/installed_registration_digest_smoke.py:92-96 | the first fingerprint misses that change, the second does not |
| Fingerprint.TableSnapshot | scripts/installed_registration_digest_smoke.py:75-106 | the nested loops over rows and columns build the snapshot text |
| Fingerprint.Snapshots | scripts/installed_registration_digest_smoke.py:75-106 | column-ignoring snapshots are equal exactly when schemas are and the tables agree on every other column |
| Fingerprint.DatabaseSnapshot | scripts/installed_registration_digest_smoke.py:75-106 | the loop over the tables builds the aggregate text |
| Fingerprint.Aggregates | scripts/installed_registration_digest_smoke.py:75-106 | aggregates are equal exactly when the databases have the same tables with the same schemas and the same rows outside the ignored column, short of two snapshots of one digest |
| Paging.AfterRest | src/aigineering/task_diagnostics.py:1188-1233 | continuing after the k-th row of a strictly ordered listing leaves exactly the later ones |
| Paging.QueryAt | src/aigineering/task_diagnostics.py:273-309 | a cursor after row k, used on any later log, yields the page that starts at row k of the first full listing |
| Paging.Follow | scripts/installed_task_diagnostics_smoke.py:448-495 | the cursor loop, with arbitrary writes between pages, collects exactly the one full listing at the first watermark and ends |
| Paging.FullOrdered | src/aigineering/task_diagnostics.py:1188-1233 | a listing that shows no key twice is strictly ordered and keeps every row |
| Paging.FollowedWhole | src/aigineering/task_attachments.py:167-241 | what the cursor loop collects is strictly ordered and holds exactly one row for each selected record of the log as the first request found it |
| Listings.PageExactly | src/aigineering/task_diagnostics.py:1188-1233 | with the listing put in order by revision and record as each command has it, the cursor after row k yields the next rows up to the limit, and a further cursor exactly when rows are left |
| Listings.CursorRefused | src/aigineering/task_diagnostics.py:273-309 | a cursor is refused exactly when it was issued for another listing, for a log that has grown further, or at a row the listing does not show |
| Ancestry.ContractDepth | scripts/benchmark_asset_reducer.py:1805-1815 | the loop terminates, raises exactly when the ancestry is cyclic, and otherwise counts the steps to its end |
| Ancestry.DepthSteps | scripts/benchmark_asset_reducer.py:1805-1815 | a contract is one deeper than its parent, and a root or unknown contract is at depth zero |
| Patching.Namespace.Instrument | scripts/benchmark_asset_reducer.py:1388-1424 | patching in place saves what each patch found there |
| Patching.LastWrapper | scripts/benchmark_asset_reducer.py:1388-1424 | while patched, a name has the wrapper of its last patch, and any other its original |
| Patching.Restored | scripts/benchmark_asset_reducer.py:1598-1606 | restoring gives every name its original value for any patch list, repeated names included |
| Accounting.Instrument.Perform | scripts/benchmark_asset_reducer.py:1474-1560 | under any nesting, with exceptions raised anywhere and caught or not, the wrappers restore the active stage, count exactly the events that happen, each in its innermost stage, and keep every item's stages adding up to its total |
| Accounting.QueryCounts | scripts/benchmark_asset_reducer.py:1385-1405 | a query that returns adds one call and as many rows as its result is long, in the stage around it; one that raises adds nothing |
| Accounting.FetchCounts | scripts/benchmark_asset_reducer.py:1357-1371 | a fetched row counts once, and once in its class when that can be told; a decoded row counts before it can raise |
| Accounting.SumStaged | scripts/benchmark_asset_reducer.py:1357-1405 | a stage's bucket gains exactly what the events count there |
| Accounting.BucketsAddUp | scripts/benchmark_asset_reducer.py:1363-1424 | per-stage buckets keep adding up to the total for every counter |
| Accounting.Charged | scripts/benchmark_asset_reducer.py:1474-1560 | only a stage active at the start or entered on the way is charged |
| Accounting.StageBlind | scripts/benchmark_asset_reducer.py:1363-1424 | totals do not depend on the stage work begins in |
| Statistics.NearestRankInside | scripts/benchmark_asset_reducer.py:26-30 | the rank is always in range, and the result is one of the values |
| Statistics.NearestRankLeast | scripts/benchmark_asset_reducer.py:26-30 | a number is below the result exactly when fewer than 95 per cent of the values stay within it |
| Statistics.NearestRankOrder | scripts/benchmark_asset_reducer.py:26-30 | it ignores input order |
| Statistics.PercentileBounds | scripts/benchmark_planning_queries.py:711-720 | every percentile lies between those at 0 and 1, which are the least and the greatest value |
| Statistics.PercentileRises | scripts/benchmark_runtime.py:215-225 | percentiles rise with the fraction, across intervals too |
| Statistics.PercentileAt | scripts/benchmark_runtime.py:215-225 | at (k + w) / (n - 1) the percentile is w of the way from the k-th ordered value to the next |
| Statistics.PercentileOrder | scripts/benchmark_planning_queries.py:711-720 | they ignore input order |
| Statistics.HalfIsMedian | scripts/benchmark_runtime.py:215-238 | the percentile at one half is the median |

## Left out

- Sockets, threads, timeouts and subprocesses: a stream is the bytes still to come, an upstream a sequence of replies.
- Python's limit on the digits of an integer text and its recursion limit in the readers.
- Signing, NFC normalization, key provisioning, and digests themselves: identities are values or an arbitrary function.
- Bounds on the arguments of assignment commands that save no request, and the file permissions, durability and atomic linking of saved requests.
- Handoff, inherited and override assignments, claims as operations, and priority facts: the ledger knows claims, terminal facts and satisfied outputs as conditions only.
- Trace entries beyond the one record each decision logs, and records that commitment derives for assets, allowances and qualifications, which a `task.assign` Candidate never has.
- Rebuilding a damaged projection from a routed snapshot.
- The contract and worker references inside a feed event: an event is its revision and its record.
- The revision number of a batch result, human-readable output, and the exit code.
- Floating point: sums, percentiles and SQLite REAL values are left out or over the reals.
- Wall-clock timing, profiles, VM-progress counters and query plans of the benchmarks.
- Privacy-marker scans, environment scrubbing and symbolic-link checks of the smoke scripts.
- Workspace.PublishAssignment: the store connection is not reopened between the preflight and the publication, so the second preflight of the command line is the first one again.
- Workspace.Redis.Sync: one client at a time; other clients are in Contention and Sharing. Whether a failing deletion of staged keys follows an applied or a refused swap is a link that does not confirm or one that does not append.
- WorkspaceProofs.AttemptKeeps: one client at a time; beside other clients the result is Sharing.ShareKeeps.
- WorkspaceProofs.PendingAbove: one client at a time; beside other clients the result is Sharing.PendingExactly.
- LedgerRequests.Resumed: the ledger alone; synchronizations and failing links are in Resumption.ResumedByCommand.
- LedgerProvenance.FactProvenance: only direct facts; the script's branch for facts that hand an assignment off to a successor is not modelled, because the ledger has no handoff.
- LedgerProvenance.RunProvenance: only direct facts, for the same reason.
- Paging.FollowedWhole: the validation of attachment links over the whole log is not modelled.
- Paging.Follow: which records a listing shows and what it says of them is a parameter; attachment links are validated over the whole log first, which is not modelled.
- RequestFiles.RequestDirectory.Save: file system failures are not modelled, and the canonical path of the store is taken as given.
- RequestFiles.RequestDirectory.Load: file system failures are not modelled, and the canonical path of the store is taken as given.
- Oracles.AssertBatch: the revision number of the envelope is not modelled.
