# RootSign, modelled and proved

RootSign is a tamper-evident log of what an agent's tools did. Every action of a
session is a record whose hash covers its content and the hash of the record
before it. Records are sealed in the client or in the store, cross a network that
fails, wait in a spool file, are replayed, wait for a human's decision, and are
verified by two programs that must agree. This project states what each of those
parts does and proves the properties the log is for.

The source's objects are classes here, with the same fields and the same loops:
the chain state, the cloud client, the buffered client, the approvals table and the
checkpoint, the ingest handler and its cache, the sync command, the redaction
configuration. Each method is proved equal to a function of its inputs and the old
state; the properties are then proved of those functions, over every run.

| module | part of the system |
|---|---|
| `Ranges` | gap reports and the range encoder of receipts |
| `Hashing`, `Wire` | rows, the canonical form, envelopes and answers |
| `Verify`, `Verdicts` | the file verifier and the store's verifier; what their verdicts mean |
| `Chains` | sealing and adoption; what is said of parts, forgeries and unbound payloads of a chain |
| `Cloud`, `CloudClient` | the cloud transport: sealing, retries, failover to the spool, losses |
| `CloudCalls`, `CloudWrites`, `CloudSafety` | what one call promises; what one spool write does and when a call raises; safety over whole runs |
| `CloudForks`, `CloudReturns` | what follows when a client falls out of step, and when it comes back |
| `Buffered`, `BufferedOrder`, `BufferedClient` | micro-batching with re-queueing, and the order it keeps |
| `Hitl`, `HitlWrites`, `HitlForged`, `HitlCheckpoint` | approvals: two guarded writes racing with a poll loop, and the gate |
| `Idempotency`, `Ingest`, `IngestAnswers`, `Repeats`, `IngestHandlers` | the store's ingest path: what it keeps, what it accepts, its cache, and repeats of an event |
| `Spool`, `FileVerify`, `FileReports` | session files as dictionaries: written, verified, read back, and what is reported of any file |
| `Replay`, `Receipt`, `Sync`, `SyncCommand` | upload of spooled files, and its receipts |
| `Redaction` | masking of payloads |

## How the outside world is modelled

- A digest is the value it was computed from (`Hash` in `Hashing`), so equal digests
  come from equal inputs. This idealises SHA-256 (section 6.2 of FIPS 180-4); no
  axiom is used. `None` and the empty string are one canonical value for the output
  hash and the previous hash, as in rootsign/hashing.py:41-42.
- The network, the disk, other tasks' calls and cache evictions are inputs: a script
  of what each request or write meets. Every theorem holds for all scripts.
- A transaction that holds a row lock is one atomic step.
- Minted identifiers, timestamps and the clock are inputs. Regular expressions are
  arbitrary decisions on strings. Error texts are replaced by their kinds.

## What turned out false, and exactly when it holds

- **Failover inside a batch can fork the chain.** `_adopt` takes the tail
  unconditionally but the count by `max` (rootsign/chain_state.py:147-148). After a
  call, the client's tail is still the newest record if and only if the spool ended
  on the newest record of every session it wrote (`CloudSafety.StepKeeps`). With one
  envelope per call that holds if and only if whatever is handed in again is the
  newest record of its session or is not taken over by the spool (`OneEndsNewest`,
  `OneAtATimeInStep`); new actions always keep it. A batch of two, of which at the last
  attempt the second has a final answer and the first has none, breaks it
  (`CloudForks.BatchFallsOutOfStep`; `LastAnswerLeavesFirst` gives such answers for any
  number of attempts). From any call that breaks it in a session, and the next action
  there, what is held is TAMPERED if and only if that action and the newest record
  before it are both held, and then at the action's number (`OutOfStepIsTampered`);
  `BatchThenTampered` is the run of the two-action batch and one more action, TAMPERED
  at 3. A client that falls out of step and is brought back, by its newest record handed
  in again, before it seals a new action there does no harm
  (`CloudReturns.NeverTamperedLoosely`, `NewestBringsBack`).
- **A retried batch is confirmed out of order.** The buffered client sends only the
  failed envelopes of a batch again (rootsign/sdk/buffered_client.py:189-222). A flush
  gets its queue confirmed in arrival order if and only if no envelope has a final
  answer at an earlier attempt than one that arrived before it
  (`BufferedOrder.FlushInOrderIff`); single sends and batches sent once always do
  (`OrderIff`). `RetryReverses` and `SuchAFlush` are a flush that loses nothing and has
  the second envelope confirmed first, `RunReverses` a run of it. The promised order of
  a passthrough behind the actions before it (lines 129-154) holds if and only if the
  flush in front of it leaves nothing unconfirmed (`OvertakesIff`, over runs
  `InTurnIff`), retries included.
- **A late timestamp can turn a rejection into an approval for the waiter.** The poll
  takes the newest approval by timestamp (rootsign/sdk/hitl.py:189-196), while the
  module says the human who committed first wins. If an escalation carries a later
  timestamp than the rejection, the last look after a refused timeout returns as
  approved while the action's status is `human_rejected`
  (`Hitl.StampedEscalationReadsAsApproval`). With no assumption on timestamps, ties or
  parents, in every run: a poll that ends the wait and the timeout write are right, and
  the last look is right if and only if the action was approved or the approval that
  resolved it is stamped later than every other (`RepollIsRightIff`; an equal stamp
  leaves it to the database's tie-break). `HitlSafety` needs stamps that rise.
- **An approval can be ingested under the timeout type.** The schema admits it
  (rootsign/schemas/approval.py:8-12) and the status follows the decision, but the wait
  looks at the type first (rootsign/sdk/hitl.py:240-245).
  `HitlForged.ForgedApprovalTimesOut` is an approved action whose wait raises a timeout.
  With no assumption at all, in every run: the timeout write is right; a poll that ends
  the wait is right if and only if the resolving approval is not such a one; and the last
  look is right if and only if no row that can be the newest is such a one, or an
  escalation that reads otherwise than the status (`HitlForged.ReportedIff`).
- **An accepted event can be answered with a mismatch, or applied again.** The handler
  rejects another major version before looking at the cache and caches the rejection
  (rootsign/ingest/handler.py:83-96). While the accepted answer has not expired and
  fewer events than the cap were cached since, every repeat gets that answer and changes
  nothing if and only if no envelope of another major version came under its id
  (`Repeats.RepeatsKeptIff`). If one came, the next repeat is told of a mismatch until
  the mismatch's own answer expires, and then is dispatched as new
  (`RepeatAfterMismatch`). An old `emitted_at` makes it expire at once:
  every run of `Repeats.AppliedTwice` then records one action twice, and `SuchARun` is
  one in numbers.
- **A batch answered short breaks its receipt.** `failed_index` then equals the number
  of answers (rootsign/replay.py:161-171) and `build_attempt` indexes the answers with
  it (rootsign/sdk/receipt.py:281). `Receipt.AttemptMeaning` says the build fails
  exactly then; `ShortAnswerBreaksBuild` is such a replay.
- **Ingest does not check that a redacted payload hashes to its hash.** After any run,
  the store's verifier says VALID if and only if the stored payloads match, and names
  the first that does not (`Ingest.RunVerdict`); `UnboundIsTampered` is a run ingest
  accepts and the verifier calls TAMPERED.
- **`partition_is_total` counts a bucket's ranges as a set**
  (rootsign/sdk/receipt.py:183-201), so ranges that overlap inside one bucket pass:
  `Receipt.OverlapPasses` is a receipt of two records that lists the second twice. Each
  record has exactly one entry if and only if the check passes and no bucket's ranges
  overlap (`ExactlyOnceIff`); in a built attempt they never do (`BuiltPartition`).

## Model

| member | source | states |
|---|---|---|
| Ranges.EncodingUnique | rootsign/verdict.py:74-102 | a set of numbers has only one encoding as separated ascending ranges |
| Ranges.MissingRanges | rootsign/verdict.py:74-102 | the scan returns the maximal runs of 1..max that are absent, in order |
| Ranges.MissingOfSameSet | rootsign/verdict.py:82-85 | the gaps depend only on which numbers are present, not on order or repetition |
| Ranges.MissingEmptyIff | rootsign/verdict.py:74-102 | no gap is reported exactly when nothing is absent; the first gap starts at the least absent number |
| Ranges.ExplainsBreakIff | rootsign/verdict.py:105-112 | for a number present, a gap explains a break there if and only if it is above 1 and its predecessor is absent |
| Ranges.MissingCountIs | rootsign/verdict.py:139-140 | for distinct positive numbers the count of missing ones is the maximum minus how many there are |
| Ranges.CompressRanges | rootsign/sdk/receipt.py:161-180 | the ranges are the canonical encoding of the positions given, in any order and with repetition |
| Ranges.ExpandRanges | rootsign/sdk/receipt.py:183-189 | the set returned is exactly what the ranges cover |
| Ranges.ExpandAfterCompress | rootsign/sdk/receipt.py:183-189 | expanding a compressed list gives back the set of its positions |
| Ranges.CompressAfterExpand | rootsign/sdk/receipt.py:161-189 | compressing the expansion of canonical ranges gives those ranges back |
| Verify.VerifyRecords | rootsign/sdk/chain.py:187-272 | sorting, duplicate check and walk of the file verifier produce the report the verdict theorems are about |
| Verify.VerifyChain | rootsign/crud/action.py:194-277 | the store's walk, which checks duplicates with a seen-set, produces the report the verdict theorems are about |
| Verdicts.LocalMeaning | rootsign/sdk/chain.py:187-272 | with distinct numbers: TAMPERED names the least unsound record; otherwise the gaps alone decide, and the least absent number is named |
| Verdicts.KindMeaning | rootsign/sdk/chain.py:217-259 | the error of a TAMPERED report says what is wrong with the record it names: a missing field, else the self-hash, else the link to the record before it, else a payload |
| Verdicts.ValidIff | rootsign/sdk/chain.py:187-272 | VALID if and only if the records are distinct, sound and numbered 1 to their count |
| Verdicts.RepeatIsTampered | rootsign/sdk/chain.py:206-215 | a repeated number is always TAMPERED as a duplicate, with the gaps still reported |
| Verdicts.VerifiersAgree | rootsign/crud/action.py:188-277 | both verifiers give every table the same verdict and gaps, and the same report when numbers are distinct, however ties are ordered |
| Verdicts.TipCommits | rootsign/sdk/chain.py:217-259 | two VALID lists that end in the same self-hash have equal length and agree on every canonical field |
| Chains.ChainState.Seal | rootsign/chain_state.py:90-134 | minting, adoption and the two refusals; the state moves only with a seal given |
| Chains.ChainState.AdoptSeal | rootsign/chain_state.py:136-155 | adoption moves the tail always and the count only upwards, and refuses an incomplete seal |
| Chains.SealMeaning | rootsign/chain_state.py:90-155 | an action without a self-hash is sealed if and only if it carries no other part of a seal, one with a self-hash is taken over if and only if it has an id and a number; what the seal and the new tail then are |
| Chains.MintExtends | rootsign/chain_state.py:112-134 | sealing on the tail of a chain gives its next record and its new tail |
| Chains.SealRunIsChain | rootsign/chain_state.py:90-134 | sealing any run of bound payloads from a fresh state gives a chain |
| Chains.PartVerdict | rootsign/sdk/chain.py:187-272 | any part of a chain in any order is VALID exactly when it is records 1..k, else INCOMPLETE with the maximal absent runs and the least absent number |
| Chains.MissingFromPart | rootsign/verdict.py:74-102 | of a part of a chain, a number is reported missing exactly when it was sealed, lies below the largest present, and is not there |
| Chains.RewriteLocated | rootsign/sdk/chain.py:224-259 | rewriting a record under its number and self-hash is TAMPERED at that record if and only if a canonical field changed or a payload came unbound; gaps are reported all the same |
| Chains.ResealLocated | rootsign/sdk/chain.py:230-240 | re-sealing a record with other content is TAMPERED at the next number exactly when that record is there, otherwise the report does not change |
| Chains.LinkedVerdict | rootsign/crud/action.py:194-277 | linked rows verify VALID if and only if all payloads are bound; else TAMPERED at the first unbound row with nothing missing |
| Cloud.InterpretMeaning | rootsign/sdk/client.py:669-760 | an aligned response array passes through; otherwise nothing is accepted, a retry is wanted exactly after timeouts, transport failures, empty 200s, 429 and 5xx, and each code stands for its cause |
| Cloud.SendsBounded | rootsign/sdk/client.py:489-500 | within k attempts no element is sent more than k times |
| Cloud.PendingIsRetryable | rootsign/sdk/client.py:493-500 | what is pending is exactly what was answered retryably |
| Cloud.NeverResent | rootsign/sdk/client.py:474-500 | an element with a final answer keeps it and is not sent again, in any later attempt |
| CloudClient.HttpIngestClient.SealAll | rootsign/sdk/client.py:648-667 | the caller's envelopes are sealed in place and the chains advance, as the specification says |
| CloudClient.HttpIngestClient.Post | rootsign/sdk/client.py:489-500 | the retry loop with its early exit makes exactly the requests and keeps exactly the answers of the bounded loop |
| CloudClient.HttpIngestClient.Spool | rootsign/sdk/jsonl_client.py:94-120 | one write of the session-file writer: known events dropped, chain advanced even when the disk then fails |
| CloudClient.HttpIngestClient.WriteToSpool | rootsign/sdk/client.py:551-619 | the spool writes, the loss accounting and the exceptions raised, envelope by envelope |
| CloudClient.HttpIngestClient.HandleBatch | rootsign/sdk/client.py:467-512 | the whole call: result or exception, requests made, client state and envelopes left behind |
| CloudCalls.BatchSealsKept | rootsign/sdk/client.py:648-667 | a call changes nothing about an envelope except adding a seal to an unsealed action |
| CloudCalls.AlignedAndFinal | rootsign/sdk/client.py:467-512 | the answers are index-aligned, and with the spool enabled none of them asks for a retry |
| CloudCalls.SentWithinBudget | rootsign/sdk/client.py:483-500 | a call sends each element at most `max_retries` times, and none once the client spools |
| CloudCalls.TelemetryReturns | rootsign/sdk/client.py:571-619 | when losses are only warned about, a batch without control records, of new or re-sent actions, returns whatever network and disk do |
| CloudCalls.ControlFailsClosed | rootsign/sdk/client.py:240-254 | a call whose spooled part holds an approval or an action pending one that the disk does not take raises, and files and ledgers hold what was written before that record and nothing more |
| CloudWrites.RefusedWrite | rootsign/sdk/client.py:571-619 | a write the disk refuses raises the persistence error with ledgers and files unchanged if and only if the envelope is an approval or an action pending one; of anything else one loss is entered, and it is answered as dropped or raises if losses are to fail |
| CloudWrites.WriteRaises | rootsign/sdk/client.py:562-619 | for any write, when exactly it raises each of its errors |
| CloudWrites.ControlIff | rootsign/sdk/client.py:551-619 | the same for a whole call of any client, configuration and batch: the first refused write ends it in the persistence error exactly for those records, and otherwise enters one loss |
| CloudWrites.CallRaisesIff | rootsign/sdk/client.py:467-619 | a call ends in the persistence error if and only if some write it reaches is refused for such a record, and in the lost-record error if and only if losses are to fail and some write it reaches is refused for another |
| CloudWrites.HalfSealedRaises | rootsign/chain_state.py:104-110 | a batch with an action that carries part of a seal but no self-hash raises before any request or write |
| CloudWrites.TakenWrite | rootsign/sdk/jsonl_client.py:94-173 | a write the disk takes appends one line with the envelope's fields under its seal to its session's file and to no other, and the tally of losses after a closing; it is accepted and remembered, and a decision or an approval is answered with its minted id |
| CloudWrites.KnownWrite | rootsign/sdk/jsonl_client.py:100-110 | an event the writer remembers is a duplicate: no line, no chain movement |
| CloudWrites.DroppedClose | rootsign/sdk/client.py:621-646 | a closing record that is lost leaves the tally in the file, its own loss included |
| CloudWrites.AnswersMeaning | rootsign/sdk/client.py:483-512 | an element keeps the network's last answer unless that asks for a retry and there is a spool; then, and in a client that spools, it has the spool's answer |
| CloudWrites.GivesUpIff | rootsign/sdk/client.py:502-533 | a client gives up on the network if and only if it has a spool and an answer still asks for a retry after the last attempt; it keeps the first such code, and from then on sends nothing |
| CloudWrites.BudgetUsed | rootsign/sdk/client.py:489-500 | the requests of a call: at least one, at most `max_retries` or one if that is smaller, and fewer only once no answer asks for a retry |
| CloudWrites.SealsFresh | rootsign/sdk/client.py:648-667 | the actions a batch seals get ids of their own that the client never gave out before |
| CloudCalls.ResultWasAnswered | rootsign/sdk/client.py:489-500 | every result recorded was the answer to that element in some request that carried it |
| CloudCalls.AcceptedIsHeld | rootsign/sdk/client.py:467-512 | an action reported accepted is held by the server or the spool file |
| CloudCalls.HeldForever | rootsign/sdk/client.py:467-512 | and stays held through every later call |
| CloudCalls.LossesCounted | rootsign/sdk/loss_ledger.py:55-74 | the ledger grows by exactly the records answered as dropped, one reason each, and keeps the sequence numbers of the first and the last loss that has one |
| CloudSafety.SealKeeps | rootsign/sdk/client.py:648-667 | sealing a batch of new and re-sent actions extends each session's chain by the new ones and leaves every action carrying the seal of its row |
| CloudSafety.StepKeeps | rootsign/sdk/client.py:467-512 | after any call, re-sent records included, everything held is part of one chain per session, and the client is in step with it if and only if the spool ended on the newest record |
| CloudSafety.OneAtATimeInStep | rootsign/sdk/client.py:462-465 | with one envelope per call a run stays in step if and only if each record handed in again was the newest of its session or was not taken over by the spool |
| CloudSafety.RunKeeps | rootsign/sdk/client.py:467-619 | safety over every run that stays in step, under any mix of success, outage, rejection, eviction, disk failure and re-sending |
| CloudSafety.SidesAgree | rootsign/chain_state.py:136-155 | an event held by server and spool is the same record on both sides |
| CloudSafety.HeldVerdict | rootsign/sdk/chain.py:187-272 | the union of both sides never verifies TAMPERED, and the numbers reported missing are exactly those sealed that neither side holds, below the largest held |
| CloudSafety.NeverTampered | rootsign/sdk/client.py:467-619 | the same for every one-envelope-at-a-time run from a fresh client and an empty server, re-sending included as long as what is handed in again is the newest of its session or the spool does not take it over |
| CloudSafety.TailIdentifies | rootsign/chain_state.py:147-148 | a tail taken from an adopted record is the chain's tail only if that record is the newest |
| CloudForks.ForkIsTampered | rootsign/chain_state.py:147-148 | a record sealed on an older record's tail, listed with any part of the chain in any order, is TAMPERED if and only if it and the chain's newest record are both listed, and then at its number |
| CloudForks.OutOfStepIsTampered | rootsign/sdk/client.py:467-512 | from any call that leaves the client out of step in a session, with the next action handed in there: every listing of what is held is TAMPERED if and only if that action and the newest record before it are both held, and then at its number |
| CloudForks.LastAnswerLeavesFirst | rootsign/sdk/client.py:489-500 | with any number of attempts: all requests of a batch of two lost but the last, which is answered finally for the second only |
| CloudForks.BatchFallsOutOfStep | rootsign/sdk/client.py:502-511 | a batch of two new actions of a fresh client, of which at the last of any number of attempts only the second has a final answer, leaves the client out of step |
| CloudForks.BatchThenTampered | rootsign/sdk/client.py:467-512 | that batch and one more action of the session: what server and spool hold, in any order, verifies TAMPERED at 3 |
| CloudReturns.LooseStep | rootsign/sdk/client.py:467-512 | a call from a client out of step anywhere but in the sessions it seals for: what is held stays part of one chain per session, and a session is in step afterwards if and only if the spool took over its newest record last, or none and it was in step before |
| CloudReturns.NeverTamperedLoosely | rootsign/sdk/client.py:467-619 | every run from fresh, with calls of any size, that is in step in a session whenever a new action of it is sealed: what is held is never TAMPERED, with the exact missing numbers |
| CloudReturns.NewestBringsBack | rootsign/chain_state.py:136-155 | handing a session's newest record in again, if the spool takes it over, brings the session back into step |
| Buffered.UnsentIffUnanswered | rootsign/sdk/buffered_client.py:189-222 | after any number of batch requests a slot is still to be sent if and only if none of them gave it a final answer |
| Buffered.UnansweredMeans | rootsign/sdk/buffered_client.py:189-222 | unanswered after k requests means that none of them gave the slot, while it was sent, an answer that asks for no retry |
| Buffered.FailedIffUnconfirmed | rootsign/sdk/buffered_client.py:156-246 | back to the queue go exactly the envelopes the inner client neither answered finally nor returned for |
| Buffered.FlushesWhenFull | rootsign/sdk/buffered_client.py:146-151 | an action handed in below the size limit only waits; the one that reaches it flushes the queue |
| Buffered.NothingLostOrReordered | rootsign/sdk/buffered_client.py:71-246 | after every run an auto-authorized action is done with if and only if the inner client confirmed it in some flush of the run, and every other one is queued, the queue in arrival order; everything else went through |
| BufferedOrder.OrderIff | rootsign/sdk/buffered_client.py:189-246 | the slots of a flush are confirmed in ascending order if and only if no request answers a slot finally before a smaller one answered later; single sends and batches sent once always are |
| BufferedOrder.FlushInOrderIff | rootsign/sdk/buffered_client.py:156-222 | a flush takes the queue in arrival order if and only if no envelope is answered finally at an earlier attempt than one that arrived before it |
| BufferedOrder.RetryReverses | rootsign/sdk/buffered_client.py:189-222 | a flush of two over two requests that fails for neither and takes the second before the first |
| BufferedOrder.SuchAFlush | rootsign/sdk/buffered_client.py:189-222 | such a client and such answers in full |
| BufferedOrder.RunReverses | rootsign/sdk/buffered_client.py:129-222 | a run of two actions in which nothing fails and the second is taken first |
| BufferedOrder.OvertakesIff | rootsign/sdk/buffered_client.py:129-167 | a passthrough is taken after exactly those arrivals that the flush in front of it did not leave unconfirmed, so after all if and only if it left none |
| BufferedOrder.InTurnIff | rootsign/sdk/buffered_client.py:129-167 | in every run every passthrough is taken after all that arrived before it if and only if no flush in front of a passthrough leaves anything unconfirmed |
| BufferedOrder.SmoothRunInTurn | rootsign/sdk/buffered_client.py:129-167 | so in every run in which nothing fails, retries included, no passthrough precedes an earlier action |
| BufferedOrder.SmoothRunIsFifoIff | rootsign/sdk/buffered_client.py:129-222 | in every run in which nothing fails, everything is taken in exactly arrival order if and only if no flush answers an envelope before one that arrived earlier |
| BufferedOrder.SmoothRunIsFifo | rootsign/sdk/buffered_client.py:169-246 | it always is over an inner client without batches or one that owns its retries |
| Buffered.AnsweredLeavesNothing | rootsign/sdk/buffered_client.py:189-222 | a fully answered batch with nothing retryable leaves nothing to re-queue |
| Buffered.CloudFlushLeavesNothing | rootsign/sdk/buffered_client.py:189-222 | over the cloud transport with spool and warnings, flushing new or re-sent actions never re-queues |
| Buffered.StillUnsentIff | rootsign/sdk/buffered_client.py:85-95 | after one batch request a slot is sent again exactly when its answer asks for it or there was none |
| BufferedClient.BufferedIngestClient.SendBatchWithRetry | rootsign/sdk/buffered_client.py:189-222 | the loop with its early exit leaves exactly the slots still unsent after the bounded attempts, and confirms the others in the order the theorems are about |
| BufferedClient.BufferedIngestClient.SendWithRetry | rootsign/sdk/buffered_client.py:224-246 | true exactly when one of the bounded tries returned |
| BufferedClient.BufferedIngestClient.Send | rootsign/sdk/buffered_client.py:178-187 | by batch or singly as the inner client allows: the slots that failed, and the others in the order they were confirmed |
| BufferedClient.BufferedIngestClient.Flush | rootsign/sdk/buffered_client.py:156-187 | drains, sends, and puts the failed envelopes back in front of those that arrived meanwhile |
| BufferedClient.BufferedIngestClient.Handle | rootsign/sdk/buffered_client.py:129-154 | buffers an auto-authorized action, flushing when full; anything else goes through after a flush, with the inner client's answer or exception passed on |
| Hitl.TerminalForever | rootsign/crud/approval.py:119-127 | once terminal, an action's status and its approvals never change, in any interleaving |
| Hitl.InterleavingKeeps | rootsign/crud/approval.py:63-311 | every interleaving of poll loop, CLI and ingest keeps: only the last approval resolves, the status says how, parents are escalated roots of the same action |
| Hitl.HitlSafety | rootsign/sdk/hitl.py:130-254 | from submission, under rising timestamps: at most one approval is not an escalation and it is the last; the wait returns, raises rejection or raises timeout exactly as the status says |
| Hitl.ResolvedIsReported | rootsign/sdk/hitl.py:164-176 | once resolved, a waiter past its deadline reports the status without writing anything |
| Hitl.RepollIsRightIff | rootsign/sdk/hitl.py:130-254 | in every run, whatever timestamps, ties and parents: polls and the timeout write report the status, and the last look does under every tie-break if and only if the action was approved or its resolving approval is stamped later than every other |
| Hitl.StampedEscalationReadsAsApproval | rootsign/sdk/hitl.py:189-254 | a run in which a human rejected and the wait returns as approved |
| HitlWrites.IngestWrites | rootsign/crud/approval.py:63-184 | the ingest write goes through if and only if the action is there and unresolved, an escalation names no parent and a parent named is a stored escalation of the same action; it appends the request's six columns, sets that one status, and otherwise names the first guard that failed |
| HitlWrites.LinkWrites | rootsign/crud/approval.py:186-311 | the checkpoint's write goes through if and only if the action with that id and timestamp is there and unresolved; its six columns, and `timed_out` for the timeout type whatever the decision |
| HitlWrites.ChildStored | rootsign/crud/approval.py:136-184 | in every run an approval ingested under a stored escalation of its action is in the table at the end with that parent and its other columns |
| HitlWrites.ChildOfRoot | rootsign/crud/approval.py:125-184 | and in every legal run that parent is an escalated root of the same action |
| HitlWrites.PollEnds | rootsign/sdk/hitl.py:164-196 | a poll goes on without approvals or on an escalation, and otherwise ends on a newest approval: timeout type, rejection, or that approval's id |
| HitlWrites.LookEnds | rootsign/sdk/hitl.py:198-254 | the last look ends on a newest approval in the same way, or in a timeout without any |
| HitlWrites.DeadlineEnds | rootsign/sdk/hitl.py:198-230 | at the deadline a waiting action gets a timeout row without a parent and is timed out, a resolved one is looked at once more, a missing one raises |
| HitlForged.ReportedIff | rootsign/sdk/hitl.py:130-254 | in every run without any assumption: the timeout write reports the status; a poll that ends the wait does if and only if the resolving approval was not ingested under the timeout type; the last look does under every tie-break if and only if every row that can be the newest reads as the status |
| HitlForged.ForgedApprovalTimesOut | rootsign/schemas/approval.py:8-12 | a run in which ingest approves under the timeout type: the action is human_approved and the wait raises a timeout |
| HitlCheckpoint.ApprovalStore.CreateWithActionStatusUpdate | rootsign/crud/approval.py:63-184 | the ingest path's guards in order; the row inserted and the status set, or nothing changed |
| HitlCheckpoint.ApprovalStore.CreateWithChainLink | rootsign/crud/approval.py:186-311 | the checkpoint's write: looked up by id and timestamp, the timeout sentinel overriding the decision |
| HitlCheckpoint.HiTLCheckpoint.WaitForApproval | rootsign/sdk/hitl.py:130-230 | the loop, the timeout write and the last look are one of the interleavings the safety theorem covers |
| HitlCheckpoint.EmitHitlAction | rootsign/sdk/decorator.py:568-606 | without a stored pending action the tool never runs; otherwise it runs exactly when the status is human_approved |
| Idempotency.IdempotencyStore.Get | rootsign/ingest/idempotency.py:48-52 | expired entries go first, then the entry of the key or nothing |
| Idempotency.IdempotencyStore.Set | rootsign/ingest/idempotency.py:54-88 | the key is refreshed at the end with a clamped expiry and the oldest entries beyond the cap go |
| Idempotency.PutMeaning | rootsign/ingest/idempotency.py:54-88 | what a set leaves: its entry last, live until a day after the event or after now, whichever is earlier, and before it the unexpired entries of other keys |
| Idempotency.GetMeaning | rootsign/ingest/idempotency.py:48-52 | a get answers with the latest set of its key or not at all, and does answer while it is unexpired and fewer other keys than the cap were set since |
| Idempotency.SetRefines | rootsign/ingest/idempotency.py:54-81 | a set keeps the cache a refinement of the log of sets, never above the cap |
| Idempotency.RunRefines | rootsign/ingest/idempotency.py:48-88 | so does any run under a non-decreasing clock |
| IngestHandlers.IngestHandler.CreateWithHash | rootsign/crud/action.py:71-158 | the next row under the session's tail and count, with head, tail and count updated |
| IngestHandlers.IngestHandler.Handle | rootsign/ingest/handler.py:67-120 | the whole entry point on arbitrary input: answer, tables and cache |
| IngestAnswers.ActionAccepted | rootsign/ingest/handler.py:182-221 | an action is accepted if and only if its schema verdict is good, it carries neither self-hash nor action id, its number is absent or positive, and its session exists and is running; the row stored column by column and quoted by the answer, or the error named and no table changed |
| IngestAnswers.AcceptedIsLast | rootsign/crud/action.py:71-158 | after any run an accepted action's answer carries the id, the count and the self-hash of the session's last row |
| IngestAnswers.OpeningAccepted | rootsign/ingest/handler.py:155-180 | an opening is accepted if and only if its agent is registered and its session is new |
| IngestAnswers.DecisionAccepted | rootsign/ingest/handler.py:223-254 | a decision is accepted if and only if its session is running, and is counted there |
| IngestAnswers.ApprovalAccepted | rootsign/ingest/handler.py:256-276 | an approval is accepted if and only if its session is running, holds the action unresolved, and the parent rules hold; its row and the action's status, or the error named |
| IngestAnswers.ClosingAccepted | rootsign/ingest/handler.py:278-307 | a closing is accepted if and only if its status is a closed one and its session is running, and changes only the status |
| IngestAnswers.NotUnderstood | rootsign/ingest/handler.py:67-96 | what is no envelope, or one of another major version, is refused whatever is cached |
| IngestAnswers.Logged | rootsign/ingest/handler.py:98-120 | exactly the final answers are remembered, until a day after the event or after now, whichever is earlier; a cached event changes nothing |
| Ingest.RunVerdict | rootsign/crud/action.py:71-277 | after any run on arbitrary input every session's rows are 1..count, head and tail match, nothing is missing, and VALID holds if and only if payloads are bound, else TAMPERED at the first that is not |
| Ingest.UnboundIsTampered | rootsign/ingest/handler.py:182-221 | a run that stores an action whose payload does not match its hash, and verifies TAMPERED at it |
| Ingest.BoundRunIsValid | rootsign/ingest/handler.py:67-221 | with bound payloads every session verifies VALID after every run |
| Ingest.SessionsOnlyGrow | rootsign/ingest/handler.py:278-315 | over any run a closed session is final and an open one's canonical rows are only appended to |
| Ingest.OnlyActionsAreVerified | rootsign/ingest/handler.py:223-303 | events other than action records, approvals included, change no verification report |
| Ingest.RunKeepsIds | rootsign/models/action.py:33 | as long as no action id is minted twice, no run puts an id twice into a session |
| Ingest.ResolvedStays | rootsign/crud/approval.py:119-127 | from any point of a run to its end a resolved action is the same row, and an action whose status changed was named by an approval that arrived in between, with the decision its status stands for |
| Repeats.RepeatIsAnswered | rootsign/ingest/handler.py:98-105 | while an event's answer is cached, a repeat gets that answer and changes nothing |
| Repeats.OwnAnswerIff | rootsign/ingest/handler.py:83-120 | while an accepted answer lives, it is the latest one cached for its event if and only if no envelope of another major version came under that id |
| Repeats.RepeatsKeptIff | rootsign/ingest/handler.py:83-120 | while an accepted event's answer has not expired or been crowded out, every repeat since got it and changed nothing if and only if no envelope of another major version came under that id |
| Repeats.AppliedTwiceOnlyIf | rootsign/ingest/handler.py:83-120 | an event is applied a second time only after its first answer expired, or as many other events as the cap were cached since, or an envelope of another major version came under its id |
| Repeats.RepeatAfterMismatch | rootsign/ingest/handler.py:83-105 | the first repeat after a mismatch is told of it while the mismatch's answer lasts and is dispatched as new once it expired; it is rejected unless it changes the store |
| Repeats.AppliedTwice | rootsign/ingest/handler.py:83-120 | an action whose id came in between with another version and an emission time older than an answer's lifetime is recorded twice, its first answer neither expired nor crowded out |
| Repeats.SuchARun | rootsign/ingest/handler.py:83-105 | such a run in numbers |
| Spool.ReadSpoolSession | rootsign/sdk/spool.py:154-215 | the reader: blank lines, malformed and truncated lines, annotations, order check, rebuilt envelopes, and the session's name from the first event or the file's stem |
| Spool.ReadsIff | rootsign/sdk/spool.py:163-208 | reading succeeds if and only if every line is readable and action numbers ascend; it gives the rebuilt envelopes in order, counts annotations and takes the session of the first event |
| Spool.ReadFails | rootsign/sdk/spool.py:163-203 | a refused file is refused at the first line after which it is not readable and in order, with the error that names that line |
| Spool.OrderMeans | rootsign/sdk/spool.py:192-203 | the order asked for: every numbered action's number is below that of each one after it |
| Spool.NonActionLine | rootsign/sdk/jsonl_client.py:175-198 | the line of any other event is its envelope, with the minted id of a decision or an approval |
| Spool.ShellSays | rootsign/sdk/spool.py:248-260 | an envelope read back has the record's envelope fields and no others, and default versions if it names none |
| Spool.FirstSessionIsFirst | rootsign/sdk/spool.py:191-212 | the session taken is that of the first event line, and there is none only without one |
| Spool.ActionRoundTrip | rootsign/sdk/jsonl_client.py:122-173 | a sealed action written and read back is the same envelope up to explicit nulls and the default status, seal included |
| Spool.NonActionRoundTrip | rootsign/sdk/spool.py:236-260 | any other envelope comes back exactly, without the id the writer added |
| Spool.SpoolRoundTrip | rootsign/sdk/spool.py:154-260 | whatever was written reads back if and only if the numbers ascend, then in order with exactly the annotations skipped |
| FileVerify.VerifySessionLocal | rootsign/sdk/chain.py:145-272 | the verifier on a whole file: empty, malformed or truncated files, other event types, and the walk |
| FileReports.UnreadableIff | rootsign/sdk/chain.py:153-174 | a file is unreadable with a parse failure if and only if some line does not parse; then TAMPERED, with the count of the written lines before the first such one, and truncated if and only if only blank lines follow it |
| FileReports.EmptyIff | rootsign/sdk/chain.py:145-151 | a file has no records if and only if every line is blank |
| FileReports.CheckedFile | rootsign/sdk/chain.py:176-193 | any other file is checked on exactly the records whose event type is absent or an action's, in file order; one of them without a number is an exception |
| FileReports.LineSays | rootsign/sdk/chain.py:217-259 | the row verified is the record's fields, absent hashes and payloads as none |
| FileVerify.SealedRowSurvives | rootsign/sdk/spool.py:218-233 | the line written for a sealed action verifies as the row sealed, and the envelope read back carries that same row |
| FileVerify.HoldsAction | rootsign/sdk/jsonl_client.py:135-166 | appending the line of a sealed action appends exactly its row to what the file verifier sees |
| FileVerify.HeldFileVerdict | rootsign/sdk/chain.py:176-272 | a file that holds part of a chain, whatever stands beside the actions, is never TAMPERED, and VALID exactly for records 1 to their count |
| FileVerify.WrittenHolds | rootsign/sdk/jsonl_client.py:94-173 | a file written with sealed actions, other events and annotations holds exactly the rows sealed, in order |
| FileVerify.WrittenFileVerdict | rootsign/sdk/chain.py:145-272 | such a file, if its actions are distinct records of one chain, is never TAMPERED, VALID exactly for records 1 to their count, and VALID for the whole chain |
| FileVerify.SealedFileIsValid | rootsign/sdk/spool.py:154-215 | a run of bound payloads sealed from fresh and written verifies VALID on disk and reads back as the envelopes written |
| Replay.ReplayEnvelopes | rootsign/replay.py:93-173 | the batch loop and the answer loop: report and envelopes sent |
| Replay.ReportMeaning | rootsign/replay.py:93-173 | tallies are those of the answers, the halt is the first refusal or the first unanswered envelope, and complete means all taken |
| Replay.ReportSays | rootsign/replay.py:115-173 | acceptances and duplicates counted by the answers' own fields; the halt is at the first answer that is neither, and quotes it, or at the first envelope without one |
| Replay.ShortSays | rootsign/replay.py:161-171 | a short halt says how many of the last batch were answered and how many it sent |
| Replay.InOrderReplay | rootsign/replay.py:115-173 | for a store that answers in order, the halt and its cause are those of the first refusal, and nothing is sent past its batch |
| Replay.BatchingRefinesSingle | rootsign/replay.py:146-159 | the halt does not depend on the batch size, and one-at-a-time answers are a prefix of batched ones |
| Receipt.BuildAttempt | rootsign/sdk/receipt.py:221-322 | buckets, disposition and trouble of an attempt, or the index error |
| Receipt.PartitionMeaning | rootsign/sdk/receipt.py:192-207 | the check passes if and only if each position of the file lies in exactly one bucket and nothing else lies in any |
| Receipt.ExactlyOnceIff | rootsign/sdk/receipt.py:192-207 | each position has exactly one entry if and only if the check passes and no bucket's ranges overlap |
| Receipt.OverlapPasses | rootsign/sdk/receipt.py:183-207 | a receipt of two records that lists the second one twice passes the check |
| Receipt.BuiltPartition | rootsign/sdk/receipt.py:240-310 | a built attempt partitions the file, with exactly one entry for each record, if and only if there were no more answers than records |
| Receipt.AttemptMeaning | rootsign/sdk/receipt.py:248-289 | building fails exactly on a short answer; rejections quote their answers; `fully_accepted` means a complete replay with every record taken, `transport_failed` an exception or a retryable first refusal |
| Receipt.HaltAndTrouble | rootsign/sdk/receipt.py:276-322 | the sequence number at which the attempt halted, and its trouble: the exception's text, or the refusal that asks for a retry |
| Receipt.ShortAnswerBreaksBuild | rootsign/sdk/receipt.py:276-289 | a replay of two records answered with one acceptance, whose receipt cannot be built |
| Sync.SyncSafety | rootsign/cli.py:420-495 | over any number of attempts: no event stored twice, each attempt a partition, a position accepted in at most one attempt, and retired exactly when the latest attempt is `fully_accepted`, with every envelope held |
| Sync.RaisedAttempt | rootsign/cli.py:420-495 | an attempt cut off by an exception is received with its text as a transport failure, every record not attempted, and keeps the file |
| Sync.BatchesOfHundred | rootsign/replay.py:115-135 | until a refusal the file goes up in batches of a hundred |
| Sync.ReceiptsAppendOnly | rootsign/sdk/receipt.py:359-392 | earlier attempts of a receipt are never rewritten |
| Sync.UploadIsReplay | rootsign/replay.py:115-173 | uploading batch by batch to a store that changes on the way is the replay of the answers it gave |
| Sync.OutlastedOutagesRetire | rootsign/cli.py:467-475 | an attempt in which the store refuses nothing and some request of every batch gets through and is answered retires the file, whatever was lost before and whatever earlier attempts left behind |
| SyncCommand.DeliverBatch | rootsign/sdk/client.py:489-500 | one batch against a deduplicating store, all pending elements resent together: what it holds afterwards and the answers kept |
| SyncCommand.SpoolFile.SyncOne | rootsign/cli.py:420-495 | one run of the command: store, receipt, retired or kept, and the exit value |
| Redaction.RedactionConfig.Init | rootsign/sdk/redaction.py:65-102 | the two rule tables, or the error on an unknown mode |
| Redaction.RedactionConfig.Redact | rootsign/sdk/redaction.py:111-185 | the recursive walk on the object is the walk the theorems are about |
| Redaction.RedactPointwise | rootsign/sdk/redaction.py:124-185 | at every place within the bound keys and lengths stay, a string is masked exactly when its rule accepts it, another scalar exactly when its rule accepts its form or it has none, and nulls stay; at the bound stands the placeholder, below it nothing |
| Redaction.MaskedIff | rootsign/sdk/redaction.py:93-185 | the same from the configured definitions and the dotted keys on the way: which strings and which numbers of any dictionary are masked, within five levels |
| Redaction.OnlyDictionaries | rootsign/sdk/redaction.py:111-122 | what is no dictionary is returned as it is |
| Redaction.RedactIdempotent | rootsign/sdk/redaction.py:111-122 | redacting twice is redacting once |
| Redaction.NothingLeft | rootsign/sdk/redaction.py:111-185 | in a redacted dictionary no string that its rule accepts is left but the placeholder, no other scalar under a rule that is accepted or has no form, and only placeholders stand at the bound |
| Redaction.LeafMeans | rootsign/sdk/redaction.py:146-148 | the leaf of a path is the whole of a name without dots and otherwise what follows its last dot |
| Redaction.RuleForField | rootsign/sdk/redaction.py:93-149 | which rule applies to a field of any name: its full path's in path mode, else a dotted rule of its path, else the bare rule of its name or of what follows the last dot of its name |

## Left out

- HTTP, SQL, fsync, JSON text, asyncio scheduling, backoff delays and `Retry-After`: each is a step with a success or failure choice.
- SHA-256 collisions, timestamp formatting and UUID text forms: identifiers and digests are values.
- Database errors inside the ingest handler (constraint violations, lost connections) and unknown decision or status strings, which raise outside the handled errors.
- Schema checks of payload fields the model does not read: their verdict is an input of the handler, as is the refusal of a malformed envelope.
- Schema major versions written with leading zeros, which the handler compares as text.
- The same dictionary twice in one batch of the cloud client: sealing it once would seal both, while the model's envelopes are values.
- Concurrent `handle_batch` calls on one session; concurrent flushes of one buffered client (one flush at a time is modelled, and what is handed in during it is bufferable).
- The buffered client's status word for queued actions, its shutdown path and its timer.
- CloudSafety.NeverTampered: assumes new actions with bound payloads under fresh event ids, as the decorator emits them, or records handed in again under their seals, the newest of their session unless the spool does not take them over, and one envelope per call. `CloudReturns.NeverTamperedLoosely` covers calls of any size and any such record handed in again, as long as new actions are sealed in step; actions sealed elsewhere, or partly, are not covered.
- Hitl.HitlSafety: assumes timestamps that rise in commit order, timeout rows written only by the checkpoint's own path, and parents only from ingest; `RepollIsRightIff` keeps only the second of these, and `HitlForged.ReportedIff` none.
- FileVerify.WrittenFileVerdict: annotations are taken to name an event type of their own, as the writer's loss notes do; the verifier counts a record without one as an action of an old export.
- Sync.SyncSafety: assumes a store that reports a duplicate only for an event it holds.
- A synced file moved or restored by hand, name collisions in `synced/`, unreadable receipts set aside, and the printed receipt digest.
- Replay's progress callback and clients without a batch call, which `_send` turns into single calls with the same answers.
- Records without a usable sequence number or with fields of another JSON type; the file verifier's exception for a missing number is the outcome `Raised`.
- Decision capture, agent registration, the action-count warning at session close, framework adapters, reports and bundles: single-branch behaviour outside the chain.
- Redaction of tuples and other containers that are neither dictionaries nor lists, which the source treats as scalars with a string form, as the model's opaque scalars.
