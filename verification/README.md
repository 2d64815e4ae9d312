# Verification of the campaign ledger, the chat protocol and their neighbours

This project models the parts of the repository that keep state over many steps and proves what
they promise over every run. Each module stands for one source component:

- **Campaign ledger** (`CampaignLedger`, `CampaignSteps`, `CampaignRuns`, `CampaignTheorems`,
  `CampaignReach`, `CampaignAnswers`, `CampaignRefusals`, `CampaignRecovery`): the provider-attempt ledger of the voice campaign, with its hash-chained epochs, its append-only
  attempts, the two guarded operations that write it, crashes between and before their file
  operations, and the one-shot reservations. All profiles (the default one and the M1 protocol,
  recovery, cancel-only and cancel-retry ones) are instances of one model, and runs may mix them.
- **ACK transition** (`AckTransition`, `AckTheorems`): the check of what one administrator ACK test may change.
- **Dependency cycles** (`DependencyCycles`): the depth-first cycle finder of the documentation check.
- **Document splitting** (`PythonText`, `SentencePacking`, `LongLines`, `LongLinesTheorems`,
  `LongLinesOutput`, `DocsMigration`, `DocsFences`, `DocsLinks`): the long-line splitter and the agreement between the migration, which splits
  whole bodies, and the verifier, which splits single sections.
- **Generations** (`GenerationFutures`, `GenerationTheorems`): waiting for a chat answer under any
  interleaving of sends, bundles, timeouts and key expiry.
- **Open window** (`OpenWindow`, `OpenWindowTheorems`): admission of sends and resends, packs,
  delivery and failure marks of one user's timeline.
- **Debounce** (`Debounce`): the trailing-edge debounce over several processes.
- **SSE stream** (`SseStream`, `SseTheorems`): the events of an answer, their printing, and the incremental client.
- **Configuration** (`AdminConfig`, `AdminConfigTheorems`): versions, pruning and the cached read.
- **Embeddings** (`EmbeddingBatch`, `EmbeddingTheorems`, `EmbeddingCaching`): the cached, batched lookup.
- **Delayed jobs** (`AwareQueue`, `CommentReplies`): the two claim-and-commit consumers.

Where the source updates an object step by step the model is a class whose methods are proved equal
to a function of the old state, and that function is what the run theorems are about. What such a
function answers is said once more without it, on the inputs and the resulting state, with the
tables and constants spelled out. Concurrent
protocols are state machines whose steps are the source's atomic actions (one transaction, one Redis
command, one stretch without an await). Hashing is a parameter: `HexDigest` says only that a digest
looks like one, and what would follow from the absence of collisions is concluded up to a collision
among the epochs in question. The same holds for the embedding cache, whose keys are short digests
of arbitrary texts: its theorems are about the texts in use, and conclude the map up to two of them
that share a key. JSON coding, API answers, clocks, file contents and fresh ids are
parameters too; of JSON only the events at hand are asked to be printed on one line and read back,
and `SseStream.CodecExists` shows that every sequence of events has such a coding.

## Where the code does less than it says

The model follows the code. In these places a promise fails; each has a witness, and where the
promise has an exact condition that is proved as well.

- **Late registration.** A send discards a result that arrived before it registered its future, so a
  generation resolved in that gap times out although nothing superseded it
  (`EarlyResolveIsDropped`, `ResolveCountsExactlyAfterRegistration`).
- **Overlapping sends.** Two sends of a user that both read the old generation leave the first new
  one superseded but never called obsolete (`OverlappingSendsForgetTheFirst`,
  `ForgottenIsNeverObsolete`). A waiter can still be told exactly while somebody holds its
  generation, as the user's current one or as one read by a send that has yet to retire it
  (`WaiterCanBeToldExactlyWhen`; for every stage of a send without an answer
  `GenerationCanBeToldExactlyWhen`). The expiry of a user's key has the same effect on a generation
  that no send has read (`ExpiryForgetsExactlyWhen`).
- **Overfilled window.** The quota check of a send and its row are separate steps. With k sends
  between the two the window reaches 4 + k pending rows, and no more (`PendingWindowIsBounded`,
  `OverlappingSendsOverfill`); with sends one after the other it holds at most five.
- **Lock-out.** A full window with a blocked reply and no failed one admits no send, no resend and
  no recovery, for ever; five sends and one blocked reply reach it (`LockedOutExactlyWhen`,
  `LockedOutForEver`, `LockOutIsReachable`).
- **Overflow.** Rows that are flagged as skipped are said to stay in the open window; a successful
  round closes the window, so they are never answered (`OverflowIsNeverAnswered`).
- **Crossed schedules.** Two schedules of one process that start their tasks in the opposite order of
  their tokens run neither body (`CrossedSchedulesStartNothing`), and a running body is cancelled by
  its process's next schedule (`NextTaskInterruptsTheBody`).
- **Open fences.** The documentation check relies on splitting a section alone as it is split inside
  the body; behind a given beginning that holds for every section exactly when the beginning leaves
  the code fences closed (`DistributesExactlyWhenBalanced`, `FoundExactlyWhenClosed`,
  `UnbalancedSectionBreaksTheCheck`).
- **Blank bullets.** The splitter raises an index error exactly on an over-long bullet without text
  (`OptimizeFailsExactlyWhen`).
- **Short answers.** The index sort of an embedding answer does not help when an entry is missing:
  vectors move to other texts and are cached there (`ShortAnswerShifts`,
  `BatchIsTheMapExactlyWhen`).
- **Abandoned notices.** A notice whose worker crashed after claiming it can never be sent again,
  since only failed ones may be retried (`UnsentCanBeSentExactlyWhen`).
- **Careless administration.** Regenerating a comment reply or writing it by hand is said not to
  conflict with the poller. Regenerating is safe exactly when no worker holds the row. An edit reads
  the row, and its commit writes only the columns it changed: it is safe exactly when it changes
  nothing, or only the reply and the row is ready at the commit, or both and no worker holds the row
  (`AdminStepIsSafeExactlyWhen`). So an edit of a ready row that is regenerated in between leaves a
  pending row with a reply although no worker was at work (`StaleEditLeavesAReply`). A guard on the
  row, that it is not generating and as it was read, would make both safe (`GuardMakesItSafe`); for a
  generating row the table alone does not tell (`TheTableDoesNotTell`).

## Model

| member | source | states |
|---|---|---|
| `CampaignLedger.ValidateEpochs` | `scripts/realtime_voice_m1_campaign_runner.py:1179-1207` | the one-pass reading with a running previous hash accepts exactly the epochs that are each well formed, correctly numbered and named, and chained to the digest before them |
| `CampaignLedger.ValidateAttempts` | `scripts/realtime_voice_m1_campaign_runner.py:1208-1243` | the one-pass reading with seen ids, sealed epochs and the last epoch accepts exactly the attempts that each fit all earlier ones |
| `CampaignLedger.SummaryDecides` | `scripts/realtime_voice_m1_campaign_runner.py:1215-1239` | the three remembered summaries decide whether an attempt has a fresh id, an epoch that does not go back and no earlier ack in its epoch |
| `CampaignLedger.Validate` | `scripts/realtime_voice_m1_campaign_runner.py:1162-1244` | validation accepts exactly the valid ledgers |
| `CampaignSteps.CampaignDirectory.Reserve` | `scripts/realtime_voice_m1_campaign_runner.py:1340-1452` | the imperative reserve, with its crash points, is the reserve step on ledger file and reservations, and returns its receipt or refusal; `CampaignAnswers.SuccessfulReserve` and `ReserveSucceedsExactlyWhen` say what that step writes, answers and admits |
| `CampaignSteps.CampaignDirectory.OpenForReserve` | `scripts/realtime_voice_m1_campaign_runner.py:1352-1422` | guards of a reserve in order, and the ledger it starts from: the one on disk or a first one |
| `CampaignSteps.CampaignDirectory.OpenForAdvance` | `scripts/realtime_voice_m1_campaign_runner.py:1470-1554` | guards of an advance in order, with the profile's recovery evidence or the approval binding |
| `CampaignSteps.CampaignDirectory.Register` | `scripts/realtime_voice_m1_campaign_runner.py:1555-1579` | the new epoch, the active number and the budget after an advance |
| `CampaignSteps.CampaignDirectory.Advance` | `scripts/realtime_voice_m1_campaign_runner.py:1455-1594` | the imperative advance, with its crash point, is the advance step, and returns its receipt or refusal; `CampaignAnswers.SuccessfulAdvance` and `AdvanceSucceedsExactlyWhen` say what that step writes, answers and admits |
| `CampaignSteps.OpenLeavesABatch` | `scripts/realtime_voice_m1_campaign_runner.py:1537-1561` | an advance that passes its guards has a valid ledger and a batch name left |
| `CampaignRuns.GuardedAdvanceIsValid` | `scripts/realtime_voice_m1_campaign_runner.py:1537-1585` | once the guards of an advance pass, the ledger it would write is valid, also where the budget drops from 18 to 16 |
| `CampaignRuns.GuardedReserveFailsExactlyWhen` | `scripts/realtime_voice_m1_campaign_runner.py:1410-1435` | a guarded reserve with a well-formed id fails validation exactly on a used id or a sealed epoch |
| `CampaignRuns.OtherFamilyIsRefused` | `scripts/realtime_voice_m1_campaign_runner.py:1162-1178` | a call under a profile of the other family changes nothing |
| `CampaignRuns.LinkNeverCollides` | `scripts/realtime_voice_m1_campaign_runner.py:1286-1337` | in a state that a run reaches, publishing a reservation never meets an existing file |
| `CampaignRuns.RunKeepsInvariant` | `scripts/realtime_voice_m1_campaign_runner.py:1340-1594` | after any calls, refused ones and crashes included, the ledger is valid for its family, epochs progress, the ten-minute rule holds and every reservation is backed by an attempt |
| `CampaignRuns.NoRunFailsLate` | `scripts/realtime_voice_m1_campaign_runner.py:1433-1442` | in no run does an advance fail validation after its guards or a reservation link collide |
| `CampaignRuns.HistoryOnlyGrows` | `scripts/realtime_voice_m1_campaign_runner.py:1555-1579` | epochs, attempts and reservations of any moment of a run are unchanged prefixes of every later one, and a lost reservation is never published afterwards |
| `CampaignTheorems.RunBudgets` | `scripts/realtime_voice_m1_campaign_runner.py:1208-1243` | on every run at most 18 attempts (6 in the M1 family), an ack is the only one and the last attempt of its epoch, and in epoch six `s06_start_session` is attempt 16 if it was used |
| `CampaignTheorems.LastDigestDeterminesHistory` | `scripts/realtime_voice_m1_campaign_runner.py:1134-1159` | two valid ledgers with the same last epoch digest have the same epoch history, or two different epochs of theirs have one digest; whatever their profiles and with no assumption on the hash |
| `CampaignTheorems.RunsWithOneDigestAgree` | `scripts/realtime_voice_m1_campaign_runner.py:1134-1159` | two runs of whatever calls that end with the same last epoch digest went through the same epochs, or exhibit such a collision |
| `CampaignTheorems.EveryEpochRegistersSomethingNew` | `scripts/realtime_voice_m1_campaign_runner.py:1537-1554` | consecutive epochs of a run differ in matrix, runtime or baseline |
| `CampaignTheorems.ReservationsMatchAttempts` | `scripts/realtime_voice_m1_campaign_runner.py:1433-1442` | after every run each reservation file names exactly one attempt with that attempt's epoch's hashes, and there are no more reservations than attempts |
| `CampaignTheorems.MatchingIsOneSlot` | `scripts/realtime_voice_m1_campaign_runner.py:1649-1658` | the search for an attempt of a kind and ordinal in the active epoch finds the attempt in that slot or nothing |
| `CampaignTheorems.LoadSucceedsExactlyWhen` | `scripts/realtime_voice_m1_campaign_runner.py:1597-1677` | after every run a load succeeds exactly when the asked attempt is in the active epoch, that epoch is the caller's and its reservation was published, and returns that attempt |
| `CampaignTheorems.LoadNeverReturnsPastEpoch` | `scripts/realtime_voice_m1_campaign_runner.py:1616-1677` | a load returns an attempt of the epoch active now, never one of an epoch advanced past |
| `CampaignTheorems.LostAttemptStaysLost` | `scripts/realtime_voice_m1_campaign_runner.py:1433-1442` | an attempt whose reservation a crash lost stays counted and can never be loaded |
| `CampaignReach.TenMinutesReachableExactlyWhen` | `scripts/realtime_voice_m1_campaign_runner.py:1455-1594` | after any run some continuation reaches the ten-minute epoch exactly when the ledger is of the default family and is there already, or has no `s06_start_session` and either fifteen attempts or fewer and a way to more: an epoch before the fifth, or the fifth without an ack; a campaign that has not started can reach it |
| `CampaignReach.OpenCampaignsEndInTenMinutes` | `scripts/realtime_voice_m1_campaign_runner.py:1555-1579` | every such campaign that is not there yet has a continuation in which an advance lowers the budget from 18 to 16 and a reserve then takes slot 16 |
| `CampaignAnswers.ReserveSucceedsExactlyWhen` | `scripts/realtime_voice_m1_campaign_runner.py:1352-1442` | in every state a run reaches, a reserve succeeds exactly when its arguments are well formed, an M1 profile's authorization names this campaign, matrix and runtime and its baseline the profile's versions, a recovery reserves only `s01_start_session` and only on a ledger, the last epoch is the caller's and not sealed, the id is new, and the budget has room |
| `CampaignAnswers.SuccessfulReserve` | `scripts/realtime_voice_m1_campaign_runner.py:1365-1449` | a reserve that succeeds has appended exactly one attempt, with the caller's id and kind, the next ordinal and the last epoch, to the ledger on disk or to a first one; it has published exactly one reservation with the caller's campaign and hashes; and its receipt names that attempt and the budget less all attempts |
| `CampaignAnswers.UnsuccessfulReserve` | `scripts/realtime_voice_m1_campaign_runner.py:1433-1442` | a refused reserve changes nothing; one stopped before the replace changes nothing; one stopped before the link has written the ledger and published nothing |
| `CampaignAnswers.AdvanceSucceedsExactlyWhen` | `scripts/realtime_voice_m1_campaign_runner.py:1470-1554` | in every state a run reaches, an advance succeeds exactly when its arguments are well formed, it brings something new to a used epoch, and the approval (default) or the authorization and recovery evidence (M1) binds this ledger, target and budget; otherwise nothing changes |
| `CampaignAnswers.SuccessfulAdvance` | `scripts/realtime_voice_m1_campaign_runner.py:1555-1591` | an advance that succeeds has appended one epoch with the next number, its batch name, the caller's hashes and baseline, the evidence file's digest and the previous epoch's; has set active number and budget and left the attempts; and its receipt names the epoch and the budget less all attempts |
| `CampaignRefusals.ReserveRefusedByTheFirst` | `scripts/realtime_voice_m1_campaign_runner.py:1352-1442` | of the seventeen checks of a reserve, each stated on the call, the ledger and the reservations, the first that fails decides the refusal |
| `CampaignRefusals.ReserveAdmittedByAll` | `scripts/realtime_voice_m1_campaign_runner.py:1352-1442` | and a reserve that passes all of them is admitted |
| `CampaignRefusals.AdvanceRefusedByTheFirst` | `scripts/realtime_voice_m1_campaign_runner.py:1467-1554` | the same for an advance: its arguments, whether there is a readable ledger, then authorization, recovery evidence or approval, epoch, attempts, amendment and binding |
| `CampaignRefusals.AdvanceAdmittedByAll` | `scripts/realtime_voice_m1_campaign_runner.py:1467-1554` | and an advance that passes all of them is admitted |
| `CampaignRefusals.LoadRefusedByTheFirst` | `scripts/realtime_voice_m1_campaign_runner.py:1606-1674` | the same for a load of a reserved attempt, which succeeds when its eight checks pass |
| `CampaignRecovery.RecoveryPossibleExactlyWhen` | `scripts/realtime_voice_m1_campaign_runner.py:1511-1536` | a recovery profile has a call that succeeds exactly when the ledger is in the epoch before its target, made by the version before, with the budget of five, some attempt and no ack; every such call names its own hashes in the authorization, and in its proof the ledger's digest, its scope, limit and target |
| `CampaignRecovery.EveryRecoveryHappens` | `scripts/realtime_voice_m1_campaign_runner.py:1511-1579` | from an empty directory a run takes the four M1 profiles one after the other to the fourth epoch and the budget of six |
| `AckTransition.AssertTransition` | `scripts/realtime_voice_m1_campaign_runner.py:2094-2188` | the check accepts exactly: an unchanged state outside ACK mode or on an error without evidence ids; otherwise one new evidence row matching the receipt, all other rows unchanged and one draft advanced by it; `AckTheorems.AckIsAcceptedExactlyWhen` says the same field by field |
| `AckTransition.CheckEvidence` | `scripts/realtime_voice_m1_campaign_runner.py:2120-2136` | accepted exactly when the evidence by id is the old one plus one row that matches the receipt |
| `AckTransition.CheckConfigs` | `scripts/realtime_voice_m1_campaign_runner.py:2138-2150` | accepted exactly when the configuration by id is the old one with one draft advanced |
| `AckTransition.CheckDraft` | `scripts/realtime_voice_m1_campaign_runner.py:2151-2188` | accepted exactly when identity and flags stay, the revision rises by one, and the content differs only in the ACK capability, which is the projection of the evidence; `AckTheorems.ProjectedExactlyWhenFits` says which that is |
| `AckTransition.BlankedEqual` | `scripts/realtime_voice_m1_campaign_runner.py:2173-2176` | comparing both contents with the ACK entry blanked is the same as differing only in that entry |
| `AckTheorems.AckIsAcceptedExactlyWhen` | `scripts/realtime_voice_m1_campaign_runner.py:2110-2188` | a passed or failed test is accepted exactly when database, active rows and cache are the same, one evidence row was added whose report, run, status, capability and source fit the receipt, and of the other rows one draft moved: identity kept, one revision on, and in its content only the ACK capability, field by field as below |
| `AckTheorems.ProjectedExactlyWhenFits` | `backend/services/realtime_voice_capability_service.py:2604-2628` | the projection is the one capability that says "verified" for a passed and "failed" for a failed test, is switched off with scope "off", carries the six dimensions, fingerprint, days, times, report and result of the evidence, and keeps every other field |
| `AckTheorems.ByIdKeepsTheLast` | `scripts/realtime_voice_m1_campaign_runner.py:2120-2121` | of the rows with one id the last one counts |
| `DependencyCycles.FindCycles` | `scripts/verify_docs_structure.py:114-134` | every reported list is a cycle along edges without interior repeat; every closed path of the graph uses the closing edge of a reported cycle; nothing is reported exactly when the graph is acyclic |
| `DependencyCycles.CycleFinder.Visit` | `scripts/verify_docs_structure.py:119-130` | a visit restores the path, only adds to what is visited and reported, and ends with the node finished or its incoming edge reported; nested visits have fewer unmet nodes |
| `DependencyCycles.CycleFinder.Report` | `scripts/verify_docs_structure.py:120-123` | the slice of the path from the node's position plus the node is a simple cycle whose last edge is the one just followed |
| `DependencyCycles.EveryClosedPathIsBroken` | `scripts/verify_docs_structure.py:114-134` | when every edge of a finished node goes to a node finished earlier or closes a reported cycle, every closed path uses a closing edge |
| `SentencePacking.PackSentences` | `scripts/migrate_docs_structure.py:192-201` | the packing loop computes the greedy packing |
| `SentencePacking.SentencesAreTheContent` | `scripts/migrate_docs_structure.py:191` | splitting after terminators loses nothing and leaves no empty sentence |
| `SentencePacking.PackIsLossless` | `scripts/migrate_docs_structure.py:192-201` | the chunks concatenate to what was packed and none is empty |
| `SentencePacking.PackFormsAllowedGroups` | `scripts/migrate_docs_structure.py:192-201` | the chunks are the texts of groups of consecutive sentences, each within the limit or a single sentence |
| `SentencePacking.PackIsMinimal` | `scripts/migrate_docs_structure.py:192-201` | no in-order grouping within the limit has fewer chunks |
| `LongLines.OptimizeLongLines` | `scripts/migrate_docs_structure.py:178-209` | the line loop with its fence flag computes the split, whose text `LongLinesOutput.OptimizeWrites` describes, or raises |
| `LongLines.SplitLongLine` | `scripts/migrate_docs_structure.py:188-208` | one long line becomes its chunks, as sub-bullets or indented paragraphs (`LongLinesOutput.SplitLineBecomes`) |
| `LongLines.BalancedDistributes` | `scripts/migrate_docs_structure.py:178-209` | behind a text that ends a line and leaves no fence open the splitter distributes over concatenation |
| `LongLinesTheorems.DistributesExactlyWhenBalanced` | `scripts/migrate_docs_structure.py:178-209` | for a text that ends a line, distributing over every continuation is equivalent to balanced fences |
| `LongLinesTheorems.ChunksKeepTheWording` | `scripts/migrate_docs_structure.py:188-201` | the chunks of a line are its text, within the limit or single sentences, and as few as possible |
| `LongLinesTheorems.OptimizeFailsExactlyWhen` | `scripts/verify_docs_structure.py:33-63` | the splitter raises exactly when an over-long line outside fences is a bullet without text |
| `LongLinesOutput.OptimizeWrites` | `scripts/migrate_docs_structure.py:178-209` | the written text is, line by line in order with newlines between, each line itself where it is in a fenced block, has at most 500 characters or is a table row, and otherwise what it becomes |
| `LongLinesOutput.SplitLineBecomes` | `scripts/migrate_docs_structure.py:188-208` | what a long line becomes: a line of one chunk itself; a bullet of n chunks n entries, the first behind "- " and the others behind "  - " at its indentation; prose one entry with its chunks as paragraphs, all but the first indented; the chunks being the line's text, cut at sentence ends |
| `LongLinesOutput.SentencesCut` | `scripts/migrate_docs_structure.py:191` | the text is cut behind every one of the two sentence marks and nowhere else |
| `LongLinesOutput.PackFills` | `scripts/migrate_docs_structure.py:192-201` | each chunk holds whole sentences, at most 360 characters of them or a single one, and the next sentence would not have fitted |
| `LongLinesOutput.SplitLinesIsTheText` | `scripts/migrate_docs_structure.py:182` | lines and line breaks in order are the text, a line contains no break, and no carriage return is parted from its newline |
| `LongLinesOutput.ShortTextStays` | `scripts/migrate_docs_structure.py:185-187` | a text without lines of more than 500 characters, whose only breaks are newlines, is not touched |
| `DocsMigration.SectionIsFound` | `scripts/verify_docs_structure.py:283-289` | if the fences are closed where a section begins, what the verifier computes for the section occurs verbatim in the file the migration writes, link rewriting and final trimming included, whatever the section and the later ones contain |
| `DocsMigration.EverySectionIsFound` | `scripts/migrate_docs_structure.py:366-387` | so every section is found when the header and all sections have balanced fences |
| `DocsFences.FoundExactlyWhenClosed` | `scripts/verify_docs_structure.py:283-289` | behind a given header and given sections, under any heading and any link rules, the check finds every section that could be written there (headed, trimmed, without a further heading line) exactly when the fences are closed |
| `DocsFences.OpenFenceHidesTheProbe` | `scripts/verify_docs_structure.py:329-331` | behind an open fence, under any heading and rules, a long enough line of two sentences is a section the check does not find |
| `DocsMigration.OptimizeKeepsEnd` | `scripts/migrate_docs_structure.py:381-387` | splitting a text that ends with a visible character and a newline keeps that end |
| `DocsFences.UnbalancedSectionBreaksTheCheck` | `scripts/migrate_docs_structure.py:475-487` | under every header with closed fences, every section that leaves one open makes the check miss a section that may follow under any heading |
| `DocsFences.OpeningCanBeWritten` | `scripts/migrate_docs_structure.py:338-351` | such a section exists under every heading: one line that opens a fence |
| `DocsLinks.LinkIsMoved` | `scripts/migrate_docs_structure.py:383-384` | every link to the two documents becomes the new one, wherever it stands, and the text on both sides is rewritten as if it stood alone |
| `DocsLinks.WrittenFileHasNoOldLink` | `scripts/migrate_docs_structure.py:382-387` | the written file of a contract body contains no old link |
| `DocsLinks.OtherTextStays` | `scripts/migrate_docs_structure.py:383-384` | a text without old links is not changed by the rules |
| `DocsLinks.ShortBodyIsWritten` | `scripts/migrate_docs_structure.py:378-387` | a body of sections without long lines and old links is written as it is |
| `GenerationFutures.FutureRegistry.Retire` | `backend/services/chat_service.py:161-168` | retiring drops the generation's entries and completes its future as obsolete only if pending |
| `GenerationFutures.FutureRegistry.GetOrCreate` | `backend/services/chat_service.py:181-193` | a stored result is consumed into a completed future, else the registered future is returned or a new one registered |
| `GenerationFutures.FutureRegistry.Resolve` | `backend/services/chat_service.py:196-203` | a pending registered future is completed, else the payload is stored |
| `GenerationFutures.FutureRegistry.Finish` | `backend/services/chat_service.py:206-216` | a wait returns what its future holds, a timeout if it was cancelled, and clears the generation |
| `GenerationFutures.StepKeepsInvariant` | `backend/services/chat_service.py:161-216` | every step of every call keeps the table consistent with the phases of all calls and every answer at hand true |
| `GenerationTheorems.EveryGenerationHasItsDesk` | `backend/services/chat_service.py:161-216` | the two dictionaries and shared futures refine one independent desk per generation: each step moves each desk as the simple form says, and retiring happens only to superseded generations |
| `GenerationTheorems.WaitEndsWithTheBox` | `backend/services/chat_service.py:206-216` | a wait can time out exactly while its box is empty and return exactly when it is full |
| `GenerationTheorems.AnswersAreTrue` | `backend/services/chat_service.py:161-216` | from the start, a waiter got a payload only if it was resolved for its generation, and obsolete only after a later generation of its user |
| `GenerationTheorems.FuturesCompleteOnce` | `backend/services/chat_service.py:196-203` | no run changes a completed or cancelled future |
| `GenerationTheorems.FirstAnswerWins` | `backend/services/chat_service.py:206-216` | the first answer a waiter is given is the one it returns |
| `GenerationTheorems.ResolveIsNeverLost` | `backend/services/chat_service.py:196-216` | a resolve of a registered or unanswered waiting generation that is not superseded cannot end in a timeout; the wait ends with that payload or a later one |
| `GenerationTheorems.ResolveCountsExactlyAfterRegistration` | `backend/services/chat_service.py:181-216` | the only resolve of a generation that is never superseded is what its wait returns if it came after the registration, and a timeout if before |
| `GenerationTheorems.EarlyResolveIsDropped` | `backend/services/chat_service.py:260-261` | a run from the start in which a resolved, never superseded generation times out |
| `GenerationTheorems.NextSendWakesTheWaiter` | `backend/services/chat_service.py:171-178` | a send that is not interleaved with another tells the waiter of the previous generation that it is obsolete |
| `GenerationTheorems.OverlappingSendsForgetTheFirst` | `backend/services/chat_service.py:171-178` | when two sends both read before either switches, the first generation is superseded and nobody will retire it |
| `GenerationTheorems.ForgottenIsNeverObsolete` | `backend/services/chat_service.py:161-178` | a generation nobody holds is never called obsolete in any continuation |
| `GenerationTheorems.WaiterCanBeToldExactlyWhen` | `backend/services/chat_service.py:161-178` | in every state a run reaches, a waiter whose future is pending has a continuation in which it is told obsolete exactly when its generation is the current one of its user or was read by a send that has not retired it |
| `GenerationTheorems.GenerationCanBeToldExactlyWhen` | `backend/services/chat_service.py:161-178` | the same for every generation without an answer: before its future is registered, registered, or awaited |
| `GenerationTheorems.ExpiryForgetsExactlyWhen` | `backend/services/chat_queue_service.py:37-39` | when a user's key expires its generation is held by nobody exactly when no send has read it and not yet retired it |
| `OpenWindow.Timeline.HasOpenBang` | `backend/services/chat_service.py:101-105` | the search over the open rows says whether some open row has failed by timeout or error |
| `OpenWindow.Timeline.CheckSendQuota` | `backend/services/chat_service.py:108-118` | a send is refused exactly when five open rows are undelivered and none has failed |
| `OpenWindow.Timeline.RecoverIfStuck` | `backend/services/chat_service.py:121-155` | a refused send starts a recovery exactly when five open rows are undelivered and every open row is delivered or pending |
| `OpenWindow.StuckInRows` | `backend/services/chat_service.py:108-126` | a full queue of only pending rows, as the protocol steps test it, is five undelivered open rows with every open row delivered or pending |
| `OpenWindow.Timeline.EnqueueSend` | `backend/services/chat_service.py:251-284` | an admitted send appends one pending row with the next number and changes nothing else |
| `OpenWindow.Timeline.CheckResend` | `backend/services/chat_service.py:287-308` | a resend is admitted exactly when some open row has failed by timeout or error and quota is left; it is refused as pointless exactly when no open row has |
| `OpenWindow.Timeline.SelectPack` | `backend/routers/chat.py:389-404` | the pack is the last ten open rows and exactly the older ones are flagged |
| `OpenWindow.SelectionByPosition` | `backend/routers/chat.py:389-401` | of the open rows the last ten are the pack, every earlier one is flagged as skipped, and no other row is changed |
| `OpenWindow.Timeline.PersistSuccess` | `backend/routers/chat.py:227-293` | in one transaction the pack is delivered and one assistant row per message is appended with consecutive numbers; without messages nothing changes |
| `OpenWindow.Timeline.MarkFailed` | `backend/routers/chat.py:296-310` | exactly the pack's rows get the status |
| `OpenWindow.AppendedUserOpens` | `backend/services/chat_service.py:88-98` | a new row joins the end of the window and changes nothing else in it |
| `OpenWindow.RepliesCloseTheWindow` | `backend/services/chat_service.py:80-98` | appended replies leave no row open |
| `OpenWindowTheorems.StepKeepsInvariant` | `backend/services/chat_service.py:88-126` | any step, with the quota check of a send and its row apart, keeps: rows numbered in order, no delivered row open, and an all-pending window together with the sends admitted to it at most four more than were ever admitted at one time |
| `OpenWindowTheorems.PendingWindowIsBounded` | `backend/services/chat_service.py:108-155` | on every run an all-pending window has at most four rows more than sends were ever admitted at one time, and recovery fires exactly on five or more rows that are all pending |
| `OpenWindowTheorems.RecoveryFiresExactlyAtFive` | `backend/services/chat_service.py:147-155` | on every run with sends one after the other, whatever bundles commit between a check and its row, recovery fires exactly when five rows are open and all are pending |
| `OpenWindowTheorems.OverlappingSendsOverfill` | `backend/services/chat_service.py:251-284` | for every k a run in which k sends pass the check before their rows are written fills the window with 4 + k pending rows |
| `OpenWindowTheorems.LeftRowsStayOut` | `backend/services/chat_service.py:88-98` | a row that has left the window never returns |
| `OpenWindowTheorems.LeftBehindStays` | `backend/routers/chat.py:245-282` | a row outside the window and every running pack keeps its status for ever |
| `OpenWindowTheorems.BundleDeliversItsPack` | `backend/routers/chat.py:389-404` | an undisturbed bundle closes the window it found and delivers exactly its last ten rows |
| `OpenWindowTheorems.AbandonedWindowIsTakenUp` | `backend/routers/chat.py:460-490` | a bundle abandoned for another run leaves the rows as they are, and that run can begin and close the window |
| `OpenWindowTheorems.OverflowIsNeverAnswered` | `backend/routers/chat.py:313-321` | rows beyond the last ten are never delivered once a bundle has answered the rest |
| `OpenWindowTheorems.LockedOutExactlyWhen` | `backend/services/chat_service.py:101-126` | no continuation changes a row or begins or ends a bundle exactly when nothing is admitted, scheduled or running and the window is full, without failed rows and not all pending |
| `OpenWindowTheorems.LockedOutForEver` | `backend/services/chat_service.py:101-155` | that state is never left |
| `OpenWindowTheorems.LockOutIsReachable` | `backend/routers/chat.py:502-511` | five sends and one blocked reply reach it from an empty timeline |
| `Debounce.TaskTable.CancelLocal` | `backend/services/chat_queue_service.py:26-29` | the process's task for the user is dropped and cancelled only if it was not done |
| `Debounce.TaskTable.StartTask` | `backend/services/chat_queue_service.py:76-78` | the previous task is cancelled before the new one takes its place |
| `Debounce.TokenKept` | `backend/services/chat_queue_service.py:58-69` | a call has the token exactly while no later schedule of the user and no expiry took it |
| `Debounce.PhaseKept` | `backend/services/chat_queue_service.py:26-29` | a live task is cancelled exactly when another task of its user starts in its process |
| `Debounce.BodyStartsExactlyWhen` | `backend/services/chat_queue_service.py:49-78` | under any interleaving a body starts exactly if nobody took the token between its write and its look, and no other task of the user started in its process before it |
| `Debounce.BurstStartsExactlyItsLast` | `backend/services/chat_queue_service.py:49-78` | after schedules that do not overlap, over any processes, the last call starts as soon as it has woken and no other call starts |
| `Debounce.NextTaskInterruptsTheBody` | `backend/services/chat_queue_service.py:26-29` | a running body is cancelled exactly when its process starts the user's next task |
| `Debounce.EndedBodyIsNotCancelled` | `backend/services/chat_queue_service.py:26-29` | a body that has ended is never cancelled |
| `Debounce.CrossedSchedulesStartNothing` | `backend/services/chat_queue_service.py:60-78` | two schedules whose tasks start in the opposite order of their tokens start no body |
| `SseStream.StreamAnswer` | `backend/routers/chat.py:648-713` | the nested yield loops print exactly the events of the payload, which `SseTheorems.ClientReceivesThePayload` spells out for every payload |
| `SseStream.YieldDeltas` | `backend/routers/chat.py:697-707` | the loop over a message prints its two-character deltas in order |
| `SseStream.AnswerSpellsItsMessages` | `backend/routers/chat.py:686-713` | an answer is one meta with the count, ordered deltas of one or two characters, and one done; the deltas of each index concatenate to that message |
| `SseStream.SseClient.Feed` | `scripts/docker_step55_step6_smoke.py:34-46` | a chunk yields the events of the lines it completes and leaves the unfinished line buffered |
| `SseStream.ChunksDoNotMatter` | `scripts/docker_step55_step6_smoke.py:34-46` | any cut of the characters into chunks yields the events of the whole text and the same rest |
| `SseStream.RoundTrip` | `scripts/docker_step55_step6_smoke.py:34-46` | when each event is printed on one line and reads back alone, reading the printed stream in any chunks gives exactly those events and an empty buffer |
| `SseStream.BrokenStreamYieldsPrefix` | `scripts/docker_step55_step6_smoke.py:34-46` | a stream that breaks off anywhere has yielded a prefix of the events |
| `SseStream.ClientRebuildsTheAnswer` | `backend/routers/chat.py:686-713` | from any chunking of a successful answer the received deltas of each index are the message in the received done event |
| `SseTheorems.ClientReceivesThePayload` | `backend/routers/chat.py:648-713` | for every payload and any chunking the client receives: for a timeout `failed` with its text; else for an obsolete one `obsolete`; else for an error `failed` with the payload's code and text or the defaults; else the number of messages, the deltas of each in order, in pairs of characters, and `done` with the payload's own messages, or its reply without any, and its emotion or the default; and nothing is left over |
| `SseTheorems.ExpectedIsUnique` | `backend/routers/chat.py:648-713` | these events are the only ones that fit the payload |
| `SseTheorems.StreamIsItsFrames` | `backend/routers/chat.py:655-713` | the stream is, for each event in order, the mark, the printed object and a blank line |
| `SseTheorems.LinesAreTheText` | `scripts/docker_step55_step6_smoke.py:34-40` | the lines the client takes off and what it keeps are the text it was given |
| `AdminConfig.ConfigKey.Publish` | `backend/services/admin_config_service.py:181-262` | publishing deactivates, inserts, drops drafts, caches and prunes, as one function of the old rows, and returns the next version |
| `AdminConfig.ConfigKey.Rollback` | `backend/services/admin_config_service.py:336-372` | a rollback publishes the value of the target row, or changes nothing without one |
| `AdminConfig.ConfigKey.SaveDraft` | `backend/services/admin_config_service.py:128-166` | a draft is updated in place or inserted |
| `AdminConfig.ConfigKey.DiscardDraft` | `backend/services/admin_config_service.py:169-177` | drafts are deleted, and the result says whether there was one |
| `AdminConfig.ConfigKey.Read` | `backend/services/admin_config_service.py:31-69` | a cached read prefers the cache and fills it; an uncached one touches neither |
| `AdminConfigTheorems.PublishAppends` | `backend/services/admin_config_service.py:195-262` | on a table that shows the last twenty of a log, publishing shows the last twenty of the extended log, without a draft |
| `AdminConfigTheorems.TargetsAreTheWindow` | `backend/services/admin_config_service.py:336-349` | a version can be rolled back to exactly when it is among the last twenty, and its row has that publication's value |
| `AdminConfigTheorems.RunsRefineTheLog` | `backend/services/admin_config_service.py:128-372` | any sequence of operations and cache expiries does on table and cache what the append-only log says |
| `AdminConfigTheorems.ReachableTables` | `backend/services/admin_config_service.py:195-262` | every reachable table is the last twenty publications with contiguous versions, only the last active, and at most one draft |
| `AdminConfigTheorems.ReadsAgree` | `backend/services/admin_config_service.py:31-69` | after every run cached and uncached reads give the last publication, and draft operations change neither |
| `AdminConfigTheorems.RollbackRepublishes` | `backend/services/admin_config_service.py:336-372` | after every run a rollback to a version of the window makes its value the active one under a new version, and any other changes nothing |
| `AdminConfigTheorems.HistoryIsTheLogBackwards` | `backend/services/admin_config_service.py:290-314` | the history ordered by version is the window of the log, newest first |
| `EmbeddingBatch.EmbeddingService.GetBatch` | `backend/services/embedding_service.py:63-120` | result and cache after a batch call, with a read failure at any position and a write failure that left any entries, as a function of the answers |
| `EmbeddingBatch.EmbeddingService.ReadCache` | `backend/services/embedding_service.py:75-89` | hits by position and the positions to compute; a read failure makes that all of them |
| `EmbeddingBatch.EmbeddingService.CallInBatches` | `backend/services/embedding_service.py:94-99` | the batch loop concatenates the sorted answers of consecutive batches of at most 25, or fails with the first failing call |
| `EmbeddingBatch.EmbeddingService.Fill` | `backend/services/embedding_service.py:101-120` | vectors are put back by position and cached under their texts |
| `EmbeddingBatch.EmbeddingService.Get` | `backend/services/embedding_service.py:30-61` | the single lookup with its failures; an empty answer is not cached |
| `EmbeddingTheorems.CompleteAnswer` | `backend/services/embedding_service.py:146-150` | sorting an answer with one entry a text by index puts every text's vector in its place |
| `EmbeddingTheorems.BatchIsTheMap` | `backend/services/embedding_service.py:63-120` | under any hits, read and write failures, if no answer is short the call returns the map of the texts, or nothing exactly when a call failed; and the cache stays correct for the texts in use, or two of these share a key |
| `EmbeddingTheorems.BatchIsTheMapExactlyWhen` | `backend/services/embedding_service.py:103-120` | with a cache correct for the texts in use, a call that returns gives the map exactly when no answer was short |
| `EmbeddingTheorems.SingleIsTheFunction` | `backend/services/embedding_service.py:30-61` | with a cache correct for the texts in use and an honest answer that is not short, whatever cache access fails, the single lookup returns the text's vector, or nothing exactly when it had to call and the call failed; and the cache stays correct for them, or two of them share a key |
| `EmbeddingTheorems.BatchIsTheSingles` | `backend/services/embedding_service.py:63-120` | when no answer is short or failed the batch returns, position by position, what the single lookups return, each with its own failures |
| `EmbeddingTheorems.CacheStaysCorrect` | `backend/services/embedding_service.py:30-120` | after any sequence of expiries and of single and batch lookups over the texts in use, with any failures but no short answer, the cache that began empty holds the right vectors for them, or two of them share a key |
| `EmbeddingTheorems.EveryRunReturnsTheMap` | `backend/services/embedding_service.py:63-120` | after any such sequence a batch returns the map of its texts, or nothing exactly when a call failed, or two texts in use share a key |
| `EmbeddingCaching.LookupCaches` | `backend/services/embedding_service.py:30-61` | after a lookup whose write succeeds the cache is the old one with the text's vector under its key, and the next lookup returns that whatever the API would answer |
| `EmbeddingCaching.BatchCaches` | `backend/services/embedding_service.py:101-120` | after a batch whose writes succeed every text has an entry, its own vector or two texts in use share a key, and no other entry is touched |
| `EmbeddingCaching.CachedBatchAsksNothing` | `backend/services/embedding_service.py:75-92` | a batch of texts with entries returns them whatever the API would answer |
| `EmbeddingTheorems.ShortAnswerShifts` | `backend/services/embedding_service.py:103-120` | with the first of two texts left out of the answer it gets, and keeps in the cache, the vector of the second |
| `AwareQueue.QueueService.Claim` | `backend/services/agent_aware_service.py:199-208` | the conditional update wins exactly on a pending row |
| `AwareQueue.QueueService.Deliver` | `backend/services/agent_aware_service.py:244-262` | message and sent row are committed together |
| `AwareQueue.QueueService.MarkFailed` | `backend/services/agent_aware_service.py:272-279` | an existing row becomes failed |
| `AwareQueue.QueueService.Retry` | `backend/routers/admin/agent_aware_mgmt.py:142-163` | only a failed row becomes pending |
| `AwareQueue.QueueService.ConsumePending` | `backend/services/agent_aware_service.py:174-195` | the polling loop consumes the ids one by one and counts the sent ones |
| `AwareQueue.PollSettlesItsRows` | `backend/services/agent_aware_service.py:174-270` | an undisturbed poll sends every row that got a text, with its own message, fails the others, and counts the texts |
| `AwareQueue.PollWritesItsMessages` | `backend/services/agent_aware_service.py:244-262` | an undisturbed poll writes one message for each text, for its row, and leaves every other as it was |
| `AwareQueue.StepKeepsInvariant` | `backend/services/agent_aware_service.py:174-279` | every step of any number of workers, crashes, retries and deletions included, keeps one worker a row, one message a row at most, and rows that tell the truth about messages |
| `AwareQueue.AtMostOneMessage` | `backend/services/agent_aware_service.py:197-279` | after any interleaving a row, even deleted, has at most one message; it is sent exactly when it has one, which it names; failed, pending and claimed rows have none |
| `AwareQueue.SentIsForEver` | `backend/services/agent_aware_service.py:244-262` | the one message of a row is never withdrawn or repeated |
| `AwareQueue.UnsentCanBeSentExactlyWhen` | `backend/services/agent_aware_service.py:199-208` | an unsent row can still be sent exactly when it is not claimed by a worker that is gone |
| `CommentReplies.ReplyService.ConsumeOne` | `backend/services/comment_reply_service.py:59-162` | the call succeeds exactly when the comment is pending and the first non-empty of three answers exists and is safe, and then the row is ready with exactly that answer; a pending comment is otherwise failed with the reply it had, and any other row stays |
| `CommentReplies.GeneratedIsTheReply` | `backend/services/comment_reply_service.py:119-152` | there is a reply exactly when some answer is not empty, safe, and behind empty ones only, and it is that answer |
| `CommentReplies.StepKeepsInvariant` | `backend/services/comment_reply_service.py:35-171` | every step, with administrators who leave held rows alone, keeps one worker a row and replies with exactly the ready rows |
| `CommentReplies.CarefulRunsKeepInvariant` | `backend/services/comment_reply_service.py:35-171` | so does every run |
| `CommentReplies.ReplyService.CommitEdit` | `backend/routers/admin/feed_comment_mgmt.py:125-148` | the commit of an edit writes status and reply each only if it differs from what was read |
| `CommentReplies.ReplyService.EditAtOnce` | `backend/routers/admin/feed_comment_mgmt.py:125-148` | an edit that nobody disturbs leaves a consistent row ready with the new reply |
| `CommentReplies.AdminStepIsSafeExactlyWhen` | `backend/routers/admin/feed_comment_mgmt.py:125-195` | after regenerating or committing an edit, every careful continuation keeps replies with ready rows exactly when no worker held the regenerated row, or the edit changes nothing, or only the reply of a row that is ready, or both columns of a row no worker holds |
| `CommentReplies.GuardMakesItSafe` | `backend/routers/admin/feed_comment_mgmt.py:125-195` | with the row not generating and, for an edit, as it was read, the action is safe |
| `CommentReplies.StaleEditLeavesAReply` | `backend/routers/admin/feed_comment_mgmt.py:125-148` | careful runs reach a world where no worker holds the row and committing an edit that was read before a regeneration leaves the row pending with a reply |
| `CommentReplies.TheTableDoesNotTell` | `backend/services/comment_reply_service.py:59-70` | two worlds that careful runs reach from the start have the same table with a generating row and the same edits, and regenerating or committing the edit is safe in one and unsafe in the other |

## Left out

- The admin-ACK-only campaign profile (epoch 5 alone) is not an instance of the ledger model.
- File permissions, fsync, symbolic-link checks and the file lock: ledger calls are atomic but for the modelled crash points.
- Consuming a reservation by the external gate, the worker's own validation of an attempt context, and everything that talks to the provider.
- Real SHA-256, MD5, JSON and UUIDs; hashes are parameters and ids are arguments.
- AckTransition.AssertTransition: rows without an id are excluded (the snapshots always have one), and Python's equality of `True` and `1` is not modelled.
- The recursion limit of the Python cycle finder.
- DocsMigration.EverySectionIsFound: sections are given as trimmed texts, how they are cut out of the legacy documents, which document they go to, and the history documents, which are not split, are not modelled.
- DocsFences.FoundExactlyWhenClosed: headings that contain a line separator other than a newline (which the heading pattern would allow) are excluded.
- Whole-file idempotence of the line splitter: a split-off chunk may start with a fence or bullet mark.
- Byte-level UTF-8 decoding in the SSE client (a chunk that ends inside a character is decoded with replacements): the round trip is over characters.
- Null message contents in a generation payload; a missing key is modelled.
- The bundle lock and the generation checks inside a bundle: a bundle may be abandoned at any point, so the window theorems do not depend on them.
- The futures of several server processes: a generation is resolved and awaited in one process.
- AdminConfig.ConfigKey.Publish: audit log, monitor mark and the cache write before a rolled-back commit; the cache theorem is for committed sequential runs with non-null values.
- Contents, hiding and reply times of comments; the edits that count are those that write a reply.
- Pages and value summaries of the version history, and configuration rows of other keys.
- Lifetimes in seconds (tokens, caches, quotas): expiry is a step that may happen at any time, and the resend quota is an argument.
- Selecting due rows by time and locking them while polling: a poll may return any pending rows.
- Content generation, safety checks, prompts, memory and emotion updates: their outcomes are arguments.
- Voice gateway, quota, lease and ticket services, feed streaming, login lockout, diary rules, agent scoring and the admin pages, which would add easier members.
