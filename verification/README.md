# Usage ledger model

This project models the core of the usage ledger: the store that keeps raw events,
model calls, allocations and interactions, and the ingestion paths that feed it. It
proves what the ledger promises of them, over every input and every run.

## How it is built

Each component is specified by functions on values (a table is a sequence or a map,
a committed transaction is one step), and the code that works step by step is a
method or a class proved against those functions. What an operation does to the columns
of its tables is then stated again without those functions (`*Effects.dfy`, and lemmas
named `...Exactly`).

| files | component |
|---|---|
| `Store.dfy`, `StoreRuns.dfy`, `StoreEffects.dfy` | the store as an object: tables as fields, operations as methods, each proved equal to a step on all tables, what every run of such steps keeps, and what recording a call does to all tables |
| `Reconcile.dfy` | the span graph, its transitive closure and the reconciliation flag |
| `CodexImport.dfy`, `CodexImporter.dfy`, `CodexCalls.dfy`, `CodexAttribution.dfy`, `CodexResume.dfy`, `CodexTotals.dfy`, `CodexClean.dfy` | the Codex session importer: its run, the importer object, the parts and the names under which usage is recorded, re-importing after a crash, conservation of counters, and what reset-free root logs record |
| `AuditChain.dfy`, `CanonicalJson.dfy`, `RawLedger.dfy`, `LedgerRuns.dfy`, `LedgerEffects.dfy`, `Anchors.dfy` | hash chains, canonical text, the append-only ledger, runs of appends, what they accept and store, anchors |
| `Revisions.dfy`, `Allocations.dfy`, `AllocationRuns.dfy`, `AllocationEffects.dfy`, `AllocationProjection.dfy`, `AllocationVerification.dfy` | allocation revisions, what each operation adds, their history and projection, and the loops that verify them |
| `Calls.dfy`, `Capacity.dfy`, `Apportion.dfy`, `Usage.dfy`, `UsageTotals.dfy`, `ReportEffects.dfy` | model calls, the cached token total, integer shares, the usage report, its conservation, and what each project gets of a call |
| `Locks.dfy`, `LockFiles.dfy` | the two-lock protocol as a state machine, and the lock files and stores as objects |
| `Interactions.dfy`, `InteractionEffects.dfy`, `JsonlImport.dfy` | prompts and the calls linked to them, what a lookup and a delivery do, and the envelope importer that drives both |
| `Discover.dfy`, `CodexLog.dfy` | choosing the newest logs, and splitting native token counts |
| `Basics.dfy`, `Sorting.dfy`, `Text.dfy` | shared values, sorting, decimal numbers, framing and byte order of text |

`dafny verify dfyconfig.toml` checks everything. The statement `hide F` in a proof
only keeps the definition of `F` out of the solver's way.

## What is assumed

- SHA-256 is a function `sha` with `Digesting(sha)`: no collisions, and digests that are
  non-empty and without line breaks.
- Strings are sequences of Unicode scalar values; lengths are counted in UTF-8 bytes.
- Times are integers, or their fixed-width UTC text where the text is what is hashed;
  0 is the zero time.
- A fresh id is an id not in use. Ids, clock readings, foreign keys that resolve or not,
  and the outcome of file-system checks are parameters.
- `nat`s that stand for a process's remaining store writes say where it dies.

## Where the code does not do what it is said to do

Each of these is proved with a concrete input, beside the exact condition.

- A ledger that verified can stop verifying after an accepted append: the head of a chain
  is chosen by receive time while verification walks the sequence
  (`LedgerRuns.ClockStepBackBreaks`), the source version is hashed as given but stored
  trimmed (`LedgerRuns.UntrimmedVersionBreaks`), and a source that contains NUL shares a
  chain key with another (`LedgerRuns.NulInSourceBreaks`).
  `LedgerRuns.AppendVerifiesExactly` gives the exact condition for one append.
- A split that lists its shares out of the order in which they are read back is accepted,
  and verification then rejects the projection until it is rebuilt
  (`AllocationProjection.UnsortedSplitBreaks`, `AllocationProjection.AppendVerifiesExactly`).
- Importing a log again does not always complete an interrupted import of a child session:
  a first snapshot that had no baseline conflicts with the intervals recorded after it
  (`CodexResume.BlindChildIsNotCompleted`). The repeat ends as one uninterrupted import
  exactly when every baseline look-up already made is answered as before, or its sample has
  been recorded since (`CodexResume.RepeatCompletesIff`).
- With cyclic span links a flag can depend on the order of arrival
  (`Reconcile.CyclesRememberArrivalOrder`). It does exactly when some part of the spans
  covers the call and the whole does not (`Reconcile.OrderMattersExactly`).
- Where two sources use the same session and upstream id, a model or tool call that arrives
  before both belongs to whichever delivers first, even when it is the other source's own
  (`Interactions.AmbiguousNamesDependOnOrder`): a name counts as unambiguous until its
  second use, and a link is never withdrawn. The order of arrival matters exactly when two
  sources use the name (`Interactions.OrderMattersExactly`).

- The usage report groups its rows by names joined with NUL. Where no name holds one, each
  combination of names has exactly its own group (`Usage.GroupExactly`); a NUL lets two
  agents share a group (`Usage.NulMergesGroups`).

## Model

| member | source | states |
|---|---|---|
| Store.Store.AppendRawEvent | internal/storage/sqlite/store.go:928-1019 | the tables and the answer after an append are exactly those of the specified transaction: refused, suppressed as a copy, or one new chained event |
| Store.Store.VerifyLedger | internal/storage/sqlite/store.go:1334-1387 | accepts exactly the tables whose listed events continue the sequence and their chains and whose covered allocations verify |
| Store.Store.NextUsageTotal | internal/storage/sqlite/usage_limits.go:47-59 | reads the table only when nothing is cached, and answers the cached sum plus the new total or a refusal |
| Store.Store.RecordModelCall | internal/storage/sqlite/store.go:1970-2052 | all tables after recording: the call under its interaction, the cache and the first allocation; nothing but a filled cache when a call is refused or its event already has one, and then the answer is the stored call |
| Store.Store.ReconcileOTLPUsage | internal/storage/sqlite/store.go:2058-2099 | flags exactly the calls already flagged or covered by a descendant call, and changes nothing else |
| Store.Store.ReviewRequest | internal/storage/sqlite/store.go:2265-2302 | the checks of an append settle on the revision that already answers a request, on appending, or on a refusal, exactly as specified |
| Store.Store.AppendAllocationRevision | internal/storage/sqlite/store.go:2265-2343 | history, projection and head after the transaction, and which requests are answered, repeated or refused |
| Store.Store.RepairModelCallAllocation | internal/storage/sqlite/store.go:2245-2251 | a repair is the request whose effect AllocationEffects.RepairAdds states, under the caller's key, and is answered as that request is decided |
| Store.Store.AssignUnattributedModelCall | internal/storage/sqlite/store.go:2253-2261 | an assignment is the request whose effect AllocationEffects.AssignAdds states, and is answered as that request is decided |
| Store.Store.RevertAllocationRevision | internal/storage/sqlite/store.go:2401-2421 | a revert appends the shares of the parent as they are read back, and is answered as that request is decided, or refused without a parent |
| Store.Store.RebuildAllocationProjection | internal/storage/sqlite/store.go:2424-2462 | every call with a history, and no other, gets the sorted entries of its last revision |
| Store.Store.RecordInteraction | internal/storage/sqlite/store.go:1153-1185 | one root per source, session and upstream id, an existing one being returned, and both backfills done on the recorded calls and tools |
| Store.Store.RecordToolCall | internal/storage/sqlite/store.go:1316-1332 | at most one tool call per event, under the interaction looked up for it, and whether it was new |
| Store.Store.ReportUsage | internal/storage/sqlite/store.go:2754-2849 | succeeds exactly when every checked addition fits, and then returns rows, cost, tokens and measurements that sum the shares it selects; without a project, the tokens are the sum of the totals of all stored calls that are not reconciled and started in the window |
| StoreRuns.RunsStayWhole | internal/storage/sqlite/store.go:928-2462 | in every run of all the store's operations, in any order, the ledger verifies, cached tokens are exact and within a word, revisions, heads and projection agree, links are sound and complete, every excluded call has a counted stand-in, and the tables agree on the calls |
| StoreRuns.RecordKeeps | internal/storage/sqlite/store.go:1970-2052 | recording a call under the interaction looked up for it keeps all of that |
| StoreEffects.RecordStoresAll | internal/storage/sqlite/store.go:1970-2052 | in every state a run keeps, recording adds the call's row, its prompt and its first allocation, field by field, exactly when totals, names, event, id, keys, capacity and observations allow it; any other recording leaves every table as it was |
| StoreRuns.ExcludedUsageIsCounted | internal/storage/sqlite/store.go:2058-2099 | in every run of the whole store an excluded call's usage is counted once more, by a call of a stored descendant event reached span by span, with the same provider, model and six counts |
| StoreRuns.SpansAreArrivals | internal/storage/sqlite/store.go:1011-1011 | the spans reconciliation reads are exactly the trace, span and parent of the accepted arrivals |
| Reconcile.Ancestry | internal/storage/sqlite/store.go:2062-2073 | the recursive query, as a worklist, terminates with exactly the pairs joined by a parent-span path, cycles included |
| Reconcile.UsageNeverWhollyExcluded | internal/storage/sqlite/store.go:2054-2099 | in every run of appends, recordings and reconciliations, each excluded call has a counted descendant call with the same provider, the same model and the same six counts, column by column |
| Reconcile.FlagsExactly | internal/storage/sqlite/store.go:2058-2099 | one reconciliation flags exactly the calls that have a descendant call, in another event and not also an ancestor, with the same provider, model and six counts, and touches nothing else |
| Reconcile.DifferentUsageIsCounted | internal/storage/sqlite/store.go:2086-2093 | a call none of whose descendants agrees in provider, model and all six counts is never excluded |
| Reconcile.ReachesIsSpanPath | internal/storage/sqlite/store.go:2062-2073 | one event descends from another exactly when a path of stored events, each naming the span before it as parent in one trace, joins them |
| Reconcile.ReconcileSurvives | internal/storage/sqlite/store.go:2074-2094 | one reconciliation keeps a counted stand-in for every excluded call, old and new |
| Reconcile.GrowthKeepsInv | internal/storage/sqlite/store.go:2011-2011 | late events and calls take no stand-in away |
| Reconcile.Deepest | internal/storage/sqlite/store.go:2074-2094 | below any call lies one with the same usage that nothing covers |
| Reconcile.CoversIsStrictOrder | internal/storage/sqlite/store.go:2080-2085 | covering is irreflexive and transitive, even on cyclic graphs |
| Reconcile.FinalFlags | internal/storage/sqlite/store.go:2062-2094 | on an acyclic graph a call is excluded after a final reconciliation exactly when some descendant call reports the same usage |
| Reconcile.ArrivalOrderIrrelevant | internal/storage/sqlite/store.go:2054-2099 | two runs that recorded the same events and calls in any orders end with the same flags on an acyclic graph |
| Reconcile.OnlyDeepestCounted | internal/storage/sqlite/store.go:2074-2094 | on a linear chain of equal calls exactly the deepest one stays counted |
| Reconcile.OrderMattersExactly | internal/storage/sqlite/store.go:2058-2099 | for any spans, another order of the same events and calls would have given a call the other flag exactly when some part of the spans covers it and the whole does not |
| Reconcile.CyclesRememberArrivalOrder | internal/storage/sqlite/store.go:2058-2099 | a late event that closes a cycle: a run whose first call would have the other flag had the same arrivals come in another order |
| CodexImport.ComputeDifference | internal/ingest/codexsession/import.go:299-329 | the loop over counters yields an interval exactly when no counter is negative or went back, the subsets fit, and something is present and changed |
| CodexImport.LatestIsNewest | internal/storage/sqlite/import_checkpoint.go:24-29 | the checkpoint is a linked sample of the session with the greatest time |
| CodexCalls.DifferenceExactly | internal/ingest/codexsession/import.go:299-329 | counter by counter: when there is an interval between two snapshots, and what it holds |
| CodexCalls.RecordedCallsAreItemized | internal/ingest/codexsession/import.go:400-422 | whatever is imported, a recorded call's fresh and cached input make up the interval's input, its visible and reasoning output its output, its total is the interval's, and every counter is observed once under its own name |
| CodexCalls.EveryUsageLineIsCounted | internal/ingest/codexsession/import.go:105-429 | an import that reads its whole log accounts for each usage line exactly once, as sample, duplicate or skipped, and adds one raw event and one call for each sample |
| CodexCalls.CheckpointExactly | internal/storage/sqlite/import_checkpoint.go:24-29 | a session has a checkpoint exactly when a call is recorded for a sample of it at a time that is not zero, and it is the newest |
| CodexCalls.CleanImportFinishes | internal/ingest/codexsession/import.go:105-276 | importing a readable reset-free root log whose directories resolve finishes exactly when each growth's total covers its input and output and the last total fits the capacity left |
| CodexAttribution.RecordedUnderItsNames | internal/ingest/codexsession/import.go:140-190 | every recorded call is of one snapshot line, under the log's own session and the provider, model and project the lines before it say last, and a child's calls are of its own time |
| CodexAttribution.ChildBegins | internal/ingest/codexsession/import.go:200-246 | a child's first own snapshot is offered from nothing when the log confirms it, else from the inherited snapshot, else from what the store holds, else not at all |
| CodexImporter.Importer.constructor | internal/ingest/codexsession/import.go:36-38 | a new importer has resolved nothing and counted nothing |
| CodexImporter.Importer.Import | internal/ingest/codexsession/import.go:105-276 | reading a log line by line ends with the store, the counts and the outcome of the specified run, wherever the process dies |
| CodexImporter.Importer.TakeLine | internal/ingest/codexsession/import.go:140-271 | one line moves the header, the baseline and the counts, or ends the run, as specified |
| CodexImporter.Importer.TakeSnapshot | internal/ingest/codexsession/import.go:191-271 | one snapshot of a root or child session is inherited, skipped, rebased or delivered |
| CodexImporter.Importer.Deliver | internal/ingest/codexsession/import.go:248-271 | the interval since the baseline is offered and the snapshot becomes the next baseline |
| CodexImporter.Importer.Persist | internal/ingest/codexsession/import.go:342-376 | the store's checkpoint makes an interval a duplicate, a refusal, or one rebased on the checkpoint |
| CodexImporter.Importer.StoreDelta | internal/ingest/codexsession/import.go:377-429 | session, raw event and model call are written in this order, and a death leaves a prefix of them |
| CodexImporter.Importer.ResolveProject | internal/ingest/codexsession/import.go:256-267 | a working directory resolves to the same project whether or not it was resolved before |
| CodexResume.ImportingAgainCompletes | internal/ingest/codexsession/import.go:342-422 | an import cut after any line or between any two store writes is completed by importing the same log again, when its baseline look-ups replay harmlessly |
| CodexResume.RootImportingAgainCompletes | internal/ingest/codexsession/import.go:105-276 | for root sessions that always holds: sessions, raw events and deltas are those of one uninterrupted import |
| CodexResume.RepeatCompletesIff | internal/ingest/codexsession/import.go:207-246 | for any log in time order, whatever it was cut by, the repeat ends as one uninterrupted import would exactly when every child look-up already made is answered as before or its sample is recorded |
| CodexResume.HarmfulRepeatStops | internal/ingest/codexsession/import.go:228-230 | otherwise the repeat fails at that look-up with nothing recorded and no baseline, where the uninterrupted import went on from one |
| CodexResume.BlindChildIsNotCompleted | internal/ingest/codexsession/import.go:207-236 | a child log whose repeat loses the rest of its usage |
| CodexResume.StepReplays | internal/ingest/codexsession/import.go:342-358 | reading a line again over evidence that holds its outcome writes nothing and moves on as before |
| CodexResume.StepAgain | internal/ingest/codexsession/import.go:377-422 | a line whose writes were cut half-way, taken again, ends as if it had not been cut |
| CodexTotals.IntervalsAreDisjoint | internal/ingest/codexsession/import.go:248-271 | over any sequence of imports of any logs, cut or failed, no instant of a session is covered by two recorded intervals |
| CodexTotals.RecordedNeverExceedsCounters | internal/ingest/codexsession/import.go:342-376 | whatever fragments of a root session are imported in whatever order, what is recorded of a counter never exceeds the newest recorded snapshot's |
| CodexClean.CleanImportTelescopes | internal/ingest/codexsession/import.go:105-276 | a finished import of a reset-free root log, with any turns, repeated headers and other lines among its snapshots, records the growth of each changed snapshot and nothing else, and the deltas sum to the last cumulative counters |
| CodexClean.CleanImport | internal/ingest/codexsession/import.go:105-276 | whatever stops such an import, a prefix of those intervals is recorded |
| CodexClean.SuffixFollowUp | internal/ingest/codexsession/import.go:359-376 | after a first part of such a log, importing only the rest under any header of the session records a prefix of the same intervals, all of them if it finishes, and stops at once unchanged when it begins with a repeated snapshot |
| CodexClean.SuffixCompletes | internal/ingest/codexsession/import.go:359-376 | under the header that stood, the rest ends with the outcome and the whole evidence of one import, unless it begins with a repeated snapshot |
| CodexClean.CleanDifference | internal/ingest/codexsession/import.go:299-329 | between consecutive snapshots of such a log an interval exists exactly when something changed, and is the growth of each counter |
| AuditChain.HashInjective | internal/audit/chain.go:23-26 | the framing is unambiguous for one-line payloads and digests, even for sessions with line breaks |
| AuditChain.HashInjectiveInSession | internal/audit/chain.go:23-26 | within one session it is unambiguous for any payloads |
| AuditChain.Verify | internal/audit/chain.go:28-40 | one pass with a map accepts exactly the sequences whose every record follows the last one of its session |
| AuditChain.VerifiesPerSession | internal/audit/chain.go:28-40 | however sessions interleave, the pass accepts exactly when each session's own records form a chain |
| AuditChain.NewRecordExtends | internal/audit/chain.go:17-21 | a record built on its session's last hash extends any verified sequence |
| AuditChain.LastHashDeterminesChain | internal/audit/chain.go:23-40 | two verified chains of one session with the same last hash are equal record for record |
| CanonicalJson.ObjectInjective | internal/storage/sqlite/store.go:3692-3700 | two objects of one struct type encode to the same text exactly when their values are equal, whatever characters they hold |
| CanonicalJson.ObjectOneLine | internal/storage/sqlite/store.go:3692-3700 | the encoded text has no line break |
| CanonicalJson.QuoteReadsBack | internal/storage/sqlite/store.go:3692-3700 | read as section 7 of RFC 8259 says, an encoded text gives back the text, whatever it holds, and leaves what follows it |
| CanonicalJson.ObjectReadsBack | internal/storage/sqlite/store.go:3692-3700 | read back as JSON, an encoded object has the same names and values in the same order |
| CanonicalJson.EscapeAllIsHarmless | internal/storage/sqlite/store.go:3692-3700 | an encoded text has no control character and none of the characters that could end HTML or a script |
| RawLedger.CanonicalInjective | internal/storage/sqlite/store.go:3692-3700 | the canonical text of an event determines its sequence and all its hashed columns |
| RawLedger.EventHashInjective | internal/storage/sqlite/store.go:992-993 | an event hash determines the hashed columns, the sequence and the previous hash |
| RawLedger.ChainKeyInjective | internal/storage/sqlite/store.go:3896-3896 | a chain key determines source and session when sources hold no NUL |
| RawLedger.IdentityExact | internal/storage/sqlite/store.go:3703-3728 | two inputs share an ingestion identity exactly when they name the same upstream event of a source and session or, naming none, agree on every identifying column |
| RawLedger.VerifyRows | internal/storage/sqlite/store.go:1348-1379 | the loop with its maps accepts exactly the listings whose sequence continues and whose chains are intact |
| LedgerRuns.AppendVerifiesExactly | internal/storage/sqlite/store.go:984-1018 | an append to a verified ledger leaves a verified ledger exactly when nothing was added, or the version came trimmed and the newest row of the chain by receive time is its last by sequence |
| LedgerRuns.ClockOrderedHead | internal/storage/sqlite/store.go:985-985 | with ascending receive times and sources free of NUL the head taken is the last row of the chain |
| LedgerRuns.AppendStaysWellKept | internal/storage/sqlite/store.go:928-1019 | one append received later than all others keeps the ledger verified, in clock order and free of NUL |
| LedgerRuns.RunsStayWellKept | internal/storage/sqlite/store.go:928-1019 | so does every run of accepted, refused, suppressed and marker appends over interleaved sources and sessions |
| LedgerRuns.SessionsVerify | internal/storage/sqlite/store.go:1337-1354 | what verifies as a whole verifies for each single session |
| LedgerRuns.WellKeptVerifies | internal/storage/sqlite/store.go:1334-1379 | every reachable ledger verifies whole and session by session |
| LedgerRuns.RewrittenRowIsNoticed | internal/storage/sqlite/store.go:1365-1378 | rewriting the hashed columns of a row keeps the ledger verified only if nothing changed |
| LedgerRuns.SuppressedExactly | internal/storage/sqlite/store.go:968-982 | after any run an event is suppressed as a copy of an id exactly when the arrival accepted under that id has the same identity |
| LedgerRuns.RedeliveryAddsNothing | internal/storage/sqlite/store.go:968-982 | arrivals accepted once can be delivered again, in any order and at any time, and no event is added |
| LedgerRuns.AcceptedIsStored | internal/storage/sqlite/store.go:1011-1017 | after any run the one row under an accepted arrival's id holds that arrival's columns and links |
| LedgerRuns.StoredWasAccepted | internal/storage/sqlite/store.go:1011-1017 | and every row is that of an accepted arrival |
| LedgerEffects.SameEventExactly | internal/storage/sqlite/store.go:3703-3723 | two inputs share an identity exactly when they name the same event of a source and session or, naming none, agree on every column after defaults |
| LedgerEffects.CanonicalReadsBack | internal/storage/sqlite/store.go:3692-3700 | the hashed text is a JSON object that names its version, the event's number and the twelve columns |
| LedgerEffects.IdentityReadsBack | internal/storage/sqlite/store.go:3712-3721 | what identifies an event without an upstream identity is an object of those columns after defaults |
| LedgerEffects.UpstreamReadsBack | internal/storage/sqlite/store.go:3704-3710 | an upstream identity is an object of source, session and the trimmed name |
| LedgerEffects.EventHashSpelled | internal/storage/sqlite/store.go:993-994 | an event's hash is that of its chain, its text and the previous hash, on lines of their own |
| LedgerEffects.AcceptedExactly | internal/storage/sqlite/store.go:928-1019 | after any run, exactly which arrival becomes the next event, and under which number |
| LedgerEffects.RunNumbers | internal/storage/sqlite/store.go:989-992 | whatever arrives, stored events are numbered from one without a gap |
| LedgerEffects.CopiesAreCounted | internal/storage/sqlite/store.go:966-983 | the entry of an accepted arrival counts exactly the arrivals suppressed into it and the time of the last |
| LedgerEffects.HeadExactly | internal/storage/sqlite/store.go:984-988 | the head of a chain is its row received last, by the greatest id where times agree |
| LedgerEffects.MarkerTextInjective | internal/storage/sqlite/store.go:995-1008 | a stored marker says everything it was given and where it stands |
| LedgerEffects.RowsVerifyExactly | internal/storage/sqlite/store.go:1334-1387 | a listing is accepted exactly when its numbers ascend, without a gap in the whole ledger, and each row carries the hash of the last earlier row of its chain and of itself |
| LedgerEffects.OfSessionExactly | internal/storage/sqlite/store.go:1334-1350 | a session's listing is that session's events, each as often as it is stored |
| LedgerRuns.ClockStepBackBreaksNext | internal/storage/sqlite/store.go:985-985 | an append received before the head of its chain verifies, and the next append to that chain does not |
| LedgerRuns.ClockStepBackBreaks | internal/storage/sqlite/store.go:985-985 | three events, the second received while the clock stood back |
| LedgerRuns.UntrimmedVersionBreaks | internal/storage/sqlite/store.go:1011-1011 | one event whose version has a leading blank |
| LedgerRuns.NulInSourceBreaks | internal/storage/sqlite/store.go:3896-3896 | two sources and sessions with one chain key |
| Anchors.LedgerAnchors | internal/storage/sqlite/store.go:1586-1608 | the loop with its seen map lists the first row of each key |
| Anchors.VerifyAnchors | internal/storage/sqlite/store.go:1618-1640 | the loops over current and expected anchors report, in order, exactly the missing and the changed ones |
| Anchors.FirstIsHead | internal/storage/sqlite/store.go:1587-1587 | the row listed first for a chain is the one the next append takes for its head |
| Anchors.AnchorsExactly | internal/storage/sqlite/store.go:1586-1607 | each chain has exactly one anchor, which has its newest row's hash, its number of rows and the time of its last |
| Anchors.AnchorsMatchExactly | internal/storage/sqlite/store.go:1586-1640 | compared with the anchors of one verified ledger whose newest rows end their chains, another shows no mismatch exactly when every anchored chain is equal record for record on the hashed fields |
| Anchors.WellKeptIsAnchorable | internal/storage/sqlite/store.go:985-985 | every ledger a run keeps meets what anchors need |
| Anchors.ChangedChainIsReported | internal/storage/sqlite/store.go:1628-1637 | a changed chain is reported, as truncated exactly when it has fewer records than were anchored, so a strict prefix or a missing chain always is |
| Text.LengthSafeFieldsInjective | internal/storage/sqlite/store.go:2478-2488 | length-prefixed fields are uniquely decodable for arbitrary contents and an unknown number of fields |
| Text.Utf8WidthExactly | internal/storage/sqlite/store.go:2483-2483 | the length counted for a character is that of its bytes as section 3 of RFC 3629 lays them out, which give it back |
| Text.StringLeExactly | internal/simplecli/cli.go:299-302 | one text comes before another when it is its beginning or has the smaller character where they first differ |
| Revisions.EntriesTextExact | internal/storage/sqlite/store.go:2470-2474 | the hashed entries forget their order and nothing else |
| Revisions.RevisionHashExact | internal/storage/sqlite/store.go:2469-2476 | two revisions of one call have the same hash exactly when metadata, previous hash and multiset of entries are equal |
| Revisions.RevisionHashSpelled | internal/storage/sqlite/store.go:2469-2476 | the hashed text of a revision, field by field after their lengths |
| Allocations.ValidateAllocations | internal/storage/sqlite/store.go:1642-1658 | accepts exactly non-empty shares within 0 and 10000 that total 10000 |
| Allocations.SameSharesExact | internal/storage/sqlite/store.go:2345-2360 | the comparison of sorted texts holds exactly when the shares are the same in some order |
| Allocations.ChainNumbers | internal/storage/sqlite/store.go:2299-2305 | an intact chain is numbered 1..n, each revision with its predecessor's id and hash |
| AllocationRuns.CommitKeeps | internal/storage/sqlite/store.go:2314-2334 | history row, projection and head change together, so every call stays consistent |
| AllocationRuns.AppendKeeps | internal/storage/sqlite/store.go:2265-2343 | an append, accepted, repeated or refused, keeps every call consistent |
| AllocationRuns.NewCallKeeps | internal/storage/sqlite/store.go:2029-2047 | so does the direct allocation of a new call |
| AllocationRuns.RebuildKeeps | internal/storage/sqlite/store.go:2424-2462 | and a rebuild |
| AllocationRuns.RunsStayKept | internal/storage/sqlite/store.go:2265-2462 | in every run of direct, split, repair, assign, revert and rebuild operations each call's revisions are linked, each allocates the whole to known projects, and head and projection are those of the last one |
| AllocationRuns.KeptRevision | internal/storage/sqlite/store.go:2299-2334 | the same spelled out: number, parent and previous hash of the k-th revision, total 10000, the head's id, and the projection as a multiset |
| AllocationRuns.HistoryOnlyGrows | internal/storage/sqlite/store.go:2263-2264 | no run of operations edits, moves or removes a revision |
| AllocationRuns.KeyIsSpent | internal/storage/sqlite/store.go:2283-2292 | once a key has appended a revision any later request under it changes nothing, and is answered with it unless it assigns other shares |
| AllocationEffects.AppendsExactly | internal/storage/sqlite/store.go:2265-2302 | exactly which requests append a revision |
| AllocationEffects.AppendAdds | internal/storage/sqlite/store.go:2303-2343 | an append adds one history row with the request's shares and metadata, replaces that call's projection in order, and moves its head, and nothing else |
| AllocationEffects.AssignAdds | internal/storage/sqlite/store.go:2253-2261 | a known call without a history gets one revision, the whole of a known project; a call with a history keeps history, projection and head |
| AllocationEffects.RepairAdds | internal/storage/sqlite/store.go:2245-2251 | a known call gets one more revision, the whole of a known project, under a key it has not used; otherwise nothing changes |
| AllocationEffects.NewCallAdds | internal/storage/sqlite/store.go:2031-2047 | a new call is known from then on and, for a project, has one revision that gives it the whole |
| AllocationEffects.RevertAdds | internal/storage/sqlite/store.go:2401-2421 | a revert that changes anything adds one revision of the reverted revision's call, under the caller's key and reason |
| AllocationEffects.ReadInOrder | internal/storage/sqlite/store.go:2490-2491 | entries are read back by slug, project, points, method and confidence |
| AllocationProjection.SlotTextInjective | internal/storage/sqlite/store.go:1553-1563 | a projected entry can be read back from its text when project and confidence hold no bar |
| AllocationProjection.ProjectionMatchesExactly | internal/storage/sqlite/store.go:1561-1573 | the projection matches its revision exactly when it lists the entries in the order in which they are read back |
| AllocationProjection.VerifiesExactly | internal/storage/sqlite/store.go:1389-1576 | in every reachable state verification accepts exactly when each covered projection is in that order |
| AllocationProjection.AppendVerifiesExactly | internal/storage/sqlite/store.go:2321-2327 | an append to a verified state leaves one that verifies exactly when the request lists its shares by slug, project and points |
| AllocationProjection.UnsortedSplitBreaks | internal/storage/sqlite/store.go:2321-2327 | a split that names the later slug first |
| AllocationProjection.RebuildRestores | internal/storage/sqlite/store.go:2424-2462 | rebuilding from history alone gives the same calls the same multisets of entries, and the result verifies, ordinals included |
| AllocationProjection.RevertRestoresParent | internal/storage/sqlite/store.go:2401-2421 | a first revision cannot be reverted; any other gives the call a last revision with its parent's shares, and a projection that verifies |
| AllocationProjection.RevertTwiceRestores | internal/storage/sqlite/store.go:2401-2421 | reverting the last revision and then the revert allocates the call as before |
| AllocationVerification.VerifyLinks | internal/storage/sqlite/store.go:1394-1431 | the loop with its two maps accepts exactly rows whose every call is linked and whose ids have one hash each |
| AllocationVerification.VerifyContents | internal/storage/sqlite/store.go:1502-1521 | hashing the entries as they are read back accepts exactly the rows whose stored hash covers their contents |
| AllocationVerification.CompareProjection | internal/storage/sqlite/store.go:1534-1573 | building, sorting and comparing the texts decides whether a projection matches |
| AllocationVerification.VerifyProjection | internal/storage/sqlite/store.go:1525-1576 | rows with a successor are skipped and every other one is compared |
| AllocationVerification.VerifyHeads | internal/storage/sqlite/store.go:1446-1477 | accepts exactly when every covered head is its call's last revision |
| AllocationVerification.VerifyAllocationRevisionChain | internal/storage/sqlite/store.go:1389-1444 | all loops together accept exactly the tables whose covered calls are linked, hashed, headed and projected |
| AllocationEffects.AllocationsVerifyExactly | internal/storage/sqlite/store.go:1389-1576 | accepted exactly when each revision of an asked call has its number, hash and parent, ids have one hash, and heads and projections are those of last revisions |
| Calls.AddUsageCount | internal/storage/sqlite/usage_limits.go:11-19 | answers exactly for non-negative counts whose sum fits a word |
| Calls.ModelCallTotal | internal/storage/sqlite/usage_limits.go:21-45 | the loops settle on the reported or summed total exactly when it fits, covers the components and bounds every observation |
| Calls.TotalExactly | internal/storage/sqlite/usage_limits.go:21-45 | a call is accepted under exactly the total its last total_tokens observation reports or, without one, its five parts add up to; it must cover them and bound every observation |
| Calls.RecordedExactly | internal/storage/sqlite/store.go:1970-2052 | exactly when a recording grows the table, and that the new row holds every field of the input |
| Capacity.RowsAreRecordings | internal/storage/sqlite/store.go:2012-2018 | after any run each row is that of one recording, field by field and count by count, but for its cost and its flag |
| Capacity.UpdatesExactly | internal/storage/sqlite/store.go:2669-2678 | a row that is reconciled or repriced changes in that alone, and no other row does |
| Calls.RecordedKeepsOneCallPerEvent | internal/storage/sqlite/store.go:1994-2008 | recording never gives a raw event a second call |
| Capacity.RecordSound | internal/storage/sqlite/usage_limits.go:47-59 | recording with the cache decides as recording from the table would, and keeps the cache exact and the sum within a word |
| Capacity.RunsStaySound | internal/storage/sqlite/usage_limits.go:47-59 | over every run, refused and duplicate recordings and reopenings included, the cache is empty or the exact sum of stored totals, which fits a word |
| Capacity.FirstCallStays | internal/storage/sqlite/store.go:1994-2003 | the first call recorded for an event is its call for good, with the same id and tokens, however often and with whatever counts the event is recorded again |
| Capacity.UsageNeverOverflowsTokens | internal/storage/sqlite/store.go:2754-2849 | after any such run and any kept allocations the report fails exactly for costs, never for tokens |
| Apportion.ShareUpToExact | internal/storage/sqlite/store.go:3181-3181 | in 64-bit arithmetic the share up to some points is the exact floor, and no intermediate step wraps |
| Apportion.ApportionExact | internal/storage/sqlite/store.go:3180-3183 | a share is the difference of two floors and within the count |
| Apportion.WithinOneUnit | internal/storage/sqlite/store.go:3180-3183 | each share is less than one unit from its proportion |
| Apportion.SuccessiveTelescopes | internal/storage/sqlite/store.go:3180-3183 | successive shares telescope, and shares of a whole give back exactly the count |
| Usage.AddUsageCounts | internal/storage/sqlite/usage_limits.go:61-70 | seven additions succeed exactly when each does, and give the seven sums |
| Usage.ApportionRow | internal/storage/sqlite/store.go:2788-2806 | a row is usable exactly when it counts and its points fit after the earlier rows of its call |
| Usage.SumUsage | internal/storage/sqlite/store.go:2779-2829 | the loop with its three maps succeeds exactly when all rows are usable and every group and the total cost fit, and its groups sum the selected shares |
| Usage.SumMeasurements | internal/storage/sqlite/store.go:3111-3155 | the same by quality, with each call counted under its first selected row |
| Usage.GroupExactly | internal/storage/sqlite/store.go:2813-2829 | where no name holds NUL, a group carries the names of one of its shares, sums exactly the shares with those names, and is the only one to do so |
| Usage.GroupOfShare | internal/storage/sqlite/store.go:2813-2829 | and every share is in a group with its names |
| Usage.NulMergesGroups | internal/storage/sqlite/store.go:2813-2813 | two agents whose rows share a group |
| UsageTotals.WindowHolds | internal/storage/sqlite/store.go:3416-3428 | the calls reported on are exactly those stored that are not reconciled and started in the window, each as often as it is stored |
| UsageTotals.WindowSums | internal/storage/sqlite/store.go:2758-2768 | a column of the report's calls is the sum of that column over those positions of the call table |
| ReportEffects.PartsExactly | internal/storage/sqlite/store.go:2775-2775 | a call is joined to its allocation rows, in order and with their points and slugs, or to one whole of its own project, or of none; the measurements leave its own project out |
| ReportEffects.ProjectGetsExactly | internal/storage/sqlite/store.go:2779-2829 | a project's part of every column is the sum, over the calls, of the rounded-down differences at its own points |
| UsageTotals.SharesConserve | internal/storage/sqlite/store.go:2779-2806 | for calls without allocations or with a whole, in any order and over any shares, the shares of every column add up to the stored columns |
| UsageTotals.ReportConserves | internal/storage/sqlite/store.go:2815-2829 | the grouped rows, and likewise the measurements, sum to the calls' totals in all seven columns |
| UsageTotals.ProjectsConserve | internal/storage/sqlite/store.go:2806-2808 | the reports of all projects together sum to the calls' totals |
| UsageTotals.MeasurementsAgree | internal/storage/sqlite/store.go:3104-3106 | rows and measurements select the same shares when directly attributed calls have allocations |
| UsageTotals.QualitiesCountCalls | internal/storage/sqlite/store.go:3139-3144 | every call is counted once, under its own quality |
| UsageTotals.SumGroups | internal/storage/sqlite/store.go:2831-2839 | adding the grouped rows in any map order gives the total of the selected shares, or overflows exactly when that does |
| UsageTotals.FailsOnlyOnCost | internal/storage/sqlite/store.go:2754-2849 | over recorded calls the whole report fails exactly on a negative cost or a cost sum too large |
| Store.WholeReportAddsUp | internal/storage/sqlite/store.go:2754-2849 | in every column a whole report's rows and its measurements both add up to the calls it reports on, cost and tokens are theirs, and each call is counted once under its own quality |
| UsageTotals.KeptSplitsWhole | internal/storage/sqlite/store.go:2775-2775 | the allocations any run keeps split every call over nothing or exactly a whole |
| Locks.RunKeeps | internal/storage/sqlite/store.go:508-701 | under every interleaving and death the lock table holds exactly the handles the clients' phases account for, and no two conflict |
| Locks.OneWriter | internal/storage/sqlite/store.go:527-531 | at most one client of the three writing roles has a writable database |
| Locks.AloneExcludesOthers | internal/storage/sqlite/store.go:558-592 | while a reader has the file open as immutable, or maintenance checkpoints it, no other client holds any handle |
| Locks.DoneHoldsNothing | internal/storage/sqlite/store.go:519-546 | whoever is done, by failing, closing or dying, holds nothing |
| Locks.GuardProtects | internal/storage/sqlite/purge.go:27-49 | from the acquired guard to the end of Close nobody has the quiescence lock exclusively |
| Locks.ProtectionHasNoGap | internal/app/service.go:46-76 | every step of a guarded client keeps that protection or ends the attempt |
| Locks.RefusalsExact | internal/storage/lock/lock.go:46-70 | in every reachable state a lock is refused exactly because of the phases of the other clients |
| Locks.EntersExactly | internal/storage/sqlite/store.go:508-592 | in every reachable state, exactly when a client of each role passes the quiescence lock |
| Locks.GuardsExactly | internal/storage/sqlite/purge.go:27-49 | exactly when initialization gets its guard, and a writing role the writer lock |
| Locks.FilesExactly | internal/storage/lock/lock.go:46-60 | only writers and initialization create lock files, and readers open only where both exist |
| Locks.StartsExactly | internal/app/service.go:46-76 | only initialization of an existing home takes the guard |
| Locks.DeathExactly | internal/storage/lock/lock.go:39-44 | a dead client holds nothing, and nobody else notices |
| Locks.FailureClosesDown | internal/storage/sqlite/store.go:508-701 | a step that fails never leads on: the client closes what it has, or is done |
| Locks.TwelveStepsEnd | internal/storage/sqlite/store.go:508-701 | whatever fails and whatever others do, a client that has taken twelve steps is done and holds nothing |
| Locks.OpensWhenFree | internal/storage/sqlite/store.go:508-701 | where nothing fails and nobody holds a lock every role gets its store open, or may checkpoint; only writers and initialization do so without the lock files |
| LockFiles.LockHandle.Close | internal/storage/lock/lock.go:39-44 | a handle releases its lock once, however often it is closed |
| LockFiles.LockTable.Acquire | internal/storage/lock/lock.go:46-70 | grants exactly when the file opens and no other handle conflicts, and otherwise leaves the held handles alone |
| LockFiles.OpenStore.Close | internal/storage/sqlite/store.go:636-653 | releases exactly the store's own handles |
| LockFiles.Open | internal/storage/sqlite/store.go:508-547 | succeeds exactly when checks and both locks allow it, holding both; a failure leaves the lock table unchanged |
| LockFiles.OpenReadOnly | internal/storage/sqlite/store.go:550-592 | the same with the one exclusive existing lock |
| LockFiles.OpenSnapshotReadOnly | internal/storage/sqlite/store.go:596-634 | the same with the one shared existing lock |
| LockFiles.Checkpoint | internal/storage/sqlite/store.go:658-701 | needs both existing locks exclusively and gives both back, whatever happens |
| LockFiles.Initialize | internal/app/service.go:46-76 | a failure leaves the lock table unchanged, and a success holds the store's handles without the guard |
| Interactions.RunKeeps | internal/storage/sqlite/store.go:1153-1203 | over every run links are sound, and complete where a name is unambiguous and its backfill done |
| Interactions.LinksJoinEqualIds | internal/storage/sqlite/store.go:1187-1203 | every link joins equal session and upstream ids |
| Interactions.LinkedExactly | internal/storage/sqlite/store.go:1153-1262 | where session and upstream id name at most one interaction every call with that name is linked exactly when it exists, and to it, whatever the order of arrival |
| Interactions.LinksStay | internal/storage/sqlite/store.go:1191-1198 | a link is never moved or cleared |
| InteractionEffects.ParentExactly | internal/storage/sqlite/store.go:1217-1260 | a call belongs to the prompt of its own source, session and name, or else to the only prompt of its session with that name, or else to none |
| InteractionEffects.DeliverExactly | internal/storage/sqlite/store.go:1153-1203 | a delivery stores the prompt unless its source has it, and links exactly the unlinked calls of its session and name, and the tool calls if no other source uses the name |
| InteractionEffects.RunKeepsApart | internal/storage/sqlite/store.go:1316-1332 | however often an event is delivered it has at most one call and one tool call, and no tool call is without an event |
| Interactions.OrderMattersExactly | internal/storage/sqlite/store.go:1153-1203 | some order of the same arrivals would have put a model or tool call under another source's prompt, or none, exactly when two sources use its session and upstream id |
| Interactions.FirstDeliveryWins | internal/storage/sqlite/store.go:1187-1203 | a call that arrives before its prompts belongs to the first source that delivers, whatever follows |
| Interactions.OnlyOrigin | internal/storage/sqlite/store.go:1153-1203 | a call whose name at most one source uses belongs to that source, in every order |
| Interactions.AmbiguousNamesDependOnOrder | internal/storage/sqlite/store.go:1191-1198 | two sources with one name: a model or tool call of any source that arrives first goes to whichever delivers next |
| JsonlImport.Import | internal/ingest/jsonl/importer.go:85-138 | the loop ends with the state and the count of the specified file, up to its first failing line |
| JsonlImport.LineStores | internal/ingest/jsonl/importer.go:118-133 | an imported line adds at most one call, one prompt and one tool call, each exactly when its event type is spelled as one and under the ids it names, and takes nothing away |
| JsonlImport.CallLine | internal/ingest/jsonl/importer.go:282-303 | which lines are model calls, and when such a line fails |
| JsonlImport.PromptLine | internal/ingest/jsonl/importer.go:208-240 | when a prompt line fails, and that it adds the prompt only once |
| JsonlImport.ToolLine | internal/ingest/jsonl/importer.go:178-205 | which lines are tool calls, and when such a line fails |
| JsonlImport.ImportLinksExactly | internal/ingest/jsonl/importer.go:120-126 | after any lines in any order, even a failing one, calls and tools with an unambiguous name are linked exactly when their prompt arrived |
| Discover.Discover | internal/simplecli/cli.go:278-317 | appending, sorting and truncating at every entry returns exactly the first k of all eligible files fully sorted, and counts them |
| Discover.AnyWalkOrder | internal/simplecli/cli.go:280-309 | the selection does not depend on the order of the walk |
| Discover.NoneBetter | internal/simplecli/cli.go:298-307 | no eligible file left out comes before a selected one |
| Discover.SelectedExactly | internal/simplecli/cli.go:294-308 | of the candidates exactly the limit or all are chosen, newest first and by path where times agree, and each before every one left out |
| Discover.CandidatesExactly | internal/simplecli/cli.go:287-293 | the candidates are exactly the regular files with the extension in any letter case, that are no links, from the given time on |
| CodexLog.Observe | internal/ingest/otlp/receiver.go:518-528 | the loop refuses exactly a present native field that is no count, and collects the others in order |
| CodexLog.NumberRoundTrip | internal/ingest/otlp/receiver.go:786-789 | a number reads back as written exactly when it is not negative |
| CodexLog.ParseIntExactly | internal/ingest/otlp/receiver.go:786-789 | a number is digits, after a sign or without one, that stay within a word |
| CodexLog.PartsAddUp | internal/ingest/otlp/receiver.go:529-540 | the stored parts of an accepted native event are non-negative and make up its input and its output |
| CodexLog.NativeTotalIsInputPlusOutput | internal/ingest/otlp/receiver.go:529-541 | the store accepts such an event's call with exactly input plus output as its total |
| CodexLog.AcceptedExactlyWhenExplained | internal/ingest/otlp/receiver.go:505-541 | a native event is accepted exactly when some disjoint non-negative parts explain all its counts, and it is split into the only parts that do |
| CodexLog.OlderEventExactly | internal/ingest/otlp/receiver.go:488-528 | an event without native counts is accepted exactly when it has an input and an output count, which are stored as they are, with zero for optional counts that cannot be read |
| CodexLog.ObservationsExactly | internal/ingest/otlp/receiver.go:518-528 | each readable count is observed under its own name and attribute, and nothing else is |

## Left out

- SQL, WAL files, migrations and schema backfills: a committed transaction is one step on the tables.
- JSON, protobuf and timestamp parsing, sanitizers and redaction: the models start from decoded, sanitized records.
- HTTP, tokens, commands, the terminal interface, collectors and adapters.
- Legacy rows: hash version 1, `LinkMatchingLegacyModelCall`, and calls matched before raw events had identities.
- `LinkModelCallInteraction`, which nothing calls.
- Pricing, budgets, capability reports, session snapshots and exports.
- Concurrency inside one process: the recording mutex and the single connection make calls one after another.
- CodexImport.LatestIsNewest: among linked samples of equal time the model takes the one linked last, where the query leaves the choice open.
- CodexTotals.IntervalsAreDisjoint: the baseline instant of an interval is carried by the model and not stored by the source, and usage times are positive, as a zero checkpoint time reads as none.
- Store.Store.RecordInteraction: the insert and its two backfills are one step of the object; `Interactions.LinkedExactly` covers deliveries that stop between them.
- Store.Store.RecordModelCall: task, turn, timing and location columns are not modelled; the interaction columns are rows of their own, in step with the calls.
- CodexCalls.CleanImportFinishes: every line can be decoded and every directory resolves; what an import records up to a line that stops it is stated by `CodexClean.CleanImport`.
- Usage.GroupExactly: names hold no NUL, as `Usage.NulMergesGroups` requires.
- Store.Store.ReportUsage: the group-by argument is checked outside; grouped rows and measurements are maps, without the final sorting, and the count of lifecycle events is left out.
- AllocationRuns.RunsStayKept: revision ids are drawn fresh, which the schema does not enforce.
- AllocationProjection.VerifiesExactly: project ids hold no bar, the separator of the compared texts; that sorted projections verify needs no such condition.
- Anchors.AnchorsMatchExactly: sources hold no NUL, which a chain key needs, and no two rows share both id and time.
- Anchors.ChangedChainIsReported: sources hold no NUL, and no two rows share both id and time.
- Locks.RunKeeps: lock files are never removed, and releasing a lock always releases it.
- LockFiles.Initialize: a failing release of the guard, which closes the store again, is a step of the state machine in `Locks.dfy` only.
- JsonlImport.Import: letter case is ASCII, the raw event of a line is given, and the reconciliation after a recorded call is a step of `StoreRuns.dfy` only.
- Discover.Discover: a root that is a single file, and errors of the walk.
- CodexLog.NativeTotalIsInputPlusOutput: the service, event and model guards before the counts, and identities and times of log events, are not modelled.
- Interactions.OrderMattersExactly: deliveries run to their end, under ids of their own; `Interactions.LinkedExactly` covers those that stop between insert and backfill.
- StoreRuns.RunsStayWhole: ids are drawn fresh, and events are received in clock order under trimmed versions and sources free of NUL, as `LedgerRuns.AppendVerifiesExactly` requires.
- CodexClean.CleanImportTelescopes: an unfinished line is the last of its log.
- CodexCalls.EveryUsageLineIsCounted: an unfinished line is the last of its log.
- Locks.OpensWhenFree: the checks between the steps, of configuration, schema and contents, are the surroundings of a step.
