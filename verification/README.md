# Lana's durable runtime

A Dafny model of the durable runtime of Lana (`runtime/rust/lana-runtime`) with proofs of what it
promises. `dafny verify dfyconfig.toml` checks the whole project.

The parts, each in the form of the code it models:

- **The journaled store** (`Payload`, `Journal`, `Snapshots`, `Replay`, `Recovery`, `RecoveryRuns`, `History`, `Scan`,
  `Transactions`, `LostStores`, `Store`). The journal and the snapshot files are sequences of bytes. `Recovery` is a state machine over
  the files of a store in which every file operation has an outcome: a record can be cut at any byte, a replaced file can
  show its old or new contents, and a crash is such a stop followed by `Close`. `Store` has the same operations as
  methods that update a handle and its files in place, each proved to take exactly the step of the machine.
- **Protocols on the store** (`Durable`, and then `Execution`, `ExecutionAnswers`; `Conditions`, `Inbox`, `InboxLog`, `InboxRuns`,
  `InboxAnswers`, `InboxHandle`, `InboxJson`, `InboxRecord`; `BatchUpdate`, `DatasetKeys`, `Views`, `ViewLog`, `ViewRuns`,
  `ViewAnswers`, `ViewHost`):
  webhook execution, the inbox and incremental dataset views, as runs that interleave their own operations with crashes,
  reopenings, new processes and every operation of other users of the same store. The `Answers` modules say what each
  operation answers and what it leaves, in terms of the log before and after it and without the functions that decide it.
- **Learners** (`Rules`, `RuleLanguage`, `RuleSearch`, `RuleLearning`; `TreeSplits`, `Trees`, `TreeReads`, `TreeTheorems`): the bounded search for
  Boolean rules, and decision trees grown into an array that a validator and a traversal read back.
- **Shared derivation graphs** (`Dag`, `DagCodec`, `DagPaths`, `DagIdentity`, `DagRun`; `SourceLabels`, `Exclusions`,
  `RowDecisions`): saving and rebuilding them, and the evidence of where rows came from and why others are missing.
- **Text** (`Utf8`, `Lines`, `Documents`, `Headings`; `JsonText`, `Json`, `JsonCodec`, `JsonData`, `JsonReader`, `JsonPut`, `JsonStore`,
  `JsonRuns`, `JsonEscapes`, `JsonGrammar`, `JsonNumbers`, `JsonDocuments`, `JsonDataDocuments`; `Csv`): document chunks, the JSON
  that the store keeps its values in with the two decoders it reads them by and the grammar that each is shown to read exactly,
  and CSV tables.

Parameters stand for what the model does not open: SHA-256 (`Hash`, from bytes to 32 bytes), how a double prints and
reads, which values fit the heap they are decoded on, the evaluation of a plan, the objective of a tree, how a source
label splits (`SourceLabels.Split` is the one the code uses). The store's value codec is a parameter too
(`Snapshots.Canon`), and so is the text of a protocol's records; `JsonStore.JsonFaithful` and `InboxRecord.RecordsLawful`
prove what is assumed of the store's codec and of inbox records of the JSON that the code uses. Hash collisions matter in two places, and there the statement says
so: view consistency speaks of a program only when no other program has its digest, and evidence validates unless two of
the hashes that a run computes collide.

The code and what one would expect of it part in nine places. For each there is a concrete input and the exact
condition under which the expectation holds.

- A key with NUL is staged and committed, and then the store cannot be opened (`LostStores.NulKeyLosesStore`;
  `RecoveryRuns.CommitReopens`).
- A snapshot after a full compaction and further commits makes the store unreadable
  (`LostStores.SnapshotAfterCompactionLosesStore`; `RecoveryRuns.SnapshotReopens`).
- So does a snapshot whose text is over 256 MiB, or whose values do not fit one heap, even when the store is compacted
  (`JsonRuns.LongStringsLoseStore`; `RecoveryRuns.SnapshotReopens`, `RecoveryRuns.CompactionReopens`).
- After a full compaction a read at the compacted revision can lose keys
  (`LostStores.CompactedRevisionLosesKey`; `HistoryReads.GetAtExact`).
- A value that was put is not always got: integers above 2^53 come back as strings, and values nested deeper than 128 are
  committed and never read, and stop every snapshot (`JsonPut.LargeIntegerIsText`, `JsonPut.DeepIsLost`,
  `JsonRuns.DeepValueStopsSnapshots`; `JsonPut.PutGetSame`).
- An inbox message whose payload is nested 128 deep is accepted, and from then on the inbox neither releases nor accepts
  anything (`InboxJson.SnapshotOfDeep`, `InboxRuns.UnreadableBlocks`; `InboxRuns.DeepMessage`).
- A CSV field that is not ASCII comes back with each of its bytes as a character (`Csv.RoundTrip`).
- A CSV text that ends with a comma loses its last record (`Csv.TrailingComma`; `Csv.LastRecordKept`).
- An unclosed quoted CSV field can be accepted (`Csv.UnclosedQuote`, `Csv.OpenAtEnd`; `Csv.UnclosedAccepted`).

## Model

| member | source | states |
|---|---|---|
| Payload.ParseAllEncode | runtime/rust/lana-runtime/src/store.rs:194-301 | Parsing what was built from staged mutations returns them when no key holds NUL, and refuses it otherwise. |
| Payload.ParseAllOnly | runtime/rust/lana-runtime/src/store.rs:235-301 | A payload within the limit that parses is, byte for byte, the payload built from what it parses to: the codec is a bijection on its image. |
| Payload.ParseOneEncode | runtime/rust/lana-runtime/src/store.rs:249-295 | One mutation followed by anything parses back to that mutation and what follows. |
| Payload.BuildPayload | runtime/rust/lana-runtime/src/store.rs:194-224 | The append loop builds exactly the encoding of the mutations, or refuses one over 256 MiB. |
| Payload.ParsePayload | runtime/rust/lana-runtime/src/store.rs:235-301 | The cursor loop accepts exactly the payloads of the specification, with the same mutations and errors. |
| Payload.MutationLayout | runtime/rust/lana-runtime/src/store.rs:194-224 | Where the parts of a put and of a delete stand, byte by byte. |
| Journal.ReadWritten | runtime/rust/lana-runtime/src/store.rs:418-520 | A written record followed by anything is read whole, with its fields, and the rest untouched. |
| Journal.CutIsTorn | runtime/rust/lana-runtime/src/store.rs:418-520 | A record cut at any byte before its end reads as torn, never as complete and never as malformed. |
| Journal.RecordLayout | runtime/rust/lana-runtime/src/store.rs:709-748 | Where each field of a record stands, byte by byte: magic texts, revisions, counts and lengths in big-endian, the digest over the revisions, the count and the payload, and its repetition in the commit trailer. |
| ReplayTheorems.ReplayLog | runtime/rust/lana-runtime/src/store.rs:418-587 | Replaying the journal of a log, followed by any torn bytes, accepts exactly its revisions, folds exactly its batches and stops at the end of the last complete record. |
| ReplayTheorems.ReplayOne | runtime/rust/lana-runtime/src/store.rs:520-580 | Replay takes one written record and goes on from the state that record leads to. |
| ReplayTheorems.ReplayGap | runtime/rust/lana-runtime/src/store.rs:542-555 | A journal that starts after neither revision 0 nor the snapshot is refused. |
| ReplayTheorems.ReplayNul | runtime/rust/lana-runtime/src/store.rs:261 | A record with a NUL in a key is refused when replay reaches it. |
| ReplayTheorems.ReplayOnly | runtime/rust/lana-runtime/src/store.rs:418-587 | Whatever replay accepts, from any state, is byte for byte the records of the revisions it adds, each with its digests and the link to the one before, followed by bytes that read as torn. |
| ReplayTheorems.ReplayAccepts | runtime/rust/lana-runtime/src/store.rs:418-587 | So a journal that replay accepts from the start is the journal of one log, from revision 1 on, and a torn end, and the state it leads to is that of the log. |
| ReplayTheorems.FoldPrefix | runtime/rust/lana-runtime/src/store.rs:762-779 | The contents at a revision do not depend on later batches. |
| Recovery.OpenRecovers | runtime/rust/lana-runtime/src/store.rs:370-664 | Files that satisfy the invariant open if and only if no journaled key holds NUL, the manifest's snapshot passes its checks and loads, and the journal goes on from it or from nothing; then exactly the log is recovered, and otherwise nothing changes. |
| RecoveryRuns.CommitPreserves | runtime/rust/lana-runtime/src/store.rs:703-789 | A commit, wherever it stops, keeps the recovery invariant: the batch is in the log whole or not at all. |
| RecoveryRuns.SnapshotPreserves | runtime/rust/lana-runtime/src/store.rs:940-978 | A snapshot, of whatever size and wherever it stops, keeps the invariant: each snapshot file says the truth about its revision if it loads. |
| RecoveryRuns.CompactPreserves | runtime/rust/lana-runtime/src/store.rs:980-1018 | So does a compaction, whatever it retains. |
| RecoveryRuns.StepKeeps | runtime/rust/lana-runtime/src/store.rs:597-1018 | Every operation, with any outcome of its file operations, keeps the invariant, and the log only grows. |
| RecoveryRuns.RunKeeps | runtime/rust/lana-runtime/src/store.rs:597-1018 | So does every run, with nothing asked of its operations but that staged values are encoded. |
| RecoveryRuns.RunOpens | runtime/rust/lana-runtime/src/store.rs:597-1018 | A run that commits no key with NUL and snapshots only what fits, over a journal that starts at revision 1 or is empty, leaves files that open. |
| RecoveryRuns.CrashSafety | runtime/rust/lana-runtime/src/store.rs:370-789 | After any run from empty files, with a crash anywhere, the files open to exactly a prefix of whole commits, no shorter than what the manifest acknowledged, or not at all; a failed opening changes nothing. |
| RecoveryRuns.CrashRecovery | runtime/rust/lana-runtime/src/store.rs:370-789 | After any such prudent run opening succeeds and recovers exactly that prefix. |
| RecoveryRuns.AcknowledgedSurvives | runtime/rust/lana-runtime/src/store.rs:703-789 | A batch whose commit reported success is at its revision in the log of every later run, whatever it does. |
| RecoveryRuns.FurtherCommit | runtime/rust/lana-runtime/src/store.rs:703-789 | After recovery a further commit and reopening succeed, with the new batch last. |
| RecoveryRuns.SnapshotReopens | runtime/rust/lana-runtime/src/store.rs:940-978 | A snapshot succeeds if and only if every value decodes and every key encodes. Then the store opens again if and only if its journal starts at revision 1 or is empty, no revision has a key with NUL, the text of the snapshot is at most 256 MiB and its values fit one heap. |
| RecoveryRuns.InterruptedCompactionReopens | runtime/rust/lana-runtime/src/store.rs:980-1018 | The same condition decides it for a full compaction stopped before the journal is truncated. |
| RecoveryRuns.CompactionReopens | runtime/rust/lana-runtime/src/store.rs:980-1018 | A full compaction that is not stopped leaves a store that opens if and only if the snapshot fits. |
| RecoveryRuns.CommitReopens | runtime/rust/lana-runtime/src/store.rs:677-693 | After a commit the store opens again if and only if it did before and no committed key holds NUL. |
| Snapshots.DumpAll | runtime/rust/lana-runtime/src/store.rs:940-950 | A snapshot is of every key, with its value decoded and encoded again. |
| Snapshots.LoadWritten | runtime/rust/lana-runtime/src/store.rs:370-398 | A published file passes the checks of its header, length and digest if and only if its text is within the limit. |
| Snapshots.LoadOnly | runtime/rust/lana-runtime/src/store.rs:370-412 | Any file that loads is, byte for byte, the file that is written for its revision and text, of at most 256 MiB. |
| Snapshots.FileLayout | runtime/rust/lana-runtime/src/store.rs:949-963 | Where the parts of a snapshot file stand. |
| LostStores.NulKeyLosesStore | runtime/rust/lana-runtime/src/store.rs:677-693 | A put of a key with NUL is accepted and commits, and the store cannot be opened again. |
| LostStores.SnapshotAfterCompactionLosesStore | runtime/rust/lana-runtime/src/store.rs:542-555 | A snapshot after a full compaction and further commits makes the store unreadable. |
| LostStores.LargeSnapshotLosesStore | runtime/rust/lana-runtime/src/store.rs:387 | Two values of 150 MiB are committed and reopen. A snapshot of them, or a full compaction, reports success and the store never opens again. |
| LostStores.CompactedRevisionLosesKey | runtime/rust/lana-runtime/src/store.rs:814-840 | After a full compaction and a further commit, a read at the compacted revision no longer finds a key that was there. |
| HistoryReads.GetAtExact | runtime/rust/lana-runtime/src/store.rs:814-840 | A read at a retained revision answers the key's value in the fold of all batches up to it if and only if the revision is the current one, the key was written since the last full compaction, or it had no value then; otherwise it answers that there is none. |
| HistoryReads.GetAtWhole | runtime/rust/lana-runtime/src/store.rs:814-840 | For a journal that starts at revision 1 every retained revision is answered from the simple history. |
| HistoryReads.AnswersStand | runtime/rust/lana-runtime/src/store.rs:814-840 | While the journal starts at revision 1 no later operation changes what a read at a retained revision answers. |
| HistoryReads.CompactAnswers | runtime/rust/lana-runtime/src/store.rs:980-1018 | After a compaction that keeps `n` revisions and reports success, a read at a revision more than `n` before the current one answers `CompactedHistory` and every other read answers what it did; with `n` of 0 only the current revision is still answered. |
| HistoryReads.CompactionOnlyDrops | runtime/rust/lana-runtime/src/store.rs:980-1018 | A revision is answered after a compaction if and only if it was answered before and is among the last `n`: none comes back. |
| HistoryReads.AnswersReopen | runtime/rust/lana-runtime/src/store.rs:597-664 | Closing the store and opening it again changes no answer, but that values in a snapshot were encoded anew. |
| Transactions.StagedInOrder | runtime/rust/lana-runtime/src/store.rs:677-693 | Staged mutations stand in the order they were staged, and no file is touched. |
| Transactions.AppliedLast | runtime/rust/lana-runtime/src/store.rs:762-779 | After a batch a key holds what its last mutation says, and a key without one what it held. |
| Transactions.Transaction | runtime/rust/lana-runtime/src/store.rs:677-789 | Staging and committing a batch that can be committed makes it the next revision of the log, whole, and changes each key as its last mutation says and no other. |
| Transactions.Refusals | runtime/rust/lana-runtime/src/store.rs:672-735 | Empty keys, empty commits, commits over 256 MiB and operations on a closed handle are refused with their errors and change nothing. |
| Scan.PrefixContiguous | runtime/rust/lana-runtime/src/store.rs:913-938 | Between a prefix and a key that has it, every key has it. |
| Scan.PageExact | runtime/rust/lana-runtime/src/store.rs:913-938 | A page is the first `limit` of the keys with the prefix past the cursor: stopping at the first foreign key loses none. |
| Scan.FollowComplete | runtime/rust/lana-runtime/src/future_messages.rs:656-690 | Following the cursors with any limit of at least 1 reads every matching key, in order. |
| Scan.PagesEnumerate | runtime/rust/lana-runtime/src/future_messages.rs:656-690 | Over a fixed store that is each key with the prefix, once. |
| Scan.ScanPage | runtime/rust/lana-runtime/src/store.rs:913-938 | The scan loop returns exactly that page. |
| Store.Handle.Open | runtime/rust/lana-runtime/src/store.rs:597-664 | Opening takes exactly the step of the state machine, over files it updates in place. |
| Store.Handle.ReplayJournal | runtime/rust/lana-runtime/src/store.rs:418-587 | The replay loop leaves the handle in the state of the specification, or fails with it. |
| Store.Handle.Stage | runtime/rust/lana-runtime/src/store.rs:677-693 | Staging appends one mutation, or refuses an empty key or a closed handle. |
| Store.Handle.Commit | runtime/rust/lana-runtime/src/store.rs:703-789 | Committing takes exactly the step of the state machine, for every way its writes can end. |
| Store.Handle.Snapshot | runtime/rust/lana-runtime/src/store.rs:940-978 | So does a snapshot: the loops decode every value, write the text and the header, and publish the file and the manifest. |
| Store.Handle.Compact | runtime/rust/lana-runtime/src/store.rs:980-1018 | A compaction takes exactly the step of the state machine; what it keeps readable is `HistoryReads.CompactAnswers`. |
| Store.Handle.GetAt | runtime/rust/lana-runtime/src/store.rs:814-840 | The backwards search over revisions answers what the specification of multi-version reads does. |
| Store.Handle.Close | runtime/rust/lana-runtime/src/store.rs:666-670 | Closing drops what is staged and leaves the files. |
| Store.ReadSnapshot | runtime/rust/lana-runtime/src/store.rs:370-412 | Reading a snapshot file passes exactly the checks of the specification. |
| Durable.BatchKeeps | runtime/rust/lana-runtime/src/store.rs:703-789 | One batch of a protocol joins the log whole or not at all, surely when the commit succeeds; a failed commit closes the handle. |
| Durable.ForeignStep | runtime/rust/lana-runtime/src/store.rs:677-1018 | Other users of the store, whatever they do with other keys and wherever they crash, leave the keys a protocol owns as they are. |
| Execution.KeyInjective | runtime/rust/lana-runtime/src/execution.rs:482-484 | A receipt key names one capability and one plan digest. |
| Execution.ExecuteKeeps | runtime/rust/lana-runtime/src/execution.rs:537-584 | An execution calls the transport at most once, only when its Pending receipt is durable and the key had none before. |
| Execution.RunKeeps | runtime/rust/lana-runtime/src/execution.rs:537-593 | Every run of executions, crashes and any other operations keeps that. |
| Execution.AtMostOnce | runtime/rust/lana-runtime/src/execution.rs:537-593 | Over every run from empty files, other users doing what they like with other keys, no two calls are for one receipt, and each was made at the revision that put its Pending receipt. |
| Execution.ReceiptRefuses | runtime/rust/lana-runtime/src/execution.rs:548-556 | A plan whose receipt is in the store, in any state, is refused and nothing changes. |
| Execution.ReceiptStays | runtime/rust/lana-runtime/src/execution.rs:537-593 | A receipt once committed stays through every later run. |
| Execution.CommitReceipt | runtime/rust/lana-runtime/src/execution.rs:586-593 | Staging and committing a receipt is one batch; any failure closes the handle. |
| Execution.Execute | runtime/rust/lana-runtime/src/execution.rs:537-584 | The operation on a handle and a transport takes exactly the step of the protocol, wherever the process dies in it; which requests are sent and what is answered are `ExecutionAnswers.Refused` and `Executed`. |
| ExecutionAnswers.Refused | runtime/rust/lana-runtime/src/execution.rs:537-556 | A request whose plan is not valid, whose authorization is not authorized or names another capability, digest or path, or whose receipt is held, leaves the world and the log as they were, and is answered with its error. |
| ExecutionAnswers.Executed | runtime/rust/lana-runtime/src/execution.rs:557-584 | Any other request first commits its Pending receipt. It is sent exactly when that commit reports success and the process is alive, once; the answer is the status of the reply, and the final receipt is the next commit. |
| ExecutionAnswers.StatusSettles | runtime/rust/lana-runtime/src/execution.rs:566-582 | The status is Succeeded exactly for a code of 200 to 299, Failed for any other code and Unknown exactly without a reply. |
| ExecutionAnswers.FinalHeld | runtime/rust/lana-runtime/src/execution.rs:566-584 | After both commits the store holds the final receipt with that status and code. |
| ExecutionAnswers.OnlyApproved | runtime/rust/lana-runtime/src/execution.rs:537-593 | Over every run from empty files each call was made by a request with a valid plan, authorized for that capability, digest and path, and no two calls are for one receipt. |
| Conditions.Evaluate | runtime/rust/lana-runtime/src/future_messages.rs:306-360 | A message is ready if and only if its time has come and its event and every comparison hold; the error is exactly a comparison of different kinds; otherwise the reason is the first that applies. |
| Conditions.CompareTable | runtime/rust/lana-runtime/src/future_messages.rs:279-304 | Values of one kind compare as the operator says (a table of the six operators by order), and values of different kinds are an error. |
| Conditions.DueIsRipe | runtime/rust/lana-runtime/src/future_messages.rs:306-360 | A message is due if and only if its time has come, its event is the one of the context and every captured value it names is there and compares as it asks. |
| Conditions.FindHolds | runtime/rust/lana-runtime/src/future_messages.rs:318-326 | A captured value is found if and only if the context holds it, and it is the first of that name. |
| InboxLog.KeyInjective | runtime/rust/lana-runtime/src/future_messages.rs:362-364 | A message key names one status and one id. |
| InboxLog.CreateEffect | runtime/rust/lana-runtime/src/future_messages.rs:548-559 | Creating files the record, with the text it is read back from, under its pending key and touches nothing else of the inbox. |
| InboxLog.MoveEffect | runtime/rust/lana-runtime/src/future_messages.rs:428-479 | A move files the record under the new status, removes it from the old one and touches nothing else. |
| InboxLog.AlwaysSettled | runtime/rust/lana-runtime/src/future_messages.rs:366-405 | At every revision, whatever is held is held under one status by the text of a record that names its key and can be stored. |
| InboxLog.OneStatus | runtime/rust/lana-runtime/src/future_messages.rs:366-377 | No id is ever under two status keys. |
| InboxLog.ReceiptsNameRevisions | runtime/rust/lana-runtime/src/future_messages.rs:450-479 | Each receipt names the revision that put the message under the status the receipt is for. |
| InboxLog.StepForward | runtime/rust/lana-runtime/src/future_messages.rs:705-749 | One revision moves a message only pending to ready, ready to acknowledged, or either to cancelled. |
| InboxLog.NeverBack | runtime/rust/lana-runtime/src/future_messages.rs:705-749 | Over any stretch of revisions a message only moves forwards. |
| InboxLog.ReleasedOnce | runtime/rust/lana-runtime/src/future_messages.rs:570-654 | At most one revision releases an id. |
| InboxRuns.CreateKeeps | runtime/rust/lana-runtime/src/future_messages.rs:481-561 | Creating keeps the log one that the inbox explains, wherever its commit stops. |
| InboxRuns.CreateAgain | runtime/rust/lana-runtime/src/future_messages.rs:522-534 | Creating again under an id that is held changes nothing. The same request gets the stored record and another a conflict, if and only if the record is readable; otherwise the answer is `Limit`. |
| InboxRuns.FromStored | runtime/rust/lana-runtime/src/future_messages.rs:366-405 | `find` and the validation answer the record that the log holds if and only if its payload is nested less than 128 deep, and `Limit` otherwise. |
| InboxRuns.UnreadableBlocks | runtime/rust/lana-runtime/src/future_messages.rs:366-377 | One pending message that is not readable is neither found nor moved, makes every `check` fail with `Limit`, and lets `create` accept no other message. |
| InboxRuns.DeepMessage | runtime/rust/lana-runtime/src/future_messages.rs:481-561 | A message that `create` accepted is found again if its payload is nested less than 128 deep; nested exactly 128 deep, which `snapshot` lets through, it is committed and blocks the inbox. |
| InboxRuns.TransitionKeeps | runtime/rust/lana-runtime/src/future_messages.rs:705-749 | So do acknowledging and cancelling. |
| InboxRuns.ReleaseKeeps | runtime/rust/lana-runtime/src/future_messages.rs:649-651 | However many of the prepared releases land, each receipt names its own commit. |
| InboxRuns.DueArePending | runtime/rust/lana-runtime/src/future_messages.rs:586-600 | The validation pass of a check yields pending messages that are read and due, each once; that it yields all of them is `InboxAnswers.DueComplete`. |
| InboxAnswers.DueComplete | runtime/rust/lana-runtime/src/future_messages.rs:586-600 | The pass reads every pending message, and each that is due is in its list. |
| InboxRuns.CheckKeeps | runtime/rust/lana-runtime/src/future_messages.rs:570-654 | A check keeps the log, even when it dies part-way through its releases. |
| InboxRuns.RunKeeps | runtime/rust/lana-runtime/src/future_messages.rs:481-749 | Every run of inbox and other operations keeps it. |
| InboxRuns.InboxSafety | runtime/rust/lana-runtime/src/future_messages.rs:481-749 | After any run from empty files, other users doing what they like with other keys, every message was always under at most one status, only moved forwards and was released at most once. |
| InboxAnswers.CheckReleases | runtime/rust/lana-runtime/src/future_messages.rs:570-654 | After a check that reports success every message that was pending and whose condition holds for the context and the time is ready, with a receipt that names its own revision; every other message is where it was; the ids answered are exactly those, in the order of their keys. |
| InboxAnswers.CheckStarts | runtime/rust/lana-runtime/src/future_messages.rs:570-648 | A check fails before it releases anything, and changes nothing, if the handle is closed or has staged data, more than 1024 messages are pending or one of them cannot be read or judged; otherwise only for a released record that is too long. |
| InboxAnswers.CheckErrors | runtime/rust/lana-runtime/src/future_messages.rs:570-600 | Which error such a check answers. |
| InboxAnswers.CreateExact | runtime/rust/lana-runtime/src/future_messages.rs:481-561 | A new id is accepted if and only if it is well formed, its record can be stored, every pending message can be read and fewer than 1024 are pending; otherwise nothing changes. |
| InboxAnswers.CreateFiles | runtime/rust/lana-runtime/src/future_messages.rs:536-561 | A created message is pending with the record that was answered, at the next revision, and no other message changed. |
| InboxAnswers.TransitionExact | runtime/rust/lana-runtime/src/future_messages.rs:705-749 | Acknowledging moves only a ready message and cancelling a pending or ready one; again it answers the record that is stored; any other is an invalid state. The moved record carries its receipt, leaves its old status and touches no other message. |
| InboxAnswers.FitsExact | runtime/rust/lana-runtime/src/future_messages.rs:530-534 | A record can be stored if and only if it encodes to at most 131072 bytes. |
| InboxHandle.CommitRecord | runtime/rust/lana-runtime/src/future_messages.rs:428-448 | The put, the delete and the commit on a handle are one batch; any failure closes the handle. |
| InboxHandle.FindStatus | runtime/rust/lana-runtime/src/future_messages.rs:366-377 | The loop over the four statuses finds the only one that holds the id, or the first error: a value that is not read, or a second one. |
| InboxHandle.DecodePage | runtime/rust/lana-runtime/src/store.rs:922-936 | Decoding a page of the scan stops at its first value that is not read. |
| InboxHandle.CreateMessage | runtime/rust/lana-runtime/src/future_messages.rs:481-561 | Creating on a handle takes exactly the step of the protocol. |
| InboxHandle.Transition | runtime/rust/lana-runtime/src/future_messages.rs:705-749 | So do acknowledging and cancelling. |
| InboxHandle.FindDue | runtime/rust/lana-runtime/src/future_messages.rs:586-600 | The loop over pending messages finds the due ones, or the first error, as the specification does; that those are exactly the ripe ones is `InboxAnswers.DueExact`. |
| InboxAnswers.DueExact | runtime/rust/lana-runtime/src/future_messages.rs:586-600 | What a check is about to release is exactly what the log has pending and ripe. |
| InboxHandle.PrepareAll | runtime/rust/lana-runtime/src/future_messages.rs:622-648 | Every released record is built and measured before the first commit. |
| InboxHandle.ReleaseAll | runtime/rust/lana-runtime/src/future_messages.rs:649-651 | The commit loop of a check takes the release steps in order and stops at the first failure. |
| InboxHandle.Check | runtime/rust/lana-runtime/src/future_messages.rs:570-654 | A check on a handle takes exactly the step of the protocol; what it releases is `InboxAnswers.CheckReleases`. |
| InboxJson.ConditionDepth | runtime/rust/lana-runtime/src/future_messages.rs:148-226 | A condition that is accepted is nested at most three deep. |
| InboxJson.SnapshotTaken | runtime/rust/lana-runtime/src/future_messages.rs:138-146 | What `snapshot` returns is in order, holds no large integer and is nested as deep as what it was given, at most 128. |
| InboxJson.SnapshotOfDeep | runtime/rust/lana-runtime/src/future_messages.rs:138-146 | It takes a list nested exactly 128 deep as it is. |
| InboxRecord.RecordInjective | runtime/rust/lana-runtime/src/future_messages.rs:499-519 | No two records have the same JSON. |
| InboxRecord.RecordTaken | runtime/rust/lana-runtime/src/future_messages.rs:499-519 | The JSON of a record is nested deeper than 128 if and only if its payload is nested 128 deep. |
| InboxRecord.RecordsLawful | runtime/rust/lana-runtime/src/future_messages.rs:481-749 | What the inbox theorems assume of records and their text holds of the JSON that the inbox stores. |
| BatchUpdate.ApplyChange | runtime/rust/lana-runtime/src/host_calls.rs:1152-1166 | One turn of the change loop, through the position map and the retained flags, is the simple add, correct or delete. |
| BatchUpdate.ApplyChanges | runtime/rust/lana-runtime/src/host_calls.rs:1145-1180 | The whole loop gives the ordered rows of the changes made one at a time, or the same conflict or limit. |
| BatchUpdate.RetainedSize | runtime/rust/lana-runtime/src/host_calls.rs:1167-1169 | The size of the position map is the number of rows kept, so the limit is on the rows. |
| BatchUpdate.UpdateAllDistinct | runtime/rust/lana-runtime/src/host_calls.rs:1145-1180 | A batch leaves no id twice. |
| BatchUpdate.UpdateAllRows | runtime/rust/lana-runtime/src/host_calls.rs:983-1092 | The row of an id after a batch is the one its only change gives it, or the old one. |
| BatchUpdate.UpdateAllOrder | runtime/rust/lana-runtime/src/host_calls.rs:1145-1180 | Rows keep their order, without those deleted, and added rows come last in the order of the changes. |
| BatchUpdate.UpdateAllAccepts | runtime/rust/lana-runtime/src/host_calls.rs:1152-1166 | Changes of different rows are accepted if and only if each adds an id that is new or corrects or deletes one that is there; otherwise they conflict. |
| BatchUpdate.BatchMade | runtime/rust/lana-runtime/src/host_calls.rs:1145-1180 | A batch of changes is accepted if and only if its changes fit and leave at most 10000 rows; then they are all made and nothing else is. |
| DatasetKeys.KeyInjective | runtime/rust/lana-runtime/src/host_calls.rs:1038-1045 | A dataset key names one source, query, snapshot or batch. |
| ViewLog.SourceEffect | runtime/rust/lana-runtime/src/host_calls.rs:720-818 | Registering a source leaves every saved result a fresh evaluation. |
| ViewLog.QueryEffect | runtime/rust/lana-runtime/src/host_calls.rs:820-952 | So does registering a query, or registering it again for another version. |
| ViewLog.RefreshAll | runtime/rust/lana-runtime/src/host_calls.rs:1229-1272 | Every scanned query was loaded; those that read the changed source, and only those, were evaluated again. |
| ViewLog.AppliedAt | runtime/rust/lana-runtime/src/host_calls.rs:1311-1335 | What a committed batch leaves at every dataset key: the source, the refreshed queries and results, the receipt, and all else as it was. |
| ViewLog.ApplyEffect | runtime/rust/lana-runtime/src/host_calls.rs:1229-1345 | A committed batch leaves every saved result a fresh evaluation on the changed rows. |
| ViewRuns.CarryKeeps | runtime/rust/lana-runtime/src/host_calls.rs:720-1345 | A dataset operation keeps that whether its commit lands or not. |
| ViewRuns.RunKeeps | runtime/rust/lana-runtime/src/host_calls.rs:720-1345 | Every run of dataset operations, new processes with other programs, crashes and other operations keeps it. |
| ViewRuns.ViewConsistency | runtime/rust/lana-runtime/src/host_calls.rs:68-132 | After any run from empty files the record of every query loads, and its saved result is what the program with its digest, run afresh on the current rows of its sources, gives. |
| ViewRuns.NothingStale | runtime/rust/lana-runtime/src/host_calls.rs:1247-1253 | When a batch commits, every query that reads the source was bound, unchanged, to the running program, and moves to the new revision. |
| ViewRuns.ReceiptStays | runtime/rust/lana-runtime/src/host_calls.rs:1041-1092 | No operation ever changes a batch receipt. |
| ViewRuns.AppliedOnce | runtime/rust/lana-runtime/src/host_calls.rs:1041-1092 | A batch sent again, at any later time, answers the revision it was applied at and changes nothing. |
| ViewAnswers.BatchTakesItsTurn | runtime/rust/lana-runtime/src/host_calls.rs:1093-1345 | A batch without a receipt that commits expected the number of revisions before it, is the next revision, and leaves the rows of its source with exactly its changes made; with any other expected revision it leaves world and log as they were and is not accepted. |
| ViewAnswers.BatchConflicts | runtime/rust/lana-runtime/src/host_calls.rs:1093-1180 | A stale batch and one with a change that does not fit are conflicts, too many rows are over the limit and a source that is not registered is not found. |
| ViewAnswers.BatchRepeated | runtime/rust/lana-runtime/src/host_calls.rs:1041-1092 | A batch with a receipt changes nothing: the same changes are answered with the receipt's revision and others with a conflict. |
| ViewAnswers.ApplyExact | runtime/rust/lana-runtime/src/host_calls.rs:954-1305 | A batch is decided to be written if and only if its request is well formed, its turn has come, its changes fit and every dependent query can be evaluated and stored. |
| ViewAnswers.RefreshExact | runtime/rust/lana-runtime/src/host_calls.rs:1229-1290 | Refreshing succeeds if and only if every registered query loads and each dependent is bound and evaluates. |
| ViewAnswers.SourceAnswers | runtime/rust/lana-runtime/src/host_calls.rs:720-818 | A source is registered once, without rows, at the next revision; registering it again answers the current revision and changes nothing. |
| ViewAnswers.InputsRead | runtime/rust/lana-runtime/src/host_calls.rs:235-300 | The inputs of a plan are the rows of its sources in the order it names them, and every one must be registered. |
| ViewAnswers.QueryAgain | runtime/rust/lana-runtime/src/host_calls.rs:820-900 | A query registered again for the same version is bound to the running program and changes nothing, or is a conflict if its plan, version or sources differ. |
| ViewAnswers.QueryAnew | runtime/rust/lana-runtime/src/host_calls.rs:870-952 | Registered afresh or for another version, a query is stored with its result on the current rows, at the next revision, and bound; nothing else is written. |
| ViewHost.ReadInputs | runtime/rust/lana-runtime/src/host_calls.rs:235-300 | The loop over a query's sources reads each, or its replacement, or stops with the first error. |
| ViewHost.DatasetHost.RegisterSource | runtime/rust/lana-runtime/src/host_calls.rs:720-818 | The operation on the host's store takes exactly its step. |
| ViewHost.DatasetHost.RegisterQuery | runtime/rust/lana-runtime/src/host_calls.rs:820-952 | So does registering or rebinding a query, bound queries included. |
| ViewHost.DatasetHost.RefreshQueries | runtime/rust/lana-runtime/src/host_calls.rs:1229-1290 | The loop over registered queries evaluates exactly the dependents, or stops with the first error. |
| ViewHost.DatasetHost.PlanBatch | runtime/rust/lana-runtime/src/host_calls.rs:954-1305 | Before anything is written a batch is answered, or its rows and results are found, as the specification says; when that is the one and when the other is `ViewAnswers.ApplyExact`. |
| ViewHost.DatasetHost.StageItems | runtime/rust/lana-runtime/src/host_calls.rs:1311-1335 | The records are put in order; when one does not encode, those put before it are discarded. |
| ViewHost.DatasetHost.ApplyBatch | runtime/rust/lana-runtime/src/host_calls.rs:954-1351 | Applying a batch takes exactly its step, bound queries included; what the step does is `ViewAnswers.BatchTakesItsTurn` and `BatchRepeated`. |
| Rules.DefiniteStands | runtime/rust/lana-runtime/src/rules.rs:268-292 | A definite answer of a rule stands however the missing features turn out. |
| Rules.OperatorsAnswer | runtime/rust/lana-runtime/src/rules.rs:244-266 | Which of the six operators answer true of a smaller, an equal and a greater number. |
| Rules.AtomAnswers | runtime/rust/lana-runtime/src/rules.rs:244-266 | What an atom answers of a missing value, of numbers and of other values, and that a negated atom answers the opposite. |
| Rules.RuleMeans | runtime/rust/lana-runtime/src/rules.rs:268-292 | When all its atoms are known, a rule is true if and only if all the atoms of some clause are. |
| Rules.PointsExact | runtime/rust/lana-runtime/src/rules.rs:401-446 | Some value of a feature satisfies constraints on it if and only if one of the tested points does. |
| Rules.PruningSound | runtime/rust/lana-runtime/src/rules.rs:401-446 | No clause that some input satisfies is rejected as contradictory. |
| Rules.FindsContradiction | runtime/rust/lana-runtime/src/rules.rs:401-446 | The pruning loops reject exactly the clauses of the specification. |
| RuleLanguage.PartitionInLanguage | runtime/rust/lana-runtime/src/rules.rs:598-635 | What the mask loop makes of a pick is a rule of the language with as many atoms. |
| RuleLanguage.LanguageIsPartitioned | runtime/rust/lana-runtime/src/rules.rs:598-635 | Every rule of the language is such a partition of some ascending pick. |
| RuleLanguage.Partitions | runtime/rust/lana-runtime/src/rules.rs:598-655 | The mask loop finds exactly the partitions of a pick, and orders them by their text. |
| RuleLanguage.OnePick | runtime/rust/lana-runtime/src/rules.rs:598-655 | A rule of the language is made of one ascending pick only, so no rule is tried twice. |
| RuleSearch.MistakesCounted | runtime/rust/lana-runtime/src/rules.rs:447-510 | Rules with one truth vector make equally many mistakes, so passing over a repeated vector loses nothing. |
| RuleSearch.MistakesAre | runtime/rust/lana-runtime/src/rules.rs:447-492 | The mistakes of a rule are the rows it does not answer with their target, one for each. |
| RuleSearch.NotPruned | runtime/rust/lana-runtime/src/rules.rs:401-446 | No eligible rule is rejected unscored. |
| RuleSearch.Search.Evaluate | runtime/rust/lana-runtime/src/rules.rs:268-292 | The loop over clauses answers the three-valued meaning of the rule and spends one visit for each atom it reads, or finds that its visits run out. |
| RuleSearch.Search.Score | runtime/rust/lana-runtime/src/rules.rs:447-492 | The loop over rows gives the truth vector and the mistakes and spends the visits of all rows, or finds that a row misses a feature, or that the visits run out before the last. |
| RuleSearch.Search.Candidate | runtime/rust/lana-runtime/src/rules.rs:384-510 | Trying a rule keeps the best one at least as good as every eligible rule tried, and counts its candidate and its visits. |
| RuleSearch.Search.Combinations | runtime/rust/lana-runtime/src/rules.rs:296-323 | The recursion tries every partition of every pick of its size, in order, unless it finds an exact rule or a limit is reached. |
| RuleSearch.Search.Totals | runtime/rust/lana-runtime/src/rules.rs:597-661 | The loop over sizes tries the whole language, or all smaller rules when it stops at an exact one; it stops at a limit only when the next rule would go beyond it. |
| RuleLearning.EveryRuleStands | runtime/rust/lana-runtime/src/rules.rs:598-635 | Every rule of one or two clauses over the atoms, in whatever order and with whatever repetition, means the same as one of the language that is no longer. |
| RuleLearning.Learn | runtime/rust/lana-runtime/src/rules.rs:513-662 | A rule found exact answers every row right and no admissible rule with fewer atoms does; an exhausted search keeps a rule with the fewest mistakes of all admissible rules, and of those one with the fewest atoms. A search reports a limit only when the next rule of its order goes beyond it, and then returns no rule. Admissible: one or two clauses of at most three atoms in all, in any order, each clause satisfiable, no training feature missing. |
| TreeSplits.NumbersExact | runtime/rust/lana-runtime/src/trees.rs:305-331 | The numbers of a feature are those of its rows, ascending and each once. |
| TreeSplits.CandidatesExact | runtime/rust/lana-runtime/src/trees.rs:305-340 | The constants tried are exactly these: for numbers the midpoint of each two adjacent ones that has one strictly between, for flags and texts the values of the rows. |
| TreeSplits.CandidatesComplete | runtime/rust/lana-runtime/src/trees.rs:305-340 | For every constant that can divide the rows, tried or not, one that is tried divides them the same way and gains the same, with missing values on either side. |
| TreeSplits.OthersDivideNothing | runtime/rust/lana-runtime/src/trees.rs:305-331 | A number that cannot has all numbers of the rows on one side, or no double lies between the two it would separate. |
| TreeSplits.GainMeans | runtime/rust/lana-runtime/src/trees.rs:403-416 | A gain is the score of the rows less that of the two sides, weighed by their size unless boosted, and each side has at least min_leaf rows. |
| Trees.MakeLeaf | runtime/rust/lana-runtime/src/trees.rs:278-303 | A leaf counts its rows and its labels. |
| Trees.Divide | runtime/rust/lana-runtime/src/trees.rs:386-400 | The loop over rows divides them as the split says, in order. |
| Trees.Builder.Consider | runtime/rust/lana-runtime/src/trees.rs:377-430 | One split is weighed: it becomes the best if and only if its gain is positive and greater than the best so far, and otherwise the best stays. |
| Trees.Builder.FindBest | runtime/rust/lana-runtime/src/trees.rs:366-436 | The split kept is the first with the greatest positive gain over all constants that divide the rows by a feature the node tries, whether in the list or not; none is kept only if none gains. |
| Trees.AllConsidered | runtime/rust/lana-runtime/src/trees.rs:366-436 | Over every feature the node tries, no constant and no side for missing values gains more than the split kept, and of the greatest it is the first in the order of features, constants and sides. |
| Trees.Builder.Build | runtime/rust/lana-runtime/src/trees.rs:366-452 | Growing appends the preorder of a tree whose every split is such a first of greatest gain and which stops where it must; it fails only for an objective without a value or at the node limit of 100000. |
| TreeReads.Validate | runtime/rust/lana-runtime/src/trees.rs:554-653 | The walk accepts exactly the arrays that are one tree: good nodes, and one earlier parent for every node but the first. |
| TreeReads.Traverse | runtime/rust/lana-runtime/src/trees.rs:658-714 | The loop sends a row where following the splits does, with a path of ever later nodes, and never runs out of turns. |
| TreeReads.ValidatedAnswers | runtime/rust/lana-runtime/src/trees.rs:658-714 | A validated tree answers every row whose features have their kinds. |
| TreeTheorems.WalkDescends | runtime/rust/lana-runtime/src/trees.rs:658-714 | Traversal of the array is descent of the tree it lays out. |
| TreeTheorems.LeafIsDescending | runtime/rust/lana-runtime/src/trees.rs:278-303 | Every leaf is made of exactly the rows that descend to it. |
| TreeTheorems.CountsAddUp | runtime/rust/lana-runtime/src/trees.rs:278-303 | The counts of the leaves add up to the sample. |
| TreeTheorems.CountBound | runtime/rust/lana-runtime/src/trees.rs:366-452 | A tree has fewer than 2^(max_depth + 1) nodes. |
| TreeTheorems.LeavesBig | runtime/rust/lana-runtime/src/trees.rs:403-405 | Below the root no leaf has fewer than min_leaf rows. |
| TreeTheorems.FlattenParents | runtime/rust/lana-runtime/src/trees.rs:366-452 | In a layout each node but the root has exactly one parent. |
| TreeTheorems.Fit | runtime/rust/lana-runtime/src/trees.rs:455-478 | What is fitted passes the validator, sends every training row to a leaf that counts exactly the rows sent to it, label by label, and keeps the bounds of the settings. |
| DagCodec.SaveNode | runtime/rust/lana-runtime/src/dataset_source_codec.rs:62-111 | Every cell the root reaches is saved once, after its inputs; it fails only for a reachable cycle, a reachable differentiated cell, or too many cells. |
| DagCodec.SaveRoots | runtime/rust/lana-runtime/src/dataset_source_codec.rs:135-182 | Saving the derivations of a value and its parts, one after the other into one list, saves each root at its position and nothing that no root reaches. |
| DagCodec.SavedReach | runtime/rust/lana-runtime/src/dataset_source_codec.rs:62-111 | What is saved is closed under inputs and has no cycle. |
| DagCodec.CycleRefused | runtime/rust/lana-runtime/src/dataset_source_codec.rs:70-76 | A root that reaches a cycle is never saved. |
| DagCodec.Rebuild | runtime/rust/lana-runtime/src/dataset_source_codec.rs:453-506 | The rebuild accepts exactly the lists whose nodes are well formed and come after their inputs. |
| DagCodec.RoundTrip | runtime/rust/lana-runtime/src/dataset_source_codec.rs:405-506 | What is saved for the derivations of a row passes the decoder's checks and is built into the original graph up to addresses, sharing included, with each root at its position; saving fails only for a cycle, a differentiated cell or too many cells. |
| DagCodec.MarkUsed | runtime/rust/lana-runtime/src/dataset_source_codec.rs:408-452 | The walk from the evidence marks exactly the nodes it reaches, or finds a position that is not there. |
| DagCodec.SavedIsUsed | runtime/rust/lana-runtime/src/dataset_source_codec.rs:449-452 | From the positions of the roots exactly the saved nodes are used, so the decoder does not refuse the list. |
| DagIdentity.Visit | runtime/rust/lana-runtime/src/dataset_identity.rs:188-282 | Each cell below the root gets one node, after those of its inputs, with the identities and rows of its inputs; the visit fails only in a heap with a cycle or with as many cells as its limit. |
| DagIdentity.PathsDistinct | runtime/rust/lana-runtime/src/dataset_identity.rs:116-118 | Nodes of different cells have different paths, unless the hashes of two visited places collide. |
| DagPaths.GrowChild | runtime/rust/lana-runtime/src/dataset_identity.rs:116-118 | A visit gives an input a new path, or the one that the same input has, unless paths collide. |
| DagRun.VisitRow | runtime/rust/lana-runtime/src/dataset_identity.rs:333-354 | A row and its cells, in the order of their names, are saved under the identities of their nodes. |
| DagRun.FromRun | runtime/rust/lana-runtime/src/dataset_identity.rs:286-404 | A run is refused as the code says, or gives distinct rows and their cells the identities of their nodes, lists the exclusions of its decisions, and gives every node the path of its place. |
| DagIdentity.ValidateNodes | runtime/rust/lana-runtime/src/dataset_snapshot.rs:507-580 | The node loop accepts exactly the lists it specifies (known earlier inputs, expected input rows, distinct identities), and gives each node its position. |
| DagIdentity.EvidenceValidates | runtime/rust/lana-runtime/src/dataset_snapshot.rs:507-580 | The validator accepts the nodes of a run if and only if their identities are distinct. They are unless a hash collides, of two places the run visited or of two nodes; with injective hashes evidence validates outright. |
| DagIdentity.ContributingSources | runtime/rust/lana-runtime/src/dataset_identity.rs:164-185 | The stack loop reads the source rows below a derivation in order, once for each way to reach them. |
| DagIdentity.SourceNodes | runtime/rust/lana-runtime/src/dataset_snapshot.rs:273-294 | The stack loop over saved nodes reads the source rows below a node in order, if and only if there are some, all well formed, and the budget covers the walk. |
| DagIdentity.SourcesAgree | runtime/rust/lana-runtime/src/dataset_snapshot.rs:273-294 | The sources read from the saved nodes are those of the derivation itself, in the same order. |
| Exclusions.ListExclusions | runtime/rust/lana-runtime/src/dataset_identity.rs:356-395 | The decision loop lists, for each row left out, one exclusion for each of its source rows, in order, with the nodes of the row and of the predicate that decided it. |
| Exclusions.ValidateExclusions | runtime/rust/lana-runtime/src/dataset_snapshot.rs:630-678 | The exclusion loop accepts exactly the lists that are made of groups the saved nodes bear out, within the budget. |
| Exclusions.OneWay | runtime/rust/lana-runtime/src/dataset_snapshot.rs:660-677 | A list can be cut into such groups in at most one way. |
| Exclusions.ExclusionsValidate | runtime/rust/lana-runtime/src/dataset_snapshot.rs:630-678 | What a run lists is accepted if and only if each decision says what its operation must and reading the sources stays within the budget. |
| RowDecisions.DecisionsOfRow | runtime/rust/lana-runtime/src/dataset_snapshot.rs:236-271 | The walk lists exactly the filters that the row reaches, in the order of their nodes; it fails if and only if its budget is no more than the inputs of all the row reaches, or one of those filters did not pass. |
| RowDecisions.ReachAgrees | runtime/rust/lana-runtime/src/dataset_snapshot.rs:236-271 | What a saved node reaches is what its derivation reaches, filters included. |
| SourceLabels.LabelSplits | runtime/rust/lana-runtime/src/dataset_identity.rs:128-162 | The label of a source and a row reads back if and only if both are names of 1 to 128 bytes. |
| SourceLabels.SplitOnly | runtime/rust/lana-runtime/src/dataset_identity.rs:128-162 | Any label that reads is, byte for byte, the label of what it reads as. |
| Lines.BreaksBefore | runtime/rust/lana-runtime/src/document_extract.rs:27-47 | The loop counts the line breaks that end at or before a place. |
| Lines.LineBreaks | runtime/rust/lana-runtime/src/document_extract.rs:148-162 | A line has one break, at its end, unless it is the last. |
| Lines.NextCut | runtime/rust/lana-runtime/src/document_extract.rs:60-70 | From a character boundary there is always a place to cut within five bytes, so a split at the cursor cannot happen. |
| Documents.FindSplit | runtime/rust/lana-runtime/src/document_extract.rs:60-70 | The split is the last place within reach that cuts no character and no CR LF. |
| Documents.Emit | runtime/rust/lana-runtime/src/document_extract.rs:49-87 | A block is emitted as exact chunks that follow each other and cover it, each as long as a cut allows; it fails only when the chunks are more than 100000. |
| Documents.CloseBlock | runtime/rust/lana-runtime/src/document_extract.rs:166-232 | Emitting the open block leaves covered exactly what should be, with the same limit. |
| Documents.ReadLines | runtime/rust/lana-runtime/src/document_extract.rs:143-232 | The line loop keeps that every byte done is covered unless it is on a blank line outside a fence; it fails only for too many chunks. |
| Documents.Extract | runtime/rust/lana-runtime/src/document_extract.rs:116-237 | The chunks are ordered, disjoint and exact (bytes, characters, line breaks, line numbers, headings, at most 4096 bytes), each as long as its block and the cuts allow, and cover exactly the bytes not on a blank line outside a fence. Text is refused exactly for its format, a NUL or bytes that are not UTF-8, 16 MiB, or more than 100000 chunks. |
| Documents.OneDivision | runtime/rust/lana-runtime/src/document_extract.rs:116-237 | There is only one such division of a document. |
| Documents.FullIsTooMany | runtime/rust/lana-runtime/src/document_extract.rs:49-87 | When 100000 chunks are not enough, every division has more. |
| Lines.FenceExact | runtime/rust/lana-runtime/src/document_extract.rs:89-101 | A line opens a fence if and only if it is at most three spaces, three or more of one marker, and anything after them. |
| Lines.CloseExact | runtime/rust/lana-runtime/src/document_extract.rs:103-114 | A line closes a fence if and only if it is at most three spaces, at least as many of its markers and only spaces and tabs. |
| Lines.HeadingExact | runtime/rust/lana-runtime/src/document_extract.rs:177-191 | A heading is one to six hashes, a space and its trimmed text. |
| Headings.PathStands | runtime/rust/lana-runtime/src/document_extract.rs:192-212 | The path of a byte is the texts of the headings at or before its line that no heading of the same or a higher rank follows, in their order; each ranks below the one before it. |
| Headings.FenceStands | runtime/rust/lana-runtime/src/document_extract.rs:158-176 | A fence is open before a line if and only if a line before it opened it and none since closes it. |
| Headings.InsideFence | runtime/rust/lana-runtime/src/document_extract.rs:158-176 | So a line is inside a fence, its closing line included, if and only if such a line stands before it. |
| Csv.FieldRead | runtime/rust/lana-runtime/src/data.rs:565-598 | A written field reads back, its bytes turned to characters. |
| Csv.RoundTrip | runtime/rust/lana-runtime/src/data.rs:458-518 | Every table with a column reads back with the same records, and with the same fields if and only if they are all ASCII. |
| Csv.SeparatorBytes | runtime/rust/lana-runtime/src/data.rs:458-518 | Two ordinary fields are written with byte 44 between them and bytes 13 and 10 at the end, and read from there. |
| Csv.QuotedBytes | runtime/rust/lana-runtime/src/data.rs:565-598 | A field of a comma, a quote, a CR or an LF is written between two bytes 34, the quote twice, and read back. |
| Csv.LastRecordKept | runtime/rust/lana-runtime/src/data.rs:504-510 | A last record without a line break is read if and only if its last field is not empty; otherwise it is lost. |
| Csv.TrailingComma | runtime/rust/lana-runtime/src/data.rs:504-510 | So the text of one letter and a comma reads as no records. |
| Csv.UnclosedAccepted | runtime/rust/lana-runtime/src/data.rs:483-485 | A table whose last record ends in a quoted field that is never closed is refused if and only if that field holds something and does not end with a quote. Otherwise the record is kept, with the field as if it had been closed. |
| Csv.UnclosedQuote | runtime/rust/lana-runtime/src/data.rs:483-485 | So an unclosed field that ends with a doubled quote is accepted. |
| Csv.OpenAtEnd | runtime/rust/lana-runtime/src/data.rs:483-485 | A text that ends with a comma and a quote has one more field, which is empty. |
| Csv.CsvRecords | runtime/rust/lana-runtime/src/data.rs:458-518 | The record loop returns the records of the specification, or its error. |
| Csv.WriteScalar | runtime/rust/lana-runtime/src/data.rs:565-598 | The loop over characters writes the field, quoted when it must be. |
| Csv.CsvWrite | runtime/rust/lana-runtime/src/data.rs:601-662 | Writing gives the text of the header and the values, even of rows without entries, or refuses rows whose keys differ. |
| Csv.CsvRead | runtime/rust/lana-runtime/src/data.rs:521-563 | Reading names the fields of each record by the first one, and refuses exactly bad headers and ragged records. |
| Csv.WriteThenRead | runtime/rust/lana-runtime/src/data.rs:521-662 | ASCII rows with the same good keys, at least one, come back as they were written. |
| JsonText.StringRead | runtime/rust/lana-runtime/src/data.rs:59-144 | Well-formed text without NUL, written as a JSON string, reads back as itself, whatever follows it. |
| JsonText.ReadStringOk | runtime/rust/lana-runtime/src/data.rs:50-57 | What is read as a string is well-formed text without NUL, through any escapes. |
| JsonText.NumberBefore | runtime/rust/lana-runtime/src/codec.rs:300-341 | A number is scanned to the same end alone and before a delimiter. |
| Json.ValueRead | runtime/rust/lana-runtime/src/codec.rs:218-295 | Every value in order reads back from its text, with what follows untouched. |
| Json.RoundTrip | runtime/rust/lana-runtime/src/codec.rs:359-370 | Every value of well-formed strings that encodes decodes to itself with its map keys in order, and encodes to the same bytes again. |
| Json.ParsedGood | runtime/rust/lana-runtime/src/codec.rs:218-295 | What is read has well-formed strings without NUL and no key twice in a map. |
| Json.EncodedNoNul | runtime/rust/lana-runtime/src/codec.rs:72-75 | Encoded text holds no NUL, as the journal asks of staged data. |
| JsonCodec.AppendString | runtime/rust/lana-runtime/src/codec.rs:72-98 | The loop over characters appends the quoted string, or refuses a NUL. |
| JsonCodec.EncodeValue | runtime/rust/lana-runtime/src/codec.rs:100-169 | The appending encoder, which sorts each map before it encodes its values, gives the text or the first fault of the specification. |
| JsonCodec.Parser.ParseString | runtime/rust/lana-runtime/src/data.rs:59-144 | The offset loop reads the string of the specification, or fails with it. |
| JsonCodec.Parser.ParseValue | runtime/rust/lana-runtime/src/codec.rs:218-295 | So does the parser of values, with its loops over items and entries. |
| JsonCodec.DecodeDocument | runtime/rust/lana-runtime/src/codec.rs:359-370 | Decoding a document accepts one value and white space after it. |
| JsonData.DataRead | runtime/rust/lana-runtime/src/data.rs:156-249 | Reading the text of a value in order, with what follows untouched: `Limit` if it is nested deeper than 128, and otherwise the value with each integer above 2^53 that prints without an exponent turned to text. |
| JsonReader.ReadOne | runtime/rust/lana-runtime/src/data.rs:156-249 | The parser of `data.rs`, with its loops over items and entries, reads the value of the specification or fails with it. |
| JsonReader.ReadDigits | runtime/rust/lana-runtime/src/data.rs:287-339 | It refuses a plus sign and leading zeros, and keeps a large integer as text. |
| JsonReader.ParseData | runtime/rust/lana-runtime/src/data.rs:342-360 | Parsing accepts one value and white space after it. |
| JsonPut.Puts | runtime/rust/lana-runtime/src/codec.rs:100-169 | A value is put if and only if it is nested at most 256 deep. |
| JsonPut.PutGet | runtime/rust/lana-runtime/src/store.rs:806-812 | What is got of a value that was put: `Limit` if it is nested deeper than 128, and otherwise the value in order with its large integers as text. |
| JsonPut.PutGetSame | runtime/rust/lana-runtime/src/store.rs:806-812 | A value that was put is got again, but for the order of its maps, if and only if it is nested at most 128 deep and no number in it prints as a large integer. |
| JsonPut.GetPutSettles | runtime/rust/lana-runtime/src/store.rs:177-180 | What is got, put and got again stays as it is, so decoding and encoding is idempotent on stored text. |
| JsonPut.LargeIntegerIsText | runtime/rust/lana-runtime/src/data.rs:245-284 | The number 10^16 is put and got as a string. |
| JsonPut.DeepIsLost | runtime/rust/lana-runtime/src/data.rs:161-163 | A list nested more than 128 and at most 256 deep is put and committed, and never got. |
| JsonStore.FormWritten | runtime/rust/lana-runtime/src/store.rs:946-951 | What a snapshot makes of one stored value. |
| JsonStore.SnapshotLoads | runtime/rust/lana-runtime/src/store.rs:398-409 | The text of a snapshot of such values loads to the index it was made of, if they fit one heap. |
| JsonStore.JsonFaithful | runtime/rust/lana-runtime/src/store.rs:177-180 | What the recovery theorems assume of the value codec holds of the JSON codec, its two decoders and whatever fits their heaps. |
| JsonRuns.LongStringsLoseStore | runtime/rust/lana-runtime/src/store.rs:387 | So two strings of 150 MiB, committed and then snapshotted or compacted, lose the store. |
| JsonRuns.DeepValueStopsSnapshots | runtime/rust/lana-runtime/src/store.rs:946-951 | While a value nested deeper than 128 is in the store, every snapshot and every full compaction fails. |
| JsonEscapes.WriteTable | runtime/rust/lana-runtime/src/codec.rs:72-98 | What is written for each byte of a string, as literal text: the short escapes, four digits for other control characters, the byte itself for the rest (section 7 of RFC 8259). |
| JsonEscapes.ReadTable | runtime/rust/lana-runtime/src/data.rs:70-98 | What each short escape is read as, and that every other letter but `u` is an error. |
| JsonEscapes.ReadUnicode | runtime/rust/lana-runtime/src/data.rs:98-130 | `u` and four hexadecimal digits of either case are read as the UTF-8 of that character, and NUL or a second half alone is an error. |
| JsonEscapes.ReadPair | runtime/rust/lana-runtime/src/data.rs:112-130 | Two halves of a pair are read as one character, and a first half before anything else is an error. |
| JsonGrammar.StringSound | runtime/rust/lana-runtime/src/data.rs:59-144 | Whatever is read as a string is pieces, each plain well-formed text or an escape, that spell it. |
| JsonGrammar.StringComplete | runtime/rust/lana-runtime/src/data.rs:59-144 | Every spelling of a string, however its pieces are cut and escaped, is read as what it spells. |
| JsonNumbers.NumberSound | runtime/rust/lana-runtime/src/codec.rs:300-341 | What is scanned as a number is an optional sign, digits, an optional fraction and an optional exponent, with a digit before or after the point. |
| JsonNumbers.NumberComplete | runtime/rust/lana-runtime/src/codec.rs:300-341 | Every such text before white space, a comma, a closing byte or the end is scanned whole. |
| JsonNumbers.StrictMeans | runtime/rust/lana-runtime/src/data.rs:321-333 | Of those `json_value` refuses exactly the ones with a plus sign or a zero before another digit. |
| JsonNumbers.LargeMeans | runtime/rust/lana-runtime/src/data.rs:253-285 | Digits, with a minus sign or without, are kept as text if and only if the number they write is above 9007199254740992. |
| JsonNumbers.SetAgain | runtime/rust/lana-runtime/src/data.rs:197-230 | A key of a map that comes again keeps its place and takes the later value. |
| JsonDocuments.ValueSound | runtime/rust/lana-runtime/src/codec.rs:218-295 | Whatever is read as a value is white space and a text that spells it, by a grammar of values, items and entries with distinct keys. |
| JsonDocuments.ValueComplete | runtime/rust/lana-runtime/src/codec.rs:218-295 | Every text that spells a value, behind any white space, is read as that value, with what follows untouched. |
| JsonDocuments.DocumentsRead | runtime/rust/lana-runtime/src/codec.rs:359-370 | `decode_document` answers a value if and only if the text is white space, a spelling of that value, and white space. |
| JsonDocuments.OneValue | runtime/rust/lana-runtime/src/codec.rs:359-370 | So a document spells at most one value. |
| JsonDataDocuments.DataSound | runtime/rust/lana-runtime/src/data.rs:156-249 | Whatever `json_value` reads is white space and a text that spells the value, at most 128 deep: JSON numbers, large integers as their text, and maps in which a later entry replaces an earlier one of its key. |
| JsonDataDocuments.DataComplete | runtime/rust/lana-runtime/src/data.rs:156-249 | Every text that spells a value so, behind any white space, is read as that value. |
| JsonDataDocuments.DataDocumentsRead | runtime/rust/lana-runtime/src/data.rs:342-360 | `json_parse` answers a value if and only if the text is white space, such a spelling of it, and white space. |
| JsonDataDocuments.OneDataValue | runtime/rust/lana-runtime/src/data.rs:342-360 | So a text spells at most one value there too. |

## Left out

- Files, locks, permissions, `fsync` and symbolic links: a journal is bytes, a manifest is replaced as a whole or not, and a commit fails cleanly or uncertainly.
- What a value costs on a heap: whether it fits is a predicate on the value, asked once it is read.
- The store's helpers for persistent state, `store_history`, and reads of one key at the current revision: easy members beside the ones here.
- SHA-256 and signatures: a parameter, with no assumption that it is injective.
- The list of messages still pending, with the reason for each, that a check answers beside the released ones: `Conditions.Evaluate` says which reason that is.
- Which of two errors `json_parse` gives a text that is malformed and nested too deep as well: it is the first that is met, as in the code, but no statement says which.
- The parsing of an inbox context, the bounds on provenance names, and the refusal of values with handles (`context`, `bounded_name` of a reference, `plain`). A stored inbox record that is none of the inbox's own answers `Corruption` whatever is wrong with it, and the clock is taken to give no integer above 2^53.
- The validation of a webhook plan (`valid_origin`, `valid_path`) and the private configuration files of `execution.rs`: a plan comes with a flag that says whether it is valid.
- The relationship bindings of dataset rows (`Encoder::bindings`, `bind`, `remember`): encoded rows are bytes that a batch carries as they are, and the bindings of a receipt are not part of it.
- The JSON text of webhook receipts and dataset records, maps and lists of strings: a function, assumed to be read back as it was written when it encodes.
- The text of a query's snapshot: it is its five identifying fields and the result of the plan.
- Reading a historical snapshot by revision (`dataset_snapshot`, `dataset_evidence`): it is a multi-version read followed by the load that is modelled.
- `constants` and `atoms` of `rules.rs`: the search is given its atoms, with constants of the kinds of their features.
- The list of rejected rules, its size limit, and the interpreter's work budget: a search that fails for these returns no rule.
- The version-one enumeration, learned-record sealing and the reshaping of versions.
- Floating point: a finite double is its rank among the finite doubles in `Rules` and `Trees`, with both zeros one rank; scores and gains of trees are reals, so rounding and overflow of a gain are not modelled.
- The random draws of a forest (each node is given the features it tries), boosting rounds, and prediction from several trees.
- The validator's checks of a model outside its node arrays.
- The evidence tree of a saved row beside its node list and the order of its roots, and canonical checks of the row's JSON text.
- The checks of `validate` on rows, cells and headers: each is a lookup of what the node list already settles. A cell or a predicate that is itself a row is taken to be below the row it is in or decided.
- The hashes behind paths and identities of derivations: functions, with no assumption that they are injective beyond what a statement says.
- The SHA-256 of a document, which `extract` reports beside its chunks.
- Numbers as CSV fields: a field is the text that it prints as.
- JSON numbers: printing through `%.17g` and reading are two functions, inverse by assumption; what the scanner takes for a number is modelled.
- JSON values that hold themselves, which the encoder refuses, and strings that are not UTF-8, which the runtime does not have: a value is a finite tree.
- `claims.rs`, policies, effects, the ledger, adapters, SQLite and the interpreter itself.
