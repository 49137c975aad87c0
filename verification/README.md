# Verified model of the kengram ingest pipeline, chunker, ranking and queues

The project models, in Dafny 4.11, the parts of kengram whose correctness is about whole runs or
unbounded inputs, and proves what they promise. `dafny verify dfyconfig.toml` checks all of it.

* Tailing: the session producer and the Telegram producer read append-only logs by byte offset
  (`LineReader`), group records into windows and publish them. `SessionProducer` and `SessionRuns` hold
  the bisection of rejected windows and exactly-once tailing; `TelegramWindows`, `TelegramProducer`,
  `TelegramSafety`, `TelegramWork`, `TelegramEndings`, `TelegramTexts`, `TelegramLiveness`,
  `TelegramOrder`, `TelegramRecords`, `TelegramFile`, `TelegramRuns` and `AttemptTable` hold the windows
  and their order, the write-ahead protocol, its crash safety, what its final windows have sent, what
  failures leave on record, and the bounded number of passes after which poison is quarantined.
* Receiving: `CanonicalJson` is the encoding payload hashes are taken of; `Adapter` is the idempotent
  database step; `Consumer` settles each message once, which is where its weight lies: that no source ref
  gets two thoughts follows from the contract of the gate.
* Chunking: `WordSpans` and `Chunker` are the sentence-aware sliding window.
* Ranking: `Metrics` is nDCG and reciprocal rank, `Search` rank fusion and the recency boost.
* Queues: `EmbedQueue` and `TagQueue` are the background drainers and the backfill.

Objects that change are classes whose methods are proved against functions of their state; the main
theorems are about those functions, over every input and every run. Durable writes are listed one by
one, so a crash is a prefix of the list. The outside world (summarizer, broker, clock, tagger,
embedder, parser) is a parameter that may behave in any way.

## Where the code does less than its documentation

* `validate_chunk_params` (crates/kengram-cli/src/chunk.rs:288) accepts parameters with which the
  chunker never returns; `Chunker.HaltsIffProgress` gives the exact condition.
* nDCG is said to lie in [0, 1]; that needs a ranking without repeats in its top k
  (`Metrics.RangeIffDistinct`).
* A session log line that is JSON `null` makes `parseSessionLine` throw outside any error handling
  (contrib/argus/bin/argus-session-nats-producer.js:346), and the file is never got past
  (`SessionRuns.PassAdvances`, `SessionRuns.BlockedForever`).
* A session publish whose acknowledgement is lost is repeated by the next pass
  (`SessionRuns.DeliveredTwiceIffAckLost`).
* The Telegram producer moves the offset past an invalid row before earlier rows are processed, so a
  later failure does not hold the batch (`TelegramRuns.HeldIffNoInvalidRow`).
* A source ref names a window by its first and last message id. Windows that share one, within a batch
  or with an earlier batch, are taken for one another, and all but the first count as published without
  being sent (`TelegramTexts.OwnTextsSentIff`, `TelegramRuns.RepeatedIdsHideARow`).
* An attempt counter is kept under the dedupe keys of a window, and every window that gets through drops
  the counter of its keys: a window that always fails is never quarantined if one before it has the same
  keys (`TelegramRuns.FileCompletesIff`).
* A session message whose body is JSON null stops the consumer run
  (`Consumer.MessageConsumer.RunOnce`).
* The comment at crates/kengram-mcp/src/drain.rs:269 has jobs dropped after five attempts regardless of
  the failure; only tagger errors consult the cap (`TagQueue.SurvivesIff`).
* Ages are cut to whole seconds, so the order after a recency boost can depend on the instant
  (`Search.OrderIgnoresClockIff`).
* The backfill claims the oldest jobs again and again: a batch of failing jobs ahead of one that can be
  embedded keeps it from being embedded (`EmbedQueue.Worker.EmbedBackfill`).

## Model

| member | source | states |
|---|---|---|
| TelegramSafety.WriteAheadSafety | contrib/argus/bin/argus-telegram-direct-nats-producer.js:1045-1150 | In any run of attempts at any windows, each with any outcome and cut off by a crash after any number of durable writes, all messages ever published for one source ref carry one payload hash, and once a source ref is durably published or quarantined no further message is published for it; every source ref on file as quarantined has its row in the poison file |
| TelegramSafety.ProcessLegal | contrib/argus/bin/argus-telegram-direct-nats-producer.js:1045-1150 | Every write `processWindow` makes is one the protocol allows in the state left by the writes before it: publish only what is prepared, prepare only what is new, mark published only what was prepared, quarantine only what has its poison row |
| TelegramSafety.PrefixSafe | contrib/argus/bin/argus-telegram-direct-nats-producer.js:1114-1135 | A crash between any two writes of a protocol-abiding list leaves a state in which messages of one source ref agree with each other and with the envelope on file, and finished source refs stay finished |
| TelegramRecords.LeafThrows | contrib/argus/bin/argus-telegram-direct-nats-producer.js:1045-1150 | A window that is not split throws exactly if it is not quarantined yet and a source time is unusable, there is no summary, its text fails a check or its publish is not acknowledged; it then leaves one more row on record: in the poison file, quarantined and its counter dropped, if it is too long at every budget or this is its fifth failure, else in the dead-letter file with its counter raised |
| TelegramRecords.PassOnRecord | contrib/argus/bin/argus-telegram-direct-nats-producer.js:1202-1208 | A pass that returns adds no row to these files; one that throws adds exactly one, for the window that follows the final ones; with at most sixteen rows to a window, only a single row can be too long for good |
| TelegramRuns.RunOnRecord | contrib/argus/bin/argus-telegram-direct-nats-producer.js:1152-1210 | The same for a run over a file, the poison file exactly when the window is on file as quarantined afterwards; a run that returns reports the messages sent and the rows published or judged noise |
| TelegramRecords.SixteenComeApart | contrib/argus/bin/argus-telegram-direct-nats-producer.js:1066-1101 | Where any two rows are too long for the summarizer, a window comes apart into single rows that all go through if and only if it has at most sixteen |
| TelegramRecords.PassCounts | contrib/argus/bin/argus-telegram-direct-nats-producer.js:1103-1137 | What a pass that returns reports: published is the number of messages sent, accepted the rows published or judged noise, skipped those judged noise or quarantined before |
| TelegramRuns.FileCompletes | contrib/argus/bin/argus-telegram-direct-nats-producer.js:1152-1210 | Bounded poison liveness of a file: for a stable batch whose windows have their own source refs, the first P runs throw and hold the offset, and run P + 1 moves it to the end of the batch with every final window quarantined if it always fails and otherwise published with its own text or judged noise; P is at most five per final window; an invalid row is allowed where P is 0 |
| TelegramRuns.FileCompletesIff | contrib/argus/bin/argus-telegram-direct-nats-producer.js:1045-1150 | Of such batches without invalid rows, those that are ever got through are exactly the ones in which no window visited before one that always fails, and is not quarantined yet, has its attempt key |
| TelegramRuns.FreshFileCompletes | contrib/argus/bin/argus-telegram-direct-nats-producer.js:1152-1210 | With nothing on file the number of throwing runs is five for every final window that always fails plus one for every one no truncation makes short enough |
| TelegramRuns.DistinctIdsKeepApart | contrib/argus/bin/argus-telegram-direct-nats-producer.js:475-480 | Message ids that do not repeat within a chat give every window a pass may visit its own source ref, whatever is split |
| TelegramLiveness.PassesToCompletion | contrib/argus/bin/argus-telegram-direct-nats-producer.js:1045-1150 | The number of passes is exact: every pass before number P + 1 throws and uses up one attempt of one doomed window, and pass P + 1 returns with everything settled |
| TelegramLiveness.CompletesIffKeysClear | contrib/argus/bin/argus-telegram-direct-nats-producer.js:1045-1150 | Some pass over a batch returns if and only if no window visited before a doomed one has its attempt key, since each window that gets through drops the counter of its key |
| TelegramLiveness.TraceCostBound | contrib/argus/bin/argus-telegram-direct-nats-producer.js:920-938 | P is at most five times the number of windows that are not split further |
| TelegramLiveness.FreshCostIsCost | contrib/argus/bin/argus-telegram-direct-nats-producer.js:1045-1150 | With nothing on file for the windows of a pass, P is five for every window that always fails and one for every window no truncation makes short enough |
| TelegramLiveness.AttemptKeysCovered | contrib/argus/bin/argus-telegram-direct-nats-producer.js:829-868 | Whatever the windows do and whatever is on file, every key under which processing a window (and its splits) counts a failure was collected by the pending scan of that window |
| TelegramLiveness.BatchKeysCovered | contrib/argus/bin/argus-telegram-direct-nats-producer.js:844-868 | The same for every window of a batch, so pruning to the pending keys cannot erase a counter the batch still uses |
| TelegramRecords.PendingIsExact | contrib/argus/bin/argus-telegram-direct-nats-producer.js:829-833 | Nor does the scan collect too much: every key it collects for a window is one under which processing the window counts a failure in some world |
| TelegramFile.RunKeysCovered | contrib/argus/bin/argus-telegram-direct-nats-producer.js:844-868 | The same for a pass over any file of a run: whatever key it counts a failure under is among those collected from all files |
| TelegramFile.TelegramTail.CollectPendingAttemptKeys | contrib/argus/bin/argus-telegram-direct-nats-producer.js:844-868 | The scan reads each file from where its next pass starts, passes over invalid rows and files that shrank, and returns the keys of every window and of every piece it may be split into |
| AttemptTable.Attempts.Prune | contrib/argus/bin/argus-telegram-direct-nats-producer.js:875-899 | Pruning keeps the counters that are neither over a week old nor outside the pending set; beyond a thousand it keeps exactly a thousand, none older than one it drops; it reports a change exactly when there is one |
| AttemptTable.PruneDecides | contrib/argus/bin/argus-telegram-direct-nats-producer.js:875-899 | In numbers: what is left is at most 604800000 ms old, pending and at most a thousand; what is gone was older, not pending, or no newer than any of the thousand left |
| AttemptTable.PruneKeepsPending | contrib/argus/bin/argus-telegram-direct-nats-producer.js:1219-1221 | A run's pruning of a table without aged counters and with at most a thousand pending ones keeps every counter of every key a window of the batch can fail under |
| AttemptTable.PlainPruneKeepsAll | contrib/argus/bin/argus-telegram-direct-nats-producer.js:901-912 | The pruning at every save, which has no pending set, drops nothing from such a table |
| TelegramRuns.EveryLineEndsOnce | contrib/argus/bin/argus-telegram-direct-nats-producer.js:1152-1210 | When a run returns normally, each complete line it read is either dead-lettered as invalid or has its row in the final windows, as often as it was read; a final window that counts as published has an envelope on file as published and sent, one that counts as quarantined is on file as that; the offset is the end of the batch |
| TelegramEndings.WorkEnds | contrib/argus/bin/argus-telegram-direct-nats-producer.js:1114-1135 | Those endings, for any work that does not throw from any state the protocol can reach |
| TelegramWork.WorkIsProcessAll | contrib/argus/bin/argus-telegram-direct-nats-producer.js:1075-1085 | The recursive descent is the same as one list of windows in which a split window gives way to its halves |
| TelegramProducer.BatchConservesRows | contrib/argus/bin/argus-telegram-direct-nats-producer.js:1202-1208 | The windows a pass ends with hold the rows of the batch in order, each once; when a window throws, a proper prefix of them |
| TelegramProducer.LeavesConserveRows | contrib/argus/bin/argus-telegram-direct-nats-producer.js:1066-1086 | The same for the recursive splitting of one window |
| TelegramWindows.WindowsConserveRows | contrib/argus/bin/argus-telegram-direct-nats-producer.js:520-547 | The windows hold the rows handed in, each as often as it came; each window has one agent and chat, between one and the maximum number of rows, in sorted order |
| TelegramOrder.WindowsInOrder | contrib/argus/bin/argus-telegram-direct-nats-producer.js:520-547 | Windows stand in the order in which their chats were first read; of one chat all but the last are full; within a window and from one to the next rows with a usable time come first, by time, then message id |
| TelegramOrder.WindowsAreStable | contrib/argus/bin/argus-telegram-direct-nats-producer.js:529-539 | Rows of one chat with equal time and message id keep the order in which they were read |
| TelegramWindows.WindowIdentity | contrib/argus/bin/argus-telegram-direct-nats-producer.js:475-488 | Source refs differ with agent, chat, first or last message id; attempt keys with the list of dedupe keys |
| TelegramWindows.BuildWindowsLoop | contrib/argus/bin/argus-telegram-direct-nats-producer.js:520-547 | The loop over the group table computes the reference windowing: groups in order of first appearance, sorted, cut into pieces |
| TelegramWindows.HalvesConserve | contrib/argus/bin/argus-telegram-direct-nats-producer.js:821-827 | The halves of a window are non-empty and smaller, the first has the odd row, and together they are the window, in order |
| TelegramWindows.CollectPendingKeys | contrib/argus/bin/argus-telegram-direct-nats-producer.js:829-833 | For ready windows, the keys of each and of every piece it may be split into |
| TelegramProducer.SummarizeWithTruncation | contrib/argus/bin/argus-telegram-direct-nats-producer.js:971-994 | The first budget of the halving ladder at which the summarizer does not find the row too long decides; the row counts as too long only if it is so at every budget of the ladder |
| TelegramProducer.LadderHalves | contrib/argus/bin/argus-telegram-direct-nats-producer.js:971-984 | The ladder starts at the budget given, goes on with half of the last one but at least 2000, and ends at 2000 (or at once below it) |
| TelegramFile.TelegramTail.ProcessWindow | contrib/argus/bin/argus-telegram-direct-nats-producer.js:1045-1150 | The recursive method makes exactly the durable writes, in order, of the specification on which the safety and liveness theorems rest, and returns its result |
| TelegramFile.TelegramTail.RecordWindowAttempt | contrib/argus/bin/argus-telegram-direct-nats-producer.js:920-938 | One failure more under this key; the pruning that goes with each save is AttemptTable.Attempts.Prune, and AttemptTable.PlainPruneKeepsAll says when it leaves the other counters alone |
| TelegramFile.TelegramTail.QuarantineWindow | contrib/argus/bin/argus-telegram-direct-nats-producer.js:1017-1043 | Poison row, seen entry and dropped counter, in that order |
| TelegramFile.TelegramTail.ProcessFile | contrib/argus/bin/argus-telegram-direct-nats-producer.js:1152-1210 | A pass from the saved offset, else the seeded one, else 0: shrink guard, invalid rows dead-lettered with the offset moved past each, windows processed until one throws, the offset moved to the end only if none did; other files keep their offsets |
| TelegramRuns.HeldIffNoInvalidRow | contrib/argus/bin/argus-telegram-direct-nats-producer.js:1180-1195 | A pass that throws holds the offset exactly when its batch has no invalid row; otherwise the next pass reads nothing before the last invalid row |
| TelegramTexts.OwnTextsSentIff | contrib/argus/bin/argus-telegram-direct-nats-producer.js:1045-1150 | For any batch, any state the producer can be in and any texts: in every world that writes these texts each final window that counts as published has a message with its own text, if and only if windows that can be final together and share a source ref have one text and what is on file for a window that can be final is its own text or a quarantine |
| TelegramTexts.AllTextsSentIffNothingShared | contrib/argus/bin/argus-telegram-direct-nats-producer.js:475-480 | Whatever the texts: if and only if no two windows that can be final together share a source ref and nothing but a quarantine is on file for any of them |
| TelegramRuns.RunSendsOwnTextsIff | contrib/argus/bin/argus-telegram-direct-nats-producer.js:1152-1210 | The same for a run over a file |
| TelegramTexts.DistinctIdsShareNothing | contrib/argus/bin/argus-telegram-direct-nats-producer.js:475-480 | If no message id repeats within a chat, windows that can be final together have different source refs |
| TelegramRuns.RepeatedIdsHideARow | contrib/argus/bin/argus-telegram-direct-nats-producer.js:475-480 | An instance of the failure: two rows with one message id in a window that is split, the second half reported published although only the first was sent |
| SessionRuns.ExactlyOnce | contrib/argus/bin/argus-session-nats-producer.js:672-713 | Over any interleaving of appends and passes with any failures short of a crash, passes that throw included, what was published with an acknowledgement, judged noise or dead-lettered is exactly the accepted lines below the offset, in file order and without repeats; the offset never decreases and never passes a line on which the parser throws; there is a record for each such line the parser accepts, with its time, and no other |
| SessionRuns.DeliveredTwiceIffAckLost | contrib/argus/bin/argus-session-nats-producer.js:627-639 | Over any run a record reaches the broker more than once if and only if a window that covered it lost its acknowledgement and a later window covered it again |
| SessionRuns.RunTracks | contrib/argus/bin/argus-session-nats-producer.js:672-713 | The invariant behind it holds in every state of every run, and the log only grows |
| SessionRuns.PassAdvances | contrib/argus/bin/argus-session-nats-producer.js:672-713 | Without transient failures a pass that reads a line moves the offset if and only if no line it reads makes the parser throw, and otherwise ends in an error |
| SessionRuns.BlockedForever | contrib/argus/bin/argus-session-nats-producer.js:339-346 | A next line on which the parser throws stops the file for good: no later pass moves the offset or disposes of anything, however the log grows and whatever the caps |
| SessionRuns.NullLineBlocks | contrib/argus/bin/argus-session-nats-producer.js:339-346 | The line `null` at the start of a log is such a line |
| SessionProducer.BisectDisposesPrefix | contrib/argus/bin/argus-session-nats-producer.js:603-670 | Processing a window disposes of a prefix of its records in order, of all of them exactly when there was no transient failure, in at most 2n - 1 attempts; of an ordered window each event lies wholly behind those before it, so published ranges are disjoint and ordered |
| SessionProducer.BisectIsolates | contrib/argus/bin/argus-session-nats-producer.js:603-670 | If windows are rejected for good exactly because of the bad records in them, then of the records disposed of the dead letters are precisely the bad ones, and no published or noise window holds one |
| SessionProducer.BisectIsFast | contrib/argus/bin/argus-session-nats-producer.js:603-670 | If windows are rejected for good exactly because of the bad records in them, k bad ones among n take at most 1 + 2k ceil(log2 n) attempts |
| SessionProducer.OnlyTimelyGoThrough | contrib/argus/bin/argus-session-nats-producer.js:185-217 | When a window was published, with or without an acknowledgement, or taken for noise, each of its records had a readable time at most five minutes ahead of the clock; a dead letter was rejected on its own, for its time or by what follows |
| SessionProducer.TallyConserves | contrib/argus/bin/argus-session-nats-producer.js:592-601 | Whatever is disposed of was published or is counted as skipped |
| SessionProducer.TimestampsRejectExactly | contrib/argus/bin/argus-session-nats-producer.js:202-217 | Timestamp errors are a rejection of that kind |
| SessionProducer.SourceCreatedAt | contrib/argus/bin/argus-session-nats-producer.js:202-217 | Refused exactly when there is no record or one has no time, no readable one, one of a magnitude above 8640000000000000 ms, or one more than 300000 ms ahead of the clock; the first such record names the reason; otherwise the newest time, which one of the records has |
| SessionProducer.SessionTail.ProcessRecordWindow | contrib/argus/bin/argus-session-nats-producer.js:603-670 | The recursive method does what the bisection specification says, leaves the offset at the end of the last record disposed of, and counts what it published, skipped and dead-lettered |
| SessionProducer.SessionTail.ProcessFile | contrib/argus/bin/argus-session-nats-producer.js:672-713 | A new file without backfill is seeded at its end and nothing else happens; any other file takes one specified pass, which throws on a line the parser throws on and on a transient failure, and otherwise reports the lines scanned, accepted, published, skipped and dead-lettered; other files keep their offsets |
| LineReader.IncrementalEqualsOneShot | contrib/argus/bin/argus-session-nats-producer.js:367-395 | The lines of successive reads, each from where the last stopped, with any byte cap that reaches a newline and any positive line cap, over a growing file, are those of splitting the complete-line prefix at once, with contiguous ranges |
| LineReader.SplitIsExact | contrib/argus/bin/argus-session-nats-producer.js:367-395 | Every line ends in a newline and has no other, each starts where the last ended, none follows the last |
| LineReader.ReadIsFull | contrib/argus/bin/argus-session-nats-producer.js:367-395 | A read keeps to its caps, and when it takes fewer lines than its cap no other is complete within its bytes |
| LineReader.ReadNewLines | contrib/argus/bin/argus-session-nats-producer.js:367-395 | The buffer loop returns the specified lines and the offset behind the last of them |
| LineReader.ReadCompleteLines | contrib/argus/bin/argus-telegram-direct-nats-producer.js:311-342 | Likewise for the other reader, with its error when the file shrank below the offset |
| LineReader.ReadTakesNext | contrib/argus/bin/argus-session-nats-producer.js:367-395 | A read takes a prefix of the remaining lines and the next read starts with the line after it |
| LineReader.ReadProgresses | contrib/argus/bin/argus-session-nats-producer.js:367-395 | A read makes progress when the byte cap reaches the next newline and the line cap allows a line |
| CanonicalJson.EncodingIsCanonical | contrib/argus/lib/argus-telegram-kengram-adapter.js:101-116 | Two well-formed JSON values have the same encoding if and only if they are equal up to the order of object members |
| CanonicalJson.RoundTrip | contrib/argus/lib/argus-telegram-kengram-adapter.js:101-116 | Decoding an encoding gives the value back, the keys of every object at any depth ascending by code units: a proper prefix first, else the smaller unit at the first difference |
| CanonicalJson.DecodeInverts | contrib/argus/lib/argus-telegram-kengram-adapter.js:101-116 | Encodings are self-delimiting: a decoder reads a value off the front of any text that continues with neither digit nor sign and leaves the rest |
| CanonicalJson.UnescapeInverts | contrib/argus/lib/argus-telegram-kengram-adapter.js:101-116 | String escapes, lone surrogates and control characters included, are undone |
| CanonicalJson.EscapesAre | contrib/argus/lib/argus-telegram-kengram-adapter.js:101-116 | The seven short escapes, the others as four hexadecimal digits, everything else unchanged |
| CanonicalJson.EscapedIsPlain | contrib/argus/lib/argus-telegram-kengram-adapter.js:101-116 | Escaped strings have no control characters and no surrogate without its partner |
| CanonicalJson.PlainStays | contrib/argus/lib/argus-telegram-kengram-adapter.js:101-116 | Text of that kind without quotes and backslashes, surrogate pairs included, is not escaped |
| CanonicalJson.NoLeadingZero | contrib/argus/lib/argus-telegram-kengram-adapter.js:101-116 | Only zero starts with the digit 0 |
| CanonicalJson.EncodingLooksLike | contrib/argus/lib/argus-telegram-kengram-adapter.js:101-116 | A small object, character by character |
| Adapter.RedeliveryIsHarmless | contrib/argus/lib/argus-telegram-kengram-adapter.js:458-485 | Whatever is delivered, in any order and as often as may be, identities, thoughts and queues are those of the first storable envelope of each key alone |
| Adapter.DeliveryDoes | contrib/argus/lib/argus-telegram-kengram-adapter.js:350-485 | One delivery on the tables: the order in which an envelope is refused or skipped, the fields a repeat changes, and the rows a new key adds |
| Adapter.RepeatOutcome | contrib/argus/lib/argus-telegram-kengram-adapter.js:350-378 | An acceptable repeat is a duplicate exactly when its payload equals the first one's up to member order, and then only the instant it was last seen changes; otherwise the event is marked as in conflict and exactly one dead-letter row has both hashes, or without a dead-letter file the call fails and changes nothing |
| Adapter.EventsHoldFirst | contrib/argus/lib/argus-telegram-kengram-adapter.js:380-456 | The event of a key keeps the hash of the first storable envelope of that key and points to the thought of that envelope's content |
| Adapter.StoredIsQueued | contrib/argus/lib/argus-telegram-kengram-adapter.js:380-456 | After any deliveries thoughts of different content are different, and every event's thought exists and waits for its embedding and, if untagged, for its tags |
| Adapter.Database.ProcessRecord | contrib/argus/lib/argus-telegram-kengram-adapter.js:458-485 | The method on the tables is the delivery step the redelivery theorems are about, with its outcome |
| Adapter.Database.MarkConflict | contrib/argus/lib/argus-telegram-kengram-adapter.js:350-378 | A conflict changes the event's status, instant and noted conflict, and the dead-letter file, and nothing else |
| Adapter.Database.StoreRecord | contrib/argus/lib/argus-telegram-kengram-adapter.js:380-456 | One transaction: thoughts unique by content, queue entries unique by thought, tagged thoughts not queued again |
| Consumer.AtMostOneThought | contrib/argus/bin/argus-kengram-consumer.js:415-478 | Given the contract of the gate, no source ref has two thoughts over any deliveries and redeliveries, outages and lost replies included, and committed events keep their hash; the weight of this component is on settlement |
| Consumer.LostReplyResolves | contrib/argus/bin/argus-kengram-consumer.js:415-478 | A call that committed but whose reply was unreadable resolves to a duplicate when the message comes again, however much later, and creates nothing |
| Consumer.MessageConsumer.ProcessMessage | contrib/argus/bin/argus-kengram-consumer.js:626-763 | Each message is settled once and counted under one heading: terminated exactly if the consumer or the gate refuses it, sent back exactly if the gate's answer is not known, otherwise acknowledged and counted as what happened; only a session body of JSON null makes the handler fail, with nothing changed |
| Consumer.SettledAs | contrib/argus/bin/argus-kengram-consumer.js:626-763 | Settlement and heading for each kind of message, lane and gate answer: a new source ref counts as stored or as a semantic skip, a known one as duplicate or conflict by its hash |
| Consumer.MessageConsumer.RunOnce | contrib/argus/bin/argus-kengram-consumer.js:842-870 | After every run that finishes the counters balance and the gate is as the message sequence makes it; a run stops early exactly at the first session body of JSON null |
| Consumer.MessageConsumer.CaptureGated | contrib/argus/bin/argus-kengram-consumer.js:415-478 | The gate changes only by its commit; a readable reply is acknowledged and counted by its mapped action, an unreadable one or an outage is held back, a rejection terminates |
| Chunker.HaltsIffProgress | crates/kengram-cli/src/chunk.rs:281-292 | For accepted parameters the chunker returns on every text if and only if the overlap is below max(1, 2 * target / 3) |
| Chunker.AcceptedButStuck | crates/kengram-cli/src/chunk.rs:281-292 | Target 3, maximum 3, overlap 2 pass the check although there is a text on which the chunker runs forever |
| Chunker.ChunksCover | crates/kengram-cli/src/chunk.rs:355-395 | With progress the chunks cover all words, end later and later, share exactly `overlap` words with their neighbour, have at most the maximum and (but for the last) at least the minimum number of words, and there are at most ceil(words / step) of them |
| Chunker.ChunksEndRight | crates/kengram-cli/src/chunk.rs:355-395 | A chunk takes the rest if that has at most max and at most target + overlap words; else it ends with the last sentence end from max(1, 2 * target / 3) to max words in, or takes all it may if there is none; a sentence ends with one of five marks |
| Chunker.ShortTextsStayWhole | crates/kengram-cli/src/chunk.rs:355-373 | A text of at least the minimum number of words and at most min(max, target + overlap) is one chunk |
| Chunker.NothingForShortParents | crates/kengram-cli/src/chunk.rs:294-330 | For such a parent nothing is proposed |
| Chunker.AcceptedParams | crates/kengram-cli/src/chunk.rs:281-292 | Parameters are accepted exactly if all limits are positive, the overlap is below the target and the target at most the maximum |
| Chunker.ChunkSpans | crates/kengram-cli/src/chunk.rs:355-395 | The loop returns the specified ranges as byte ranges with their word counts, on every text on which it returns at all |
| Chunker.BestSentenceBoundary | crates/kengram-cli/src/chunk.rs:415-435 | The forward scan over byte prefixes finds the reference boundary, in the range the two-thirds rule gives |
| Chunker.BoundaryIsBest | crates/kengram-cli/src/chunk.rs:415-435 | That boundary is the largest end in the range whose last word ends a sentence; there is none exactly when no word in the range does |
| Chunker.SearchWindow | crates/kengram-cli/src/chunk.rs:355-395 | Cutting the search range off at the end of the text changes no result |
| Chunker.ChunkTextIsItsWords | crates/kengram-cli/src/chunk.rs:294-330 | The slice of a chunk tokenises to exactly the parent's words of its range, so trimming changes nothing and the word count is the slice's own |
| Chunker.ProposeChunks | crates/kengram-cli/src/chunk.rs:294-330 | One chunk per range, in order, for parents of more than one range, none for the others |
| WordSpans.FindWordSpans | crates/kengram-cli/src/chunk.rs:397-413 | One pass over the characters finds the reference words, as byte ranges |
| WordSpans.WordsAreRuns | crates/kengram-cli/src/chunk.rs:397-413 | Every word is a non-empty run without whitespace, ended by whitespace or the end of the text, and words are separated |
| WordSpans.WordsCover | crates/kengram-cli/src/chunk.rs:397-413 | Every other character than whitespace is in a word |
| WordSpans.CutWords | crates/kengram-cli/src/chunk.rs:397-443 | A cut from a word's start to a word's end holds exactly the words between, shifted |
| WordSpans.WhitespaceIs | crates/kengram-cli/src/chunk.rs:397-413 | Words are separated by the 25 characters with the Unicode White_Space property, listed one by one |
| WordSpans.Utf8IsStandard | crates/kengram-cli/src/chunk.rs:397-413 | Byte offsets count the bytes of UTF-8 (section 3 of RFC 3629): lead and continuation bytes, shortest form, and the character can be read off again |
| Metrics.NdcgInUnitRange | crates/kengram-core/src/metrics.rs:13-50 | For distinct ids and non-negative weights nDCG lies in [0, 1], and if some weight is positive and k > 0 it is 1 exactly when the top-k weights padded with zeros are the ideal ones |
| Metrics.NdcgIsZeroIff | crates/kengram-core/src/metrics.rs:13-50 | It is 0 exactly when none of the first k ids has a positive weight |
| Metrics.RangeIffDistinct | crates/kengram-core/src/metrics.rs:13-50 | The range claim holds for all non-negative weights if and only if the top k ids of the ranking do not repeat |
| Metrics.RepeatsExceedOne | crates/kengram-core/src/metrics.rs:23-37 | For every ranking with a repeat in its top k there are weights that push nDCG above 1 |
| Metrics.IdealIsBest | crates/kengram-core/src/metrics.rs:39-48 | No ranking of distinct ids has a larger DCG than the sorted weights, and equality forces equal gains |
| Metrics.IdealIsReached | crates/kengram-core/src/metrics.rs:39-48 | Some ranking of distinct ids attains the ideal |
| Metrics.PrefixesDominate | crates/kengram-core/src/metrics.rs:28-48 | Abel's inequality: dominating prefix sums give a dominating DCG under any positive increasing logarithm, strictly unless the prefixes agree |
| Metrics.NdcgAtK | crates/kengram-core/src/metrics.rs:23-51 | The two sums and their quotient are the specified nDCG |
| Metrics.ReciprocalRank | crates/kengram-core/src/metrics.rs:57-67 | The inverse rank of the first relevant id, 0 exactly when there is none |
| Search.RrfFuse | crates/kengram-core/src/search.rs:154-202 | The result holds each ranked thought once, with the sum of 1/(k + rank) over all its places and, leg by leg, the first value present in input order, best score first |
| Search.MergedTakesFirstPresent | crates/kengram-core/src/search.rs:163-173 | Filling gaps while reading is taking, for each leg, the first value present in input order; the thought itself is that of its first occurrence |
| Search.FusionIgnoresRankingOrder | crates/kengram-core/src/search.rs:154-202 | Fusing the same rankings in any order gives the same thoughts, the same scores and the same descending list of scores |
| Search.DominanceDecides | crates/kengram-core/src/search.rs:154-202 | A thought ranked above another in every ranking that has the other comes before it in every fusion, if the other is in no ranking twice |
| Search.RepeatsBreakDominance | crates/kengram-core/src/search.rs:158-161 | A thought placed once, above every place of another, scores higher for every constant k if and only if the other is not listed again |
| Search.RecencyBoost | crates/kengram-core/src/search.rs:209-226 | In place: the hits, each scored down by its age, in descending order, hits of equal score in their old order; nothing changes for a half-life of zero or less |
| Search.AgeDecides | crates/kengram-core/src/search.rs:209-226 | A hit whose age in whole seconds is x half-lives, counted in days of 86400 seconds, has its score multiplied by decay(x): one half-life old by decay(1) |
| Search.SortIsStable | crates/kengram-core/src/search.rs:196-226 | Sorting keeps hits of equal score in their order |
| Search.ClockRescales | crates/kengram-core/src/search.rs:213-226 | Between instants at which all captures age alike, every boosted score changes by one positive factor and the order, ties included, stays |
| Search.AgeAlikeIffSameFraction | crates/kengram-core/src/search.rs:214-215 | Two captures age alike between any two later instants if and only if they fall at the same fraction of a second |
| Search.WholeSecondsAgeAlike | crates/kengram-core/src/search.rs:214-215 | Instants a whole number of seconds apart age all past captures alike |
| Search.OrderIgnoresClockIff | crates/kengram-core/src/search.rs:209-226 | For hits captured at instants of a set, however many and with whatever scores, the order after a boost is the same at all later instants, at any half-life, if and only if these instants fall at one fraction of a second |
| Search.FractionsReorder | crates/kengram-core/src/search.rs:214-215 | Any two captures at different fractions of a second have hits that are in one order at one later instant and in the other at another |
| Search.BoostsCompose | crates/kengram-core/src/search.rs:209-226 | Boosting with two half-lives gives the hits and scores of one boost at the half-life whose rate is the sum of the rates |
| EmbedQueue.CrashesLeaveNoTrace | crates/kengram-mcp/src/drain.rs:132-229 | After any ticks, each dying between any two durable steps, one tick over the whole queue that lives reaches the state it would have reached at the start |
| EmbedQueue.HealedMeans | crates/kengram-mcp/src/drain.rs:132-229 | That state in terms of the world: jobs stay that are foreign, or whose target is gone while hygiene is off, or whose text the embedder refuses; vectors are those that were there and those of the other targets, but none for a target that is gone or withheld |
| EmbedQueue.PassKeepsHealed | crates/kengram-mcp/src/drain.rs:132-229 | Every prefix of a pass keeps that state the same, for tables that ignore repeated inserts and for tables that overwrite |
| EmbedQueue.TickThatLives | crates/kengram-mcp/src/drain.rs:55-96 | A tick takes its jobs off the head of the queue, all but the failing ones, which stay in order |
| EmbedQueue.Worker.ProcessEmbedJob | crates/kengram-mcp/src/drain.rs:132-229 | One job: its vector and its removal, its removal alone if hygiene denies the target, or no change |
| EmbedQueue.OneJobRun | crates/kengram-mcp/src/drain.rs:132-229 | What one job run to its end changes in the queue and in the vectors |
| EmbedQueue.Worker.DrainPendingEmbeddings | crates/kengram-mcp/src/drain.rs:55-96 | The drainer runs the oldest jobs and reports each under one heading |
| EmbedQueue.TallyCounts | crates/kengram-mcp/src/drain.rs:55-96 | Found is embedded plus skipped plus failed, and failed are the jobs that stay |
| EmbedQueue.Worker.EmbedBackfill | crates/kengram-mcp/src/backfill.rs:46-80 | It refuses a negative limit and otherwise ends with embedded plus failed within it; it embeds nothing exactly when the first batch holds only failing jobs; with budget enough it embeds everything that can be embedded if and only if fewer failing jobs than a batch stand ahead of the last job that can be embedded |
| TagQueue.SurvivesIff | crates/kengram-mcp/src/drain.rs:314-492 | A job outlives a run of attempts exactly when no attempt succeeds, finds the thought gone, meets a permanent tagger error, or meets any tagger error at attempt five or later |
| TagQueue.SoftFailuresNeverDrop | crates/kengram-mcp/src/drain.rs:314-492 | Fetch, vocabulary, storage and relation failures never drop a job, however many there are |
| TagQueue.OneAttempt | crates/kengram-mcp/src/drain.rs:314-492 | What one attempt makes of a queued job, branch by branch |
| TagQueue.GoneByTheFifthTaggerError | crates/kengram-mcp/src/drain.rs:461-490 | The fifth tagger error, at the latest, removes the job, whatever happened in between |
| TagQueue.BadRelationNeverDrops | crates/kengram-mcp/src/drain.rs:434-447 | A malformed relation emitted every time keeps the job queued after any number of attempts |
| TagQueue.TagStore.ProcessTagJob | crates/kengram-mcp/src/drain.rs:314-492 | One attempt: the queue entry after it, the tags if they were persisted, the relations only if all of them are valid and accepted, other jobs untouched |
| TagQueue.TagStore.ApplyTaggerRelations | crates/kengram-mcp/src/drain.rs:502-562 | The tagger's relations of the thought are replaced as a whole if every target is valid and the store accepts, and not touched otherwise |
| TagQueue.ValidateTarget | crates/kengram-mcp/src/link.rs:420-448 | Names need a visible character and at most 200 bytes, addresses http or https and at most 2048 bytes |
| TagQueue.NamesBySize | crates/kengram-mcp/src/link.rs:420-434 | Limits count bytes: a visible character n times over is a name exactly if it fills at most 200 bytes, whitespace never is one |
| TagQueue.AddressesBySize | crates/kengram-mcp/src/link.rs:435-448 | Addresses with either scheme are taken up to 2048 bytes, others not |

## Left out

- Chunker.ChunkSpans: word counts are unbounded; `usize` wrap-around and the saturating multiplication of the search range are not modelled.
- Metrics.NdcgAtK: exact reals instead of `f32`; the logarithm is any positive increasing function.
- Search.RrfFuse: exact reals instead of `f32`; k is above -1, so that no rank divides by zero; the order of equal scores, which the hash table leaves open, is left open.
- Search.RecencyBoost: exact reals; 0.5^x is any positive function that multiplies over sums and is below 1 for x > 0.
- CanonicalJson.EncodingIsCanonical: numbers are integers written in plain decimal; fractions, exponents and `undefined` are not modelled, and object members have distinct keys.
- SessionRuns.ExactlyOnce: no process crash between the passes' steps; what the parser makes of a line is an input, a throw included.
- SessionRuns.DeliveredTwiceIffAckLost: duplicate detection in the broker is not modelled; it cannot help where the repeat has another byte range.
- SessionProducer.SessionTail.ProcessFile: profiles, the dry run and saving of the state file are not modelled.
- TelegramFile.TelegramTail.ProcessFile: live mode; the seed of a file is an input, and dry run and metrics are not modelled.
- TelegramFile.TelegramTail.RecordWindowAttempt: the pruning on each save is modelled apart, in AttemptTable.
- TelegramRuns.FileCompletes: one file, with attempt counters neither aged out nor capped and the attempts file below 256 KB; windows that share a source ref are not covered, since for them the conclusion fails (TelegramTexts.OwnTextsSentIff).
- AttemptTable.Attempts.Prune: the 256 KB limit on the file is not modelled.
- TelegramSafety.WriteAheadSafety: durable writes are atomic; the branches for a mismatch between a prepared envelope and its hash cannot be taken in the model.
- TelegramWindows.BuildWindowsLoop: message ids are numbers; agent and chat names hold neither `:` nor NUL and dedupe keys no newline, so keys made by joining them are unambiguous.
- Adapter.RepeatOutcome: SHA-256 is modelled by the canonical encoding itself, a hash without collisions.
- Adapter.Database.ProcessRecord: follows the Telegram adapter; the session adapter checks for noise before it checks the hash, and thought ids are numbered in order of insertion.
- Consumer.AtMostOneThought: the database gate is taken by its documented contract, replay by source ref and one transaction a call.
- Consumer.MessageConsumer.ProcessMessage: the checks and the normalisation of envelopes are collapsed into their verdict; local writes succeed.
- EmbedQueue.CrashesLeaveNoTrace: the embedder is deterministic and storage calls succeed until a crash; attempt counts and error texts of embedding jobs are not modelled, and a batch is processed oldest first.
- EmbedQueue.Worker.EmbedBackfill: which targets lack a vector is an input; no other worker takes jobs meanwhile; for a budget that is not enough only the bounds are stated.
- TagQueue.TagStore.ProcessTagJob: attempt increments and job removals succeed; tag normalisation, vocabulary and the hash of the emitted set are not modelled, and relation sets are multisets.
- Parsing of JSON and dates, secret scanning, redaction and prompts are opaque verdicts.
- Library sorts are modelled by stable insertion sorts.
- Deadlines, watchdogs, metrics files, statistics and the command lines add nothing to prove.
- The SQL gate, migrations and role management; `contrib/argus/bin/argus-codex-rollout-producer.js`; tag normalisers, sparse vectors and fingerprint codecs would only add easier members.
