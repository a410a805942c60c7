# Verified models of the conversation store, the event transport, the stream decoder and the terminal

A Dafny model of the parts of the agent whose correctness rests on an argument rather
than on a glance: an index that must agree with the log it speeds up, a protocol that
must lose nothing it calls lossless, a decoder that must not care how bytes were cut
into chunks, and a renderer that must leave the screen as the frame it was given.
`dafny verify dfyconfig.toml` checks everything.

| file | what it models |
|---|---|
| `Utf8`, `Text` | the validator behind `std::str::from_utf8` (section 4 of RFC 3629), lossy decoding (section 3.9 of the Unicode Standard), `str::trim`, `str::find` |
| `SseDecoder`, `FrameStream` | the incremental event-stream decoder and the loop that pumps its frames into a channel |
| `RolloutLog`, `RolloutRecovery` | parsing the rollout log with line offsets, torn tails, slices |
| `TurnPaging`, `TurnIndex`, `ConversationStore` | pages by linear scan, pages by index, appends that keep the index, the walk through all pages |
| `Retention` | deleting archived conversations until the files fit a limit |
| `Protocol`, `EventDelivery`, `TransportReader`, `MessageDelivery` | which messages are lossless (`classify_notification` and `event_requires_delivery`), the bounded channel with lag markers as a step system, numbering and dropping of repeats, and the whole way from server to client |
| `Cells`, `Screen`, `DiffRenderer`, `DiffOutput` | buffers and the screen with wide cells, the diff between two frames, and what exactly it sends |
| `Tty`, `DrawUpdates`, `FrameFlush`, `HistoryLines` | the terminal as an interpreter of control sequences, and the sequences the renderer emits |
| `CustomTerminal`, `DrawCoordinator`, `OneRowRegions` | the inline viewport, its run invariant over whole runs of frames, and the one terminal feature it depends on |
| `OutputTruncation`, `Transcript`, `Envelope` | the token bound, incremental transcripts, JSON-RPC envelopes |

Text is its UTF-8 bytes where the program handles bytes (`Utf8`, `SseDecoder`, the log)
and a string elsewhere. Sockets, timers and files appear as the lists of what they deliver.
`Codec` in `RolloutLog` stands for the JSON codec of log records, with three laws:
decoding undoes encoding, an encoding is one line from `{` to `}`, and no proper part
from its start decodes.

## What the models bring out

- `insert_history_lines` computes the row it writes at after it pushed the viewport
  down, so a viewport that is not at the bottom leaves blank rows between old and new
  history; `InsertHistoryLines` states exactly how many. In a run of frames the
  viewport is always at the bottom, and there are none.
- A viewport that starts on the second row makes the scroll region a single row. On a
  terminal that rejects such a region the history lines run down over the viewport
  (`CustomTerminal.SurvivesExactly`).
- A viewport that fills the screen drops history lines without writing them anywhere.
- Bold and dim share one reset code: going from bold and dim to bold alone loses bold,
  and that is the only transition that goes wrong (`DrawUpdates.ModifierChangesExact`).
  A frame over one that is shown is shown exactly when none of its puts makes it
  (`FrameFlush.FlushShowsNext`). The writer does not know of the loss: later frames do
  not repair a cell that stays the same, and what they show is `FrameFlush.RealBuffer`
  (`FlushShowsReal`). Everything but bold is right regardless: cursor position and
  colours of every put (`FrameFlush.EveryPutInPlace`), the viewport's place, the history
  (`DrawCoordinator.DrawFrames`). Frames without bold and dim cells lose nothing
  (`DrawCoordinator.NothingIsLost`); the cli's own styles never ask for dim.
- After a clear the writer's idea of the foreground is stale. It is harmless because
  every clear precedes every put (`FrameFlush.DiffIsOrderly`).
- The branch for a UTF-8 remainder of more than three bytes and the branch after the
  segment loop of `parse_lines_with_offsets` cannot be reached.
- Two conversation ids may sanitize to one file name; pruning one deletes the other's
  log (`Retention.SharedFile`, and `Retention.OneDeletionExactly` for when). A log that exists under two names is only half deleted
  (`Retention.GoneExactly`).
- `ReasoningSummaryPartAdded` is the one notification that cannot be read back
  (`Envelope.ServerRoundTripExactly`). The server sends it before the first summary
  delta of an item, and must deliver it; the client's reader stops at it with an error,
  so it and everything behind it is lost, pending requests are not failed and no
  disconnection is reported (`MessageDelivery.EndToEnd`).
- A truncated text can be over its budget, longer than the original, or equal to it
  (`OutputTruncation.WithoutRoom`; `LengthExactly`, `UnchangedExactly` and `Idempotent` say when).
- An empty cell between two others takes away the blank line that would stand between
  them (`Transcript.StandsBetween`).

## Model

| member | source | states |
|---|---|---|
| Utf8.EncodingIsInTable | crates/infra-http/src/transport.rs:61-65 | the byte table has the encoding of every Unicode scalar value, six bits to a continuation byte, and gives the value back |
| Utf8.TableIsEncodings | crates/infra-http/src/transport.rs:61-65 | it has nothing else: no surrogate, no longer form, nothing above U+10FFFF |
| Utf8.ReplacementIs | crates/infra-http/src/transport.rs:72-80 | the replacement character that is committed is U+FFFD |
| Utf8.HeadMeansTable | crates/infra-http/src/transport.rs:47-86 | the validator finds a character exactly when a non-empty prefix is one by the RFC's table, waits exactly when some non-empty continuation completes one, and otherwise rejects the longest prefix that begins some character, or one byte |
| Utf8.HeadStable | crates/infra-http/src/transport.rs:47-86 | once the front of the input is decided, no later bytes change the verdict |
| Utf8.FromUtf8Fine | crates/infra-http/src/transport.rs:61-65 | the check succeeds exactly on well-formed text |
| Utf8.FromUtf8Error | crates/infra-http/src/transport.rs:66-82 | `valid_up_to` ends a valid prefix, and decoding goes on after `error_len` bytes, or waits when there is none |
| Utf8.ValidUpToIsLongest | crates/infra-http/src/transport.rs:66-70 | no longer prefix is valid |
| Utf8.DecodeConcat | crates/infra-http/src/transport.rs:47-86 | decoding may stop after any byte and continue from the bytes left waiting, with the same text |
| Utf8.RestIsIncomplete | crates/infra-http/src/transport.rs:47-59 | at most three bytes ever wait, and they are an incomplete sequence |
| Utf8.DecodeOfValid | crates/infra-http/src/transport.rs:47-86 | valid input passes unchanged, so it never yields U+FFFD of its own |
| Utf8.DecodedTextIsValid | crates/infra-http/src/transport.rs:47-86 | whatever arrives, the committed text is well-formed |
| Utf8.LossyIsMaximalSubpartSubstitution | crates/infra-http/src/transport.rs:47-86 | the result is U+FFFD substitution of maximal subparts, defined without the validator |
| Text.TrimRemovesOuterSpace | crates/infra-http/src/transport.rs:18-30 | trimming removes all white space at both ends and nothing else |
| Text.SpaceIsWhiteSpace | crates/infra-http/src/transport.rs:18-30 | the encoding of every character with the White_Space property is recognised at both ends |
| Text.SpaceIsEncoding | crates/infra-http/src/transport.rs:18-30 | and nothing else is |
| Text.TrimmedAway | crates/infra-http/src/transport.rs:18-30 | nothing is left exactly when there was nothing but white space |
| SseDecoder.FindSseDelimiter | crates/infra-http/src/transport.rs:32-45 | two searches and a comparison yield the blank line that starts first |
| SseDecoder.SoonerIsFirst | crates/infra-http/src/transport.rs:32-45 | the sooner of the two first occurrences is the first delimiter of either kind, for every text |
| SseDecoder.FirstDelimiterStable | crates/infra-http/src/transport.rs:32-45 | the delimiter that starts earliest also ends earliest: appending text never moves it |
| SseDecoder.CutConcat | crates/infra-http/src/transport.rs:18-30 | cutting may stop after any prefix and continue from what was left over |
| SseDecoder.CutAccounts | crates/infra-http/src/transport.rs:18-30 | blocks, delimiters and leftover make up the text, each block ends at its own first blank line, none is left over |
| SseDecoder.CutsAtBlankLines | crates/infra-http/src/transport.rs:32-45 | every cut is at LF LF or CR LF CR LF, neither of which starts earlier in its block or anywhere in the leftover |
| SseDecoder.OneFrame | crates/infra-http/src/transport.rs:18-30 | a block gives its trimmed text, or nothing when it is white space throughout |
| SseDecoder.FramesConcat | crates/infra-http/src/transport.rs:18-30 | the frames of several blocks are those of each, in order |
| SseDecoder.CuttingIsUnique | crates/infra-http/src/transport.rs:18-30 | there is only one such cutting |
| SseDecoder.CutKeepsValid | crates/infra-http/src/transport.rs:18-30 | no cut splits a character |
| SseDecoder.PushKeepsResting | crates/infra-http/src/transport.rs:18-86 | between chunks the buffer is well-formed text without a blank line and the remainder is incomplete |
| SseDecoder.RunIsWhole | crates/infra-http/src/transport.rs:18-86 | any sequence of chunks gives the frames, buffer and remainder that the whole stream gives at once |
| SseDecoder.ChunkIndependence | crates/infra-http/src/transport.rs:18-86 | two ways of splitting the same bytes cannot be told apart |
| SseDecoder.StreamAccounting | crates/infra-http/src/transport.rs:18-86 | frames are the trimmed non-blank blocks of the unique cutting of the decoded stream; every byte of that text is in a block, a delimiter or the leftover |
| SseDecoder.CommittedTextIsFinal | crates/infra-http/src/transport.rs:47-86 | text committed so far, followed by the decoding of remainder and future bytes, is the decoding of the whole stream |
| SseDecoder.SseFrameDecoder.AppendUtf8Safe | crates/infra-http/src/transport.rs:47-59 | the buffer grows by exactly the decoded text and the remainder is what still waits, on both branches |
| SseDecoder.SseFrameDecoder.AppendInput | crates/infra-http/src/transport.rs:61-86 | the loop commits exactly the decoding of its input |
| SseDecoder.SseFrameDecoder.PushChunk | crates/infra-http/src/transport.rs:18-30 | frames and state are those of the specification, and the resting state is kept |
| SseDecoder.SseFrameDecoder.CutFrames | crates/infra-http/src/transport.rs:18-30 | the drain loop returns the frames of the cutting and leaves its rest |
| FrameStream.PumpFrames | crates/infra-http/src/stream.rs:17-61 | whenever the receiver goes away, the channel has received the front of the full outcome that was taken, and all of it if the receiver stays |
| FrameStream.FramesThenOneError | crates/infra-http/src/stream.rs:21-57 | the outcome is the frames of the whole body and then exactly one error if the body ended |
| FrameStream.ClosingError | crates/infra-http/src/stream.rs:21-57 | nothing closes the channel while the body is open; a body that was closed, failed or timed out gives exactly the error named after that, last |
| FrameStream.EndsAfterBody | crates/infra-http/src/stream.rs:21-57 | the body is the chunks in front of the first event that is none |
| FrameStream.StreamChunkIndependence | crates/infra-http/src/stream.rs:21-57 | two chunkings of the same body with the same ending give the same outcome |
| FrameStream.TimeoutKind | crates/infra-http/src/stream.rs:21-57 | a timeout is reported as the first-frame kind exactly when no frame was sent, as the idle kind exactly when one was |
| RolloutLog.ParseLinesWithOffsets | crates/infra-store/src/rollout_log.rs:15-46 | the loop computes the recursive parse, and its trailing branch is dead |
| RolloutLog.ParseItems | crates/infra-store/src/rollout_log.rs:10-13 | the items of the parse, or its error |
| RolloutLog.FailsIffMalformed | crates/infra-store/src/rollout_log.rs:48-78 | parsing fails exactly when some newline-terminated line is neither blank nor a record; an unterminated tail never fails |
| RolloutLog.ReportsFirstMalformed | crates/infra-store/src/rollout_log.rs:48-78 | the error carries the number of the first malformed line: one more than the newlines in front of it |
| RolloutLog.PersistedAre | crates/agent-core/src/rollout/policy.rs:11-70 | of a batch exactly the items that are not passing events are persisted, in the order given |
| RolloutLog.PersistedConcat | crates/agent-core/src/rollout/policy.rs:11-19 | of two batches in a row what is persisted of each |
| RolloutRecovery.ParseConcat | crates/infra-store/src/rollout_log.rs:15-46 | whole lines parse apart from what follows them, offsets and line numbers continuing |
| RolloutRecovery.ParseElsewhere | crates/infra-store/src/rollout_log.rs:15-46 | where a text lies in the file only moves the recorded offsets and line numbers |
| RolloutRecovery.OffsetsAscend | crates/infra-store/src/rollout_log.rs:15-46 | recorded offsets strictly increase and lie inside the text |
| RolloutRecovery.RecordedLines | crates/infra-store/src/rollout_log.rs:15-78 | an item is recorded at an offset exactly when the line that starts there holds it |
| RolloutRecovery.SliceReadsRange | crates/infra-store/src/lib.rs:670-690 | the bytes between two line starts parse to exactly the items whose offsets lie between them |
| RolloutRecovery.SliceIsValid | crates/infra-store/src/lib.rs:686-687 | such a slice of a well-formed log is well-formed text |
| RolloutRecovery.ParseRendered | crates/infra-store/src/lib.rs:265-305 | appended items come back in order at the offsets the writer computed, whatever follows them |
| RolloutRecovery.ParseWhole | crates/infra-store/src/lib.rs:265-305 | parsing a log written by appends gives the writer's items and offsets |
| RolloutRecovery.WrittenItems | crates/infra-store/src/lib.rs:265-305 | the writer's lines carry the items it was given |
| RolloutRecovery.PrefixOfLog | crates/infra-store/src/lib.rs:265-305 | an interrupted write leaves whole records and a part of the next one |
| RolloutRecovery.TornTail | crates/infra-store/src/rollout_log.rs:10-78 | every prefix of the bytes parses to the appended items up to the torn one, which is lost unless only its newline is missing; the prefix is readable text exactly when the torn part is |
| TurnPaging.PushTurnPageChunk | crates/infra-store/src/lib.rs:70-82 | the window holds the newest turns, never more than one over a page |
| TurnPaging.ScanTurns | crates/infra-store/src/lib.rs:724-784 | the bounded window computes the page of the last max(limit, 1) turns before the first item that starts the cursor's turn, with more behind it exactly when there are more turns |
| TurnPaging.PageExactly | crates/infra-store/src/lib.rs:724-784 | in the items' own terms: the page ends at the first start of the cursor's turn or at the end of the log; of n turns before it it holds the last limit, or the last one for limit 0, or all, and there is more exactly when there are more turns than that |
| TurnPaging.PageOfScan | crates/infra-store/src/lib.rs:760-784 | after the last push the window is the last limit + 1 turns; dropping the extra one and joining gives that page |
| TurnPaging.CursorLeadsBack | crates/agent-core/src/host/agent.rs:285-304 | a page with more behind it starts with a turn whose id, used as the next cursor, leads back exactly to its start, limit turns further back, or one for limit 0 |
| TurnPaging.WalkCoversLog | crates/infra-store/src/lib.rs:724-784 | from any cursor the walk ends after ceil(turns / max(limit, 1)) pages, and joined oldest first they are the log up to the cursor from its first turn on |
| TurnIndex.UpsertAllNew | crates/infra-store/src/session_index.rs:447-473 | rows for turns not yet in the table are appended in order |
| TurnIndex.UpsertSetsOne | crates/infra-store/src/session_index.rs:447-473 | an upsert sets the offset of its own turn, known or not, and no other |
| TurnIndex.SelectedRows | crates/infra-store/src/session_index.rs:492-526 | on any table, the query selects every row below the offset, and none other, in ascending order |
| TurnIndex.PageOrdered | crates/infra-store/src/session_index.rs:492-526 | on a table in offset order, the query is the last rows below the offset, ascending |
| TurnIndex.LookupDistinct | crates/infra-store/src/session_index.rs:475-490 | with distinct turn ids the lookup finds the row's own offset |
| TurnIndex.TurnRowsConcat | crates/infra-store/src/lib.rs:692-722 | the rows of two runs of lines are the rows of each |
| TurnIndex.TurnRowsAre | crates/infra-store/src/lib.rs:692-722 | row i is the line at the i-th turn start, no more and no fewer |
| TurnIndex.RowsDistinct | crates/infra-store/src/lib.rs:692-722 | distinct turns give rows with distinct ids |
| ConversationStore.CursorLookup | crates/infra-store/src/lib.rs:653-665 | the offset the index gives for a cursor is that of the item the scan stops at, and none exactly when the scan reads to the end |
| ConversationStore.RowsBelowCursor | crates/infra-store/src/lib.rs:653-665 | the rows below that offset are those of the turns the scan would have seen |
| ConversationStore.SliceReadsLines | crates/infra-store/src/lib.rs:670-690 | the bytes from a line to the page's end are valid text that reads as the lines between |
| ConversationStore.PageSpan | crates/infra-store/src/lib.rs:628-690 | the scan's page is a span of lines, which starts where the first selected row says and has more exactly when an extra row was selected |
| ConversationStore.IndexedPage | crates/infra-store/src/lib.rs:628-690 | with an exact index, for every limit and cursor, the slice the rows select reads as the scan's page with the scan's `has_more` |
| ConversationStore.AppendKeepsIndexExact | crates/infra-store/src/lib.rs:253-305 | an append keeps the index equal to a rebuild from the file's bytes |
| ConversationStore.RunsKeepIndexExact | crates/infra-store/src/lib.rs:253-305 | after any sequence of appends the log reads back as the items given, in order, without exactly the passing events, and the incrementally kept index is the rebuilt one |
| ConversationStore.AllPersistedIs | crates/infra-store/src/lib.rs:253-272 | what is persisted batch by batch is what is persisted of all items in a row |
| ConversationStore.ConversationStore.AppendRolloutItems | crates/infra-store/src/lib.rs:253-305 | the write loop with `next_offset` appends the persisted items and exactly their turn rows, and does nothing when there are none |
| ConversationStore.ConversationStore.LoadPageFromIndex | crates/infra-store/src/lib.rs:628-690 | a missing file is an empty page; otherwise the answer is the scan's page or none, and none only when no row was selected |
| ConversationStore.ConversationStore.RebuildTurnIndex | crates/infra-store/src/lib.rs:692-722 | a readable log makes the index exact; on failure the index is untouched |
| ConversationStore.ConversationStore.LoadPageByScanning | crates/infra-store/src/lib.rs:724-784 | the reference page, or the error that says why the log is unreadable |
| ConversationStore.ConversationStore.LoadRolloutItemsPage | crates/infra-store/src/lib.rs:601-626 | index, rebuild, index, scan together return exactly the scan's page for every readable log, limit and cursor, from an exact or empty index |
| ConversationStore.WalkPages | crates/agent-core/src/host/agent.rs:285-304 | asking one store for page after page, with the index found empty and rebuilt on the way, yields the pages of the walk by scanning, which cover the log once in order |
| Retention.SanitizedIs | crates/infra-store/src/lib.rs:914-922 | letters, digits, hyphens and underscores stay, every other character becomes an underscore |
| Retention.NamesAre | crates/infra-store/src/lib.rs:924-932 | direct and group chats have short file names, every other conversation is named after its id, and so were all of them once |
| Retention.SafeIdsDiffer | crates/infra-store/src/lib.rs:914-932 | ids of safe characters only have files of their own, whatever files there are |
| Retention.TotalRename | crates/infra-store/src/lib.rs:560-573 | moving a log to its canonical name leaves the bytes on disk as they were |
| Retention.ArchiveStore.RolloutPath | crates/infra-store/src/lib.rs:560-573 | the path named holds the conversation's log, wherever it was, and no other file has changed |
| Retention.ArchiveStore.TotalSessionBytes | crates/infra-store/src/lib.rs:812-827 | the sum over all session files, whatever the order they are listed in |
| Retention.ArchiveStore.PruneArchivedConversations | crates/infra-store/src/lib.rs:829-855 | the shortest prefix of the archived list that brings the total to the limit, or the whole list, is deleted; the running total is the bytes on disk throughout |
| Retention.DeletesOnlyTheirs | crates/infra-store/src/lib.rs:829-855 | nothing is added or changed, and every deleted file is named after a deleted conversation |
| Retention.OneDeletionExactly | crates/infra-store/src/lib.rs:840-853 | after one deletion another conversation's log is there, with the same bytes, exactly when the two logs were different files |
| Retention.SurvivesExactly | crates/infra-store/src/lib.rs:829-855 | a file survives a run of deletions exactly when none takes it: not as a canonical name, nor as a legacy name whose canonical file was missing or already taken |
| Retention.OthersKeepTheirLogs | crates/infra-store/src/lib.rs:829-855 | when distinct conversations have distinct files, exactly the files of the deleted ones go and every other conversation keeps its log byte for byte |
| Retention.SharedFile | crates/infra-store/src/lib.rs:914-932 | an input for the failing case of `OneDeletionExactly`: two different ids whose logs are one file |
| Retention.GoneExactly | crates/infra-store/src/lib.rs:560-573 | a deleted conversation still has a log exactly when it had one under each of two names |
| Protocol.MustBeDelivered | crates/agent-protocol/src/messages.rs:726-777 | requests and the notifications listed as lossless must be delivered, markers and the notice of the end need not |
| EventDelivery.SendExactly | crates/agent-app-server-client/src/lib.rs:659-699 | one channel operation, on the fields: with room the channel takes the owed marker or the event and nothing is counted; a full one makes a lossless event wait and any other count; a closed one takes nothing |
| EventDelivery.OweOneMore | crates/agent-app-server-client/src/lib.rs:659-699 | skipping one more best-effort event behind the owed ones is one longer owed run |
| EventDelivery.RunKeepsAccounts | crates/agent-app-server-client/src/lib.rs:659-699 | after every interleaving of producer and consumer steps, replacing each marker by the run it stands for, and the owed count by the run at the end, reproduces the offered events in order |
| EventDelivery.StandsForKeeps | crates/agent-app-server-client/src/lib.rs:659-699 | whatever stands for a sequence of events has the same lossless events in order and the same total count |
| EventDelivery.Conservation | crates/agent-app-server-client/src/lib.rs:659-699 | offered = delivered + lag counts + still owed, lossless events complete and in order, the channel never over capacity |
| EventDelivery.CountedExactly | crates/agent-app-server-client/src/lib.rs:659-699 | over every interleaving, as many events are counted or still owed as operations met a full channel, and all other settled events were put into it |
| EventDelivery.UncongestedIsExact | crates/agent-app-server-client/src/lib.rs:659-699 | where no operation met a full channel, the consumer is given all settled events themselves, in order, and no marker |
| EventDelivery.BlockedSendCanProceed | crates/agent-app-server-client/src/lib.rs:659-699 | the producer waits exactly for a lossless event on a full open channel, and one receive unblocks it |
| EventDelivery.Forwarder.ForwardEvent | crates/agent-app-server-client/src/lib.rs:659-699 | the method, with the consumer receiving or going away before each channel operation and while `send` waits, is always a run of that step system; it fails only when the receiver is gone; without a full channel it puts the owed marker and the event into it, and otherwise counts the event, best effort only, behind the marker if that got through |
| EventDelivery.Forwarder.SendMarker | crates/agent-app-server-client/src/lib.rs:664-685 | the owed marker goes first: sent, and nothing is owed, or the event is counted too, exactly when the channel was full, or the receiver is gone |
| EventDelivery.Forwarder.SendEvent | crates/agent-app-server-client/src/lib.rs:687-698 | the event itself: put into the channel, or counted exactly when it is best effort and the channel was full, or the receiver is gone |
| EventDelivery.Forwarder.SendWhenRoom | crates/agent-app-server-client/src/lib.rs:670-688 | `send` waits by steps of the consumer alone and then appends; it fails exactly when the channel is closed, or closes while it waits |
| EventDelivery.Forwarder.TrySendNow | crates/agent-app-server-client/src/lib.rs:674-698 | `try_send` appends, or reports full or closed, without waiting |
| TransportReader.NumberMessages | crates/agent-app-server/src/lib.rs:62-82 | the counter map gives each message its rank among the messages of its conversation |
| TransportReader.FirstIsOne | crates/agent-app-server/src/lib.rs:62-82 | the first message of a conversation carries number 1 |
| TransportReader.NumbersCountUp | crates/agent-app-server/src/lib.rs:62-82 | every later one carries one more than the one of its conversation before it |
| TransportReader.AcceptedExactly | crates/agent-app-server-client/src/remote.rs:402-416 | an arrival is accepted exactly when it has no number, or one above 0 and above all that arrived for its conversation before |
| TransportReader.AcceptedIncrease | crates/agent-app-server-client/src/remote.rs:402-416 | whatever arrives, the numbers accepted for a conversation strictly increase |
| TransportReader.AcceptsEachOnce | crates/agent-app-server-client/src/remote.rs:402-416 | over a link that repeats anything anywhere, exactly the messages carried are accepted, each once, in the order sent |
| TransportReader.FirstReplyIs | crates/agent-app-server-client/src/remote.rs:375-401 | the reply that settles a request is the first line that answers it, as a result or as an error |
| TransportReader.ReadTransportMessages | crates/agent-app-server-client/src/remote.rs:375-447 | the reader loop forwards exactly the accepted messages of the lines it can read through the channel's step system, answers each pending request with its first reply, fails the rest when the stream ends, and stops where a line is unreadable or the receiver is gone |
| MessageDelivery.ReadsUpToFirst | crates/agent-app-server-client/src/remote.rs:387-424 | of what the link carried the client reads to the end exactly when it can parse all of it, and forwards each message before the first it cannot parse, once and in order |
| MessageDelivery.ReadableCarried | crates/agent-protocol/src/wire.rs:591-632 | lines the client can read carry only messages before the first one it cannot parse |
| MessageDelivery.StopsAtFirst | crates/agent-protocol/src/wire.rs:591-632 | the line the reader stops at is that first message, never a repeat |
| MessageDelivery.AtRest | crates/agent-app-server-client/src/lib.rs:659-699 | between calls nothing is in hand: what was given and is owed stands for everything offered |
| MessageDelivery.EndToEnd | crates/agent-app-server-client/src/stdio.rs:318-394 | numbering, repeating link, parsing, reader and congested channel together, for every schedule of the consumer: while the receiver stays, the stream is drained exactly when every message carried can be parsed, and the client is given, or owed the count of, each message before the first that cannot, once and in order, every lossless one among them present; pending requests are failed only when it is drained; if the receiver goes away, what it got stands for a first part of these; without congestion it is given these messages themselves |
| MessageDelivery.ThroughIsLossless | crates/agent-app-server-client/src/lib.rs:636-657 | the disconnection notice adds nothing that must be delivered |
| MessageDelivery.AllGetThrough | crates/agent-app-server-client/src/remote.rs:375-447 | where every message can be parsed, all of them and the disconnection get through |
| MessageDelivery.SummaryPartEndsReading | crates/agent-app-server/src/projection/conversation_notifications.rs:250-270 | a server whose first message adds a reasoning summary part delivers nothing at all, although that message must be delivered |
| MessageDelivery.SummaryPart | crates/agent-app-server/src/projection/conversation_notifications.rs:250-270 | such an input: the one message, written and carried once |
| DiffRenderer.ScanRow | cli/src/terminal/custom_terminal.rs:403-417 | the column walk finds the last non-blank column, symbol by symbol |
| DiffRenderer.VisibleBounds | cli/src/terminal/custom_terminal.rs:403-424 | nothing visible lies behind the clear start, and every wide symbol ends in front of it |
| DiffRenderer.ClearStartIs | cli/src/terminal/custom_terminal.rs:403-424 | a row is cleared right behind the last column that shows something, in the background of its last cell |
| DiffRenderer.PlanClears | cli/src/terminal/custom_terminal.rs:403-424 | the first loop yields the clears row by row and the column bound of every row |
| DiffRenderer.PlanPuts | cli/src/terminal/custom_terminal.rs:426-446 | one pass over all cells with `invalidated` and `to_skip` puts exactly the columns that differ or lie behind a wide symbol of either frame, and are not covered |
| DiffRenderer.DiffBuffers | cli/src/terminal/custom_terminal.rs:399-448 | all clears, then all puts |
| DiffOutput.PutExactly | cli/src/terminal/custom_terminal.rs:426-446 | a column is sent exactly when it is not the second half of a new wide symbol, has changed or was the second half of an old one, and something shows in it or behind it, the first column always counting; it is sent with its own new cell |
| DiffOutput.ClearExactly | cli/src/terminal/custom_terminal.rs:403-424 | a clear is sent exactly for the rows that end in nothing, from where that starts |
| DiffOutput.PutsInOrder | cli/src/terminal/custom_terminal.rs:399-448 | clears first, then puts in reading order, so that nothing is sent twice |
| DiffOutput.SameFrame | cli/src/terminal/custom_terminal.rs:426-446 | a frame drawn over itself sends no column again |
| DiffRenderer.PaintedShowsDrawn | cli/src/terminal/custom_terminal.rs:399-448 | a screen line that shows the old row, or lacks some of its bold, shows after the clear and the puts what was really put, and where nothing was put what it showed before; half-overwritten wide symbols included |
| DiffRenderer.DiffShowsDrawn | cli/src/terminal/custom_terminal.rs:399-448 | the same for whole frames: puts that lose bold, on a screen that lacks bold already, leave exactly the frame without that bold, and touch no other row |
| DiffRenderer.DiffShowsNext | cli/src/terminal/custom_terminal.rs:399-448 | for any two well-formed frames, the commands turn a screen showing the one into a screen showing the other and touch no other row |
| DrawUpdates.ModifierChangesExact | cli/src/terminal/custom_terminal.rs:511-555 | the attribute codes lead from one modifier to the other exactly when it is not bold and dim to bold without dim |
| DrawUpdates.WriteCommand | cli/src/terminal/custom_terminal.rs:460-493 | one command is written with moves and colours left out where the tracked state allows it |
| DrawUpdates.WriteUpdates | cli/src/terminal/custom_terminal.rs:450-501 | the loop writes all commands and then resets colours and attributes |
| DrawUpdates.RunIsOneMove | cli/src/terminal/custom_terminal.rs:450-501 | text of one style in one row is sent as one move, its attributes and colours once, and its symbols |
| DrawUpdates.ModifierChangesReally | cli/src/terminal/custom_terminal.rs:511-555 | from attributes that may have lost bold, the codes lead to the new ones, with bold exactly when it was switched on or kept by every change since |
| DrawUpdates.ExecPutPrefix | cli/src/terminal/custom_terminal.rs:460-482 | when a put prints, the terminal's cursor is at the put's own position and its real colours are the cell's, whatever happened to the attributes |
| DrawUpdates.PutInPlace | cli/src/terminal/custom_terminal.rs:450-501 | the same for every put of a whole list the shortcuts are right for |
| DrawUpdates.FadedExactly | cli/src/terminal/custom_terminal.rs:460-493 | all puts reach the screen with their attributes exactly when none drops dim alone from the bold and dim put before it |
| FrameFlush.PairsMayFollow | cli/src/terminal/custom_terminal.rs:399-448 | no put comes right behind the column of its row's clear or of a wide put, where leaving out the move would be wrong, and no clear behind a put |
| FrameFlush.DiffIsOrderly | cli/src/terminal/custom_terminal.rs:399-448 | every list the diff produces is one the writer's shortcuts are right for, and fits the screen |
| FrameFlush.EveryPutInPlace | cli/src/terminal/custom_terminal.rs:450-501 | for any two frames, every put is printed with the cursor at its own position and in its own adapted colours |
| DrawUpdates.UpdatesSound | cli/src/terminal/custom_terminal.rs:450-501 | for such lists the shortened output does to the screen exactly what the commands mean, but for the bold they lose, and leaves the terminal reset |
| FrameFlush.DiffFades | cli/src/terminal/custom_terminal.rs:426-482 | of the puts of a frame exactly those lose their bold that `RealBuffer` says, which follows the attributes through all puts in reading order |
| FrameFlush.FlushShowsReal | cli/src/terminal/custom_terminal.rs:147-154 | whatever bold earlier frames lost and this one loses: through the actual control sequences the screen shows `RealBuffer`, which is the frame but for bold, and it shows the frame itself exactly when the two are equal |
| FrameFlush.KeepsBoldExactly | cli/src/terminal/custom_terminal.rs:450-501 | over a screen that lacks nothing, the two are equal exactly when no put drops dim alone from the bold and dim put before it |
| FrameFlush.FlushShowsNext | cli/src/terminal/custom_terminal.rs:147-154 | flushing any frame to a terminal that shows the previous one makes it show the next one, through the actual control sequences, exactly when no put drops dim alone from the bold and dim put before it |
| FrameFlush.OneIntensityIsShown | cli/src/terminal/custom_terminal.rs:450-555 | a frame without a bold and dim cell loses nothing |
| FrameFlush.BoldIsLost | cli/src/terminal/custom_terminal.rs:511-555 | an input: bold and dim text followed by bold text is not shown |
| HistoryLines.WriteHistoryLine | cli/src/terminal/custom_terminal.rs:300-332 | line colours win over span colours, attributes are set and unset around every span, all is reset at the end |
| HistoryLines.CellOfSpan | cli/src/terminal/custom_terminal.rs:300-332 | every symbol of every span, in order, has the line's colours where the line has any, else the span's, else the terminal's own |
| HistoryLines.ImageExactly | cli/src/terminal/custom_terminal.rs:211-219 | the finished line is blank padding, those symbols one behind the other at their widths, and blank to the end |
| HistoryLines.ExecLine | cli/src/terminal/custom_terminal.rs:300-332 | a written line changes the cursor's row alone, to its cells printed in order, and leaves the terminal plain |
| HistoryLines.ExecHistoryLine | cli/src/terminal/custom_terminal.rs:211-219 | at the bottom of a scroll region a line scrolls the region by one and becomes its last row |
| HistoryLines.AppendedMany | cli/src/terminal/custom_terminal.rs:211-219 | after several lines the region shows the newest rows of what was there and the lines |
| CustomTerminal.LastPutIs | cli/src/terminal/custom_terminal.rs:147-154 | the position remembered after a flush is that of the last put, or the old one when there is none |
| CustomTerminal.FlushMirrors | cli/src/terminal/custom_terminal.rs:147-154 | every flush leaves a terminal whose viewport rows are known again, `RealBuffer`, also for an empty viewport |
| CustomTerminal.CustomTerminal.constructor | cli/src/terminal/custom_terminal.rs:60-76 | a new terminal has an empty viewport at the cursor and satisfies the invariant |
| CustomTerminal.CustomTerminal.Draw | cli/src/terminal/custom_terminal.rs:128-145 | whatever is rendered and whatever was lost before, the invariant is kept, the frame is the new previous buffer, no row outside the viewport changes and the cursor is where the frame wants it; the screen shows `RealBuffer` of what it showed, and the frame exactly when that is equal to it |
| CustomTerminal.CustomTerminal.Flush | cli/src/terminal/custom_terminal.rs:147-154 | the same for the current buffer, and the cursor is remembered at the last put |
| CustomTerminal.CustomTerminal.SwapBuffers | cli/src/terminal/custom_terminal.rs:227-230 | the drawn buffer becomes the previous one, the other is blank |
| CustomTerminal.CustomTerminal.ClearAfterRow | cli/src/terminal/custom_terminal.rs:156-164 | the rows from the given one on are blank, those above unchanged, the previous buffer is reset |
| CustomTerminal.CustomTerminal.ClearForHistoryReplay | cli/src/terminal/custom_terminal.rs:166-176 | screen and buffers are blank, the invariant holds, and nothing is lacking any more |
| CustomTerminal.CustomTerminal.ScrollRegionUp | cli/src/terminal/custom_terminal.rs:285-297 | the rows above the given one move up by the amount, blank rows below them; nothing happens for an empty region |
| CustomTerminal.CustomTerminal.EnsureViewportHeight | cli/src/terminal/custom_terminal.rs:251-283 | the viewport is as wide as the screen and as high as asked for, at least one row and at most all; it goes to the bottom when it was there, is new or would not fit otherwise, and else stays; it is blank and lacks nothing if that is a new place, the invariant is kept, and the rows above it are the newest of what was above |
| CustomTerminal.AboveIs | cli/src/terminal/custom_terminal.rs:251-283 | no row above is lost and blank ones follow where the viewport starts further down; only a new viewport that starts further up takes the last of them |
| OneRowRegions.OverrunStep | cli/src/terminal/custom_terminal.rs:209-219 | on a terminal that refuses the region each line lands one row further down, until at the bottom the whole screen scrolls |
| OneRowRegions.AppendStep | cli/src/terminal/custom_terminal.rs:209-219 | one more line, on either kind of terminal: the rows above scroll, or the lines run down the screen |
| CustomTerminal.SurvivesExactly | cli/src/terminal/custom_terminal.rs:206-221 | after any number of lines the viewport survives exactly when the scroll region was taken, or every row that was written over looks as before |
| CustomTerminal.CustomTerminal.AppendLines | cli/src/terminal/custom_terminal.rs:206-220 | the loop leaves the screen of one of these two kinds and the terminal plain |
| CustomTerminal.InsertedExactly | cli/src/terminal/custom_terminal.rs:178-225 | the viewport's rows only move, and above them are the newest rows of old history, as many blank rows as the viewport was pushed down, and the lines; where the region is refused the screen is overrun, and the viewport survives exactly when that happens to change no row of it |
| CustomTerminal.CustomTerminal.InsertHistoryLines | cli/src/terminal/custom_terminal.rs:178-225 | screen and viewport are left as described, the buffers move with the viewport, the invariant holds exactly when the viewport survives, and the cursor returns to its last known place; without lines, viewport or rows above it nothing changes |
| DrawCoordinator.NewestAfterResize | cli/src/terminal/custom_terminal.rs:251-283 | a resize that is right for the rows on the screen is right for the whole log of history |
| DrawCoordinator.ViewportIs | cli/src/terminal/draw_coordinator.rs:25-41 | the viewport of every frame of a run is at the bottom, as wide as the screen and as high as asked for, at least one row and at most all |
| DrawCoordinator.DrawFrame | cli/src/terminal/draw_coordinator.rs:25-41 | one frame, whatever was lost before: the viewport is at the bottom with the height asked for, the newest rows of the extended log are above it, and it shows what was rendered but for bold, exactly that when `RealNext` is equal to it |
| DrawCoordinator.DrawFrames | cli/src/terminal/draw_coordinator.rs:25-41 | after each frame of any run, the screen is the newest rows of the log of everything inserted, above the frame rendered last, but for the bold that `RealAfter` computes from the frames alone; the frame is shown exactly when that is nothing |
| DrawCoordinator.NothingIsLost | cli/src/terminal/draw_coordinator.rs:25-41 | from a screen that lacks nothing, frames without bold and dim cells lose nothing: after every frame it is nothing |
| OutputTruncation.TruncatedIffOverBudget | crates/agent-core/src/output_truncation.rs:14-27 | a text is cut exactly when it has more than three characters for each token of the budget, and more than three; otherwise it is unchanged |
| OutputTruncation.KeepsBothEnds | crates/agent-core/src/output_truncation.rs:29-58 | the result is a prefix, the marker, a suffix and the notice, two thirds and one third of the tokens that marker and notice leave of the budget at three characters each, or else one character and three; the two do not meet in the text |
| OutputTruncation.DecimalMeans | crates/agent-core/src/output_truncation.rs:29-32 | the number in the marker is the tokens over the budget, in decimal without leading zeros |
| OutputTruncation.TokenBound | crates/agent-core/src/output_truncation.rs:10-59 | the result has at most max(budget, marker tokens + notice tokens + 2) tokens |
| OutputTruncation.FitsExactly | crates/agent-core/src/output_truncation.rs:10-59 | the result is within the budget exactly when the budget has that room, or marker and notice are short enough for four characters beside them |
| OutputTruncation.LengthExactly | crates/agent-core/src/output_truncation.rs:10-59 | exactly when the result is shorter than the text, as long, or longer: with that room it is always shorter |
| OutputTruncation.UnchangedExactly | crates/agent-core/src/output_truncation.rs:10-59 | exactly when a text reported as truncated is unchanged: there is no room, and the text already is a character, the marker, its own last three characters and the notice |
| OutputTruncation.Idempotent | crates/agent-core/src/output_truncation.rs:10-59 | truncating again, under any notice, does not truncate exactly when the result is within the budget; it changes nothing exactly when it does not truncate, or the notice is the same, text and result count as many tokens, and the last three characters of the text come last with the notice behind them |
| OutputTruncation.WithoutRoom | crates/agent-core/src/output_truncation.rs:10-59 | inputs for the failing cases of the three conditions above |
| Transcript.BuildTranscriptLines | cli/src/ui/transcript_line_builder.rs:72-108 | the loop computes the cell-by-cell specification, in which its check for earlier output does not occur |
| Transcript.StandsBetween | cli/src/ui/transcript_line_builder.rs:28-35 | around any cell of any list: between it and its neighbour no blank line if either is empty or it goes on with the neighbour's stream item, else one, and two on the live screen between talk and a tool; then its own lines for the mode |
| Transcript.BlankIs | cli/src/ui/transcript_line_builder.rs:150-157 | a line counts as blank exactly when all its characters have the White_Space property |
| Transcript.TrimTrailingBlankLines | cli/src/ui/transcript_line_builder.rs:150-157 | the pop loop computes the trimmed lines |
| Transcript.TrimmedIsLongest | cli/src/ui/transcript_line_builder.rs:150-157 | trimming removes all blank lines at the end and nothing else |
| Transcript.LinesConcat | cli/src/ui/transcript_line_builder.rs:72-108 | the lines of a + b are those of a, then those of b after a's last cell, from any context and in either mode |
| Transcript.IncrementalIsFull | cli/src/ui/transcript_line_builder.rs:56-63 | however the cells are split into batches, appending batch after batch is the full replay |
| Transcript.TrimmedBatchesExact | cli/src/ui/transcript_line_builder.rs:46-54 | trimmed batches add up exactly when the second shows nothing or the first had nothing to trim |
| Envelope.ExtractInjected | crates/agent-protocol/src/wire.rs:134-190 | a field added to the parameters comes out again and leaves them as they were, except that null has become an empty object |
| Envelope.ParsesWhatWasWritten | crates/agent-protocol/src/wire.rs:192-421 | every command is read back from the method and parameters it is written as, empty object for null included |
| Envelope.ParsedMethod | crates/agent-protocol/src/wire.rs:192-421 | a command is only ever read from the method it is written as, and an unknown method is refused |
| Envelope.DefaultLimits | crates/agent-protocol/src/wire.rs:213-221 | a page request without a limit, or with null, asks for 30 turns or 25 conversations |
| Envelope.ReadsConversation | crates/agent-protocol/src/wire.rs:198-212 | a command about one conversation is read exactly from an object that names it in a string; each other case has its own error |
| Envelope.CommandRoundTrip | crates/agent-protocol/src/wire.rs:42-190 | every command arrives with its request id and its optional context |
| Envelope.ServerRoundTripExactly | crates/agent-protocol/src/wire.rs:77-155 | a server message arrives with its optional sequence number exactly when its kind is listed by the parser, which only `ReasoningSummaryPartAdded` is not; that one is refused |

## Left out

- Integer widths: lengths, limits, offsets and screen coordinates are unbounded; only the lag counter, which saturates at 64 bits, has its bound, and the delivery results assume fewer events than that.
- Record codecs: the bodies of the JSON codecs are not part of the model; log records use the three laws above, envelopes use codecs that undo themselves and write objects without the reserved field.
- Envelope method and field names: told apart as constructors, not by their spelling; the spellings in the repository are pairwise different.
- Envelope.ParsesWhatWasWritten: writer and parser use the same method and the same fields for every command; which ones these are is a table that is stated once.
- The database: the turn index and the list of archived conversations are tables with the meaning of the queries; transactions and failures of the database are not modelled.
- Stale or partly filled turn indexes: an append to a log whose index is empty leaves rows for the new turns only, and deleting events does not touch the index; the code does not promise agreement with the scan there.
- Appends after a torn tail: the code does not repair the tail first, so the appended record joins the torn one.
- Duplicate turn ids: the index keeps the last offset of an id and the scan stops at its first, so pages are compared for logs with distinct ids.
- ConversationStore.ConversationStore.LoadRolloutItemsPage: says nothing about the page of an unreadable log, for which the slices of the index may still parse.
- RolloutLog.ParseItems: the wording of parse errors is reduced to the line number.
- Session summaries, titles and the directory itself: shallow copies of fields.
- Retention.OthersKeepTheirLogs: renaming a legacy log is taken to succeed; the code ignores a failed rename and then uses the legacy name.
- EventDelivery.Conservation: delivery of the disconnection notice is not promised, because the code classifies it as not requiring delivery.
- Fairness: a waiting `send` proceeds when the consumer receives; that the consumer ever does is not modelled.
- TransportReader.ReadTransportMessages: requests registered while the reader runs are not modelled, nor is the error output added to the stdio disconnection message; pending requests are not failed when the receiver is gone or a line is unreadable, as in the code.
- Events during the initialize handshake: buffered without sequence tracking; the model starts after it.
- Writing commands: the outbound tasks register a pending request and write a line; nothing is proved about them.
- Cell attributes: underline colour, blinking and hidden text have no escape sequences in the renderer and are left out of how a cell looks.
- DiffRenderer.DiffShowsNext: symbols are one or two columns wide, no cell has `skip` set, and the area starts at column 0, the only value the program builds.
- DrawCoordinator.DrawFrame: history lines fit the screen's width (no wrapping), and no history is inserted above a viewport that starts on the second row of a terminal without one-row scroll regions; the physical size of the screen is fixed, so reflow is not modelled.
- DrawCoordinator.DrawFrames: runs of such frames.
- Terminal scrollback: rows that leave the top of the screen are gone, and purging the scrollback has no effect in the model.
- Buffer resizing: `Buffer::resize` and `Buffer::reset` behave as in ratatui 0.29.
- Colour quantisation: the adapted colours are two functions that leave the reset colour alone.
- Transcript cells: the lines a cell is drawn as, and whether its body is blank, are given.
- Gateways, slash commands, configuration, layout and console calls: not modelled.
