# YiFPGA debug transport: a verified model

The repository moves debug frames from an FPGA to a desktop viewer. On the device a ring-buffer
mailbox collects frames; a host process reads it through JTAG, either with a direct FTDI MPSSE
engine or through a mock; a bridge publishes each block to any number of socket clients; and a
validator and a web viewer cut the byte stream back into frames, reassemble Logic Analyzer
captures and write diagnostic snapshots. This project models that path from the mailbox to the
decoded frame, and a few host-side transformations beside it.

How the files correspond to the program:

- `Bytes`, `Bits`, `Arithmetic`, `Sequences`, `Wrappers`: bytes are integers below 256, multi-byte
  numbers are little-endian, `U32` is the source's `& 0xFFFFFFFF`, bitwise operators are written out.
- `MailboxHeader`, `Mailbox`, `MailboxModel`, `MailboxRuns`: the mailbox. `Mailbox.Box` is one
  session as a value (its whole accepted log, with unbounded counters); `MailboxModel.Model` is the
  ring over an array with wrapped 32-bit counters and refines it; `MailboxRuns` adds transactions
  handed out and committed late, twice or never.
- `Tap`, `Mpsse`, `ScanPieces`, `ScanEffect`, `ScanBatch`, `ScanEngine`, `JtagCommands`: the scan
  engine. `Tap` is the controller of section 6.1 of IEEE Std 1149.1; `Mpsse` interprets the command
  bytes (sections 3.4 to 3.6 of FTDI AN_108). Whole replies arrive least significant bit first, a
  bit-wise reply is top-aligned with arbitrary noise below it, a TMS read sits in bit 7 under noise.
- `Checksums`, `FrameScan`, `DebugFrames`, `FrameFeed`, `FrameStream`, `FrameLaws`, `Decoder` (module
  `ValidatorDecoder`): the frame format and the two resynchronising parsers, one rule each over a
  common scan.
- `BridgeProtocol`: bridge records on the wire.
- `Backend`, `BackendClasses`, `Clients`, `Bridge`: the two backends, the client queues and the bridge.
- `BridgeSystem`, `BridgeOrigins`, `BridgeCommits`, `BridgeSizes`, `BridgeSafety`, `BridgeDelivery`, `EndToEnd`,
  `Draining`: everything together, one step at a time. Device writes and resets may fall between the header
  scan, the block scan and the commit, and each call may fail before it reached the device
  (`Unsent`) or after the device obeyed it (`Unanswered`). What `pump_once` does after its await
  is one step. `BridgeOrigins` and `BridgeCommits` hold in every run; `Calm` in the others means that no reset falls
  between the two scans of one transaction of the direct backend, nor a whole turn of the session
  ids into one transaction of the other.
- `ViewerSession`, `SessionTurns`, `ViewerIsolation`, `FullTurns`, `SessionFrames`, `ViewerDelivery`,
  `ViewerApp`: the viewer's receive path, where sessions change on it, and what arrives of each. A session is known by the number of resets before
  it (its epoch), because its id comes back after 2^32 - 1 resets.
- `Captures`, `LogicAnalyzer`, `CaptureFrames`: reassembly of captures from sample frames.
- `JsonText`, `JsonScan`, `JsonRead`, `Canonical`, `Timestamps`, `RunLength`, `AnalysisRequests`: canonical
  text, timestamp unwrapping, run-length evidence, and the lifecycle of provider requests.

Where the source keeps state in an object, the model keeps it in a class whose methods are proved
against functions on values; the theorems are about those functions. What these functions compute
is stated a second time without them: in bits and bytes on the wire (`ChecksumMeans`,
`VerdictMeans`, `AcceptedMeans`, `ScanSpelled`, `FrameMeans`), in the bytes a call gained or lost
(`DroppedOnlyWhenFull`, `TransactionMeans`, `PublishedFull`, `SlowMeans`), in what was parsed or
stored (`ValidatorCounts`, `ViewerCounts`, `ErrorsMean`, `CountersMean`), or by a reader of the
result (`TextReadBack`). Some proofs `hide` a function
body to keep the solver's context small.

Some results are about where a promise fails. Each is proved with an input that shows it and with
the exact condition:

- a stale commit after a full turn of the session ids: `StaleCommitAfterFullTurn`, `CommitAccepted`;
- a block of the direct backend labelled with the wrong session, by a reset between its two scans:
  `ResetMislabels`, `LabelsRight`, and `ResetFound`, `CommitCheckExactly` for what the delayed
  commit check makes of it;
- a change of session the bridge does not notice, so that the viewer's buffer mixes two sessions:
  `FullTurnMixes`, `MixedExactly`, and `NoticedInWindow` for the runs in which it cannot happen;
- a frame whose length byte was damaged on its way and still checks: `LengthNotCaught`,
  `SpoiledRefused` for every other byte;
- a frame the viewer loses inside a rejected candidate: `ViewerLosesFrame`, `ViewerTakesFrame`;
- a client cut off although its writer had just emptied its queue: `QueueOfOneCutsOff`, `PublishRoom`;
- a timestamp step of half a turn: `HalfTurnMissed`, `AllTicksRecovered`;
- arrays in canonical text that hold one undefined item: `UndefinedItemVanishes`, `TextsMeet`, `LoneCollides`;
- an old provider request whose timer stops the newest one: `OldTimerFailsNewRun`, `TimerHitsNewest`;
- a cancelled request shown as completed, by a provider that ignores the signal: `LateAnswerShown`,
  `CancelledStays`.

## Model

| member | source | states |
|---|---|---|
| `MailboxHeader.UnpackOfPack` | tools/jtag/mailbox_model.py:68-90 | every header that validates and packs is read back unchanged |
| `MailboxHeader.PackOfUnpack` | tools/jtag/mailbox_model.py:84-104 | every 40 bytes the host accepts as a header are exactly what packing that header gives, so no two byte strings name one header |
| `MailboxHeader.AcceptedMeans` | tools/jtag/mailbox_model.py:84-104 | 40 bytes are accepted as a header if and only if each field stands at its offset in little-endian order, magic and version are right, the capability bit is set, the size is one of the five, and unread bytes fit and equal the wrapped counter difference |
| `Mailbox.HeaderSurvives` | tools/jtag/mailbox_model.py:92-143 | the header of any reachable mailbox validates and survives the trip, whatever the counters wrapped to |
| `Mailbox.StoreKeepsUnread` | tools/jtag/mailbox_model.py:145-149 | storing at the write position never touches an unread byte |
| `Mailbox.WrappedIndex` | tools/jtag/mailbox_model.py:163-167 | indexing the ring by the wrapped counter finds the byte the true counter names, for each supported size |
| `MailboxModel.Model.constructor` | tools/jtag/mailbox_model.py:117-127 | a new mailbox is the empty session 1 |
| `MailboxModel.Model.AvailableBytes` | tools/jtag/mailbox_model.py:129-131 | the wrapped distance is the true number of unread bytes |
| `MailboxModel.Model.Header` | tools/jtag/mailbox_model.py:133-143 | the header shows the session's counters modulo 2^32 |
| `MailboxModel.Model.Write` | tools/jtag/mailbox_model.py:145-154 | drop-newest: the front of the write joins the log, and all of it unless the ring is then full; the rest is counted as dropped, with one overflow exactly if there is a rest, and the ring still holds exactly the unread suffix of the log |
| `MailboxModel.Model.BeginRead` | tools/jtag/mailbox_model.py:156-168 | a read returns the next log bytes without consuming them, or the source's error in the source's order |
| `MailboxModel.Model.Commit` | tools/jtag/mailbox_model.py:170-177 | a commit advances by its length or is refused as stale and changes nothing |
| `MailboxModel.Model.Reset` | tools/jtag/mailbox_model.py:179-185 | a reset starts the next session empty, skips id 0 and clears the buffer |
| `MailboxRuns.CommitAccepted` | tools/jtag/mailbox_model.py:170-177 | a commit is accepted exactly when resets since the read are a multiple of 2^32-1, commits since are a multiple of 2^32, and the data fits |
| `MailboxRuns.CommitAcceptedInWindow` | tools/jtag/mailbox_model.py:170-177 | inside the window that means: no reset and nothing committed since the read |
| `MailboxRuns.Transactions` | tools/jtag/mailbox_model.py:156-185 | over every interleaving of writes, reads, commits and resets the committed transactions of a session concatenate to the committed prefix of its log, and none commits twice |
| `MailboxRuns.OfferedAccounted` | tools/jtag/mailbox_model.py:145-154 | bytes offered to a session equal its write count plus dropped bytes modulo 2^32 |
| `MailboxRuns.DroppedOnlyWhenFull` | tools/jtag/mailbox_model.py:145-154 | at every write of every run the front of the data is kept and the rest counted, and a byte is dropped only if the ring is full after it |
| `MailboxRuns.StaleCommitAfterFullTurn` | tools/jtag/mailbox_model.py:170-185 | after 2^32-1 resets a transaction of the first session is accepted for a byte it never read |
| `Tap.PlayShifting` | tools/jtag/ftdi_mpsse.py:125-132 | data clocks with TMS low stay in Shift-DR and exchange one bit per clock |
| `Mpsse.ExecuteBatch` | tools/jtag/ftdi_mpsse.py:150-158 | a written batch, with or without the final flush, does what its commands do one by one |
| `ScanPieces.CompileScan` | tools/jtag/ftdi_mpsse.py:119-136 | the loop produces the pieces the specification lists, for every valid scan |
| `ScanPieces.PiecesCompile` | tools/jtag/ftdi_mpsse.py:119-136 | every piece spells exactly one command and announces exactly the number of bytes that command answers |
| `ScanPieces.ScanSpelled` | tools/jtag/ftdi_mpsse.py:119-136 | the bytes of a scan: entry, data pieces of 251 bytes and a last shorter one in order, the bits left over, the exit bit with the value of the last bit, the way back to idle |
| `ScanEffect.OneScan` | tools/jtag/ftdi_mpsse.py:119-136 | from Run-Test/Idle one scan is one Capture-DR, exactly `total` Shift-DR clocks carrying the outgoing bits least significant first, one Update-DR, and back to Run-Test/Idle |
| `ScanBatch.AllScans` | tools/jtag/ftdi_mpsse.py:138-186 | a list of scans does this for each in turn |
| `ScanBatch.AllReplies` | tools/jtag/ftdi_mpsse.py:150-167 | the replies collected for one scan are exactly that scan's, whatever the other scans in the list |
| `ScanBatch.Rebuild` | tools/jtag/ftdi_mpsse.py:174-186 | the result is the whole reply bytes and one last byte made of the shifted remainder and the exit bit |
| `ScanBatch.RebuiltExactly` | tools/jtag/ftdi_mpsse.py:174-186 | that is exactly the captured bits, zero-padded, for every TDO stream and every noise in the unused reply bits |
| `ScanEngine.Demultiplex` | tools/jtag/ftdi_mpsse.py:160-165 | every reply byte goes to the scan its piece came from |
| `ScanEngine.Flush` | tools/jtag/ftdi_mpsse.py:150-167 | one exchange runs its batch, takes its replies apart, leaves nothing pending and asks once |
| `ScanEngine.RunPieces` | tools/jtag/ftdi_mpsse.py:169-172 | greedy batching runs all pieces once and in order, and its exchanges are packed |
| `ScanEngine.FewExchanges` | tools/jtag/ftdi_mpsse.py:29-30 | n packed exchanges carry at least 257 reply bytes for every two of them |
| `JtagCommands.ScanMany` | tools/jtag/ftdi_mpsse.py:138-186 | a list with a scan of no bits, or of more bits than it brings, causes no write at all; otherwise each scan returns exactly its captured bits, each is complete on the port, and no exchange exceeds 256 reply bytes nor fits with its neighbour |
| `JtagCommands.UserCommand` | tools/jtag/ftdi_mpsse.py:205-210 | one complete request scan and then one complete payload scan: 32 data clocks shift 0xA6, the opcode and the 16-bit length with the low bit first; the caller gets the payload bits; too long and empty requests write nothing |
| `JtagCommands.RequestArrives` | tools/jtag/ftdi_mpsse.py:205-206 | from the 32 bits it was shifted the target reads back 0xA6, the opcode and the length, for every opcode and length |
| `JtagCommands.Tms` | tools/jtag/ftdi_mpsse.py:111-116 | one TMS command moves the port by exactly its pattern |
| `JtagCommands.TapReset` | tools/jtag/ftdi_mpsse.py:188-190 | Run-Test/Idle is reached from any state |
| `JtagCommands.SelectUser2` | tools/jtag/ftdi_mpsse.py:192-199 | from Run-Test/Idle exactly the six bits of USER2 enter the instruction register, and the port returns to Run-Test/Idle |
| `DebugFrames.ParseIsGreedy` | tools/viewer/validate_uart_board.py:40-76 | both parsers take candidates by the leftmost greedy choice, stated without a parser: the validator among whole frames, the viewer among headers with a plausible length whatever their checksum |
| `DebugFrames.GreedyUnique` | tools/viewer/validate_uart_board.py:40-76 | there is only one such choice |
| `DebugFrames.DecidedInTime` | tools/viewer/validate_uart_board.py:53-55 | a frame is decided once 37 bytes from its start have arrived |
| `DebugFrames.LeftoverBounded` | tools/viewer/validate_uart_board.py:42-55 | fewer than 37 bytes are ever left undecided |
| `Checksums.ChecksumMeans` | tools/viewer/validate_uart_board.py:112-117 | the checksum is the one byte in which each of the eight bits tells whether an odd number of the bytes have it |
| `FrameFeed.CutIndependent` | tools/viewer/validate_uart_board.py:40-76 | for both parsers, feeding a stream in any pieces leaves the state and output of feeding it whole |
| `FrameStream.MakeFrame` | tools/viewer/validate_uart_board.py:112-117 | the built frame is start byte, version, type, length, payload and a last byte whose bits are the parities of those between; the checksum loop included |
| `FrameLaws.VerdictMeans` | tools/viewer/validate_uart_board.py:42-69 | what either parser makes of the front of its buffer, in terms of the bytes there: wait, skip, take or give up, and how far it moves on |
| `FrameLaws.TakenIsBuilt` | tools/viewer/validate_uart_board.py:40-76 | the validator takes exactly the frames that can be built from a message |
| `FrameLaws.SpoiledRefused` | tools/viewer/validate_uart_board.py:58-69 | any other value of any one byte of a built frame, except its length, makes both parsers refuse the candidate, whatever follows |
| `FrameLaws.LengthNotCaught` | tools/viewer/validate_uart_board.py:51-60 | a changed length can name another frame that checks |
| `FrameStream.FrameDecided` | tools/viewer/validate_uart_board.py:112-117 | both parsers take a built frame whole and read its message back, whatever follows it |
| `FrameStream.PrefixDelivered` | tools/viewer/validate_uart_board.py:40-76 | after any prefix of a stream of built frames exactly the complete ones are delivered, in order, with no error counted |
| `FrameStream.StreamDelivered` | tools/viewer/validate_uart_board.py:40-76 | a whole stream, cut anywhere, comes out complete and leaves an empty buffer |
| `FrameStream.BytesAccounted` | tools/viewer/validate_uart_board.py:40-76 | on any bytes: bytes fed are sync drops plus checksum errors plus frame sizes plus buffer |
| `FrameLaws.ValidatorCounts` | tools/viewer/validate_uart_board.py:40-76 | after any bytes in any pieces: the first frame taken divides what was parsed; checksum errors are the candidates given up behind it, sync drops the skipped bytes and the candidates given up before it, and the first four errors are kept in order |
| `FrameLaws.ViewerCounts` | tools/viewer/web/app.js:444-476 | after any bytes in any pieces the viewer counts every candidate given up as a checksum error and every skipped byte as a sync drop, and delivers version, type and payload of the frames taken |
| `FrameStream.ValidatorFrames` | tools/viewer/validate_uart_board.py:40-76 | on any bytes, cut anywhere, the frames are those of the greedy choice and the buffer is what lies behind it |
| `FrameStream.ViewerLosesFrame` | tools/viewer/web/app.js:464-470 | the viewer can lose a frame that the validator finds |
| `FrameStream.ViewerTakesFrame` | tools/viewer/web/app.js:444-476 | a frame in the decided bytes is taken if and only if it is in the greedy choice of headers up to it, and lost if and only if an earlier chosen header covers its start; no checksum is needed to tell |
| `ValidatorDecoder.Decoder.Feed` | tools/viewer/validate_uart_board.py:40-76 | the loop brings buffer, frames, counters and kept bad frames to the state `ValidatorCounts` describes |
| `ValidatorDecoder.Decoder.CountBad` | tools/viewer/validate_uart_board.py:60-68 | before the first frame a bad checksum is a drop, afterwards an error, and at most four bad frames are kept |
| `BridgeProtocol.DecodeAvailable` | tools/jtag/bridge_protocol.py:55-67 | the loop returns the whole records and the remainder, or the error of an oversize record |
| `BridgeProtocol.DecodeWire` | tools/jtag/bridge_protocol.py:30-67 | encoded records come back, followed by whatever the tail decodes to |
| `BridgeProtocol.FrameMeans` | tools/jtag/bridge_protocol.py:30-47 | a record is framed exactly if its kind is a byte and its payload no longer than 16 MiB: the kind, the length in four little-endian bytes, the payload |
| `BridgeProtocol.OversizeExactly` | tools/jtag/bridge_protocol.py:55-67 | decoding fails if and only if behind whole records stands a length above 16 MiB |
| `BridgeProtocol.ChunksIndependent` | tools/jtag/bridge_protocol.py:55-67 | with the remainder carried, any cut gives the records, remainder or error of no cut |
| `BridgeProtocol.RecordsReceived` | tools/jtag/bridge_protocol.py:30-67 | a stream of whole records, cut anywhere, is received exactly |
| `BridgeProtocol.RecordsPrefix` | tools/jtag/bridge_protocol.py:55-67 | a reception that stops anywhere, inside a record too, has decoded exactly the records that are complete, with no error |
| `BackendClasses.Scanner.PayloadCommand` | tools/jtag/ftdi_backend.py:71-77 | the device reads and commits in one payload scan, or refuses |
| `BackendClasses.FtdiMpsseBackend.Open` | tools/jtag/ftdi_backend.py:36-51 | a target other than the configured one is refused with nothing changed; otherwise opening checks the build before consuming anything, and a failed opening leaves the backend closed |
| `BackendClasses.FtdiMpsseBackend.ReadHeader` | tools/jtag/ftdi_backend.py:58-69 | identity check, then the deferred commit check, each with its error and unchanged state |
| `BackendClasses.FtdiMpsseBackend.ReadBlock` | tools/jtag/ftdi_backend.py:71-84 | the block carries the cached labels and the scanned bytes; every refusal in the source's order |
| `BackendClasses.FtdiMpsseBackend.Commit` | tools/jtag/ftdi_backend.py:86-92 | only the last block commits, and what the next header must show is remembered |
| `BackendClasses.FtdiMpsseBackend.Close` | tools/jtag/ftdi_backend.py:94-100 | closing forgets header, block and expectation |
| `BackendClasses.MockBackend.Open` | tools/jtag/jtag_backend.py:78-81 | only a listed target opens |
| `BackendClasses.MockBackend.ReadHeader` | tools/jtag/jtag_backend.py:83-89 | the live header, or the refusal of a backend that is not open |
| `BackendClasses.MockBackend.ReadBlock` | tools/jtag/jtag_backend.py:91-94 | the mock reads a transaction without consuming it |
| `BackendClasses.MockBackend.Commit` | tools/jtag/jtag_backend.py:96-100 | the mock commits that transaction, or reports it stale |
| `Clients.ClientStreams` | tools/jtag/yifpga_jtag_bridge.py:75-155 | in every run each client has been sent HELLO and a gap-free prefix of the records broadcast since it joined, its queue never exceeds the depth, and each DATA record belongs to the session last announced to it |
| `Clients.NothingAfterCutOff` | tools/jtag/yifpga_jtag_bridge.py:75-87 | a client that was cut off or left is never sent anything again |
| `Clients.ShutdownSilences` | tools/jtag/yifpga_jtag_bridge.py:65-79 | when the bridge shuts down every client is cut off, and whatever is done after that, no client is sent anything again |
| `Clients.StepKeeps` | tools/jtag/yifpga_jtag_bridge.py:75-193 | every step of the bridge keeps the client invariant |
| `Bridge.Bridge.Disconnect` | tools/jtag/yifpga_jtag_bridge.py:75-79 | the client is forgotten, its queue emptied, its writer told to stop |
| `Bridge.Bridge.Broadcast` | tools/jtag/yifpga_jtag_bridge.py:81-87 | every listed client gets the record or, if full, is cut off; each cut is counted once |
| `Bridge.Bridge.Publish` | tools/jtag/yifpga_jtag_bridge.py:174-193 | a changed session is announced before its data; every statistic, the clients cut off by either record included, and the capture file with its metadata are as specified |
| `Bridge.SlowMeans` | tools/jtag/yifpga_jtag_bridge.py:81-87 | the count of slow clients grows by the clients served before a publication and not after it |
| `Bridge.Bridge.ReadTransaction` | tools/jtag/yifpga_jtag_bridge.py:157-170 | header, identity, block, labels, commit, in this order with every error path, over either backend and with any call failing; a block is all that the header showed or has the full block size, carries the header's labels, and exactly its bytes are consumed |
| `Bridge.TransactionMeans` | tools/jtag/yifpga_jtag_bridge.py:157-170 | the same of the device's log: a returned block is its next bytes, as many as there are or as a block holds, and they are committed; a transaction that fails loses at most those it read, and nothing else of the device changes |
| `Bridge.Bridge.CountMatches` | tools/jtag/yifpga_jtag_bridge.py:213-217 | the loop counts how often the original target is listed |
| `Bridge.Bridge.ReconnectOnce` | tools/jtag/yifpga_jtag_bridge.py:212-225 | close, enumerate, go on only if the original target is listed exactly once, open, recheck the header; a changed identity closes again |
| `Bridge.ReconnectMeans` | tools/jtag/yifpga_jtag_bridge.py:212-225 | recovery succeeds if and only if the target is listed once, opening and recheck go through, and the device is the one that was configured |
| `Bridge.Bridge.WriteNext` | tools/jtag/yifpga_jtag_bridge.py:141-150 | the writer sends the front of its queue or stops |
| `Bridge.Bridge.Close` | tools/jtag/yifpga_jtag_bridge.py:65-69 | shutting down cuts off all listed clients, those already cut off being left alone, and closes the backend |
| `BridgeSafety.NextKeeps` | tools/jtag/yifpga_jtag_bridge.py:157-225 | each step of device, backend, bridge or client keeps the system invariant, failures included |
| `BridgeOrigins.PublishedExactly` | tools/jtag/yifpga_jtag_bridge.py:157-225 | in every run, whatever fails or is reset: each published block is a segment of one session's log, the published segments never overlap or go back, each block's labels name its own place or as many bytes that an earlier session accepted, and over the mock its own place |
| `BridgeSafety.LabelsKept` | tools/jtag/yifpga_jtag_bridge.py:157-225 | without a reset between the two scans of one transaction each published block equals its session's log at its start count |
| `BridgeSizes.PublishedFull` | tools/jtag/yifpga_jtag_bridge.py:157-192 | every block published in a run carries the session and read count of the header it was read behind, and is all the bytes that header showed or a block of the full size |
| `BridgeOrigins.LossIsVisible` | tools/jtag/yifpga_jtag_bridge.py:186-188 | in every run, between neighbouring blocks of a session the second block's labels are right, and the wrapped difference of the start labels is the number of bytes lost modulo 2^32 if and only if the first start label is right, and that number itself if and only if it is below 2^32 as well; the two blocks with those bytes between them are one segment of the log |
| `BridgeDelivery.NothingLost` | tools/jtag/yifpga_jtag_bridge.py:157-193 | if no call fails, the published blocks of every session tile a prefix of its log from the first byte, with no gap, and between transactions all that was committed; over the direct backend whenever the device is reset |
| `BridgeCommits.CommitCheckExactly` | tools/jtag/ftdi_backend.py:62-67 | at every header scan of every run the delayed check fails if and only if a commit is unchecked and the last published block, of the running session, has a wrong start label, or, of an earlier session, promises a count other than zero |
| `BridgeDelivery.ResetFound` | tools/jtag/ftdi_backend.py:58-84 | a reset and a write between the two scans make the next header scan fail if and only if the header had shown a read count other than zero |
| `BridgeDelivery.LabelsRight` | tools/jtag/ftdi_backend.py:71-84 | after any history, whatever the device and the clients do between the two scans: the block holds the bytes the device shows next, and its labels name their place if and only if no reset came since the header was read, or whole turns of the session ids did and the header showed read count zero |
| `BridgeDelivery.ResetUnnoticed` | tools/jtag/ftdi_backend.py:71-92 | from any state with a header in hand, a reset and a write before the payload scan are published under the old labels |
| `BridgeDelivery.ResetMislabels` | tools/jtag/ftdi_backend.py:71-92 | a run from power-up that publishes a byte of session 2 as session 1's |
| `BridgeDelivery.StepsAreTransaction` | tools/jtag/yifpga_jtag_bridge.py:157-170 | with nothing in between, the three steps are one transaction |
| `BridgeDelivery.StepsAreReconnect` | tools/jtag/yifpga_jtag_bridge.py:212-225 | the three recovery steps are one reconnect and touch neither device nor publications |
| `EndToEnd.SessionIsolation` | tools/jtag/yifpga_jtag_bridge.py:165-192 | each DATA record on each client's stream is the published block of its number: its bytes are that block's segment of one session's log, and the session announced last on the stream is the one the block was published under, which is the session of the bytes over the mock and in calm runs |
| `EndToEnd.SentIsLog` | tools/jtag/yifpga_jtag_bridge.py:157-193 | with no failure and no reset the payloads sent to a client connected throughout are a prefix of the device's log, and all committed bytes once its queue is empty |
| `EndToEnd.FramesArrive` | tools/jtag/yifpga_jtag_bridge.py:157-193 | frames built, written in any pieces between any steps with the last one perhaps under way, and received in any pieces up to any byte are decoded once each and in order, for every block size and both backends; exactly those written to their end once mailbox, queue and wire are empty |
| `Draining.PublishRoom` | tools/jtag/yifpga_jtag_bridge.py:81-87 | a client with an empty queue survives a publication if and only if its queue holds two records, or the session did not change, or there is no data |
| `Draining.QueueOfOneCutsOff` | tools/jtag/yifpga_jtag_bridge.py:174-192 | a run from power-up in which a waiting client with a queue of one record is cut off by the first block |
| `Draining.Drained` | tools/jtag/yifpga_jtag_bridge.py:195-225 | from any state that a run can reach, as many turns of the pump's loop and the writer as the unread bytes make blocks, the last one perhaps short, one more to finish what is under way and one more to recover, empty mailbox and queue, and the client is still served |
| `Draining.AlwaysDrains` | tools/jtag/yifpga_jtag_bridge.py:195-225 | after any failures and resets, once calls succeed and the device stays up: two turns more than the unread bytes make blocks leave the backend open, the mailbox empty, and a client that was still served sent everything broadcast |
| `Draining.RecoveryDone` | tools/jtag/yifpga_jtag_bridge.py:212-225 | closing, opening and rechecking after a failure leaves a bridge whose next check passes, and touches neither device nor clients |
| `Draining.AllFramesArrive` | tools/jtag/yifpga_jtag_bridge.py:172-193 | after as many turns as the unread bytes make blocks and one more, every message written to its end has been decoded, once and in order, with no error |
| `ViewerSession.ReceiveCut` | tools/viewer/web/app.js:2338-2354 | however the socket cuts the record stream the viewer ends in the same state |
| `ViewerSession.FramesPerSession` | tools/viewer/web/app.js:2360-2391 | on any record stream the decoded frames are those of each session's payloads parsed alone from an empty buffer |
| `ViewerIsolation.NoMixedFrames` | tools/viewer/web/app.js:2360-2391 | from any part of any client's stream of any run the viewer decodes the frames of its segments parsed apart; the segments are the stream cut at its session records, each piece is the published block of its number with that block's bytes of its session's log, and if the bridge noticed every change of session each segment comes from one session |
| `ViewerIsolation.TextsExist` | tools/jtag/bridge_protocol.py:34-47 | in every run there are texts that tell every client the sessions it needs and fit the protocol |
| `ViewerIsolation.MixedExactly` | tools/viewer/web/app.js:2360-2391 | for a client served throughout, each segment comes from one session if and only if the bridge noticed every change of session |
| `FullTurns.NoticedInWindow` | tools/jtag/yifpga_jtag_bridge.py:172-180 | every change is noticed if neighbouring blocks are less than a whole turn of the session ids apart |
| `FullTurns.FullTurnMixes` | tools/jtag/yifpga_jtag_bridge.py:174-178 | a run in which 2^32-1 resets between two blocks go unnoticed, so that both follow one SESSION record |
| `SessionFrames.RunTogether` | tools/jtag/yifpga_jtag_bridge.py:172-192 | in every calm run a block that follows a SESSION record directly is the first of its session |
| `ViewerDelivery.SessionFramesArrive` | tools/viewer/web/app.js:2360-2391 | across resets, with frames written in each session of the device: from any part of its stream the viewer decodes of each session exactly the messages that end in what has arrived of it, once each and in order, no session twice and the sessions in order; and when everything has arrived, all that was published of each |
| `ViewerDelivery.ViewerFramesArrive` | tools/viewer/web/app.js:444-476 | without a reset the viewer delivers the messages the validator's decoder delivers, all of those written to their end once mailbox, queue and wire are empty |
| `ViewerApp.Viewer.ParseAvailableFrames` | tools/viewer/web/app.js:444-476 | the loop brings buffer, frames and counters to the specified state |
| `ViewerApp.Viewer.ConsumeBridgeRecord` | tools/viewer/web/app.js:2360-2391 | DATA is parsed, a new session empties the buffer, a repeated HELLO does not |
| `ViewerApp.Viewer.ConsumeBridgeBytes` | tools/viewer/web/app.js:2338-2354 | all whole records are consumed; before an oversize one too, and then the buffer is kept |
| `Captures.StoredForever` | tools/viewer/web/app.js:899-918 | no later chunk, honest or not, changes or drops a stored sample |
| `Captures.ErrorsMean` | tools/viewer/web/app.js:876-918 | a chunk adds one overlap for each place of its samples that is already filled, one if it is a repetition, after a missing header is noted, and nothing else |
| `Captures.Reassembled` | tools/viewer/web/app.js:855-946 | after one header, in any order with any repetitions, exactly the arrived samples are stored, and the capture is complete if and only if none is missing |
| `Captures.WholeCapture` | tools/viewer/web/app.js:855-946 | chunks that cover the capture give back the encoded samples |
| `Captures.Accounting` | tools/viewer/web/app.js:876-897 | on any chunks the missing ranges stay increasing and apart, and highest index + 1 + late chunks equals accepted chunks + range total |
| `Captures.StillMissing` | tools/viewer/web/app.js:884-897 | for every capture whose counts agree the number of chunk indices still missing below the highest is the range total less the late chunks |
| `LogicAnalyzer.SamplesSurvive` | tools/viewer/web/app.js:2664-2680 | a built sample payload is decoded to the chunk it was built from, for each packing |
| `LogicAnalyzer.SamplesMean` | tools/viewer/web/app.js:2664-2680 | a sample payload is decoded if and only if it is 32 bytes of one, two or four bytes a sample that fit; each field and each sample is the little-endian number at its place |
| `LogicAnalyzer.CaptureHeaderSurvives` | tools/viewer/web/app.js:2650-2662 | a built capture header is decoded to the fields it was built from |
| `LogicAnalyzer.HeaderMeans` | tools/viewer/web/app.js:2650-2662 | each field of a capture header is the little-endian number at its place |
| `LogicAnalyzer.Analyzer.DecodeHeader` | tools/viewer/web/app.js:819-853 | a header of another length changes nothing but the count of malformed ones; otherwise all its fields are kept, the samples emptied, the chunks kept, and it is counted |
| `LogicAnalyzer.Analyzer.DecodeSampleData` | tools/viewer/web/app.js:855-946 | malformed, repeated and new chunks change captures and counters as specified |
| `LogicAnalyzer.CountersMean` | tools/viewer/web/app.js:876-918 | the counters follow the captures: each chunk changes missing chunks, late chunks and dropped frames by what it changes of the ranges, late arrivals and overlaps of its capture |
| `CaptureFrames.CaptureArrives` | tools/viewer/web/app.js:819-946 | a capture built as a header frame and sample frames of any packing, in any order and repeated, between malformed frames and those of other captures: exactly the arrived samples are stored, and it is complete if and only if none is missing |
| `CaptureFrames.ChunksReceived` | tools/viewer/web/app.js:2664-2680 | what a capture holds after its header follows from its own chunks in their order, whatever is sent between them |
| `CaptureFrames.CountsKept` | tools/viewer/web/app.js:819-946 | after any frames, repeated headers included, the ranges of every capture are increasing and apart and tell how many indices are missing |
| `Canonical.CanonicalExactly` | tools/viewer/web/diagnostic_snapshot.js:35-43 | two values without a one-item array of undefined have the same canonical text if and only if they have the same content up to field order and undefined fields; undefined items beside others are told apart |
| `Canonical.TextsMeet` | tools/viewer/web/diagnostic_snapshot.js:35-43 | any two values that can be written have the same text if and only if they have the same content once every one-item array of undefined is emptied |
| `Canonical.LoneCollides` | tools/viewer/web/diagnostic_snapshot.js:40-40 | every value with such an array shares its text with a value of different content |
| `Canonical.UndefinedItemVanishes` | tools/viewer/web/diagnostic_snapshot.js:40-40 | the array of one undefined item is written like the empty array |
| `JsonRead.TextReadBack` | tools/viewer/web/diagnostic_snapshot.js:35-43 | a reader of JSON gets from a canonical text without undefined items the content it was written from, with nothing left over |
| `JsonRead.RefusedExactly` | tools/viewer/web/diagnostic_snapshot.js:36-38 | a value has no canonical text if and only if a number that JSON cannot write stands somewhere in it |
| `Canonical.KeysAscend` | tools/viewer/web/diagnostic_snapshot.js:41-42 | the keys read back ascend, each the beginning of the next or lower where they first differ, and are exactly the keys that have a value |
| `Timestamps.UnwrapTimestamps` | tools/viewer/web/diagnostic_snapshot.js:86-96 | the loop keeps each record's timestamp and counts the places up to it where a timestamp lies more than half a turn behind the last one before; its tick is the timestamp plus so many turns |
| `Timestamps.AllTicksRecovered` | tools/viewer/web/diagnostic_snapshot.js:86-96 | for ticks that never run backwards, with empty records anywhere, every tick is recovered up to the first one's turn if and only if no step is a turn or longer and none across a turn is half a turn or longer |
| `Timestamps.HalfTurnMissed` | tools/viewer/web/diagnostic_snapshot.js:92-92 | half a turn is already too long |
| `RunLength.SampleRanges` | tools/viewer/web/diagnostic_snapshot.js:137-144 | the ranges are maximal, ordered and disjoint, and hold exactly the samples that are not null; a row for each in order, an edge if and only if it is one sample, dated by the capture's date and its first sample |
| `RunLength.EvidenceUnique` | tools/viewer/web/diagnostic_snapshot.js:137-144 | the samples determine the ranges |
| `RunLength.SummarizeEvidence` | tools/viewer/web/ai_provider.js:25-37 | at most 64 ranges that expand to a prefix of the samples; `truncated` is false if and only if that prefix is everything |
| `AnalysisRequests.LatestShown` | tools/viewer/web/ai_provider.js:89-113 | over every order of starts, answers, timers and cancellations the state shown is the latest request's and no call is retried too often |
| `AnalysisRequests.CallGoesOn` | tools/viewer/web/ai_provider.js:98-105 | a call is made again if and only if it ended with an error that can be retried and has tries left; other requests are not touched |
| `AnalysisRequests.TriedOften` | tools/viewer/web/ai_provider.js:98-105 | a call that keeps failing this way is still under way after n failures if and only if n is at most its retries |
| `AnalysisRequests.EndShown` | tools/viewer/web/ai_provider.js:99-111 | what is shown of the latest request when its call ends, for each kind of answer, told to stop or not |
| `AnalysisRequests.TimerStops` | tools/viewer/web/ai_provider.js:97-110 | any timer still set stops the request that runs now, which is then shown as timed out unless its provider returns a valid value |
| `AnalysisRequests.CompletedByLatest` | tools/viewer/web/ai_provider.js:99-108 | in every run in which a result is shown there is the event that answered the latest request with it, and no later event replaced the request or changed the state |
| `AnalysisRequests.CancelledStays` | tools/viewer/web/ai_provider.js:91-109 | a cancellation lasts until the next run if and only if the provider returns no value after it |
| `AnalysisRequests.LateAnswerShown` | tools/viewer/web/ai_provider.js:91-108 | a cancelled request is shown as completed if its provider answers late |
| `AnalysisRequests.TimerHitsNewest` | tools/viewer/web/ai_provider.js:97-97 | an old request's timer changes what some answer makes of the newest one if and only if that one still waits and has not been told to stop |
| `AnalysisRequests.OldTimerFailsNewRun` | tools/viewer/web/ai_provider.js:97-97 | a new request fails with a timeout although its own timer never fired |
| `AnalysisRequests.AnalysisController.Begin` | tools/viewer/web/ai_provider.js:92-97 | a run stops the one before it and takes its place; if its context cannot be built it stays queued, with no call and no timer |
| `AnalysisRequests.AnalysisController.Resume` | tools/viewer/web/ai_provider.js:98-111 | a retry, a stale answer, a result or a failure, each as specified; a stale answer leaves the state alone |

## Left out

- USB: the 512-byte write chunks, read polling, timeouts and the device's initialisation commands. The adapter in the model answers every command it is sent; short reads appear as failed backend calls.
- TDO outside the Shift states, and TMS reads by `_tms` itself, which no caller uses.
- The device beyond the reference mailbox. A payload scan is taken to read and commit at once, as the fake twin of the backend's own tests does; if a device answered without committing, the deferred check would find out only after the block was published.
- JSON texts of HELLO, STATUS and SESSION records: they are a function from records to bytes, required only to be readable by the viewer.
- WebSocket handshake and framing, the Vivado backend, target selection on the command line, idle intervals and backoff.
- asyncio itself: queues and tasks are values in a map stepped one at a time, so a step is what runs between two awaits. The scheduler's fairness is not modelled.
- The mock is called without interleaving in the source; in the model steps may fall between its calls too.
- STATUS contents and bytes per second; `Stats.last_error` and the start time.
- A change of the header's capability bits, size or build while connected, beyond the identity checks: the modelled device keeps them.
- BridgeSafety.LabelsKept: assumes that the device is not reset between the two scans of one transaction of the direct backend; without that `BridgeOrigins.PublishedExactly` holds, and `LabelsRight` says when the labels are right.
- BridgeDelivery.NothingLost: over the mock assumes that the device does not go through all session ids within one transaction; `StaleCommitAfterFullTurn` shows what happens otherwise.
- EndToEnd.FramesArrive: needs no reset, no drop and no failed call, as the promise does; what holds without them is `SessionFramesArrive` for resets, and `PublishedExactly`, `SessionIsolation` and `NoMixedFrames` for failures.
- ViewerDelivery.SessionFramesArrive: needs no reset between the two scans of the direct backend, since such a block is decoded with the session before; of the viewer's tally only the frames are stated.
- Draining.AllFramesArrive: for a queue of at least two records; `PublishRoom` says why.
- FullTurns.FullTurnMixes: the mixing is shown on the broadcast records; `MixedExactly` carries it to the stream of every client served throughout.
- BackendClasses.FtdiMpsseBackend.Commit: cannot fail by itself in the model, as in the source, which makes no call there.
- Bridge.Bridge.Publish: the capture file and its metadata are sequences that grow; the time in a metadata line is left out.
- ValidatorDecoder.Decoder.Feed: the branch that counts version errors cannot be reached, since the version is checked before; the proof marks it so and the counter stays zero.
- The viewer's `decodeFrame`: frames are kept as decoded instead of being dispatched to the payload decoders; unknown types are counted there.
- Captures.Reassembled: one header before the chunks, as the source needs it; a header sent again empties the samples but keeps the chunks, so repeated chunks are then refused. `CountsKept` covers headers anywhere.
- LogicAnalyzer.Analyzer.DecodeHeader: the log entry and the names of the flag bits, which are shown only.
- Canonical.CanonicalExactly: a value that is itself undefined has no text; numbers are known by the text JSON gives them, so -0 and 0 are one number; strings are sequences of characters without lone surrogates, and keys are ordered by character rather than by UTF-16 unit. Hashing the text is not modelled.
- JsonRead.TextReadBack: the reader takes any run of number characters as a number, which numbers written by JSON are.
- RunLength.SampleRanges: the capture id in a row, and its source reference, which repeats the capture id and the bounds.
- AnalysisRequests.LatestShown: what a context contains, the validator's rules and redaction are not modelled; a context can be built or not, and a provider's answer is valid, invalid, aborted or an error.
- Rendering, export, the rest of the AI debug page, rule thresholds, board validators, benchmarks, migration scripts and Tcl: little to prove.
