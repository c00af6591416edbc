# CANtou, verified

A model of CANtou, a CAN bus logger: its MF4 log format, its OBD adapter protocol and connection handling, and the
filters, batches and fan-out between a bus and its outputs, each with proofs of what it promises.

- **MF4 files** (`bytes`, `float64`, `mf4*`). The writer lays out linked blocks, then appends a fixed-size record and a
  variable-length (VLSD) record per frame; the reader follows the blocks and makes two passes over the records. Main
  results: writer and reader are inverses for every log, finalized or not; a file cut at any byte after the metadata
  reads back as a prefix of the log; each in-place write of finalization leaves the entries as they were; the VLSD index
  is the running sum it stands for, for any interleaving of records.
- **ELM327/STN lines** (`text`, `obdframe`, `obddevice`, `obdpoll`). What a monitor reports and what a command answers
  depend on the bytes alone, never on how the transport chunks them; polling and monitoring decode the same
  bytes to the same frames as long as no line holds white space; a status message is never taken for a frame, nor a
  frame for a status message.
- **OBD connection** (`lifecycle`). The receive loop, a caller of Close and context cancellation as interleaved atomic
  steps: at most one open transport, only configured drivers used, and exactly when Close may leave a link behind.
- **Receive filter and identifiers** (`rxfilter`, `canid`). The combined code/mask is the tightest 11-bit filter, and
  printing an identifier is inverted by parsing it.
- **Pipeline** (`dedupe`, `batching`, `dispatch`, `signals`, `mux`, `candump`). A swept duplicate filter that agrees
  with the full history, batching that loses nothing it does not count as dropped, drop-on-full fan-out, multiplexed
  signal selection, and exact decimal timestamps.

Files are sequences of bytes; text is a sequence of characters that each stand for one byte. Go's mutable objects are
classes whose `Valid()` ties the fields to a ghost history, its loops are loops, its pure helpers are functions. An
`Outcome` tells apart a value, an error return, a run-time panic and a loop that never ends.

## Where the code and its promises differ

- README.md line 78 of the repository says a crash leaves a valid stream. That holds from the first byte after the
  metadata on and for unfinalized files (`ReadableIffMetadataComplete`). A crash while the metadata is being written
  leaves a file the reader refuses, and a finalized file is readable only whole (`FinalizedReadableIffWhole`).
- The round trip keeps timestamps only as float64. An offset is exact exactly when rounding shifts its own time and the
  first one by the same amount and their difference fits an int64 (`OffsetExactIff`). Between times of the same float64
  spacing, of either sign, equal shifts mean that they leave the same remainder by it and ties go the same way
  (`OffsetExactSameSpacing`). Up to 2^53 ns nothing is lost;
  for Unix times the error is at most 256 ns (`OffsetsWithin256`), and it does occur (`OffsetsNotAlwaysExact`).
- `AppendCAN` accepts any 32-bit identifier, but a record keeps 29 bits: a larger one comes back as its remainder
  (`IDExactIff`).
- A candump log whose first time is negative gets its base replaced at every line (`Candump.Rebase`).
- In a negative candump time the fraction is added to the seconds instead of taken off, and "-0.5" loses its sign
  (`NegativeTimesGoWrong`); and a time whose nanoseconds do not fit an int64 wraps without an error, "10000000000" to
  a time in 1702 (`LargeTimesWrap`). The result is the decimal rounded down exactly when there is no minus sign or no
  fraction, and the nanoseconds fit (`TimestampIsFloorIff`); otherwise times can change places (`TimestampsOrderedIff`).
- A Close that overtakes a connect() in progress leaves that connect's transport open (`CloseLeavesNothingIff`).
- An MF4 file whose records carry no IDs is read without any payload, its index being empty; and records of size zero
  are read for ever (`SortedFilesLosePayloads`).
- Were an adapter not told to print without blanks (ATS0), polling would lose the data of a standard frame that
  monitoring hears: it takes the pieces between blanks for lines of their own (`BlankLosesData`).
- A VLSD lookup that asks for more bytes than its record holds reads on into the next payload (`LookupReadsFrom`). The
  writer never makes such records.

## Model

| member | source | states |
|---|---|---|
| Float64.RoundTripIsRounding | internal/parser/mf4/mf4.go:220-221 | storing an int64 time as float64 bits and reading it back is rounding it to the nearest float64, ties to even |
| Float64.KnownBits | internal/parser/mf4/mf4.go:220-221 | the bit patterns of 0, 1, -3 and a rounded large number |
| Float64.NearestError | internal/parser/mf4/mf4.go:220-221 | that rounding is off by at most half the spacing, and not at all exactly on its multiples |
| Float64.SeenExactIff | internal/parser/mf4/mf4.go:220-221 | a time survives exactly when it is a multiple of its float64 spacing |
| Float64.SeenExactBelow53 | internal/connection/playback/mf4.go:223 | every time up to 2^53 in magnitude survives |
| Float64.SeenErrorBelow61 | internal/connection/playback/mf4.go:223 | below 2^61 ns a time moves by at most 128 ns |
| Float64.SeenIsShifted | internal/parser/mf4/mf4.go:220-221 | what is read is the written time plus a rounding error told from quotient and remainder by its spacing, for every int64 |
| Float64.SameErrorIff | internal/parser/mf4/mf4.go:220-221 | two times of the same spacing, of whatever sign, are shifted alike exactly when their remainders agree and ties go the same way |
| Mf4Format.SerializeBlock | internal/parser/mf4/mf4.go:286-300 | the buffer filled in place is header, links and data of the block end to end |
| Mf4Format.BuildTXBlock | internal/parser/mf4/mf4.go:303-315 | the buffer is a link-free block of the text, a NUL and padding to a multiple of eight |
| Mf4Format.ReadBlock | internal/parser/mf4/mf4.go:77-101 | the link-by-link read equals the declarative reading, including its errors and panics |
| Mf4Format.ReadBlockInverts | internal/parser/mf4/mf4.go:77-101 | ReadBlock at a block's address gives back any links and data that Block.Bytes wrote |
| Mf4Format.ReadTextInverts | internal/parser/mf4/mf4.go:136-145 | ReadText gives back any text that BuildTXBlock wrote, if it does not end in NUL |
| Mf4Format.ReadTextNeverFails | internal/parser/mf4/mf4.go:134-145 | a text that cannot be read is empty, and no text ends in NUL |
| Mf4Format.RecognisedIff | internal/parser/mf4/mf4.go:182-194 | exactly files of at least eight bytes that start with either magic are recognised |
| Mf4Records.CollectVLSD | internal/connection/playback/mf4.go:257-295 | the first pass computes the index over exactly the records of one scan of the stream, and terminates |
| Mf4Records.DecodeRecords | internal/connection/playback/mf4.go:139-211 | the second pass decodes the records of that same scan; sorted files record by record |
| Mf4Records.DecodeUnsorted | internal/connection/playback/mf4.go:150-195 | record boundaries, skips and early exits of the second pass are those of the scan |
| Mf4Records.DecodeSortedLoop | internal/connection/playback/mf4.go:196-211 | the branch without record IDs, which never ends on records of size zero |
| Mf4Stream.ScanInvertsSerialize | internal/connection/playback/mf4.go:150-211 | scanning a written stream cut at any byte gives the records wholly before the cut, and a VLSD record whose length alone survived |
| Mf4Stream.UnknownIDStops | internal/connection/playback/mf4.go:150-211 | a record ID that no group has ends both passes, whatever follows, and what stood before it counts |
| Mf4Stream.IndexIsRunningSum | internal/connection/playback/mf4.go:257-295 | for any well-formed interleaving: keys are the raw offsets (sums of 4+len) of the VLSD records, all different, and each looks up its own payload |
| Mf4Stream.LookupReadsFrom | internal/connection/playback/mf4.go:298-306 | a lookup reads the concatenated payloads from its record on, or nothing when they are too short |
| Mf4Stream.LookupExact | internal/connection/playback/mf4.go:298-306 | asked for its own length, a VLSD record's offset gives exactly its payload |
| Mf4Stream.RawOffsetIncreases | internal/connection/playback/mf4.go:283-285 | raw offsets of VLSD records grow strictly |
| Mf4Interleaved.EveryFrameGetsItsPayload | internal/connection/playback/mf4.go:139-211 | for any interleaving in which each CAN record refers to some VLSD record, before or after it, both passes give every frame its own payload, in order |
| Mf4Interleaved.FramesDecodeInAnyOrder | internal/parser/mf4/mf4.go:213-242 | so frames encoded as the writer does come back whatever the order of their records and payloads |
| Mf4Interleaved.SortedFilesLosePayloads | internal/connection/playback/mf4.go:196-211 | records without IDs: one entry without payload for each whole record, none if they are too short, and no end if their size is zero |
| Mf4Reader.ReadGroups | internal/connection/playback/mf4.go:103-130 | the CG chain becomes a table by record ID and the last group named CAN_DataFrame |
| Mf4Reader.ParseDG | internal/connection/playback/mf4.go:88-215 | one data group gives its entries and the next address, with every early return and panic |
| Mf4Reader.GroupFields | internal/connection/playback/mf4.go:108-119 | what a CG block says of its group, and that a shorter block panics |
| Mf4Reader.EmptyDataGroups | internal/connection/playback/mf4.go:96-135 | a data group without records, channel groups or a group for CAN frames has no entries |
| Mf4Reader.ChainIsTable | internal/connection/playback/mf4.go:102-129 | of the groups of a chain the last with a record ID counts, and the last one for CAN frames |
| Mf4Reader.Parse | internal/connection/playback/mf4.go:35-84 | the entries of all data groups in chain order, times relative to the first entry in wrapping int64 |
| Mf4Reader.DataGroupsInOrder | internal/connection/playback/mf4.go:64-73 | the entries of several data groups come in chain order |
| Mf4Cycles.DivergesForGood | internal/connection/playback/mf4.go:103-130 | a CG chain longer than the file has bytes goes on for ever, so the model's step bound hides nothing |
| Mf4Cycles.DataGroupsDivergeForGood | internal/connection/playback/mf4.go:61-73 | the same for the chain of data groups |
| Mf4Layout.AddressesAreStarts | internal/parser/mf4/writer.go:136-163 | the precomputed addresses are where the blocks start, consecutive and without overlap |
| Mf4Layout.FileParts | internal/parser/mf4/writer.go:100-222 | in the file each block lies at its address, and the records follow the last one |
| Mf4Layout.IDBlockFields | internal/parser/mf4/mf4.go:244-262 | magic, version and unfinalized flag are where the format has them |
| Mf4Walk.LinksLeadToBlocks | internal/parser/mf4/writer.go:100-222 | every link of every block leads to the start of a block of the right kind, or is 0 where the format allows it |
| Mf4Walk.GroupChainRead | internal/connection/playback/mf4.go:99-130 | following the links gives the primary group (ID 1, its size and name), the VLSD group (ID 2) and no other |
| Mf4Walk.ChannelsRead | internal/parser/mf4/writer.go:169-200 | the channel and name links lead to the channel blocks and to the right texts |
| Mf4Walk.ChannelsCoverRecord | internal/parser/mf4/writer.go:179-195 | the two channels cover a record: 64 bits of master time, then every bit up to its end |
| Mf4Walk.FileDTRead | internal/parser/mf4/mf4.go:106-132 | an open DT length and the exact one select exactly the record bytes |
| Mf4Walk.DTDataBounded | internal/parser/mf4/mf4.go:106-132 | a DT block that declares a length gives exactly that many bytes behind its header, whatever follows the block |
| Mf4Walk.LaidOutFileRead | internal/parser/mf4/mf4.go:106-132 | whatever the ID block says, an open and an exact DT length select the same record bytes and entries |
| Mf4Log.CanRecordFields | internal/connection/playback/mf4.go:218-243 | a reader gets back time, 29-bit ID, direction, length and VLSD offset of an encoded record |
| Mf4Log.CanRecordBits | internal/parser/mf4/mf4.go:223-241 | bus channel 0, IDE exactly beyond 11 bits, EDL and BRS clear, DLC the low four bits of the length |
| Mf4Log.SignalRecordFields | internal/parser/mf4/writer.go:270-277 | a signal record holds time, value, interface, ID and VLSD offset where the format puts them |
| Mf4Log.PrimaryPointsToNext | internal/parser/mf4/writer.go:227-297 | every primary record stores the raw offset of the VLSD record right after it, and the running offset is the sum of 4+len |
| Mf4Log.LabelSplits | internal/parser/mf4/writer.go:245-269 | splitting a stored label at NULs gives message, signal and unit |
| Mf4Log.DecodeRecovers | internal/connection/playback/mf4.go:150-211 | decoding what survives of a log through the index it gives recovers the frames, the last one possibly without payload |
| Mf4Writer.EncodeCANFrameRecord | internal/parser/mf4/mf4.go:212-242 | overwrites 22 bytes with the record and nothing else; a shorter slice is left alone |
| Mf4Writer.Writer.constructor | internal/parser/mf4/writer.go:82-94 | a new file holds the metadata and no records |
| Mf4Writer.Writer.WriteMetadata | internal/parser/mf4/writer.go:100-222 | the blocks written one by one are the laid-out metadata, with DT length open |
| Mf4Writer.Writer.PlaceBlocks | internal/parser/mf4/writer.go:138-163 | stepping `cur` through the block sizes gives the layout's addresses |
| Mf4Writer.Writer.AppendCAN | internal/parser/mf4/writer.go:227-243 | an accepted frame extends the file by its two records; a rejected one changes neither file nor offset; which it is |
| Mf4Writer.Writer.AppendSignal | internal/parser/mf4/writer.go:249-283 | the same for signals, with the NUL and length checks on the label |
| Mf4Writer.Writer.AppendVLSD | internal/parser/mf4/writer.go:287-297 | completes an append: the VLSD record and the advanced offset |
| Mf4Writer.Writer.Finalize | internal/parser/mf4/writer.go:327-350 | three in-place writes turn the unfinalized file into the finalized one of the same log and length |
| Mf4Writer.Writer.Close | internal/parser/mf4/writer.go:303-314 | finalizes an open file; a second Close changes nothing |
| Mf4Writer.Writer.CloseUnfinalized | internal/parser/mf4/writer.go:319-325 | closes without touching the bytes |
| Mf4Writer.LogAndPlayBack | internal/connection/playback/mf4_roundtrip_test.go:17-76 | writing any frames, closing either way and parsing gives exactly the accepted frames in order |
| Mf4Recovery.RoundTrip | internal/connection/playback/mf4_roundtrip_test.go:13-16 | for every log, finalized or not, Parse returns the frames: 29-bit ID, direction, length, payload, offset |
| Mf4Recovery.IDExactIff | internal/parser/mf4/mf4.go:223-231 | an identifier comes back modulo 2^29, so unchanged exactly when it is below 2^29 |
| Mf4Recovery.OffsetsExact | internal/connection/playback/mf4.go:75-81 | within 2^53 ns offsets are the differences to the first written time |
| Mf4Recovery.OffsetExactIff | internal/connection/playback/mf4.go:75-81 | for every log, an offset is the written difference exactly when its time and the first have the same rounding error (and the difference fits an int64) |
| Mf4Recovery.OffsetExactSameSpacing | internal/connection/playback/mf4.go:75-81 | for times of the same float64 spacing, of whatever sign: exactly when they leave the same remainder by it and ties go the same way |
| Mf4Recovery.OffsetsWithin256 | internal/connection/playback/mf4.go:75-81 | for Unix times until 2043 an offset is off by at most 256 ns |
| Mf4Recovery.OffsetsNotAlwaysExact | internal/parser/mf4/mf4.go:220-221 | two frames 100 ns apart in 2023 read back as simultaneous |
| Mf4Recovery.CrashSafe | README.md:78 | an unfinalized file cut anywhere in its records reads as the frames whose primary record is whole |
| Mf4Recovery.CrashLeavesPrefix | README.md:78 | that is a prefix of the full replay, complete up to the bytes written; only its last entry may lack the payload |
| Mf4Recovery.ReadableIffMetadataComplete | README.md:78 | a file cut anywhere is readable exactly when the cut is not inside the metadata |
| Mf4Recovery.CutFinalizedFails | internal/parser/mf4/mf4.go:122-129 | a finalized file that lost any record byte is refused |
| Mf4Recovery.FinalizedReadableIffWhole | internal/parser/mf4/mf4.go:106-132 | a finalized file cut anywhere is readable exactly when nothing is missing |
| Mf4Recovery.FinalizedIgnoresTail | internal/parser/mf4/mf4.go:122-129 | whatever follows a finalized file, it reads back as its log |
| Mf4Recovery.WritesAdvanceStages | internal/parser/mf4/writer.go:327-350 | each in-place write turns one laid-out file into the next |
| Mf4Recovery.StagesReadTheSame | internal/parser/mf4/writer.go:327-350 | before, between and after these writes the file is recognised as MF4 and parses to the same entries |
| Mf4Recovery.SignalNamesRecovered | internal/parser/mf4/writer.go:245-297 | the offset stored in a signal record leads, through the index of the file's bytes, to its own three names |
| Mf4Recovery.SignalFileHasNoFrames | internal/connection/playback/mf4.go:132-135 | a signal file, finalized or not, plays back as no frames, and so does any part of it that holds the group blocks, and no shorter one |
| ObdFrame.AcceptsHexLines | internal/obd/frame.go:56-87 | ParseLine accepts exactly the lines that are, spaces aside, a full header and an even number of hex digits |
| ObdFrame.FramesAreNotStatus | internal/obd/frame.go:37-48 | no line ParseLine accepts is a status message or blank |
| ObdFrame.StatusMessages | internal/obd/frame.go:20-48 | which lines are status messages, however cased and surrounded by blanks |
| Text.UpperIs | internal/obd/frame.go:37-38 | upper-casing turns each letter into its capital and leaves the rest |
| Text.TrimSpaceIs | internal/obd/frame.go:37-38 | trimming keeps the stretch from the first to the last character that is no white space |
| ObdFrame.ErrorsTell | internal/obd/frame.go:56-87 | which error ParseLine gives for which line |
| ObdFrame.ParsesPrintedFrame | internal/obd/frame.go:56-87 | ParseLine gives back every frame printed as header and data digits |
| ObdDevice.Device.IndexByte | internal/obd/device.go:243-250 | the first position of a byte, or none |
| ObdDevice.CleanResponseIs | internal/obd/device.go:261-264 | a cleaned response is the stretch from the first to the last character that is no blank, CR or LF, with CR inside turned into blanks |
| ObdDevice.CleanedIsUnique | internal/obd/device.go:261-264 | there is only one such text |
| ObdDevice.Device.TakePending | internal/obd/device.go:93-101 | bytes left from the last read are used up to a prompt, the rest kept in a fresh buffer |
| ObdDevice.Device.ReadChunk | internal/obd/device.go:103-119 | one chunk adds its bytes before the prompt; those after it go to a fresh pending buffer |
| ObdDevice.Device.ReadUntilPrompt | internal/obd/device.go:88-127 | a call succeeds exactly when a prompt is delivered before the deadline and the first error; it then consumes exactly one prompt-terminated segment of the unread stream and returns its stretch from the first to the last character that is no blank, CR or LF; else it consumes all it was given and reports the link's own error; pending never aliases the read buffer |
| ObdDevice.Device.ReadAnswers | internal/obd/device.go:68-84 | the first k answers are the first k segments, cleaned, whatever the chunking; the bytes used up are those segments with their prompts, and after a failed call bytes without a prompt |
| ObdDevice.Device.FeedMonitor | internal/obd/device.go:197-208 | feeding a chunk byte by byte keeps line and reports equal to those of the stream heard so far |
| ObdDevice.LineReportedIff | internal/obd/device.go:148-165 | a line is reported as a frame exactly when ParseLine reads one, not at all exactly when it is blank or a status message, and as garbled otherwise |
| ObdDevice.Device.Monitor | internal/obd/device.go:136-193 | what is heard is all that is delivered until the stop or the first error, and the end reported is the link's own, for reads and for writes; the reports are those of splitting it at CR and prompt, dropping LF, blank and status lines and parsing the rest; bytes heard, bytes drained after a stop and bytes still unread are the whole stream |
| ObdDevice.Device.Listen | internal/obd/device.go:172-193 | the read loop stops at the stop or the first error, whichever is first, and keeps reports and bytes heard in step |
| ObdDevice.MonitorsAgree | internal/obd/device.go:136-208 | two monitors whose links deliver the same bytes, however cut up, report the same frames and errors, and end alike |
| ObdDevice.DeliveredIsArriving | internal/obd/device.go:172-193 | what a read loop is given is what arrives up to and with the first error, or until it stops |
| ObdDevice.Device.StopMonitor | internal/obd/device.go:211-220 | breaking off discards the bytes up to the first prompt delivered before the deadline, or all that is delivered if there is none, and no others |
| ObdDevice.OneMore | internal/obd/device.go:197-208 | how one more byte changes the finished lines and the unfinished one |
| ObdDevice.LinesArePieces | internal/obd/device.go:195-208 | finished lines are the pieces between carriage returns and prompts, and with these put back they are the stream |
| ObdDevice.MonitorHearsPrinted | internal/obd/device.go:136-208 | a stream of printed frames is reported as exactly those frames, in order |
| ObdPoll.ParseResponseFrames | internal/obd/elm327.go:100-112 | the frames of a response are those of its pieces between blanks |
| ObdPoll.PollAgreesWithMonitor | internal/obd/elm327.go:89-112 | for a response without inner white space these are the frames a monitor would hear in the same bytes |
| ObdPoll.BlankLosesData | internal/obd/elm327.go:100-112 | a standard frame printed with a blank after the header is heard whole by a monitor and without its data by a poller |
| Lifecycle.Reachable | internal/connection/obdconn/connection.go:266-396 | in every interleaving each open transport has exactly one holder, and backoffs and configuration are in order |
| Lifecycle.AtMostOneOpen | internal/connection/obdconn/connection.go:266-396 | at most one transport is open |
| Lifecycle.PublishReplacesNothing | internal/connection/obdconn/connection.go:285-288 | connect never overwrites a driver and publishes only a configured one |
| Lifecycle.StreamsOnlyConfigured | internal/connection/obdconn/connection.go:345-358 | only a driver whose Init and SetFilters both succeeded is monitored or polled |
| Lifecycle.WaitsDouble | internal/connection/obdconn/connection.go:371-391 | the wait after the k-th failed attempt is min(2^k, 30) seconds |
| Lifecycle.CleanStopNeverReconnects | internal/connection/obdconn/connection.go:329-341 | a stream that stops cleanly is never followed by a reconnect |
| Lifecycle.FinishedStays | internal/connection/obdconn/connection.go:329-341 | a loop that has ended opens nothing any more |
| Lifecycle.FinishedOnlyWhenStopping | internal/connection/obdconn/connection.go:329-341 | in every interleaving the loop has ended only if a stop was requested |
| Lifecycle.LostLinkIsReplaced | internal/connection/obdconn/connection.go:363-396 | after a loss and any failed attempts, each with the wait it is due, a successful one streams again from a new transport, the old one closed |
| Lifecycle.FailureRetries | internal/connection/obdconn/connection.go:371-391 | a failed attempt, wherever it fails, closes what it opened, waits and is followed by another |
| Lifecycle.StopEndsLoop | internal/connection/obdconn/connection.go:371-408 | a stop ends the loop while streaming, before an attempt and during a wait |
| Lifecycle.CancelEndsLoop | internal/connection/obdconn/connection.go:441-456 | so does a cancelled context, but while streaming only in poll mode |
| Lifecycle.AtMostOneMoreOpened | internal/connection/obdconn/connection.go:363-396 | after a stop request at most the transport a connect is about to open is opened |
| Lifecycle.CloseLeavesNothingIff | internal/connection/obdconn/connection.go:293-308 | Close leaves nothing open exactly when no connect is past its last stop check as it takes the driver |
| CanID.FormatCanIDHex | internal/output/prometheus/client.go:131-148 | the backward digit loop and overlapping copy give "0x" and the upper-case digits |
| CanID.FormatCanID | internal/output/influxdb/client.go:281-290 | lower-case digits padded to three |
| CanID.CaseOfDigits | internal/output/prometheus/client.go:131-148 | capitals in one printer, small letters in the other, no leading zero in either |
| CanID.PrintParseHex | internal/obd/canid.go:11-23 | ParseCANID gives back every 32-bit ID printed with "0x" |
| CanID.PrintParsePadded | internal/obd/canid.go:11-23 | and every one printed padded |
| CanID.ParseCANIDIff | internal/obd/canid.go:11-23 | exactly which texts ParseCANID accepts, and as what: hex digits of a 32-bit number, white space and the prefixes aside |
| CanID.MergeUniqueIDs | internal/obd/canid.go:46-59 | first occurrences in order, no repetition, nothing missing or added |
| CanID.OBDResponseIDs | internal/obd/canid.go:29-42 | the eight 11-bit or sixteen 29-bit response identifiers |
| RxFilter.CombinedFilter | internal/obd/elm327.go:117-127 | passes every identifier, and no 11-bit filter that does is stricter |
| RxFilter.ResolveFilters | internal/connection/obdconn/connection.go:183-195 | polling behind a filter adds exactly the response identifiers, without repetition |
| RxFilter.SetRxFilter | internal/obd/elm327.go:56-78 | the installed filter passes every identifier; without identifiers, everything |
| RxFilter.InstallFilters | internal/connection/obdconn/connection.go:183-195 | every configured and every 11-bit response identifier passes the installed filter |
| Dedupe.HashInputInjective | internal/client/dedupe/dedupe.go:74-94 | the hashed bytes agree exactly when all but timestamp and high interface bits do |
| Dedupe.DedupeFilter.SameKeyIff | internal/client/dedupe/dedupe.go:74-94 | collisions aside, two messages share a key exactly when all but timestamp and high interface bits agree |
| Dedupe.DedupeFilter.Filter | internal/client/dedupe/dedupe.go:34-72 | drops a watched message exactly when one with its key passed less than the timeout ago; after a new key only live keys remain |
| Dedupe.DedupeFilter.Sweep | internal/client/dedupe/dedupe.go:55-59 | removes only expired keys, and all that were expired at its start |
| Dedupe.DedupeFilter.FilterAll | internal/client/dedupe/dedupe.go:34-72 | over a whole run each decision is that of an unbounded memory |
| Batching.Batcher.Flush | internal/output/influxdb/client.go:154-165 | a non-empty block is sent if there is room and dropped otherwise, and replaced by a new one |
| Batching.Batcher.TrySend | internal/output/influxdb/client.go:158-163 | the block is sent exactly when there is room, or a worker waiting at an unbuffered channel; nothing ever waits |
| Batching.Batcher.Handle | internal/output/influxdb/client.go:167-200 | one turn of the loop keeps the ledger and takes the loop from one state to the next as the event says; a tick leaves no message in the block; the last turn leaves none behind and closes the channel |
| Batching.Batcher.Append | internal/output/influxdb/client.go:192-196 | an accepted message goes into the current block, which leaves exactly when it holds maxBlocks; sent blocks keep their contents |
| Batching.Batcher.Run | internal/output/influxdb/client.go:144-201 | sent and dropped batches in flush order, then the current block, are exactly the unfiltered messages; batches have 1 to max(1, maxBlocks) items, and fewer than maxBlocks only at a tick or at the end; a batch is dropped only when the workers' channel is full |
| Batching.BatchesAreFull | internal/output/influxdb/client.go:167-200 | batches below maxBlocks are no more than ticks and ends |
| Batching.TurnFlushes | internal/output/influxdb/client.go:167-200 | an event flushes at most once: a full batch, or at a tick or the end what there is |
| Batching.TakingMakesRoom | internal/output/influxdb/client.go:158-163 | after a worker has taken a batch, the next is not dropped |
| Dispatch.Listener.Offer | internal/client/message-dispatch/dispatcher.go:110-122 | a send adds to accepted or to dropped, never blocks, and drops only at a full channel |
| Dispatch.Listener.WantsIff | internal/client/message-dispatch/dispatcher.go:107-112 | a listener without filters wants everything, another what its filters match |
| Dispatch.MessageDispatcher.Add | internal/client/message-dispatch/dispatcher.go:44-55 | refuses a name in use, so names stay distinct |
| Dispatch.MessageDispatcher.Remove | internal/client/message-dispatch/dispatcher.go:57-68 | takes out the listener of that name and no other |
| Dispatch.MessageDispatcher.TestFilterGroup | internal/client/message-dispatch/dispatcher.go:129-149 | any filter, or all of them |
| Dispatch.MessageDispatcher.Broadcast | internal/client/message-dispatch/dispatcher.go:96-127 | each listener is offered the message exactly when its filters match, and takes it if it has room, whatever the others do |
| Dispatch.MessageDispatcher.BroadcastAll | internal/client/message-dispatch/dispatcher.go:96-127 | over a run each listener is offered exactly the messages it wants, in order; accepted are those not dropped, and each dropped one found the channel full |
| Dispatch.MessageDispatcher.DroppedCount | internal/client/message-dispatch/dispatcher.go:154-163 | the drops of the listener of that name |
| Signals.DecodePIDsSupported | internal/parser/obd2/pids_supported.go:19-27 | the list of supported PIDs of a mask |
| Signals.SupportedAre | internal/parser/obd2/pids_supported.go:9-27 | exactly the PIDs whose bit is set, base+1 the top bit, in uint8 arithmetic for every base; ascending below base 0xE0 |
| Signals.BitsAreDigits | internal/parser/obd2/pids_supported.go:9-27 | the bits looked at are the binary digits of the mask |
| Signals.NamesTellRanges | internal/parser/obd2/pids_supported.go:30-38 | each bitmask signal has the base its name tells, and there is one for every base |
| Signals.ExpandPIDsSupported | internal/parser/obd2/pids_supported.go:44-63 | a bitmask signal becomes one signal per PID, any other stays |
| Signals.ExpansionSays | internal/parser/obd2/pids_supported.go:44-63 | the signals of an expansion are exactly those of the PIDs whose bit is set, named in hex, of value 1, else unchanged |
| Signals.ToUint32Truncates | internal/parser/obd2/pids_supported.go:49 | a value in the range of uint32 loses its fraction only |
| Signals.ExpansionIsFinal | internal/parser/obd2/pids_supported.go:44-63 | expanded names differ and are never expanded again |
| Signals.Allow | internal/client/signal-filter/filter.go:90-118 | the early-exit loops decide by any or all rules, included or excluded |
| Signals.RulesMean | internal/client/signal-filter/filter.go:49-78 | equality, start, end and occurrence of a value in the chosen text |
| Signals.NegationsAreComplements | internal/client/signal-filter/filter.go:49-78 | each operator and its negation split every stream in two |
| Signals.ExcludeIsComplement | internal/client/signal-filter/filter.go:90-118 | excluding and including by the same rules split every stream in two |
| Signals.SignalDispatcher.DispatchOne | internal/client/signal-dispatch/dispatcher.go:78-104 | every listener is offered the allowed expansion of a signal |
| Signals.SignalDispatcher.Dispatch | internal/client/signal-dispatch/dispatcher.go:75-108 | what every listener is offered is the whole input parsed, then expanded, then filtered, in order; each dropped signal found its channel full |
| Mux.ParseSignals | internal/parser/dbc/dbc.go:57-124 | the order-preserving filter by one activity predicate |
| Mux.SelectionIsConsistent | internal/parser/dbc/dbc.go:51-56 | emitted leaves are exactly those of the innermost switch value, emitted nested switches exactly those for the top value; unmultiplexed signals always appear, nothing multiplexed without a top switch |
| Mux.SwitchesAreFirst | internal/parser/dbc/dbc.go:68-90 | the switches in force are the first top switch and the first nested one listed for its value |
| Mux.FilterConcat | internal/parser/dbc/dbc.go:92-123 | order and multiplicity are those of the list |
| Mux.NestedIsEmitted | internal/parser/dbc/dbc.go:79-90 | a nested switch is in force exactly when one is emitted |
| Mux.ParseWithAll | internal/parser/dbc/dbc.go:149-155 | the union of the parsers' results |
| Mux.UnionInOrder | internal/parser/dbc/dbc.go:149-155 | in the order of the parsers |
| Candump.ScaleUp | internal/connection/playback/candump.go:142-144 | fewer than nine digits are multiplied up to nanoseconds, with either sign |
| Candump.ScaleDown | internal/connection/playback/candump.go:145-147 | more are divided down; repeated truncation is one division, with either sign |
| Candump.ParseCandumpTimestamp | internal/connection/playback/candump.go:122-150 | in int64, sec * 10^9 plus one truncating division of frac * 10^9 by 10^n, for every input, and when it fails |
| Candump.ParsesPrinted | internal/connection/playback/candump.go:124 | every int64 that is printed is read back, with or without a plus sign |
| Candump.ParseAcceptsIff | internal/connection/playback/candump.go:124 | what is read: at most one sign, at least one digit, a value within int64 |
| Candump.TimestampIsFloorIff | internal/connection/playback/candump.go:122-150 | for every accepted time of digits the result is the largest whole number of nanoseconds not beyond the decimal exactly when there is no minus sign or no fraction and the nanoseconds fit an int64, and within a nanosecond exactly when there is no minus sign or a fraction below one, and they fit |
| Candump.NegativeTimesGoWrong | internal/connection/playback/candump.go:122-150 | "-1.5" is read as -0.5 s and "-0.5" as 0.5 s |
| Candump.LargeTimesWrap | internal/connection/playback/candump.go:149 | the time "10000000000" in 2286 is read as one in 1702 |
| Candump.TimestampsOrderedIff | internal/connection/playback/candump.go:122-150 | of any two decimals in order, whatever their digits: when their nanoseconds wrap equally often the results are in order exactly when the whole seconds or the scaled fractions are, always without minus signs; when not, exactly when they are as many int64 ranges apart as they wrap more often |
| Candump.Rebase | internal/connection/playback/candump.go:35-60 | offsets are times since the first line exactly when the first time is not negative or all are equal |

## Left out

- Opening, reading and writing real files, sockets, serial ports, RFCOMM, HTTP, MQTT, InfluxDB and Prometheus: I/O and
  library code. A log file is its bytes, a transport is the chunks it will deliver, a clock is any non-decreasing one.
- Failing or partial writes inside an append. A crash is a cut of the file, which covers every byte boundary.
- Mf4Writer.Writer.AppendCAN: requires room below 2^63 bytes in the file, where an operating system would refuse.
- Mf4Writer.Writer.AppendSignal: requires the same room.
- Mf4Writer.LogAndPlayBack: bounded by the largest slice a finalized file can be read into (2^48 bytes).
- Mf4Format.ReadBlock: a slice of up to 2^48 bytes is assumed to be available; a longer one panics.
- Float64.RoundTripIsRounding: a float64 beyond the int64 range converts to -2^63, as on amd64; elsewhere Go may differ.
- ObdDevice.Device.ReadUntilPrompt: a deadline, like the stop of Monitor, is a number of reads after which it has
  passed; on a timeout or read error the bytes gathered so far are lost, as in the code.
- ObdFrame.AcceptsHexLines: white space and upper-casing are ASCII only.
- Command sequences (Init, expectOK, STN filters and periodic messages) and the mode fallback in New: plain sequences.
- 29-bit identifiers under the ELM327 code and mask: the code builds an 11-bit filter only.
- Lifecycle.AtMostOneOpen: Open and Receive come once and Close from one caller at a time; a stale transport may remain
  open after Close, see above.
- Dedupe.DedupeFilter.Filter: calls do not overlap (the mutex), and the hash is any function of the bytes.
- Dispatch.MessageDispatcher.Broadcast: filters are functions of the message; Add and Remove fall between broadcasts, which is when the
  code takes its snapshot; a closed input channel, on which the loop would spin, is not modelled.
- Signals.SignalDispatcher.Dispatch: the parser is any function of the message; values are reals, beyond 2^63 the conversion to uint32
  is platform dependent.
- Mux.ParseSignals: bit extraction and scaling of values are a function of signal and frame; the sort in compile, whose
  comparator is no strict weak order, is not modelled, and the results hold for any order of signals.
- Candump.Rebase: the rest of a line (identifier, data, direction) is not modelled.
- ParseRule, ParseGroup, ParseCANIDs and the configuration they come from: case analysis without further structure.
