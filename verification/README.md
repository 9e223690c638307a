# A model of the SHM platform backend

The platform collects sensor readings over field gateways, watches them against thresholds and runs analyses on them.
This project models four parts of it and proves what they promise:

1. **From bytes to batches.** A gateway (DTU) forwards Modbus RTU responses as a raw byte stream. The server checks each
   frame's CRC-16, cuts frames out of the stream, decodes registers into readings, queues them and hands them to ingest
   in batches (`Crc`, `CrcDetection`, `CrcDistance`, `Framing`, `DamagedFrames`, `Decoding`,
   `DtuServer`, `DtuRuns`).
2. **The alert lifecycle.** Readings open, refresh, reopen and close rows of an alert table; people acknowledge them
   (`Alerts`, `AlertRuns`, `AlertTasks`, `AlertHistory`).
3. **Analysis jobs.** Workers, redeliveries, cancellations and an object store interleave over a job table
   (`Analysis`, `AnalysisProtocol`).
4. **Ingest and users.** Code resolution, the readings table, the latest-value cache and the alert queue (`Ingest`,
   `EndToEnd`), and the guards that keep an active administrator (`Users`).

## How to read it

Code that changes state step by step is a method with the loops of the source, proved against a function of its inputs
or of the old state; what the source promises is then proved of those functions, for every input and every run.
Each such function is also told in full on the fields of its arguments (the lemmas whose names end in `OnBytes` and
`OnFields`, and `FrameReadings`), so that the theorems about it can be read without it. `Positions` is about picking
elements in order.

- **Bytes** are `bv8`, the CRC register is `bv16`. Constants and layouts follow MODBUS over Serial Line V1.02
  (sections 2.5.1 and 6.2.2) and the MODBUS Application Protocol V1.1b3 (sections 6.3 and 7).
- **Times** are integers in microseconds; thresholds, values and scales are reals.
- **The database** picks among equal rows and hands out ids; the row it picks is a parameter of each step, and the
  claims hold for every pick. A session block is one atomic step, and steps on the same alert channel, job or user row
  are serialised: the code takes no locks, so this is an assumption.
- **asyncio** switches only at an await. The consumer is a machine that makes one step for each await of a schedule
  (`Steps`); `Consume`, the nested loops of the source, is proved to make exactly those steps, for every schedule. The
  clock is read once for each frame.

## Where the code differs from what is said about it

- **The connection buffer.** `split_rtu_frames` returns `bytes`, the connection loop stores that in `buffer`
  (`app/dtus/server.py:117`), and the next `buffer.extend` (`app/dtus/server.py:116`) raises. `HandleConnAsWritten` is
  the loop as it stands; `AsWrittenIff` says exactly on which bytes it delivers what the stream means, and
  `CutFrameIsLost` says what a frame cut in two loses. The server class (`TcpServerManager.Receive`) carries the buffer
  over, as the module's notes intend (`app/dtus/server.py:8`), and the conservation results are about that.
- **Resynchronisation** recovers the next good frame only if every offset of the damaged bytes is recognisably junk
  (`RecoversIff`); a damaged byte count can hold the next frame back (`DamageCanHoldBack`).
- **resolved_by** is documented as empty after automatic recovery (`docs/api/alerts.md:32`). It is the last
  acknowledging user of the row's whole life (`ResolverIsLastAcknowledgement`, `RecoveredRowCanHaveResolver`).
- **Suppression** fails after a late reading that ends the newest alert before it began
  (`LateReadingDefeatsSuppression`). It works exactly as long as at every moment some row of the channel and level has
  lived until the last creation (`SuppressionWorksIff`, `SuppressionSeparates`). For that it is enough that no step ends
  the newest row before its creation (`NoEarlyEndKeepsAlive`), and so in particular that times do not go back
  (`OrderedRunKeepsAlive`); other late readings do no harm.
- **Cancelled** is documented as the final state (`docs/api/analysis.md:232-233`). `mark_failed` has no guard:
  `CancelledIsFinalIff` says exactly when a cancelled job can still become failed, and `CancelledJobCanFail` is a run
  from the empty system in which one does.
- **Cleaning up** after a cancellation during upload is only logged (`app/tasks/analysis_tasks.py:190`). `OrphanIff`
  says exactly when a cancelled job leaves an artifact, `CancelledJobLeavesArtifact` is a run in which one does.
- **A dead worker** leaves its job running: a running job can still end without being cancelled exactly while its owning
  execution lives (`RunningCanEndIff`), and `CrashedJobIsStuck` is a run that gets stuck.
- **One duplicate rejects a batch**: the readings table has the primary key (time, channel), so two readings of one
  channel at one instant make the whole COPY fail (`SameInstantRejectsBatch`). A frame that covers two registers
  configured with one channel code does that by itself (`SharedCodeRejectsBatch`).

## Model

| member | source | states |
|---|---|---|
| Crc.Crc16Modbus | app/plugins/protocols/modbus_rtu_tcp.py:38-48 | the nested loops compute the CRC register run over the message |
| Crc.SealPasses | app/plugins/protocols/modbus_rtu_tcp.py:75 | a frame passes the comparison exactly when it is its own body followed by that body's CRC, low byte first |
| Crc.ZeroResidue | app/plugins/protocols/modbus_rtu_tcp.py:38-48 | the trailing comparison succeeds exactly when the CRC over the whole frame, CRC included, is zero |
| Crc.CheckValue | tests/test_modbus_rtu_framer.py:35-37 | the CRC of the nine digits "123456789" is 0x4B37, the standard check value |
| CrcDetection.RunIsBitSerial | app/plugins/protocols/modbus_rtu_tcp.py:41-47 | the bytewise loop is the bit-serial register over the wire bits, lowest bit of each byte first |
| CrcDetection.ErrorUndetected | app/plugins/protocols/modbus_rtu_tcp.py:38-48 | an error pattern leaves a passing frame passing exactly when the zero register returns to zero on it, whatever the frame |
| CrcDetection.UndetectedIffMultiple | app/plugins/protocols/modbus_rtu_tcp.py:38-48 | the undetected patterns are exactly the multiples of x^16 + x^15 + x^2 + 1 over the two-element field |
| CrcDetection.BurstDetected | app/plugins/protocols/modbus_rtu_tcp.py:75 | any non-empty error within sixteen consecutive bits of a passing frame of any length, CRC bytes included, makes the check fail |
| CrcDetection.SeventeenBitsCanSlip | app/plugins/protocols/modbus_rtu_tcp.py:75 | sixteen is the limit: a seventeen-bit burst passes unnoticed in every frame |
| CrcDetection.CrcParity | app/plugins/protocols/modbus_rtu_tcp.py:38-48 | the CRC of a message has an odd number of ones exactly when the message has |
| CrcDetection.OddErrorDetected | app/plugins/protocols/modbus_rtu_tcp.py:75 | flipping any odd number of bits of a passing frame makes the check fail |
| Framing.SplitRtuFrames | app/plugins/protocols/modbus_rtu_tcp.py:51-80 | the loop ends and returns the frames and remainder of the recursive splitting |
| Framing.SplitOnBytes | app/plugins/protocols/modbus_rtu_tcp.py:61-80 | on any bytes: nothing is split off exactly when there are fewer than five, or a function-03 header announces more than is there; one byte goes when the function code is neither 03 nor an exception or the candidate is not its own body sealed; otherwise the candidate is taken |
| Framing.WellFormedIff | app/plugins/protocols/modbus_rtu_tcp.py:63-76 | the frames the splitter takes are exactly the sealed function-03 responses and the sealed exception responses |
| Framing.LookExtends | app/plugins/protocols/modbus_rtu_tcp.py:63-79 | what has been decided at the head of the stream stays decided when more bytes arrive |
| Framing.SplitConcat | app/plugins/protocols/modbus_rtu_tcp.py:51-80 | splitting a longer stream continues from the remainder of the shorter one |
| Framing.ChunkInvariance | app/plugins/protocols/modbus_rtu_tcp.py:51-80 | for every cut of a stream into chunks, carrying the remainder gives the frames, order and remainder of one call |
| Framing.Conservation | app/plugins/protocols/modbus_rtu_tcp.py:61-80 | the input is the emitted frames and single dropped bytes, interleaved in order, then the remainder, which is settled and shorter than 260 bytes |
| Framing.AccountUnique | app/plugins/protocols/modbus_rtu_tcp.py:61-80 | any account of the stream by the dropping and taking rules has the splitter's frames and remainder |
| Framing.LongestRemainder | app/plugins/protocols/modbus_rtu_tcp.py:72-73 | the bound is met: 259 bytes can be held back |
| Framing.FramingRoundTrip | app/plugins/protocols/modbus_rtu_tcp.py:63-80 | whole frames followed by p come apart into exactly those frames and p if and only if p is still short of a decision |
| Framing.FramesThenPrefix | app/plugins/protocols/modbus_rtu_tcp.py:63-80 | in particular for any proper prefix of a well-formed frame |
| Framing.Resynchronise | app/plugins/protocols/modbus_rtu_tcp.py:69-79 | bytes all of whose offsets are junk in front of s change nothing about splitting s |
| Framing.RecoversIff | app/plugins/protocols/modbus_rtu_tcp.py:59-79 | a good frame behind damaged bytes is recovered alone and at once exactly when every offset of those bytes is junk |
| Framing.DamageCanHoldBack | app/plugins/protocols/modbus_rtu_tcp.py:67-73 | a damaged byte count makes a following good frame wait |
| CrcDistance.OneReturnsIff | app/plugins/protocols/modbus_rtu_tcp.py:41-47 | the period of the register: a single one is back after n turns of the loop exactly when 32767 divides n |
| CrcDistance.TwoFlipsUndetectedIff | app/plugins/protocols/modbus_rtu_tcp.py:75 | two flipped bits of a passing frame of any length go unnoticed exactly when they are a multiple of 32767 bits apart |
| CrcDistance.ThreeFlipsDetected | app/plugins/protocols/modbus_rtu_tcp.py:75 | so in any frame of at most 4095 bytes one, two or three flipped bits make the check fail |
| DamagedFrames.DamageIsNeverDelivered | app/plugins/protocols/modbus_rtu_tcp.py:61-80 | a well-formed frame damaged by a burst of at most sixteen bits, by up to three flips anywhere or by an odd number of flips is not delivered from any stream |
| Decoding.DecodeInvertsEncode | app/plugins/protocols/modbus_tcp_adapter.py:34-53 | the integer decoders invert two's complement over the full 16- and 32-bit ranges |
| Decoding.EncodeInvertsDecode | app/plugins/protocols/modbus_tcp_adapter.py:34-53 | every register content decodes to an integer in range whose encoding it is |
| Decoding.RegisterIsWord | app/plugins/protocols/modbus_rtu_tcp.py:129 | a register read as high * 256 + low is the value of the shift-and-or of its two bytes |
| Decoding.DecodeFrameLoop | app/plugins/protocols/modbus_rtu_tcp.py:113-149 | the decoding loop returns the readings of the frame under the configuration |
| Decoding.FrameReadings | app/plugins/protocols/modbus_rtu_tcp.py:113-149 | the readings of any frame, on its bytes: none unless it is the device's response to function 03, and then one for each entry its registers cover (four for float64, two for the other 32-bit types, one for all else, unknown and missing names included), with the value the type's name says, times the scale, or 1 without one |
| Decoding.SealedReadings | app/plugins/protocols/modbus_tcp_adapter.py:69-76 | the same for the registers a device seals into a response |
| Decoding.RegisterRoundTrip | app/plugins/protocols/modbus_rtu_tcp.py:127-149 | registers sent in a function-03 response come out as one reading for each entry with address + width within the count, in configuration order, an odd byte ignored |
| Decoding.IntegerOnTheWire | app/plugins/protocols/modbus_rtu_tcp.py:138-148 | an integer a device puts into its registers at an entry's address, whatever is around it, is among the readings of the sealed response as that integer times the scale, under the entry's code and unit |
| Decoding.OthersYieldNothing | app/plugins/protocols/modbus_rtu_tcp.py:114-126 | frames of other slave ids and exception responses yield no reading |
| Decoding.DecodeStream | app/plugins/protocols/modbus_rtu_tcp.py:106-111 | decoding a stream is decoding the frames of its splitting in order, each stamped with its own clock reading |
| Decoding.EachFrameItsTime | app/plugins/protocols/modbus_rtu_tcp.py:130 | each frame's readings carry the clock reading of their own frame |
| Decoding.UntimedDecode | app/plugins/protocols/modbus_rtu_tcp.py:130 | the clock affects nothing but timestamps |
| DtuServer.MeaningGrows | app/dtus/server.py:112-122 | the readings of a longer stream are those of the shorter one, then those of its remainder with the new chunk |
| DtuServer.TcpServerManager.Receive | app/dtus/server.py:112-122 | with the buffer carried over, a chunk moves exactly the readings of its frames into the queue, each frame's stamped with its own clock reading, and leaves the splitter's remainder in the buffer |
| DtuServer.ReceivedShare | app/dtus/server.py:112-122 | receiving a chunk on one connection keeps every connection's queued readings equal to the meaning of all its bytes |
| DtuServer.TcpServerManager.Apply | app/dtus/server.py:103-133 | the events of an await change the server one after the other as specified, and nothing of the consumer's own |
| DtuServer.TcpServerManager.Consume | app/dtus/server.py:135-156 | the nested loops make the machine's steps, one for each turn of the schedule they use; they return without having left only when the schedule is used up; each connection's stream is what it was plus the chunks those turns deliver; what was attempted of it is a prefix of that stream's meaning, and on leaving all of it, exactly once and in order |
| DtuServer.StepsKeepOk | app/dtus/server.py:135-156 | over every schedule queued = attempted, then batch in hand, then queue; batches hold 1 to batch_size items; each connection's readings are the meaning of its bytes; the consumer leaves only when told to stop and with an empty queue |
| DtuRuns.StepOnFields | app/dtus/server.py:138-156 | one await of the consumer: it takes the queue's first item unless time is over or there is none, collects on while time and room are left, hands over what it has otherwise, and leaves at the end of a round exactly when told to stop with an empty queue |
| DtuRuns.ChunkOnFields | app/dtus/server.py:112-122 | a chunk queues the readings of the frames of buffer and chunk at the end and leaves the rest in the buffer; on an unknown connection it does nothing |
| DtuRuns.QueuedOnFields | app/dtus/server.py:32-48 | a queued reading has the decoded one's codes, timestamp, value and unit, and good quality unless that is bad or uncertain |
| DtuRuns.MeaningOnFields | app/dtus/server.py:32-48 | and so has each reading of a stream's meaning |
| DtuRuns.ServerOfEvents | app/dtus/server.py:103-122 | after any events on a new server: stopping exactly if asked; a connection is there exactly if accepted before any stop, with the adapter of its first acceptance, and its stream is every chunk delivered since |
| DtuRuns.ScheduleTellsServer | app/dtus/server.py:103-156 | the same after any schedule on a new server, however far its consumer got; and what is queued of a connection is the meaning of the bytes delivered on it |
| DtuRuns.StopDrains | app/dtus/server.py:158-167 | once told to stop and left alone, the consumer leaves, and all that was ever queued has been handed over |
| DtuServer.StreamsAreDelivered | app/dtus/server.py:112-122 | while the consumer runs, a connection's stream grows by exactly the bytes the schedule delivers on it, in order |
| DtuServer.HandedOver | app/dtus/server.py:135-156 | what has been handed over of a connection is a prefix of its stream's meaning, all of it once the consumer has left |
| DtuServer.HandleConnAsWritten | app/dtus/server.py:107-133 | the loop as written raises on the second chunk and delivers only the first one's frames |
| DtuServer.AsWrittenIff | app/dtus/server.py:112-122 | that is the meaning of the stream exactly when no frame of the later chunks, begun by the first one's remainder, is a response of the device that covers a configured entry |
| DtuServer.CutFrameIsLost | app/dtus/server.py:112-122 | any frame arriving in two pieces is dropped by the loop as written, and readings are lost exactly when it is a response of the device that covers a configured entry |
| Alerts.EvaluateThresholds | app/services/alert_service.py:40-62 | the loop returns the events of the rules, in rule order |
| Alerts.EventsOnFields | app/services/alert_service.py:40-62 | the events are one for each rule with a known operator, threshold and level whose threshold the value has crossed as gt, lt, ge, le, eq or ne says, in rule order, with the rule's fields, the value, and a window of 60 seconds where the rule has none |
| Alerts.RaisedExactly | app/services/alert_service.py:30-62 | an event is raised exactly when its own comparison holds, its value is the reading's, and a rule carries its other fields |
| Alerts.LevelsRise | app/services/alert_service.py:30-62 | rules with gt and ge only rank their levels: a larger value triggers every level a smaller one does |
| Alerts.AlertTable.TriggerAlert | app/services/alert_service.py:65-131 | refreshes the open row, reopens a latest row within the window, or inserts a new one; created says whether no row was open; two open rows raise |
| Alerts.AlertTable.CloseOpenAlerts | app/services/alert_service.py:152-170 | closes the open row of the channel and level, changes nothing if there is none, raises if there are two |
| Alerts.AlertTable.AcknowledgeAlert | app/services/alert_service.py:227-242 | resolves an open row for a user; unknown and resolved rows are refused and nothing changes |
| Alerts.LandsOnFields | app/services/alert_service.py:76-106 | where a trigger lands: on the one unresolved row; else, with a window, on a latest row that ended within it; else on a new id; and never with two unresolved rows |
| Alerts.TriggerOnFields | app/services/alert_service.py:86-131 | what it writes there, field by field, in each of the three cases, and that no other row changes |
| Alerts.CloseOnFields | app/services/alert_service.py:152-170 | closing ends the unresolved rows of the channel and level at the given time and changes nothing else |
| Alerts.AcknowledgeOnFields | app/services/alert_service.py:227-242 | acknowledging is for unresolved rows, sets the user, and keeps an end the row has |
| AlertRuns.RunKeepsInv | app/services/alert_service.py:76-131 | every run keeps at most one open row per channel and level, resolved exactly when ended, and no row's id, channel or level ever changes |
| AlertRuns.LookupsNeverFail | app/services/alert_service.py:76-84 | after any run from the empty table the open-alert lookups find at most one row and every trigger has a row to land on |
| AlertRuns.ResolverIsLastAcknowledgement | app/services/alert_service.py:239-241 | resolved_by is the row's last acknowledgement in its whole life, empty exactly when there was none |
| AlertRuns.RecoveredRowCanHaveResolver | app/services/alert_service.py:108-117 | a row that recovered by itself can carry the user of an earlier acknowledgement |
| AlertRuns.NextIsSeparatedIff | app/services/alert_service.py:92-131 | at any moment the next row of a channel and level is sure to be created more than the window after a given time if and only if some row there is open or ended at or after that time |
| AlertRuns.SuppressionWorksIff | app/services/alert_service.py:92-131 | that holds of the last creation at every moment of a run if and only if at every moment some row has lived until the last creation |
| AlertRuns.SuppressionSeparates | app/services/alert_service.py:92-131 | in such a run, with windows of at least s, two rows of a channel and level are created more than s apart, and a span T holds at most T/s + 1 |
| AlertRuns.NoEarlyEndKeepsAlive | app/services/alert_service.py:152-170 | it is enough that no close or acknowledgement ends the newest row before its creation |
| AlertRuns.OrderedRunKeepsAlive | app/services/alert_service.py:92-131 | in particular that the channel's times do not go back |
| AlertRuns.BirthsCountRows | app/services/alert_service.py:119-131 | the creations counted there are exactly the rows the table gains, each once |
| AlertRuns.LateReadingDefeatsSuppression | app/services/alert_service.py:92-104 | a reading that closes an alert before it began lets two rows be created at one instant |
| AlertTasks.ReadingOnFields | app/tasks/alert_tasks.py:88-120 | one reading: skipped without channel, value, known channel, project or rules; otherwise the channel's open levels are those of the rules its value crosses, each alert with that value, the last such rule's threshold, and the start it had or the reading's time |
| AlertTasks.ReadingLeaves | app/tasks/alert_tasks.py:99-107 | rows of other channels and of levels not raised stay as they are, except that an open one of the channel ends at the reading |
| AlertTasks.ReportsOnFields | app/tasks/alert_tasks.py:88-120 | a relevant reading reports one trigger for each of its events, any other none |
| AlertTasks.ReadingRefinesDetector | app/tasks/alert_tasks.py:88-120 | one reading moves what the table shows of any channel and level as an edge detector moves |
| AlertTasks.BatchRefinesDetector | app/tasks/alert_tasks.py:88-120 | so does any sequence of readings: since, value and threshold of the open alert are the detector's |
| AlertTasks.StartIsRisingEdge | app/services/alert_service.py:108-131 | the detector's start is the timestamp of the reading at which its current run of triggering readings began |
| AlertTasks.AlertStartIsRisingEdge | app/tasks/alert_tasks.py:88-120 | so the row open after any readings carries the timestamp of a reading that triggered its level while no row was open there, or the start it had before all of them, and every counted reading since has triggered the level |
| AlertTasks.CreatedIsRisingEdge | app/tasks/alert_tasks.py:99-120 | created holds exactly when the level was not open before the reading and no earlier rule of the reading has it; what is reported is the alert open after the reading, the event's value and threshold, and the alert's start |
| AlertTasks.NotificationsCountRisingEdges | app/tasks/alert_tasks.py:119-153 | over any readings the notifications of a channel and level number its rising edges |
| AlertTasks.OpenLevelsForgetHistory | app/tasks/alert_tasks.py:88-120 | after any readings the open levels of a channel are those its last valued reading triggers, whatever the history |
| AlertTasks.RetrySettles | app/tasks/alert_tasks.py:88-121 | a batch cut short between any two commits and run again leaves the same alerts to see on every channel and level as one undisturbed run: open since the same time, with the same value and threshold |
| AlertTasks.RetriesSettle | app/tasks/alert_tasks.py:166-187 | the same after any number of attempts cut short |
| AlertTasks.ProcessReadings | app/tasks/alert_tasks.py:61-155 | the loops close, trigger and report what the specification of the batch says |
| AlertHistory.BatchIsRun | app/tasks/alert_tasks.py:88-121 | processing readings is a run of elementary steps that creates what the table shows to be added, has windows as long as the rules ask for, and ends no row early if no reading does |
| AlertHistory.BirthTimesCountRows | app/tasks/alert_tasks.py:119-121 | a batch adds to a channel and level one row for each reading counted as adding one, and no other |
| AlertHistory.ProcessingSuppresses | app/tasks/alert_tasks.py:88-121 | if no reading ends an alert before the newest row of its channel and level was added, readings that add rows there are more than the rules' window apart |
| AlertHistory.OrderedReadingsEndNothingLate | app/tasks/alert_tasks.py:88-121 | in particular readings in order of time end nothing that early |
| Ingest.LookupFindsLastRow | app/services/data_service.py:58-83 | a code pair resolves to the last joined row that carries it, and to nothing if none does |
| Ingest.AcceptIsFilter | app/services/data_service.py:100-110 | the accepted readings are those with known codes, each once, in input order |
| Ingest.DataService.BatchIngest | app/services/data_service.py:86-125 | table, cache and alert queue change as specified; skipped plus accepted is the batch length |
| Ingest.FailsIff | app/models/reading.py:24-27 | a call fails exactly when two of its readings go to one channel at one time, or one goes to a channel and time already stored; then it changes nothing |
| Ingest.TableOnFields | app/services/data_service.py:100-122 | after success each reading that goes to a channel is stored under its time and that channel with its value and quality, next to all there was, and nothing else is |
| Ingest.SentOnFields | app/services/data_service.py:154-174 | the alert check is sent one batch of exactly these readings in order, with channel, value and time, unless there are none or the broker is down |
| Ingest.CachedOnFields | app/services/data_service.py:128-151 | the cache has, field by field, the last of these readings of each channel, as far as the writes took effect, and else what it had |
| Ingest.WriteCount | app/services/data_service.py:100-125 | a successful call adds exactly as many rows as it reports and touches no other; a failed one changes nothing |
| Ingest.SameInstantRejectsBatch | app/models/reading.py:24-27 | two readings of one channel at one time reject the whole batch |
| EndToEnd.SharedCodeRejectsBatch | app/plugins/protocols/modbus_rtu_tcp.py:130-148 | a frame that covers two entries configured with one channel code rejects every batch its readings are in |
| Ingest.CacheIsLastAccepted | app/services/data_service.py:128-151 | over any run the cached value of a channel is its last accepted reading in arrival order, and absent without one |
| Ingest.DispatchedIsAccepted | app/services/data_service.py:154-174 | the batches sent to the alert check are what was accepted, in order |
| Ingest.CacheAgreesWithAlerts | app/services/data_service.py:123-124 | once those are processed in order, the open levels of a channel with rules are exactly those its cached value triggers |
| EndToEnd.AcceptedOfBatches | app/services/data_service.py:96-110 | a run of successful calls accepts what the consumer's batches contain of known codes, however they were cut |
| EndToEnd.BytesDecideAlerts | app/dtus/server.py:3-4 | the last reading a device's byte stream holds for a channel decides its cached value and its open alerts |
| Analysis.JobTable.CreateJob | app/services/analysis_service.py:23-35 | adds a pending job under a new id |
| Analysis.JobTable.MarkRunning | app/services/analysis_service.py:71-83 | only a pending job starts; otherwise nothing changes |
| Analysis.JobTable.CancelJob | app/services/analysis_service.py:89-105 | cancels a pending or running job and returns its previous status; otherwise nothing changes |
| Analysis.JobTable.MarkSuccess | app/services/analysis_service.py:108-116 | stores result and success whatever the status was |
| Analysis.JobTable.MarkFailed | app/services/analysis_service.py:119-124 | stores failure and the error, cut to 2000 characters, whatever the status was |
| Analysis.ResolveChannels | app/tasks/analysis_tasks.py:62-77 | succeeds exactly for distinct, existing channels of one project; duplicates count as missing |
| Analysis.Decide | app/tasks/analysis_tasks.py:99-170 | a worker proceeds exactly when nothing is wrong, and otherwise fails for the first thing that is |
| AnalysisProtocol.RunKeepsInv | app/tasks/analysis_tasks.py:80-194 | the protocol invariant holds over every interleaving of workers, redeliveries, crashes and cancellations |
| AnalysisProtocol.ReachableJobs | app/services/analysis_service.py:71-124 | at most one execution of a job gets past mark_running; a summary or result key implies success; a result key names an uploaded object; finished_at is set exactly in success, failed and cancelled |
| AnalysisProtocol.JobsTellWhatHappened | app/services/analysis_service.py:71-124 | in every run a job's channel, plugin, start, result, error and end are those of the events that made them: a success has the key and summary of the output its execution decided on, a failure the error cut to 2000 characters |
| AnalysisProtocol.RedeliveryIsIgnored | app/tasks/analysis_tasks.py:87-97 | delivering a job that is no longer pending changes no job and no object |
| AnalysisProtocol.StepStatus | app/services/analysis_service.py:71-124 | one step changes a status only along the protocol's edges |
| AnalysisProtocol.JobsMoveForward | app/tasks/analysis_tasks.py:172-194 | success and failure are final, and a cancelled job never becomes a success nor gets a result |
| AnalysisProtocol.CancelledIsFinalIff | app/services/analysis_service.py:119-124 | a cancelled job can still become failed if and only if an execution of it is past mark_running and not through its analysis |
| AnalysisProtocol.CancelledJobCanFail | app/tasks/analysis_tasks.py:99-104 | a run from the empty system in which a cancelled job becomes failed |
| AnalysisProtocol.CancelledWhilePending | app/services/analysis_service.py:89-105 | a job cancelled while pending stays cancelled |
| AnalysisProtocol.StuckUntilCancelled | app/tasks/analysis_tasks.py:87-97 | a running job whose owning execution died stays running through any retries until it is cancelled |
| AnalysisProtocol.RunningCanEndIff | app/tasks/analysis_tasks.py:87-194 | a running job can still end without being cancelled if and only if its owning execution is alive |
| AnalysisProtocol.CrashedJobIsStuck | app/tasks/analysis_tasks.py:87-97 | a run from the empty system to a running job that no execution owns any more |
| AnalysisProtocol.OrphanIff | app/tasks/analysis_tasks.py:172-191 | a cancelled job leaves an artifact if and only if it is stored already or an execution past the first guard is about to store it |
| AnalysisProtocol.OrphanStays | app/tasks/analysis_tasks.py:186-191 | the artifact of a job cancelled between upload and write-back is in the store in every later state, with no record of it |
| AnalysisProtocol.CancelledJobLeavesArtifact | app/tasks/analysis_tasks.py:180-191 | a run from the empty system to a cancelled job without a result whose artifact is stored |
| Users.UserTable.InitFirstAdmin | app/services/setup_service.py:51-99 | creates one active administrator while there are no users, and changes nothing otherwise |
| Users.UserTable.CreateUser | app/services/user_service.py:38-54 | creates an active user unless the name or the address is taken |
| Users.UserTable.AdminUpdateUser | app/services/user_service.py:86-147 | applies the update unless there is an objection, in the source's order of objections |
| Users.UserTable.AdminDeleteUser | app/services/user_service.py:150-166 | removes the user unless there is an objection |
| Users.UpdateOnFields | app/services/user_service.py:86-147 | the objections to an update in the source's order, on the users' fields, and the updated user field by field |
| Users.DeleteOnFields | app/services/user_service.py:150-166 | the objections to a deletion, on the users' fields |
| Users.CreateOnFields | app/services/user_service.py:38-44 | a new user is refused exactly for a taken name or, with a free name, a taken address |
| Users.AlwaysAnAdmin | app/services/user_service.py:37-166 | from the first administrator on, any calls keep an active administrator and unique names and addresses |
| Users.LastAdminIff | app/services/user_service.py:114-126 | the last-administrator guard refuses exactly what would leave no active administrator |
| Users.LastAdminUnreachable | app/services/user_service.py:97-126 | for an operator who is an active administrator that branch is dead |
| Users.LastAdminReachable | app/services/user_service.py:154-163 | for another operator it is not |

## Left out

- DtuServer.TcpServerManager.Receive: models the carried-over mutable buffer the module describes, not the rebinding to
  `bytes`; the loop as written is `HandleConnAsWritten`.
- DtuServer.TcpServerManager.Consume: drains up to the consumer's exit; readings that a still open connection queues
  after that are not handed over. It is proved to leave when left alone (`DtuRuns.StopDrains`), not
  under ever new events.
- Ingest.CacheIsLastAccepted: for runs in which the cache writes took effect; Redis failures are swallowed by the code.
- Ingest.CacheAgreesWithAlerts: for rules that do not change meanwhile and without acknowledgements in between.
- AlertTasks.RetrySettles: what the table shows, not which row shows it, nor the rows and notifications a retry adds.
- Decoding.DecodeFrameLoop: float32 and float64 are abstract functions of their registers, and real arithmetic stands
  for floating point; negative register addresses are not configurations of the model.
- Validation of readings by their schema (code lengths), so configured codes are taken to be valid.
- Publishing on WebSocket channels, the order of resolved messages, e-mail and webhook delivery.
- `upsert_alert`, `list_alerts`, `query_timeseries` and other queries; plain create, read, update and delete services.
- The analysis plugins themselves, sample fetching, and which channel's sampling rate a multi-channel analysis uses.
- Password hashing and reset, tokens, permissions, and the password policy beyond accept or reject.
- Overlapping transactions on the same row: the code takes no locks, and steps are serialised in the model.
- The TCP polling, MQTT and HTTP adapters, simulators, migrations and platform settings.
