# DAPHNE slow control: a verified model

This project models the slow-control path of DAPHNE from an API command to the
registers of the analog frontend, together with the algorithms of the OPC-UA
bridge beside it, and proves what they promise. `dafny verify dfyconfig.toml`
checks everything.

## The command path

Layers, each proved against the one above it:

| layer | modules | source |
|---|---|---|
| commands and what they mean | `Afe`, `Effects`, `Targets`, `Configuration` | `crates/daphne-sc-core/src/afe.rs` |
| host: sequence numbers, exchanges, submission | `Sequences`, `Exchanges`, `Rpmsg` | `crates/daphne-sc-server/src/rpmsg.rs` |
| wire frames and records | `Words`, `Wire`, `Encoding`, `Utf8`, `Records` | `crates/daphne-sc-core/src/rpu_wire.rs` |
| runtime: interlock and configuration protocol | `Protocol`, `Session`, `Witness`, `Delivery`, `Runtime` | `crates/daphne-sc-rpu/src/lib.rs` |
| MMIO backend: caches, staging, alignment | `Staging`, `Frontend`, `PairedDacs`, `PartialAfes`, `DacOutputs`, `Alignment`, `BusOps`, `Mmio` | `crates/daphne-sc-rpu/src/mmio.rs` |
| AFE functions, register map | `AfeFunctions`, `AfeHw` | `crates/daphne-sc-core/src/afe_functions.rs`, `afe_hw.rs` |
| devices | `Board` | assumed, see below |

`Rpmsg.RpmsgAfeTransport.SubmitAfeCommand` ties them together: a host object
whose frames travel over a link that may lose, delay or refuse them, to a
runtime object that drives a backend object that reads and writes the register
window of a board. Its contract says when the host's judgement of a command can
be relied on. An applied command was carried out on cached values and devices
(`CommandDone`): DAC codes and pins, AFE register files, the power, reset and
bias lines, and for an alignment the taps found on the words scanned; and the
readback is the value asked for. In the other direction a doable command is
applied whenever the interlock is ready, no access fails and every device that
becomes busy is idle again within the poll limit
(`Board.Environment.Responsive`); an alignment moreover needs the words sampled
to lock (`Alignment.Aligns`).

`Rpmsg.RpmsgAfeTransport.Operate` extends this to runs of commands and status
queries in any order: until the sequence counter has to start over, or for ever
over a link that keeps up, every reply accepted is the reply to the frame just
sent, whatever late replies are queued between calls, and every judgement can be
relied on. The host is in step (`Rpmsg.Books.InStep`) when that held so far and no
queued reply carries a number still to be sent; calls keep it so.

The methods are imperative like the source's. Each is tied to a function of the
old state, and the long-range properties are lemmas about those functions:
`PairDac.Run` and `DacState.Run` over runs of DAC writes, `Protocol.Run` over
runs of frames, `Session` over the configuration protocol.

## The bridge

`Csv`, `Patterns` and `Registry` (tag list and registry expansion), `Snapshot`
and `Writer` (validation and publication of telemetry), `Client` (request and
reply correlation, with the answering side of `crates/daphne-sc-server/src/v2.rs`)
and `Pollers` (poll workers sharing boards).

## What is assumed of the world

- The register window is a memory of ports. Which accesses fail, when devices
  are busy or ready and what the spy buffers sample are arbitrary functions of
  the number of accesses made so far (`Board.Environment`).
- An AFE chip is 256 registers behind a serial port. Bit 1 of register 0 (the
  function REGISTER_READOUT_ENABLE) turns writes of other registers into reads;
  the trigger, address and idle words of the source are interpreted by that rule.
- A word for a trim or offset bank writes its low half to the first group of
  four DACs and its high half to the second, each at the address in the top two
  bits of the half.
- The three gain and bias DAC chips latch a word each; the go bit, shared by
  all, makes every chip drive the word it has latched.
- The reset and power lines are the bits of their control register. Writing that
  register with the reset bit set restarts every AFE chip: its registers take
  contents that are arbitrary but for register 0, which is clear.
- The trigger captures each AFE's frame clock at the delay and bitslip its taps are
  then set to; the board keeps that setting with every word read from the spy
  buffer, and counts how often the receiver's two resets were released.
- The link, the network and the interlock inputs are oracles: one event for
  each frame, one list of arrivals for each request.
- Values that Rust's types exclude (an AFE number above 4, a function name that
  is not UTF-8) cannot be written down here either, or are excluded by a
  precondition that says so.

## Findings

Statements one might expect that the code does not satisfy, each with the exact
condition or a concrete run:

- **A stale configuration can be applied.** An apply that fails leaves both
  staging states complete. If the next Begin is interlocked and the interlock
  clears before its Apply, the last reply is Applied and the older configuration
  was applied (`Witness.StaleConfigurationApplied`). The last reply is a sound
  witness exactly when the Begin was applied (`Witness.LastReplyWitnesses`).
- **A channel that was never written can overwrite another.** The companion half
  of a pair starts as zero, which addresses the base channel of the companion's
  group. A write keeps the DACs in agreement with the cache exactly when
  `PairedDacs.Harmless` holds (`PairedDacs.StepAgreesExactly`), and
  `PairedDacs.NeverWrittenCompanionClobbers` is a run in which a read still says
  5 while the DAC holds 0. A configuration leaves the DAC of a requested channel at
  another code only for channel 0 of an AFE, exactly if its value is not zero and
  channel 5, 6 or 7 is requested while its companion is neither requested nor was
  ever set (`Configuration.RequestedCodeExactly`). Writing all eight channels of an
  AFE repairs it.
- **A cut-off transaction loses the next write.** `Board.Spi.CutOffWriteIsLost`
  says, for a cut after the trigger word and for one after the address word,
  exactly which writes that follow are lost and what is left in the registers.
  So what a single register access does is stated for a board on which nothing
  was cut off (`Mmio.Quiet`). Everything else is stated for any board: a whole
  transaction idles its chip and a transfer settles the DAC chips
  (`Board.Spi.TransactionIdles`, `DacOutputs.TransferDrives`), so that an applied
  configuration holds, and leaves nothing cut off, whatever was before.
- **A timeout of the delay controller leaves the voltage and temperature
  compensation off**: the restore covers only the scan loop. If no access fails,
  it is on after an alignment if and only if the controller becomes ready within
  the poll limit (`Alignment.AlignFrontend`, which also gives the condition with
  failing accesses); `Alignment.NeverReadyLeavesVtcOff` is a run that leaves it
  off.
- **One late reply is never overtaken.** The host reads one reply a frame and
  compares its number. In any run of exchanges under different numbers, over any
  link, an exchange succeeds exactly if the host is not behind and the link
  carries it in time (`Rpmsg.RpmsgAfeTransport.TransactAll`); over a link that
  answers every frame the host never catches up again
  (`Exchanges.LateReplyNeverRecovers`), and only a lost frame or reply lets it
  (`Exchanges.OnlyLossCatchesUp`). `Rpmsg.RpmsgAfeTransport.LateReplyFailsAllAfter`
  is a run in which one late reply makes every exchange after it fail.
- **A reply from before can be taken for the answer**: one queued when the file is
  opened, or when the counter starts over. While the counter runs on, an exchange
  accepts such a reply exactly if the reply then oldest is from before the run and
  carries the exchange's number (`Exchanges.StrangerAccepted`). In
  `Rpmsg.InheritedStranger` the first command of a host is judged applied by a reply
  it finds queued, in `Rpmsg.RpmsgAfeTransport.RestartTakesStranger` the first after
  a restart, though its own frame is lost.
- **The trim and offset caches run ahead of the device.** The cache takes the
  value first; the word arrives if and only if the AFEs become idle in time and
  the next access succeeds (`Mmio.AfeMmioBackend.WriteTrimOrOffsetChannel`,
  `BusOps.Arrives`). In `Mmio.BusyAfesLeaveCacheAhead` it does not.
- **The level caches fall behind the pins.** The cache is updated last, but the
  pin moves when the go bit is set (`Mmio.AfeMmioBackend.WriteLevel`,
  `BusOps.Drives`): in `Mmio.BusyDacsMoveThePin` the write is reported as failed,
  reads return the old level and the pin has moved. A word latched but not
  transferred is driven by the next write exactly if that goes to another chip
  (`DacOutputs.StrandedWordDriven`, `Mmio.StrandedWordMovesThePin`).
- **An apply resets AFEs it does not name.** It resets all five chips and
  programs only the records of the request, so the registers of the others go
  back to what a reset leaves (`Configuration.FunctionsHold`).
- **Some requested values are never used**: the gain of a channel record is
  packed and staged but applied as low gain, and a bias of zero means "leave it
  alone" (`Configuration.ChannelsHold`, `Configuration.LevelsHold`).
- **The statuses mean other things than the ABI document says**
  (`docs/rpu-wire-abi.md`, lines 69-71). Fault there is a fault of the safety loop
  and Timeout an unfinished command. The runtime answers a command under a safety
  fault Interlocked, keeps Fault for a hardware method that failed, a wait that
  timed out included, and for status queries, and never answers Timeout or Accepted
  (`Protocol.FrameAnswered`); so a host that relies on replies to its own frames
  never tells accepted without applied (`Rpmsg.RpmsgAfeTransport.SubmitAfeCommand`).
- **Register 0 keeps nothing**: the idle word that ends each transaction clears
  it (`Board.Spi.WriteTransaction`).
- **Some validated requests cannot be applied**: validation checks neither
  repeated AFEs or channels nor three function values; exactly those without are
  applied (`Configuration.ProgrammableExactly`, `Delivery.RequestDelivered`).
- **LVDS_OUTPUT_RATE_2X is malformed** in the function dictionary. It is the only
  function that validates and still cannot be written
  (`AfeFunctions.WellFormedExactly`, `Frontend.WritableExactly`); writing it is
  refused before any access.
- **Sequence numbers can repeat without a reservation**: `sequence_for_frame`
  gives 1 twice when it wraps (`Sequences.DistinctExactly`).
- **A reply to message id 0 is accepted by every request.** Answers are told
  apart for exactly the first 2^64 requests (`Client.ToldApartExactly`). From
  then on a late answer is taken for another request's exactly if that request
  has id 0 or the current id, the same answer kind and another identity
  (`Client.RightExactly`); in `Client.DaphneClient.AnswerToZeroIsTaken` it is.
- **Replacement is not always filling in.** A placeholder whose name ends in an
  opening brace and another name is cut open when that name is replaced first
  (`Patterns.ReplacedIsFilled`, `Registry.InOrderExactly`,
  `Snapshot.RenderedExactly`), and a value in which a token of a later name begins
  is replaced again (`Patterns.InertExactly`).

## Model

| member | source | states |
|---|---|---|
| Rpmsg.RpmsgAfeTransport.SubmitAfeCommand | crates/daphne-sc-server/src/rpmsg.rs:92-146 | which exchanges it takes and what it leaves queued; a refused command sends nothing; unless a reply with a number of the block was queued, a command is told accepted exactly if it is told applied, with the fault code and the interlock code of the last frame, and one whose last frame met an interlock that was not ready is told neither; applied means that the command was doable, that caches, DACs, lines, taps and, if nothing was cut off before, registers are as it asks and that the readback is the cached or device value, for a configuration if the interlock was ready at its Begin; with a ready interlock and devices that are idle again within the poll limit, for an alignment also words that lock, doable commands are applied; a command refused by interlock or arguments, or given up before its last frame, has not touched the devices |
| Rpmsg.SubmittingKeeps | crates/daphne-sc-server/src/rpmsg.rs:92-146 | a submission keeps the host in step and advances the counter by its frames unless the counter starts over; with no stranger queued a reply leaves nothing queued; with nothing queued a link that keeps up gives one |
| Rpmsg.RpmsgAfeTransport.Operate | crates/daphne-sc-server/src/rpmsg.rs:38-146 | over any run of submissions and status queries, until the counter has to start over or for ever over a link that keeps up: each accepted reply is the reply to the frame just sent, each judgement can be relied on, and the devices of one call are those the call before left |
| Rpmsg.RpmsgAfeTransport.StrangerJudges | crates/daphne-sc-server/src/rpmsg.rs:49-60 | a command of one frame is judged by the oldest queued reply if that carries its number, though the frame is lost: Applied is told applied, Accepted and Timeout accepted and not applied, Rejected, Interlocked and Fault neither, with the codes of that reply |
| Rpmsg.RpmsgAfeTransport.RestartTakesStranger | crates/daphne-sc-server/src/rpmsg.rs:150-162 | a run in which the counter starts over and a command whose frame is lost is judged applied by an old reply |
| Rpmsg.InheritedStranger | crates/daphne-sc-server/src/rpmsg.rs:49-60 | a run in which the first command of a host is judged applied by a reply queued when the file was opened |
| Rpmsg.RpmsgAfeTransport.SendFrames | crates/daphne-sc-server/src/rpmsg.rs:102-119 | the frames are sent in order until one fails, and the replies left queued carry none of the numbers still to be sent; the runtime meets them in order, all but the last leave the devices alone, the result is the reply to the last, and a failure before the last exchange, or a reply that says the devices were not reached, leaves them as they were |
| Rpmsg.RpmsgAfeTransport.Transact | crates/daphne-sc-server/src/rpmsg.rs:38-67 | one frame out and the oldest queued message in; accepted only with the number of the frame just sent; heartbeat and last fault follow accepted replies |
| Exchanges.AcceptedIsOwn | crates/daphne-sc-server/src/rpmsg.rs:47-60 | over any run of exchanges in which the counter does not start over, a reply is accepted only for the frame just sent, if none queued at first carries a number that is sent |
| Exchanges.StrangerAccepted | crates/daphne-sc-server/src/rpmsg.rs:47-60 | without that condition: an exchange accepts another's reply exactly if the oldest queued reply is from before the run and carries its number |
| Exchanges.StaleExactly | crates/daphne-sc-server/src/rpmsg.rs:47-60 | for one exchange over any queue: a reply queued before is accepted exactly if the oldest carries the number of the frame |
| Exchanges.ExchangeAnswered | crates/daphne-sc-server/src/rpmsg.rs:49-60 | with no stranger queued the only reply that can be accepted is the one to this frame, and over a whole link it is |
| Exchanges.LateReplyNeverRecovers | crates/daphne-sc-server/src/rpmsg.rs:47-60 | over a link that answers every frame the host is behind after n more exchanges if and only if it was behind before or one of the replies came too late |
| Rpmsg.RpmsgAfeTransport.TransactAll | crates/daphne-sc-server/src/rpmsg.rs:38-67 | in any run of exchanges under different numbers, over any link, an exchange succeeds if and only if the host is not behind before it and the link carries the frame and its reply in time |
| Exchanges.OnlyLossCatchesUp | crates/daphne-sc-server/src/rpmsg.rs:47-60 | the host catches up by one exactly when it reads a reply while its own frame or reply is lost |
| Rpmsg.RpmsgAfeTransport.LateReplyFailsAllAfter | crates/daphne-sc-server/src/rpmsg.rs:38-67 | after one late reply every exchange of the run fails, though the link is whole from then on |
| Rpmsg.RpmsgAfeTransport.Status | crates/daphne-sc-server/src/rpmsg.rs:77-90 | never reaches the devices; running says whether the interlock has no fault; with no stranger queued a reply leaves nothing queued; the host stays in step unless the counter starts over unanswered |
| Rpmsg.RpmsgAfeTransport.ReserveSequences | crates/daphne-sc-server/src/rpmsg.rs:150-162 | the block starts at the counter or at 1, the counter stays at least 1 and continues where the block ends |
| Sequences.BlocksAreExact | crates/daphne-sc-server/src/rpmsg.rs:150-162 | a block fits below the saturation exactly when it is not the one that spans all numbers; the counter restarts exactly when the block would pass the top |
| Sequences.FramesNumberedByBlock | crates/daphne-sc-core/src/rpu_wire.rs:610-612 | within a reserved block neither wrap nor clamp fires |
| Sequences.DistinctExactly | crates/daphne-sc-core/src/rpu_wire.rs:610-612 | from any start the numbers of a command are distinct exactly when they do not run past the wrap |
| Sequences.CounterStaysPositive | crates/daphne-sc-server/src/rpmsg.rs:150-162 | over any run of draws, restarts included, the counter never becomes zero |
| Sequences.ConsecutiveUntilRestart | crates/daphne-sc-server/src/rpmsg.rs:69-73 | over any run of draws the numbers are consecutive until the counter restarts |
| Effects.FrameMeaning | crates/daphne-sc-core/src/rpu_wire.rs:185-290 | compiling a command into its frame preserves its meaning for caches, DACs, registers, lines and taps |
| Effects.FrameAcceptable | crates/daphne-sc-core/src/rpu_wire.rs:185-290 | the frame's arguments are acceptable to the backend exactly when the command is doable |
| Afe.PlCountsDown | crates/daphne-sc-core/src/afe.rs:10 | board AFE 0 is PL AFE 0, the others count down; the table is its own inverse |
| Afe.ValidExactly | crates/daphne-sc-core/src/afe.rs:154-181 | a command is refused exactly if a value it carries has more than twelve bits |
| Wire.CommandRoundTrip | crates/daphne-sc-core/src/rpu_wire.rs:335-384 | decoding an encoded command gives it back, for every field value |
| Wire.CommandReencodes | crates/daphne-sc-core/src/rpu_wire.rs:335-384 | re-encoding a decoded command frame gives it back up to the reserved byte |
| Wire.CommandBytes | crates/daphne-sc-core/src/rpu_wire.rs:335-351 | where each field of a command is in its 64 bytes, least significant byte first |
| Wire.CodesAreOrdered | crates/daphne-sc-core/src/rpu_wire.rs:17-126 | the numbers of operations, targets and statuses on the wire |
| Wire.ReplyRoundTrip | crates/daphne-sc-core/src/rpu_wire.rs:473-515 | decoding an encoded reply gives it back |
| Wire.ReplyReencodes | crates/daphne-sc-core/src/rpu_wire.rs:473-515 | re-encoding a decoded reply gives it back up to readback normalisation and the reserved tail |
| Wire.ReplyBytes | crates/daphne-sc-core/src/rpu_wire.rs:473-485 | the same for replies |
| Encoding.EncodeCommand | crates/daphne-sc-core/src/rpu_wire.rs:335-351 | the encoder that fills a buffer in place produces exactly the frame of the command |
| Encoding.EncodeReply | crates/daphne-sc-core/src/rpu_wire.rs:473-485 | the same for replies |
| Records.FromAfeCommandSequence | crates/daphne-sc-core/src/rpu_wire.rs:171-183 | the frames of a command, or the error that stops its compilation |
| Records.ConfigureFrontendSequence | crates/daphne-sc-core/src/rpu_wire.rs:292-333 | begin, one frame a record, apply, numbered in order |
| Records.AfeRecordRecovered | crates/daphne-sc-core/src/rpu_wire.rs:396-407 | the receiver reads exactly the AFE record that was packed |
| Records.AfeRecordBytes | crates/daphne-sc-core/src/rpu_wire.rs:308-316 | where each setting of an AFE record is in its frame, flags bit by bit |
| Records.ChannelRecordRecovered | crates/daphne-sc-core/src/rpu_wire.rs:409-421 | the receiver reads exactly the channel record that was packed |
| Records.ChannelRecordBytes | crates/daphne-sc-core/src/rpu_wire.rs:318-325 | where each field of a channel record is in its frame |
| Records.CountsRecovered | crates/daphne-sc-core/src/rpu_wire.rs:386-394 | the receiver reads exactly the announced counts and VBIAS |
| Records.CountsBytes | crates/daphne-sc-core/src/rpu_wire.rs:302-330 | where the announced counts and VBIAS are in a Begin, and the counts in an Apply |
| Records.FunctionNameRecovered | crates/daphne-sc-core/src/rpu_wire.rs:423-431 | the receiver reads the packed name if it is well-formed UTF-8 and refuses it otherwise |
| Utf8.ValidExactly | crates/daphne-sc-core/src/rpu_wire.rs:423-431 | a name is well-formed UTF-8 exactly if it encodes a list of Unicode scalar values |
| Protocol.Interlock.ReadyMeansCodeZero | crates/daphne-sc-rpu/src/lib.rs:36-57 | frames reach the hardware exactly when the reported code is zero |
| Protocol.Interlock.CodeTellsInputs | crates/daphne-sc-rpu/src/lib.rs:47-57 | the reported code has one bit for each input that is missing, in the source's order |
| Protocol.HeartbeatCountsFrames | crates/daphne-sc-rpu/src/lib.rs:113-119 | after any run the heartbeat is the number of frames modulo 2^64 |
| Protocol.InterlockBlocks | crates/daphne-sc-rpu/src/lib.rs:121-146 | under an interlock that is not ready a frame changes the heartbeat only |
| Protocol.FrameAnswered | crates/daphne-sc-rpu/src/lib.rs:113-174 | the status of the answer to any frame: Interlocked, Rejected, Fault with code 1 or Applied, each exactly if; for a status query Applied or Fault by the interlock's fault code; its codes, and the readback of a status query |
| Runtime.RpuRuntime.HandleFrame | crates/daphne-sc-rpu/src/lib.rs:113-174 | state and reply are those of the protocol, and the status says how the frame ended: rejected exactly if it does not decode or is turned down before the hardware is called, interlocked exactly if the interlock is not ready, fault with code 1 exactly if the hardware failed; the devices are untouched unless the frame decodes, the interlock is ready and the operation reaches them; an applied frame did what it means, power, reset and alignment included, registers if nothing was cut off before, and returned the cached or device value; an applied configuration leaves nothing cut off |
| Runtime.RpuRuntime.ApplyCommand | crates/daphne-sc-rpu/src/lib.rs:176-246 | each operation does what it means, succeeds only with acceptable arguments, and does succeed when no access fails, busy devices become idle within the poll limit and, for an alignment, the sampled words lock |
| Runtime.RpuRuntime.Stage | crates/daphne-sc-rpu/src/lib.rs:211-232 | begin and record frames move counters and staging area as the protocol says, whatever the devices do |
| Runtime.RpuRuntime.Apply | crates/daphne-sc-rpu/src/lib.rs:233-238 | apply leaves exactly the staged configuration, powered and with bias enabled, and nothing cut off, whatever was cut off before; or it keeps counters and staging area |
| Session.RunCoupled | crates/daphne-sc-rpu/src/lib.rs:266-312 | in every reachable state the runtime's counters and the backend's slots are views of one list of records |
| Session.StepCoupled | crates/daphne-sc-rpu/src/lib.rs:211-238 | every frame keeps that coupling |
| Session.ApplyReachesExactly | crates/daphne-sc-rpu/src/mmio.rs:687-692 | apply gets to the devices exactly when the announced numbers of records arrived and no two share a slot; then at most 5 AFEs and 40 channels |
| Session.AfePigeonhole | crates/daphne-sc-rpu/src/mmio.rs:765-777 | filled slots never outnumber records, and equal them exactly when the records are distinct |
| Session.OneApplyPerBegin | crates/daphne-sc-rpu/src/lib.rs:211-238 | in every run applies that succeed are at most the begins |
| Witness.LastReplyWitnesses | crates/daphne-sc-server/src/rpmsg.rs:102-136 | when the last frame is applied, every frame was applied exactly if the Begin was |
| Witness.ReadySequenceWitnessed | crates/daphne-sc-server/src/rpmsg.rs:102-136 | with the interlock ready throughout the last reply is Applied exactly when all are |
| Witness.StaleConfigurationApplied | crates/daphne-sc-rpu/src/lib.rs:233-238 | without that it can vouch for a configuration that was not sent |
| Delivery.RequestDelivered | crates/daphne-sc-rpu/src/lib.rs:211-238 | with a ready interlock exactly the request is staged before the last frame, which is applied exactly when the request is distinct and the devices do their part |
| Delivery.ReadyAtBeginSuffices | crates/daphne-sc-rpu/src/lib.rs:121-146 | if the interlock was ready at the Begin and the last frame was applied, it was ready at every frame |
| Configuration.ConfigureMeaning | crates/daphne-sc-rpu/src/mmio.rs:687-710 | applying a staged request caches every trim and offset, says at which code every DAC of every AFE ends, requested or not, sets attenuations, nonzero biases and VBIAS, leaves in the register bits of each requested AFE the ADC, PGA and LNA settings of the request and the constants 1, 2 and 0, and all other bits as the reset leaves them, and leaves all else as before |
| Configuration.RequestedCodeExactly | crates/daphne-sc-rpu/src/mmio.rs:401-422 | the DAC of a requested channel ends with its value exactly unless it is a nonzero value for channel 0 and a channel 5, 6 or 7 of the AFE is requested whose companion is not and has no cached half |
| Configuration.ProgrammableExactly | crates/daphne-sc-rpu/src/mmio.rs:424-485 | distinct validated requests can be programmed exactly when three function values are in range |
| Configuration.WholeAfeConfigured | crates/daphne-sc-rpu/src/mmio.rs:401-422 | when all channels of an AFE are requested its DACs end with the requested values, whatever they held |
| Mmio.AfeMmioBackend.ApplyConfigureFrontend | crates/daphne-sc-rpu/src/mmio.rs:687-710 | nothing is touched unless the counts match; success applies exactly the staged configuration (whose register bits `ConfigureMeaning` gives), drives words stranded before, leaves nothing cut off and clears the staging area, failure keeps it |
| Mmio.AfeMmioBackend.WriteTrimOrOffsetChannel | crates/daphne-sc-rpu/src/mmio.rs:342-380 | the cache takes the value in any case, the DACs exactly if the word arrives, which is a condition on the environment; success is exactly one pair write, the other side untouched; errors in order |
| Mmio.AfeMmioBackend.WriteChannelScalar | crates/daphne-sc-rpu/src/mmio.rs:584-625 | one channel, one AFE or all: exactly the writes of the target, in order |
| Mmio.AfeMmioBackend.ReadTrimOrOffsetChannel | crates/daphne-sc-rpu/src/mmio.rs:382-399 | the cached value of the channel, and the error for a place that does not exist |
| Mmio.AfeMmioBackend.WriteLevel | crates/daphne-sc-rpu/src/mmio.rs:557-575 | the cache moves exactly on success, the latch and the pin exactly when their steps of the write succeed, as conditions on the environment; success drives this pin and those of words stranded in other chips |
| Mmio.BusyAfesLeaveCacheAhead | crates/daphne-sc-rpu/src/mmio.rs:369-380 | a run on any board: the write is reported as failed, nothing was sent and a read says the new value |
| Mmio.BusyDacsMoveThePin | crates/daphne-sc-rpu/src/mmio.rs:133-139 | a run on any quiet board: the write is reported as failed, the pin has moved and a read says the old level |
| Mmio.StrandedWordMovesThePin | crates/daphne-sc-rpu/src/mmio.rs:133-139 | a run on any quiet board: a write reported as failed reaches its pin with the next write to another chip, which succeeds |
| Mmio.AfeMmioBackend.WriteVbiasControl | crates/daphne-sc-rpu/src/mmio.rs:631-638 | VBIAS output, stranded words, VBIAS cache and the enable register on success; the caches are kept on failure |
| Mmio.AfeMmioBackend.WriteAfeFunction | crates/daphne-sc-rpu/src/mmio.rs:487-510 | exactly the named field changes and reads back the value; a bad AFE, name, value or field causes no access |
| Mmio.AfeMmioBackend.ReadRegister | crates/daphne-sc-rpu/src/mmio.rs:516-526 | the register's content, nothing changed |
| Mmio.AfeMmioBackend.WriteRegister | crates/daphne-sc-rpu/src/mmio.rs:528-546 | exactly one register of one AFE changes, to the value, which is read back; register 0 keeps nothing |
| PairedDacs.ReadsReturnLastSet | crates/daphne-sc-rpu/src/mmio.rs:382-399 | after any run of writes a read returns the last value set, and others read as before |
| PairedDacs.WordsPairCompanions | crates/daphne-sc-core/src/afe_hw.rs:150-173 | a word carries channels c and c+4, with the same address once both were written |
| PairedDacs.StepAgreesExactly | crates/daphne-sc-rpu/src/mmio.rs:342-380 | the exact condition for a write to keep DACs and cache in agreement |
| PairedDacs.ReachableIsAddressed | crates/daphne-sc-core/src/afe_hw.rs:150-155 | in every state reachable from power-on written halves carry their own address and the others are zero |
| PairedDacs.RunKeepsAgreement | crates/daphne-sc-rpu/src/mmio.rs:342-380 | once companions were written every run keeps the agreement |
| PairedDacs.WholeAfeThenAnyRun | crates/daphne-sc-rpu/src/mmio.rs:584-625 | after writing a whole AFE every later run on it keeps each DAC at its cached code |
| PairedDacs.NeverWrittenCompanionClobbers | crates/daphne-sc-rpu/src/mmio.rs:342-380 | a run after which a read and the DAC differ |
| Targets.TargetReads | crates/daphne-sc-rpu/src/mmio.rs:584-625 | after a trim or offset command every channel of its target reads the value, every other reads as before |
| Targets.TargetCodes | crates/daphne-sc-rpu/src/mmio.rs:584-625 | and every DAC of the target ends at the value with its gain bit, whatever it held |
| DacOutputs.PinsFollowLevels | crates/daphne-sc-rpu/src/mmio.rs:329-340 | in every run each of the eleven outputs keeps its last level on pin and in cache, whatever is written to outputs sharing its chip |
| DacOutputs.TransferDrives | crates/daphne-sc-rpu/src/mmio.rs:329-340 | whatever was latched, a transfer moves the pin of the word just latched and those of words stranded in other chips, and settles all chips |
| DacOutputs.LatchThenTransfer | crates/daphne-sc-rpu/src/mmio.rs:329-340 | on settled chips one latched word and the go bit move one pin |
| DacOutputs.StrandedWordDriven | crates/daphne-sc-rpu/src/mmio.rs:329-340 | a word latched but not transferred is driven by the next transfer exactly if that is for another chip |
| AfeHw.RoutesAreInjective | crates/daphne-sc-core/src/afe_hw.rs:61-77 | no two outputs share a chip and channel |
| AfeHw.RoutesByChip | crates/daphne-sc-core/src/afe_hw.rs:61-77 | which chip and channel drives each of the eleven outputs |
| AfeHw.OffsetsSelectTheirPorts | crates/daphne-sc-core/src/afe_hw.rs:90-133 | every offset computed for an AFE selects that AFE's port |
| Board.Spi.WriteTransaction | crates/daphne-sc-rpu/src/mmio.rs:528-546 | the words of a register write set that register and no other; register 0 keeps nothing |
| Board.Spi.ReadTransaction | crates/daphne-sc-rpu/src/mmio.rs:516-526 | the words of a register read change no register and latch the one asked for |
| Board.Spi.TransactionIdles | crates/daphne-sc-rpu/src/mmio.rs:516-546 | a whole read or write idles the chip, whatever was cut off before |
| Board.Spi.CutOffWriteIsLost | crates/daphne-sc-rpu/src/mmio.rs:516-546 | for a cut after the trigger word or after the address word: when exactly the next write is lost, and what the registers then hold |
| AfeFunctions.ExtractAfterReplace | crates/daphne-sc-core/src/afe_functions.rs:208-223 | a replaced field reads back the value exactly when it fits, and every bit outside is kept |
| AfeFunctions.ExtractedNumber | crates/daphne-sc-core/src/afe_functions.rs:217-223 | a field's value is the register divided by 2^lsb, modulo 2^width |
| AfeFunctions.DisjointFieldsCommute | crates/daphne-sc-core/src/afe_functions.rs:208-223 | writes of disjoint fields commute and do not disturb each other |
| AfeFunctions.ValidatedFunctionReadsBack | crates/daphne-sc-core/src/afe_functions.rs:196-206 | every value the dictionary allows reads back from its field, but for the one function whose field is refused |
| AfeFunctions.WellFormedExactly | crates/daphne-sc-core/src/afe_functions.rs:64 | a validated function has a well-formed field exactly if it is not LVDS_OUTPUT_RATE_2X, which validates for 0 and 1 |
| AfeFunctions.ValidatedExactly | crates/daphne-sc-core/src/afe_functions.rs:192-206 | a value validates exactly if the first row of the name allows it, with that row |
| AfeFunctions.RowsDisjoint | crates/daphne-sc-core/src/afe_functions.rs:56-169 | no two functions that can be written share a register bit |
| AfeFunctions.ChannelRows | crates/daphne-sc-core/src/afe_functions.rs:81-163 | where the offset, digital gain, mixer phase and LNA gain of each channel are |
| Frontend.WrittenFieldsReadBack | crates/daphne-sc-rpu/src/mmio.rs:424-485 | after writing disjoint fields each reads back its own value |
| Frontend.OtherFunctionsKept | crates/daphne-sc-rpu/src/mmio.rs:487-510 | writing one function leaves the value of every other as it was |
| Frontend.WritableExactly | crates/daphne-sc-rpu/src/mmio.rs:487-510 | a function and value can be written exactly if they validate and the function is not LVDS_OUTPUT_RATE_2X |
| Frontend.FrontendWritesAllowed | crates/daphne-sc-rpu/src/mmio.rs:438-484 | the twelve function writes of a record are allowed exactly when three values are in range, and go to disjoint fields |
| Alignment.SetBestFrontendDelay | crates/daphne-sc-rpu/src/mmio.rs:217-252 | word k of the scan was captured with the delay at tap k; the tap written is the midpoint of the earliest longest constant run of those words; it succeeds exactly if none of its accesses fails |
| Alignment.BestDelayIsUnique | crates/daphne-sc-rpu/src/mmio.rs:217-252 | the words scanned determine the tap |
| Alignment.BestDelayIsCentred | crates/daphne-sc-rpu/src/mmio.rs:217-252 | the tap lies in a longest run, as far from one end as from the other up to one |
| Alignment.SetBestFrontendBitslip | crates/daphne-sc-rpu/src/mmio.rs:254-287 | word j of the scan was captured with the bitslip at tap j, the five that verify at the tap written, all at the delay chosen; the tap is the first that matched; it succeeds exactly if no access fails, some word sampled in the scan shows the pattern and the five sampled after it do |
| Alignment.AlignFrontend | crates/daphne-sc-rpu/src/mmio.rs:289-311 | it succeeds exactly under a condition on the environment: the delay controller is ready in time, every AFE's scan locks and no access fails; then the receiver was reset once, every AFE is aligned on words captured at the taps they stand for, and VTC is on; VTC is on after any end exactly under the stated condition |
| Alignment.AlignsWithoutFailures | crates/daphne-sc-rpu/src/mmio.rs:289-311 | if no access fails it succeeds exactly if the controller becomes ready within the poll limit and each AFE's scan samples the pattern at some tap and then five times more |
| Alignment.NeverReadyLeavesVtcOff | crates/daphne-sc-rpu/src/mmio.rs:289-311 | a run on any board: the controller never becomes ready, alignment times out and VTC is off |
| BusOps.WaitAfeReady | crates/daphne-sc-rpu/src/mmio.rs:108-121 | ready at the first poll that finds no busy bit, timed out after exactly the limit |
| Csv.ParseCsvRecord | opcua-bridge/src/registry.cpp:23-47 | the loop computes the parse of the line |
| Csv.RecordRoundTrip | opcua-bridge/src/registry.cpp:23-47 | records written by section 2 of RFC 4180, with quotes on every field that needs them, are read back for arbitrary characters |
| Csv.RejectedExactly | opcua-bridge/src/registry.cpp:23-47 | a line is rejected exactly when its number of quotes is odd |
| Patterns.ReplaceAll | opcua-bridge/src/registry.cpp:95-102 | left-to-right replacement of every occurrence; ends for every replacement |
| Patterns.Placeholders | opcua-bridge/src/registry.cpp:77-93 | distinct names in order of first appearance; fails exactly on an unclosed or empty placeholder |
| Patterns.ExtractPlaceholders | opcua-bridge/src/v8_snapshot.cpp:43-55 | all names in order; fails exactly on an unclosed placeholder |
| Patterns.ReplacedIsFilled | opcua-bridge/src/registry.cpp:95-102 | replacing the token of a name is filling in that name if and only if no other name ends in it or the value is the token itself |
| Patterns.ReplacedAfterFill | opcua-bridge/src/registry.cpp:120-124 | one replacement after the other is one simultaneous filling, if no name left ends in the name replaced and no token of it begins in what was filled in |
| Patterns.InertExactly | opcua-bridge/src/registry.cpp:95-102 | of two names filled in one after the other exactly the values in which no token of the second begins are safe in every pattern |
| Registry.ExpandRecursive | opcua-bridge/src/registry.cpp:104-125 | succeeds exactly when names have instances, no brace is left and the limit holds, and appends the expansions |
| Registry.NodeIdExactly | opcua-bridge/src/registry.cpp:324-333 | a node id is what follows the namespace prefix, if anything does |
| Registry.ExpansionsAreChains | opcua-bridge/src/registry.cpp:104-125 | for any pattern, names and instances: the recursion yields one id for each combination of instances, in order, the pattern with the names replaced one after the other |
| Registry.InOrderExactly | opcua-bridge/src/registry.cpp:104-125 | that is the pattern with all names filled in at once, for all patterns and all instances in which no token of a later name begins, if and only if no name ends in an opening brace and an earlier one |
| Registry.NoBraceLeftExactly | opcua-bridge/src/registry.cpp:110-113 | the check for a brace passes for every id exactly if no instance has one |
| Registry.EveryChoiceOccurs | opcua-bridge/src/registry.cpp:120-124 | the product misses no combination |
| Registry.EntryIsProduct | opcua-bridge/src/registry.cpp:231-254 | the ids of any entry that gets to the recursion: from what follows the namespace, device by device, bus and address replaced as a configured pair, one id for each combination of the other names' instances; if names and values do not interfere, the pattern filled with all of them at once |
| Registry.EntryAccepted | opcua-bridge/src/registry.cpp:231-254 | no entry is accepted whose product exceeds the limit; if names and values do not interfere it is accepted exactly if moreover no instance and no device has an opening brace |
| Registry.Expand | opcua-bridge/src/registry.cpp:231-265 | succeeds exactly when every entry expands, ids are distinct and within the limit, and yields the entries' nodes in order |
| Registry.EntryNodesAt | opcua-bridge/src/registry.cpp:231-265 | the nodes of an entry stand together behind those of the entries before: each is the entry itself under one of its ids, in order |
| Snapshot.RenderIndexedNodeId | opcua-bridge/src/v8_snapshot.cpp:101-130 | succeeds exactly when the wrapper has a nonempty key for each placeholder and nothing stays unresolved |
| Snapshot.RenderedExactly | opcua-bridge/src/v8_snapshot.cpp:101-130 | replacing key by key is filling the pattern with the keys, for all keys in which no token of a later placeholder begins, if and only if no placeholder comes before one that ends in an opening brace and it |
| Snapshot.OpenKeysRemain | opcua-bridge/src/v8_snapshot.cpp:126-129 | if placeholders and keys do not interfere, an opening brace is left exactly if a key brings it in |
| Snapshot.TangledStaysOpen | opcua-bridge/src/v8_snapshot.cpp:126-129 | a placeholder that comes before one it ends: there are keys without braces that leave a brace, so that the id is refused |
| Snapshot.VisitWireSamples | opcua-bridge/src/v8_snapshot.cpp:174-233 | all samples in order, or exactly those before the first that violates the schema |
| Snapshot.FieldViewsAreSamples | opcua-bridge/src/v8_snapshot.cpp:174-233 | a scalar field gives its own sample, an indexed one the first sample of each entry, in order, under the id made of its keys, with value and metadata unchanged |
| Snapshot.ViewsAreSamples | opcua-bridge/src/v8_snapshot.cpp:174-233 | every sample handed on is one of a field, and of a message visited to its end no field's sample is missed |
| Snapshot.ParseAndValidate | opcua-bridge/src/v8_snapshot.cpp:243-289 | accepts exactly the answers to this request whose samples are valid, distinct and of the board, and counts them by quality |
| Snapshot.QualitiesPartition | opcua-bridge/src/v8_snapshot.cpp:132-165 | the qualities partition the samples of an accepted snapshot |
| Writer.OpcUaSnapshotWriter.Publish | opcua-bridge/src/opcua_snapshot_writer.cpp:161-201 | the writes of exactly the samples visited, also before an error, and the rejected count; each known node is written once, as its first sample says: a value that is there and matches comes back from the variant written, in its type, any other leaves the node type's initial value; which status each quality gets; source time is the sample's, else the snapshot's, else none |
| Writer.PublishedSnapshot | opcua-bridge/src/opcua_snapshot_writer.cpp:161-201 | of an accepted snapshot exactly unknown nodes and mismatched values are rejected, and every sample of a known node is written once, with its value, status and time as above; the status is good exactly when quality is good, type matches and transport is current |
| Writer.OpcUaSnapshotWriter.PublishAccepted | opcua-bridge/src/daphne_client.cpp:215-217 | a snapshot that passes validation is published to its end as stated above, sample by sample and to no other node, one that does not is not published at all |
| Client.DaphneClient.SendRequest | opcua-bridge/src/daphne_client.cpp:326-378 | the request goes out with the caller's kind and payload under the next number; the answer returned was made for a request with id 0 or the current id, for the first 2^64 requests for this very one; late answers are skipped before the kind is checked |
| Client.ControlServer.MakeResponse | crates/daphne-sc-server/src/v2.rs:18-30 | an answer carries kind, task, correlation and route of its request |
| Client.ResponseTypeExactly | crates/daphne-sc-server/src/v2.rs:8-16 | the answer kind is the odd number at or just above the request's, zero for zero; which request kinds share one |
| Client.ToldApartExactly | opcua-bridge/src/daphne_client.cpp:336-337 | answers to earlier requests fail the staleness test exactly up to request 2^64, the one with id 0 |
| Client.RightExactly | opcua-bridge/src/daphne_client.cpp:371-377 | whatever the ids: every honest run of messages is decided rightly exactly if each request with id 0 or the current id and the expected answer kind has the answers of the current one |
| Client.DaphneClient.AnswerToZeroIsTaken | opcua-bridge/src/daphne_client.cpp:326-378 | a run in which the late answer to the request with id 0 is returned for the next request |
| Pollers.Visited | opcua-bridge/src/main.cpp:1461-1466 | a worker visits exactly the boards of its remainder class |
| Pollers.RoundsAreEven | opcua-bridge/src/main.cpp:1461-1482 | in every interleaving each worker serves its boards round by round: none of its boards is ever more than one published poll behind another |
| Pollers.RunConsistent | opcua-bridge/src/main.cpp:1461-1482 | in every interleaving each board shows its latest published poll, its latest good one and the number of failures |
| Pollers.NeverGoesBack | opcua-bridge/src/main.cpp:1461-1482 | the polls published for a board only grow |
| Pollers.DaphneRuntime.Record | opcua-bridge/src/main.cpp:1473-1481 | what is recorded of a poll under the lock |
| Pollers.Publication | opcua-bridge/src/main.cpp:1316-1331 | quality, measurement status and measurement published for a board |
| Pollers.GoodMeansCurrent | opcua-bridge/src/main.cpp:1320-1331 | in every interleaving: published with quality Good is the current poll, a good one; Stale or Uncertain is the latest poll that was good; Bad means none was |

## Left out

- `ReadAlignment`: the wire format has operation 22, the runtime's match has no
  arm for it; frames with it are excluded from the runtime model.
- `/dev/mem`, mmap, device nodes, systemd and sysfs probing: only the register
  interface is modelled.
- Sockets, protobuf bytes and reflection, JSON, open62541 calls: envelopes,
  fields and samples are datatypes, a receive deadline is a finite list of arrivals.
- Partial reads and writes of the RPMsg file, and poll errors other than a
  timeout: an exchange is one message each way or a failure.
- Texts of error messages: errors are constructors; where the source only
  promises failure the contract says failure and not which text.
- The message id of a response: how clock and counter are mixed is a parameter.
- `loadTagList`, `parseInstanceList` and `parseI2cDevices`: file reading and
  number parsing; instance lists are taken as given.
- Handlers, router and preflight gate, clock chip, transport receivers, status
  collector, power supply, configuration files, namespaces and credentials.
- `hardware_mut` and `io_mut`: they bypass the state machine and serve tests.
- Registry.EntryAccepted: for an entry whose names or values interfere, acceptance
  is given through its ids (`Registry.Expands`), not through instances and devices.
