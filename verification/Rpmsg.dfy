/** The RPMsg host: one exchange per frame over a link that may lose, delay or
    refuse it, and commands of several frames judged by their last reply
    (crates/daphne-sc-server/src/rpmsg.rs). */
module Rpmsg {
  import opened Words
  import opened Afe
  import opened Board
  import opened Utf8
  import opened Wire
  import opened Encoding
  import opened Exchanges
  import opened Records
  import opened Staging
  import opened Mmio
  import opened Runtime
  import opened Witness
  import opened Configuration
  import opened Delivery
  import opened Sequences
  import opened Effects
  import opened Protocol
  import Alignment

  datatype LinkStatus = LinkStatus(running: bool, heartbeat: u64, lastFault: Option<u32>)

  datatype AfeCommandReply = AfeCommandReply(
    accepted: bool, applied: bool, readback: Option<u32>, faultCode: u32, contextCode: u32)

  /** A frame was handled in state `s`, and if it was answered Applied the
      command was carried out. */
  ghost predicate Handled(s: Rpu, input: Input, command: Command, before: FrontendView, quietBefore: bool,
                          after: FrontendView, quietAfter: bool) {
    && input.frame == EncodedCommand(command) && Supported(input.frame)
    && var reply := Step(s, input).1;
       (reply.status.Applied? && !command.op.Status? ==>
          Carried(before, quietBefore, s.staged, command, after, quietAfter, reply.readback))
  }

  /** The frames of a command: all but the last only stage. */
  predicate Outgoing(frames: seq<Command>) {
    && frames != []
    && forall k :: 0 <= k < |frames| ==>
         && !frames[k].op.ReadAlignment? && !frames[k].op.Status?
         && (k < |frames| - 1 ==> IsStagingOp(frames[k].op))
  }

  /** The frames as the RPU met them, exchange by exchange from `start` on. */
  ghost predicate Met(inputs: seq<Input>, frames: seq<Command>, link: nat -> LinkEvent, start: nat) {
    && |inputs| == |frames| && AllSupported(inputs)
    && forall k :: 0 <= k < |inputs| ==>
         inputs[k].frame == EncodedCommand(frames[k]) && inputs[k].interlock == link(start + k).interlock
  }

  ghost predicate WholeLink(link: nat -> LinkEvent, start: nat, n: nat) {
    forall t :: start <= t < start + n ==> link(t).Whole()
  }

  /** No frame gets to the RPU. */
  ghost predicate LostLink(link: nat -> LinkEvent, start: nat, n: nat) {
    forall t :: start <= t < start + n ==> !(link(t).written && link(t).delivered)
  }

  ghost predicate ReadyLink(link: nat -> LinkEvent, start: nat, n: nat) {
    forall t :: start <= t < start + n ==> link(t).interlock.ReadyForAfe()
  }

  lemma OutgoingAt(frames: seq<Command>, s: Rpu, k: nat)
    requires Outgoing(frames)
    ensures frames != []
    ensures k < |frames| ==> !frames[k].op.ReadAlignment? && !frames[k].op.Status?
    ensures k < |frames| - 1 ==> !ReachesDevices(s, frames[k])
  {}

  lemma ForeignAt(pending: seq<Frame>, frames: seq<Command>, k: nat, link: nat -> LinkEvent, start: nat)
    requires k < |frames|
    ensures pending == [] || AllForeign(pending, frames) ==> Foreign(pending, frames[k].sequence)
    ensures WholeLink(link, start, |frames|) ==> link(start + k).Whole()
    ensures LostLink(link, start, |frames|) ==> !(link(start + k).written && link(start + k).delivered)
  {
    hide Accept;
  }

  lemma HandledFrame(s: Rpu, input: Option<Input>, c: Command, before: FrontendView, quietBefore: bool,
                     after: FrontendView, quietAfter: bool)
    requires input.Some? ==> Handled(s, input.value, c, before, quietBefore, after, quietAfter)
    ensures input.Some? ==> Supported(input.value.frame) && input.value.frame == EncodedCommand(c)
  {}

  /** The RPU met the first `k` frames: it is in `state`, and its last reply was
      `final`. */
  ghost predicate Followed(s: Rpu, inputs: seq<Input>, frames: seq<Command>, k: nat, link: nat -> LinkEvent,
                           start: nat, state: Rpu, final: Option<Reply>) {
    && k <= |frames| && Met(inputs, frames[..k], link, start) && state == Run(s, inputs)
    && final == if k == 0 then None else Some(ReplyAt(s, inputs, k - 1))
  }

  /** And the last frame was handled by devices that, if they were `willing`, did
      what it asks if its arguments are acceptable. */
  ghost predicate Ended(s: Rpu, inputs: seq<Input>, frames: seq<Command>, willing: bool,
                        v: FrontendView, quiet: bool, w: FrontendView, quietAfter: bool)
  {
    && frames != [] && |inputs| == |frames| && AllSupported(inputs[..|frames| - 1])
    && var n := |frames| - 1;
    && Handled(Run(s, inputs[..n]), inputs[n], frames[n], v, quiet, w, quietAfter)
    && (willing && Acceptable(Run(s, inputs[..n]).staged, frames[n]) ==> inputs[n].hw.Done?)
  }

  lemma NothingFollowed(s: Rpu, frames: seq<Command>, link: nat -> LinkEvent, start: nat)
    ensures Followed(s, [], frames, 0, link, start, s, None)
  {}

  lemma FollowedNext(s: Rpu, inputs: seq<Input>, frames: seq<Command>, k: nat, link: nat -> LinkEvent, start: nat,
                     state: Rpu, final: Option<Reply>, i: Input)
    requires k < |frames| && Followed(s, inputs, frames, k, link, start, state, final)
    requires Supported(i.frame) && i.frame == EncodedCommand(frames[k]) && i.interlock == link(start + k).interlock
    ensures |inputs| == k
    ensures Followed(s, inputs + [i], frames, k + 1, link, start, Step(state, i).0, Some(Step(state, i).1))
  {
    hide Step, EncodedCommand, Met, Run, ReplyAt, Supported;
    MetCount(inputs, frames[..k], link, start);
    MetNext(inputs, frames, link, start, k, i, s);
  }

  lemma MetCount(inputs: seq<Input>, frames: seq<Command>, link: nat -> LinkEvent, start: nat)
    requires Met(inputs, frames, link, start)
    ensures |inputs| == |frames| && AllSupported(inputs)
  {}

  lemma MetNext(inputs: seq<Input>, frames: seq<Command>, link: nat -> LinkEvent, start: nat, k: nat, i: Input, s: Rpu)
    requires k < |frames| && Met(inputs, frames[..k], link, start)
    requires Supported(i.frame) && i.frame == EncodedCommand(frames[k]) && i.interlock == link(start + k).interlock
    ensures AllSupported(inputs) && AllSupported(inputs + [i]) && Met(inputs + [i], frames[..k + 1], link, start)
    ensures Run(s, inputs + [i]) == Step(Run(s, inputs), i).0
    ensures ReplyAt(s, inputs + [i], k) == Step(Run(s, inputs), i).1
  {
    hide Step, EncodedCommand;
    assert (inputs + [i])[..k] == inputs;
  }

  lemma EndedNow(s: Rpu, inputs: seq<Input>, frames: seq<Command>, k: nat, link: nat -> LinkEvent, start: nat,
                 state: Rpu, final: Option<Reply>, i: Input, willing: bool,
                 v: FrontendView, quiet: bool, w: FrontendView, quietAfter: bool)
    requires k == |frames| - 1 && Followed(s, inputs, frames, k, link, start, state, final)
    requires Handled(state, i, frames[k], v, quiet, w, quietAfter)
    requires willing && Acceptable(state.staged, frames[k]) ==> i.hw.Done?
    ensures Ended(s, inputs + [i], frames, willing, v, quiet, w, quietAfter)
  {
    hide Step, EncodedCommand, Handled, Acceptable;
    assert (inputs + [i])[..k] == inputs;
  }

  function Judged(reply: Reply): AfeCommandReply {
    AfeCommandReply(reply.status.Accepted? || reply.status.Applied? || reply.status.Timeout?, reply.status.Applied?,
                    reply.readback, reply.faultCode, reply.interlockCode)
  }

  /** A command is judged by the last reply. */
  ghost predicate JudgedBy(history: seq<Exchange>, r: Result<AfeCommandReply, RpuError>) {
    r.Ok? ==>
      && history != [] && history[|history| - 1].result.Ok?
      && r.value == Judged(history[|history| - 1].result.value)
  }

  lemma JudgedMeans(history: seq<Exchange>, reply: Reply)
    requires history != [] && history[|history| - 1].result == Ok(reply)
    ensures JudgedBy(history, Ok(Judged(reply)))
  {}

  lemma NotJudged(history: seq<Exchange>, error: RpuError)
    ensures JudgedBy(history, Err(error))
  {}

  lemma JudgedSays(reply: Reply)
    ensures var told := Judged(reply);
      && told.readback == reply.readback
      && told.faultCode == reply.faultCode && told.contextCode == reply.interlockCode
      && (told.applied <==> reply.status.Applied?)
      && (told.accepted <==> reply.status.Accepted? || reply.status.Applied? || reply.status.Timeout?)
  {}

  lemma JudgedApplied(reply: Reply)
    ensures Judged(reply).applied ==> Judged(reply).accepted
  {}

  /** A reply that says the devices were not reached: the command was refused
      for its arguments or by the interlock. */
  predicate Blocked(told: AfeCommandReply) {
    !told.applied && (told.faultCode == 0 || told.contextCode != 0)
  }

  lemma SameReach(s: Rpu, interlock: Interlock, c: Command)
    ensures ReachesDevices(s.(interlock := interlock), c) == ReachesDevices(s, c)
  {}

  lemma BlockedStays(s: Rpu, input: Input, c: Command)
    requires Supported(input.frame) && input.frame == EncodedCommand(c) && !c.op.Status?
    ensures Blocked(Judged(Step(s, input).1)) ==> !input.interlock.ReadyForAfe() || !ReachesDevices(s, c)
  {
    hide EncodedCommand, DecodeCommand;
    CommandRoundTrip(c);
    input.interlock.ReadyMeansCodeZero();
  }

  /** The devices are idle again before a wait gives up, and an alignment that
      starts at time `t`, if that is the command, would succeed. */
  ghost predicate Obliging(command: AfeCommand, env: Environment, t: nat, spinLimit: nat) {
    env.Responsive(spinLimit) && (command.Align? ==> Alignment.Aligns(env, t, spinLimit))
  }

  lemma WillingMeans(hardware: AfeMmioBackend, c: Command, command: AfeCommand)
    requires c.op.Align? ==> command.Align?
    ensures Obliging(command, hardware.io.env, hardware.io.tick, hardware.spinLimit) ==> Willing(hardware, c)
  {}

  lemma BlankIsStatus(sequence: u64)
    ensures BlankCommand(sequence).op.Status? && BlankCommand(sequence).sequence == sequence
  {}

  lemma StatusIsHarmless(s: Rpu, c: Command)
    requires c.op.Status?
    ensures !ReachesDevices(s, c)
  {}

  lemma StatusAnswered(s: Rpu, input: Option<Input>, c: Command)
    requires c.op.Status?
    requires input.Some? ==> Supported(input.value.frame) && input.value.frame == EncodedCommand(c)
    ensures input.Some? ==>
      var reply := Step(s, input.value).1;
      reply.heartbeat == Beat(s.heartbeat)
      && (!reply.status.Fault? && !reply.status.Timeout? <==> input.value.interlock.faultCode == 0)
  {
    CommandRoundTrip(c);
  }

  // ---------- the frames of a command ----------

  /** Frame k of a command carries number k of its block, and all frames but
      the last only stage. */
  lemma FramesOfCommand(next: u64, command: AfeCommand, k: nat)
    requires next >= 1 && !command.ReadAlignment? && FrameCount(command).Ok? && k < FrameCount(command).value
    ensures var first := BlockStart(next, FrameCount(command).value);
            CompiledFrames(first, command).Ok? ==>
              var frames := CompiledFrames(first, command).value;
              && frames[k].sequence == first + k && !frames[k].op.ReadAlignment? && !frames[k].op.Status?
              && (k < |frames| - 1 ==> IsStagingOp(frames[k].op))
              && !(frames[k].op.Align? && !command.Align?)
  {
    var n := FrameCount(command).value;
    var first := BlockStart(next, n);
    FramesNumberedByBlock(next, n, k);
    if command.ConfigureFrontend? {
      FrameAt(first, command.afes, command.channels, command.biasControl, k);
    } else if CompiledFrames(first, command).Ok? {
      FrameOp(first, command, CompiledFrames(first, command).value[0]);
    }
  }

  predicate Compiles(command: AfeCommand) {
    command.Validate().Ok? && FrameCount(command).Ok? && CompiledFrames(1, command).Ok?
  }

  lemma CompilesMeans(command: AfeCommand)
    ensures Compiles(command) <==>
      command.Validate().Ok? && FrameCount(command).Ok? && CompiledFrames(1, command).Ok?
  {}

  lemma CompilesAnywhere(first: u64, command: AfeCommand)
    ensures CompiledFrames(first, command).Ok? <==> CompiledFrames(1, command).Ok?
  {}

  /** How many sequence numbers a command takes. */
  function Numbers(command: AfeCommand): (n: nat)
    ensures n <= MOST_FRAMES
  {
    if command.Validate().Ok? && FrameCount(command).Ok? then FrameCount(command).value else 0
  }

  function FramesOf(next: u64, command: AfeCommand): seq<Command> {
    match CompiledFrames(BlockStart(next, Numbers(command)), command)
    case Ok(frames) => frames
    case Err(_) => []
  }

  /** No reply still queued carries a number of the command's block. */
  ghost predicate Unclaimed(pending: seq<Frame>, next: u64, command: AfeCommand) {
    var first := BlockStart(next, Numbers(command));
    Clear(pending, first, first + Numbers(command))
  }

  lemma NumbersMean(next: u64, command: AfeCommand)
    requires next >= 1
    ensures Numbers(command) ==
      if command.Validate().Ok? && FrameCount(command).Ok? then FrameCount(command).value else 0
    ensures var first := BlockStart(next, Numbers(command));
      && AfterBlock(next, Numbers(command)) == first + Numbers(command)
      && (Numbers(command) == 0 ==> AfterBlock(next, 0) == next)
      && (!Restarts(next, Numbers(command)) ==> first == next)
      && forall frames :: CompiledFrames(first, command) == Ok(frames) ==> FramesOf(next, command) == frames
  {
    hide AfeCommand.Validate, FrameCount, CompiledFrames;
    BlocksAreExact(next, Numbers(command));
  }

  lemma FramesNumbered(next: u64, command: AfeCommand)
    requires next >= 1 && Compiles(command) && !command.ReadAlignment?
    ensures |FramesOf(next, command)| == Numbers(command)
    ensures Consecutive(FramesOf(next, command), BlockStart(next, Numbers(command)))
  {
    hide CompiledFrames, Consecutive;
    CompilesAnywhere(BlockStart(next, Numbers(command)), command);
    CommandOutgoing(next, command, FramesOf(next, command));
  }

  lemma StaysClear(pending: seq<Frame>, next: u64, command: AfeCommand)
    requires next >= 1 && Clear(pending, next, SEQUENCES)
    ensures !Restarts(next, Numbers(command)) ==>
      Unclaimed(pending, next, command) && Clear(pending, AfterBlock(next, Numbers(command)), SEQUENCES)
  {
    hide Clear, Numbers;
    BlocksAreExact(next, Numbers(command));
    if !Restarts(next, Numbers(command)) {
      ClearPart(pending, next, SEQUENCES, next, next + Numbers(command));
      ClearPart(pending, next, SEQUENCES, next + Numbers(command), SEQUENCES);
    }
  }

  lemma UnclaimedFrames(pending: seq<Frame>, next: u64, command: AfeCommand, frames: seq<Command>)
    requires Unclaimed(pending, next, command) && |frames| == Numbers(command)
    requires Consecutive(frames, BlockStart(next, |frames|))
    ensures AllForeign(pending, frames)
  {
    hide Clear, Numbers, Consecutive, AllForeign;
    ClearAllForeign(pending, frames, BlockStart(next, |frames|));
  }

  lemma CommandOutgoing(next: u64, command: AfeCommand, frames: seq<Command>)
    requires next >= 1 && !command.ReadAlignment? && FrameCount(command).Ok?
    requires CompiledFrames(BlockStart(next, FrameCount(command).value), command) == Ok(frames)
    ensures Outgoing(frames) && |frames| == FrameCount(command).value
    ensures Consecutive(frames, BlockStart(next, |frames|))
    ensures frames[|frames| - 1].op.Align? ==> command.Align?
  {
    hide CompiledFrames, BlockStart;
    forall k | 0 <= k < |frames|
      ensures !frames[k].op.ReadAlignment? && !frames[k].op.Status?
      ensures k < |frames| - 1 ==> IsStagingOp(frames[k].op)
      ensures frames[k].sequence == BlockStart(next, |frames|) + k && (frames[k].op.Align? ==> command.Align?)
    {
      FramesOfCommand(next, command, k);
    }
  }

  // ---------- what a submitted command did ----------

  /** `w` is `v` with the command carried out. */
  ghost predicate CommandHolds(v: FrontendView, w: FrontendView, command: AfeCommand)
    requires command.Validate().Ok? && !command.ReadAlignment?
  {
    if command.ConfigureFrontend?
    then RequestHolds(v, w, command.afes, command.channels, command.biasControl)
    else Affects(v, command, w)
  }

  /** The devices did what a command asks for, from the pins it found. */
  ghost predicate CommandDone(v: FrontendView, quiet: bool, w: FrontendView, command: AfeCommand)
    requires command.Validate().Ok? && !command.ReadAlignment?
  {
    exists pins :: Found(v, quiet, DrivesLevels(command), pins) && CommandHolds(v.Driven(pins), w, command)
  }

  lemma DoneWith(v: FrontendView, quiet: bool, w: FrontendView, command: AfeCommand, pins: Outputs)
    requires command.Validate().Ok? && !command.ReadAlignment?
    requires Found(v, quiet, DrivesLevels(command), pins) && CommandHolds(v.Driven(pins), w, command)
    ensures CommandDone(v, quiet, w, command)
  {
    hide Found, DrivesLevels, CommandHolds, FrontendView.Driven;
  }

  /** A command was carried out: it is doable, its readback is right and the
      devices did it; AFE registers are vouched for if no earlier transaction
      was cut off. A configuration leaves nothing cut off. */
  ghost predicate Achieved(command: AfeCommand, readback: Option<u32>, v: FrontendView, quiet: bool,
                           w: FrontendView, quietAfter: bool)
    requires command.Validate().Ok? && !command.ReadAlignment?
  {
    && Doable(command) && ReadbackHolds(w, command, readback)
    && (quiet || !OnRegisters(command) ==> CommandDone(v, quiet, w, command))
    && (quiet || command.ConfigureFrontend? ==> quietAfter)
    && (quiet ==> DeviceReadbackHolds(w, command, readback))
  }

  lemma SingleDone(v: FrontendView, quiet: bool, s: StagedConfig, first: u64, command: AfeCommand, c: Command,
                   w: FrontendView)
    requires SingleFrame(command) && command.Validate().Ok? && FromAfeCommand(first, command) == Ok(c)
    requires command.WriteFunction? ==> ValidUtf8(command.name)
    requires Did(v, quiet, s, c, w)
    ensures CommandDone(v, quiet, w, command)
  {
    hide FromAfeCommand, Means, Affects, Found, DrivesPins, DrivesLevels, FrontendView.Driven, CommandDone;
    FrameReach(first, command, c);
    var pins :| Found(v, quiet, DrivesPins(c.op), pins) && Means(v.Driven(pins), s, c, w);
    FrameMeaning(v.Driven(pins), s, first, command, c);
    DoneWith(v, quiet, w, command, pins);
  }

  /** What a carried-out frame means for the command it was compiled from. */
  lemma SingleCarried(v: FrontendView, quiet: bool, s: StagedConfig, first: u64, command: AfeCommand, c: Command,
                      w: FrontendView, quietAfter: bool, readback: Option<u32>)
    requires SingleFrame(command) && command.Validate().Ok? && FromAfeCommand(first, command) == Ok(c)
    requires command.WriteFunction? ==> ValidUtf8(command.name)
    requires Carried(v, quiet, s, c, w, quietAfter, readback)
    ensures Achieved(command, readback, v, quiet, w, quietAfter)
  {
    hide FromAfeCommand, Acceptable, Answered, DeviceAnswered, Doable, Did, CommandDone, ReadbackHolds;
    hide OnRegisters, IsRegisterOp;
    FrameReach(first, command, c);
    FrameAcceptable(v, s, first, command, c);
    FrameAnswer(w, first, command, c, readback);
    if quiet || !OnRegisters(command) {
      SingleDone(v, quiet, s, first, command, c, w);
    }
    if quiet && OnRegisters(command) {
      FrameDeviceAnswer(w, first, command, c, readback);
    }
    OffRegisters(w, command, readback);
  }

  lemma OffRegisters(v: FrontendView, command: AfeCommand, readback: Option<u32>)
    ensures !OnRegisters(command) ==> DeviceReadbackHolds(v, command, readback)
  {}

  lemma SingleSubmitted(s: Rpu, input: Input, first: u64, command: AfeCommand, c: Command,
                        v: FrontendView, quiet: bool, w: FrontendView, quietAfter: bool)
    requires SingleFrame(command) && command.Validate().Ok? && FromAfeCommand(first, command) == Ok(c)
    requires command.WriteFunction? ==> ValidUtf8(command.name)
    requires Handled(s, input, c, v, quiet, w, quietAfter)
    ensures var reply := Step(s, input).1;
            && (reply.status.Applied? ==> Achieved(command, reply.readback, v, quiet, w, quietAfter))
            && (input.interlock.ReadyForAfe() && Doable(command) && (Acceptable(s.staged, c) ==> input.hw.Done?) ==>
                  reply.status.Applied?)
  {
    hide FromAfeCommand, Acceptable, Carried, Doable, Achieved, EncodedCommand, DecodeCommand, ApplyCommand;
    CommandRoundTrip(c);
    FrameOp(first, command, c);
    FrameAcceptable(v, s.staged, first, command, c);
    var reply := Step(s, input).1;
    if reply.status.Applied? {
      SingleCarried(v, quiet, s.staged, first, command, c, w, quietAfter, reply.readback);
    }
    if Doable(command) {
      var t := s.(interlock := input.interlock, heartbeat := Beat(s.heartbeat));
      FrameApplied(t, first, command, c, input.hw);
    }
  }

  lemma HandledMeans(s: Rpu, input: Input, c: Command, v: FrontendView, quiet: bool, w: FrontendView, quietAfter: bool)
    requires Handled(s, input, c, v, quiet, w, quietAfter) && c.op.ApplyConfigureFrontend?
    ensures Supported(input.frame)
    ensures Step(s, input).1.status.Applied? ==> Acceptable(s.staged, c) && quietAfter && Did(v, quiet, s.staged, c, w)
  {
    hide Step, Did, Acceptable, Answered, Supported, DeviceAnswered;
  }

  lemma ApplyDone(v: FrontendView, quiet: bool, s: StagedConfig, c: Command, w: FrontendView, command: AfeCommand)
    requires command.ConfigureFrontend? && command.Validate().Ok?
    requires c.op.ApplyConfigureFrontend? && Did(v, quiet, s, c, w)
    requires |command.afes| <= RECORD_MAX && |command.channels| <= RECORD_MAX
    requires s == StagedFor(command.afes, command.channels, command.biasControl)
    requires DistinctRequest(command.afes, command.channels) && Programmable(s) && Applicable(s)
    ensures CommandDone(v, quiet, w, command)
  {
    hide Means, Found, FrontendView.Driven, CommandDone, StagedFor, Programmable, Applicable, RequestHolds, AfterApply;
    hide DistinctRequest, AfeCommand.Validate;
    var pins :| Found(v, quiet, DrivesPins(c.op), pins) && Means(v.Driven(pins), s, c, w);
    ApplyMeaning(v.Driven(pins), s, c);
    ConfigureMeaning(v.Driven(pins), command.afes, command.channels, command.biasControl);
    DoneWith(v, quiet, w, command, pins);
  }

  lemma ConfigureAchieves(v: FrontendView, quiet: bool, w: FrontendView, quietAfter: bool, command: AfeCommand,
                          readback: Option<u32>)
    requires command.ConfigureFrontend? && command.Validate().Ok? && Doable(command) && quietAfter
    requires CommandDone(v, quiet, w, command)
    ensures Achieved(command, readback, v, quiet, w, quietAfter)
  {
    hide Doable, CommandDone;
  }

  lemma LastReply(s: Rpu, inputs: seq<Input>)
    requires AllSupported(inputs) && inputs != []
    ensures var n := |inputs| - 1;
            && AllSupported(inputs[..n]) && Supported(inputs[n].frame)
            && ReplyAt(s, inputs, n) == Step(Run(s, inputs[..n]), inputs[n]).1
  {
    hide Step;
  }

  lemma ConfigureSubmitted(s: Rpu, inputs: seq<Input>, first: u64, command: AfeCommand, c: Command,
                           v: FrontendView, quiet: bool, w: FrontendView, quietAfter: bool)
    requires command.ConfigureFrontend? && command.Validate().Ok?
    requires |command.afes| <= RECORD_MAX && |command.channels| <= RECORD_MAX
    requires Sends(inputs, first, command.afes, command.channels, command.biasControl)
    requires AllSupported(inputs) && AllReady(inputs)
    requires c.op.ApplyConfigureFrontend? && inputs != [] && AllSupported(inputs[..|inputs| - 1])
    ensures var n := |inputs| - 1;
            var reply, staged := ReplyAt(s, inputs, n), StagedFor(command.afes, command.channels, command.biasControl);
            && (reply.status.Applied? && Handled(Run(s, inputs[..n]), inputs[n], c, v, quiet, w, quietAfter) ==>
                  Achieved(command, reply.readback, v, quiet, w, quietAfter))
            && (Doable(command) && (Acceptable(staged, c) ==> inputs[n].hw.Done?) ==> reply.status.Applied?)
  {
    hide *;
    var n := |inputs| - 1;
    var afes, channels, biasControl := command.afes, command.channels, command.biasControl;
    var staged := StagedFor(afes, channels, biasControl);
    LastReply(s, inputs);
    RequestDoable(command);
    RequestDelivered(s, inputs, first, afes, channels, biasControl);
    ApplyMeaning(v, staged, c);
    if DistinctRequest(afes, channels) {
      ProgrammableExactly(afes, channels, biasControl);
      CompleteWhenDistinct(s, inputs[..n], afes, channels, biasControl);
    }
    if Handled(Run(s, inputs[..n]), inputs[n], c, v, quiet, w, quietAfter) {
      HandledMeans(Run(s, inputs[..n]), inputs[n], c, v, quiet, w, quietAfter);
      if Doable(command) && ReplyAt(s, inputs, n).status.Applied? {
        ApplyDone(v, quiet, staged, c, w, command);
        ConfigureAchieves(v, quiet, w, quietAfter, command, ReplyAt(s, inputs, n).readback);
      }
    }
  }

  lemma RequestDoable(command: AfeCommand)
    requires command.ConfigureFrontend?
    ensures Doable(command) <==> DistinctRequest(command.afes, command.channels) && RequestInRange(command.afes)
  {}

  lemma CompleteWhenDistinct(s: Rpu, inputs: seq<Input>, afes: seq<AfeFrontendConfig>,
                             channels: seq<ChannelFrontendConfig>, biasControl: u16)
    requires |afes| <= RECORD_MAX && |channels| <= RECORD_MAX
    requires AllSupported(inputs) && Run(s, inputs).staged == StagedFor(afes, channels, biasControl)
    requires ApplyReachesDevices(Run(s, inputs))
    ensures Applicable(StagedFor(afes, channels, biasControl)) <==> Programmable(StagedFor(afes, channels, biasControl))
  {
    hide Run, Programmable, StagedFor;
  }

  /** The submitted frames were met and the last of them was handled. */
  ghost predicate Submitted(s: Rpu, inputs: seq<Input>, frames: seq<Command>, link: nat -> LinkEvent, start: nat,
                            v: FrontendView, quiet: bool, w: FrontendView, quietAfter: bool)
  {
    && frames != [] && Met(inputs, frames, link, start)
    && var n := |frames| - 1;
    && AllSupported(inputs[..n])
    && Handled(Run(s, inputs[..n]), inputs[n], frames[n], v, quiet, w, quietAfter)
  }

  /** The devices did the last frame if its arguments are acceptable. */
  ghost predicate LastDone(s: Rpu, inputs: seq<Input>, frames: seq<Command>) {
    && frames != [] && |inputs| == |frames|
    && var n := |frames| - 1;
    && AllSupported(inputs[..n])
    && (Acceptable(Run(s, inputs[..n]).staged, frames[n]) ==> inputs[n].hw.Done?)
  }

  lemma AllSent(s: Rpu, inputs: seq<Input>, frames: seq<Command>, link: nat -> LinkEvent, start: nat,
                state: Rpu, final: Option<Reply>, willing: bool,
                v: FrontendView, quiet: bool, w: FrontendView, quietAfter: bool)
    requires Followed(s, inputs, frames, |frames|, link, start, state, final)
    requires Ended(s, inputs, frames, willing, v, quiet, w, quietAfter)
    ensures Submitted(s, inputs, frames, link, start, v, quiet, w, quietAfter)
    ensures AllSupported(inputs) && |inputs| == |frames| > 0
    ensures final == Some(ReplyAt(s, inputs, |frames| - 1))
    ensures willing ==> LastDone(s, inputs, frames)
  {
    hide Run, Handled, Acceptable, ReplyAt;
    assert frames[..|frames|] == frames;
  }

  /** What the host's judgement of a command says about the devices: the
      command was carried out if it says applied, and it says so whenever the
      interlock is ready throughout, the devices are willing and the command is
      doable. A configuration is vouched for if the interlock was ready when it
      began. */
  ghost predicate Dependable(told: AfeCommandReply, begun: bool, ready: bool, command: AfeCommand, willing: bool,
                             v: FrontendView, quiet: bool, w: FrontendView, quietAfter: bool)
    requires command.Validate().Ok? && !command.ReadAlignment?
  {
    && (told.applied && (begun || !command.ConfigureFrontend?) ==>
          Achieved(command, told.readback, v, quiet, w, quietAfter))
    && (ready && willing && Doable(command) ==> told.applied)
  }

  /** What it says beside that. The RPU never answers Accepted or Timeout, so
      accepted is applied. Under an interlock that is not ready the command is
      not accepted, and the codes are the interlock's. Under one that is ready,
      a command that is not applied failed in the hardware, or, if the frames
      before the last did not all get `through`, was turned down. */
  predicate Verdict(told: AfeCommandReply, last: Interlock, through: bool) {
    && (told.accepted <==> told.applied)
    && told.contextCode == last.Code()
    && (told.applied ==> last.ReadyForAfe())
    && (told.readback.Some? ==> told.applied)
    && (!last.ReadyForAfe() ==> told.faultCode == last.faultCode)
    && (last.ReadyForAfe() ==>
          && (told.applied ==> told.faultCode == 0)
          && (!told.applied ==> told.faultCode == 1 || (!through && told.faultCode == 0)))
  }

  /** A command of one frame has none before the last, and those of a
      configuration get through if the interlock is ready at each of them. */
  ghost predicate Through(command: AfeCommand, link: nat -> LinkEvent, start: nat, n: nat) {
    !command.ConfigureFrontend? || ReadyLink(link, start, n)
  }

  /** The interlock under which the last of `n` frames was handled. */
  function LastInterlock(link: nat -> LinkEvent, start: nat, n: nat): Interlock {
    link(if n == 0 then start else start + n - 1).interlock
  }

  /** Both, for a command of `n` frames. */
  ghost predicate Tells(told: AfeCommandReply, command: AfeCommand, link: nat -> LinkEvent, start: nat, n: nat,
                        willing: bool, v: FrontendView, quiet: bool, w: FrontendView, quietAfter: bool)
    requires command.Validate().Ok? && !command.ReadAlignment?
  {
    && Dependable(told, link(start).interlock.ReadyForAfe(), ReadyLink(link, start, n), command, willing,
                  v, quiet, w, quietAfter)
    && Verdict(told, LastInterlock(link, start, n), Through(command, link, start, n))
  }

  lemma TellsLess(told: AfeCommandReply, command: AfeCommand, link: nat -> LinkEvent, start: nat, n: nat,
                  willing: bool, done: bool, v: FrontendView, quiet: bool, w: FrontendView, quietAfter: bool)
    requires command.Validate().Ok? && !command.ReadAlignment? && (willing ==> done)
    requires Tells(told, command, link, start, n, done, v, quiet, w, quietAfter)
    ensures Tells(told, command, link, start, n, willing, v, quiet, w, quietAfter)
  {
    hide Doable, Achieved, Verdict, ReadyLink;
  }

  /** The last frame of a command as the runtime answers it. */
  lemma LastVerdict(s: Rpu, input: Input, c: Command, through: bool)
    requires Supported(input.frame) && input.frame == EncodedCommand(c) && !c.op.Status?
    requires through ==> !TurnedDown(s, c)
    ensures Verdict(Judged(Step(s, input).1), input.interlock, through)
  {
    hide EncodedCommand, DecodeCommand, HandleFrame, TurnedDown, HardwareFails, Interlock.Code;
    CommandRoundTrip(c);
    var t := s.(interlock := input.interlock);
    FrameAnswered(t, input.frame, input.hw);
    input.interlock.ReadyMeansCodeZero();
    SameCounters(s, input.interlock, c);
  }

  lemma SameCounters(s: Rpu, interlock: Interlock, c: Command)
    ensures TurnedDown(s.(interlock := interlock), c) <==> TurnedDown(s, c)
  {
    hide FunctionName, AfeConfig, ChannelConfig, ConfigureCounts;
  }

  lemma SubmittedSends(inputs: seq<Input>, first: u64, command: AfeCommand, frames: seq<Command>,
                       link: nat -> LinkEvent, start: nat)
    requires command.ConfigureFrontend? && CompiledFrames(first, command) == Ok(frames)
    requires Met(inputs, frames, link, start)
    ensures |command.afes| <= RECORD_MAX && |command.channels| <= RECORD_MAX
    ensures Sends(inputs, first, command.afes, command.channels, command.biasControl)
    ensures AllSupported(inputs) && |inputs| == |frames| > 0
    ensures inputs[0].interlock == link(start).interlock
    ensures AllReady(inputs) <==> ReadyLink(link, start, |frames|)
    ensures frames[|frames| - 1].op.ApplyConfigureFrontend?
  {
    hide EncodedCommand;
    FrameAt(first, command.afes, command.channels, command.biasControl, |frames| - 1);
    if AllReady(inputs) {
      forall t | start <= t < start + |frames| ensures link(t).interlock.ReadyForAfe() {
        assert inputs[t - start].interlock == link(start + (t - start)).interlock;
      }
    }
  }

  lemma ConfigureDependable(s: Rpu, inputs: seq<Input>, first: u64, command: AfeCommand, frames: seq<Command>,
                       link: nat -> LinkEvent, start: nat,
                       v: FrontendView, quiet: bool, w: FrontendView, quietAfter: bool)
    requires command.ConfigureFrontend? && command.Validate().Ok? && CompiledFrames(first, command) == Ok(frames)
    requires Met(inputs, frames, link, start)
    ensures AllSupported(inputs) && |inputs| == |frames| > 0
    ensures Submitted(s, inputs, frames, link, start, v, quiet, w, quietAfter) ==>
      Dependable(Judged(ReplyAt(s, inputs, |frames| - 1)), link(start).interlock.ReadyForAfe(),
                 ReadyLink(link, start, |frames|), command, LastDone(s, inputs, frames), v, quiet, w, quietAfter)
  {
    hide CompiledFrames, Met, Step, Run, ReplyAt, Handled, Acceptable, Achieved, Doable, ReadyLink;
    SubmittedSends(inputs, first, command, frames, link, start);
    LastReply(s, inputs);
    if link(start).interlock.ReadyForAfe() {
      ReadyAtBeginSuffices(s, inputs, first, command.afes, command.channels, command.biasControl);
    }
    if AllReady(inputs) {
      RequestDelivered(s, inputs, first, command.afes, command.channels, command.biasControl);
      ConfigureSubmitted(s, inputs, first, command, frames[|frames| - 1], v, quiet, w, quietAfter);
    }
  }

  lemma SingleDependable(s: Rpu, inputs: seq<Input>, first: u64, command: AfeCommand, frames: seq<Command>,
                    link: nat -> LinkEvent, start: nat,
                    v: FrontendView, quiet: bool, w: FrontendView, quietAfter: bool)
    requires SingleFrame(command) && command.Validate().Ok? && CompiledFrames(first, command) == Ok(frames)
    requires command.WriteFunction? ==> ValidUtf8(command.name)
    requires Submitted(s, inputs, frames, link, start, v, quiet, w, quietAfter)
    ensures AllSupported(inputs) && |inputs| == |frames| == 1
    ensures Dependable(Judged(ReplyAt(s, inputs, 0)), link(start).interlock.ReadyForAfe(),
                       ReadyLink(link, start, 1), command, LastDone(s, inputs, frames), v, quiet, w, quietAfter)
  {
    hide FromAfeCommand, Step, Handled, Acceptable, Achieved, EncodedCommand, Doable;
    assert inputs[..0] == [];
    SingleSubmitted(s, inputs[0], first, command, frames[0], v, quiet, w, quietAfter);
  }

  lemma SubmittedVerdict(s: Rpu, inputs: seq<Input>, first: u64, command: AfeCommand, frames: seq<Command>,
                         link: nat -> LinkEvent, start: nat)
    requires !command.ReadAlignment? && command.Validate().Ok? && CompiledFrames(first, command) == Ok(frames)
    requires command.WriteFunction? ==> ValidUtf8(command.name)
    requires frames != [] && Met(inputs, frames, link, start) && AllSupported(inputs)
    requires !frames[|frames| - 1].op.Status?
    ensures |inputs| == |frames|
    ensures Verdict(Judged(ReplyAt(s, inputs, |frames| - 1)), LastInterlock(link, start, |frames|),
                    Through(command, link, start, |frames|))
  {
    hide Step, Run, ReplyAt, FromAfeCommand, ConfigureFrames, EncodedCommand, Judged, Verdict, TurnedDown;
    var n := |frames| - 1;
    LastReply(s, inputs);
    if !command.ConfigureFrontend? {
      FrameGetsThrough(Run(s, inputs[..n]), first, command, frames[n]);
    } else if ReadyLink(link, start, |frames|) {
      ConfigureGetsThrough(s, inputs, first, command, frames, link, start);
    }
    LastVerdict(Run(s, inputs[..n]), inputs[n], frames[n], Through(command, link, start, |frames|));
  }

  lemma ConfigureGetsThrough(s: Rpu, inputs: seq<Input>, first: u64, command: AfeCommand, frames: seq<Command>,
                             link: nat -> LinkEvent, start: nat)
    requires command.ConfigureFrontend? && CompiledFrames(first, command) == Ok(frames)
    requires Met(inputs, frames, link, start) && ReadyLink(link, start, |frames|)
    ensures |inputs| == |frames| > 0 && AllSupported(inputs[..|frames| - 1])
    ensures !TurnedDown(Run(s, inputs[..|frames| - 1]), frames[|frames| - 1])
  {
    hide *;
    SubmittedSends(inputs, first, command, frames, link, start);
    LastReply(s, inputs);
    RequestDelivered(s, inputs, first, command.afes, command.channels, command.biasControl);
    CompleteGetsThrough(Run(s, inputs[..|frames| - 1]), frames[|frames| - 1]);
  }

  lemma CompleteGetsThrough(s: Rpu, c: Command)
    requires c.op.ApplyConfigureFrontend? && s.config.Complete()
    ensures !TurnedDown(s, c)
  {}

  lemma CommandSubmitted(s: Rpu, inputs: seq<Input>, first: u64, command: AfeCommand, frames: seq<Command>,
                         link: nat -> LinkEvent, start: nat,
                         v: FrontendView, quiet: bool, w: FrontendView, quietAfter: bool)
    requires !command.ReadAlignment? && command.Validate().Ok? && CompiledFrames(first, command) == Ok(frames)
    requires command.WriteFunction? ==> ValidUtf8(command.name)
    requires Submitted(s, inputs, frames, link, start, v, quiet, w, quietAfter) && Outgoing(frames)
    ensures AllSupported(inputs) && |inputs| == |frames| > 0
    ensures Tells(Judged(ReplyAt(s, inputs, |frames| - 1)), command, link, start, |frames|,
                  LastDone(s, inputs, frames), v, quiet, w, quietAfter)
  {
    hide Step, Run, ReplyAt, Handled, CompiledFrames, Dependable, Verdict, LastDone, Judged;
    if !command.ConfigureFrontend? {
      SingleDependable(s, inputs, first, command, frames, link, start, v, quiet, w, quietAfter);
    } else {
      ConfigureDependable(s, inputs, first, command, frames, link, start, v, quiet, w, quietAfter);
    }
    SubmittedVerdict(s, inputs, first, command, frames, link, start);
  }

  // ---------- the host's books ----------

  /** What the host keeps of its exchanges. */
  datatype Books = Books(exchanges: nat, pending: seq<Frame>, next: u64, history: seq<Exchange>) {
    /** Every reply accepted so far was the reply to the frame just sent, and no
        queued reply carries a number still to be sent. */
    ghost predicate InStep() {
      AllOwn(history) && Clear(pending, next, SEQUENCES)
    }
  }

  /** From one state of the books to another the frames were sent, and the
      replies left in the queue carry none of the numbers from `next` on unless
      they did carry one of those from `first` on. */
  ghost predicate Worked(b: Books, c: Books, frames: seq<Command>, first: nat, done: bool, link: nat -> LinkEvent) {
    && Sent(b.history, c.history, frames, link, b.exchanges, done)
    && b.history <= c.history && c.exchanges == b.exchanges + |c.history| - |b.history|
    && Clears(b.pending, first, c.pending, first + |frames|)
    && (AllForeign(b.pending, frames) ==> (done ==> c.pending == []) && (AllOwn(b.history) ==> AllOwn(c.history)))
    && (WholeLink(link, b.exchanges, |frames|) && b.pending == [] ==> done)
  }

  /** The first `k` frames were sent and answered. */
  ghost predicate Progress(b: Books, c: Books, frames: seq<Command>, first: nat, k: nat, link: nat -> LinkEvent)
    requires k <= |frames|
  {
    && Sent(b.history, c.history, frames[..k], link, b.exchanges, true)
    && b.history <= c.history && |c.history| == |b.history| + k && c.exchanges == b.exchanges + k
    && Clears(b.pending, first, c.pending, first + k)
    && (k == 0 ==> c == b)
    && (AllForeign(b.pending, frames) ==> (k > 0 ==> c.pending == []) && (AllOwn(b.history) ==> AllOwn(c.history)))
    && (WholeLink(link, b.exchanges, |frames|) && b.pending == [] ==> c.pending == [])
  }

  lemma ProgressStarts(b: Books, frames: seq<Command>, first: nat, link: nat -> LinkEvent)
    ensures Progress(b, b, frames, first, 0, link)
  {
    hide Clears, AllForeign, AllOwn, WholeLink;
    NothingSent(b.history, link, b.exchanges);
    ClearsNothing(b.pending, first);
    assert frames[..0] == [];
  }

  /** One more frame: it is answered, or it ends the command. */
  lemma ProgressNext(b: Books, c: Books, frames: seq<Command>, first: nat, k: nat, link: nat -> LinkEvent,
                     e: Exchange, c': Books)
    requires k < |frames| && Consecutive(frames, first) && Progress(b, c, frames, first, k, link)
    requires Exchanged(e) && e.queue == c.pending && e.command == frames[k] && e.event == link(b.exchanges + k)
    requires c' == Books(c.exchanges + 1, e.left, c.next, c.history + [e])
    ensures if e.result.Ok? then Progress(b, c', frames, first, k + 1, link)
            else Worked(b, c', frames, first, false, link)
    ensures AllForeign(b.pending, frames) ==> Foreign(e.queue, e.command.sequence)
  {
    hide Clears, AllForeign, AllOwn, WholeLink, Foreign, Exchanged, Own, Sent, Consecutive;
    ForeignAt(e.queue, frames, k, link, b.exchanges);
    ForeignNothing(frames);
    NumberAt(frames, first, k);
    ExchangeKept(c.history, e, link, b.exchanges + k);
    SentNext(b.history, c.history, frames, k, link, b.exchanges, e);
    ClearsOn(b.pending, first, c.pending, first + k, e.left, first + k + 1);
    ClearsLater(b.pending, first, e.left, first + k + 1, first + |frames|);
    WholeAnswers(e);
  }

  lemma ForeignNothing(frames: seq<Command>)
    ensures AllForeign([], frames)
  {}

  lemma WholeAnswers(e: Exchange)
    requires Exchanged(e)
    ensures e.event.Whole() && e.queue == [] ==> e.result.Ok? && e.left == []
  {
    hide Step, EncodedCommand, EncodedReply, Accept;
    ExchangeAnswered(e.queue, e.event, e.before, e.input, e.command);
  }

  lemma ProgressDone(b: Books, c: Books, frames: seq<Command>, first: nat, link: nat -> LinkEvent)
    requires frames != [] && Progress(b, c, frames, first, |frames|, link)
    ensures Worked(b, c, frames, first, true, link)
    ensures c.history != [] && c.history[|c.history| - 1].result.Ok?
  {
    hide Clears, AllForeign, AllOwn, WholeLink;
    assert frames[..|frames|] == frames;
  }

  /** The same for a call of submission. */
  ghost predicate Submitting(b: Books, c: Books, command: AfeCommand, r: Result<AfeCommandReply, RpuError>,
                             link: nat -> LinkEvent) {
    && c.next == AfterBlock(b.next, Numbers(command))
    && (r.Ok? ==> Compiles(command) && (r.value.applied ==> r.value.accepted))
    && (if Compiles(command)
        then Worked(b, c, FramesOf(b.next, command), BlockStart(b.next, Numbers(command)), r.Ok?, link)
             && JudgedBy(c.history, r)
        else r == Err(Invalid) && c == b.(next := c.next))
  }

  lemma RefusedBooks(b: Books, c: Books, command: AfeCommand, link: nat -> LinkEvent)
    requires !Compiles(command) && c == b.(next := AfterBlock(b.next, Numbers(command)))
    ensures Submitting(b, c, command, Err(Invalid), link)
  {
    hide Compiles, AfterBlock, Numbers;
  }

  lemma DispatchedBooks(b: Books, c: Books, command: AfeCommand, frames: seq<Command>,
                        r: Result<AfeCommandReply, RpuError>, link: nat -> LinkEvent)
    requires Compiles(command) && frames == FramesOf(b.next, command)
    requires c.next == AfterBlock(b.next, Numbers(command))
    requires Worked(b.(next := c.next), c, frames, BlockStart(b.next, Numbers(command)), r.Ok?, link)
    requires JudgedBy(c.history, r) && (r.Ok? ==> r.value.applied ==> r.value.accepted)
    ensures Submitting(b, c, command, r, link)
  {
    hide Compiles, AfterBlock, Numbers, FramesOf, BlockStart, JudgedBy, Sent, Clears, AllForeign, AllOwn, WholeLink;
  }

  /** What submission does to the queue. */
  lemma SubmittingKeeps(b: Books, c: Books, command: AfeCommand, r: Result<AfeCommandReply, RpuError>,
                        link: nat -> LinkEvent)
    requires b.next >= 1 && !command.ReadAlignment? && Submitting(b, c, command, r, link)
    ensures b.history <= c.history && c.exchanges >= b.exchanges
    ensures Unclaimed(b.pending, b.next, command) ==>
      (r.Ok? ==> c.pending == []) && (AllOwn(b.history) ==> AllOwn(c.history))
    ensures b.InStep() && !Restarts(b.next, Numbers(command)) ==> c.InStep() && c.next == b.next + Numbers(command)
    ensures Compiles(command) && b.pending == [] && WholeLink(link, b.exchanges, Numbers(command)) ==> r.Ok?
    ensures !Compiles(command) ==> c.pending == b.pending
  {
    hide JudgedBy, Sent, Clears, AllForeign, AllOwn, WholeLink, Clear, Compiles, Numbers, FramesOf, BlockStart;
    hide AfterBlock, Restarts;
    NumbersMean(b.next, command);
    if Compiles(command) {
      FramesNumbered(b.next, command);
      var frames := FramesOf(b.next, command);
      if Unclaimed(b.pending, b.next, command) {
        UnclaimedFrames(b.pending, b.next, command, frames);
      }
      if b.InStep() && !Restarts(b.next, Numbers(command)) {
        InClear(b.pending, b.next, c.pending, c.next, SEQUENCES);
      }
    }
    if b.InStep() {
      StaysClear(b.pending, b.next, command);
    }
  }

  // ---------- calls ----------

  datatype Call = Query | Submit(command: AfeCommand)

  datatype CallResult =
    StatusResult(status: Result<LinkStatus, RpuError>) | Judgement(told: Result<AfeCommandReply, RpuError>)

  /** The devices between calls. */
  datatype Devices = Devices(view: FrontendView, quiet: bool, tick: nat)

  /** When a call was made, and the devices before and after it. */
  datatype Turn = Turn(start: nat, before: Devices, after: Devices)

  predicate Callable(call: Call) {
    call.Submit? ==> !call.command.ReadAlignment? && (call.command.WriteFunction? ==> ValidUtf8(call.command.name))
  }

  /** How many sequence numbers calls take. */
  function Draws(call: Call): nat {
    match call case Query => 1 case Submit(command) => Numbers(command)
  }

  function AllDraws(calls: seq<Call>): nat {
    if calls == [] then 0 else Draws(calls[0]) + AllDraws(calls[1..])
  }

  ghost predicate WholeFrom(link: nat -> LinkEvent, start: nat) {
    forall t :: start <= t ==> link(t).Whole()
  }

  predicate Served(call: Call, result: CallResult) {
    match call
    case Query => result.StatusResult? && result.status.Ok?
    case Submit(command) => result.Judgement? && (Compiles(command) ==> result.told.Ok?)
  }

  /** What the host says of a call is what happened: a query changes no device,
      and a judgement can be relied on. */
  ghost predicate Vouched(call: Call, result: CallResult, turn: Turn, link: nat -> LinkEvent, env: Environment,
                          spinLimit: nat)
    requires Callable(call)
  {
    match call
    case Query => result.StatusResult? && turn.after == turn.before
    case Submit(command) =>
      && result.Judgement?
      && (result.told.Ok? ==>
            && Compiles(command)
            && Tells(result.told.value, command, link, turn.start, Numbers(command),
                     Obliging(command, env, turn.before.tick, spinLimit),
                     turn.before.view, turn.before.quiet, turn.after.view, turn.after.quiet)
            && (Blocked(result.told.value) ==> turn.after == turn.before))
  }

  /** The devices are between calls what the call before left. */
  ghost predicate Chained(turns: seq<Turn>, before: Devices, after: Devices) {
    && (turns == [] ==> after == before)
    && (turns != [] ==> turns[0].before == before && turns[|turns| - 1].after == after)
    && forall k :: 0 < k < |turns| ==> turns[k].before == turns[k - 1].after
  }

  lemma ChainStarts(before: Devices)
    ensures Chained([], before, before)
  {}

  lemma ChainNext(turns: seq<Turn>, before: Devices, after: Devices, turn: Turn)
    requires Chained(turns, before, after) && turn.before == after
    ensures Chained(turns + [turn], before, turn.after)
  {}

  lemma DrawsNext(calls: seq<Call>, k: nat)
    requires k < |calls|
    ensures AllDraws(calls[k..]) == Draws(calls[k]) + AllDraws(calls[k + 1..])
  {
    hide Draws;
  }

  lemma WholeLater(link: nat -> LinkEvent, start: nat, later: nat)
    requires start <= later
    ensures WholeFrom(link, start) ==> WholeFrom(link, later)
  {}

  lemma OneLost(link: nat -> LinkEvent, start: nat)
    ensures !link(start).delivered ==> LostLink(link, start, 1)
  {}

  lemma StrangerRead(b: Books, c: Books, inherited: seq<Frame>, command: AfeCommand,
                     r: Result<AfeCommandReply, RpuError>, link: nat -> LinkEvent, reply: Reply)
    requires b.next >= 1 && !command.ReadAlignment? && Compiles(command) && Numbers(command) == 1
    requires Submitting(b, c, command, r, link)
    requires Trace(c.history, inherited) && b.pending == QueueAfter(b.history, inherited)
    requires b.pending != [] && Accept(b.pending[0], BlockStart(b.next, 1)) == Ok(reply)
    requires link(b.exchanges).written && link(b.exchanges).readable
    ensures r == Ok(Judged(reply))
  {
    hide Accept, Exchanged, Judged, Compiles, FramesOf, BlockStart, AfterBlock, Clears, AllForeign, AllOwn, WholeLink;
    hide Trace, QueueAfter, Numbers, Own;
    FramesNumbered(b.next, command);
    var n := |b.history|;
    var e := c.history[n];
    assert c.history[..n] == b.history;
    TracePrefix(c.history, inherited, n);
    NumberAt(FramesOf(b.next, command), BlockStart(b.next, 1), 0);
    StaleExactly(e);
  }

  lemma PowerCompiles(enabled: bool)
    ensures var command := AfeCommand.SetPowerState(enabled);
      Compiles(command) && Numbers(command) == 1 && Callable(Submit(command))
  {}

  /** A reply that says Applied. */
  function AppliedReply(sequence: u64): Reply {
    Reply(sequence, Applied, None, 0, 0, 0)
  }

  lemma AppliedRead(sequence: u64)
    ensures Accept(EncodedReply(AppliedReply(sequence)), sequence) == Ok(AppliedReply(sequence))
    ensures Judged(AppliedReply(sequence)).applied
    ensures forall from: nat, to: nat :: Clear([EncodedReply(AppliedReply(sequence))], from, to) <==>
      !(from <= sequence < to)
  {
    hide EncodedReply, DecodeReply;
    ReplyRoundTrip(AppliedReply(sequence));
  }

  lemma QueryMeans(link: nat -> LinkEvent, start: nat)
    ensures Draws(Query) == 1 && Callable(Query)
    ensures WholeFrom(link, start) ==> link(start).Whole()
    ensures forall r :: Served(Query, StatusResult(r)) <==> r.Ok?
  {}

  lemma QueryVouched(r: Result<LinkStatus, RpuError>, turn: Turn, link: nat -> LinkEvent, env: Environment,
                     spinLimit: nat)
    requires turn.after == turn.before
    ensures Callable(Query) && Vouched(Query, StatusResult(r), turn, link, env, spinLimit)
  {}

  lemma SubmitMeans(command: AfeCommand, next: u64, pending: seq<Frame>, link: nat -> LinkEvent, start: nat)
    requires next >= 1
    ensures Draws(Submit(command)) == Numbers(command)
    ensures Callable(Submit(command)) <==>
      !command.ReadAlignment? && (command.WriteFunction? ==> ValidUtf8(command.name))
    ensures WholeFrom(link, start) ==> WholeLink(link, start, Numbers(command))
    ensures forall r :: Served(Submit(command), Judgement(r)) <==> (Compiles(command) ==> r.Ok?)
    ensures next + Numbers(command) <= U64_MAX ==> !Restarts(next, Numbers(command))
    ensures pending == [] || (Clear(pending, next, SEQUENCES) && !Restarts(next, Numbers(command))) ==>
      Unclaimed(pending, next, command)
  {
    hide Numbers, Compiles, Clear;
    BlocksAreExact(next, Numbers(command));
    NothingClaimed(next, command);
    if Clear(pending, next, SEQUENCES) {
      StaysClear(pending, next, command);
    }
  }

  lemma SubmitVouched(command: AfeCommand, r: Result<AfeCommandReply, RpuError>, turn: Turn, link: nat -> LinkEvent,
                      env: Environment, spinLimit: nat)
    requires !command.ReadAlignment? && Callable(Submit(command))
    requires r.Ok? ==>
      && Compiles(command)
      && Tells(r.value, command, link, turn.start, Numbers(command),
               Obliging(command, env, turn.before.tick, spinLimit),
               turn.before.view, turn.before.quiet, turn.after.view, turn.after.quiet)
      && (Blocked(r.value) ==> turn.after == turn.before)
    ensures Vouched(Submit(command), Judgement(r), turn, link, env, spinLimit)
  {
    hide Tells, ReadyLink, Numbers, Compiles, Blocked, Obliging;
  }

  lemma NothingClaimed(next: u64, command: AfeCommand)
    ensures Unclaimed([], next, command)
  {}

  class RpmsgAfeTransport {
    const peer: RpuRuntime
    const link: nat -> LinkEvent
    var exchanges: nat
    var pending: seq<Frame>
    var nextSequence: u64
    var lastHeartbeat: Option<u64>
    var lastFault: Option<u32>
    /** The replies queued when the file was opened, and all exchanges since. */
    ghost const inherited: seq<Frame>
    ghost var history: seq<Exchange>

    ghost predicate Up()
      reads this, peer, peer.hardware, peer.hardware.io
    {
      peer.Valid() && nextSequence >= 1
    }

    ghost predicate Valid()
      reads this, peer, peer.hardware, peer.hardware.io
    {
      Up() && Trace(history, inherited) && pending == QueueAfter(history, inherited)
    }

    ghost function Kept(): Books
      reads this
    {
      Books(exchanges, pending, nextSequence, history)
    }

    ghost predicate QuietBoard()
      reads peer.hardware.io
    {
      Quiet(peer.hardware.io.board)
    }

    ghost function Now(): Devices
      reads peer.hardware, peer.hardware.io
    {
      Devices(peer.hardware.View(), QuietBoard(), peer.hardware.io.tick)
    }

    constructor (peer: RpuRuntime, link: nat -> LinkEvent, pending: seq<Frame>)
      requires peer.Valid()
      ensures Valid() && this.peer == peer && this.link == link && this.pending == pending
      ensures nextSequence == 1 && exchanges == 0 && lastHeartbeat == None && lastFault == None
      ensures history == [] && inherited == pending && (Clear(pending, 1, SEQUENCES) <==> Kept().InStep())
    {
      this.peer := peer;
      this.link := link;
      this.pending := pending;
      exchanges := 0;
      nextSequence := 1;
      lastHeartbeat := None;
      lastFault := None;
      inherited := pending;
      history := [];
    }

    // ---------- one exchange ----------

    /** The frame at the other end, when it gets there. */
    method Deliver(command: Command, interlock: Interlock) returns (answer: Frame, ghost input: Input)
      requires Up() && !command.op.ReadAlignment?
      modifies peer, peer.hardware, peer.hardware.io
      ensures Up()
      ensures input.interlock == interlock
      ensures Handled(old(peer.State()), input, command, old(peer.hardware.View()), old(QuietBoard()),
                      peer.hardware.View(), QuietBoard())
      ensures (peer.State(), answer)
           == (Step(old(peer.State()), input).0, EncodedReply(Step(old(peer.State()), input).1))
      ensures !ReachesDevices(old(peer.State()), command) ==>
        unchanged(peer.hardware.io) && peer.hardware.View() == old(peer.hardware.View())
      ensures !command.op.Status? && Blocked(Judged(Step(old(peer.State()), input).1)) ==>
        unchanged(peer.hardware.io) && peer.hardware.View() == old(peer.hardware.View())
      ensures old(Willing(peer.hardware, command)) && Acceptable(old(peer.State()).staged, command) ==> input.hw.Done?
    {
      hide EncodedCommand, DecodeCommand, EncodedReply, Meaning, Acceptable, Answered, Judged, Blocked;
      hide ReachesDevices, Carried, Protocol.HandleFrame, AfeMmioBackend.View, Quiet;
      CommandRoundTrip(command);
      SameReach(peer.State(), interlock, command);
      peer.SetInterlock(interlock);
      ghost var state := peer.State();
      var out := EncodeCommand(command);
      ghost var reply, hw;
      answer, reply, hw := peer.HandleFrame(out[..]);
      input := Input(interlock, EncodedCommand(command), hw);
      if !command.op.Status? {
        BlockedStays(state, input, command);
      }
    }

    /** Writes a frame, which may or may not get to the other end and back. */
    method Send(command: Command, event: LinkEvent) returns (ghost input: Option<Input>)
      requires Up() && !command.op.ReadAlignment?
      modifies this`pending, peer, peer.hardware, peer.hardware.io
      ensures Up()
      ensures input.Some? <==> event.written && event.delivered
      ensures input.None? ==> unchanged(peer) && unchanged(peer.hardware) && unchanged(peer.hardware.io)
      ensures input.Some? ==>
        && input.value.interlock == event.interlock
        && Handled(old(peer.State()), input.value, command, old(peer.hardware.View()), old(QuietBoard()),
                   peer.hardware.View(), QuietBoard())
        && peer.State() == Step(old(peer.State()), input.value).0
      ensures pending == Arrived(old(pending), event, old(peer.State()), input)
      ensures !ReachesDevices(old(peer.State()), command) ==>
        unchanged(peer.hardware.io) && peer.hardware.View() == old(peer.hardware.View())
      ensures input.Some? && !command.op.Status? && Blocked(Judged(Step(old(peer.State()), input.value).1)) ==>
        unchanged(peer.hardware.io) && peer.hardware.View() == old(peer.hardware.View())
      ensures input.Some? && old(Willing(peer.hardware, command)) && Acceptable(old(peer.State()).staged, command) ==>
        input.value.hw.Done?
    {
      hide Step, EncodedCommand, EncodedReply, DecodeCommand, Acceptable, ReachesDevices, Judged, Blocked;
      input := None;
      if event.written && event.delivered {
        var answer;
        ghost var handled;
        answer, handled := Deliver(command, event.interlock);
        input := Some(handled);
        if event.answered {
          pending := pending + [answer];
        }
      }
    }

    /** Reads one message and checks that it answers the frame just sent. */
    method Receive(event: LinkEvent, sequence: u64) returns (r: Result<Reply, RpuError>)
      modifies this`pending, this`lastHeartbeat, this`lastFault
      ensures (r, pending) == Reading(old(pending), event, sequence)
      ensures lastHeartbeat == if r.Ok? then Some(r.value.heartbeat) else old(lastHeartbeat)
      ensures lastFault == if r.Ok? && r.value.faultCode != 0 then Some(r.value.faultCode) else old(lastFault)
    {
      if !event.written {
        return Err(Transport);
      }
      if !event.readable || pending == [] {
        return Err(TimedOut);
      }
      r := Accept(pending[0], sequence);
      pending := pending[1..];
      if r.Ok? {
        lastHeartbeat := Some(r.value.heartbeat);
        if r.value.faultCode != 0 {
          lastFault := Some(r.value.faultCode);
        }
      }
    }

    /** Sends one frame and reads one message. A reply is accepted only when it
        carries the number of the frame just sent; with no stranger queued that
        is the reply to this very frame. */
    method Transact(command: Command) returns (r: Result<Reply, RpuError>, ghost input: Option<Input>)
      requires Valid() && !command.op.ReadAlignment?
      modifies this`exchanges, this`pending, this`lastHeartbeat, this`lastFault, this`history
      modifies peer, peer.hardware, peer.hardware.io
      ensures Valid() && exchanges == old(exchanges) + 1
      // what reached the RPU, and what it did
      ensures input.Some? <==> link(old(exchanges)).written && link(old(exchanges)).delivered
      ensures input.None? ==> unchanged(peer) && unchanged(peer.hardware) && unchanged(peer.hardware.io)
      ensures input.Some? ==>
        && input.value.interlock == link(old(exchanges)).interlock
        && Handled(old(peer.State()), input.value, command, old(peer.hardware.View()), old(QuietBoard()),
                   peer.hardware.View(), QuietBoard())
        && peer.State() == Step(old(peer.State()), input.value).0
      ensures !ReachesDevices(old(peer.State()), command) ==>
        unchanged(peer.hardware.io) && peer.hardware.View() == old(peer.hardware.View())
      ensures input.Some? && !command.op.Status? && Blocked(Judged(Step(old(peer.State()), input.value).1)) ==>
        unchanged(peer.hardware.io) && peer.hardware.View() == old(peer.hardware.View())
      ensures input.Some? && old(Willing(peer.hardware, command)) && Acceptable(old(peer.State()).staged, command) ==>
        input.value.hw.Done?
      // what the host reads
      ensures var event := link(old(exchanges));
        (r, pending) == Reading(Arrived(old(pending), event, old(peer.State()), input), event, command.sequence)
      ensures history == old(history)
        + [Exchange(command, old(pending), link(old(exchanges)), old(peer.State()), input, r, pending)]
      ensures Exchanged(history[|old(history)|])
      ensures lastHeartbeat == if r.Ok? then Some(r.value.heartbeat) else old(lastHeartbeat)
      ensures lastFault == if r.Ok? && r.value.faultCode != 0 then Some(r.value.faultCode) else old(lastFault)
    {
      hide Step, Acceptable, ReachesDevices, Arrived, Reading, DecodeCommand, Judged, Blocked, Carried, Trace;
      hide QueueAfter, AfeMmioBackend.View, Quiet;
      var event := link(exchanges);
      ghost var queue, state, before := pending, peer.State(), history;
      exchanges := exchanges + 1;
      input := Send(command, event);
      r := Receive(event, command.sequence);
      ghost var e := Exchange(command, queue, event, state, input, r, pending);
      TraceNext(history, inherited, e);
      history := history + [e];
    }

    /** Any run of exchanges under different numbers, over any link: an exchange
        succeeds if and only if the host was not behind before it and the link
        carries this frame and its reply in time. */
    method TransactAll(commands: seq<Command>) returns (accepted: seq<bool>)
      requires Valid() && forall c :: c in commands ==> !c.op.ReadAlignment?
      requires AllDistinct(commands) && AllForeign(pending, commands)
      modifies this`exchanges, this`pending, this`lastHeartbeat, this`lastFault, this`history
      modifies peer, peer.hardware, peer.hardware.io
      ensures Valid() && exchanges == old(exchanges) + |commands| && |accepted| == |commands|
      ensures forall k :: 0 <= k < |commands| ==>
        (accepted[k] <==>
          Lag(link, old(exchanges), |old(pending)|, k) == 0 && link(old(exchanges) + k).Whole())
      ensures |pending| == Lag(link, old(exchanges), |old(pending)|, |commands|)
    {
      hide *;
      accepted := [];
      LagStarts(link, exchanges, |pending|);
      assert commands[0..] == commands;
      for k := 0 to |commands|
        invariant Valid() && exchanges == old(exchanges) + k && |accepted| == k
        invariant AllForeign(pending, commands[k..]) && |pending| == Lag(link, old(exchanges), |old(pending)|, k)
        invariant forall i :: 0 <= i < k ==>
          (accepted[i] <==>
            Lag(link, old(exchanges), |old(pending)|, i) == 0 && link(old(exchanges) + i).Whole())
      {
        ghost var queue, state, event := pending, peer.State(), link(exchanges);
        ghost var before, quiet := peer.hardware.View(), QuietBoard();
        var reply;
        ghost var input;
        reply, input := Transact(commands[k]);
        HandledFrame(state, input, commands[k], before, quiet, peer.hardware.View(), QuietBoard());
        ForeignRest(queue, commands, k);
        ExchangeLags(queue, link, old(exchanges), |old(pending)|, k, state, input, commands[k], commands[k + 1..]);
        accepted := accepted + [reply.Ok?];
      }
    }

    /** The reply to the first frame comes too late to be read: from then on the
        link is whole, and every exchange fails. */
    method LateReplyFailsAllAfter(commands: seq<Command>) returns (accepted: seq<bool>)
      requires Valid() && forall c :: c in commands ==> !c.op.ReadAlignment?
      requires AllDistinct(commands)
      requires pending == [] && link(exchanges).Answers() && !link(exchanges).readable
      requires forall t :: exchanges < t < exchanges + |commands| ==> link(t).Whole()
      modifies this`exchanges, this`pending, this`lastHeartbeat, this`lastFault, this`history
      modifies peer, peer.hardware, peer.hardware.io
      ensures |accepted| == |commands| && true !in accepted
    {
      hide AllDistinct, Accept;
      ghost var start := exchanges;
      accepted := TransactAll(commands);
      forall k | 0 <= k < |commands| ensures !accepted[k] {
        if k > 0 {
          LateReplyNeverRecovers(link, start, 0, 1, k - 1);
        }
      }
    }

    // ---------- commands ----------

    /** Sends the frames one by one and keeps the last reply; any failure ends
        the command. */
    method SendFrames(frames: seq<Command>, ghost first: nat)
      returns (r: Result<Reply, RpuError>, ghost inputs: seq<Input>)
      requires Valid() && Outgoing(frames) && Consecutive(frames, first)
      modifies this`exchanges, this`pending, this`lastHeartbeat, this`lastFault, this`history
      modifies peer, peer.hardware, peer.hardware.io
      ensures Valid() && (r.Err? ==> r.error == Transport)
      // the exchanges it took, and the reply it keeps
      ensures Worked(old(Kept()), Kept(), frames, first, r.Ok?, link)
      ensures r.Ok? ==>
        exchanges == old(exchanges) + |frames| && history != [] && history[|history| - 1].result == r
      // with no stranger queued the frames were met and answered
      ensures r.Ok? && AllForeign(old(pending), frames) ==>
        && Submitted(old(peer.State()), inputs, frames, link, old(exchanges),
                     old(peer.hardware.View()), old(QuietBoard()), peer.hardware.View(), QuietBoard())
        && AllSupported(inputs) && |inputs| == |frames|
        && r.value == ReplyAt(old(peer.State()), inputs, |frames| - 1)
        && (old(Willing(peer.hardware, frames[|frames| - 1])) ==> LastDone(old(peer.State()), inputs, frames))
      // a failure before the last exchange leaves the devices alone, as does a reply that says so
      ensures exchanges < old(exchanges) + |frames| ==>
        unchanged(peer.hardware.io) && peer.hardware.View() == old(peer.hardware.View())
      ensures r.Ok? && AllForeign(old(pending), frames) && Blocked(Judged(r.value)) ==>
        unchanged(peer.hardware.io) && peer.hardware.View() == old(peer.hardware.View())
      ensures LostLink(link, old(exchanges), |frames|) ==>
        unchanged(peer) && unchanged(peer.hardware) && unchanged(peer.hardware.io)
    {
      hide *;
      ghost var start, s, v, quiet := exchanges, peer.State(), peer.hardware.View(), QuietBoard();
      ghost var clean, b := AllForeign(pending, frames), Kept();
      StepMeans();
      inputs := [];
      OutgoingAt(frames, s, 0);
      ghost var willing := Willing(peer.hardware, frames[|frames| - 1]);
      NothingFollowed(s, frames, link, start);
      ProgressStarts(b, frames, first, link);
      var final := None;
      for k := 0 to |frames|
        invariant Valid() && exchanges == start + k && Progress(b, Kept(), frames, first, k, link)
        invariant final.Some? <==> k > 0
        invariant k > 0 ==> history != [] && history[|history| - 1].result == Ok(final.value)
        invariant clean ==> Followed(s, inputs, frames, k, link, start, peer.State(), final)
        invariant k < |frames| || (clean && Blocked(Judged(final.value))) ==>
          unchanged(peer.hardware.io) && peer.hardware.View() == v && QuietBoard() == quiet
        invariant LostLink(link, start, |frames|) ==>
          unchanged(peer) && unchanged(peer.hardware) && unchanged(peer.hardware.io)
        invariant k < |frames| ==> Willing(peer.hardware, frames[|frames| - 1]) == willing
        invariant clean && k == |frames| ==>
          Ended(s, inputs, frames, willing, v, quiet, peer.hardware.View(), QuietBoard())
      {
        var reply;
        ghost var input, state, c := None, peer.State(), Kept();
        ghost var event := link(exchanges);
        StepMeans();
        OutgoingAt(frames, state, k);
        ForeignAt(pending, frames, k, link, start);
        reply, input := Transact(frames[k]);
        StepMeans();
        HandledFrame(state, input, frames[k], v, quiet, peer.hardware.View(), QuietBoard());
        ProgressNext(b, c, frames, first, k, link, history[|c.history|], Kept());
        ExchangeAnswered(c.pending, event, state, input, frames[k]);
        if reply.Err? {
          return Err(Transport), inputs;
        }
        if clean {
          FollowedNext(s, inputs, frames, k, link, start, state, final, input.value);
          if k == |frames| - 1 {
            EndedNow(s, inputs, frames, k, link, start, state, final, input.value, willing,
                     v, quiet, peer.hardware.View(), QuietBoard());
          }
          inputs := inputs + [input.value];
        }
        final := Some(reply.value);
      }
      ProgressDone(b, Kept(), frames, first, link);
      r := Ok(final.value);
      if clean {
        AllSent(s, inputs, frames, link, start, peer.State(), final, willing,
                v, quiet, peer.hardware.View(), QuietBoard());
      }
    }

    method NextSequence() returns (sequence: u64)
      requires Valid()
      modifies this`nextSequence
      ensures Valid()
      ensures sequence == old(nextSequence) && nextSequence == WrappingNext(old(nextSequence)) && nextSequence >= 1
    {
      hide Trace, QueueAfter;
      sequence := nextSequence;
      nextSequence := AtLeastOne((nextSequence + 1) % 0x1_0000_0000_0000_0000);
    }

    method ReserveSequences(count: u64) returns (first: u64)
      requires Valid()
      modifies this`nextSequence
      ensures Valid()
      ensures first == BlockStart(old(nextSequence), count) && nextSequence == AfterBlock(old(nextSequence), count)
      ensures first >= 1 && nextSequence >= 1
      ensures count < U64_MAX ==> nextSequence == first + count
    {
      hide Trace, QueueAfter;
      if count == 0 {
        return nextSequence;
      }
      if nextSequence > SaturatingSub(U64_MAX, count) {
        nextSequence := 1;
      }
      first := nextSequence;
      nextSequence := AtLeastOne(SaturatingAdd(nextSequence, count));
    }

    /** A status query is answered whatever the interlock, and never reaches
        the devices. */
    method Status() returns (r: Result<LinkStatus, RpuError>)
      requires Valid()
      modifies this, peer, peer.hardware, peer.hardware.io
      ensures Valid() && nextSequence == WrappingNext(old(nextSequence)) && exchanges == old(exchanges) + 1
      ensures unchanged(peer.hardware.io) && peer.hardware.View() == old(peer.hardware.View())
      // the exchange it took
      ensures Sent(old(history), history, [BlankCommand(old(nextSequence))], link, old(exchanges), r.Ok?)
      ensures old(history) <= history && |history| == |old(history)| + 1
      ensures r.Ok? ==> lastHeartbeat == Some(r.value.heartbeat) && lastFault == r.value.lastFault
      ensures r.Ok? && Foreign(old(pending), old(nextSequence)) ==>
        && r.value.heartbeat == Beat(old(peer.State()).heartbeat)
        && r.value.running == (link(old(exchanges)).interlock.faultCode == 0)
        && pending == []
      ensures link(old(exchanges)).Whole() && old(pending) == [] ==> r.Ok?
      // what it leaves queued
      ensures Foreign(old(pending), old(nextSequence)) && AllOwn(old(history)) ==> AllOwn(history)
      ensures Clears(old(pending), old(nextSequence), pending, old(nextSequence) + 1)
      ensures old(Kept()).InStep() && (old(nextSequence) < U64_MAX || r.Ok?) ==> Kept().InStep()
    {
      hide *;
      StepMeans();
      NumberAbove();
      var sequence := NextSequence();
      var command := BlankCommand(sequence);
      BlankIsStatus(sequence);
      ghost var queue, event, state, so := pending, link(exchanges), peer.State(), history;
      var reply;
      ghost var input;
      StatusIsHarmless(state, command);
      reply, input := Transact(command);
      HandledFrame(state, input, command, old(peer.hardware.View()), old(QuietBoard()),
                   peer.hardware.View(), QuietBoard());
      StatusAnswered(state, input, command);
      ExchangeAnswered(queue, event, state, input, command);
      ExchangeKept(so, history[|so|], link, old(exchanges));
      NothingQueued(nextSequence, SEQUENCES);
      StepMeans();
      if reply.Err? {
        return Err(reply.error);
      }
      var status := reply.value.status;
      r := Ok(LinkStatus(!status.Fault? && !status.Timeout?, reply.value.heartbeat, lastFault));
    }

    lemma StepMeans()
      ensures Kept() == Books(exchanges, pending, nextSequence, history)
      ensures Kept().InStep() <==> AllOwn(history) && Clear(pending, nextSequence, SEQUENCES)
    {}

    lemma NowIs()
      ensures Now() == Devices(peer.hardware.View(), QuietBoard(), peer.hardware.io.tick)
    {}

    lemma NumberAbove()
      requires Valid()
      ensures 1 <= nextSequence < SEQUENCES
      ensures nextSequence < U64_MAX ==> WrappingNext(nextSequence) == nextSequence + 1
    {
      hide Trace, QueueAfter;
    }

    /** Sends the frames of a command and judges it by the reply to the last. */
    method Dispatch(command: AfeCommand, frames: seq<Command>, first: u64)
      returns (r: Result<AfeCommandReply, RpuError>)
      requires Valid() && !command.ReadAlignment? && command.Validate().Ok?
      requires command.WriteFunction? ==> ValidUtf8(command.name)
      requires CompiledFrames(first, command) == Ok(frames) && Outgoing(frames) && Consecutive(frames, first)
      requires frames[|frames| - 1].op.Align? ==> command.Align?
      modifies this`exchanges, this`pending, this`lastHeartbeat, this`lastFault, this`history
      modifies peer, peer.hardware, peer.hardware.io
      ensures Valid() && Worked(old(Kept()), Kept(), frames, first, r.Ok?, link) && JudgedBy(history, r)
      ensures r.Ok? ==> exchanges == old(exchanges) + |frames| && (r.value.applied ==> r.value.accepted)
      ensures exchanges < old(exchanges) + |frames| ==>
        unchanged(peer.hardware.io) && peer.hardware.View() == old(peer.hardware.View())
      ensures r.Ok? && AllForeign(old(pending), frames) && Blocked(r.value) ==>
        unchanged(peer.hardware.io) && peer.hardware.View() == old(peer.hardware.View())
      ensures LostLink(link, old(exchanges), |frames|) ==>
        unchanged(peer) && unchanged(peer.hardware) && unchanged(peer.hardware.io)
      ensures r.Ok? && AllForeign(old(pending), frames) ==>
        Tells(r.value, command, link, old(exchanges), |frames|,
              Obliging(command, peer.hardware.io.env, old(peer.hardware.io.tick), peer.hardware.spinLimit),
              old(peer.hardware.View()), old(QuietBoard()), peer.hardware.View(), QuietBoard())
    {
      hide *;
      ghost var s, v, quiet, queue, start := peer.State(), peer.hardware.View(), QuietBoard(), pending, exchanges;
      WillingMeans(peer.hardware, frames[|frames| - 1], command);
      var reply;
      ghost var inputs;
      reply, inputs := SendFrames(frames, first);
      if reply.Err? {
        NotJudged(history, reply.error);
        return Err(reply.error);
      }
      JudgedApplied(reply.value);
      if AllForeign(queue, frames) {
        CommandSubmitted(s, inputs, first, command, frames, link, start, v, quiet, peer.hardware.View(), QuietBoard());
        TellsLess(Judged(reply.value), command, link, start, |frames|,
                  Obliging(command, peer.hardware.io.env, old(peer.hardware.io.tick), peer.hardware.spinLimit),
                  LastDone(s, inputs, frames), v, quiet, peer.hardware.View(), QuietBoard());
      }
      r := Ok(Judged(reply.value));
      JudgedMeans(history, reply.value);
    }

    /** Validates, reserves numbers, compiles, sends, and judges the command by
        the reply to its last frame. */
    method SubmitAfeCommand(command: AfeCommand) returns (r: Result<AfeCommandReply, RpuError>)
      requires Valid() && !command.ReadAlignment?
      requires command.WriteFunction? ==> ValidUtf8(command.name)
      modifies this, peer, peer.hardware, peer.hardware.io
      ensures Valid()
      // the exchanges it takes and what it leaves queued; a command that does not validate or compile takes none
      ensures Submitting(old(Kept()), Kept(), command, r, link)
      ensures !Compiles(command) || LostLink(link, old(exchanges), Numbers(command)) ==>
        unchanged(peer) && unchanged(peer.hardware) && unchanged(peer.hardware.io)
      // a command given up before its last frame leaves the devices alone, and, unless a queued
      // reply carries a number of the block, so does one that is refused
      ensures exchanges < old(exchanges) + Numbers(command) ==>
        unchanged(peer.hardware.io) && peer.hardware.View() == old(peer.hardware.View())
      ensures r.Ok? && Unclaimed(old(pending), old(nextSequence), command) && Blocked(r.value) ==>
        unchanged(peer.hardware.io) && peer.hardware.View() == old(peer.hardware.View())
      // and the judgement can be relied on
      ensures r.Ok? && Unclaimed(old(pending), old(nextSequence), command) ==>
        && Compiles(command)
        && Tells(r.value, command, link, old(exchanges), Numbers(command),
                 Obliging(command, peer.hardware.io.env, old(peer.hardware.io.tick), peer.hardware.spinLimit),
                 old(peer.hardware.View()), old(QuietBoard()), peer.hardware.View(), QuietBoard())
    {
      hide *;
      StepMeans();
      NumberAbove();
      ghost var b := Kept();
      CompilesMeans(command);
      NumbersMean(b.next, command);
      if command.Validate().Err? {
        RefusedBooks(b, Kept(), command, link);
        return Err(Invalid);
      }
      var count := FrameCount(command);
      if count.Err? {
        RefusedBooks(b, Kept(), command, link);
        return Err(Invalid);
      }
      var first := ReserveSequences(count.value);
      StepMeans();
      var compiled := FromAfeCommandSequence(first, command);
      CompilesAnywhere(first, command);
      if compiled.Err? {
        RefusedBooks(b, Kept(), command, link);
        return Err(Invalid);
      }
      CommandOutgoing(b.next, command, compiled.value);
      if Unclaimed(b.pending, b.next, command) {
        UnclaimedFrames(b.pending, b.next, command, compiled.value);
      }
      r := Dispatch(command, compiled.value, first);
      StepMeans();
      DispatchedBooks(b, Kept(), command, compiled.value, r, link);
    }

    // ---------- runs of calls ----------

    /** One call, with nothing queued or numbers left. */
    method Perform(call: Call) returns (result: CallResult, ghost turn: Turn)
      requires Valid() && Callable(call) && Kept().InStep()
      requires nextSequence + Draws(call) <= U64_MAX || pending == []
      modifies this, peer, peer.hardware, peer.hardware.io
      ensures Valid() && old(history) <= history && exchanges >= old(exchanges)
      ensures turn == Turn(old(exchanges), old(Now()), Now())
      ensures Vouched(call, result, turn, link, peer.hardware.io.env, peer.hardware.spinLimit)
      ensures old(nextSequence) + Draws(call) <= U64_MAX ==>
        Kept().InStep() && nextSequence == old(nextSequence) + Draws(call)
      ensures old(pending) == [] && WholeFrom(link, old(exchanges)) ==>
        Kept().InStep() && pending == [] && Served(call, result)
    {
      hide *;
      StepMeans();
      NumberAbove();
      NowIs();
      ghost var b, before := Kept(), Now();
      NothingQueued(b.next, SEQUENCES);
      match call {
        case Query =>
          QueryMeans(link, b.exchanges);
          ClearForeign(b.pending, b.next, SEQUENCES, b.next);
          var r := Status();
          NowIs();
          result := StatusResult(r);
          turn := Turn(b.exchanges, before, Now());
          QueryVouched(r, turn, link, peer.hardware.io.env, peer.hardware.spinLimit);
        case Submit(command) =>
          SubmitMeans(command, b.next, b.pending, link, b.exchanges);
          var r := SubmitAfeCommand(command);
          NowIs();
          result := Judgement(r);
          turn := Turn(b.exchanges, before, Now());
          SubmittingKeeps(b, Kept(), command, r, link);
          SubmitVouched(command, r, turn, link, peer.hardware.io.env, peer.hardware.spinLimit);
      }
      NothingQueued(nextSequence, SEQUENCES);
      StepMeans();
    }

    /** Any run of calls, until the counter has to start over or, over a link
        that keeps up, for ever: every reply accepted is the reply to the frame
        just sent, whatever is queued between calls, and what the host says of a
        call is what happened. */
    method Operate(calls: seq<Call>) returns (results: seq<CallResult>, ghost turns: seq<Turn>)
      requires Valid() && Kept().InStep() && forall c :: c in calls ==> Callable(c)
      requires nextSequence + AllDraws(calls) <= U64_MAX || (pending == [] && WholeFrom(link, exchanges))
      modifies this, peer, peer.hardware, peer.hardware.io
      ensures Valid() && Kept().InStep() && old(history) <= history
      ensures |results| == |turns| == |calls|
      ensures forall k :: 0 <= k < |calls| ==>
        Vouched(calls[k], results[k], turns[k], link, peer.hardware.io.env, peer.hardware.spinLimit)
      ensures Chained(turns, old(Now()), Now())
      ensures old(pending) == [] && WholeFrom(link, old(exchanges)) ==>
        pending == [] && forall k :: 0 <= k < |calls| ==> Served(calls[k], results[k])
    {
      hide *;
      ghost var start, before := exchanges, Now();
      results, turns := [], [];
      ChainStarts(before);
      assert calls[0..] == calls;
      for k := 0 to |calls|
        invariant Valid() && Kept().InStep() && old(history) <= history && exchanges >= start
        invariant nextSequence + AllDraws(calls[k..]) <= U64_MAX || (pending == [] && WholeFrom(link, start))
        invariant |results| == |turns| == k
        invariant forall i :: 0 <= i < k ==>
          Vouched(calls[i], results[i], turns[i], link, peer.hardware.io.env, peer.hardware.spinLimit)
        invariant Chained(turns, before, Now())
        invariant old(pending) == [] && WholeFrom(link, start) ==>
          pending == [] && forall i :: 0 <= i < k ==> Served(calls[i], results[i])
      {
        DrawsNext(calls, k);
        WholeLater(link, start, exchanges);
        ghost var here := Now();
        var result;
        ghost var turn;
        result, turn := Perform(calls[k]);
        ChainNext(turns, before, here, turn);
        results, turns := results + [result], turns + [turn];
      }
    }

    // ---------- strangers ----------

    /** The exact danger: if the oldest queued reply carries the number of a
        command's only frame, the command is judged by it, even when the frame
        is lost and nothing reaches the RPU. */
    method StrangerJudges(command: AfeCommand, reply: Reply) returns (r: Result<AfeCommandReply, RpuError>)
      requires Valid() && Callable(Submit(command)) && Compiles(command) && Numbers(command) == 1
      requires pending != [] && Accept(pending[0], BlockStart(nextSequence, 1)) == Ok(reply)
      requires var event := link(exchanges); event.written && !event.delivered && event.readable
      modifies this, peer, peer.hardware, peer.hardware.io
      ensures r == Ok(Judged(reply))
      // which says of each status
      ensures r.Ok? && r.value.readback == reply.readback
      ensures r.value.faultCode == reply.faultCode && r.value.contextCode == reply.interlockCode
      ensures r.value.applied <==> reply.status.Applied?
      ensures r.value.accepted <==> reply.status.Accepted? || reply.status.Applied? || reply.status.Timeout?
      ensures unchanged(peer) && unchanged(peer.hardware) && unchanged(peer.hardware.io)
    {
      hide *;
      StepMeans();
      NumberAbove();
      ghost var b, start := Kept(), exchanges;
      OneLost(link, start);
      TraceMeans();
      SubmitMeans(command, nextSequence, pending, link, start);
      r := SubmitAfeCommand(command);
      StepMeans();
      TraceMeans();
      StrangerRead(b, Kept(), inherited, command, r, link, reply);
      JudgedSays(reply);
    }

    lemma TraceMeans()
      requires Valid()
      ensures Trace(history, inherited) && pending == QueueAfter(history, inherited)
    {
      hide Trace, QueueAfter;
    }

    /** The counter starts over while the reply to number 1 is still queued: the
        host is in step, and the next command is taken for applied though its
        frame is lost. */
    method RestartTakesStranger(enabled: bool) returns (r: Result<AfeCommandReply, RpuError>)
      requires Valid() && AllOwn(history) && nextSequence == U64_MAX && pending == [EncodedReply(AppliedReply(1))]
      requires var event := link(exchanges); event.written && !event.delivered && event.readable
      modifies this, peer, peer.hardware, peer.hardware.io
      ensures old(Kept()).InStep() && r.Ok? && r.value.applied
      ensures unchanged(peer) && unchanged(peer.hardware) && unchanged(peer.hardware.io)
    {
      hide EncodedReply, Accept, Judged, Compiles, Numbers, Clear, Trace, QueueAfter, AllOwn;
      AppliedRead(1);
      PowerCompiles(enabled);
      r := StrangerJudges(AfeCommand.SetPowerState(enabled), AppliedReply(1));
    }
  }

  /** A host that opens the file while a reply to number 1 is queued takes its
      first command for applied though the frame is lost. */
  method InheritedStranger(peer: RpuRuntime, link: nat -> LinkEvent, enabled: bool)
    returns (host: RpmsgAfeTransport, r: Result<AfeCommandReply, RpuError>)
    requires peer.Valid() && link(0).written && !link(0).delivered && link(0).readable
    modifies peer, peer.hardware, peer.hardware.io
    ensures r.Ok? && r.value.applied
    ensures unchanged(peer) && unchanged(peer.hardware) && unchanged(peer.hardware.io)
  {
    hide EncodedReply, Accept, Judged, Compiles, Numbers, Clear, Trace, QueueAfter, AllOwn;
    AppliedRead(1);
    PowerCompiles(enabled);
    host := new RpmsgAfeTransport(peer, link, [EncodedReply(AppliedReply(1))]);
    r := host.StrangerJudges(AfeCommand.SetPowerState(enabled), AppliedReply(1));
  }
}
