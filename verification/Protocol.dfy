/** The RPU command protocol as a state machine: interlock, record counters and
    staging area, frame by frame (crates/daphne-sc-rpu/src/lib.rs). What the
    devices do with an operation that reaches them is an input of the step. */
module Protocol {
  import opened Words
  import opened Wire
  import opened Records
  import opened Staging
  import opened Mmio

  datatype Interlock = Interlock(
    clockReady: bool, firmwareReady: bool, interfacesReady: bool, temperaturesOk: bool,
    railsOk: bool, hostHeartbeatOk: bool, faultCode: u32)
  {
    predicate ReadyForAfe() {
      clockReady && firmwareReady && interfacesReady && temperaturesOk && railsOk && hostHeartbeatOk && faultCode == 0
    }

    function Code(): u32 {
      Missing(clockReady, 1) + Missing(firmwareReady, 2) + Missing(interfacesReady, 4) + Missing(temperaturesOk, 8)
      + Missing(railsOk, 16) + Missing(hostHeartbeatOk, 32) + Missing(faultCode == 0, 64)
    }

    /** The code has a bit for each input that is missing. */
    lemma CodeTellsInputs()
      ensures Code() < 128
      ensures Code() % 2 == 1 <==> !clockReady
      ensures Code() / 2 % 2 == 1 <==> !firmwareReady
      ensures Code() / 4 % 2 == 1 <==> !interfacesReady
      ensures Code() / 8 % 2 == 1 <==> !temperaturesOk
      ensures Code() / 16 % 2 == 1 <==> !railsOk
      ensures Code() / 32 % 2 == 1 <==> !hostHeartbeatOk
      ensures Code() / 64 % 2 == 1 <==> faultCode != 0
    {
      hide *;
      CodeSum();
      var v, high := Code(), Missing(railsOk, 1) + Missing(hostHeartbeatOk, 2) + Missing(faultCode == 0, 4);
      FourBits(v, Missing(clockReady, 1), Missing(firmwareReady, 1), Missing(interfacesReady, 1),
               Missing(temperaturesOk, 1), high);
      FourBits(high, Missing(railsOk, 1), Missing(hostHeartbeatOk, 1), Missing(faultCode == 0, 1), 0, 0);
      Quotients(v);
    }

    lemma CodeSum()
      ensures var high := Missing(railsOk, 1) + Missing(hostHeartbeatOk, 2) + Missing(faultCode == 0, 4);
        && Code() == Missing(clockReady, 1) + 2 * Missing(firmwareReady, 1) + 4 * Missing(interfacesReady, 1)
                     + 8 * Missing(temperaturesOk, 1) + 16 * high
        && high == Missing(railsOk, 1) + 2 * Missing(hostHeartbeatOk, 1) + 4 * Missing(faultCode == 0, 1)
      ensures forall ready: bool :: Missing(ready, 1) == if ready then 0 else 1
    {}

    /** Frames reach the hardware exactly when the reported code is zero. */
    lemma ReadyMeansCodeZero()
      ensures ReadyForAfe() <==> Code() == 0
    {}
  }

  lemma FourBits(v: nat, a: nat, b: nat, c: nat, d: nat, high: nat)
    requires a <= 1 && b <= 1 && c <= 1 && d <= 1 && v == a + 2 * b + 4 * c + 8 * d + 16 * high
    ensures v % 2 == a && v / 2 % 2 == b && v / 4 % 2 == c && v / 8 % 2 == d && v / 16 == high
  {
    hide *;
    QuotientIs(v, 2, b + 2 * c + 4 * d + 8 * high, a);
    QuotientIs(v / 2, 2, c + 2 * d + 4 * high, b);
    QuotientIs(v, 4, c + 2 * d + 4 * high, a + 2 * b);
    QuotientIs(v / 4, 2, d + 2 * high, c);
    QuotientIs(v, 8, d + 2 * high, a + 2 * b + 4 * c);
    QuotientIs(v / 8, 2, high, d);
    QuotientIs(v, 16, high, a + 2 * b + 4 * c + 8 * d);
  }

  lemma Quotients(v: nat)
    ensures v / 16 / 2 == v / 32 && v / 16 / 4 == v / 64 && (v / 16 < 8 ==> v < 128)
  {}

  function Missing(ready: bool, weight: nat): nat {
    if ready then 0 else weight
  }

  const DOWN: Interlock := Interlock(false, false, false, false, false, false, 0)

  datatype ConfigState = ConfigState(
    active: bool, expectedAfes: u16, expectedChannels: u16, receivedAfes: u16, receivedChannels: u16)
  {
    predicate AfeSlotFree() {
      active && receivedAfes < expectedAfes
    }

    predicate ChannelSlotFree() {
      active && receivedChannels < expectedChannels
    }

    predicate Complete() {
      active && receivedAfes == expectedAfes && receivedChannels == expectedChannels
    }
  }

  const NO_CONFIG: ConfigState := ConfigState(false, 0, 0, 0, 0)

  function BeginConfig(counts: ConfigCounts): ConfigState {
    ConfigState(true, counts.afeCount, counts.channelCount, 0, 0)
  }

  datatype Rpu = Rpu(heartbeat: u64, interlock: Interlock, config: ConfigState, staged: StagedConfig)

  const START: Rpu := Rpu(0, DOWN, NO_CONFIG, UNSTAGED)

  /** How a hardware method that touches registers ended. */
  datatype Outcome = Done(readback: u32) | Failed

  datatype ApplyError = Refused | HardwareFault

  type Answer = Result<Option<u32>, ApplyError>

  function Readback(hw: Outcome): Answer {
    match hw case Done(v) => Ok(Some(v)) case Failed => Err(HardwareFault)
  }

  function Acknowledged(hw: Outcome): Answer {
    match hw case Done(_) => Ok(None) case Failed => Err(HardwareFault)
  }

  /** A name on the wire as text. */
  function Text(name: seq<u8>): string {
    seq(|name|, i requires 0 <= i < |name| => name[i] as char)
  }

  /** Every operation but ReadAlignment has an arm in the source's match. */
  function ApplyCommand(s: Rpu, c: Command, hw: Outcome): (Rpu, Answer)
    requires !c.op.ReadAlignment?
  {
    match c.op
    case Status => (s, Ok(Some(s.interlock.Code())))
    case ReadRegister => (s, if c.target.ToAfe? then Readback(hw) else Err(Refused))
    case WriteRegister => (s, if c.target.ToAfe? then Readback(hw) else Err(Refused))
    case ReadAttenuation => (s, if c.target.ToAfe? then Readback(hw) else Err(Refused))
    case ReadBias => (s, if c.target.ToAfe? then Readback(hw) else Err(Refused))
    case SetAttenuation => (s, if c.target.ToAfe? then Readback(hw) else Err(Refused))
    case SetBias => (s, if c.target.ToAfe? then Readback(hw) else Err(Refused))
    case ReadTrim => (s, Readback(hw))
    case ReadOffset => (s, Readback(hw))
    case SetTrim => (s, Readback(hw))
    case SetOffset => (s, Readback(hw))
    case ReadVbiasControl => (s, Readback(hw))
    case SetVbiasControl => (s, Readback(hw))
    case SetReset => (s, Acknowledged(hw))
    case DoReset => (s, Acknowledged(hw))
    case SetPowerState => (s, Acknowledged(hw))
    case Align => (s, Acknowledged(hw))
    case BeginConfigureFrontend => Begin(s, c)
    case ConfigureAfe => ReceiveAfe(s, c)
    case ConfigureChannel => ReceiveChannel(s, c)
    case ApplyConfigureFrontend => ApplyStaged(s, hw)
    case WriteFunction =>
      (s, if c.target.ToAfe? && FunctionName(c).Ok? && c.value <= 0xFFFF then Readback(hw) else Err(Refused))
  }

  function Begin(s: Rpu, c: Command): (Rpu, Answer) {
    match ConfigureCounts(c)
    case Err(_) => (s, Err(Refused))
    case Ok(counts) => (s.(config := BeginConfig(counts), staged := NewStaged(counts)), Ok(None))
  }

  function ReceiveAfe(s: Rpu, c: Command): (Rpu, Answer) {
    match AfeConfig(c)
    case Err(_) => (s, Err(Refused))
    case Ok(config) =>
      if !s.config.AfeSlotFree() then (s, Err(Refused))
      else if StageAfeResult(s.staged, config).Err? then (s, Err(HardwareFault))
      else (s.(config := s.config.(receivedAfes := s.config.receivedAfes + 1),
               staged := StagedWithAfe(s.staged, config)), Ok(None))
  }

  function ReceiveChannel(s: Rpu, c: Command): (Rpu, Answer) {
    match ChannelConfig(c)
    case Err(_) => (s, Err(Refused))
    case Ok(config) =>
      if !s.config.ChannelSlotFree() then (s, Err(Refused))
      else if StageChannelResult(s.staged, config).Err? then (s, Err(HardwareFault))
      else (s.(config := s.config.(receivedChannels := s.config.receivedChannels + 1),
               staged := StagedWithChannel(s.staged, config)), Ok(None))
  }

  /** Apply gets past the counters and the backend's own counts. */
  predicate ApplyReachesDevices(s: Rpu) {
    s.config.Complete() && s.staged.active && s.staged.CountsMatch()
  }

  function ApplyStaged(s: Rpu, hw: Outcome): (Rpu, Answer) {
    if !s.config.Complete() then (s, Err(Refused))
    else if !ApplyReachesDevices(s) || hw.Failed? then (s, Err(HardwareFault))
    else (s.(config := NO_CONFIG, staged := UNSTAGED), Ok(None))
  }

  function HandleCommand(s: Rpu, c: Command, hw: Outcome): (Rpu, Reply)
    requires !c.op.ReadAlignment?
  {
    var i := s.interlock;
    if c.op.Status? then
      (s, Reply(c.sequence, if i.faultCode == 0 then Applied else Fault, Some(i.Code()), s.heartbeat,
                i.faultCode, i.Code()))
    else if !i.ReadyForAfe() then
      (s, Reply(c.sequence, Interlocked, None, s.heartbeat, i.faultCode, i.Code()))
    else
      var (t, answer) := ApplyCommand(s, c, hw);
      match answer
      case Ok(readback) => (t, Reply(c.sequence, Applied, readback, s.heartbeat, 0, 0))
      case Err(Refused) => (t, Reply(c.sequence, Rejected, None, s.heartbeat, 0, 0))
      case Err(HardwareFault) => (t, Reply(c.sequence, Fault, None, s.heartbeat, 1, i.Code()))
  }

  /** Heartbeats wrap at 2^64. */
  function Beat(heartbeat: u64): u64 {
    (heartbeat + 1) % 0x1_0000_0000_0000_0000
  }

  function HandleFrame(s: Rpu, frame: Frame, hw: Outcome): (Rpu, Reply)
    requires Supported(frame)
  {
    var t := s.(heartbeat := Beat(s.heartbeat));
    match DecodeCommand(frame)
    case Ok(c) => HandleCommand(t, c, hw)
    case Err(_) => (t, Reply(0, Rejected, None, t.heartbeat, 0, t.interlock.Code()))
  }

  // ---------- the answer to a frame ----------

  predicate NeedsAfe(op: Op) {
    || op.ReadRegister? || op.WriteRegister? || op.ReadAttenuation? || op.ReadBias? || op.SetAttenuation? || op.SetBias?
    || op == Op.WriteFunction
  }

  /** The command is turned down before a hardware method is called: for its
      target, its record, the counters, its name or its value. */
  predicate TurnedDown(s: Rpu, c: Command) {
    || (NeedsAfe(c.op) && !c.target.ToAfe?)
    || (c.op == Op.WriteFunction && (FunctionName(c).Err? || c.value > 0xFFFF))
    || (c.op.BeginConfigureFrontend? && ConfigureCounts(c).Err?)
    || (c.op.ConfigureAfe? && (AfeConfig(c).Err? || !s.config.AfeSlotFree()))
    || (c.op.ConfigureChannel? && (ChannelConfig(c).Err? || !s.config.ChannelSlotFree()))
    || (c.op.ApplyConfigureFrontend? && !s.config.Complete())
  }

  /** The hardware method the command calls fails: a record has no slot, nothing
      is staged, or the devices did not do their part. */
  predicate HardwareFails(s: Rpu, c: Command, hw: Outcome) {
    if c.op.BeginConfigureFrontend? then false
    else if c.op.ConfigureAfe? then AfeConfig(c).Ok? && StageAfeResult(s.staged, AfeConfig(c).value).Err?
    else if c.op.ConfigureChannel? then
      ChannelConfig(c).Ok? && StageChannelResult(s.staged, ChannelConfig(c).value).Err?
    else if c.op.ApplyConfigureFrontend? then !ApplyReachesDevices(s) || hw.Failed?
    else hw.Failed?
  }

  predicate AnswerTo(s: Rpu, c: Command, hw: Outcome, reply: Reply) {
    && reply.sequence == c.sequence
    && (c.op.Status? ==>
          && reply.status == (if s.interlock.faultCode == 0 then Applied else Fault)
          && reply.readback == Some(s.interlock.Code())
          && reply.faultCode == s.interlock.faultCode && reply.interlockCode == s.interlock.Code())
    && (!c.op.Status? ==>
          && (reply.status.Interlocked? <==> !s.interlock.ReadyForAfe())
          && (reply.status.Rejected? <==> s.interlock.ReadyForAfe() && TurnedDown(s, c))
          && (reply.status.Fault? <==> s.interlock.ReadyForAfe() && !TurnedDown(s, c) && HardwareFails(s, c, hw))
          && (reply.status.Applied? <==> s.interlock.ReadyForAfe() && !TurnedDown(s, c) && !HardwareFails(s, c, hw))
          && (reply.readback.Some? ==> reply.status.Applied?)
          && reply.interlockCode == s.interlock.Code()
          && reply.faultCode == (if reply.status.Fault? then 1 else s.interlock.faultCode))
  }

  /** What status a frame is answered with, and with what codes, from the frame,
      the interlock, the counters and what the hardware method did. */
  predicate Answers(s: Rpu, frame: Frame, hw: Outcome, reply: Reply) {
    && reply.heartbeat == Beat(s.heartbeat)
    && match DecodeCommand(frame)
       case Ok(c) => AnswerTo(s, c, hw, reply)
       case Err(_) => reply == Reply(0, Rejected, None, Beat(s.heartbeat), 0, s.interlock.Code())
  }

  lemma CommandAnswered(s: Rpu, c: Command, hw: Outcome)
    requires !c.op.ReadAlignment?
    ensures AnswerTo(s, c, hw, HandleCommand(s, c, hw).1)
  {
    s.interlock.ReadyMeansCodeZero();
    hide AfeConfig, ChannelConfig, FunctionName, ConfigureCounts, Interlock.Code, StageAfeResult, StageChannelResult;
  }

  /** Every frame is answered so. */
  lemma FrameAnswered(s: Rpu, frame: Frame, hw: Outcome)
    requires Supported(frame)
    ensures Answers(s, frame, hw, HandleFrame(s, frame, hw).1)
  {
    hide DecodeCommand, HandleCommand, AnswerTo, TurnedDown, HardwareFails;
    var t := s.(heartbeat := Beat(s.heartbeat));
    HandledBeat(s, frame, hw);
    if DecodeCommand(frame).Ok? {
      CommandAnswered(t, DecodeCommand(frame).value, hw);
      SameAnswer(s, t, DecodeCommand(frame).value, hw, HandleFrame(s, frame, hw).1);
    }
  }

  lemma HandledBeat(s: Rpu, frame: Frame, hw: Outcome)
    requires Supported(frame)
    ensures HandleFrame(s, frame, hw).1.heartbeat == Beat(s.heartbeat)
  {
    hide AfeConfig, ChannelConfig, FunctionName, ConfigureCounts, Interlock.Code, StageAfeResult, StageChannelResult;
  }

  lemma SameAnswer(s: Rpu, t: Rpu, c: Command, hw: Outcome, reply: Reply)
    requires t == s.(heartbeat := t.heartbeat)
    ensures AnswerTo(s, c, hw, reply) <==> AnswerTo(t, c, hw, reply)
  {
    hide AfeConfig, ChannelConfig, FunctionName, ConfigureCounts, Interlock.Code, StageAfeResult, StageChannelResult;
  }

  predicate Supported(frame: Frame) {
    DecodeCommand(frame).Ok? ==> !DecodeCommand(frame).value.op.ReadAlignment?
  }

  // ---------- runs ----------

  /** One frame, the interlock it is handled under, and how the devices answer. */
  datatype Input = Input(interlock: Interlock, frame: Frame, hw: Outcome)

  predicate AllSupported(inputs: seq<Input>) {
    forall i :: 0 <= i < |inputs| ==> Supported(inputs[i].frame)
  }

  function Step(s: Rpu, i: Input): (Rpu, Reply)
    requires Supported(i.frame)
  {
    HandleFrame(s.(interlock := i.interlock), i.frame, i.hw)
  }

  function Run(s: Rpu, inputs: seq<Input>): Rpu
    requires AllSupported(inputs)
  {
    if inputs == [] then s else Step(Run(s, inputs[..|inputs| - 1]), inputs[|inputs| - 1]).0
  }

  /** The reply to input `k` of a run. */
  function ReplyAt(s: Rpu, inputs: seq<Input>, k: nat): Reply
    requires AllSupported(inputs) && k < |inputs|
  {
    Step(Run(s, inputs[..k]), inputs[k]).1
  }

  lemma RunNext(s: Rpu, inputs: seq<Input>, k: nat)
    requires AllSupported(inputs) && k < |inputs|
    ensures Run(s, inputs[..k + 1]) == Step(Run(s, inputs[..k]), inputs[k]).0
  {
    assert inputs[..k + 1][..k] == inputs[..k];
  }

  lemma StepBeats(s: Rpu, i: Input)
    requires Supported(i.frame)
    ensures Step(s, i).0.heartbeat == Beat(s.heartbeat) && Step(s, i).1.heartbeat == Beat(s.heartbeat)
    ensures Step(s, i).0.interlock == i.interlock
  {}

  /** The heartbeat counts the frames, modulo 2^64, whatever they were. */
  lemma {:induction false} HeartbeatCountsFrames(inputs: seq<Input>)
    requires AllSupported(inputs)
    ensures Run(START, inputs).heartbeat == |inputs| % 0x1_0000_0000_0000_0000
  {
    hide Step;
    if inputs != [] {
      var rest := inputs[..|inputs| - 1];
      HeartbeatCountsFrames(rest);
      StepBeats(Run(START, rest), inputs[|inputs| - 1]);
    }
  }

  /** Under an interlock that is not ready a frame changes nothing but the
      heartbeat, and only a status query is answered with anything but
      Interlocked or Rejected. */
  lemma InterlockBlocks(s: Rpu, i: Input)
    requires Supported(i.frame) && !i.interlock.ReadyForAfe()
    ensures var (t, reply) := Step(s, i);
            && t == s.(heartbeat := t.heartbeat, interlock := i.interlock)
            && (reply.status.Interlocked? || reply.status.Rejected? || reply.readback == Some(i.interlock.Code()))
  {}
}
