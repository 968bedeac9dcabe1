/** What the commands of the slow-control API do to the frontend, and that the
    frames they compile to do just that (crates/daphne-sc-core/src/afe.rs;
    crates/daphne-sc-core/src/rpu_wire.rs, lines 181-290). */
module Effects {
  import opened Words
  import opened Afe
  import opened AfeHw
  import opened DacOutputs
  import opened PairedDacs
  import opened Utf8
  import opened Wire
  import opened Records
  import opened Frontend
  import opened Staging
  import opened Mmio
  import opened Runtime
  import opened Configuration
  import Protocol

  /** Commands of a single frame the runtime has an arm for. */
  predicate SingleFrame(command: AfeCommand) {
    !command.ConfigureFrontend? && !command.ReadAlignment?
  }

  /** The trim or offset writes a command asks for: one channel, the channels
      of one AFE in order, or those of every AFE in order. */
  function TargetWrites(target: ChannelTarget, value: u16, gain: bool): seq<PairWrite>
    requires value <= DAC_12BIT_MAX
  {
    match target
    case One(channel) => [PairWrite(PlaceOfChannel(channel), value, gain)]
    case OneAfe(afe) => PlIsInjective(afe, afe); AfeWrites(afe.pl, value, gain)
    case All => AllWrites(5, value, gain)
  }

  lemma TargetPlaces(target: ChannelTarget, value: u16, gain: bool)
    requires value <= DAC_12BIT_MAX
    ensures forall w :: w in TargetWrites(target, value, gain) ==> w.place.Exists()
  {}

  /** The frontend after a validated command of a single frame was applied;
      what alignment does depends on the words it scanned. */
  function Effect(v: FrontendView, command: AfeCommand): FrontendView
    requires SingleFrame(command) && command.Validate().Ok? && !command.Align?
  {
    match command
    case WriteRegister(afe, register, value) => PlIsInjective(afe, afe); WithRegister(v, afe.pl, register, value)
    case SetAttenuation(afe, value) => PlIsInjective(afe, afe); StepLevel(v, LevelWrite(Gain(afe.pl), value))
    case SetBias(afe, value) => PlIsInjective(afe, afe); StepLevel(v, LevelWrite(Bias(afe.pl), value))
    case SetVbiasControl(value, enable) => v.VbiasSet(value, enable)
    case SetReset(asserted) => v.Reset(asserted)
    case DoReset => v.Reset(true).Reset(false)
    case SetPowerState(enabled) => v.Power(enabled)
    case SetTrim(target, value, highGain) =>
      TargetPlaces(target, value, highGain);
      v.(trim := v.trim.Run(TargetWrites(target, value, highGain)))
    case SetOffset(target, value, highGain) =>
      TargetPlaces(target, value, highGain);
      v.(offset := v.offset.Run(TargetWrites(target, value, highGain)))
    case WriteFunction(afe, name, value) =>
      PlIsInjective(afe, afe); WithField(v, afe.pl, FieldValue(Protocol.Text(name), value))
    case _ => v
  }

  /** `w` is `v` with a command of a single frame carried out. */
  ghost predicate Affects(v: FrontendView, command: AfeCommand, w: FrontendView)
    requires SingleFrame(command) && command.Validate().Ok?
  {
    if command.Align? then AlignedView(v, w) else w == Effect(v, command)
  }

  /** The command can be carried out by devices that are willing: trim and
      offset are read one channel at a time, function names and values must be
      in the dictionary, a configuration must name no AFE and no channel twice. */
  predicate Doable(command: AfeCommand) {
    match command
    case ReadTrim(target) => target.One?
    case ReadOffset(target) => target.One?
    case WriteFunction(_, name, value) => ValidUtf8(name) && Writable(FieldValue(Protocol.Text(name), value))
    case ConfigureFrontend(afes, channels, _) => DistinctRequest(afes, channels) && RequestInRange(afes)
    case _ => true
  }

  /** What the reply to a read says: the cached value. */
  predicate ReadbackHolds(v: FrontendView, command: AfeCommand, readback: Option<u32>) {
    match command
    case ReadAttenuation(afe) => PlIsInjective(afe, afe); readback == Some(v.dac.levels.Level(Gain(afe.pl)))
    case ReadBias(afe) => PlIsInjective(afe, afe); readback == Some(v.dac.levels.Level(Bias(afe.pl)))
    case ReadVbiasControl => readback == Some(v.dac.levels.vbias)
    case ReadTrim(One(c)) => readback == Some(v.trim.Value(PlaceOfChannel(c)))
    case ReadOffset(One(c)) => readback == Some(v.offset.Value(PlaceOfChannel(c)))
    case SetAttenuation(_, value) => readback == Some(value)
    case SetBias(_, value) => readback == Some(value)
    case SetVbiasControl(value, _) => readback == Some(value)
    case SetTrim(_, value, _) => readback == Some(value)
    case SetOffset(_, value, _) => readback == Some(value)
    case _ => true
  }

  /** What the reply says of registers and function fields, register 0
      excepted: what the chip now holds. */
  predicate DeviceReadbackHolds(v: FrontendView, command: AfeCommand, readback: Option<u32>) {
    match command
    case ReadRegister(afe, register) =>
      PlIsInjective(afe, afe); register != 0 ==> readback == Some(v.files[afe.pl][register])
    case WriteRegister(_, register, value) => register != 0 ==> readback == Some(value)
    case WriteFunction(_, name, value) =>
      && Writable(FieldValue(Protocol.Text(name), value))
      && FieldOf(FieldValue(Protocol.Text(name), value)).register != 0 ==>
        readback == Some(value)
    case _ => true
  }

  // ---------- compiling preserves the meaning ----------

  lemma PairFrame(sequence: u64, command: AfeCommand, target: ChannelTarget, value: u16, highGain: bool, c: Command)
    requires
      || command == AfeCommand.SetTrim(target, value, highGain)
      || command == AfeCommand.SetOffset(target, value, highGain)
    requires value <= DAC_12BIT_MAX && FromAfeCommand(sequence, command) == Ok(c)
    ensures PairCommand(c) && PairWrites(c) == TargetWrites(target, value, highGain)
  {
    match target
    case One(channel) => PlaceIsInjective(channel, channel);
    case OneAfe(afe) => PlIsInjective(afe, afe);
    case All =>
  }

  lemma NamedFrame(sequence: u64, afe: AfeId, name: seq<u8>, value: u16, c: Command)
    requires FromAfeCommand(sequence, AfeCommand.WriteFunction(afe, name, value)) == Ok(c)
    ensures c.op == Op.WriteFunction && c.target.ToAfe? && c.afePl == afe.pl && c.value == value
    ensures FunctionName(c) == if ValidUtf8(name) then Ok(name) else Err(BadPayload)
  {
    FunctionNameRecovered(sequence, afe, name, value, c);
  }

  predicate IsPairCommand(command: AfeCommand) {
    command.SetTrim? || command.SetOffset?
  }

  lemma PairFrameMeaning(v: FrontendView, s: StagedConfig, sequence: u64, command: AfeCommand, c: Command)
    requires IsPairCommand(command) && command.Validate().Ok? && FromAfeCommand(sequence, command) == Ok(c)
    ensures Meaning(v, s, c) == Effect(v, command) && Acceptable(s, c) && !c.op.Align?
  {
    hide PairWrites, TargetWrites, PairCommand, PairDac.Run;
    PairFrame(sequence, command, command.target, command.value, command.highGain, c);
  }

  lemma NamedFrameMeaning(v: FrontendView, s: StagedConfig, sequence: u64, command: AfeCommand, c: Command)
    requires command.WriteFunction? && FromAfeCommand(sequence, command) == Ok(c)
    ensures !c.op.Align? && (ValidUtf8(command.name) ==> Meaning(v, s, c) == Effect(v, command))
    ensures Acceptable(s, c) <==> Doable(command)
  {
    hide FunctionName, NamePayload, WithField, Writable;
    NamedFrame(sequence, command.afe, command.name, command.value, c);
    PlIsInjective(command.afe, command.afe);
  }

  lemma ReadPairFrame(s: StagedConfig, sequence: u64, command: AfeCommand, c: Command)
    requires (command.ReadTrim? || command.ReadOffset?) && FromAfeCommand(sequence, command) == Ok(c)
    ensures Acceptable(s, c) <==> Doable(command)
  {
    if command.target.One? {
      PlaceIsInjective(command.target.channel, command.target.channel);
    }
  }

  predicate IsWriteCommand(command: AfeCommand) {
    || command.WriteRegister? || command.SetAttenuation? || command.SetBias? || command.SetVbiasControl?
    || command.SetReset? || command.DoReset? || command.SetPowerState?
  }

  lemma WriteFrameMeaning(v: FrontendView, s: StagedConfig, sequence: u64, command: AfeCommand, c: Command)
    requires IsWriteCommand(command) && command.Validate().Ok? && FromAfeCommand(sequence, command) == Ok(c)
    ensures !c.op.Align? && Meaning(v, s, c) == Effect(v, command)
  {
    hide DacState.Step, WithRegister, FrontendView.Reset, FrontendView.Power, FrontendView.VbiasSet;
  }

  /** The frame of a command means what the command means. A name that is not
      UTF-8 cannot reach this point in the source, whose strings all are. */
  lemma FrameMeaning(v: FrontendView, s: StagedConfig, sequence: u64, command: AfeCommand, c: Command)
    requires SingleFrame(command) && command.Validate().Ok? && FromAfeCommand(sequence, command) == Ok(c)
    requires command.WriteFunction? ==> ValidUtf8(command.name)
    ensures forall w :: Means(v, s, c, w) <==> Affects(v, command, w)
  {
    hide AlignedView;
    if IsPairCommand(command) {
      PairFrameMeaning(v, s, sequence, command, c);
    } else if command.WriteFunction? {
      NamedFrameMeaning(v, s, sequence, command, c);
    } else if IsWriteCommand(command) {
      WriteFrameMeaning(v, s, sequence, command, c);
    }
  }

  /** The arguments of a frame are acceptable exactly when the command is doable. */
  lemma FrameAcceptable(v: FrontendView, s: StagedConfig, sequence: u64, command: AfeCommand, c: Command)
    requires SingleFrame(command) && command.Validate().Ok? && FromAfeCommand(sequence, command) == Ok(c)
    ensures Acceptable(s, c) <==> Doable(command)
  {
    if IsPairCommand(command) {
      PairFrameMeaning(v, s, sequence, command, c);
    } else if command.WriteFunction? {
      NamedFrameMeaning(v, s, sequence, command, c);
    } else if command.ReadTrim? || command.ReadOffset? {
      ReadPairFrame(s, sequence, command, c);
    } else {
      hide Applicable;
    }
  }

  /** Commands whose meaning rests on the AFE chip having no transaction half
      done. */
  predicate OnRegisters(command: AfeCommand) {
    command.ReadRegister? || command.WriteRegister? || command.WriteFunction?
  }

  /** Commands that drive pins, and with them words stranded before. */
  predicate DrivesLevels(command: AfeCommand) {
    command.SetAttenuation? || command.SetBias? || command.SetVbiasControl? || command.ConfigureFrontend?
  }

  /** Where the frame of a command goes. */
  lemma FrameOp(sequence: u64, command: AfeCommand, c: Command)
    requires SingleFrame(command) && FromAfeCommand(sequence, command) == Ok(c)
    ensures c.sequence == sequence
    ensures !IsStagingOp(c.op) && !c.op.ApplyConfigureFrontend? && !c.op.Status? && !c.op.ReadAlignment?
    ensures c.op.Align? <==> command.Align?
  {}

  lemma FrameReach(sequence: u64, command: AfeCommand, c: Command)
    requires SingleFrame(command) && FromAfeCommand(sequence, command) == Ok(c)
    ensures IsRegisterOp(c.op) <==> OnRegisters(command)
    ensures DrivesPins(c.op) <==> DrivesLevels(command)
  {}

  /** A doable command of a single frame is applied exactly when the devices do
      their part. */
  lemma FrameApplied(s: Protocol.Rpu, sequence: u64, command: AfeCommand, c: Command, hw: Outcome)
    requires SingleFrame(command) && command.Validate().Ok? && FromAfeCommand(sequence, command) == Ok(c)
    requires !c.op.ReadAlignment? && Doable(command)
    ensures Protocol.ApplyCommand(s, c, hw).1.Ok? <==> hw.Done?
    ensures Protocol.ApplyCommand(s, c, hw).0 == s
  {
    hide FunctionName, NamePayload, Writable;
    if command.WriteFunction? {
      NamedFrame(sequence, command.afe, command.name, command.value, c);
    }
  }

  /** No frame of such a command is turned down before the hardware is called. */
  lemma FrameGetsThrough(s: Protocol.Rpu, sequence: u64, command: AfeCommand, c: Command)
    requires SingleFrame(command) && command.Validate().Ok? && FromAfeCommand(sequence, command) == Ok(c)
    requires command.WriteFunction? ==> ValidUtf8(command.name)
    ensures !Protocol.TurnedDown(s, c)
  {
    hide FunctionName, NamePayload, Writable;
    if command.WriteFunction? {
      NamedFrame(sequence, command.afe, command.name, command.value, c);
    }
  }

  predicate IsLevelCommand(command: AfeCommand) {
    || command.ReadAttenuation? || command.ReadBias? || command.ReadVbiasControl?
    || command.SetAttenuation? || command.SetBias? || command.SetVbiasControl?
  }

  lemma LevelAnswer(v: FrontendView, sequence: u64, command: AfeCommand, c: Command, readback: Option<u32>)
    requires IsLevelCommand(command) && FromAfeCommand(sequence, command) == Ok(c) && Answered(v, c, readback)
    ensures ReadbackHolds(v, command, readback)
  {
    hide FunctionName, NamePayload, Writable, PairDac.Value;
  }

  lemma PairAnswer(v: FrontendView, sequence: u64, command: AfeCommand, c: Command, readback: Option<u32>)
    requires IsPairCommand(command) || command.ReadTrim? || command.ReadOffset?
    requires FromAfeCommand(sequence, command) == Ok(c) && Answered(v, c, readback)
    ensures ReadbackHolds(v, command, readback)
  {
    hide FunctionName, NamePayload, Writable, PairDac.Value;
  }

  /** The readback of a frame is that of its command. */
  lemma FrameAnswer(v: FrontendView, sequence: u64, command: AfeCommand, c: Command, readback: Option<u32>)
    requires SingleFrame(command) && FromAfeCommand(sequence, command) == Ok(c) && Answered(v, c, readback)
    ensures ReadbackHolds(v, command, readback)
  {
    hide FromAfeCommand, Answered;
    if IsLevelCommand(command) {
      LevelAnswer(v, sequence, command, c, readback);
    } else if IsPairCommand(command) || command.ReadTrim? || command.ReadOffset? {
      PairAnswer(v, sequence, command, c, readback);
    }
  }

  /** So is what it says of registers and fields. */
  lemma FrameDeviceAnswer(v: FrontendView, sequence: u64, command: AfeCommand, c: Command, readback: Option<u32>)
    requires OnRegisters(command) && (command.WriteFunction? ==> ValidUtf8(command.name))
    requires FromAfeCommand(sequence, command) == Ok(c)
    requires Answered(v, c, readback) && DeviceAnswered(v, c, readback)
    ensures DeviceReadbackHolds(v, command, readback)
  {
    hide FunctionName, NamePayload, Writable, FieldOf, Answers;
    if command.WriteFunction? {
      NamedFrame(sequence, command.afe, command.name, command.value, c);
    }
  }
}
