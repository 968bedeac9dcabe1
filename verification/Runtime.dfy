/** The RPU runtime: decodes a frame, applies the interlock and drives the
    backend (crates/daphne-sc-rpu/src/lib.rs, lines 82-258). */
module Runtime {
  import opened Words
  import opened Afe
  import opened AfeHw
  import opened Board
  import opened DacOutputs
  import opened PairedDacs
  import opened Wire
  import opened Records
  import opened Frontend
  import opened Staging
  import opened BusOps
  import opened Mmio
  import Alignment
  import Protocol

  type Outcome = Protocol.Outcome
  type Answer = Protocol.Answer

  predicate IsAfeOp(op: Op) {
    op.ReadRegister? || op.WriteRegister? || op.ReadAttenuation? || op.ReadBias? || op.SetAttenuation? || op.SetBias?
  }

  predicate IsChannelOp(op: Op) {
    op.ReadTrim? || op.ReadOffset? || op.SetTrim? || op.SetOffset?
  }

  predicate IsBoardOp(op: Op) {
    op.ReadVbiasControl? || op.SetVbiasControl? || op.SetReset? || op.DoReset? || op.SetPowerState? || op.Align?
  }

  /** What a frame that is answered Applied does to the frontend, given what is
      staged. Out-of-range arguments are never applied, and change nothing. */
  function Meaning(v: FrontendView, s: StagedConfig, c: Command): FrontendView
    requires !c.op.Align?
  {
    match c.op
    case WriteRegister =>
      if c.afePl < AFE_COUNT && c.value <= 0xFFFF then WithRegister(v, c.afePl, c.register, c.value) else v
    case SetAttenuation => Levelled(v, LevelWrite(Gain(c.afePl), c.value % 0x1_0000))
    case SetBias => Levelled(v, LevelWrite(Bias(c.afePl), c.value % 0x1_0000))
    case SetVbiasControl => if c.value <= DAC_12BIT_MAX then v.VbiasSet(c.value, c.flags != 0) else v
    case SetReset => v.Reset(c.flags != 0)
    case DoReset => v.Reset(true).Reset(false)
    case SetPowerState => v.Power(c.flags != 0)
    case SetTrim => if PairCommand(c) then v.(trim := v.trim.Run(PairWrites(c))) else v
    case SetOffset => if PairCommand(c) then v.(offset := v.offset.Run(PairWrites(c))) else v
    case WriteFunction =>
      if c.afePl < AFE_COUNT && FunctionName(c).Ok? && c.value <= 0xFFFF
      then WithField(v, c.afePl, FieldValue(Protocol.Text(FunctionName(c).value), c.value))
      else v
    case ApplyConfigureFrontend => if Applicable(s) then AfterApply(v, s) else v
    case _ => v
  }

  /** `w` is `v` after a frame that was answered Applied. What alignment sets
      depends on the words it scanned. */
  ghost predicate Means(v: FrontendView, s: StagedConfig, c: Command, w: FrontendView) {
    if c.op.Align? then AlignedView(v, w) else w == Meaning(v, s, c)
  }

  function Levelled(v: FrontendView, w: LevelWrite): FrontendView {
    if InRange(w) then StepLevel(v, w) else v
  }

  function WithField(v: FrontendView, afe: nat, w: FieldValue): FrontendView
    requires afe < 5
  {
    if Writable(w) then v.(files := v.files[afe := WriteField(v.files[afe], w)]) else v
  }

  /** The arguments are ones the backend accepts, given what is staged. */
  predicate Acceptable(s: StagedConfig, c: Command) {
    match c.op
    case ReadRegister => c.afePl < AFE_COUNT
    case ReadAttenuation => c.afePl < AFE_COUNT
    case ReadBias => c.afePl < AFE_COUNT
    case WriteRegister => c.afePl < AFE_COUNT && c.value <= 0xFFFF
    case SetAttenuation => c.afePl < AFE_COUNT && c.value <= DAC_12BIT_MAX
    case SetBias => c.afePl < AFE_COUNT && c.value <= DAC_12BIT_MAX
    case SetVbiasControl => c.value <= DAC_12BIT_MAX
    case SetTrim => PairCommand(c)
    case SetOffset => PairCommand(c)
    case ReadTrim => c.target.ToChannel? && c.afePl < AFE_COUNT && c.afeChannel < CHANNELS_PER_AFE
    case ReadOffset => c.target.ToChannel? && c.afePl < AFE_COUNT && c.afeChannel < CHANNELS_PER_AFE
    case WriteFunction => c.afePl < AFE_COUNT && c.value <= 0xFFFF && FunctionName(c).Ok?
      && Writable(FieldValue(Protocol.Text(FunctionName(c).value), c.value))
    case ApplyConfigureFrontend => Applicable(s)
    case _ => true
  }

  /** The devices cannot refuse: registers answer, busy devices are idle again
      before a wait gives up, and an alignment starting now succeeds. */
  ghost predicate Willing(hardware: AfeMmioBackend, c: Command)
    reads hardware.io
  {
    && hardware.io.env.Responsive(hardware.spinLimit)
    && (c.op.Align? ==> Alignment.Aligns(hardware.io.env, hardware.io.tick, hardware.spinLimit))
  }

  /** The readback of cached quantities: the value now in the cache. */
  predicate Answers(v: FrontendView, c: Command, readback: u32) {
    match c.op
    case ReadAttenuation => c.afePl < AFE_COUNT && readback == v.dac.levels.Level(Gain(c.afePl))
    case ReadBias => c.afePl < AFE_COUNT && readback == v.dac.levels.Level(Bias(c.afePl))
    case ReadVbiasControl => readback == v.dac.levels.vbias
    case ReadTrim => Place(c.afePl, c.afeChannel).Exists() && readback == v.trim.Value(Place(c.afePl, c.afeChannel))
    case ReadOffset => Place(c.afePl, c.afeChannel).Exists() && readback == v.offset.Value(Place(c.afePl, c.afeChannel))
    case SetAttenuation => readback == c.value
    case SetBias => readback == c.value
    case SetVbiasControl => readback == c.value
    case SetTrim => readback == c.value
    case SetOffset => readback == c.value
    case _ => true
  }

  /** The readback of registers and fields, register 0 excepted: what the chip
      now holds. */
  predicate DeviceAnswers(v: FrontendView, c: Command, readback: u32) {
    match c.op
    case ReadRegister =>
      c.afePl < AFE_COUNT && c.register % 0x100 != 0 ==> readback == v.files[c.afePl][c.register % 0x100]
    case WriteRegister => c.register % 0x100 != 0 ==> readback == c.value
    case WriteFunction =>
      (&& FunctionName(c).Ok? && c.value <= 0xFFFF
       && Writable(FieldValue(Protocol.Text(FunctionName(c).value), c.value))
       && FieldOf(FieldValue(Protocol.Text(FunctionName(c).value), c.value)).register != 0) ==> readback == c.value
    case _ => true
  }

  /** Commands that return a value answered with one, and the right one. */
  predicate Answered(v: FrontendView, c: Command, readback: Option<u32>) {
    if HasReadback(c.op) then readback.Some? && Answers(v, c, readback.value) else readback.None?
  }

  predicate DeviceAnswered(v: FrontendView, c: Command, readback: Option<u32>) {
    HasReadback(c.op) && readback.Some? ==> DeviceAnswers(v, c, readback.value)
  }

  predicate HasReadback(op: Op) {
    IsAfeOp(op) || IsChannelOp(op) || op.ReadVbiasControl? || op.SetVbiasControl? || op == Op.WriteFunction
  }

  /** Operations whose meaning rests on the AFE chip having no transaction half
      done. */
  predicate IsRegisterOp(op: Op) {
    op.ReadRegister? || op.WriteRegister? || op == Op.WriteFunction
  }

  /** Operations that drive pins, and with them words stranded before. */
  predicate DrivesPins(op: Op) {
    op.SetAttenuation? || op.SetBias? || op.SetVbiasControl? || op.ApplyConfigureFrontend?
  }

  /** The pins an operation starts from: those there are, but that one which
      drives pins drives stranded words too if a transaction was cut off. */
  predicate Found(v: FrontendView, quiet: bool, drives: bool, pins: Outputs) {
    quiet || !drives ==> pins == v.dac.outputs
  }

  /** The devices did what a frame means. */
  ghost predicate Did(v: FrontendView, quiet: bool, s: StagedConfig, c: Command, w: FrontendView) {
    exists pins :: Found(v, quiet, DrivesPins(c.op), pins) && Means(v.Driven(pins), s, c, w)
  }

  /** A command was carried out: its arguments are acceptable, its readback is
      right and the devices did what it means; AFE registers are vouched for if
      no earlier transaction was cut off. An applied configuration leaves
      nothing cut off, whatever was before. */
  ghost predicate Carried(v: FrontendView, quiet: bool, s: StagedConfig, c: Command,
                          w: FrontendView, quietAfter: bool, readback: Option<u32>)
  {
    && Acceptable(s, c) && Answered(w, c, readback)
    && (quiet || !IsRegisterOp(c.op) ==> Did(v, quiet, s, c, w))
    && (quiet || c.op.ApplyConfigureFrontend? ==> quietAfter)
    && (quiet ==> DeviceAnswered(w, c, readback))
  }

  lemma DidWith(v: FrontendView, quiet: bool, s: StagedConfig, c: Command, w: FrontendView, pins: Outputs)
    requires Found(v, quiet, DrivesPins(c.op), pins) && Means(v.Driven(pins), s, c, w)
    ensures Did(v, quiet, s, c, w)
  {
    hide Means, Found;
  }

  lemma DidFromHere(v: FrontendView, quiet: bool, s: StagedConfig, c: Command, w: FrontendView)
    requires Means(v, s, c, w)
    ensures Did(v, quiet, s, c, w)
  {
    hide Means;
    assert v.Driven(v.dac.outputs) == v;
    DidWith(v, quiet, s, c, w, v.dac.outputs);
  }

  function Told(c: Command, hw: Outcome): Option<u32>
    requires hw.Done?
  {
    if HasReadback(c.op) then Some(hw.readback) else None
  }

  lemma AfeOpMeaning(v: FrontendView, s: StagedConfig, c: Command)
    requires IsAfeOp(c.op)
    ensures forall w :: Means(v, s, c, w) <==> w == Meaning(v, s, c)
    ensures c.op.ReadRegister? || c.op.ReadAttenuation? || c.op.ReadBias? ==>
      Meaning(v, s, c) == v && (Acceptable(s, c) <==> c.afePl < AFE_COUNT)
    ensures c.op.WriteRegister? ==>
      && (Acceptable(s, c) <==> c.afePl < AFE_COUNT && c.value <= 0xFFFF)
      && (Acceptable(s, c) ==> Meaning(v, s, c) == WithRegister(v, c.afePl, c.register, c.value))
    ensures c.op.SetAttenuation? || c.op.SetBias? ==>
      && (Acceptable(s, c) <==> c.afePl < AFE_COUNT && c.value <= DAC_12BIT_MAX)
      && (Acceptable(s, c) ==>
            var output := if c.op.SetAttenuation? then Gain(c.afePl) else Bias(c.afePl);
            Meaning(v, s, c) == StepLevel(v, LevelWrite(output, c.value)))
  {
    hide WithRegister, DacState.Step;
  }

  lemma AfeOpAnswers(v: FrontendView, c: Command, readback: u32)
    requires IsAfeOp(c.op)
    ensures c.op.ReadRegister? && c.afePl < AFE_COUNT ==>
      (DeviceAnswers(v, c, readback) <==>
         c.register % 0x100 != 0 ==> readback == v.files[c.afePl][c.register % 0x100])
    ensures c.op.WriteRegister? ==> (DeviceAnswers(v, c, readback) <==> c.register % 0x100 != 0 ==> readback == c.value)
    ensures !c.op.ReadRegister? && !c.op.WriteRegister? ==> DeviceAnswers(v, c, readback)
  {}

  lemma BoardOpMeaning(v: FrontendView, s: StagedConfig, c: Command)
    requires IsBoardOp(c.op)
    ensures forall w :: Means(v, s, c, w) <==> if c.op.Align? then AlignedView(v, w) else w == Meaning(v, s, c)
    ensures !c.op.SetVbiasControl? ==> Acceptable(s, c)
    ensures c.op.ReadVbiasControl? ==> Meaning(v, s, c) == v
    ensures c.op.SetReset? ==> Meaning(v, s, c) == v.Reset(c.flags != 0)
    ensures c.op.DoReset? ==> Meaning(v, s, c) == v.Reset(true).Reset(false)
    ensures c.op.SetPowerState? ==> Meaning(v, s, c) == v.Power(c.flags != 0)
    ensures c.op.SetVbiasControl? ==>
      && (Acceptable(s, c) <==> c.value <= DAC_12BIT_MAX)
      && (Acceptable(s, c) ==> Meaning(v, s, c) == v.VbiasSet(c.value, c.flags != 0))
    ensures !c.op.ReadVbiasControl? && !c.op.SetVbiasControl? ==> forall readback: u32 :: Answers(v, c, readback)
    ensures Answers(v, c, if c.op.SetVbiasControl? then c.value else v.dac.levels.vbias)
    ensures forall readback: u32 :: DeviceAnswers(v, c, readback)
  {
    hide AlignedView, FrontendView.Reset, FrontendView.Power, FrontendView.VbiasSet;
  }

  lemma FunctionMeaning(v: FrontendView, s: StagedConfig, c: Command, name: string)
    requires c.op == Op.WriteFunction && c.value <= 0xFFFF
    requires FunctionName(c).Ok? && name == Protocol.Text(FunctionName(c).value)
    ensures Acceptable(s, c) <==> c.afePl < AFE_COUNT && Writable(FieldValue(name, c.value))
    ensures c.afePl < AFE_COUNT ==>
      forall w :: Means(v, s, c, w) <==> w == WithField(v, c.afePl, FieldValue(name, c.value))
    ensures forall readback: u32 :: Answers(v, c, readback)
    ensures Writable(FieldValue(name, c.value)) ==> forall readback: u32 ::
      DeviceAnswers(v, c, readback) <==> FieldOf(FieldValue(name, c.value)).register != 0 ==> readback == c.value
  {
    hide FunctionName, WithField, Writable, FieldOf;
  }

  predicate IsStagingOp(op: Op) {
    op.BeginConfigureFrontend? || op.ConfigureAfe? || op.ConfigureChannel?
  }

  /** Frames that only stage change no value and reach no device. */
  lemma StagingCarried(v: FrontendView, quiet: bool, s: StagedConfig, c: Command)
    ensures IsStagingOp(c.op) ==> Acceptable(s, c) && Carried(v, quiet, s, c, v, quiet, None)
  {
    hide Did;
    if IsStagingOp(c.op) {
      DidFromHere(v, quiet, s, c, v);
    }
  }

  lemma ApplyMeaning(v: FrontendView, s: StagedConfig, c: Command)
    requires c.op.ApplyConfigureFrontend?
    ensures Acceptable(s, c) == Applicable(s)
    ensures Meaning(v, s, c) == if Applicable(s) then AfterApply(v, s) else v
    ensures forall w :: Means(v, s, c, w) <==> w == Meaning(v, s, c)
    ensures forall w: FrontendView, readback: u32 :: DeviceAnswers(w, c, readback)
  {
    hide AfterApply, Applicable;
  }

  /** The frame makes the runtime call a hardware method that can reach the
      devices. */
  predicate ReachesDevices(s: Protocol.Rpu, c: Command) {
    || (IsAfeOp(c.op) && c.target.ToAfe?)
    || IsChannelOp(c.op) || IsBoardOp(c.op)
    || (c.op == Op.WriteFunction && c.target.ToAfe? && FunctionName(c).Ok? && c.value <= 0xFFFF)
    || (c.op.ApplyConfigureFrontend? && Protocol.ApplyReachesDevices(s))
  }

  function Finished(r: Result<u32, MmioError>): Outcome {
    match r case Ok(value) => Protocol.Done(value) case Err(_) => Protocol.Failed
  }

  function Settling(r: Result<(), MmioError>): Outcome {
    match r case Ok(_) => Protocol.Done(0) case Err(_) => Protocol.Failed
  }

  class RpuRuntime {
    const hardware: AfeMmioBackend
    var heartbeat: u64
    var interlock: Protocol.Interlock
    var configState: Protocol.ConfigState

    ghost predicate Valid()
      reads this, hardware, hardware.io
    {
      hardware.Valid()
    }

    /** The runtime and the backend's staging area as the protocol sees them. */
    ghost function State(): Protocol.Rpu
      reads this, hardware
    {
      Protocol.Rpu(heartbeat, interlock, configState, hardware.staged)
    }

    constructor (hardware: AfeMmioBackend)
      requires hardware.Valid()
      ensures Valid() && this.hardware == hardware
      ensures State() == Protocol.START.(staged := hardware.staged)
    {
      this.hardware := hardware;
      heartbeat := 0;
      interlock := Protocol.DOWN;
      configState := Protocol.NO_CONFIG;
    }

    method SetInterlock(interlock: Protocol.Interlock)
      modifies this`interlock
      ensures this.interlock == interlock
    {
      this.interlock := interlock;
    }

    // ---------- operations that reach the devices ----------

    method CallAfe(c: Command) returns (hw: Outcome)
      requires Valid() && IsAfeOp(c.op)
      modifies hardware, hardware.io
      ensures Valid() && hardware.staged == old(hardware.staged)
      ensures hw.Done? ==>
        Carried(old(hardware.View()), old(Quiet(hardware.io.board)), hardware.staged, c,
                hardware.View(), Quiet(hardware.io.board), Told(c, hw))
      ensures old(Willing(hardware, c)) && Acceptable(hardware.staged, c) ==> hw.Done?
    {
      hide Meaning, Means, DeviceAnswers, Acceptable, WithRegister, StepLevel, Quiet, AfeMmioBackend.View, Did;
      hide Strands, FrontendView.Driven;
      ghost var v, quiet, b := hardware.View(), Quiet(hardware.io.board), hardware.io.board;
      AfeOpMeaning(v, hardware.staged, c);
      hardware.ViewPins();
      match c.op {
        case ReadRegister =>
          var r := hardware.ReadRegister(c.afePl, c.register);
          hw := Finished(r);
        case WriteRegister =>
          var r := hardware.WriteRegister(c.afePl, c.register, c.value);
          hw := Finished(r);
        case ReadAttenuation =>
          var r := hardware.ReadScalar(c.op, c.afePl);
          hw := Finished(r);
        case ReadBias =>
          var r := hardware.ReadScalar(c.op, c.afePl);
          hw := Finished(r);
        case SetAttenuation =>
          var r := hardware.WriteScalar(c.op, c.afePl, c.value);
          hw := Finished(r);
        case SetBias =>
          var r := hardware.WriteScalar(c.op, c.afePl, c.value);
          hw := Finished(r);
      }
      if hw.Done? {
        AfeOpAnswers(hardware.View(), c, hw.readback);
        if c.op.SetAttenuation? || c.op.SetBias? {
          ghost var output := if c.op.SetAttenuation? then Gain(c.afePl) else Bias(c.afePl);
          StrandsFound(b, v, output);
          AfeOpMeaning(v.Driven(Strands(b, output)), hardware.staged, c);
          DidWith(v, quiet, hardware.staged, c, hardware.View(), Strands(b, output));
        } else if quiet || !IsRegisterOp(c.op) {
          DidFromHere(v, quiet, hardware.staged, c, hardware.View());
        }
      }
    }

    /** What a write finds stranded. */
    lemma StrandsFound(b: Board, v: FrontendView, output: Output)
      requires IsOutput(output) && v.dac.outputs == b.outputs
      ensures Found(v, Quiet(b), true, Strands(b, output))
    {
      hide Settled, OthersDriven;
    }

    method CallFunction(c: Command, name: string) returns (hw: Outcome)
      requires Valid() && c.op == Op.WriteFunction && c.value <= 0xFFFF
      requires FunctionName(c).Ok? && name == Protocol.Text(FunctionName(c).value)
      modifies hardware.io
      ensures Valid()
      ensures hw.Done? ==>
        Carried(old(hardware.View()), old(Quiet(hardware.io.board)), hardware.staged, c,
                hardware.View(), Quiet(hardware.io.board), Told(c, hw))
      ensures old(Willing(hardware, c)) && Acceptable(hardware.staged, c) ==> hw.Done?
    {
      hide FunctionName, Writable, WriteField, FieldOf, Meaning, Means, DeviceAnswers, Acceptable, Answers, Settled;
      hide Did;
      ghost var v, quiet := hardware.View(), Quiet(hardware.io.board);
      FunctionMeaning(hardware.View(), hardware.staged, c, name);
      var r := hardware.WriteAfeFunction(c.afePl, name, c.value);
      hw := Finished(r);
      FunctionMeaning(hardware.View(), hardware.staged, c, name);
      if hw.Done? && quiet {
        DidFromHere(v, quiet, hardware.staged, c, hardware.View());
      }
    }

    method CallChannels(c: Command) returns (hw: Outcome)
      requires Valid() && IsChannelOp(c.op)
      modifies hardware, hardware.io
      ensures Valid() && hardware.staged == old(hardware.staged)
      ensures hw.Done? ==>
        Carried(old(hardware.View()), old(Quiet(hardware.io.board)), hardware.staged, c,
                hardware.View(), Quiet(hardware.io.board), Told(c, hw))
      ensures old(Willing(hardware, c)) && Acceptable(hardware.staged, c) ==> hw.Done?
    {
      hide PairWrites, PairDac.Run, Writable, WriteField, FunctionName, AfterApply, Applicable, Did, Settled;
      ghost var v, quiet := hardware.View(), Quiet(hardware.io.board);
      if c.op.ReadTrim? || c.op.ReadOffset? {
        var r := hardware.ReadChannelScalar(c);
        hw := Finished(r);
      } else {
        var r := hardware.WriteChannelScalar(c);
        hw := Finished(r);
      }
      if hw.Done? {
        DidFromHere(v, quiet, hardware.staged, c, hardware.View());
      }
    }

    method CallBoard(c: Command) returns (hw: Outcome)
      requires Valid() && IsBoardOp(c.op)
      modifies hardware, hardware.io
      ensures Valid() && hardware.staged == old(hardware.staged)
      ensures hw.Done? ==>
        Carried(old(hardware.View()), old(Quiet(hardware.io.board)), hardware.staged, c,
                hardware.View(), Quiet(hardware.io.board), Told(c, hw))
      ensures old(Willing(hardware, c)) && Acceptable(hardware.staged, c) ==> hw.Done?
    {
      hide Meaning, Means, DeviceAnswers, Acceptable, Answers, BitIsSet, Settled, AlignedView;
      hide FrontendView.Reset, FrontendView.Power, FrontendView.VbiasSet, AfeMmioBackend.View, Quiet;
      hide Did, Strands, FrontendView.Driven;
      hardware.ViewVbias();
      ghost var v, quiet, b := hardware.View(), Quiet(hardware.io.board), hardware.io.board;
      hardware.ViewPins();
      BoardOpMeaning(v, hardware.staged, c);
      match c.op {
        case ReadVbiasControl =>
          hw := Protocol.Done(hardware.vbiasControl);
        case SetVbiasControl =>
          var r := hardware.WriteVbiasControl(c.value, c.flags != 0);
          hw := Finished(r);
        case SetReset =>
          var r := hardware.SetReset(c.flags != 0);
          hw := Settling(r);
        case DoReset =>
          var r := hardware.DoReset();
          hw := Settling(r);
        case SetPowerState =>
          var r := hardware.SetPowerState(c.flags != 0);
          hw := Settling(r);
        case Align =>
          var r := hardware.Align();
          hw := Settling(r);
      }
      BoardOpMeaning(hardware.View(), hardware.staged, c);
      if hw.Done? {
        if c.op.SetVbiasControl? {
          StrandsFound(b, v, Vbias);
          BoardOpMeaning(v.Driven(Strands(b, Vbias)), hardware.staged, c);
          DidWith(v, quiet, hardware.staged, c, hardware.View(), Strands(b, Vbias));
        } else {
          DidFromHere(v, quiet, hardware.staged, c, hardware.View());
        }
      }
    }

    // ---------- commands ----------

    method ApplyCommand(c: Command) returns (r: Answer, ghost hw: Outcome)
      requires Valid() && !c.op.ReadAlignment?
      modifies this`configState, hardware, hardware.io
      ensures Valid()
      ensures (State(), r) == Protocol.ApplyCommand(old(State()), c, hw)
      ensures !ReachesDevices(old(State()), c) ==> unchanged(hardware.io) && hardware.View() == old(hardware.View())
      ensures old(Willing(hardware, c)) && Acceptable(old(hardware.staged), c) ==> hw.Done?
      ensures r.Ok? && !c.op.Status? ==>
        Carried(old(hardware.View()), old(Quiet(hardware.io.board)), old(hardware.staged), c,
                hardware.View(), Quiet(hardware.io.board), r.value)
    {
      hide Carried, Acceptable, Quiet, AfeMmioBackend.View, Did;
      hw := Protocol.Done(0);
      StagingCarried(hardware.View(), Quiet(hardware.io.board), hardware.staged, c);
      if c.op.Status? {
        r := Ok(Some(interlock.Code()));
      } else if IsAfeOp(c.op) {
        if !c.target.ToAfe? {
          return Err(Protocol.Refused), hw;
        }
        var outcome := CallAfe(c);
        r, hw := Protocol.Readback(outcome), outcome;
      } else if IsChannelOp(c.op) {
        var outcome := CallChannels(c);
        r, hw := Protocol.Readback(outcome), outcome;
      } else if IsBoardOp(c.op) {
        var outcome := CallBoard(c);
        r := if c.op.ReadVbiasControl? || c.op.SetVbiasControl? then Protocol.Readback(outcome)
             else Protocol.Acknowledged(outcome);
        hw := outcome;
      } else if c.op == Op.WriteFunction {
        if !c.target.ToAfe? || FunctionName(c).Err? || c.value > 0xFFFF {
          return Err(Protocol.Refused), hw;
        }
        var outcome := CallFunction(c, Protocol.Text(FunctionName(c).value));
        r, hw := Protocol.Readback(outcome), outcome;
      } else if c.op.ApplyConfigureFrontend? {
        r, hw := Apply(c);
      } else {
        r := Stage(c);
      }
    }

    /** Begin and record frames: nothing but the counters and the staging area
        changes. */
    method Stage(c: Command) returns (r: Answer)
      requires Valid() && IsStagingOp(c.op)
      modifies this`configState, hardware`staged
      ensures Valid()
      ensures forall hw :: (State(), r) == Protocol.ApplyCommand(old(State()), c, hw)
      ensures hardware.View() == old(hardware.View()) && (r.Ok? ==> r.value.None?)
    {
      match c.op {
        case BeginConfigureFrontend =>
          var counts := ConfigureCounts(c);
          if counts.Err? {
            return Err(Protocol.Refused);
          }
          var _ := hardware.BeginConfigureFrontend(counts.value);
          configState := Protocol.BeginConfig(counts.value);
        case ConfigureAfe =>
          var config := AfeConfig(c);
          if config.Err? || !configState.AfeSlotFree() {
            return Err(Protocol.Refused);
          }
          var staged := hardware.StageAfe(config.value);
          if staged.Err? {
            return Err(Protocol.HardwareFault);
          }
          configState := configState.(receivedAfes := configState.receivedAfes + 1);
        case ConfigureChannel =>
          var config := ChannelConfig(c);
          if config.Err? || !configState.ChannelSlotFree() {
            return Err(Protocol.Refused);
          }
          var staged := hardware.StageChannel(config.value);
          if staged.Err? {
            return Err(Protocol.HardwareFault);
          }
          configState := configState.(receivedChannels := configState.receivedChannels + 1);
      }
      r := Ok(None);
    }

    method Apply(ghost c: Command) returns (r: Answer, ghost hw: Outcome)
      requires Valid() && c.op.ApplyConfigureFrontend?
      modifies this`configState, hardware, hardware.io
      ensures Valid()
      ensures (State(), r) == Protocol.ApplyStaged(old(State()), hw)
      ensures !Protocol.ApplyReachesDevices(old(State())) ==>
        unchanged(hardware.io) && hardware.View() == old(hardware.View())
      ensures r.Ok? ==>
        Carried(old(hardware.View()), old(Quiet(hardware.io.board)), old(hardware.staged), c,
                hardware.View(), Quiet(hardware.io.board), r.value)
      ensures hardware.io.env.Responsive(hardware.spinLimit) && Acceptable(old(hardware.staged), c) ==> hw.Done?
    {
      hide Meaning, Means, Acceptable, DeviceAnswers, AfterApply, Applicable, Answers, Quiet, Did, Strands;
      hide AfeMmioBackend.View, FrontendView.Driven;
      hw := Protocol.Done(0);
      ghost var v, quiet, b, s := hardware.View(), Quiet(hardware.io.board), hardware.io.board, hardware.staged;
      hardware.ViewPins();
      StrandsFound(b, v, Vbias);
      ApplyMeaning(v.Driven(Strands(b, Vbias)), s, c);
      if !configState.Complete() {
        return Err(Protocol.Refused), hw;
      }
      var applied := hardware.ApplyConfigureFrontend();
      if applied.Err? {
        return Err(Protocol.HardwareFault), Protocol.Failed;
      }
      DidWith(v, quiet, s, c, hardware.View(), Strands(b, Vbias));
      configState := Protocol.NO_CONFIG;
      r := Ok(None);
    }

    method HandleCommand(c: Command) returns (reply: Reply, ghost hw: Outcome)
      requires Valid() && !c.op.ReadAlignment?
      modifies this`configState, hardware, hardware.io
      ensures Valid()
      ensures (State(), reply) == Protocol.HandleCommand(old(State()), c, hw)
      ensures !interlock.ReadyForAfe() || c.op.Status? || !ReachesDevices(old(State()), c) ==>
        unchanged(hardware.io) && hardware.View() == old(hardware.View())
      ensures old(Willing(hardware, c)) && Acceptable(old(hardware.staged), c) ==> hw.Done?
      ensures reply.status.Applied? && !c.op.Status? ==>
        Carried(old(hardware.View()), old(Quiet(hardware.io.board)), old(hardware.staged), c,
                hardware.View(), Quiet(hardware.io.board), reply.readback)
    {
      hide Carried, Acceptable, ReachesDevices, Quiet, AfeMmioBackend.View, Protocol.ApplyCommand;
      hw := Protocol.Done(0);
      var code := interlock.Code();
      if c.op.Status? {
        var status := if interlock.faultCode == 0 then Applied else Fault;
        return Reply(c.sequence, status, Some(code), heartbeat, interlock.faultCode, code), hw;
      }
      if !interlock.ReadyForAfe() {
        return Reply(c.sequence, Interlocked, None, heartbeat, interlock.faultCode, code), hw;
      }
      var answer;
      answer, hw := ApplyCommand(c);
      reply := match answer
        case Ok(readback) => Reply(c.sequence, Applied, readback, heartbeat, 0, 0)
        case Err(Refused) => Reply(c.sequence, Rejected, None, heartbeat, 0, 0)
        case Err(HardwareFault) => Reply(c.sequence, Fault, None, heartbeat, 1, code);
    }

    /** One frame in, one frame out. The devices are reached only by a frame
        that decodes, under an interlock that is ready. */
    method HandleFrame(frame: Frame) returns (answer: Frame, ghost reply: Reply, ghost hw: Outcome)
      requires Valid() && Protocol.Supported(frame)
      modifies this, hardware, hardware.io
      ensures Valid() && interlock == old(interlock)
      ensures answer == EncodedReply(reply)
      ensures (State(), reply) == Protocol.HandleFrame(old(State()), frame, hw)
      ensures Protocol.Answers(old(State()), frame, hw, reply)
      ensures var decoded := DecodeCommand(frame);
        && (decoded.Err? || !interlock.ReadyForAfe() || !ReachesDevices(old(State()), decoded.value) ==>
              unchanged(hardware.io) && hardware.View() == old(hardware.View()))
        && (decoded.Ok? && old(Willing(hardware, decoded.value)) && Acceptable(old(hardware.staged), decoded.value) ==>
              hw.Done?)
        && (decoded.Ok? && reply.status.Applied? && !decoded.value.op.Status? ==>
              Carried(old(hardware.View()), old(Quiet(hardware.io.board)), old(hardware.staged), decoded.value,
                      hardware.View(), Quiet(hardware.io.board), reply.readback))
    {
      hide Carried, Acceptable, Quiet, AfeMmioBackend.View, DecodeCommand, EncodedReply, Protocol.Answers;
      ghost var s := State();
      heartbeat := Protocol.Beat(heartbeat);
      var decoded := DecodeCommand(frame);
      if decoded.Ok? {
        var r;
        r, hw := HandleCommand(decoded.value);
        answer, reply := EncodedReply(r), r;
      } else {
        reply, hw := Reply(0, Rejected, None, heartbeat, 0, interlock.Code()), Protocol.Done(0);
        answer := EncodedReply(Reply(0, Rejected, None, heartbeat, 0, interlock.Code()));
      }
      Protocol.FrameAnswered(s, frame, hw);
    }
  }
}
