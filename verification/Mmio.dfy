/** The MMIO backend: cached values, staged configuration and the operations
    on them (crates/daphne-sc-rpu/src/mmio.rs). */
module Mmio {
  import opened Words
  import opened Afe
  import opened AfeFunctions
  import opened AfeHw
  import opened Board
  import opened DacOutputs
  import opened PairedDacs
  import opened Wire
  import opened Records
  import opened Frontend
  import opened Staging
  import opened BusOps
  import Alignment

  /** No SPI or DAC transaction was cut off half-way. */
  ghost predicate Quiet(b: Board) {
    Settled(b.latches, b.outputs) && ChipsIdle(b)
  }

  ghost predicate ChipsIdle(b: Board) {
    forall afe :: 0 <= afe < 5 ==> b.spi[afe].Idle()
  }

  /** The pins once the next write to an output has driven the words that other
      chips still have latched: those there are, if the DAC chips are settled. */
  ghost function Strands(b: Board, output: Output): (pins: Outputs)
    requires IsOutput(output)
    ensures Settled(b.latches, b.outputs) ==> pins == b.outputs
  {
    if Settled(b.latches, b.outputs) then
      OthersSettled(b.latches, b.outputs, Route(output).chip);
      OthersDriven(b.latches, b.outputs, Route(output).chip)
    else
      OthersDriven(b.latches, b.outputs, Route(output).chip)
  }

  lemma SameStrands(b: Board, c: Board, output: Output)
    requires IsOutput(output) && b.latches == c.latches && b.outputs == c.outputs
    ensures Strands(b, output) == Strands(c, output)
  {
    hide Settled, OthersDriven;
  }

  function FilesOf(b: Board): Files {
    [b.spi[0].file, b.spi[1].file, b.spi[2].file, b.spi[3].file, b.spi[4].file]
  }

  function LinesOf(b: Board): Lines {
    Lines(BitIsSet(b.control, AFE_GLOBAL_RESET_BIT), BitIsSet(b.control, AFE_GLOBAL_POWERSTATE_BIT), b.biasEnable)
  }

  function TimingOf(b: Board, frames: seq<seq<Capture>>): Timing {
    Timing(Alignment.VtcOn(b), b.delay, b.bitslip, b.resets, frames)
  }

  /** The first `k` function writes of a record went to `file`. */
  ghost predicate HalfConfigured(b: Board, c: AfeRecord, k: nat, file: RegisterFile)
    requires k <= 12
  {
    c.afePl < AFE_COUNT && Quiet(b) && WritableUpTo(c, k) && b.spi[c.afePl].file == FieldsUpTo(file, c, k)
  }

  predicate IsPairOp(op: Op) {
    op.SetTrim? || op.SetOffset?
  }

  function StepLevel(v: FrontendView, w: LevelWrite): FrontendView
    requires InRange(w)
  {
    v.(dac := v.dac.Step(w))
  }

  /** Register 0 of an AFE cannot be set: the idle word clears it again. */
  function WithRegister(v: FrontendView, afe: nat, register: u16, value: u16): FrontendView
    requires afe < 5
  {
    var k := register % 0x100;
    if k == 0 then v else v.(files := v.files[afe := v.files[afe][k := value]])
  }

  /** Every AFE is aligned by the words captured in between, the receiver was
      reset once, VTC is on, and nothing else moved. */
  ghost predicate AlignedView(v: FrontendView, w: FrontendView) {
    && w == v.(timing := w.timing) && w.timing.vtc
    && w.timing.resets == Resets(v.timing.resets.delayctrl + 1, v.timing.resets.serdes + 1)
    && |v.timing.frames| == |w.timing.frames| == 5
    && forall a :: 0 <= a < 5 ==>
         && v.timing.frames[a] <= w.timing.frames[a]
         && Alignment.Aligned(w.timing.frames[a][|v.timing.frames[a]|..], w.timing.delay[a], w.timing.bitslip[a])
  }

  function FunctionError(error: AfeFunctionError, value: u16): MmioError {
    match error
    case UnknownName => InvalidFunction
    case InvalidValue => MmioError.InvalidValue(value)
    case InvalidBitField => InvalidFunctionField
  }

  class AfeMmioBackend {
    const io: RegisterBus
    const spinLimit: u32
    var attenuation: Five
    var bias: Five
    var trimHalves: AllHalves
    var offsetHalves: AllHalves
    var vbiasControl: u16
    var vbiasEnabled: bool
    var staged: StagedConfig

    constructor (io: RegisterBus, spinLimit: u32)
      ensures this.io == io && this.spinLimit == spinLimit && staged == UNSTAGED
      ensures attenuation == bias == [0, 0, 0, 0, 0] && vbiasControl == 0 && !vbiasEnabled
      ensures trimHalves == offsetHalves == [NO_HALVES, NO_HALVES, NO_HALVES, NO_HALVES, NO_HALVES]
    {
      this.io := io;
      this.spinLimit := spinLimit;
      attenuation := [0, 0, 0, 0, 0];
      bias := [0, 0, 0, 0, 0];
      trimHalves := [NO_HALVES, NO_HALVES, NO_HALVES, NO_HALVES, NO_HALVES];
      offsetHalves := [NO_HALVES, NO_HALVES, NO_HALVES, NO_HALVES, NO_HALVES];
      vbiasControl := 0;
      vbiasEnabled := false;
      staged := UNSTAGED;
    }

    ghost function View(): FrontendView
      reads this, io
    {
      FrontendView(PairDac(trimHalves, io.board.trim), PairDac(offsetHalves, io.board.offset),
                   DacState(Levels(attenuation, bias, vbiasControl), io.board.outputs),
                   vbiasEnabled, FilesOf(io.board), io.board.afterReset, LinesOf(io.board),
                   TimingOf(io.board, io.frames))
    }

    ghost predicate SaneCaches()
      reads this`trimHalves, this`offsetHalves
    {
      SaneHalves(trimHalves) && SaneHalves(offsetHalves)
    }

    /** Staging checked the AFE of every record it kept, and the cached halves
        carry their addresses. */
    ghost predicate Valid()
      reads this, io
    {
      && io.Valid() && SaneCaches()
      && forall i :: 0 <= i < 5 && staged.afes[i].Some? ==> staged.afes[i].value.afePl < AFE_COUNT
    }

    lemma ViewPins()
      ensures View().dac.outputs == io.board.outputs
    {}

    lemma ViewVbias()
      ensures View().dac.levels.vbias == vbiasControl
    {}

    // ---------- trim and offset ----------

    ghost function Side(op: Op): PairDac
      reads this, io
    {
      if op.SetTrim? then PairDac(trimHalves, io.board.trim) else PairDac(offsetHalves, io.board.offset)
    }

    ghost function OtherSide(op: Op): PairDac
      reads this, io
    {
      if op.SetTrim? then PairDac(offsetHalves, io.board.offset) else PairDac(trimHalves, io.board.trim)
    }

    /** Sends the pair a channel belongs to. The cache is updated first, and
        stays updated when the transfer fails. */
    method WriteTrimOrOffsetChannel(op: Op, afePl: u8, afeChannel: u8, value: u16, gain: bool)
      returns (r: Result<(), MmioError>)
      requires io.Valid() && value <= DAC_12BIT_MAX
      modifies this`trimHalves, this`offsetHalves, io
      ensures io.Valid() && io.frames == old(io.frames)
      ensures io.board == old(io.board).(trim := io.board.trim, offset := io.board.offset)
      ensures !IsPairOp(op) ==> r == Err(Unsupported)
      ensures IsPairOp(op) && afePl >= AFE_COUNT ==> r == Err(InvalidAfe(afePl))
      ensures IsPairOp(op) && afePl < AFE_COUNT && afeChannel >= CHANNELS_PER_AFE ==>
        r == Err(InvalidChannel(afeChannel))
      ensures !IsPairOp(op) || afePl >= AFE_COUNT || afeChannel >= CHANNELS_PER_AFE ==>
        View() == old(View()) && io.tick == old(io.tick)
      // the cache takes the value, the DACs only if the word arrives
      ensures IsPairOp(op) && afePl < AFE_COUNT && afeChannel < CHANNELS_PER_AFE ==>
        var w := PairWrite(Place(afePl, afeChannel), value, gain);
        var before, arrives := old(Side(op)), Arrives(io.env, old(io.tick), spinLimit);
        && Side(op).halves == before.Cached(w) && OtherSide(op) == old(OtherSide(op))
        && Side(op).banks == (if arrives then before.Step(w).banks else before.banks)
        && (r.Ok? <==> Reported(io.env, old(io.tick), spinLimit))
      ensures old(SaneCaches()) ==> SaneCaches()
      ensures r.Ok? ==>
        && IsPairOp(op) && afePl < AFE_COUNT && afeChannel < CHANNELS_PER_AFE
        && Side(op) == old(Side(op)).Step(PairWrite(Place(afePl, afeChannel), value, gain))
      ensures io.env.Responsive(spinLimit) && IsPairOp(op) && afePl < AFE_COUNT && afeChannel < CHANNELS_PER_AFE ==>
        r.Ok?
    {
      hide BankWrite, DacPairWord, DacTrimOffsetHalf, Board.Write, Arrives, Reported, Environment.Responsive;
      hide Environment.AfeIdleAt, SaneCaches, PairDac.Cached, FilesOf, LinesOf, TimingOf, PortOf, Answer;
      if !IsPairOp(op) {
        return Err(Unsupported);
      }
      var offset :- OffsetOf(if op.SetTrim? then AfeDacTrimOffset(afePl) else AfeDacOffsetOffset(afePl), afePl);
      OffsetsSelectTheirPorts(afePl);
      var companion :- ChannelOf(DacCompanionChannel(afeChannel), afeChannel);
      var half := DacTrimOffsetHalf(afeChannel, value, gain);
      var halves := CacheHalf(op, PairWrite(Place(afePl, afeChannel), value, gain), half);
      var companionHalf := halves[companion];
      var word := if DacChannelIsHighHalf(afeChannel) then DacPairWord(companionHalf, half)
                  else DacPairWord(half, companionHalf);
      assert word == PairedWord(halves, afeChannel);
      PairPortsWritten(io.board, afePl, word);

      r := SendPair(io, spinLimit, offset, word);
    }

    /** Puts a half into the cache of its side. */
    method CacheHalf(op: Op, w: PairWrite, half: u16) returns (halves: Halves)
      requires IsPairOp(op) && w.place.Exists() && w.value <= DAC_12BIT_MAX
      requires half == DacTrimOffsetHalf(w.place.channel, w.value, w.gain)
      modifies this`trimHalves, this`offsetHalves
      ensures halves == Side(op).halves[w.place.afe] && halves[w.place.channel] == half
      ensures Side(op) == old(Side(op)).(halves := old(Side(op)).Cached(w)) && OtherSide(op) == old(OtherSide(op))
      ensures old(SaneCaches()) ==> SaneCaches()
    {
      hide DacTrimOffsetHalf, SaneHalves;
      if SaneHalves(Side(op).halves) {
        CacheStaysSane(Side(op), w);
      }
      if op.SetTrim? {
        halves := trimHalves[w.place.afe][w.place.channel := half];
        trimHalves := trimHalves[w.place.afe := halves];
      } else {
        halves := offsetHalves[w.place.afe][w.place.channel := half];
        offsetHalves := offsetHalves[w.place.afe := halves];
      }
    }

    /** The cached value of a channel, without its address and gain bits. */
    method ReadTrimOrOffsetChannel(op: Op, afePl: u8, afeChannel: u8) returns (r: Result<u32, MmioError>)
      ensures var place := Place(afePl, afeChannel);
        r == if afePl >= AFE_COUNT then Err(InvalidAfe(afePl))
             else if afeChannel >= CHANNELS_PER_AFE then Err(InvalidChannel(afeChannel))
             else if op.ReadTrim? then Ok(View().trim.Value(place))
             else if op.ReadOffset? then Ok(View().offset.Value(place))
             else Err(Unsupported)
    {
      if afePl >= AFE_COUNT {
        return Err(InvalidAfe(afePl));
      }
      if afeChannel >= CHANNELS_PER_AFE {
        return Err(InvalidChannel(afeChannel));
      }
      if !op.ReadTrim? && !op.ReadOffset? {
        return Err(Unsupported);
      }
      var halves := if op.ReadTrim? then trimHalves[afePl] else offsetHalves[afePl];
      r := Ok(halves[afeChannel] % 0x1000);
    }

    // ---------- gain, bias and VBIAS ----------

    /** Drives a DAC output and then caches its level. */
    method WriteLevel(output: Output, value: u16) returns (r: Result<(), MmioError>)
      requires io.Valid() && IsOutput(output) && value <= DAC_12BIT_MAX && !output.Vbias?
      modifies this`attenuation, this`bias, io
      ensures io.Valid() && io.frames == old(io.frames)
      ensures io.board == old(io.board).(dacControl := io.board.dacControl, latches := io.board.latches,
                                         outputs := io.board.outputs)
      // the cache takes the level only if everything succeeds
      ensures r.Ok? <==> DriveEnds(io.env, old(io.tick), spinLimit)
      ensures View().dac.levels == if r.Ok? then old(View()).dac.levels.Set(output, value) else old(View()).dac.levels
      ensures spinLimit > 0 && LatchesWord(io.env, old(io.tick), spinLimit) ==>
        io.tick > io.env.DacIdleAt(old(io.tick), spinLimit).value + 2
      // the chip latches the word and drives the pin as soon as it gets that far
      ensures io.board.latches == if LatchesWord(io.env, old(io.tick), spinLimit)
                                  then old(io.board.latches)[Route(output).chip :=
                                                               DacGainBiasWord(Route(output), value)]
                                  else old(io.board.latches)
      ensures io.board.outputs == if Drives(io.env, old(io.tick), spinLimit)
                                  then Transfer(io.board.latches, old(io.board.outputs)) else old(io.board.outputs)
      ensures Drives(io.env, old(io.tick), spinLimit) && old(Quiet(io.board)) ==>
        Quiet(io.board) && io.board.outputs == old(io.board.outputs)[Route(output) := value]
      ensures r.Ok? ==>
        && Settled(io.board.latches, io.board.outputs)
        && View() == StepLevel(old(View()).Driven(Strands(old(io.board), output)), LevelWrite(output, value))
      ensures r.Ok? && old(Quiet(io.board)) ==>
        Quiet(io.board) && View() == StepLevel(old(View()), LevelWrite(output, value))
      ensures io.env.Responsive(spinLimit) ==> r.Ok?
    {
      hide Settled, Transfer, DacGainBiasWord, OthersDriven;
      RoutesAreInjective(output, output);
      var _ :- WriteDacRoute(io, spinLimit, Route(output), value);
      match output {
        case Gain(afe) => attenuation := attenuation[afe := value];
        case Bias(afe) => bias := bias[afe := value];
      }
      r := Ok(());
    }

    method WriteVbiasControl(value: u32, enable: bool) returns (r: Result<u32, MmioError>)
      requires io.Valid()
      modifies this`vbiasControl, this`vbiasEnabled, io
      ensures io.Valid() && io.frames == old(io.frames)
      ensures io.board == old(io.board).(dacControl := io.board.dacControl, latches := io.board.latches,
                                         outputs := io.board.outputs, biasEnable := io.board.biasEnable)
      ensures value > DAC_12BIT_MAX ==> r == Err(MmioError.InvalidValue(value)) && io.board == old(io.board)
      ensures r.Err? ==> vbiasControl == old(vbiasControl) && vbiasEnabled == old(vbiasEnabled)
      ensures r.Ok? ==>
        && value <= DAC_12BIT_MAX && r.value == value
        && View().lines == old(View()).lines.(biasEnable := if enable then 1 else 0)
      ensures r.Ok? ==>
        && Settled(io.board.latches, io.board.outputs)
        && View() == old(View()).Driven(Strands(old(io.board), Vbias)).VbiasSet(value, enable)
      ensures r.Ok? && old(Quiet(io.board)) ==> Quiet(io.board)
      ensures io.env.Responsive(spinLimit) && value <= DAC_12BIT_MAX ==> r.Ok?
    {
      hide LatchesWord, Drives, DriveEnds, Transfer, Settled, DacGainBiasWord, OthersDriven;
      var level :- Require12Bit(value);
      var _ :- WriteDacRoute(io, spinLimit, VBIAS_DAC_ROUTE, level);
      var _ :- Write(io, BIAS_ENABLE_OFFSET, if enable then 1 else 0);
      vbiasControl := level;
      vbiasEnabled := enable;
      r := Ok(level);
    }

    // ---------- AFE functions ----------

    /** Reads, modifies and writes one field of an AFE register. */
    method WriteAfeFunction(afePl: u8, name: string, value: u16) returns (r: Result<u32, MmioError>)
      requires io.Valid()
      modifies io
      ensures io.Valid() && io.frames == old(io.frames)
      // a bad AFE, name, value or field is refused before any access
      ensures afePl >= AFE_COUNT ==> r == Err(InvalidAfe(afePl))
      ensures var spec := ValidateAfeFunctionValue(name, value);
        && (afePl < AFE_COUNT && spec.Err? ==> r == Err(FunctionError(spec.error, value)))
        && (afePl < AFE_COUNT && spec.Ok? && !WellFormed(spec.value.field) ==> r == Err(InvalidFunctionField))
      ensures afePl >= AFE_COUNT || !Writable(FieldValue(name, value)) ==>
        io.tick == old(io.tick) && io.board == old(io.board)
      // only the chip addressed can change
      ensures afePl < AFE_COUNT ==> io.board == old(io.board).(spi := old(io.board.spi)[afePl := io.board.spi[afePl]])
      ensures r.Ok? ==> afePl < AFE_COUNT && Writable(FieldValue(name, value)) && io.board.spi[afePl].Idle()
      ensures r.Ok? && old(Quiet(io.board)) ==>
        && Quiet(io.board)
        && io.board.spi[afePl].file == WriteField(old(io.board.spi[afePl].file), FieldValue(name, value))
        && (FieldOf(FieldValue(name, value)).register != 0 ==> r.value == value)
      ensures io.env.Responsive(spinLimit) && afePl < AFE_COUNT && Writable(FieldValue(name, value)) ==> r.Ok?
    {
      if afePl >= AFE_COUNT {
        return Err(InvalidAfe(afePl));
      }
      var valid := ValidateAfeFunctionValue(name, value);
      if valid.Err? {
        return Err(FunctionError(valid.error, value));
      }
      var field := valid.value.field;
      if Mask(field).Err? {
        return Err(FunctionError(Mask(field).error, value));
      }
      ghost var current := io.board.spi[afePl].file[field.register];
      var readback :- UpdateAfeField(io, spinLimit, afePl, field, value);
      ValidatedFunctionReadsBack(current, name, value);
      r := Ok(readback);
    }

    // ---------- commands on one channel, one AFE or all ----------

    method ReadRegister(afePl: u8, register: u16) returns (r: Result<u32, MmioError>)
      requires io.Valid()
      modifies io
      ensures io.Valid() && io.frames == old(io.frames)
      ensures r.Ok? ==> afePl < AFE_COUNT && io.board.spi[afePl].Idle()
      ensures r.Ok? && old(Quiet(io.board)) ==>
        && Quiet(io.board) && View() == old(View())
        && (register % 0x100 != 0 ==> r.value == View().files[afePl][register % 0x100])
      ensures io.env.Responsive(spinLimit) && afePl < AFE_COUNT ==> r.Ok?
    {
      r := ReadAfeRegister(io, spinLimit, afePl, register);
    }

    method WriteRegister(afePl: u8, register: u16, value: u32) returns (r: Result<u32, MmioError>)
      requires io.Valid()
      modifies io
      ensures io.Valid() && io.frames == old(io.frames)
      ensures r.Ok? ==> afePl < AFE_COUNT && value <= 0xFFFF && io.board.spi[afePl].Idle()
      ensures r.Ok? && old(Quiet(io.board)) ==>
        && Quiet(io.board) && View() == WithRegister(old(View()), afePl, register, value)
        && (register % 0x100 != 0 ==> r.value == value)
      ensures io.env.Responsive(spinLimit) && afePl < AFE_COUNT && value <= 0xFFFF ==> r.Ok?
    {
      r := WriteAfeRegister(io, spinLimit, afePl, register, value);
    }

    method ReadScalar(op: Op, afePl: u8) returns (r: Result<u32, MmioError>)
      ensures r == if afePl >= AFE_COUNT then Err(InvalidAfe(afePl))
                   else if op.ReadAttenuation? then Ok(View().dac.levels.Level(Gain(afePl)))
                   else if op.ReadBias? then Ok(View().dac.levels.Level(Bias(afePl)))
                   else Err(Unsupported)
    {
      if afePl >= AFE_COUNT {
        return Err(InvalidAfe(afePl));
      }
      r := match op
           case ReadAttenuation => Ok(attenuation[afePl])
           case ReadBias => Ok(bias[afePl])
           case _ => Err(Unsupported);
    }

    method WriteScalar(op: Op, afePl: u8, value: u32) returns (r: Result<u32, MmioError>)
      requires io.Valid()
      modifies this`attenuation, this`bias, io
      ensures io.Valid() && io.frames == old(io.frames)
      ensures io.board == old(io.board).(dacControl := io.board.dacControl, latches := io.board.latches,
                                         outputs := io.board.outputs)
      ensures r.Err? ==> attenuation == old(attenuation) && bias == old(bias)
      ensures r.Ok? ==>
        && (op.SetAttenuation? || op.SetBias?) && afePl < AFE_COUNT
        && value <= DAC_12BIT_MAX && r.value == value
      ensures r.Ok? ==>
        var output := if op.SetAttenuation? then Gain(afePl) else Bias(afePl);
        View() == StepLevel(old(View()).Driven(Strands(old(io.board), output)), LevelWrite(output, value))
      ensures r.Ok? && old(Quiet(io.board)) ==> Quiet(io.board)
      ensures (op.SetAttenuation? || op.SetBias?) && afePl < AFE_COUNT && value <= DAC_12BIT_MAX ==>
        io.env.Responsive(spinLimit) ==> r.Ok?
    {
      if afePl >= AFE_COUNT {
        return Err(InvalidAfe(afePl));
      }
      var level :- Require12Bit(value);
      if !op.SetAttenuation? && !op.SetBias? {
        return Err(Unsupported);
      }
      var _ :- WriteLevel(if op.SetAttenuation? then Gain(afePl) else Bias(afePl), level);
      r := Ok(level);
    }

    method ReadChannelScalar(command: Command) returns (r: Result<u32, MmioError>)
      ensures r.Ok? ==>
        && command.target.ToChannel? && command.afePl < AFE_COUNT && command.afeChannel < CHANNELS_PER_AFE
        && (command.op.ReadTrim? || command.op.ReadOffset?)
        && r.value == (if command.op.ReadTrim? then View().trim else View().offset)
                        .Value(Place(command.afePl, command.afeChannel))
      ensures command.target.ToChannel? && (command.op.ReadTrim? || command.op.ReadOffset?) ==>
        command.afePl < AFE_COUNT && command.afeChannel < CHANNELS_PER_AFE ==> r.Ok?
    {
      if !command.target.ToChannel? {
        return Err(Unsupported);
      }
      r := ReadTrimOrOffsetChannel(command.op, command.afePl, command.afeChannel);
    }

    method WriteChannelScalar(command: Command) returns (r: Result<u32, MmioError>)
      requires io.Valid()
      modifies this`trimHalves, this`offsetHalves, io
      ensures io.Valid() && io.frames == old(io.frames)
      ensures io.board == old(io.board).(trim := io.board.trim, offset := io.board.offset)
      ensures r.Ok? ==>
        && IsPairOp(command.op) && PairCommand(command) && r.value == command.value
        && Side(command.op) == old(Side(command.op)).Run(PairWrites(command))
        && OtherSide(command.op) == old(OtherSide(command.op))
      ensures old(SaneCaches()) ==> SaneCaches()
      ensures io.env.Responsive(spinLimit) && IsPairOp(command.op) && PairCommand(command) ==> r.Ok?
    {
      var value :- Require12Bit(command.value);
      var gain := command.flags != 0;
      ghost var before := Side(command.op);
      match command.target {
        case ToChannel =>
          var _ :- WriteTrimOrOffsetChannel(command.op, command.afePl, command.afeChannel, value, gain);
          RunOne(before, PairWrites(command));
        case ToAfe =>
          if command.afePl >= AFE_COUNT {
            return Err(InvalidAfe(command.afePl));
          }
          var _ :- WriteAfeChannels(command.op, command.afePl, value, gain);
        case ToAll =>
          var _ :- WriteAllChannels(command.op, value, gain);
        case ToNone =>
          return Err(Unsupported);
      }
      r := Ok(value);
    }

    method WriteAllChannels(op: Op, value: u16, gain: bool) returns (r: Result<(), MmioError>)
      requires io.Valid() && value <= DAC_12BIT_MAX
      modifies this`trimHalves, this`offsetHalves, io
      ensures io.Valid() && io.frames == old(io.frames)
      ensures io.board == old(io.board).(trim := io.board.trim, offset := io.board.offset)
      ensures r.Ok? ==>
        && IsPairOp(op) && Side(op) == old(Side(op)).Run(AllWrites(5, value, gain))
        && OtherSide(op) == old(OtherSide(op))
      ensures old(SaneCaches()) ==> SaneCaches()
      ensures io.env.Responsive(spinLimit) && IsPairOp(op) ==> r.Ok?
    {
      ghost var before := Side(op);
      for a: u8 := 0 to AFE_COUNT
        invariant io.Valid() && io.frames == old(io.frames)
        invariant io.board == old(io.board).(trim := io.board.trim, offset := io.board.offset)
        invariant a > 0 ==> IsPairOp(op)
        invariant Side(op) == before.Run(AllWrites(a, value, gain)) && OtherSide(op) == old(OtherSide(op))
        invariant old(SaneCaches()) ==> SaneCaches()
      {
        var _ :- WriteAfeChannels(op, a, value, gain);
        RunConcat(before, AllWrites(a, value, gain), AfeWrites(a, value, gain));
      }
      r := Ok(());
    }

    /** The eight channels of one AFE, in order. */
    method WriteAfeChannels(op: Op, afePl: u8, value: u16, gain: bool) returns (r: Result<(), MmioError>)
      requires io.Valid() && afePl < AFE_COUNT && value <= DAC_12BIT_MAX
      modifies this`trimHalves, this`offsetHalves, io
      ensures io.Valid() && io.frames == old(io.frames)
      ensures io.board == old(io.board).(trim := io.board.trim, offset := io.board.offset)
      ensures r.Ok? ==>
        && IsPairOp(op) && Side(op) == old(Side(op)).Run(AfeWrites(afePl, value, gain))
        && OtherSide(op) == old(OtherSide(op))
      ensures old(SaneCaches()) ==> SaneCaches()
      ensures io.env.Responsive(spinLimit) && IsPairOp(op) ==> r.Ok?
    {
      ghost var before := Side(op);
      ghost var ws := AfeWrites(afePl, value, gain);
      for c: u8 := 0 to CHANNELS_PER_AFE
        invariant io.Valid() && io.frames == old(io.frames)
        invariant io.board == old(io.board).(trim := io.board.trim, offset := io.board.offset)
        invariant c > 0 ==> IsPairOp(op)
        invariant Side(op) == before.Run(ws[..c]) && OtherSide(op) == old(OtherSide(op))
        invariant old(SaneCaches()) ==> SaneCaches()
      {
        var _ :- WriteTrimOrOffsetChannel(op, afePl, c, value, gain);
        RunNext(before, ws, c);
      }
      assert ws[..8] == ws;
      r := Ok(());
    }

    // ---------- reset and power ----------

    /** A write of the control word touches nothing but the lines and, while the
        reset bit is set, the chips. */
    method SetReset(asserted: bool) returns (r: Result<(), MmioError>)
      requires io.Valid()
      modifies io
      ensures io.Valid() && io.frames == old(io.frames)
      ensures r.Err? ==> io.board == old(io.board)
      ensures r.Ok? ==> ControlUpdated(old(io.board), io.board, AFE_GLOBAL_RESET_BIT, asserted)
      ensures r.Ok? ==> View() == old(View()).Reset(asserted) && (asserted ==> ChipsIdle(io.board))
      ensures old(Quiet(io.board)) ==> Quiet(io.board)
      ensures io.env.NoFailures() ==> r.Ok?
    {
      r := SetControlBit(io, AFE_GLOBAL_RESET_BIT, asserted);
    }

    method DoReset() returns (r: Result<(), MmioError>)
      requires io.Valid()
      modifies io
      ensures io.Valid() && io.frames == old(io.frames)
      ensures io.board.latches == old(io.board.latches) && io.board.outputs == old(io.board.outputs)
      ensures r.Ok? ==> View() == old(View()).Reset(true).Reset(false) && ChipsIdle(io.board)
      ensures old(Quiet(io.board)) ==> Quiet(io.board)
      ensures io.env.NoFailures() ==> r.Ok?
    {
      hide Quiet;
      var _ :- SetReset(true);
      r := SetReset(false);
    }

    method SetPowerState(enabled: bool) returns (r: Result<(), MmioError>)
      requires io.Valid()
      modifies io
      ensures io.Valid() && io.frames == old(io.frames)
      ensures r.Err? ==> io.board == old(io.board)
      ensures r.Ok? ==> ControlUpdated(old(io.board), io.board, AFE_GLOBAL_POWERSTATE_BIT, enabled)
      ensures r.Ok? ==> View() == old(View()).Power(enabled)
      ensures io.board.latches == old(io.board.latches) && io.board.outputs == old(io.board.outputs)
      ensures old(ChipsIdle(io.board)) ==> ChipsIdle(io.board)
      ensures old(Quiet(io.board)) ==> Quiet(io.board)
      ensures io.env.NoFailures() ==> r.Ok?
    {
      r := SetControlBit(io, AFE_GLOBAL_POWERSTATE_BIT, enabled);
    }

    /** Alignment moves the delay and bitslip taps and VTC, nothing else. */
    method Align() returns (r: Result<(), MmioError>)
      requires io.Valid()
      modifies io
      ensures io.Valid()
      ensures io.board == old(io.board).(frontend := io.board.frontend, delay := io.board.delay,
                                         bitslip := io.board.bitslip, captured := io.board.captured,
                                         resets := io.board.resets)
      ensures old(Quiet(io.board)) ==> Quiet(io.board)
      ensures r.Ok? ==> AlignedView(old(View()), View())
      ensures r.Ok? <==> Alignment.Aligns(io.env, old(io.tick), spinLimit)
      ensures Alignment.VtcOn(io.board) ==
        if !Alignment.Clean(io.env, old(io.tick), old(io.tick) + Alignment.PREPARATION)
        then Alignment.VtcOn(old(io.board))
        else Alignment.ScanReached(io.env, old(io.tick), spinLimit) && io.tick > 0 && !io.env.fails(io.tick - 1)
    {
      r := Alignment.AlignFrontend(io, spinLimit);
    }

    // ---------- staging ----------

    method BeginConfigureFrontend(counts: ConfigCounts) returns (r: Result<(), MmioError>)
      modifies this`staged
      ensures r == Ok(()) && staged == NewStaged(counts)
    {
      staged := NewStaged(counts);
      r := Ok(());
    }

    method StageAfe(config: AfeRecord) returns (r: Result<(), MmioError>)
      modifies this`staged
      ensures r == StageAfeResult(old(staged), config)
      ensures staged == if r.Ok? then StagedWithAfe(old(staged), config) else old(staged)
    {
      if config.afePl >= AFE_COUNT {
        return Err(InvalidAfe(config.afePl));
      }
      if !staged.active {
        return Err(Unsupported);
      }
      staged := staged.(afes := staged.afes[config.afePl := Some(config)]);
      r := Ok(());
    }

    method StageChannel(config: ChannelRecord) returns (r: Result<(), MmioError>)
      modifies this`staged
      ensures r == StageChannelResult(old(staged), config)
      ensures staged == if r.Ok? then StagedWithChannel(old(staged), config) else old(staged)
    {
      if config.afePl >= AFE_COUNT {
        return Err(InvalidAfe(config.afePl));
      }
      if config.afeChannel >= CHANNELS_PER_AFE || config.channel >= CHANNEL_COUNT {
        return Err(InvalidChannel(config.channel));
      }
      if !staged.active {
        return Err(Unsupported);
      }
      staged := staged.(channels := staged.channels[config.channel := Some(config)]);
      r := Ok(());
    }

    // ---------- applying a staged configuration ----------

    /** Trim, then offset, of one staged channel. */
    method ApplyStagedChannel(config: ChannelRecord) returns (r: Result<(), MmioError>)
      requires io.Valid()
      modifies this`trimHalves, this`offsetHalves, io
      ensures io.Valid() && io.frames == old(io.frames)
      ensures io.board == old(io.board).(trim := io.board.trim, offset := io.board.offset)
      ensures r.Ok? ==>
        && ChannelApplicable(config)
        && View().trim == old(View()).trim.Step(ChannelWrite(config, Trim))
        && View().offset == old(View()).offset.Step(ChannelWrite(config, Offset))
      ensures old(SaneCaches()) ==> SaneCaches()
      ensures io.env.Responsive(spinLimit) && ChannelApplicable(config) ==> r.Ok?
    {
      var trim :- Require12Bit(config.trim);
      var offset :- Require12Bit(config.offset);
      var _ :- WriteTrimOrOffsetChannel(Op.SetTrim, config.afePl, config.afeChannel, trim, false);
      r := WriteTrimOrOffsetChannel(Op.SetOffset, config.afePl, config.afeChannel, offset, false);
    }

    method ApplyChannels(slots: ChannelSlots) returns (r: Result<(), MmioError>)
      requires io.Valid()
      modifies this`trimHalves, this`offsetHalves, io
      ensures io.Valid() && io.frames == old(io.frames)
      ensures io.board == old(io.board).(trim := io.board.trim, offset := io.board.offset)
      ensures r.Ok? ==>
        && ChannelsApplicable(slots)
        && View() == old(View()).(trim := old(View()).trim.Run(ChannelWrites(slots, Trim)),
                                  offset := old(View()).offset.Run(ChannelWrites(slots, Offset)))
      ensures old(Quiet(io.board)) ==> Quiet(io.board)
      ensures old(SaneCaches()) ==> SaneCaches()
      ensures io.env.Responsive(spinLimit) && ChannelsApplicable(slots) ==> r.Ok?
    {
      ghost var before := View();
      for i := 0 to 40
        invariant io.Valid() && io.frames == old(io.frames)
        invariant io.board == old(io.board).(trim := io.board.trim, offset := io.board.offset)
        invariant ChannelsApplicable(slots[..i]) && (old(SaneCaches()) ==> SaneCaches())
        invariant View().trim == before.trim.Run(ChannelWrites(slots[..i], Trim))
        invariant View().offset == before.offset.Run(ChannelWrites(slots[..i], Offset))
      {
        if slots[i].Some? {
          var _ :- ApplyStagedChannel(slots[i].value);
        }
        NextChannel(before.trim, Trim, slots, i);
        NextChannel(before.offset, Offset, slots, i);
      }
      assert slots[..40] == slots;
      r := Ok(());
    }

    /** Function write `i` of the twelve a staged AFE gets. */
    method WriteFrontendFunction(config: AfeRecord, i: nat, ghost file: RegisterFile) returns (r: Result<(), MmioError>)
      requires io.Valid() && config.afePl < AFE_COUNT && i < 12 && WritableUpTo(config, i)
      modifies io
      ensures io.Valid() && io.frames == old(io.frames)
      ensures io.board == old(io.board).(spi := old(io.board.spi)[config.afePl := io.board.spi[config.afePl]])
      ensures r.Ok? ==> WritableUpTo(config, i + 1)
      ensures r.Ok? && HalfConfigured(old(io.board), config, i, file) ==>
        HalfConfigured(io.board, config, i + 1, file)
      ensures io.env.Responsive(spinLimit) && WritableUpTo(config, i + 1) ==> r.Ok?
    {
      assert WritableUpTo(config, i + 1) ==> Writable(FrontendWrite(config, i));
      var _ :- WriteAfeFunction(config.afePl, FrontendName(i), FrontendValue(config, i));
      NextField(file, config, i);
      r := Ok(());
    }

    /** The twelve function writes of a staged AFE. The source spells the calls
        out; their names and values stand in FrontendName and FrontendValue. */
    method ApplyFunctions(config: AfeRecord) returns (r: Result<(), MmioError>)
      requires io.Valid() && config.afePl < AFE_COUNT
      modifies io
      ensures io.Valid() && io.frames == old(io.frames)
      ensures io.board == old(io.board).(spi := old(io.board.spi)[config.afePl := io.board.spi[config.afePl]])
      ensures r.Ok? ==> FunctionsInRange(config)
      ensures r.Ok? && old(Quiet(io.board)) ==>
        && Quiet(io.board)
        && io.board.spi[config.afePl].file == ConfiguredFile(old(io.board.spi[config.afePl].file), config)
      ensures io.env.Responsive(spinLimit) && FunctionsInRange(config) ==> r.Ok?
    {
      ghost var file := io.board.spi[config.afePl].file;
      AllFields(file, config);
      for i := 0 to 12
        invariant io.Valid() && io.frames == old(io.frames)
        invariant io.board == old(io.board).(spi := old(io.board.spi)[config.afePl := io.board.spi[config.afePl]])
        invariant WritableUpTo(config, i)
        invariant old(Quiet(io.board)) ==> HalfConfigured(io.board, config, i, file)
      {
        var _ :- WriteFrontendFunction(config, i, file);
      }
      r := Ok(());
    }

    /** Attenuation, bias unless zero, then the AFE functions. */
    method ApplyStagedAfe(config: AfeRecord) returns (r: Result<(), MmioError>)
      requires io.Valid() && config.afePl < AFE_COUNT
      modifies this`attenuation, this`bias, io
      ensures io.Valid() && io.frames == old(io.frames)
      ensures io.board == old(io.board).(dacControl := io.board.dacControl, latches := io.board.latches,
                                         outputs := io.board.outputs, spi := io.board.spi)
      ensures r.Ok? ==> AfeApplicable(config)
      ensures r.Ok? && old(Quiet(io.board)) ==>
        && Quiet(io.board)
        && View().dac == old(View()).dac.Run(AfeLevels(config))
        && View().files == ConfigureSlot(old(View()).files, Some(config))
      ensures io.env.Responsive(spinLimit) && AfeApplicable(config) ==> r.Ok?
    {
      hide Settled, FunctionsInRange, ConfiguredFile, DacState.Run, DacState.Step, DriveEnds, Drives, LatchesWord;
      hide Transfer, LevelWrites;
      ghost var before := View().dac;
      var level :- Require12Bit(config.attenuation);
      var _ :- WriteLevel(Gain(config.afePl), level);
      LevelRunOne(before, LevelWrite(Gain(config.afePl), level));
      ghost var gain := [LevelWrite(Gain(config.afePl), level)];
      assert gain + [] == gain;
      if config.bias != 0 {
        var biasLevel :- Require12Bit(config.bias);
        var _ :- WriteLevel(Bias(config.afePl), biasLevel);
        LevelRunTwo(before, LevelWrite(Gain(config.afePl), level), LevelWrite(Bias(config.afePl), biasLevel));
      }
      r := ApplyFunctions(config);
    }

    method ApplyAfes(slots: AfeSlots) returns (r: Result<(), MmioError>)
      requires io.Valid()
      requires forall i :: 0 <= i < 5 && slots[i].Some? ==> slots[i].value.afePl < AFE_COUNT
      modifies this`attenuation, this`bias, io
      ensures io.Valid() && io.frames == old(io.frames)
      ensures io.board == old(io.board).(dacControl := io.board.dacControl, latches := io.board.latches,
                                         outputs := io.board.outputs, spi := io.board.spi)
      ensures View().lines == old(View()).lines
      ensures r.Ok? ==> AfesApplicable(slots)
      ensures r.Ok? && old(Quiet(io.board)) ==>
        && Quiet(io.board)
        && View() == old(View()).(dac := old(View()).dac.Run(LevelWrites(slots)),
                                  files := ConfiguredFiles(old(View()).files, slots))
      ensures io.env.Responsive(spinLimit) && AfesApplicable(slots) ==> r.Ok?
    {
      ghost var before := View();
      for i := 0 to 5
        invariant io.Valid() && io.frames == old(io.frames)
        invariant io.board == old(io.board).(dacControl := io.board.dacControl, latches := io.board.latches,
                                             outputs := io.board.outputs, spi := io.board.spi)
        invariant AfesApplicable(slots[..i])
        invariant old(Quiet(io.board)) ==>
          && Quiet(io.board)
          && View().dac == before.dac.Run(LevelWrites(slots[..i]))
          && View().files == ConfiguredFiles(before.files, slots[..i])
      {
        if slots[i].Some? {
          var _ :- ApplyStagedAfe(slots[i].value);
        }
        NextAfe(before.dac, before.files, slots, i);
      }
      assert slots[..5] == slots;
      r := Ok(());
    }

    /** Applies what is staged: nothing is touched unless the counts match, and
        the staging area is cleared only when everything was applied. */
    method ApplyConfigureFrontend() returns (r: Result<(), MmioError>)
      requires Valid()
      modifies this, io
      ensures Valid() && io.frames == old(io.frames)
      ensures !old(staged).active || !old(staged).CountsMatch() ==>
        r == Err(Unsupported) && unchanged(this) && unchanged(io)
      ensures r.Err? ==> staged == old(staged)
      ensures r.Ok? ==>
        Applicable(old(staged)) && staged == UNSTAGED && View().lines == Lines(false, true, 1)
      // whatever was cut off before
      ensures r.Ok? ==>
        && Quiet(io.board)
        && View() == AfterApply(old(View()).Driven(Strands(old(io.board), Vbias)), old(staged))
      ensures io.env.Responsive(spinLimit) && Applicable(old(staged)) ==> r.Ok?
    {
      hide Settled, Strands, Quiet, AfterApply, Programmable, FilesOf, LinesOf, TimingOf;
      if !staged.active || !staged.CountsMatch() {
        return Err(Unsupported);
      }
      var _ :- ProgramFrontend(staged);
      staged := UNSTAGED;
      r := Ok(());
    }

    /** Resets, powers, then programs channels, VBIAS and AFEs. */
    method ProgramFrontend(config: StagedConfig) returns (r: Result<(), MmioError>)
      requires io.Valid()
      requires forall i :: 0 <= i < 5 && config.afes[i].Some? ==> config.afes[i].value.afePl < AFE_COUNT
      modifies this`attenuation, this`bias, this`trimHalves, this`offsetHalves, this`vbiasControl, this`vbiasEnabled, io
      ensures io.Valid() && io.frames == old(io.frames)
      ensures r.Ok? ==> Programmable(config) && View().lines == Lines(false, true, 1)
      ensures old(SaneCaches()) ==> SaneCaches()
      ensures r.Ok? ==>
        && Quiet(io.board)
        && View() == AfterApply(old(View()).Driven(Strands(old(io.board), Vbias)), config)
      ensures io.env.Responsive(spinLimit) && Programmable(config) ==> r.Ok?
    {
      hide Settled, Strands, FilesOf, LinesOf, TimingOf, AfeMmioBackend.View, AfeMmioBackend.SaneCaches;
      hide ChannelWrites, LevelWrites, ConfiguredFiles, DacState.Run, DacState.Step, PairDac.Run, ControlUpdated;
      hide ChannelsApplicable, AfesApplicable;
      ghost var b := io.board;
      var _ :- DoReset();
      var _ :- SetPowerState(true);
      SameStrands(b, io.board, Vbias);
      var _ :- ApplyChannels(config.channels);
      SameStrands(b, io.board, Vbias);
      var _ :- WriteVbiasControl(config.counts.biasControl, true);
      var _ :- ApplyAfes(config.afes);
      r := SetPowerState(true);
    }
  }

  lemma LevelRunOne(s: DacState, w: LevelWrite)
    requires InRange(w)
    ensures s.Run([w]) == s.Step(w)
  {
    assert [w][..0] == [];
  }

  lemma LevelRunTwo(s: DacState, w: LevelWrite, x: LevelWrite)
    requires InRange(w) && InRange(x)
    ensures s.Run([w] + [x]) == s.Step(w).Step(x)
  {
    LevelRunOne(s, w);
    assert ([w] + [x])[..1] == [w];
  }

  function StageAfeResult(s: StagedConfig, config: AfeRecord): Result<(), MmioError> {
    if config.afePl >= AFE_COUNT then Err(InvalidAfe(config.afePl))
    else if !s.active then Err(Unsupported)
    else Ok(())
  }

  function StageChannelResult(s: StagedConfig, config: ChannelRecord): Result<(), MmioError> {
    if config.afePl >= AFE_COUNT then Err(InvalidAfe(config.afePl))
    else if config.afeChannel >= CHANNELS_PER_AFE || config.channel >= CHANNEL_COUNT then
      Err(InvalidChannel(config.channel))
    else if !s.active then Err(Unsupported)
    else Ok(())
  }

  function StagedWithAfe(s: StagedConfig, config: AfeRecord): StagedConfig
    requires config.afePl < AFE_COUNT
  {
    s.(afes := s.afes[config.afePl := Some(config)])
  }

  function StagedWithChannel(s: StagedConfig, config: ChannelRecord): StagedConfig
    requires config.channel < CHANNEL_COUNT
  {
    s.(channels := s.channels[config.channel := Some(config)])
  }

  /** The trim or offset command addresses places that exist. */
  predicate PairCommand(c: Command) {
    && c.value <= DAC_12BIT_MAX && !c.target.ToNone?
    && (c.target.ToChannel? ==> c.afePl < AFE_COUNT && c.afeChannel < CHANNELS_PER_AFE)
    && (c.target.ToAfe? ==> c.afePl < AFE_COUNT)
  }

  /** The writes such a command makes, in order. */
  function PairWrites(c: Command): (ws: seq<PairWrite>)
    requires PairCommand(c)
    ensures forall w :: w in ws ==> w.place.Exists() && w.value <= DAC_12BIT_MAX
  {
    var gain := c.flags != 0;
    if c.target.ToChannel? then [PairWrite(Place(c.afePl, c.afeChannel), c.value, gain)]
    else if c.target.ToAfe? then AfeWrites(c.afePl, c.value, gain)
    else AllWrites(5, c.value, gain)
  }

  function AfeWrites(afe: nat, value: u16, gain: bool): (ws: seq<PairWrite>)
    requires afe < 5 && value <= DAC_12BIT_MAX
    ensures WritesWholeAfe(ws, afe) && forall w :: w in ws ==> w.place.Exists()
  {
    seq(8, i requires 0 <= i < 8 => PairWrite(Place(afe, i), value, gain))
  }

  /** The writes to the first `n` AFEs. */
  function AllWrites(n: nat, value: u16, gain: bool): (ws: seq<PairWrite>)
    requires n <= 5 && value <= DAC_12BIT_MAX
    ensures forall w :: w in ws ==> w.place.Exists() && w.value <= DAC_12BIT_MAX
  {
    if n == 0 then [] else AllWrites(n - 1, value, gain) + AfeWrites(n - 1, value, gain)
  }

  lemma RunOne(s: PairDac, ws: seq<PairWrite>)
    requires |ws| == 1 && ws[0].place.Exists()
    ensures s.Run(ws) == s.Step(ws[0])
  {
    assert ws[..0] == [];
  }

  lemma RunNext(s: PairDac, ws: seq<PairWrite>, k: nat)
    requires k < |ws| && forall w :: w in ws ==> w.place.Exists()
    ensures s.Run(ws[..k + 1]) == s.Run(ws[..k]).Step(ws[k])
  {
    assert ws[..k + 1] == ws[..k] + [ws[k]];
    RunAppends(s, ws[..k], ws[k]);
  }

  function ChannelOf(companion: Option<u8>, channel: u8): Result<u8, MmioError> {
    match companion case None => Err(InvalidChannel(channel)) case Some(c) => Ok(c)
  }

  // ---------- caches and devices that differ after a failure ----------

  /** AFEs that stay busy: the write fails and nothing is sent, but a read says
      the new value from then on. */
  method BusyAfesLeaveCacheAhead(board: Board, spinLimit: u32, value: u16)
    returns (backend: AfeMmioBackend, r: Result<(), MmioError>)
    requires value <= DAC_12BIT_MAX
    ensures r.Err? && backend.io.board == board && backend.View().trim.Value(Place(0, 0)) == value
  {
    var env := Environment(_ => false, _ => 1, _ => false, _ => false, _ => 0);
    var io := new RegisterBus(env, board);
    backend := new AfeMmioBackend(io, spinLimit);
    env.AfeBecomesIdle(0, spinLimit);
    r := backend.WriteTrimOrOffsetChannel(Op.SetTrim, 0, 0, value, false);
    HalfFields(0, value, false);
    assert backend.Side(Op.SetTrim).Value(Place(0, 0)) == value;
  }

  /** DACs that stay busy after the go bit: the write fails and a read says the
      old level, but the pin has moved. */
  method BusyDacsMoveThePin(board: Board, spinLimit: u32, value: u16)
    returns (backend: AfeMmioBackend, r: Result<(), MmioError>)
    requires value <= DAC_12BIT_MAX && spinLimit > 0 && Quiet(board)
    ensures r.Err? && Route(Gain(0)) in backend.io.board.outputs && backend.io.board.outputs[Route(Gain(0))] == value
    ensures backend.View().dac.levels.Level(Gain(0)) == 0
  {
    hide Quiet, Settled, Transfer;
    var env := Environment(_ => false, _ => 0, t => t >= 5, _ => false, _ => 0);
    var io := new RegisterBus(env, board);
    backend := new AfeMmioBackend(io, spinLimit);
    assert env.DacIdleAt(0, spinLimit) == Some(0) && env.DacIdleAt(2, spinLimit) == Some(2);
    env.DacBecomesIdle(5, spinLimit);
    r := backend.WriteLevel(Gain(0), value);
  }

  /** A wait that times out between latch and go bit: the write fails and the
      pin stays, until a write to an output of another chip drives it too. A
      read still says the old level. */
  method StrandedWordMovesThePin(board: Board, value: u16, other: u16)
    returns (backend: AfeMmioBackend, first: Result<(), MmioError>, second: Result<(), MmioError>)
    requires value <= DAC_12BIT_MAX && other <= DAC_12BIT_MAX && Quiet(board)
    ensures first.Err? && second.Ok?
    ensures Route(Gain(0)) in backend.io.board.outputs && backend.io.board.outputs[Route(Gain(0))] == value
    ensures backend.View().dac.levels.Level(Gain(0)) == 0 && backend.View().dac.levels.Level(Bias(0)) == other
  {
    hide Transfer, DacGainBiasWord, FilesOf, LinesOf, TimingOf, Environment.DacIdleAt, Settled;
    var env := Environment(_ => false, _ => 0, t => t == 2, _ => false, _ => 0);
    var io := new RegisterBus(env, board);
    backend := new AfeMmioBackend(io, 1);
    BusyOnce(env);
    first := backend.WriteLevel(Gain(0), value);
    AllIdle(env, io.tick);
    second := backend.WriteLevel(Bias(0), other);
    StrandedWordDriven(board.latches, board.outputs, Route(Gain(0)), value, Route(Bias(0)), other);
  }

  lemma BusyOnce(env: Environment)
    requires env.NoFailures() && forall k: nat :: env.dacBusy(k) <==> k == 2
    ensures env.DacIdleAt(0, 1) == Some(0) && env.DacIdleAt(2, 1) == None
  {}

  lemma AllIdle(env: Environment, t: nat)
    requires t > 2 && env.NoFailures() && forall k: nat :: k > 2 ==> !env.dacBusy(k)
    ensures DriveEnds(env, t, 1)
  {
    assert env.DacIdleAt(t, 1) == Some(t);
    assert env.DacIdleAt(t + 2, 1) == Some(t + 2);
    assert env.DacIdleAt(t + 5, 1) == Some(t + 5);
    assert env.DacIdleAt(t + 8, 1) == Some(t + 8);
  }
}
