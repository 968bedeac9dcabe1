/** The register sequences of the backend that touch none of its caches: busy
    waits, bit updates, DAC transfers and AFE register transactions
    (crates/daphne-sc-rpu/src/mmio.rs, lines 99-158, 313-340 and 516-546). */
module BusOps {
  import opened Words
  import opened Afe
  import opened AfeHw
  import opened AfeFunctions
  import opened Board
  import opened DacOutputs

  datatype MmioError =
    | Io
    | InvalidAfe(afe: u8)
    | InvalidChannel(channel: u8)
    | InvalidValue(value: u32)
    | InvalidFunction
    | InvalidFunctionField
    | AlignmentFailed
    | TimedOut
    | Unsupported

  method Read(io: RegisterBus, offset: u32) returns (r: Result<u32, MmioError>)
    requires io.Valid()
    modifies io`tick, io`frames
    ensures io.Valid() && io.tick == old(io.tick) + 1
    ensures r == if io.env.fails(old(io.tick)) then Err(MmioError.Io)
                 else Ok(Answer(io.board, io.env, old(io.tick), PortOf(offset)))
    ensures r.Ok? && PortOf(offset).FrameClock? && PortOf(offset).afe < 5 ==>
      var afe := PortOf(offset).afe;
      io.frames == old(io.frames)[afe := old(io.frames)[afe] + [Capture(r.value, io.board.captured[afe])]]
    ensures r.Err? || !PortOf(offset).FrameClock? ==> io.frames == old(io.frames)
  {
    var word := io.Read32(offset);
    r := match word case None => Err(MmioError.Io) case Some(value) => Ok(value);
  }

  method Write(io: RegisterBus, offset: u32, value: u32) returns (r: Result<(), MmioError>)
    requires io.Valid()
    modifies io`tick, io`board
    ensures io.Valid() && io.tick == old(io.tick) + 1
    ensures r == if io.env.fails(old(io.tick)) then Err(MmioError.Io) else Ok(())
    ensures io.board == if r.Ok? then old(io.board).Write(PortOf(offset), value) else old(io.board)
  {
    var ok := io.Write32(offset, value);
    r := if ok then Ok(()) else Err(MmioError.Io);
  }

  // ---------- busy waits ----------

  lemma ControlAnswer(board: Board, env: Environment, t: nat)
    ensures BusyBits(Answer(board, env, t, GlobalControl)) == env.afeBusy(t) % 8
    ensures Answer(board, env, t, GlobalControl) % 4 == board.control % 4
  {
    PackedBusy(board.control / 32, env.afeBusy(t) % 8, board.control % 4);
  }

  lemma PackedBusy(high: nat, busy: nat, low: nat)
    requires busy < 8 && low < 4
    ensures (high * 32 + 4 * busy + low) / 4 == high * 8 + busy && (high * 32 + 4 * busy + low) % 4 == low
    ensures (high * 8 + busy) % 8 == busy
  {}

  lemma DacControlAnswer(board: Board, env: Environment, t: nat)
    ensures Answer(board, env, t, DacControl) % 2 == if env.dacBusy(t) then 1 else 0
  {}

  lemma StatusAnswer(board: Board, env: Environment, t: nat)
    ensures Answer(board, env, t, FrontendStatus) % 2 == if env.delayReady(t) then 1 else 0
  {}

  /** Polls until the AFEs are idle: succeeds at the first idle poll, and times
      out only after `spinLimit` busy ones. */
  method WaitAfeReady(io: RegisterBus, spinLimit: u32) returns (r: Result<(), MmioError>)
    requires io.Valid()
    modifies io`tick, io`frames
    ensures io.Valid() && io.frames == old(io.frames)
    ensures r.Ok? <==> io.env.AfeIdleAt(old(io.tick), spinLimit).Some?
    ensures r.Ok? ==>
      && io.env.AfeIdleAt(old(io.tick), spinLimit) == Some(io.tick - 1)
      && !io.env.fails(io.tick - 1) && io.env.afeBusy(io.tick - 1) % 8 == 0
      && forall t :: old(io.tick) <= t < io.tick - 1 ==> io.env.afeBusy(t) % 8 != 0
    ensures r == Err(TimedOut) ==>
      && io.tick == old(io.tick) + spinLimit
      && forall t :: old(io.tick) <= t < io.tick ==> io.env.afeBusy(t) % 8 != 0
    ensures r == Err(MmioError.Io) ==> io.tick > old(io.tick) && io.env.fails(io.tick - 1)
    ensures r.Err? ==> r.error == TimedOut || r.error == MmioError.Io
  {
    for i := 0 to spinLimit
      invariant io.Valid() && io.frames == old(io.frames) && io.tick == old(io.tick) + i
      invariant io.env.AfeIdleAt(old(io.tick), spinLimit) == io.env.AfeIdleAt(io.tick, spinLimit - i)
      invariant forall t :: old(io.tick) <= t < io.tick ==> io.env.afeBusy(t) % 8 != 0
    {
      ControlAnswer(io.board, io.env, io.tick);
      var value :- Read(io, AFE_GLOBAL_CONTROL_OFFSET);
      if BusyBits(value) == 0 {
        return Ok(());
      }
    }
    r := Err(TimedOut);
  }

  method WaitDacReady(io: RegisterBus, spinLimit: u32) returns (r: Result<(), MmioError>)
    requires io.Valid()
    modifies io`tick, io`frames
    ensures io.Valid() && io.frames == old(io.frames)
    ensures r.Ok? <==> io.env.DacIdleAt(old(io.tick), spinLimit).Some?
    ensures r.Ok? ==>
      && io.env.DacIdleAt(old(io.tick), spinLimit) == Some(io.tick - 1)
      && !io.env.fails(io.tick - 1) && !io.env.dacBusy(io.tick - 1)
      && forall t :: old(io.tick) <= t < io.tick - 1 ==> io.env.dacBusy(t)
    ensures r == Err(TimedOut) ==>
      && io.tick == old(io.tick) + spinLimit
      && forall t :: old(io.tick) <= t < io.tick ==> io.env.dacBusy(t)
    ensures r == Err(MmioError.Io) ==> io.tick > old(io.tick) && io.env.fails(io.tick - 1)
    ensures spinLimit > 0 ==> io.tick > old(io.tick)
    ensures r.Err? ==> r.error == TimedOut || r.error == MmioError.Io
  {
    for i := 0 to spinLimit
      invariant io.Valid() && io.frames == old(io.frames) && io.tick == old(io.tick) + i
      invariant io.env.DacIdleAt(old(io.tick), spinLimit) == io.env.DacIdleAt(io.tick, spinLimit - i)
      invariant forall t :: old(io.tick) <= t < io.tick ==> io.env.dacBusy(t)
    {
      DacControlAnswer(io.board, io.env, io.tick);
      var value :- Read(io, DAC_GAIN_BIAS_CONTROL_OFFSET);
      if value % 2 == 0 {
        return Ok(());
      }
    }
    r := Err(TimedOut);
  }

  method WaitFrontendDelayctrlReady(io: RegisterBus, spinLimit: u32) returns (r: Result<(), MmioError>)
    requires io.Valid()
    modifies io`tick, io`frames
    ensures io.Valid() && io.frames == old(io.frames)
    ensures r.Ok? <==> io.env.DelayReadyAt(old(io.tick), spinLimit).Some?
    ensures r.Ok? ==>
      && io.env.DelayReadyAt(old(io.tick), spinLimit) == Some(io.tick - 1)
      && !io.env.fails(io.tick - 1) && io.env.delayReady(io.tick - 1)
      && forall t :: old(io.tick) <= t < io.tick - 1 ==> !io.env.delayReady(t)
    ensures r == Err(TimedOut) ==>
      && io.tick == old(io.tick) + spinLimit
      && forall t :: old(io.tick) <= t < io.tick ==> !io.env.delayReady(t)
    ensures r == Err(MmioError.Io) ==> io.tick > old(io.tick) && io.env.fails(io.tick - 1)
    ensures r.Err? ==> r.error == TimedOut || r.error == MmioError.Io
  {
    for i := 0 to spinLimit
      invariant io.Valid() && io.frames == old(io.frames) && io.tick == old(io.tick) + i
      invariant io.env.DelayReadyAt(old(io.tick), spinLimit) == io.env.DelayReadyAt(io.tick, spinLimit - i)
      invariant forall t :: old(io.tick) <= t < io.tick ==> !io.env.delayReady(t)
    {
      StatusAnswer(io.board, io.env, io.tick);
      var value :- Read(io, FRONTEND_STATUS_OFFSET);
      if value % 2 != 0 {
        return Ok(());
      }
    }
    r := Err(TimedOut);
  }

  // ---------- bit updates ----------

  /** A read and a write. */
  method SetBit(io: RegisterBus, offset: u32, bitIndex: nat, asserted: bool) returns (r: Result<(), MmioError>)
    requires io.Valid() && bitIndex < 3 && !PortOf(offset).FrameClock?
    modifies io
    ensures io.Valid() && io.frames == old(io.frames)
    ensures r == if io.env.BitUpdates(old(io.tick)) then Ok(()) else Err(MmioError.Io)
    ensures r.Ok? ==> io.tick == old(io.tick) + 2
    ensures r.Err? ==> old(io.tick) < io.tick <= old(io.tick) + 2 && io.env.fails(io.tick - 1)
    ensures io.board == if r.Err? then old(io.board) else
      var port := PortOf(offset);
      old(io.board).Write(port, WithBit(Answer(old(io.board), io.env, old(io.tick), port), bitIndex, asserted))
  {
    var value :- Read(io, offset);
    var _ :- Write(io, offset, WithBit(value, bitIndex, asserted));
    r := Ok(());
  }

  /** The control word with one bit changed: while the reset bit is set, every
      write of the word restarts the chips. */
  predicate ControlUpdated(before: Board, after: Board, bitIndex: nat, asserted: bool)
    requires bitIndex < 2
  {
    && BitIsSet(after.control, bitIndex) == asserted
    && BitIsSet(after.control, 1 - bitIndex) == BitIsSet(before.control, 1 - bitIndex)
    && after == before.(control := after.control,
                        spi := if BitIsSet(after.control, AFE_GLOBAL_RESET_BIT)
                               then AllRestarted(before.spi, before.afterReset) else before.spi)
  }

  /** Reset and power bits of the global control word. */
  method SetControlBit(io: RegisterBus, bitIndex: nat, asserted: bool) returns (r: Result<(), MmioError>)
    requires io.Valid() && bitIndex < 2
    modifies io
    ensures io.Valid() && io.frames == old(io.frames)
    ensures r.Err? ==> io.board == old(io.board)
    ensures r.Ok? ==> ControlUpdated(old(io.board), io.board, bitIndex, asserted)
    ensures io.env.NoFailures() ==> r.Ok?
  {
    var value := Answer(io.board, io.env, io.tick, GlobalControl);
    ControlAnswer(io.board, io.env, io.tick);
    WithBitSetsOneBit(value, bitIndex, asserted);
    LowBitsAgree(value, io.board.control);
    r := SetBit(io, AFE_GLOBAL_CONTROL_OFFSET, bitIndex, asserted);
  }

  lemma LowBitsAgree(v: u32, w: u32)
    requires v % 4 == w % 4
    ensures BitIsSet(v, 0) == BitIsSet(w, 0) && BitIsSet(v, 1) == BitIsSet(w, 1)
  {
    Mod8Mod4(v);
    Mod8Mod4(w);
  }

  lemma Mod8Mod4(v: u32)
    ensures v % 4 == v % 8 % 4
  {
    var q, d := v / 8, v % 8;
    assert v == 4 * (2 * q + d / 4) + d % 4;
  }

  // ---------- DAC transfers ----------

  /** From time `t` on the go bit gets set: the DACs become idle in time and the
      two accesses that follow succeed. */
  predicate Triggers(env: Environment, t: nat, spinLimit: nat) {
    var idle := env.DacIdleAt(t, spinLimit);
    idle.Some? && env.BitUpdates(idle.value + 1)
  }

  /** The go bit gets cleared again and the DACs become idle a last time. */
  predicate TriggerEnds(env: Environment, t: nat, spinLimit: nat) {
    && Triggers(env, t, spinLimit)
    && var raised := env.DacIdleAt(t, spinLimit).value + 3;
    && Triggers(env, raised, spinLimit)
    && env.DacIdleAt(env.DacIdleAt(raised, spinLimit).value + 3, spinLimit).Some?
  }

  /** Waits for the DACs, then sets or clears the go bit. */
  method SetGo(io: RegisterBus, spinLimit: u32, asserted: bool) returns (r: Result<(), MmioError>)
    requires io.Valid()
    modifies io
    ensures io.Valid() && io.frames == old(io.frames)
    ensures io.board == old(io.board).(dacControl := io.board.dacControl, outputs := io.board.outputs)
    ensures spinLimit > 0 ==> io.tick > old(io.tick)
    ensures r.Ok? <==> Triggers(io.env, old(io.tick), spinLimit)
    ensures r.Ok? ==> io.tick == io.env.DacIdleAt(old(io.tick), spinLimit).value + 3
    ensures io.board.outputs == if r.Ok? && asserted then Transfer(old(io.board.latches), old(io.board.outputs))
                                else old(io.board.outputs)
  {
    hide Environment.DacIdleAt, Transfer;
    var _ :- WaitDacReady(io, spinLimit);
    WithBitSetsOneBit(Answer(io.board, io.env, io.tick, DacControl), DAC_GO_BIT, asserted);
    r := SetBit(io, DAC_GAIN_BIAS_CONTROL_OFFSET, DAC_GO_BIT, asserted);
  }

  /** A wait, the go bit set, a wait, the go bit cleared, a wait. The transfer
      happens exactly if the go bit gets set; failures after that come too late. */
  method TriggerDac(io: RegisterBus, spinLimit: u32) returns (r: Result<(), MmioError>)
    requires io.Valid()
    modifies io
    ensures io.Valid() && io.frames == old(io.frames)
    ensures io.board == old(io.board).(dacControl := io.board.dacControl, outputs := io.board.outputs)
    ensures io.board.outputs == if Triggers(io.env, old(io.tick), spinLimit)
                                then Transfer(old(io.board.latches), old(io.board.outputs)) else old(io.board.outputs)
    ensures spinLimit > 0 ==> io.tick > old(io.tick)
    ensures r.Ok? <==> TriggerEnds(io.env, old(io.tick), spinLimit)
    ensures r.Ok? ==> Triggers(io.env, old(io.tick), spinLimit)
  {
    hide Environment.DacIdleAt, Transfer;
    var _ :- SetGo(io, spinLimit, true);
    var _ :- SetGo(io, spinLimit, false);
    r := WaitDacReady(io, spinLimit);
  }

  /** A word sent to a DAC chip from time `t` on is latched. */
  predicate LatchesWord(env: Environment, t: nat, spinLimit: nat) {
    var idle := env.DacIdleAt(t, spinLimit);
    idle.Some? && !env.fails(idle.value + 1)
  }

  /** It is also transferred to its pin. */
  predicate Drives(env: Environment, t: nat, spinLimit: nat) {
    LatchesWord(env, t, spinLimit) && Triggers(env, env.DacIdleAt(t, spinLimit).value + 2, spinLimit)
  }

  /** And the write is reported as done. */
  predicate DriveEnds(env: Environment, t: nat, spinLimit: nat) {
    LatchesWord(env, t, spinLimit) && TriggerEnds(env, env.DacIdleAt(t, spinLimit).value + 2, spinLimit)
  }

  lemma ResponsiveDrives(env: Environment, t: nat, spinLimit: nat)
    requires env.Responsive(spinLimit)
    ensures DriveEnds(env, t, spinLimit)
  {
    hide Environment.DacIdleAt, Environment.AfeIdleAt;
    env.WaitsEnd(t, spinLimit);
    var latched := env.DacIdleAt(t, spinLimit).value + 2;
    env.WaitsEnd(latched, spinLimit);
    var raised := env.DacIdleAt(latched, spinLimit).value + 3;
    env.WaitsEnd(raised, spinLimit);
    env.WaitsEnd(env.DacIdleAt(raised, spinLimit).value + 3, spinLimit);
  }

  lemma LatchPort(chip: DacChip)
    ensures PortOf(DacGainBiasOffset(chip)) == DacLatch(chip)
  {}

  /** Latches a word and transfers it. What a failure leaves is determined by
      the step that failed: nothing, a latched word, or a pin already moved. */
  method WriteDacRoute(io: RegisterBus, spinLimit: u32, route: DacRoute, value: u16) returns (r: Result<(), MmioError>)
    requires io.Valid() && route.channel < 4 && value <= DAC_12BIT_MAX
    modifies io
    ensures io.Valid() && io.frames == old(io.frames)
    ensures io.board == old(io.board).(dacControl := io.board.dacControl, latches := io.board.latches,
                                       outputs := io.board.outputs)
    ensures io.board.latches == if LatchesWord(io.env, old(io.tick), spinLimit)
                                then old(io.board.latches)[route.chip := DacGainBiasWord(route, value)]
                                else old(io.board.latches)
    ensures io.board.outputs == if Drives(io.env, old(io.tick), spinLimit)
                                then Transfer(io.board.latches, old(io.board.outputs)) else old(io.board.outputs)
    ensures spinLimit > 0 && LatchesWord(io.env, old(io.tick), spinLimit) ==>
      io.tick > io.env.DacIdleAt(old(io.tick), spinLimit).value + 2
    ensures r.Ok? <==> DriveEnds(io.env, old(io.tick), spinLimit)
    ensures r.Ok? ==> Drives(io.env, old(io.tick), spinLimit)
    ensures Drives(io.env, old(io.tick), spinLimit) ==>
      && Settled(io.board.latches, io.board.outputs)
      && io.board.outputs
         == OthersDriven(old(io.board.latches), old(io.board.outputs), route.chip)[route := value]
    ensures Drives(io.env, old(io.tick), spinLimit) && Settled(old(io.board.latches), old(io.board.outputs)) ==>
      && io.board.outputs == old(io.board.outputs)[route := value]
    ensures io.env.Responsive(spinLimit) ==> r.Ok?
  {
    hide Environment.DacIdleAt, Transfer, DacGainBiasWord, Settled, Board.Write, Triggers, TriggerEnds, OthersDriven;
    hide Environment.Responsive;
    if io.env.Responsive(spinLimit) {
      ResponsiveDrives(io.env, io.tick, spinLimit);
    }
    var _ :- WaitDacReady(io, spinLimit);
    LatchPort(route.chip);
    LatchWritten(io.board, route.chip, DacGainBiasWord(route, value));
    TransferDrives(io.board.latches, io.board.outputs, route, value);
    if Settled(io.board.latches, io.board.outputs) {
      LatchThenTransfer(io.board.latches, io.board.outputs, route, value);
    }
    var _ :- Write(io, DacGainBiasOffset(route.chip), DacGainBiasWord(route, value));
    r := TriggerDac(io, spinLimit);
  }

  // ---------- AFE register transactions ----------

  /** One word to an AFE chip. */
  method WriteAfeWord(io: RegisterBus, afePl: u8, word: u32) returns (r: Result<(), MmioError>)
    requires io.Valid() && afePl < AFE_COUNT
    modifies io`tick, io`board
    ensures io.Valid()
    ensures r == if io.env.fails(old(io.tick)) then Err(MmioError.Io) else Ok(())
    ensures io.board == if r.Err? then old(io.board)
      else old(io.board).(spi := old(io.board.spi)[afePl := old(io.board.spi[afePl]).Write(word)])
  {
    hide PortOf, Spi.Write, Board.Write, AfeControlOffset;
    OffsetsSelectTheirPorts(afePl);
    ChipWritten(io.board, afePl, word);
    r := Write(io, AfeControlOffset(afePl).value, word);
  }

  /** Waits for the AFEs and sends one word to an AFE chip. */
  method SendAfeWord(io: RegisterBus, spinLimit: u32, afePl: u8, word: u32) returns (r: Result<(), MmioError>)
    requires io.Valid() && afePl < AFE_COUNT
    modifies io
    ensures io.Valid() && io.frames == old(io.frames)
    ensures io.board == if r.Err? then old(io.board)
      else old(io.board).(spi := old(io.board.spi)[afePl := old(io.board.spi[afePl]).Write(word)])
    ensures io.env.Responsive(spinLimit) ==> r.Ok?
  {
    hide Environment.AfeIdleAt, Environment.DacIdleAt, PortOf, Spi.Write, Board.Write;
    if io.env.Responsive(spinLimit) {
      io.env.WaitsEnd(io.tick, spinLimit);
    }
    var _ :- WaitAfeReady(io, spinLimit);
    r := WriteAfeWord(io, afePl, word);
  }

  /** The word an AFE chip shifts out. */
  method ReadAfeLatch(io: RegisterBus, afePl: u8) returns (r: Result<u32, MmioError>)
    requires io.Valid() && afePl < AFE_COUNT
    modifies io`tick, io`frames
    ensures io.Valid() && io.frames == old(io.frames)
    ensures r == if io.env.fails(old(io.tick)) then Err(MmioError.Io) else Ok(io.board.spi[afePl].latch)
  {
    hide PortOf, Answer, AfeControlOffset;
    OffsetsSelectTheirPorts(afePl);
    LatchAnswer(io.board, io.env, io.tick, afePl);
    var value :- Read(io, AfeControlOffset(afePl).value);
    r := Ok(value % 0x1_0000);
  }

  /** Waits, samples the latch of an AFE chip and sends the idle word. */
  method SampleAfe(io: RegisterBus, spinLimit: u32, afePl: u8) returns (r: Result<u32, MmioError>)
    requires io.Valid() && afePl < AFE_COUNT
    modifies io
    ensures io.Valid() && io.frames == old(io.frames)
    ensures io.board == if r.Err? then old(io.board)
      else old(io.board).(spi := old(io.board.spi)[afePl := old(io.board.spi[afePl]).Write(AFE_SPI_IDLE_WORD)])
    ensures r.Ok? ==> r.value == old(io.board.spi[afePl].latch) && io.board.spi[afePl].Idle()
    ensures io.env.Responsive(spinLimit) ==> r.Ok?
  {
    hide Environment.AfeIdleAt, Environment.DacIdleAt, Environment.Responsive, Environment.NoFailures;
    hide Spi.Write, Spi.Idle;
    if io.env.Responsive(spinLimit) {
      io.env.WaitsEnd(io.tick, spinLimit);
      NothingFails(io.env, spinLimit);
    }
    io.board.spi[afePl].IdleWordIdles();
    var _ :- WaitAfeReady(io, spinLimit);
    var latch :- ReadAfeLatch(io, afePl);
    var _ :- WriteAfeWord(io, afePl, AFE_SPI_IDLE_WORD);
    r := Ok(latch);
  }

  lemma NothingFails(env: Environment, limit: nat)
    requires env.Responsive(limit)
    ensures forall t: nat :: !env.fails(t)
  {}

  lemma LatchAnswer(board: Board, env: Environment, t: nat, afe: nat)
    requires afe < 5
    ensures Answer(board, env, t, AfeControl(afe)) % 0x1_0000 == board.spi[afe].latch
  {}

  method ReadAfeRegister(io: RegisterBus, spinLimit: u32, afePl: u8, register: u16) returns (r: Result<u32, MmioError>)
    requires io.Valid()
    modifies io
    ensures io.Valid() && io.frames == old(io.frames)
    ensures afePl >= AFE_COUNT ==> r == Err(InvalidAfe(afePl)) && io.board == old(io.board) && io.tick == old(io.tick)
    ensures afePl < AFE_COUNT ==> io.board == old(io.board).(spi := old(io.board.spi)[afePl := io.board.spi[afePl]])
    ensures r.Ok? ==>
      && afePl < AFE_COUNT
      && r.value <= 0xFFFF
      && io.board.spi[afePl].Idle()
    ensures r.Ok? && old(io.board.spi[afePl].Idle()) ==>
      && io.board.spi[afePl].file == old(io.board.spi[afePl].file)
      && (register % 0x100 != 0 ==> r.value == io.board.spi[afePl].file[register % 0x100])
    ensures io.env.Responsive(spinLimit) && afePl < AFE_COUNT ==> r.Ok?
  {
    if afePl < AFE_COUNT && io.board.spi[afePl].Idle() {
      io.board.spi[afePl].ReadTransaction(register);
    }
    var _ :- OffsetOf(AfeControlOffset(afePl), afePl);
    var _ :- SendAfeWord(io, spinLimit, afePl, AFE_SPI_TRIGGER_WORD);
    var _ :- SendAfeWord(io, spinLimit, afePl, AfeRegisterAddressWord(register));
    r := SampleAfe(io, spinLimit, afePl);
  }

  function OffsetOf(offset: Option<u32>, afe: u8): Result<u32, MmioError> {
    match offset case None => Err(InvalidAfe(afe)) case Some(o) => Ok(o)
  }

  function RequireU16(value: u32): Result<u16, MmioError> {
    if value <= 0xFFFF then Ok(value) else Err(MmioError.InvalidValue(value))
  }

  function Require12Bit(value: u32): Result<u16, MmioError> {
    if value <= DAC_12BIT_MAX then Ok(value) else Err(MmioError.InvalidValue(value))
  }

  method WriteAfeRegister(io: RegisterBus, spinLimit: u32, afePl: u8, register: u16, value: u32)
    returns (r: Result<u32, MmioError>)
    requires io.Valid()
    modifies io
    ensures io.Valid() && io.frames == old(io.frames)
    ensures value > 0xFFFF || afePl >= AFE_COUNT ==> r.Err? && io.board == old(io.board) && io.tick == old(io.tick)
    ensures afePl < AFE_COUNT ==> io.board == old(io.board).(spi := old(io.board.spi)[afePl := io.board.spi[afePl]])
    ensures r.Ok? ==>
      && afePl < AFE_COUNT && value <= 0xFFFF
      && io.board.spi[afePl].Idle()
    ensures r.Ok? && old(io.board.spi[afePl].Idle()) ==>
      var k, file := register % 0x100, old(io.board.spi[afePl].file);
      && io.board.spi[afePl].file == (if k == 0 then file else file[k := value])
      && (k != 0 ==> r.value == value)
    ensures io.env.Responsive(spinLimit) && afePl < AFE_COUNT && value <= 0xFFFF ==> r.Ok?
  {
    if afePl < AFE_COUNT && value <= 0xFFFF && io.board.spi[afePl].Idle() {
      io.board.spi[afePl].WriteTransaction(register, value);
    }
    var word :- RequireU16(value);
    var _ :- OffsetOf(AfeControlOffset(afePl), afePl);
    var _ :- SendAfeWord(io, spinLimit, afePl, AfeRegisterWord(register, word));
    var _ :- SendAfeWord(io, spinLimit, afePl, AFE_SPI_TRIGGER_WORD);
    var _ :- SendAfeWord(io, spinLimit, afePl, AfeRegisterAddressWord(register));
    r := SampleAfe(io, spinLimit, afePl);
  }

  /** Reads a register, replaces one field, writes it back and reads the field. */
  method UpdateAfeField(io: RegisterBus, spinLimit: u32, afePl: u8, field: AfeBitField, value: u16)
    returns (r: Result<u16, MmioError>)
    requires io.Valid() && afePl < AFE_COUNT && WellFormed(field) && field.register < 0x100
    modifies io
    ensures io.Valid() && io.frames == old(io.frames)
    ensures io.board == old(io.board).(spi := old(io.board.spi)[afePl := io.board.spi[afePl]])
    ensures r.Ok? ==> io.board.spi[afePl].Idle()
    ensures r.Ok? && old(io.board.spi[afePl].Idle()) ==>
      var k, file := field.register, old(io.board.spi[afePl].file);
      var updated := ReplaceBits(file[k], field, value).value;
      && io.board.spi[afePl].Idle()
      && io.board.spi[afePl].file == (if k == 0 then file else file[k := updated])
      && (k != 0 ==> Ok(r.value) == ExtractBits(updated, field))
    ensures io.env.Responsive(spinLimit) ==> r.Ok?
  {
    hide ReplaceBits, ExtractBits, Spi.Idle, Environment.Responsive;
    BitsDefined(0, field, value);
    var current :- ReadAfeRegister(io, spinLimit, afePl, field.register);
    BitsDefined(current, field, value);
    var updated := ReplaceBits(current, field, value).value;
    var _ :- WriteAfeRegister(io, spinLimit, afePl, field.register, updated);
    var readback :- ReadAfeRegister(io, spinLimit, afePl, field.register);
    BitsDefined(readback, field, value);
    r := Ok(ExtractBits(readback, field).value);
  }

  // ---------- paired DAC words ----------

  /** A word sent to a paired DAC from time `t` on arrives: the AFEs become idle
      in time and the write succeeds. */
  predicate Arrives(env: Environment, t: nat, spinLimit: nat) {
    var idle := env.AfeIdleAt(t, spinLimit);
    idle.Some? && !env.fails(idle.value + 1)
  }

  /** It is reported as sent only when the AFEs become idle once more. */
  predicate Reported(env: Environment, t: nat, spinLimit: nat) {
    && Arrives(env, t, spinLimit)
    && env.AfeIdleAt(env.AfeIdleAt(t, spinLimit).value + 2, spinLimit).Some?
  }

  /** Sends one paired word to the trim or offset DAC of an AFE. */
  method SendPair(io: RegisterBus, spinLimit: u32, offset: u32, word: u32) returns (r: Result<(), MmioError>)
    requires io.Valid() && (PortOf(offset).TrimDac? || PortOf(offset).OffsetDac?)
    modifies io
    ensures io.Valid() && io.frames == old(io.frames)
    ensures io.board == if Arrives(io.env, old(io.tick), spinLimit) then old(io.board).Write(PortOf(offset), word)
                        else old(io.board)
    ensures r.Ok? <==> Reported(io.env, old(io.tick), spinLimit)
    ensures r.Ok? ==> Arrives(io.env, old(io.tick), spinLimit)
    ensures io.env.Responsive(spinLimit) ==> r.Ok?
  {
    hide Environment.AfeIdleAt, Environment.DacIdleAt, BankWrite;
    if io.env.Responsive(spinLimit) {
      io.env.WaitsEnd(io.tick, spinLimit);
      io.env.WaitsEnd(io.env.AfeIdleAt(io.tick, spinLimit).value + 2, spinLimit);
    }
    var _ :- WaitAfeReady(io, spinLimit);
    var _ :- Write(io, offset, word);
    r := WaitAfeReady(io, spinLimit);
  }
}
