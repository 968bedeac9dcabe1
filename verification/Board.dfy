/** The devices behind the FPGA register window, as the backend's protocol
    assumes them: a register memory, one SPI chip an AFE, the paired trim and
    offset DACs, and the three gain/bias DAC chips. */
module Board {
  import opened Words
  import opened AfeHw

  // ---------- SPI chip ----------

  type RegisterFile = s: seq<u16> | |s| == 256 witness seq(256, _ => 0)

  /** The AFE chip: 256 registers and the word it shifts out. Bit 1 of
      register 0 (REGISTER_READOUT_ENABLE in the function dictionary) turns
      writes of the other registers into reads. */
  datatype Spi = Spi(file: RegisterFile, latch: u16) {
    predicate ReadoutOn() {
      file[0] / 2 % 2 == 1
    }

    /** No transaction is half done: the idle word left register 0 clear. */
    predicate Idle() {
      file[0] == 0
    }

    function Write(word: u32): Spi {
      var register, value := word / 0x1_0000 % 0x100, word % 0x1_0000;
      if register == 0 then Spi(file[0 := value], latch)
      else if ReadoutOn() then Spi(file, file[register])
      else Spi(file[register := value], latch)
    }

    /** The words read_register sends before it samples the latch. */
    function ReadWords(register: u16): Spi {
      Write(AFE_SPI_TRIGGER_WORD).Write(AfeRegisterAddressWord(register))
    }

    /** A whole read_register transaction. */
    function AfterRead(register: u16): Spi {
      ReadWords(register).Write(AFE_SPI_IDLE_WORD)
    }

    /** A whole write_register transaction. */
    function AfterWrite(register: u16, value: u16): Spi {
      Write(AfeRegisterWord(register, value)).AfterRead(register)
    }

    /** Every whole transaction idles the chip, whatever was cut off before. */
    lemma TransactionIdles(register: u16, value: u16)
      ensures Write(AFE_SPI_IDLE_WORD).Idle()
      ensures AfterRead(register).Idle() && AfterWrite(register, value).Idle()
    {
      hide Write;
      IdleWordIdles();
      ReadWords(register).IdleWordIdles();
      Write(AfeRegisterWord(register, value)).ReadWords(register).IdleWordIdles();
    }

    lemma IdleWordIdles()
      ensures Write(AFE_SPI_IDLE_WORD).Idle()
    {
      assert AFE_SPI_IDLE_WORD / 0x1_0000 % 0x100 == 0;
    }

    /** A read leaves the registers alone and latches the one asked for. */
    lemma ReadTransaction(register: u16)
      requires Idle()
      ensures AfterRead(register).file == file
      ensures AfterRead(register).latch == if register % 0x100 == 0 then latch else file[register % 0x100]
      ensures ReadWords(register).latch == AfterRead(register).latch
    {
      var triggered := Write(AFE_SPI_TRIGGER_WORD);
      assert triggered.file[0] == 2 && triggered.ReadoutOn();
      assert AFE_SPI_IDLE_WORD / 0x1_0000 % 0x100 == 0;
      assert file[0 := 2][0 := 0] == file;
    }

    /** A write sets the named register and nothing else; register 0 cannot be
        set this way, the idle word clears it again. */
    lemma WriteTransaction(register: u16, value: u16)
      requires Idle()
      ensures var r := register % 0x100;
              var after := AfterWrite(register, value);
              && after.file == (if r == 0 then file else file[r := value])
              && (r != 0 ==> after.latch == value)
    {
      var r := register % 0x100;
      var written := Write(AfeRegisterWord(register, value));
      if r != 0 {
        assert written.file == file[r := value] && written.Idle();
        written.ReadTransaction(register);
      } else {
        assert written == Spi(file[0 := value], latch);
        var triggered := written.Write(AFE_SPI_TRIGGER_WORD);
        assert triggered == Spi(file[0 := 2], latch);
        assert triggered.Write(AfeRegisterAddressWord(register)) == Spi(file[0 := 0], latch);
        assert file[0 := 0] == file;
      }
    }

    /** A transaction cut off after its trigger word, or after the address of a
        register other than 0, leaves the readout on, and the next register
        write is lost: the registers end as they were, and the one written only
        seems to be set if it held the value already. After the address of
        register 0 the write goes through. */
    lemma CutOffWriteIsLost(register: u16, addressed: bool, next: u16, value: u16)
      requires Idle() && next % 0x100 != 0
      ensures var cut := if addressed then ReadWords(register) else Write(AFE_SPI_TRIGGER_WORD);
              var n, lost := next % 0x100, !addressed || register % 0x100 != 0;
              && cut.ReadoutOn() == lost
              && cut.AfterWrite(next, value).file == if lost then file else file[n := value]
    {
      var cut := if addressed then ReadWords(register) else Write(AFE_SPI_TRIGGER_WORD);
      CutLeaves(register, addressed);
      if !addressed || register % 0x100 != 0 {
        cut.WriteInReadout(next, value);
        assert file[0 := 2][0 := 0] == file;
      } else {
        cut.WriteTransaction(next, value);
        assert cut.file == file;
      }
    }

    /** What the two cuts leave. */
    lemma CutLeaves(register: u16, addressed: bool)
      requires Idle()
      ensures var cut := if addressed then ReadWords(register) else Write(AFE_SPI_TRIGGER_WORD);
              if !addressed || register % 0x100 != 0 then cut.file == file[0 := 2] else cut.Idle() && cut.file == file
    {
      var triggered := Write(AFE_SPI_TRIGGER_WORD);
      assert triggered.file == file[0 := 2] && triggered.ReadoutOn();
      assert file[0 := 2][0 := 0] == file;
    }

    /** While the readout is on the words of a write only clear register 0. */
    lemma WriteInReadout(register: u16, value: u16)
      requires file[0] == 2 && register % 0x100 != 0
      ensures AfterWrite(register, value).file == file[0 := 0]
    {
      var sent := Write(AfeRegisterWord(register, value));
      assert sent.file == file;
      var triggered := sent.Write(AFE_SPI_TRIGGER_WORD);
      assert triggered.file == file[0 := 2] == file;
      assert triggered.Write(AfeRegisterAddressWord(register)).file == file;
      assert AFE_SPI_IDLE_WORD / 0x1_0000 % 0x100 == 0;
    }
  }

  // ---------- paired trim and offset DACs ----------

  /** Eight 14-bit codes (gain, buffer, value), in two groups of four. */
  type Bank = s: seq<u16> | |s| == 8 witness [0, 0, 0, 0, 0, 0, 0, 0]

  /** Both halves of the word land: the low half in the first group and the
      high half in the second, each at the address in its top two bits. */
  function BankWrite(bank: Bank, word: u32): Bank {
    var low, high := word % 0x1_0000, word / 0x1_0000;
    bank[low / 0x4000 := low % 0x4000][4 + high / 0x4000 := high % 0x4000]
  }

  // ---------- gain and bias DAC chips ----------

  type Latches = map<DacChip, u32>
  type Outputs = map<DacRoute, u16>

  function Pin(chip: DacChip, word: u32): DacRoute {
    DacRoute(chip, word / 0x4000 % 4)
  }

  function TransferChip(latches: Latches, outputs: Outputs, chip: DacChip): Outputs {
    if chip in latches then outputs[Pin(chip, latches[chip]) := latches[chip] % 0x1000] else outputs
  }

  /** The shared go bit makes every chip drive the word it has latched. */
  function Transfer(latches: Latches, outputs: Outputs): Outputs {
    TransferChip(latches, TransferChip(latches, TransferChip(latches, outputs, U50), U53), U5)
  }

  // ---------- the board ----------

  const ZERO_BANK: Bank := [0, 0, 0, 0, 0, 0, 0, 0]
  const RESET_SPI: Spi := Spi(seq(256, _ => 0), 0)

  /** What the registers of a chip hold after a reset, whatever it is: register
      0 is clear. */
  type ResetFile = f: RegisterFile | f[0] == 0 witness seq(256, _ => 0)

  type ResetFiles = s: seq<ResetFile> | |s| == 5
    witness [RESET_SPI.file, RESET_SPI.file, RESET_SPI.file, RESET_SPI.file, RESET_SPI.file]

  type Spis = s: seq<Spi> | |s| == 5 witness [RESET_SPI, RESET_SPI, RESET_SPI, RESET_SPI, RESET_SPI]
  type Banks = s: seq<Bank> | |s| == 5 witness [ZERO_BANK, ZERO_BANK, ZERO_BANK, ZERO_BANK, ZERO_BANK]
  type Taps = s: seq<u32> | |s| == 5 witness [0, 0, 0, 0, 0]

  /** The delay and bitslip taps an AFE was set to at a trigger. */
  datatype Setting = Setting(delay: nat, bitslip: nat)

  type Settings = s: seq<Setting> | |s| == 5
    witness [Setting(0, 0), Setting(0, 0), Setting(0, 0), Setting(0, 0), Setting(0, 0)]

  /** A frame-clock word, and the taps it was captured at. */
  datatype Capture = Capture(word: u32, at: Setting)

  function SettingsOf(delay: Taps, bitslip: Taps): (r: Settings)
    ensures forall a :: 0 <= a < 5 ==> r[a] == Setting(delay[a], bitslip[a])
  {
    [Setting(delay[0], bitslip[0]), Setting(delay[1], bitslip[1]), Setting(delay[2], bitslip[2]),
     Setting(delay[3], bitslip[3]), Setting(delay[4], bitslip[4])]
  }

  /** How often the delay controller and the deserialisers were reset: how often
      their bit of the frontend control register was cleared again. */
  datatype Resets = Resets(delayctrl: nat, serdes: nat)

  function Falls(before: u32, after: u32, bit: nat): nat
    requires bit < 3
  {
    if BitIsSet(before, bit) && !BitIsSet(after, bit) then 1 else 0
  }

  function Pulsed(before: u32, after: u32, resets: Resets): Resets {
    Resets(resets.delayctrl + Falls(before, after, FRONTEND_DELAYCTRL_RESET_BIT),
           resets.serdes + Falls(before, after, FRONTEND_SERDES_RESET_BIT))
  }

  function Restarted(chip: Spi, file: ResetFile): Spi {
    Spi(file, chip.latch)
  }

  /** All chips after a reset. */
  function AllRestarted(chips: Spis, files: ResetFiles): (r: Spis)
    ensures forall a :: 0 <= a < 5 ==> r[a] == Restarted(chips[a], files[a])
  {
    [Restarted(chips[0], files[0]), Restarted(chips[1], files[1]), Restarted(chips[2], files[2]),
     Restarted(chips[3], files[3]), Restarted(chips[4], files[4])]
  }

  datatype Board = Board(
    control: u32, afterReset: ResetFiles, spi: Spis, trim: Banks, offset: Banks,
    dacControl: u32, latches: Latches, outputs: Outputs, biasEnable: u32,
    frontend: u32, delay: Taps, bitslip: Taps, captured: Settings, resets: Resets)
  {
    function Write(port: Port, value: u32): Board {
      match port
      case GlobalControl =>
        this.(control := value,
              spi := if BitIsSet(value, AFE_GLOBAL_RESET_BIT) then AllRestarted(spi, afterReset) else spi)
      case AfeControl(afe) => if afe < 5 then this.(spi := spi[afe := spi[afe].Write(value)]) else this
      case TrimDac(afe) => if afe < 5 then this.(trim := trim[afe := BankWrite(trim[afe], value)]) else this
      case OffsetDac(afe) => if afe < 5 then this.(offset := offset[afe := BankWrite(offset[afe], value)]) else this
      case DacControl =>
        this.(dacControl := value,
              outputs := if BitIsSet(value, DAC_GO_BIT) then Transfer(latches, outputs) else outputs)
      case DacLatch(chip) => this.(latches := latches[chip := value])
      case BiasEnable => this.(biasEnable := value)
      case FrontendControl => this.(frontend := value, resets := Pulsed(frontend, value, resets))
      case FrontendTrigger =>
        if value == FRONTEND_TRIGGER_WORD then this.(captured := SettingsOf(delay, bitslip)) else this
      case Delay(afe) => if afe < 5 then this.(delay := delay[afe := value]) else this
      case Bitslip(afe) => if afe < 5 then this.(bitslip := bitslip[afe := value]) else this
      case _ => this
    }
  }

  lemma LatchWritten(b: Board, chip: DacChip, word: u32)
    ensures b.Write(DacLatch(chip), word) == b.(latches := b.latches[chip := word])
  {}

  lemma ChipWritten(b: Board, afe: nat, word: u32)
    requires afe < 5
    ensures b.Write(AfeControl(afe), word) == b.(spi := b.spi[afe := b.spi[afe].Write(word)])
  {
    hide Spi.Write;
  }

  lemma PairPortsWritten(b: Board, afe: nat, word: u32)
    requires afe < 5
    ensures b.Write(TrimDac(afe), word) == b.(trim := b.trim[afe := BankWrite(b.trim[afe], word)])
    ensures b.Write(OffsetDac(afe), word) == b.(offset := b.offset[afe := BankWrite(b.offset[afe], word)])
  {
    hide BankWrite;
  }

  /** What the devices and the bus do on their own: which accesses fail, when
      the devices are busy or ready, and the words sampled from the spy
      buffers. Each is a function of the number of accesses made so far. */
  datatype Environment = Environment(
    fails: nat -> bool, afeBusy: nat -> u8, dacBusy: nat -> bool, delayReady: nat -> bool, sample: nat -> u32)
  {
    /** Every access succeeds. */
    ghost predicate NoFailures() {
      forall t: nat :: !fails(t)
    }

    /** Some poll among the next `limit` finds the AFEs idle. */
    ghost predicate AfeIdleWithin(t: nat, limit: nat) {
      exists k: nat :: t <= k < t + limit && afeBusy(k) % 8 == 0
    }

    ghost predicate DacIdleWithin(t: nat, limit: nat) {
      exists k: nat :: t <= k < t + limit && !dacBusy(k)
    }

    /** Every access succeeds, and devices that become busy are idle again
        before a wait of `limit` polls gives up. */
    ghost predicate Responsive(limit: nat) {
      && NoFailures()
      && forall t: nat :: AfeIdleWithin(t, limit) && DacIdleWithin(t, limit)
    }

    /** The poll at which a wait from `t` on finds the AFEs idle, if no access
        fails before and `limit` polls are enough. */
    function AfeIdleAt(t: nat, limit: nat): (r: Option<nat>)
      ensures r.Some? ==> t <= r.value < t + limit
      decreases limit
    {
      if limit == 0 || fails(t) then None
      else if afeBusy(t) % 8 == 0 then Some(t)
      else AfeIdleAt(t + 1, limit - 1)
    }

    function DacIdleAt(t: nat, limit: nat): (r: Option<nat>)
      ensures r.Some? ==> t <= r.value < t + limit
      decreases limit
    {
      if limit == 0 || fails(t) then None
      else if !dacBusy(t) then Some(t)
      else DacIdleAt(t + 1, limit - 1)
    }

    function DelayReadyAt(t: nat, limit: nat): (r: Option<nat>)
      ensures r.Some? ==> t <= r.value < t + limit
      decreases limit
    {
      if limit == 0 || fails(t) then None
      else if delayReady(t) then Some(t)
      else DelayReadyAt(t + 1, limit - 1)
    }

    lemma {:induction false} AfeBecomesIdle(t: nat, limit: nat)
      requires NoFailures()
      ensures AfeIdleAt(t, limit).Some? <==> AfeIdleWithin(t, limit)
      decreases limit
    {
      if limit > 0 && afeBusy(t) % 8 != 0 {
        AfeBecomesIdle(t + 1, limit - 1);
        assert AfeIdleWithin(t + 1, limit - 1) <==> AfeIdleWithin(t, limit);
      }
    }

    lemma {:induction false} DacBecomesIdle(t: nat, limit: nat)
      requires NoFailures()
      ensures DacIdleAt(t, limit).Some? <==> DacIdleWithin(t, limit)
      decreases limit
    {
      if limit > 0 && dacBusy(t) {
        DacBecomesIdle(t + 1, limit - 1);
        assert DacIdleWithin(t + 1, limit - 1) <==> DacIdleWithin(t, limit);
      }
    }

    ghost predicate DelayReadyWithin(t: nat, limit: nat) {
      exists k: nat :: t <= k < t + limit && delayReady(k)
    }

    lemma {:induction false} DelayBecomesReady(t: nat, limit: nat)
      requires NoFailures()
      ensures DelayReadyAt(t, limit).Some? <==> DelayReadyWithin(t, limit)
      decreases limit
    {
      if limit > 0 && !delayReady(t) {
        DelayBecomesReady(t + 1, limit - 1);
        assert DelayReadyWithin(t + 1, limit - 1) <==> DelayReadyWithin(t, limit);
      }
    }

    /** A read and the write after it both succeed. */
    predicate BitUpdates(t: nat) {
      !fails(t) && !fails(t + 1)
    }

    /** Responsive devices never make a wait time out. */
    lemma WaitsEnd(t: nat, limit: nat)
      requires Responsive(limit)
      ensures AfeIdleAt(t, limit).Some? && DacIdleAt(t, limit).Some? && limit > 0
    {
      AfeBecomesIdle(t, limit);
      DacBecomesIdle(t, limit);
      assert AfeIdleWithin(t, limit) && DacIdleWithin(t, limit);
    }
  }

  /** The word a successful read returns at time `t`. */
  function Answer(board: Board, env: Environment, t: nat, port: Port): u32 {
    match port
    case GlobalControl => board.control / 32 * 32 + 4 * (env.afeBusy(t) % 8) + board.control % 4
    case AfeControl(afe) =>
      if afe < 5 then env.sample(t) / 0x1_0000 * 0x1_0000 + board.spi[afe].latch else env.sample(t)
    case DacControl => board.dacControl / 2 * 2 + (if env.dacBusy(t) then 1 else 0)
    case FrontendControl => board.frontend
    case FrontendStatus => env.sample(t) / 2 * 2 + (if env.delayReady(t) then 1 else 0)
    case Delay(afe) => if afe < 5 then board.delay[afe] else env.sample(t)
    case Bitslip(afe) => if afe < 5 then board.bitslip[afe] else env.sample(t)
    case _ => env.sample(t)
  }

  /** The register window as the backend holds it. */
  class RegisterBus {
    const env: Environment
    var tick: nat
    var board: Board
    // the frame-clock words returned so far, AFE by AFE
    var frames: seq<seq<Capture>>

    ghost predicate Valid()
      reads this
    {
      |frames| == 5
    }

    constructor (env: Environment, board: Board)
      ensures Valid() && this.env == env && this.board == board && tick == 0
      ensures forall afe :: 0 <= afe < 5 ==> frames[afe] == []
    {
      this.env := env;
      this.board := board;
      tick := 0;
      frames := seq(5, _ => []);
    }

    method Read32(offset: u32) returns (r: Option<u32>)
      requires Valid()
      modifies this`tick, this`frames
      ensures Valid() && tick == old(tick) + 1
      ensures r == if env.fails(old(tick)) then None else Some(Answer(board, env, old(tick), PortOf(offset)))
      ensures r.Some? && PortOf(offset).FrameClock? && PortOf(offset).afe < 5 ==>
        var afe := PortOf(offset).afe;
        frames == old(frames)[afe := old(frames)[afe] + [Capture(r.value, board.captured[afe])]]
      ensures r.None? || !PortOf(offset).FrameClock? ==> frames == old(frames)
    {
      var t := tick;
      tick := tick + 1;
      if env.fails(t) {
        return None;
      }
      r := Some(Answer(board, env, t, PortOf(offset)));
      match PortOf(offset)
      case FrameClock(afe) =>
        if afe < 5 {
          frames := frames[afe := frames[afe] + [Capture(r.value, board.captured[afe])]];
        }
      case _ =>
    }

    method Write32(offset: u32, value: u32) returns (ok: bool)
      requires Valid()
      modifies this`tick, this`board
      ensures Valid() && tick == old(tick) + 1
      ensures ok == !env.fails(old(tick))
      ensures board == if ok then old(board).Write(PortOf(offset), value) else old(board)
    {
      ok := !env.fails(tick);
      tick := tick + 1;
      if ok {
        board := board.Write(PortOf(offset), value);
      }
    }
  }
}
