/** The FPGA register map, the DAC routes and the packing of DAC and SPI words
    (crates/daphne-sc-core/src/afe_hw.rs). */
module AfeHw {
  import opened Words
  import opened Afe

  const AFE_GLOBAL_CONTROL_OFFSET: u32 := 0x0000_0000
  const AFE_CONTROL_BASE_OFFSET: u32 := 0x0000_0004
  const AFE_DAC_TRIM_BASE_OFFSET: u32 := 0x0000_0008
  const AFE_DAC_OFFSET_BASE_OFFSET: u32 := 0x0000_000C
  const AFE_REGISTER_STRIDE: u32 := 0x0000_000C

  const DAC_GAIN_BIAS_CONTROL_OFFSET: u32 := 0x0C00_0000
  const BIAS_ENABLE_OFFSET: u32 := 0x1400_000C

  const FRONTEND_CONTROL_OFFSET: u32 := 0x0800_0000
  const FRONTEND_STATUS_OFFSET: u32 := 0x0800_0004
  const FRONTEND_TRIGGER_OFFSET: u32 := 0x0800_0008
  const FRONTEND_DELAY_BASE_OFFSET: u32 := 0x0800_000C
  const FRONTEND_BITSLIP_BASE_OFFSET: u32 := 0x0800_0020
  const FRONTEND_AFE_STRIDE: u32 := 0x0000_0004

  const SPY_BUFFER_BASE_OFFSET: u32 := 0x1000_0000
  const SPY_BUFFER_AFE_STRIDE: u32 := 0x0000_9000
  const SPY_BUFFER_CHANNEL_STRIDE: u32 := 0x0000_1000
  const SPY_BUFFER_FRAME_CLOCK_CHANNEL: u32 := 8

  const AFE_GLOBAL_RESET_BIT: nat := 0
  const AFE_GLOBAL_POWERSTATE_BIT: nat := 1

  const FRONTEND_DELAYCTRL_RESET_BIT: nat := 0
  const FRONTEND_SERDES_RESET_BIT: nat := 1
  const FRONTEND_DELAY_EN_VTC_BIT: nat := 2
  const FRONTEND_TRIGGER_WORD: u32 := 0xBABA
  const FRONTEND_DELAY_TAPS: nat := 512
  const FRONTEND_BITSLIP_TAPS: nat := 16
  const FRONTEND_VERIFY_READS: nat := 4
  const FRONTEND_EXPECTED_FCLK_WORD: u32 := 0x00FF_00FF

  const AFE_SPI_TRIGGER_WORD: u32 := 2
  const AFE_SPI_IDLE_WORD: u32 := 0

  const DAC_GO_BIT: nat := 1

  // ---------- offsets ----------

  function AfeRegisterOffset(base: u32, afePl: u8): Option<u32>
    requires base <= 0x10
  {
    if afePl < AFE_COUNT then Some(base + AFE_REGISTER_STRIDE * afePl) else None
  }

  function AfeControlOffset(afePl: u8): Option<u32> {
    AfeRegisterOffset(AFE_CONTROL_BASE_OFFSET, afePl)
  }

  function AfeDacTrimOffset(afePl: u8): Option<u32> {
    AfeRegisterOffset(AFE_DAC_TRIM_BASE_OFFSET, afePl)
  }

  function AfeDacOffsetOffset(afePl: u8): Option<u32> {
    AfeRegisterOffset(AFE_DAC_OFFSET_BASE_OFFSET, afePl)
  }

  function FrontendDelayOffset(afeBoard: u8): Option<u32> {
    if afeBoard < AFE_COUNT then Some(FRONTEND_DELAY_BASE_OFFSET + FRONTEND_AFE_STRIDE * afeBoard) else None
  }

  function FrontendBitslipOffset(afeBoard: u8): Option<u32> {
    if afeBoard < AFE_COUNT then Some(FRONTEND_BITSLIP_BASE_OFFSET + FRONTEND_AFE_STRIDE * afeBoard) else None
  }

  /** The frame-clock word of an AFE, at sample 0 of its spy buffer. */
  function FrameClockOffset(afeBoard: u8): Option<u32> {
    if afeBoard < AFE_COUNT then
      Some(SPY_BUFFER_BASE_OFFSET + SPY_BUFFER_AFE_STRIDE * afeBoard
           + SPY_BUFFER_CHANNEL_STRIDE * SPY_BUFFER_FRAME_CLOCK_CHANNEL)
    else
      None
  }

  // ---------- DAC routes ----------

  datatype DacChip = U50 | U53 | U5

  datatype DacRoute = DacRoute(chip: DacChip, channel: u8)

  function DacGainBiasOffset(chip: DacChip): u32 {
    match chip case U50 => 0x0C00_0004 case U53 => 0x0C00_0008 case U5 => 0x0C00_000C
  }

  const AFE_GAIN_DAC_ROUTES: seq<DacRoute> :=
    [DacRoute(U50, 0), DacRoute(U50, 1), DacRoute(U50, 2), DacRoute(U50, 3), DacRoute(U5, 1)]

  const AFE_BIAS_DAC_ROUTES: seq<DacRoute> :=
    [DacRoute(U53, 0), DacRoute(U53, 1), DacRoute(U53, 2), DacRoute(U53, 3), DacRoute(U5, 0)]

  const VBIAS_DAC_ROUTE: DacRoute := DacRoute(U5, 2)

  /** The eleven analogue outputs the three chips drive. */
  datatype Output = Gain(afe: nat) | Bias(afe: nat) | Vbias

  predicate IsOutput(o: Output) {
    o.Vbias? || o.afe < AFE_COUNT
  }

  function Route(o: Output): DacRoute
    requires IsOutput(o)
  {
    match o
    case Gain(afe) => AFE_GAIN_DAC_ROUTES[afe]
    case Bias(afe) => AFE_BIAS_DAC_ROUTES[afe]
    case Vbias => VBIAS_DAC_ROUTE
  }

  /** AFE 0 to 3 have their own channel of U50 and of U53; U5 serves AFE 4 and
      VBIAS. */
  lemma RoutesByChip(o: Output)
    requires IsOutput(o)
    ensures Route(o).chip == (if o == Vbias || o.afe == 4 then U5 else if o.Gain? then U50 else U53)
    ensures o != Vbias && o.afe < 4 ==> Route(o).channel == o.afe
    ensures Route(Bias(4)).channel == 0 && Route(Gain(4)).channel == 1 && Route(Vbias).channel == 2
  {}

  /** No two outputs share a pin, although U5 serves three of them. */
  lemma RoutesAreInjective(o: Output, p: Output)
    requires IsOutput(o) && IsOutput(p)
    ensures Route(o).channel < 4
    ensures Route(o) == Route(p) <==> o == p
  {}

  // ---------- words ----------
  // The fields the source joins with `|` do not overlap, so `+` joins them.

  /** The route's gain and buffer bits are false in every route. */
  function DacGainBiasWord(route: DacRoute, value: u16): u32 {
    0x4000 * (route.channel % 4) + value % 0x1000
  }

  function DacTrimOffsetHalf(channel: u8, value: u16, gain: bool): u16 {
    0x4000 * (channel % 4) + (if gain then 0x2000 else 0) + value % 0x1000
  }

  function DacPairWord(lowHalf: u16, highHalf: u16): u32 {
    0x1_0000 * highHalf + lowHalf
  }

  function DacCompanionChannel(channel: u8): Option<u8> {
    if channel < 4 then Some(channel + 4) else if channel < 8 then Some(channel - 4) else None
  }

  predicate DacChannelIsHighHalf(channel: u8) {
    channel >= 4
  }

  function AfeRegisterWord(register: u16, value: u16): u32 {
    0x1_0000 * (register % 0x100) + value
  }

  function AfeRegisterAddressWord(register: u16): u32 {
    0x1_0000 * (register % 0x100)
  }

  /** Bit `k` of a word, for the three lowest bits. */
  predicate BitIsSet(value: u32, k: nat)
    requires k < 3
  {
    var low := value % 8;
    match k
    case 0 => low == 1 || low == 3 || low == 5 || low == 7
    case 1 => low == 2 || low == 3 || low == 6 || low == 7
    case _ => low >= 4
  }

  /** The word with that bit set or cleared. */
  function WithBit(value: u32, k: nat, asserted: bool): u32
    requires k < 3
  {
    var weight := match k case 0 => 1 case 1 => 2 case _ => 4;
    if BitIsSet(value, k) == asserted then value
    else if asserted then value + weight
    else value - weight
  }

  lemma WithBitSetsOneBit(value: u32, k: nat, asserted: bool)
    requires k < 3
    ensures var r := WithBit(value, k, asserted);
            && BitIsSet(r, k) == asserted && r / 8 == value / 8
            && forall j :: 0 <= j < 3 && j != k ==> BitIsSet(r, j) == BitIsSet(value, j)
  {
    var q, d := value / 8, value % 8;
    var r := WithBit(value, k, asserted);
    var e := d + (r - value);
    assert r == 8 * q + e && 0 <= e < 8;
    assert r / 8 == q && r % 8 == e;
  }

  /** The three busy bits of the global control word (bits 2 to 4). */
  function BusyBits(value: u32): nat {
    value / 4 % 8
  }

  // ---------- the address decoder ----------

  datatype Port =
    | GlobalControl
    | AfeControl(afe: nat) | TrimDac(afe: nat) | OffsetDac(afe: nat)
    | DacControl | DacLatch(chip: DacChip) | BiasEnable
    | FrontendControl | FrontendStatus | FrontendTrigger
    | Delay(afe: nat) | Bitslip(afe: nat) | FrameClock(afe: nat)
    | Unmapped

  /** Which device an offset selects. */
  function PortOf(offset: u32): Port {
    if offset == AFE_GLOBAL_CONTROL_OFFSET then GlobalControl
    else if 4 <= offset < 64 then
      var afe := (offset - 4) / 12;
      if (offset - 4) % 12 == 0 then AfeControl(afe)
      else if (offset - 4) % 12 == 4 then TrimDac(afe)
      else if (offset - 4) % 12 == 8 then OffsetDac(afe)
      else Unmapped
    else if offset == DAC_GAIN_BIAS_CONTROL_OFFSET then DacControl
    else if offset == DacGainBiasOffset(U50) then DacLatch(U50)
    else if offset == DacGainBiasOffset(U53) then DacLatch(U53)
    else if offset == DacGainBiasOffset(U5) then DacLatch(U5)
    else if offset == BIAS_ENABLE_OFFSET then BiasEnable
    else if offset == FRONTEND_CONTROL_OFFSET then FrontendControl
    else if offset == FRONTEND_STATUS_OFFSET then FrontendStatus
    else if offset == FRONTEND_TRIGGER_OFFSET then FrontendTrigger
    else if FRONTEND_DELAY_BASE_OFFSET <= offset < FRONTEND_BITSLIP_BASE_OFFSET && offset % 4 == 0 then
      Delay((offset - FRONTEND_DELAY_BASE_OFFSET) / 4)
    else if FRONTEND_BITSLIP_BASE_OFFSET <= offset < FRONTEND_BITSLIP_BASE_OFFSET + 20 && offset % 4 == 0 then
      Bitslip((offset - FRONTEND_BITSLIP_BASE_OFFSET) / 4)
    else if 0x1000_8000 <= offset < 0x1003_5000 && (offset - 0x1000_8000) % 0x9000 == 0 then
      FrameClock((offset - 0x1000_8000) / 0x9000)
    else Unmapped
  }

  /** The register map has no overlap: each offset helper selects its own
      device, and the decoder gives the AFE back. */
  lemma OffsetsSelectTheirPorts(afe: u8)
    requires afe < AFE_COUNT
    ensures AfeControlOffset(afe).Some? && AfeDacTrimOffset(afe).Some? && AfeDacOffsetOffset(afe).Some?
    ensures FrontendDelayOffset(afe).Some? && FrontendBitslipOffset(afe).Some? && FrameClockOffset(afe).Some?
    ensures PortOf(AfeControlOffset(afe).value) == AfeControl(afe)
    ensures PortOf(AfeDacTrimOffset(afe).value) == TrimDac(afe)
    ensures PortOf(AfeDacOffsetOffset(afe).value) == OffsetDac(afe)
    ensures PortOf(FrontendDelayOffset(afe).value) == Delay(afe)
    ensures PortOf(FrontendBitslipOffset(afe).value) == Bitslip(afe)
    ensures PortOf(FrameClockOffset(afe).value) == FrameClock(afe)
  {
    hide PortOf;
    AfePortsSelected(afe);
    FrontendPortsSelected(afe);
  }

  lemma AfePortsSelected(afe: u8)
    requires afe < AFE_COUNT
    ensures PortOf(AfeControlOffset(afe).value) == AfeControl(afe)
    ensures PortOf(AfeDacTrimOffset(afe).value) == TrimDac(afe)
    ensures PortOf(AfeDacOffsetOffset(afe).value) == OffsetDac(afe)
  {}

  lemma FrontendPortsSelected(afe: u8)
    requires afe < AFE_COUNT
    ensures PortOf(FrontendDelayOffset(afe).value) == Delay(afe)
    ensures PortOf(FrontendBitslipOffset(afe).value) == Bitslip(afe)
    ensures PortOf(FrameClockOffset(afe).value) == FrameClock(afe)
  {}
}
