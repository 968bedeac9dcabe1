/** The records carried by command frames and the compilation of an AFE command
    into a sequence of frames (crates/daphne-sc-core/src/rpu_wire.rs). */
module Records {
  import opened Words
  import opened Afe
  import opened Utf8
  import opened Wire

  datatype ConfigCounts = ConfigCounts(afeCount: u16, channelCount: u16, biasControl: u16)

  datatype AfeRecord = AfeRecord(
    afeBoard: u8, afePl: u8, attenuation: u16, bias: u16, adc: AdcConfig, pga: PgaConfig, lna: LnaConfig)

  datatype ChannelRecord = ChannelRecord(
    channel: u8, afeBoard: u8, afePl: u8, afeChannel: u8, trim: u16, offset: u16, gain: u16)

  const RECORD_MAX: nat := 0xFFFF

  // ---------- packing ----------

  function PackU16Pair(low: u16, high: u16): u32 {
    low + 0x1_0000 * high
  }

  function UnpackU16Pair(value: u32): (u16, u16) {
    (value % 0x1_0000, value / 0x1_0000)
  }

  function Flag(b: bool): u8 {
    if b then 1 else 0
  }

  /** Bit `k` of a byte, for the weights 1, 2 and 4. */
  predicate HasBit(flags: u8, weight: nat)
    requires weight > 0
  {
    flags / weight % 2 == 1
  }

  function PackAdc(adc: AdcConfig): u8 {
    Flag(adc.resolution) + 2 * Flag(adc.outputFormat) + 4 * Flag(adc.msbFirst)
  }

  function UnpackAdc(flags: u8): AdcConfig {
    AdcConfig(HasBit(flags, 1), HasBit(flags, 2), HasBit(flags, 4))
  }

  function PackPgaFlags(pga: PgaConfig): u8 {
    Flag(pga.integratorDisable) + 2 * Flag(pga.gain)
  }

  function UnpackPga(lpfCutFrequency: u8, flags: u8): PgaConfig {
    PgaConfig(lpfCutFrequency, HasBit(flags, 1), HasBit(flags, 2))
  }

  function UnpackLna(clamp: u8, gain: u8, flags: u8): LnaConfig {
    LnaConfig(clamp, gain, HasBit(flags, 1))
  }

  function AfePayload(afe: AfeFrontendConfig): Payload {
    [PackAdc(afe.adc), afe.pga.lpfCutFrequency, PackPgaFlags(afe.pga),
     afe.lna.clamp, afe.lna.gain, Flag(afe.lna.integratorDisable)] + Zeros(26)
  }

  // ---------- reading records from a command ----------

  function RequireOp(actual: Op, expected: Op): Result<(), WireError> {
    if actual == expected then Ok(()) else Err(BadPayload)
  }

  function RequireU16(value: u32): Result<u16, WireError> {
    if value < 0x1_0000 then Ok(value) else Err(OutOfRange(0xFFFF, value))
  }

  function ConfigureCounts(c: Command): Result<ConfigCounts, WireError> {
    var _ :- RequireOp(c.op, BeginConfigureFrontend);
    var (afeCount, channelCount) := UnpackU16Pair(c.flags);
    var biasControl :- RequireU16(c.value);
    Ok(ConfigCounts(afeCount, channelCount, biasControl))
  }

  function AfeConfig(c: Command): Result<AfeRecord, WireError> {
    var _ :- RequireOp(c.op, ConfigureAfe);
    var attenuation :- RequireU16(c.value);
    var bias :- RequireU16(c.flags);
    Ok(AfeRecord(c.afeBoard, c.afePl, attenuation, bias, UnpackAdc(c.payload[0]),
                 UnpackPga(c.payload[1], c.payload[2]), UnpackLna(c.payload[3], c.payload[4], c.payload[5])))
  }

  function ChannelConfig(c: Command): Result<ChannelRecord, WireError> {
    var _ :- RequireOp(c.op, ConfigureChannel);
    var (offset, gain) := UnpackU16Pair(c.flags);
    var trim :- RequireU16(c.value);
    Ok(ChannelRecord(c.channel, c.afeBoard, c.afePl, c.afeChannel, trim, offset, gain))
  }

  function FunctionName(c: Command): Result<seq<u8>, WireError> {
    var _ :- RequireOp(c.op, Op.WriteFunction);
    var length := c.payload[0];
    if length == 0 || length > FUNCTION_NAME_MAX then Err(BadPayload)
    else if ValidUtf8(c.payload[1..1 + length]) then Ok(c.payload[1..1 + length])
    else Err(BadPayload)
  }

  function NamePayload(name: seq<u8>): Result<Payload, WireError> {
    if name == [] then Err(BadPayload)
    else if |name| > FUNCTION_NAME_MAX then Err(PayloadTooLong(FUNCTION_NAME_MAX, |name|))
    else Ok([|name| as u8] + name + Zeros(FUNCTION_NAME_MAX - |name|))
  }

  // ---------- compiling commands ----------

  function BlankCommand(sequence: u64): Command {
    Command(sequence, Op.Status, ToNone, 0, 0, 0, 0, 0, 0, 0, Zeros(PAYLOAD_LEN))
  }

  function SetAfe(c: Command, afe: AfeId): Command {
    c.(target := ToAfe, afeBoard := afe.board, afePl := afe.pl)
  }

  function SetChannel(c: Command, channel: ChannelId): Command {
    c.(target := ToChannel, channel := channel.channel, afeBoard := channel.afe.board,
       afePl := channel.afe.pl, afeChannel := channel.afeChannel)
  }

  function SetTarget(c: Command, target: ChannelTarget): Command {
    match target
    case One(channel) => SetChannel(c, channel)
    case OneAfe(afe) => SetAfe(c, afe)
    case All => c.(target := ToAll)
  }

  /** The single frame of every command but ConfigureFrontend. */
  function FromAfeCommand(sequence: u64, command: AfeCommand): Result<Command, WireError> {
    var wire := BlankCommand(sequence);
    match command
    case ReadRegister(afe, register) => Ok(SetAfe(wire.(op := Op.ReadRegister, register := register), afe))
    case WriteRegister(afe, register, value) =>
      Ok(SetAfe(wire.(op := Op.WriteRegister, register := register, value := value), afe))
    case ReadAttenuation(afe) => Ok(SetAfe(wire.(op := Op.ReadAttenuation), afe))
    case SetAttenuation(afe, value) => Ok(SetAfe(wire.(op := Op.SetAttenuation, value := value), afe))
    case ReadBias(afe) => Ok(SetAfe(wire.(op := Op.ReadBias), afe))
    case SetBias(afe, value) => Ok(SetAfe(wire.(op := Op.SetBias, value := value), afe))
    case ReadTrim(target) => Ok(SetTarget(wire.(op := Op.ReadTrim), target))
    case SetTrim(target, value, highGain) =>
      Ok(SetTarget(wire.(op := Op.SetTrim, value := value, flags := Flag(highGain)), target))
    case ReadOffset(target) => Ok(SetTarget(wire.(op := Op.ReadOffset), target))
    case SetOffset(target, value, highGain) =>
      Ok(SetTarget(wire.(op := Op.SetOffset, value := value, flags := Flag(highGain)), target))
    case ReadVbiasControl => Ok(wire.(op := Op.ReadVbiasControl))
    case SetVbiasControl(value, enable) => Ok(wire.(op := Op.SetVbiasControl, value := value, flags := Flag(enable)))
    case SetReset(asserted) => Ok(wire.(op := Op.SetReset, flags := Flag(asserted)))
    case DoReset => Ok(wire.(op := Op.DoReset))
    case SetPowerState(enabled) => Ok(wire.(op := Op.SetPowerState, flags := Flag(enabled)))
    case Align => Ok(wire.(op := Op.Align))
    case WriteFunction(afe, name, value) =>
      var payload :- NamePayload(name);
      Ok(SetAfe(wire.(op := Op.WriteFunction, value := value, payload := payload), afe))
    case ReadAlignment(afe) => Ok(SetAfe(wire.(op := Op.ReadAlignment), afe))
    case ConfigureFrontend(_, _, _) => Err(UnsupportedCommand)
  }

  /** Wraps at 2^64 and never yields zero. */
  function SequenceForFrame(first: u64, offset: nat): u64 {
    var sum := (first + offset) % 0x1_0000_0000_0000_0000;
    if sum == 0 then 1 else sum
  }

  function BeginFrame(sequence: u64, afeCount: u16, channelCount: u16, biasControl: u16): Command {
    BlankCommand(sequence).(op := BeginConfigureFrontend, value := biasControl,
                            flags := PackU16Pair(afeCount, channelCount))
  }

  function AfeFrame(sequence: u64, afe: AfeFrontendConfig): Command {
    SetAfe(BlankCommand(sequence), afe.afe).(op := ConfigureAfe, value := afe.attenuation, flags := afe.bias,
                                             payload := AfePayload(afe))
  }

  function ChannelFrame(sequence: u64, channel: ChannelFrontendConfig): Command {
    SetChannel(BlankCommand(sequence), channel.channel).(op := ConfigureChannel, value := channel.trim,
                                                         flags := PackU16Pair(channel.offset, channel.gain))
  }

  function ApplyFrame(sequence: u64, afeCount: u16, channelCount: u16): Command {
    BlankCommand(sequence).(op := ApplyConfigureFrontend, flags := PackU16Pair(afeCount, channelCount))
  }

  function AfeFrames(first: u64, afes: seq<AfeFrontendConfig>): (s: seq<Command>)
    ensures |s| == |afes|
  {
    seq(|afes|, i requires 0 <= i < |afes| => AfeFrame(SequenceForFrame(first, 1 + i), afes[i]))
  }

  function ChannelFrames(first: u64, offset: nat, channels: seq<ChannelFrontendConfig>): (s: seq<Command>)
    ensures |s| == |channels|
  {
    seq(|channels|, i requires 0 <= i < |channels| => ChannelFrame(SequenceForFrame(first, offset + i), channels[i]))
  }

  /** Begin, one frame a record, apply. */
  function ConfigureFrames(first: u64, afes: seq<AfeFrontendConfig>, channels: seq<ChannelFrontendConfig>,
                           biasControl: u16): (s: seq<Command>)
    requires |afes| <= RECORD_MAX && |channels| <= RECORD_MAX
    ensures |s| == 2 + |afes| + |channels|
  {
    [BeginFrame(SequenceForFrame(first, 0), |afes|, |channels|, biasControl)]
    + AfeFrames(first, afes)
    + ChannelFrames(first, 1 + |afes|, channels)
    + [ApplyFrame(SequenceForFrame(first, 1 + |afes| + |channels|), |afes|, |channels|)]
  }

  function EnsureRecordCount(count: nat): Result<(), WireError> {
    if count > RECORD_MAX then Err(PayloadTooLong(RECORD_MAX, count)) else Ok(())
  }

  function FrameCount(command: AfeCommand): (r: Result<nat, WireError>)
    ensures r.Ok? ==> 1 <= r.value <= 2 + 2 * RECORD_MAX
  {
    if command.ConfigureFrontend? then
      var _ :- EnsureRecordCount(|command.afes|);
      var _ :- EnsureRecordCount(|command.channels|);
      Ok(2 + |command.afes| + |command.channels|)
    else
      Ok(1)
  }

  /** The frames an AFE command compiles to. */
  function CompiledFrames(first: u64, command: AfeCommand): (r: Result<seq<Command>, WireError>)
    ensures r.Ok? ==> FrameCount(command) == Ok(|r.value|)
  {
    if command.ConfigureFrontend? then
      var _ :- EnsureRecordCount(|command.afes|);
      var _ :- EnsureRecordCount(|command.channels|);
      Ok(ConfigureFrames(first, command.afes, command.channels, command.biasControl))
    else
      var wire :- FromAfeCommand(first, command);
      Ok([wire])
  }

  method ConfigureFrontendSequence(first: u64, afes: seq<AfeFrontendConfig>, channels: seq<ChannelFrontendConfig>,
                                   biasControl: u16)
    returns (r: Result<seq<Command>, WireError>)
    ensures r == CompiledFrames(first, ConfigureFrontend(afes, channels, biasControl))
  {
    hide SequenceForFrame, BeginFrame, AfeFrame, ChannelFrame, ApplyFrame;
    var _ :- EnsureRecordCount(|afes|);
    var _ :- EnsureRecordCount(|channels|);

    var frames := [BeginFrame(SequenceForFrame(first, 0), |afes|, |channels|, biasControl)];
    ghost var begin := frames;
    for i := 0 to |afes|
      invariant |frames| == 1 + i
      invariant frames == begin + AfeFrames(first, afes)[..i]
    {
      frames := frames + [AfeFrame(SequenceForFrame(first, |frames|), afes[i])];
    }
    ghost var middle := frames;
    for i := 0 to |channels|
      invariant |frames| == 1 + |afes| + i
      invariant frames == middle + ChannelFrames(first, 1 + |afes|, channels)[..i]
    {
      frames := frames + [ChannelFrame(SequenceForFrame(first, |frames|), channels[i])];
    }
    assert AfeFrames(first, afes)[..|afes|] == AfeFrames(first, afes);
    assert ChannelFrames(first, 1 + |afes|, channels)[..|channels|] == ChannelFrames(first, 1 + |afes|, channels);
    frames := frames + [ApplyFrame(SequenceForFrame(first, |frames|), |afes|, |channels|)];
    r := Ok(frames);
  }

  method FromAfeCommandSequence(first: u64, command: AfeCommand) returns (r: Result<seq<Command>, WireError>)
    ensures r == CompiledFrames(first, command)
  {
    if command.ConfigureFrontend? {
      r := ConfigureFrontendSequence(first, command.afes, command.channels, command.biasControl);
    } else {
      var wire :- FromAfeCommand(first, command);
      r := Ok([wire]);
    }
  }

  // ---------- what the receiver reads is what the compiler stored ----------

  lemma CountsRecovered(sequence: u64, afeCount: u16, channelCount: u16, biasControl: u16)
    ensures ConfigureCounts(BeginFrame(sequence, afeCount, channelCount, biasControl))
         == Ok(ConfigCounts(afeCount, channelCount, biasControl))
  {
    hide PackU16Pair, UnpackU16Pair;
    PairRecovered(afeCount, channelCount);
  }

  lemma PairRecovered(low: u16, high: u16)
    ensures UnpackU16Pair(PackU16Pair(low, high)) == (low, high)
  {}

  function RecordOfAfe(afe: AfeFrontendConfig): AfeRecord {
    AfeRecord(afe.afe.board, afe.afe.pl, afe.attenuation, afe.bias, afe.adc, afe.pga, afe.lna)
  }

  function RecordOfChannel(c: ChannelFrontendConfig): ChannelRecord {
    ChannelRecord(c.channel.channel, c.channel.afe.board, c.channel.afe.pl, c.channel.afeChannel,
                  c.trim, c.offset, c.gain)
  }

  lemma AfeRecordRecovered(sequence: u64, afe: AfeFrontendConfig)
    ensures AfeConfig(AfeFrame(sequence, afe)) == Ok(RecordOfAfe(afe))
  {
    var p := AfePayload(afe);
    assert UnpackAdc(p[0]) == afe.adc;
    assert UnpackPga(p[1], p[2]) == afe.pga;
    assert UnpackLna(p[3], p[4], p[5]) == afe.lna;
  }

  lemma ChannelRecordRecovered(sequence: u64, c: ChannelFrontendConfig)
    ensures ChannelConfig(ChannelFrame(sequence, c)) == Ok(RecordOfChannel(c))
  {
    hide PackU16Pair, UnpackU16Pair;
    PairRecovered(c.offset, c.gain);
  }

  /** Where the fields of an AFE record are in its frame. */
  lemma AfeRecordBytes(sequence: u64, a: AfeFrontendConfig)
    ensures var f := EncodedCommand(AfeFrame(sequence, a));
            && f[16] == 1 && f[17] == a.afe.board && f[18] == a.afe.pl
            && LittleEndian(f, 24, 4, a.attenuation) && LittleEndian(f, 28, 4, a.bias)
            && f[32] < 8 && (f[32] % 2 == 1 <==> a.adc.resolution)
            && (f[32] / 2 % 2 == 1 <==> a.adc.outputFormat) && (f[32] / 4 == 1 <==> a.adc.msbFirst)
            && f[33] == a.pga.lpfCutFrequency
            && f[34] < 4 && (f[34] % 2 == 1 <==> a.pga.integratorDisable) && (f[34] / 2 == 1 <==> a.pga.gain)
            && f[35] == a.lna.clamp && f[36] == a.lna.gain
            && f[37] < 2 && (f[37] == 1 <==> a.lna.integratorDisable)
  {
    hide LittleEndian, EncodedCommand;
    var c := AfeFrame(sequence, a);
    CommandBytes(c);
    PayloadByte(c, 0);
    PayloadByte(c, 1);
    PayloadByte(c, 2);
    PayloadByte(c, 3);
    PayloadByte(c, 4);
    PayloadByte(c, 5);
  }

  lemma PayloadByte(c: Command, i: nat)
    requires i < PAYLOAD_LEN
    ensures EncodedCommand(c)[32 + i] == c.payload[i]
  {
    hide EncodedCommand, LittleEndian;
    CommandBytes(c);
    var payload := EncodedCommand(c)[32..];
    assert payload[i] == EncodedCommand(c)[32 + i];
  }

  /** And of a channel record. */
  lemma ChannelRecordBytes(sequence: u64, c: ChannelFrontendConfig)
    ensures var f := EncodedCommand(ChannelFrame(sequence, c));
            && f[16] == 2 && f[17] == c.channel.afe.board && f[18] == c.channel.afe.pl
            && f[19] == c.channel.channel && f[20] == c.channel.afeChannel
            && LittleEndian(f, 24, 4, c.trim) && LittleEndian(f, 28, 2, c.offset) && LittleEndian(f, 30, 2, c.gain)
  {
    hide LittleEndian, EncodedCommand, PackU16Pair;
    CommandBytes(ChannelFrame(sequence, c));
    PairBytes(EncodedCommand(ChannelFrame(sequence, c)), c.offset, c.gain);
  }

  /** And the counts of a Begin and of the frame that ends it. */
  lemma CountsBytes(sequence: u64, afeCount: u16, channelCount: u16, biasControl: u16)
    ensures var f := EncodedCommand(BeginFrame(sequence, afeCount, channelCount, biasControl));
            && LittleEndian(f, 24, 4, biasControl)
            && LittleEndian(f, 28, 2, afeCount) && LittleEndian(f, 30, 2, channelCount)
    ensures var f := EncodedCommand(ApplyFrame(sequence, afeCount, channelCount));
            && LittleEndian(f, 28, 2, afeCount) && LittleEndian(f, 30, 2, channelCount)
  {
    hide LittleEndian, EncodedCommand, PackU16Pair;
    CommandBytes(BeginFrame(sequence, afeCount, channelCount, biasControl));
    PairBytes(EncodedCommand(BeginFrame(sequence, afeCount, channelCount, biasControl)), afeCount, channelCount);
    CommandBytes(ApplyFrame(sequence, afeCount, channelCount));
    PairBytes(EncodedCommand(ApplyFrame(sequence, afeCount, channelCount)), afeCount, channelCount);
  }

  lemma PairBytes(f: Frame, low: u16, high: u16)
    requires LittleEndian(f, 28, 4, PackU16Pair(low, high))
    ensures LittleEndian(f, 28, 2, low) && LittleEndian(f, 30, 2, high)
  {
    hide ByteOf;
    forall i | 0 <= i < 2 ensures f[28 + i] == ByteOf(low, i) && f[30 + i] == ByteOf(high, i) {
      PairByte(low, high, i);
      assert f[28 + i] == ByteOf(PackU16Pair(low, high), i);
      assert f[28 + (i + 2)] == ByteOf(PackU16Pair(low, high), i + 2);
    }
  }

  lemma PairByte(low: u16, high: u16, i: nat)
    requires i < 2
    ensures ByteOf(PackU16Pair(low, high), i) == ByteOf(low, i)
    ensures ByteOf(PackU16Pair(low, high), i + 2) == ByteOf(high, i)
  {
    var v := PackU16Pair(low, high);
    assert v % 256 == low % 256 && v / 256 == low / 256 + 256 * high;
    assert v / 256 / 256 == high;
    assert v / 256 % 256 == low / 256;
  }

  lemma NamePayloadSlice(name: seq<u8>)
    requires 1 <= |name| <= FUNCTION_NAME_MAX
    ensures NamePayload(name).Ok?
    ensures NamePayload(name).value[0] == |name|
    ensures NamePayload(name).value[1..1 + |name|] == name
  {}

  lemma NameRead(c: Command, name: seq<u8>)
    requires c.op == Op.WriteFunction && 1 <= |name| <= FUNCTION_NAME_MAX
    requires c.payload[0] == |name| && c.payload[1..1 + |name|] == name
    ensures FunctionName(c) == if ValidUtf8(name) then Ok(name) else Err(BadPayload)
  {}

  lemma NameFrame(sequence: u64, afe: AfeId, name: seq<u8>, value: u16)
    ensures var r := FromAfeCommand(sequence, AfeCommand.WriteFunction(afe, name, value));
            && (r.Ok? <==> 1 <= |name| <= FUNCTION_NAME_MAX)
            && (r.Ok? ==> r.value.op == Op.WriteFunction && Ok(r.value.payload) == NamePayload(name))
  {}

  /** A function name is recovered exactly when it is nonempty, fits in the
      payload and is well-formed UTF-8, which every name in the source is. */
  lemma FunctionNameRecovered(sequence: u64, afe: AfeId, name: seq<u8>, value: u16, c: Command)
    requires FromAfeCommand(sequence, AfeCommand.WriteFunction(afe, name, value)) == Ok(c)
    ensures FunctionName(c) == if ValidUtf8(name) then Ok(name) else Err(BadPayload)
  {
    NameFrame(sequence, afe, name, value);
    NamePayloadSlice(name);
    NameRead(c, name);
  }
}
