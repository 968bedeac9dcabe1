/** AFE and channel identities and the commands of the slow-control API
    (crates/daphne-sc-core/src/afe.rs). */
module Afe {
  import opened Words

  const AFE_COUNT: u8 := 5
  const CHANNELS_PER_AFE: u8 := 8
  const CHANNEL_COUNT: u8 := 40
  const DAC_12BIT_MAX: u16 := 4095

  const AFE_BOARD_TO_PL: seq<u8> := [0, 4, 3, 2, 1]

  datatype AfeValidationError =
    | AfeOutOfRange(afe: u8)
    | ChannelOutOfRange(channel: u8)
    | ValueOutOfRange(value: u16, max: u16)

  // The fields of the two identity types are private in the source, so a
  // value exists only if a constructor built it: the subset types say what
  // the constructors guarantee.

  datatype AfeIdFields = AfeIdFields(board: u8, pl: u8)

  type AfeId = a: AfeIdFields | a.board < AFE_COUNT && a.pl == AFE_BOARD_TO_PL[a.board]
    witness AfeIdFields(0, 0)

  datatype ChannelIdFields = ChannelIdFields(channel: u8, afe: AfeId, afeChannel: u8)

  type ChannelId = c: ChannelIdFields |
    && c.channel < CHANNEL_COUNT
    && c.afe.board == c.channel / CHANNELS_PER_AFE
    && c.afeChannel == c.channel % CHANNELS_PER_AFE
    witness ChannelIdFields(0, AfeIdFields(0, 0), 0)

  /** Two AFEs share a PL number only if they are the same AFE. */
  lemma PlIsInjective(a: AfeId, b: AfeId)
    ensures a.pl < AFE_COUNT
    ensures a.pl == b.pl <==> a == b
  {}

  /** Board AFE 0 is PL AFE 0, the others count down, and the table is its own
      inverse. */
  lemma PlCountsDown(a: AfeId)
    ensures a.pl == if a.board == 0 then 0 else 5 - a.board
    ensures a.pl < AFE_COUNT && AFE_BOARD_TO_PL[a.pl] == a.board
  {}

  /** A channel is the one and only channel at its (PL AFE, AFE channel) place. */
  lemma PlaceIsInjective(c: ChannelId, d: ChannelId)
    ensures c.afe.pl < AFE_COUNT && c.afeChannel < CHANNELS_PER_AFE
    ensures c.afe.pl == d.afe.pl && c.afeChannel == d.afeChannel <==> c == d
    ensures c.channel == d.channel <==> c == d
  {
    PlIsInjective(c.afe, d.afe);
  }

  // ---------- commands ----------

  datatype ChannelTarget = One(channel: ChannelId) | OneAfe(afe: AfeId) | All

  datatype AdcConfig = AdcConfig(resolution: bool, outputFormat: bool, msbFirst: bool)

  datatype PgaConfig = PgaConfig(lpfCutFrequency: u8, integratorDisable: bool, gain: bool)

  datatype LnaConfig = LnaConfig(clamp: u8, gain: u8, integratorDisable: bool)

  datatype AfeFrontendConfig =
    AfeFrontendConfig(afe: AfeId, attenuation: u16, bias: u16, adc: AdcConfig, pga: PgaConfig, lna: LnaConfig)

  datatype ChannelFrontendConfig =
    ChannelFrontendConfig(channel: ChannelId, trim: u16, offset: u16, gain: u16)

  datatype AfeCommand =
    | ReadRegister(afe: AfeId, register: u8)
    | WriteRegister(afe: AfeId, register: u8, value: u16)
    | ReadAttenuation(afe: AfeId)
    | SetAttenuation(afe: AfeId, value: u16)
    | ReadBias(afe: AfeId)
    | SetBias(afe: AfeId, value: u16)
    | ReadTrim(target: ChannelTarget)
    | SetTrim(target: ChannelTarget, value: u16, highGain: bool)
    | ReadOffset(target: ChannelTarget)
    | SetOffset(target: ChannelTarget, value: u16, highGain: bool)
    | ReadVbiasControl
    | SetVbiasControl(value: u16, enable: bool)
    | SetReset(asserted: bool)
    | DoReset
    | SetPowerState(enabled: bool)
    | WriteFunction(afe: AfeId, name: seq<u8>, value: u16)
    | ReadAlignment(afe: AfeId)
    | ConfigureFrontend(afes: seq<AfeFrontendConfig>, channels: seq<ChannelFrontendConfig>, biasControl: u16)
    | Align
  {
    function Validate(): Result<(), AfeValidationError> {
      match this
      case SetAttenuation(_, value) => Validate12Bit(value)
      case SetBias(_, value) => Validate12Bit(value)
      case SetTrim(_, value, _) => Validate12Bit(value)
      case SetOffset(_, value, _) => Validate12Bit(value)
      case SetVbiasControl(value, _) => Validate12Bit(value)
      case ConfigureFrontend(afes, channels, biasControl) =>
        var _ :- Validate12Bit(biasControl);
        var _ :- ValidateAfes(afes);
        ValidateChannels(channels)
      case _ => Ok(())
    }
  }

  /** Of every command exactly the twelve-bit values it carries are checked. */
  lemma ValidExactly(command: AfeCommand)
    ensures command.Validate().Ok? <==>
      && (command.SetAttenuation? ==> command.value <= DAC_12BIT_MAX)
      && (command.SetBias? ==> command.value <= DAC_12BIT_MAX)
      && (command.SetTrim? ==> command.value <= DAC_12BIT_MAX)
      && (command.SetOffset? ==> command.value <= DAC_12BIT_MAX)
      && (command.SetVbiasControl? ==> command.value <= DAC_12BIT_MAX)
      && (command.ConfigureFrontend? ==>
            && command.biasControl <= DAC_12BIT_MAX
            && (forall a :: a in command.afes ==> a.attenuation <= DAC_12BIT_MAX && a.bias <= DAC_12BIT_MAX)
            && (forall c :: c in command.channels ==> c.trim <= DAC_12BIT_MAX && c.offset <= DAC_12BIT_MAX))
  {
    hide ValidateAfes, ValidateChannels;
  }

  function Validate12Bit(value: u16): Result<(), AfeValidationError> {
    if value > DAC_12BIT_MAX then Err(ValueOutOfRange(value, DAC_12BIT_MAX)) else Ok(())
  }

  function ValidateAfes(afes: seq<AfeFrontendConfig>): (r: Result<(), AfeValidationError>)
    ensures r.Ok? <==> forall a :: a in afes ==> a.attenuation <= DAC_12BIT_MAX && a.bias <= DAC_12BIT_MAX
  {
    if afes == [] then Ok(())
    else
      var _ :- Validate12Bit(afes[0].attenuation);
      var _ :- Validate12Bit(afes[0].bias);
      ValidateAfes(afes[1..])
  }

  function ValidateChannels(channels: seq<ChannelFrontendConfig>): (r: Result<(), AfeValidationError>)
    ensures r.Ok? <==> forall c :: c in channels ==> c.trim <= DAC_12BIT_MAX && c.offset <= DAC_12BIT_MAX
  {
    if channels == [] then Ok(())
    else
      var _ :- Validate12Bit(channels[0].trim);
      var _ :- Validate12Bit(channels[0].offset);
      ValidateChannels(channels[1..])
  }
}
