/** The staging area of the backend and the meaning of applying it
    (crates/daphne-sc-rpu/src/mmio.rs, lines 401-485 and 661-797). */
module Staging {
  import opened Words
  import opened Afe
  import opened AfeHw
  import opened Board
  import opened DacOutputs
  import opened PairedDacs
  import opened Records
  import opened Frontend

  const EIGHT_EMPTY: seq<Option<ChannelRecord>> := [None, None, None, None, None, None, None, None]

  type AfeSlots = s: seq<Option<AfeRecord>> | |s| == 5 witness [None, None, None, None, None]
  type ChannelSlots = s: seq<Option<ChannelRecord>> | |s| == 40
    witness EIGHT_EMPTY + EIGHT_EMPTY + EIGHT_EMPTY + EIGHT_EMPTY + EIGHT_EMPTY

  function Filled<T>(s: seq<Option<T>>): (n: nat)
    ensures n <= |s|
  {
    if s == [] then 0 else Filled(s[..|s| - 1]) + if s[|s| - 1].Some? then 1 else 0
  }

  const NO_AFES: AfeSlots := [None, None, None, None, None]
  const NO_CHANNELS: ChannelSlots := EIGHT_EMPTY + EIGHT_EMPTY + EIGHT_EMPTY + EIGHT_EMPTY + EIGHT_EMPTY

  datatype StagedConfig = StagedConfig(active: bool, counts: ConfigCounts, afes: AfeSlots, channels: ChannelSlots) {
    predicate CountsMatch() {
      Filled(afes) == counts.afeCount && Filled(channels) == counts.channelCount
    }
  }

  const UNSTAGED: StagedConfig := StagedConfig(false, ConfigCounts(0, 0, 0), NO_AFES, NO_CHANNELS)

  function NewStaged(counts: ConfigCounts): StagedConfig {
    StagedConfig(true, counts, NO_AFES, NO_CHANNELS)
  }

  // ---------- which staged records can be applied ----------

  predicate ChannelApplicable(c: ChannelRecord) {
    c.afePl < AFE_COUNT && c.afeChannel < CHANNELS_PER_AFE && c.trim <= DAC_12BIT_MAX && c.offset <= DAC_12BIT_MAX
  }

  predicate AfeApplicable(c: AfeRecord) {
    c.afePl < AFE_COUNT && c.attenuation <= DAC_12BIT_MAX && c.bias <= DAC_12BIT_MAX && FunctionsInRange(c)
  }

  predicate ChannelsApplicable(slots: seq<Option<ChannelRecord>>) {
    forall i :: 0 <= i < |slots| && slots[i].Some? ==> ChannelApplicable(slots[i].value)
  }

  predicate AfesApplicable(slots: seq<Option<AfeRecord>>) {
    forall i :: 0 <= i < |slots| && slots[i].Some? ==> AfeApplicable(slots[i].value)
  }

  predicate Programmable(s: StagedConfig) {
    s.counts.biasControl <= DAC_12BIT_MAX && ChannelsApplicable(s.channels) && AfesApplicable(s.afes)
  }

  predicate Applicable(s: StagedConfig) {
    s.active && s.CountsMatch() && Programmable(s)
  }

  // ---------- the writes an apply makes, slot by slot ----------

  function PlaceOf(c: ChannelRecord): Place {
    Place(c.afePl, c.afeChannel)
  }

  datatype Quantity = Trim | Offset {
    function Of(c: ChannelRecord): u16 {
      match this case Trim => c.trim case Offset => c.offset
    }
  }

  function ChannelWrite(c: ChannelRecord, q: Quantity): PairWrite {
    PairWrite(PlaceOf(c), q.Of(c), false)
  }

  function ChannelWrites(slots: seq<Option<ChannelRecord>>, q: Quantity): (ws: seq<PairWrite>)
    requires ChannelsApplicable(slots)
    ensures forall w :: w in ws ==> w.place.Exists() && w.value <= DAC_12BIT_MAX
  {
    if slots == [] then []
    else
      var last := slots[|slots| - 1];
      ChannelWrites(slots[..|slots| - 1], q) + if last.Some? then [ChannelWrite(last.value, q)] else []
  }

  /** Attenuation, then the bias unless it is zero. */
  function AfeLevels(c: AfeRecord): (ws: seq<LevelWrite>)
    requires AfeApplicable(c)
    ensures forall w :: w in ws ==> InRange(w)
  {
    [LevelWrite(Gain(c.afePl), c.attenuation)]
    + if c.bias != 0 then [LevelWrite(Bias(c.afePl), c.bias)] else []
  }

  function LevelWrites(slots: seq<Option<AfeRecord>>): (ws: seq<LevelWrite>)
    requires AfesApplicable(slots)
    ensures forall w :: w in ws ==> InRange(w)
  {
    if slots == [] then []
    else
      var last := slots[|slots| - 1];
      LevelWrites(slots[..|slots| - 1]) + if last.Some? then AfeLevels(last.value) else []
  }

  type Files = s: seq<RegisterFile> | |s| == 5
    witness [RESET_SPI.file, RESET_SPI.file, RESET_SPI.file, RESET_SPI.file, RESET_SPI.file]

  function ConfiguredFile(file: RegisterFile, c: AfeRecord): RegisterFile
    requires FunctionsInRange(c)
  {
    FrontendWritesAllowed(c);
    WriteFields(file, FrontendFields(c))
  }

  predicate WritableUpTo(c: AfeRecord, k: nat)
    requires k <= 12
  {
    forall j :: 0 <= j < k ==> Writable(FrontendWrite(c, j))
  }

  /** The file after the first `k` of the twelve function writes. */
  function FieldsUpTo(file: RegisterFile, c: AfeRecord, k: nat): RegisterFile
    requires k <= 12 && WritableUpTo(c, k)
  {
    WriteFields(file, FrontendFields(c)[..k])
  }

  lemma NextField(file: RegisterFile, c: AfeRecord, k: nat)
    requires k < 12 && WritableUpTo(c, k + 1)
    ensures FieldsUpTo(file, c, k + 1) == WriteField(FieldsUpTo(file, c, k), FrontendWrite(c, k))
  {
    var ws := FrontendFields(c);
    assert ws[..k + 1][..k] == ws[..k];
  }

  lemma AllFields(file: RegisterFile, c: AfeRecord)
    ensures WritableUpTo(c, 12) <==> FunctionsInRange(c)
    ensures WritableUpTo(c, 12) ==> FieldsUpTo(file, c, 12) == ConfiguredFile(file, c)
  {
    assert forall j :: 0 <= j < 12 ==> FrontendFields(c)[j] == FrontendWrite(c, j);
    assert forall j :: 0 <= j < 12 ==> FrontendFields(c)[j] in FrontendFields(c);
    FrontendWritesAllowed(c);
    assert FrontendFields(c)[..12] == FrontendFields(c);
  }

  function ConfigureSlot(files: Files, slot: Option<AfeRecord>): Files
    requires slot.Some? ==> AfeApplicable(slot.value)
  {
    match slot
    case None => files
    case Some(c) => files[c.afePl := ConfiguredFile(files[c.afePl], c)]
  }

  function ConfiguredFiles(files: Files, slots: seq<Option<AfeRecord>>): Files
    requires AfesApplicable(slots)
  {
    if slots == [] then files
    else
      ConfigureSlot(ConfiguredFiles(files, slots[..|slots| - 1]), slots[|slots| - 1])
  }

  // ---------- the frontend as commands see it ----------

  /** The reset and power lines and the bias enable register. */
  datatype Lines = Lines(reset: bool, power: bool, biasEnable: u32)

  /** VTC, the taps, the resets of the receiver, and the frame-clock words
      captured so far, AFE by AFE. */
  datatype Timing = Timing(vtc: bool, delay: Taps, bitslip: Taps, resets: Resets, frames: seq<seq<Capture>>)

  /** Cached values and device contents, side by side. */
  datatype FrontendView = FrontendView(
    trim: PairDac, offset: PairDac, dac: DacState, vbiasEnabled: bool,
    files: Files, afterReset: ResetFiles, lines: Lines, timing: Timing)
  {
    /** The reset line driven: asserting it restarts every chip. */
    function Reset(asserted: bool): FrontendView {
      this.(lines := lines.(reset := asserted), files := if asserted then afterReset else files)
    }

    /** The power line driven. Its bit shares a word with the reset bit, which
        is written back as it is. */
    function Power(enabled: bool): FrontendView {
      this.(lines := lines.(power := enabled), files := if lines.reset then afterReset else files)
    }

    /** The same with other levels on the pins. */
    function Driven(pins: Outputs): FrontendView {
      this.(dac := dac.(outputs := pins))
    }

    /** VBIAS driven and enabled or disabled. */
    function VbiasSet(value: u16, enable: bool): FrontendView
      requires value <= DAC_12BIT_MAX
    {
      this.(dac := dac.Step(LevelWrite(Vbias, value)), vbiasEnabled := enable,
            lines := lines.(biasEnable := if enable then 1 else 0))
    }
  }

  /** The frontend after a staged configuration was applied: all AFEs reset and
      powered, then channels, VBIAS and AFEs programmed. */
  function AfterApply(v: FrontendView, s: StagedConfig): FrontendView
    requires Programmable(s)
  {
    var started := v.Reset(true).Reset(false).Power(true).VbiasSet(s.counts.biasControl, true);
    started.(trim := v.trim.Run(ChannelWrites(s.channels, Trim)),
             offset := v.offset.Run(ChannelWrites(s.channels, Offset)),
             dac := started.dac.Run(LevelWrites(s.afes)),
             files := ConfiguredFiles(started.files, s.afes))
  }

  // ---------- one slot at a time ----------

  lemma NextChannel(dac: PairDac, q: Quantity, slots: ChannelSlots, i: nat)
    requires i < 40 && ChannelsApplicable(slots[..i])
    requires slots[i].Some? ==> ChannelApplicable(slots[i].value)
    ensures ChannelsApplicable(slots[..i + 1])
    ensures dac.Run(ChannelWrites(slots[..i + 1], q))
         == if slots[i].Some? then dac.Run(ChannelWrites(slots[..i], q)).Step(ChannelWrite(slots[i].value, q))
            else dac.Run(ChannelWrites(slots[..i], q))
  {
    var before, next := slots[..i], slots[..i + 1];
    assert next[..i] == before;
    if slots[i].Some? {
      assert ChannelWrites(next, q) == ChannelWrites(before, q) + [ChannelWrite(slots[i].value, q)];
      RunAppends(dac, ChannelWrites(before, q), ChannelWrite(slots[i].value, q));
    } else {
      assert ChannelWrites(next, q) == ChannelWrites(before, q);
    }
  }

  lemma NextAfe(dac: DacState, files: Files, slots: AfeSlots, i: nat)
    requires i < 5 && AfesApplicable(slots[..i])
    requires slots[i].Some? ==> AfeApplicable(slots[i].value)
    ensures AfesApplicable(slots[..i + 1])
    ensures ConfiguredFiles(files, slots[..i + 1]) == ConfigureSlot(ConfiguredFiles(files, slots[..i]), slots[i])
    ensures dac.Run(LevelWrites(slots[..i + 1]))
         == if slots[i].Some? then dac.Run(LevelWrites(slots[..i])).Run(AfeLevels(slots[i].value))
            else dac.Run(LevelWrites(slots[..i]))
  {
    assert slots[..i + 1][..i] == slots[..i];
    if slots[i].None? {
      assert LevelWrites(slots[..i + 1]) == LevelWrites(slots[..i]);
    } else {
      assert LevelWrites(slots[..i + 1]) == LevelWrites(slots[..i]) + AfeLevels(slots[i].value);
      LevelsRunConcat(dac, LevelWrites(slots[..i]), AfeLevels(slots[i].value));
    }
  }

  lemma LevelsRunConcat(s: DacState, ws: seq<LevelWrite>, xs: seq<LevelWrite>)
    requires forall w :: w in ws + xs ==> InRange(w)
    requires |xs| <= 2
    ensures (forall w :: w in ws ==> InRange(w)) && (forall w :: w in xs ==> InRange(w))
    ensures s.Run(ws + xs) == s.Run(ws).Run(xs)
  {
    assert forall w :: w in ws ==> w in ws + xs;
    assert forall w :: w in xs ==> w in ws + xs;
    if |xs| == 0 {
      assert ws + xs == ws;
    } else if |xs| == 1 {
      assert (ws + xs)[..|ws|] == ws;
      assert xs[..0] == [];
    } else {
      var y := ws + [xs[0]];
      assert (ws + xs)[..|ws| + 1] == y && y[..|ws|] == ws;
      assert xs[..1] == [xs[0]] && [xs[0]][..0] == [];
    }
  }
}
